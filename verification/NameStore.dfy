/** The store of section names as it is: bytes and links that every lookup may change in place.  It is
    proved to answer every lookup as the book of names prescribes. */
module NameStore {
  import opened Wrappers
  import opened NameOrder
  import opened NameTree
  import opened NamePieces
  import opened NameBook
  import opened NameTable
  import opened NameChanges
  import opened NameSearch
  import opened NameReading
  import opened NameIds
  import opened LinkedLists

  /** How a search ends. */
  datatype Found = Nowhere(par: nat, c: Comparison) | Once(r: nat) | Twice

  class Names {
    const maxBytes: nat
    const maxNames: nat
    var byteMem: seq<Byte>
    var byteStart: seq<nat>
    var link: seq<nat>
    var rlink: seq<nat>
    var hash: seq<nat>
    ghost var role: seq<Role>
    ghost var tree: Tree
    ghost var book: Book
    ghost var chain: map<nat, seq<nat>>
    ghost var lists: seq<seq<nat>>
    ghost var ids: Ids

    ghost function T(): Table
      reads `byteMem, `byteStart, `link, `rlink
    {
      Table(byteMem, byteStart, link, rlink)
    }

    /** The table holds the section names `book` and the identifiers `ids`. */
    ghost predicate Valid()
      reads `byteMem, `byteStart, `link, `rlink, `hash, `role, `tree, `book, `chain, `lists, `ids
    {
      Holds(T(), role, tree, book, chain) && IdsAt(T(), role, hash, lists, ids)
    }

    /** Entry `n` holds name `n` of the book. */
    ghost predicate Entry(n: nat)
      reads `byteMem, `byteStart, `link, `rlink, `role, `book, `chain
    {
      Shape(T()) && |role| == |link| && n in book && n in chain && NameAt(T(), role, n, chain[n], book[n])
    }

    constructor (maxBytes: nat, maxNames: nat)
      ensures Valid() && book == map[] && ids == map[]
      ensures this.maxBytes == maxBytes && this.maxNames == maxNames
    {
      this.maxBytes, this.maxNames := maxBytes, maxNames;
      byteMem, byteStart, link, rlink := [], [0, 0], [0], [0];
      role, tree, book, chain := [Root], Leaf, map[], map[];
      hash, lists, ids := seq(HASH_SIZE, _ => 0), seq(HASH_SIZE, _ => []), map[];
    }

    // ----- Searching -----------------------------------------------------------------------------

    /** Comparison with the abbreviation of entry `p`. */
    method CompareKey(a: seq<Byte>, p: nat) returns (c: Comparison)
      requires Entry(p)
      ensures c == Compare(a, book[p].key)
    {
      KeyBytes(T(), role, p, chain[p], book[p]);
      hide NameAt, Compare, Shape;
      var s := byteStart[p];
      var length := Joined(byteMem[s], byteMem[s + 1]);
      c := WebStrcmp(a, byteMem[s + 2..s + 2 + length]);
    }

    /** The loop of `section_lookup`. */
    method Search(a: seq<Byte>) returns (f: Found)
      requires Valid()
      ensures match f
              case Nowhere(par, c) =>
                && Fitting(book, a) == {} && par < |link| && Ordered(tree, KeysOf(book))
                && EndsAt(tree, KeysOf(book), a, par, c)
              case Once(r) => Fitting(book, a) == {r}
              case Twice => exists x, y :: x in Fitting(book, a) && y in Fitting(book, a) && x != y
    {
      hide NameAt, Searching, IdsAt;
      var c := Equal;
      var p: nat, q: nat, r: nat, par: nat := rlink[0], 0, 0, 0;
      ghost var tp, tq, keys := tree, Leaf, KeysOf(book);
      FittingMatches(book, a);
      ElemsWithin(tree, book.Keys);
      SearchStarts(tree, keys, a);
      while p != 0
        invariant Represents(tp, p, link, rlink) && Represents(tq, q, link, rlink) && (p == 0 ==> q == 0)
        invariant Searching(tree, keys, a, tp, tq, r, par, c) && par < |link|
        invariant Within(tp, book.Keys) && Within(tq, book.Keys) && Ordered(tp, keys) && Ordered(tq, keys)
        decreases Size(tp) + Size(tq)
      {
        ghost var d := c;
        c := CompareKey(a, p);
        CompatibleCompare(a, keys[p]);
        if c == Less || c == Greater {
          if c == Less {
            SearchLess(tree, keys, a, tp, tq, r, par, d);
          } else {
            SearchGreater(tree, keys, a, tp, tq, r, par, d);
          }
          if r == 0 { par := p; }
          tp := if c == Less then tp.left else tp.right;
          p := if c == Less then link[p] else rlink[p];
        } else {
          if r != 0 {
            SearchTwo(tree, keys, a, tp, tq, r, par, d);
            return Twice;
          }
          SearchHit(tree, keys, a, tp, tq, par, d, c);
          r := p;
          tq := tp.right;
          tp := tp.left;
          p := link[p];
          q := rlink[r];
        }
        if p == 0 {
          SearchOther(tree, keys, a, tq, r, par, c);
          p, q := q, 0;
          tp, tq := tq, Leaf;
        }
      }
      SearchEnds(tree, keys, a, r, par, c);
      f := if r == 0 then Nowhere(par, c) else Once(r);
    }

    // ----- Reading -------------------------------------------------------------------------------

    ghost function PiecesOf(n: nat): (ps: seq<seq<Byte>>)
      requires Entry(n)
      reads `byteMem, `byteStart, `link, `rlink, `role, `book, `chain
      ensures |ps| == |chain[n]| + 1
    {
      Pieces(T(), n, chain[n])
    }

    /** A piece without its mark, and the link to the next piece: 0 if there is none. */
    method ReadPiece(ghost n: nat, ghost i: nat, r: nat, q: nat, s: nat) returns (marked: bool, e: nat, next: nat)
      requires Entry(n) && AtPiece(T(), n, chain[n], i, r, q, s)
      ensures i < |PiecesOf(n)| && s <= e <= |byteMem|
      ensures marked == Marked(PiecesOf(n)[i]) && byteMem[s..e] == Unmarked(PiecesOf(n)[i])
      ensures next != 0 <==> i + 1 < |PiecesOf(n)|
      ensures next != 0 ==> marked && next + 1 < |byteStart| && AtPiece(T(), n, chain[n], i + 1, next, next, byteStart[next])
      ensures next != 0 ==> (byteStart[next] == byteStart[next + 1] <==> PiecesOf(n)[i + 1] == [])
    {
      hide NameAt, Pieces, Unmarked, Marked;
      PieceBytes(T(), role, n, chain[n], book[n], i, r, q, s);
      PieceMarked(T(), role, n, chain[n], book[n], i, r, q, s);
      PieceLink(T(), role, n, chain[n], book[n], i, r, q, s);
      e, next := byteStart[r + 1], 0;
      PieceUnmarked(byteMem, s, e, PiecesOf(n)[i]);
      marked := e - 1 >= byteStart[r] && byteMem[e - 1] == SPACE;
      if marked { e, next := e - 1, link[q]; }
    }

    /** `section_name_cmp`: piece by piece, and what remains of the argument. */
    method SectionNameCmp(a: seq<Byte>, n: nat) returns (c: Class, rest: seq<Byte>)
      requires Entry(n)
      ensures c == Classify(a, book[n].text, book[n].complete)
      ensures c == Is(Extension) ==> a == book[n].text + rest
    {
      hide NameAt, Pieces, AtPiece, Text, ClassifyPieces, Compare, Unmarked, Marked, WellPieced;
      AtFirst(T(), role, n, chain[n], book[n]);
      ghost var ps, i := PiecesOf(n), 0;
      PiecesAsOne(a, ps);
      TextNone(ps, a);
      var r: nat, q: nat, s: nat := n, n + 1, byteStart[n] + 2;
      rest := a;
      while true
        invariant i < |ps| && AtPiece(T(), n, chain[n], i, r, q, s)
        invariant a == Text(ps[..i]) + rest && ClassifyPieces(rest, ps[i..]) == ClassifyPieces(a, ps)
        decreases |ps| - i
      {
        var marked, e, next := ReadPiece(n, i, r, q, s);
        OneTurn(rest, ps, i);
        var d := WebStrcmp(rest, byteMem[s..e]);
        if d == Equal && next != 0 { return Is(if byteStart[next] == byteStart[next + 1] then Equal else Prefix), rest; }
        if d != Equal && d != Extension { return Is(d), rest; }
        if !marked { return if d == Extension then BadExtension else Is(Equal), rest; }
        TextTaken(Text(ps[..i]), byteMem[s..e], rest);
        TextNext(ps, i);
        rest := rest[e - s..];
        i := i + 1;
        if next == 0 {
          assert ps[..i] == ps;
          return Is(Extension), rest;
        }
        r, q, s := next, next, byteStart[next];
      }
    }

    /** `sprint_section_name`: the whole text of a name. */
    method SprintSectionName(n: nat) returns (dest: seq<Byte>)
      requires Entry(n)
      ensures dest == book[n].text
    {
      AtFirst(T(), role, n, chain[n], book[n]);
      ghost var ps, i := PiecesOf(n), 0;
      hide NameAt, Pieces, AtPiece;
      var r: nat, q: nat, s: nat := n, n + 1, byteStart[n] + 2;
      dest := [];
      while r != 0
        invariant i <= |ps| && dest == Text(ps[..i])
        invariant if r == 0 then i == |ps| else i < |ps| && AtPiece(T(), n, chain[n], i, r, q, s)
        decreases |ps| - i
      {
        var marked, e, next := ReadPiece(n, i, r, q, s);
        TextNext(ps, i);
        dest := dest + byteMem[s..e];
        i := i + 1;
        r, q := next, next;
        if next != 0 { s := byteStart[next]; }
      }
      assert ps[..i] == ps;
    }

    // ----- Changing ------------------------------------------------------------------------------

    /** The bytes of a new entry, and a slot after it if there is more. */
    method AppendEntry(a: seq<Byte>, ispref: bool)
      requires |a| < 65536
      modifies `byteMem, `byteStart, `link, `rlink
      ensures T() == AddEntry(old(T()), a, ispref)
    {
      byteMem := byteMem + ([|a| / 256, |a| % 256] + a + if ispref then [SPACE] else []);
      byteStart, link, rlink := byteStart + [|byteMem|], link + [0], rlink + [0];
      if ispref {
        byteStart, link, rlink := byteStart + [|byteMem|], link + [0], rlink + [0];
        assert byteMem + [] == byteMem;
      }
    }

    /** The pointer to a new entry. */
    method HangEntry(par: nat, c: Comparison, p: nat)
      requires par < |link| == |rlink|
      modifies `link, `rlink
      ensures T() == Hang(old(T()), par, c, p)
    {
      if par == 0 {
        rlink := rlink[0 := p];
      } else if c == Less {
        link := link[par := p];
      } else {
        rlink := rlink[par := p];
      }
    }

    /** `add_section_name` */
    method AddSectionName(par: nat, c: Comparison, a: seq<Byte>, ispref: bool) returns (ok: bool, p: nat)
      requires Valid() && Proper(a, ispref) && Fitting(book, a) == {}
      requires par < |link| && Ordered(tree, KeysOf(book)) && EndsAt(tree, KeysOf(book), a, par, c)
      modifies `byteMem, `byteStart, `link, `rlink, `role, `tree, `book, `chain
      ensures ok <==> |old(byteMem)| + 2 + |a| + (if ispref then 1 else 0) < maxBytes && |old(link)| + 2 < maxNames
      ensures ok ==> Valid() && p !in old(book) && book == old(book)[p := Name(a, a, !ispref)]
    {
      hide NameAt, NamesAt, TreeAt, Shape, EndsAt, Fitting, Insert, AddRoles, Hang, AddEntry, IdsAt;
      ParentRole(T(), role, tree, book, chain, a, par, c);
      AddKeepsIds(T(), role, hash, lists, ids, a, ispref, par, c);
      AddHolds(T(), role, tree, book, chain, a, ispref, par, c);
      p := |link|;
      var nameLen := |a| + if ispref then 1 else 0;
      ok := |byteMem| + 2 + nameLen <= maxBytes - 1 && p + 1 < maxNames - 1;
      if !ok { return; }
      AppendEntry(a, ispref);
      HangEntry(par, c, p);
      role, tree := AddRoles(role, ispref), Insert(tree, KeysOf(book), a, p);
      book, chain := book[p := Name(a, a, !ispref)], chain[p := []];
    }

    /** The entry whose link says that no more pieces follow. */
    method LastPiece(p: nat) returns (q: nat)
      requires Entry(p) && !book[p].complete
      ensures q == LastHolder(p, chain[p]) && q < |link|
    {
      hide NameAt, Shape, LastHolder;
      ghost var cs, i := chain[p], 0;
      HolderLink(T(), role, p, cs, book[p], 0);
      q := FirstHolder(p, cs);
      while link[q] != 0
        invariant i <= |cs| && q == LastHolder(p, cs[..i]) && q < |link|
        invariant link[q] == if i < |cs| then cs[i] else 0
        decreases |cs| - i
      {
        HolderLink(T(), role, p, cs, book[p], i);
        i := i + 1;
        HolderLink(T(), role, p, cs, book[p], i);
        q := link[q];
      }
      HolderLink(T(), role, p, cs, book[p], i);
      assert cs[..|cs|] == cs;
    }

    static method FirstHolder(p: nat, ghost cs: seq<nat>) returns (q: nat)
      ensures q == p + 1 == LastHolder(p, cs[..0])
    {
      q := p + 1;
    }

    /** A new entry for a piece, linked from entry `q`. */
    method AppendPiece(q: nat, b: seq<Byte>)
      requires q < |link|
      modifies `byteMem, `byteStart, `link, `rlink
      ensures T() == Extend(old(T()), q, b)
    {
      link := link[q := |link|] + [0];
      byteMem := byteMem + b;
      byteStart, rlink := byteStart + [|byteMem|], rlink + [0];
    }

    /** `extend_section_name` */
    method ExtendSectionName(p: nat, suffix: seq<Byte>, ispref: bool) returns (ok: bool)
      requires Valid() && p in book && !book[p].complete && (if ispref then suffix != [] else !Marked(suffix))
      modifies `byteMem, `byteStart, `link, `rlink, `role, `book, `chain
      ensures ok <==> |old(byteMem)| + |suffix| + (if ispref then 1 else 0) < maxBytes && |old(link)| + 1 < maxNames
      ensures ok ==> Valid() && book == old(book)[p := Name(old(book)[p].key, old(book)[p].text + suffix, !ispref)]
    {
      hide NameAt, TreeAt, Shape, HoldsLonger, Longer, Marked, IdsAt, Extend;
      var b := suffix + if ispref then [SPACE] else [];
      assert Entry(p);
      ok := |link| < maxNames - 1;
      if !ok { return; }
      var q := LastPiece(p);
      ok := |byteMem| + |b| <= maxBytes - 1;
      if !ok { return; }
      PieceFor(suffix, ispref, book[p]);
      HolderNoId(T(), role, p, chain[p], book[p]);
      ExtendKeepsIds(T(), role, hash, lists, ids, q, b, p);
      ExtendHolds(T(), role, tree, book, chain, p, b);
      LongerHolds(T(), role, tree, book, chain, p, b);
      role, book, chain := role + [Chunk(p)], book[p := Longer(book[p], b)], chain[p := chain[p] + [|link|]];
      AppendPiece(q, b);
    }

    static lemma LongerHolds(t: Table, role: seq<Role>, tree: Tree, book: Book, chain: map<nat, seq<nat>>, n: nat, b: seq<Byte>)
      requires n in book && n in chain && HoldsLonger(t, role, tree, book, chain, n, b)
      ensures LastHolder(n, chain[n]) < |t.link|
      ensures Holds(Extend(t, LastHolder(n, chain[n]), b), role + [Chunk(n)], tree,
                    book[n := Longer(book[n], b)], chain[n := chain[n] + [|t.link|]])
    {
      hide NameAt, Shape;
    }

    /** `set_prefix_length` with the length of `a`, which abbreviates name `p` further. */
    method SetPrefixLength(p: nat, a: seq<Byte>)
      requires Valid() && p in book && a <= book[p].key && |a| < 65536 && Fitting(book, a) <= {p}
      modifies `byteMem, `book
      ensures Valid() && book == old(book)[p := old(book)[p].(key := a)]
    {
      hide NameAt, TreeAt, Shape, Fitting, IdsAt;
      NameRole(T(), role, p, chain[p], book[p]);
      KeyBytes(T(), role, p, chain[p], book[p]);
      ShortenKeepsIds(T(), role, hash, lists, ids, p, |a|);
      ShortenHolds(T(), role, tree, book, chain, p, a);
      byteMem := byteMem[byteStart[p] := |a| / 256][byteStart[p] + 1 := |a| % 256];
      book := book[p := book[p].(key := a)];
    }

    // ----- section_lookup ------------------------------------------------------------------------

    /** There is more text for a name, and no room for it. */
    ghost predicate NoRoomToExtend(nm: Name, a: seq<Byte>, ispref: bool, bytes: nat, entries: nat) {
      && Classify(a, nm.text, nm.complete) == Is(Extension) && Updated(nm, a, ispref) != nm
      && (bytes + |a| - |nm.text| + (if ispref then 1 else 0) >= maxBytes || entries + 1 >= maxNames)
    }

    /** There is a new name, or more text for the only name that `a` fits, and no room for it. */
    ghost predicate NoRoom(book: Book, a: seq<Byte>, ispref: bool, bytes: nat, entries: nat) {
      || (Fitting(book, a) == {} && (bytes + 2 + |a| + (if ispref then 1 else 0) >= maxBytes || entries + 2 >= maxNames))
      || (exists n | n in book :: Fitting(book, a) == {n} && NoRoomToExtend(book[n], a, ispref, bytes, entries))
    }

    /** The one name that `a` fits is compared as a whole, and extended or abbreviated. */
    method LookupFound(a: seq<Byte>, ispref: bool, n: nat) returns (r: Answer)
      requires Valid() && Proper(a, ispref) && Fitting(book, a) == {n}
      modifies `byteMem, `byteStart, `link, `rlink, `role, `book, `chain
      ensures n in old(book)
      ensures r.Overflow? <==> NoRoomToExtend(old(book)[n], a, ispref, |old(byteMem)|, |old(link)|)
      ensures !r.Overflow? ==> Valid() && LooksUp(old(book), a, ispref, r, book)
    {
      hide NameAt, TreeAt, Shape, Fitting, Classify, IdsAt;
      HoldsValid(T(), role, tree, book, chain);
      FittingPrefix(book, n, a);
      ghost var nm := book[n];
      UpdatedBy(nm, a, ispref);
      LooksUpFound(book, a, ispref, n);
      assert Entry(n);
      var c, rest := SectionNameCmp(a, n);
      r := At(n, if c == Is(Prefix) then !ispref else c != Is(Equal) && c != Is(Extension));
      if c == Is(Prefix) {
        if ispref {
          var length := PrefixLengthOf(n);
          if |a| < length { SetPrefixLength(n, a); }
        }
      } else if c == Is(Extension) && (!ispref || rest != []) {
        RestProper(a, nm.text, rest, ispref);
        var ok := ExtendSectionName(n, rest, ispref);
        if !ok { return Overflow; }
      }
      assert book == old(book)[n := Updated(nm, a, ispref)];
    }

    method PrefixLengthOf(n: nat) returns (length: nat)
      requires Entry(n)
      ensures length == |book[n].key|
    {
      KeyBytes(T(), role, n, chain[n], book[n]);
      var s := byteStart[n];
      length := Joined(byteMem[s], byteMem[s + 1]);
    }

    /** `section_lookup`: every call answers and changes the names as the book prescribes, unless the byte
        memory or the name table overflows. */
    method SectionLookup(a: seq<Byte>, ispref: bool) returns (r: Answer)
      requires Valid() && Proper(a, ispref)
      modifies `byteMem, `byteStart, `link, `rlink, `role, `tree, `book, `chain
      ensures r.Overflow? <==> NoRoom(old(book), a, ispref, |old(byteMem)|, |old(link)|)
      ensures !r.Overflow? ==> Valid() && LooksUp(old(book), a, ispref, r, book)
    {
      hide NameAt, TreeAt, Shape, EndsAt, Fitting, IdsAt;
      var f := Search(a);
      match f
      case Nowhere(par, c) =>
        var ok, p := AddSectionName(par, c, a, ispref);
        r := if ok then At(p, false) else Overflow;
      case Once(n) =>
        r := LookupFound(a, ispref, n);
      case Twice =>
        r := Ambiguous;
    }

    // ----- id_lookup -----------------------------------------------------------------------------

    /** The hash code of an identifier. */
    static method ComputeHash(s: seq<Byte>) returns (h: nat)
      requires s != []
      ensures h == HashOf(s)
    {
      h := s[0];
      var i := 1;
      while i < |s|
        invariant 1 <= i <= |s| && h < HASH_SIZE && HashFrom(h, s[i..]) == HashOf(s)
      {
        assert s[i..][1..] == s[i + 1..];
        h := (h + h + s[i]) % HASH_SIZE;
        i := i + 1;
      }
    }

    /** The search along the list of hash code `h`: the entry of the identifier, 0 if there is none. */
    method FindId(s: seq<Byte>, h: nat) returns (p: nat)
      requires Valid() && s != [] && h == HashOf(s)
      ensures p != 0 <==> s in ids
      ensures p != 0 ==> p == ids[s]
    {
      hide NameAt, TreeAt, ListsAt, HashOf, Bytes, IdsAt;
      HashStarts(T(), role, hash, lists, ids, h);
      ghost var i := 0;
      p := hash[h];
      assert lists[h][0..] == lists[h];
      while p != 0
        invariant h < |lists| && i <= |lists[h]| && Chain(link, p, lists[h][i..])
        invariant forall j: nat | j < i :: lists[h][j] < |link| && Shape(T()) && Bytes(T(), lists[h][j]) != s
        decreases |lists[h]| - i
      {
        OnList(T(), role, hash, lists, ids, h, p, lists[h][i..], i);
        if byteStart[p + 1] - byteStart[p] == |s| && byteMem[byteStart[p]..byteStart[p + 1]] == s { return; }
        p := link[p];
        i := i + 1;
      }
      assert i == |lists[h]|;
      NotMet(T(), role, hash, lists, ids, s);
    }

    /** A new identifier. */
    method AddIdentifier(s: seq<Byte>, h: nat)
      requires h < |hash|
      modifies `byteMem, `byteStart, `link, `rlink, `hash
      ensures T() == AddId(old(T()), s, old(hash)[h]) && hash == old(hash)[h := |old(link)|]
    {
      var p := |link|;
      link, rlink := link + [hash[h]], rlink + [0];
      hash := hash[h := p];
      byteMem := byteMem + s;
      byteStart := byteStart + [|byteMem|];
    }

    /** `id_lookup`, with the rule of CTANGLE that names match if they are equal: the entry of an identifier
        is always the same, and different from those of other identifiers. */
    method IdLookup(s: seq<Byte>) returns (ok: bool, p: nat)
      requires Valid() && s != []
      modifies `byteMem, `byteStart, `link, `rlink, `hash, `role, `lists, `ids
      ensures ok <==> s in old(ids) || (|old(byteMem)| + |s| < maxBytes && |old(link)| + 1 < maxNames)
      ensures ok ==> Valid() && s in ids && p == ids[s]
      ensures ok ==> ids == if s in old(ids) then old(ids) else old(ids)[s := |old(link)|]
    {
      hide NameAt, Holds, IdsAt, HashOf, Shape;
      var h := ComputeHash(s);
      p := FindId(s, h);
      ok := true;
      if p == 0 {
        p := |link|;
        ok := |byteMem| + |s| <= maxBytes - 1 && p < maxNames - 1;
        if !ok { return; }
        HashStarts(T(), role, hash, lists, ids, h);
        IdAdded(T(), role, hash, lists, ids, s);
        NamesKeptById(T(), role, tree, book, chain, s, hash[h]);
        AddIdentifier(s, h);
        role, lists, ids := role + [Identifier], lists[h := [p] + lists[h]], ids[s := p];
      }
    }
  }

  lemma HashStarts(t: Table, role: seq<Role>, hash: seq<nat>, lists: seq<seq<nat>>, ids: Ids, h: nat)
    requires IdsAt(t, role, hash, lists, ids) && h < HASH_SIZE
    ensures |hash| == |lists| == HASH_SIZE && Chain(t.link, hash[h], lists[h]) && |t.link| > 0
  {
  }

  lemma HolderNoId(t: Table, role: seq<Role>, n: nat, cs: seq<nat>, nm: Name)
    requires Shape(t) && |role| == |t.link| && NameAt(t, role, n, cs, nm) && !nm.complete
    ensures LastHolder(n, cs) < |t.link| && role[LastHolder(n, cs)] != Identifier
  {
    hide NameAt;
    HolderRole(t, role, n, cs, nm);
  }

  lemma FittingPrefix(book: Book, n: nat, a: seq<Byte>)
    requires ValidBook(book) && Fitting(book, a) == {n}
    ensures n in book
    ensures Classify(a, book[n].text, book[n].complete) == Is(Prefix) && |a| < |book[n].key| ==> a <= book[n].key
    ensures Classify(a, book[n].text, book[n].complete) == Is(Extension) ==> !book[n].complete
  {
    assert n in Fitting(book, a);
    var m := CompareMeans(a, book[n].text);
  }

  lemma UpdatedBy(nm: Name, a: seq<Byte>, ispref: bool)
    ensures var c, u := Classify(a, nm.text, nm.complete), Updated(nm, a, ispref);
            && (c == Is(Extension) ==> u == Name(nm.key, a, !ispref) && (a == nm.text && ispref ==> u == nm))
            && (c == Is(Prefix) ==> u == if ispref && |a| < |nm.key| then nm.(key := a) else nm)
            && (c != Is(Extension) && c != Is(Prefix) ==> u == nm)
            && (Misfit(nm, a, ispref) <==> if c == Is(Prefix) then !ispref else c != Is(Equal) && c != Is(Extension))
  {
  }

  lemma LooksUpFound(book: Book, a: seq<Byte>, ispref: bool, n: nat)
    requires Fitting(book, a) == {n} && n in book
    ensures LooksUp(book, a, ispref, At(n, Misfit(book[n], a, ispref)), book[n := Updated(book[n], a, ispref)])
  {
  }

  /** What remains of a complete name is empty or does not end with a space. */
  lemma RestProper(a: seq<Byte>, text: seq<Byte>, rest: seq<Byte>, ispref: bool)
    requires a == text + rest && Proper(a, ispref)
    ensures !ispref ==> !Marked(rest)
  {
    if rest != [] { assert a[|a| - 1] == rest[|rest| - 1]; }
  }
}