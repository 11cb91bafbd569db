/** What a lookup does to the name table: a new name, a further piece of a name, a shorter abbreviation. */
module NameChanges {
  import opened Wrappers
  import opened NameOrder
  import opened NameTree
  import opened NamePieces
  import opened NameBook
  import opened NameTable

  // ----- A new name ------------------------------------------------------------------------------

  /** The bytes of a new name: the length of the abbreviation, the name, and a space if there is more. */
  function NameBytes(a: seq<Byte>, ispref: bool): seq<Byte>
    requires |a| < 65536
  {
    [|a| / 256, |a| % 256] + a + if ispref then [SPACE] else []
  }

  function AddEntry(t: Table, a: seq<Byte>, ispref: bool): Table
    requires |a| < 65536
  {
    if ispref then Grow(Grow(t, NameBytes(a, ispref)), []) else Grow(t, NameBytes(a, ispref))
  }

  function AddRoles(role: seq<Role>, ispref: bool): seq<Role> {
    role + if ispref then [SectionName, Slot] else [SectionName]
  }

  /** A name that is given completely does not end with a space. */
  predicate Proper(a: seq<Byte>, ispref: bool) {
    |a| < 65536 && (ispref || !Marked(a))
  }

  lemma FirstOfNew(a: seq<Byte>, ispref: bool)
    requires Proper(a, ispref)
    ensures var b := NameBytes(a, ispref)[2..];
            && Marked(b) == ispref && Unmarked(b) == a && WellPieced([b])
            && Text([b]) == a && Complete([b]) == !ispref
    ensures |NameBytes(a, ispref)| >= 2 && Joined(NameBytes(a, ispref)[0], NameBytes(a, ispref)[1]) == |a|
  {
    var b := NameBytes(a, ispref)[2..];
    assert b == a + if ispref then [SPACE] else [];
    OnePiece([b]);
  }

  /** The new entry holds the new name, and the others what they held. */
  lemma EntryAdded(t: Table, role: seq<Role>, a: seq<Byte>, ispref: bool)
    requires Shape(t) && |role| == |t.link| && Proper(a, ispref)
    ensures var t', role', n := AddEntry(t, a, ispref), AddRoles(role, ispref), |t.link|;
            && Shape(t') && |role'| == |t'.link| && t'.link == t.link + seq(|role'| - n, _ => 0)
            && t'.rlink == t.rlink + seq(|role'| - n, _ => 0)
            && (forall i: nat | i < n :: Bytes(t', i) == Bytes(t, i))
            && NameAt(t', role', n, [], Name(a, a, !ispref))
  {
    var t1 := Grow(t, NameBytes(a, ispref));
    var t', role', n := AddEntry(t, a, ispref), AddRoles(role, ispref), |t.link|;
    GrowBytes(t, NameBytes(a, ispref));
    if ispref { GrowBytes(t1, []); }
    FirstOfNew(a, ispref);
    assert Bytes(t', n) == NameBytes(a, ispref);
    assert Pieces(t', n, []) == [First(t', n)];
  }

  /** The pointer to the new name `n`. */
  function Hang(t: Table, par: nat, c: Comparison, n: nat): Table
    requires par < |t.link| == |t.rlink|
  {
    if c == Less && par != 0 then t.(link := t.link[par := n]) else t.(rlink := t.rlink[par := n])
  }

  /** Changing the pointer of an entry that holds no link between pieces. */
  lemma HangKept(t: Table, role: seq<Role>, par: nat, c: Comparison, n: nat, m: nat, cs: seq<nat>, nm: Name)
    requires Shape(t) && |role| == |t.link| && par < |t.link| && (role[par] == Root || role[par] == SectionName)
    requires NameAt(t, role, m, cs, nm)
    ensures Shape(Hang(t, par, c, n)) && NameAt(Hang(t, par, c, n), role, m, cs, nm)
  {
    hide NameAt, Pieces;
    var t' := Hang(t, par, c, n);
    NameRole(t, role, m, cs, nm);
    assert forall x: nat | x < |t.link| :: Bytes(t', x) == Bytes(t, x);
    hide Bytes;
    NameKept(t, role, t', role, m, cs, nm);
  }

  /** Where the search for `a` ends: at the root of an empty tree, or at the last node on the path. */
  ghost predicate EndsAt(tree: Tree, keys: Keys, a: seq<Byte>, par: nat, c: Comparison)
    requires Ordered(tree, keys)
  {
    if tree.Leaf? then par == 0 else LastOnPath(tree, keys, a) == (par, c)
  }

  lemma HangInserts(t: Table, tree: Tree, keys: Keys, a: seq<Byte>, t1: Table, par: nat, c: Comparison)
    requires Shape(t) && Shape(t1) && Ordered(tree, keys) && Represents(tree, t.rlink[0], t.link, t.rlink)
    requires |t1.link| > |t.link| && t.link <= t1.link && t.rlink <= t1.rlink && par < |t.link|
    requires t1.link[|t.link|] == 0 == t1.rlink[|t.link|]
    requires EndsAt(tree, keys, a, par, c)
    requires forall x | x in Elems(tree) :: 0 < x < |t.link|
    ensures var t2 := Hang(t1, par, c, |t.link|);
            Represents(Insert(tree, keys, a, |t.link|), t2.rlink[0], t2.link, t2.rlink)
  {
    var n := |t.link|;
    var t2 := Hang(t1, par, c, n);
    if tree.Node? { Attach(tree, keys, a, n, t.rlink[0], t.link, t.rlink, t2.link, t2.rlink); }
  }

  lemma KeysUpdated(book: Book, p: nat, nm: Name)
    ensures KeysOf(book[p := nm]) == KeysOf(book)[p := nm.key]
  {
  }

  /** All names, when entry `n` has become `nm` and the others are what they were. */
  lemma NamesChanged(t: Table, role: seq<Role>, book: Book, chain: map<nat, seq<nat>>, t': Table, role': seq<Role>,
                     n: nat, cs: seq<nat>, nm: Name)
    requires NamesAt(t, role, book, chain) && Shape(t') && |role'| == |t'.link| && role'[0] == Root
    requires NameAt(t', role', n, cs, nm)
    requires forall m | m in book && m != n :: NameAt(t', role', m, chain[m], book[m])
    ensures NamesAt(t', role', book[n := nm], chain[n := cs])
  {
    hide NameAt;
  }

  lemma OthersAdded(t: Table, role: seq<Role>, m: nat, cs: seq<nat>, nm: Name, a: seq<Byte>, ispref: bool, par: nat, c: Comparison)
    requires Shape(t) && |role| == |t.link| && NameAt(t, role, m, cs, nm) && Proper(a, ispref)
    requires par < |t.link| && (role[par] == Root || role[par] == SectionName)
    ensures par < |AddEntry(t, a, ispref).link| == |AddEntry(t, a, ispref).rlink|
    ensures var t', role' := Hang(AddEntry(t, a, ispref), par, c, |t.link|), AddRoles(role, ispref);
            Shape(t') && |role'| == |t'.link| && NameAt(t', role', m, cs, nm)
  {
    var t1, role' := AddEntry(t, a, ispref), AddRoles(role, ispref);
    EntryAdded(t, role, a, ispref);
    NameKept(t, role, t1, role', m, cs, nm);
    HangKept(t1, role', par, c, |t.link|, m, cs, nm);
  }

  lemma NewAdded(t: Table, role: seq<Role>, a: seq<Byte>, ispref: bool, par: nat, c: Comparison)
    requires Shape(t) && |role| == |t.link| && Proper(a, ispref)
    requires par < |t.link| && (role[par] == Root || role[par] == SectionName)
    ensures par < |AddEntry(t, a, ispref).link| == |AddEntry(t, a, ispref).rlink|
    ensures var n, t', role' := |t.link|, Hang(AddEntry(t, a, ispref), par, c, |t.link|), AddRoles(role, ispref);
            Shape(t') && |role'| == |t'.link| && NameAt(t', role', n, [], Name(a, a, !ispref))
  {
    EntryAdded(t, role, a, ispref);
    HangKept(AddEntry(t, a, ispref), AddRoles(role, ispref), par, c, |t.link|, |t.link|, [], Name(a, a, !ispref));
  }

  lemma AddNames(t: Table, role: seq<Role>, book: Book, chain: map<nat, seq<nat>>,
                 a: seq<Byte>, ispref: bool, par: nat, c: Comparison)
    requires NamesAt(t, role, book, chain) && Proper(a, ispref)
    requires par < |t.link| && (role[par] == Root || role[par] == SectionName)
    ensures par < |AddEntry(t, a, ispref).link| == |AddEntry(t, a, ispref).rlink| && |t.link| !in book
    ensures NamesAt(Hang(AddEntry(t, a, ispref), par, c, |t.link|), AddRoles(role, ispref),
                    book[|t.link| := Name(a, a, !ispref)], chain[|t.link| := []])
  {
    NewAdded(t, role, a, ispref, par, c);
    var n, t', role' := |t.link|, Hang(AddEntry(t, a, ispref), par, c, |t.link|), AddRoles(role, ispref);
    forall m | m in book ensures NameAt(t', role', m, chain[m], book[m]) && m != n {
      OthersAdded(t, role, m, chain[m], book[m], a, ispref, par, c);
    }
    NamesChanged(t, role, book, chain, t', role', n, [], Name(a, a, !ispref));
  }

  lemma AddTree(t: Table, tree: Tree, book: Book, t1: Table, a: seq<Byte>, ispref: bool, par: nat, c: Comparison)
    requires Shape(t) && Shape(t1) && TreeAt(t, tree, book) && Fitting(book, a) == {}
    requires |t1.link| > |t.link| && t.link <= t1.link && t.rlink <= t1.rlink && par < |t.link|
    requires t1.link[|t.link|] == 0 == t1.rlink[|t.link|]
    requires EndsAt(tree, KeysOf(book), a, par, c)
    requires forall x | x in book :: 0 < x < |t.link|
    ensures var n := |t.link|;
            TreeAt(Hang(t1, par, c, n), Insert(tree, KeysOf(book), a, n), book[n := Name(a, a, !ispref)])
  {
    hide NameAt;
    var n, keys := |t.link|, KeysOf(book);
    FittingMatches(book, a);
    InsertElems(tree, keys, a, n);
    InsertOrdered(tree, keys, a, n);
    KeysUpdated(book, n, Name(a, a, !ispref));
    HangInserts(t, tree, keys, a, t1, par, c);
  }

  /** A name that fits none is added to the table and to the tree. */
  lemma AddHolds(t: Table, role: seq<Role>, tree: Tree, book: Book, chain: map<nat, seq<nat>>,
                 a: seq<Byte>, ispref: bool, par: nat, c: Comparison)
    requires Holds(t, role, tree, book, chain) && Proper(a, ispref) && Fitting(book, a) == {}
    requires EndsAt(tree, KeysOf(book), a, par, c) && par < |t.link|
    ensures |t.rlink| == |t.link| && par < |AddEntry(t, a, ispref).link| == |AddEntry(t, a, ispref).rlink|
    ensures var n, keys := |t.link|, KeysOf(book);
            && n !in book
            && Holds(Hang(AddEntry(t, a, ispref), par, c, n), AddRoles(role, ispref), Insert(tree, keys, a, n),
                     book[n := Name(a, a, !ispref)], chain[n := []])
  {
    hide NameAt;
    ParentRole(t, role, tree, book, chain, a, par, c);
    AddNames(t, role, book, chain, a, ispref, par, c);
    EntryAdded(t, role, a, ispref);
    forall x | x in book ensures 0 < x < |t.link| { NameRole(t, role, x, chain[x], book[x]); }
    AddTree(t, tree, book, AddEntry(t, a, ispref), a, ispref, par, c);
  }

  lemma ParentRole(t: Table, role: seq<Role>, tree: Tree, book: Book, chain: map<nat, seq<nat>>,
                   a: seq<Byte>, par: nat, c: Comparison)
    requires Holds(t, role, tree, book, chain) && EndsAt(tree, KeysOf(book), a, par, c) && par < |t.link|
    ensures role[par] == Root || role[par] == SectionName
  {
    if tree.Node? { assert par in book && NameAt(t, role, par, chain[par], book[par]); }
  }

  // ----- A further piece -------------------------------------------------------------------------

  /** The entry whose link leads to the next piece. */
  function LastHolder(n: nat, cs: seq<nat>): nat {
    if cs == [] then n + 1 else cs[|cs| - 1]
  }

  /** A new entry with bytes `b`, linked from entry `h`. */
  function Extend(t: Table, h: nat, b: seq<Byte>): Table
    requires h < |t.link|
  {
    Grow(t.(link := t.link[h := |t.link|]), b)
  }

  lemma ExtendBytes(t: Table, h: nat, b: seq<Byte>)
    requires Shape(t) && h < |t.link|
    ensures Shape(Extend(t, h, b)) && Bytes(Extend(t, h, b), |t.link|) == b
    ensures forall i: nat | i < |t.link| :: Bytes(Extend(t, h, b), i) == Bytes(t, i)
  {
    var t1 := t.(link := t.link[h := |t.link|]);
    GrowBytes(t1, b);
    assert forall i: nat | i < |t.link| :: Bytes(t1, i) == Bytes(t, i);
  }

  lemma HolderRole(t: Table, role: seq<Role>, n: nat, cs: seq<nat>, nm: Name)
    requires Shape(t) && |role| == |t.link| && NameAt(t, role, n, cs, nm) && !nm.complete
    ensures var h := LastHolder(n, cs);
            && n < h < |t.link| && t.link[h] == 0
            && if cs == [] then h == n + 1 && role[h] == Slot && Marked(First(t, n)) else role[h] == Chunk(n)
  {
    assert Pieces(t, n, cs)[0] == First(t, n);
  }

  /** Where the links from piece to piece lead. */
  lemma HolderLink(t: Table, role: seq<Role>, n: nat, cs: seq<nat>, nm: Name, i: nat)
    requires Shape(t) && |role| == |t.link| && NameAt(t, role, n, cs, nm) && !nm.complete && i <= |cs|
    ensures LastHolder(n, cs[..i]) < |t.link|
    ensures t.link[LastHolder(n, cs[..i])] == if i < |cs| then cs[i] else 0
    ensures i < |cs| ==> cs[i] > 0 && LastHolder(n, cs[..i + 1]) == cs[i]
  {
    assert Pieces(t, n, cs)[0] == First(t, n);
    if 0 < i < |cs| { assert t.link[cs[i - 1]] == cs[i]; }
  }

  /** Other names are not affected. */
  lemma ExtendKept(t: Table, role: seq<Role>, n: nat, cs: seq<nat>, nm: Name, b: seq<Byte>, m: nat, ds: seq<nat>, om: Name)
    requires Shape(t) && |role| == |t.link| && NameAt(t, role, n, cs, nm) && !nm.complete
    requires m != n && NameAt(t, role, m, ds, om)
    ensures LastHolder(n, cs) < |t.link| && Shape(Extend(t, LastHolder(n, cs), b))
    ensures NameAt(Extend(t, LastHolder(n, cs), b), role + [Chunk(n)], m, ds, om)
  {
    HolderRole(t, role, n, cs, nm);
    ExtendBytes(t, LastHolder(n, cs), b);
    NameKept(t, role, Extend(t, LastHolder(n, cs), b), role + [Chunk(n)], m, ds, om);
  }

  /** The pieces of the extended name. */
  lemma ExtendedPieces(t: Table, role: seq<Role>, n: nat, cs: seq<nat>, nm: Name, b: seq<Byte>)
    requires Shape(t) && |role| == |t.link| && NameAt(t, role, n, cs, nm) && !nm.complete
    requires Marked(b) ==> |b| >= 2
    ensures var h, e := LastHolder(n, cs), |t.link|;
            && h < e && Shape(Extend(t, h, b)) && |Bytes(Extend(t, h, b), n)| >= 2
            && var ps := Pieces(Extend(t, h, b), n, cs + [e]);
            && First(Extend(t, h, b), n) == First(t, n)
            && PrefixLength(Extend(t, h, b), n) == PrefixLength(t, n)
            && WellPieced(ps) && Text(ps) == nm.text + Unmarked(b) && Complete(ps) == !Marked(b)
  {
    HolderRole(t, role, n, cs, nm);
    MorePieces(t, n, cs, LastHolder(n, cs), b);
    TextAppend(Pieces(t, n, cs), b);
    AppendPieces(Pieces(t, n, cs), b);
    hide Pieces, WellPieced, Complete, Text, Extend;
  }

  lemma MorePieces(t: Table, n: nat, cs: seq<nat>, h: nat, b: seq<Byte>)
    requires Shape(t) && n < |t.link| && |Bytes(t, n)| >= 2 && (forall i | 0 <= i < |cs| :: cs[i] < |t.link|) && h < |t.link|
    ensures Shape(Extend(t, h, b)) && |Bytes(Extend(t, h, b), n)| >= 2 && First(Extend(t, h, b), n) == First(t, n)
    ensures PrefixLength(Extend(t, h, b), n) == PrefixLength(t, n)
    ensures Pieces(Extend(t, h, b), n, cs + [|t.link|]) == Pieces(t, n, cs) + [b]
  {
    ExtendBytes(t, h, b);
    hide Extend, Bytes;
    assert forall i | 0 <= i < |cs| :: Bytes(Extend(t, h, b), cs[i]) == Bytes(t, cs[i]);
  }

  lemma AppendPieces(ps: seq<seq<Byte>>, b: seq<Byte>)
    requires WellPieced(ps) && !Complete(ps) && (Marked(b) ==> |b| >= 2)
    ensures WellPieced(ps + [b]) && Complete(ps + [b]) == !Marked(b)
  {
  }

  lemma ChunksExtended(t: Table, t': Table, role: seq<Role>, n: nat, cs: seq<nat>)
    requires |role| == |t.link| && ChunksAt(t, role, n, cs) && LastHolder(n, cs) < |t.link| && n + 1 < |t.link|
    requires t'.link == t.link[LastHolder(n, cs) := |t.link|] + [0]
    ensures ChunksAt(t', role + [Chunk(n)], n, cs + [|t.link|])
  {
  }

  lemma SlotExtended(t: Table, t': Table, role: seq<Role>, n: nat, cs: seq<nat>)
    requires |role| == |t.link| && SlotAt(t, role, n, cs) && ChunksAt(t, role, n, cs) && LastHolder(n, cs) < |t.link|
    requires t'.link == t.link[LastHolder(n, cs) := |t.link|] + [0]
    ensures SlotAt(t', role + [Chunk(n)], n, cs + [|t.link|])
  {
  }

  lemma ExtendedLinks(t: Table, role: seq<Role>, n: nat, cs: seq<nat>, nm: Name, b: seq<Byte>)
    requires Shape(t) && |role| == |t.link| && NameAt(t, role, n, cs, nm) && !nm.complete
    ensures var h, e := LastHolder(n, cs), |t.link|;
            && h < e
            && ChunksAt(Extend(t, h, b), role + [Chunk(n)], n, cs + [e])
            && (Marked(First(t, n)) ==> SlotAt(Extend(t, h, b), role + [Chunk(n)], n, cs + [e]))
  {
    HolderRole(t, role, n, cs, nm);
    assert ChunksAt(t, role, n, cs) && (Marked(First(t, n)) ==> SlotAt(t, role, n, cs));
    hide NameAt;
    ChunksExtended(t, Extend(t, LastHolder(n, cs), b), role, n, cs);
    if Marked(First(t, n)) { SlotExtended(t, Extend(t, LastHolder(n, cs), b), role, n, cs); }
  }

  /** The extended name: its text goes on with the new piece. */
  lemma Extended(t: Table, role: seq<Role>, n: nat, cs: seq<nat>, nm: Name, b: seq<Byte>)
    requires Shape(t) && |role| == |t.link| && NameAt(t, role, n, cs, nm) && !nm.complete
    requires Marked(b) ==> |b| >= 2
    ensures var h, e := LastHolder(n, cs), |t.link|;
            && h < e && Shape(Extend(t, h, b))
            && NameAt(Extend(t, h, b), role + [Chunk(n)], n, cs + [e], Longer(nm, b))
  {
    HolderRole(t, role, n, cs, nm);
    ExtendedPieces(t, role, n, cs, nm, b);
    ExtendedLinks(t, role, n, cs, nm, b);
  }

  /** The name after the piece `b`. */
  function Longer(nm: Name, b: seq<Byte>): Name {
    Name(nm.key, nm.text + Unmarked(b), !Marked(b))
  }

  /** With the further piece `b` of name `n`, the entries are those of the names with the longer text. */
  ghost predicate NamesLonger(t: Table, role: seq<Role>, book: Book, chain: map<nat, seq<nat>>, n: nat, b: seq<Byte>)
    requires n in book && n in chain
  {
    && LastHolder(n, chain[n]) < |t.link|
    && NamesAt(Extend(t, LastHolder(n, chain[n]), b), role + [Chunk(n)],
               book[n := Longer(book[n], b)], chain[n := chain[n] + [|t.link|]])
  }

  /** The table with the further piece. */
  lemma ExtendNames(t: Table, role: seq<Role>, book: Book, chain: map<nat, seq<nat>>, n: nat, b: seq<Byte>)
    requires NamesAt(t, role, book, chain) && n in book && !book[n].complete && (Marked(b) ==> |b| >= 2)
    ensures NamesLonger(t, role, book, chain, n, b)
  {
    hide NameAt;
    Extended(t, role, n, chain[n], book[n], b);
    var t', role' := Extend(t, LastHolder(n, chain[n]), b), role + [Chunk(n)];
    forall m | m in book && m != n ensures NameAt(t', role', m, chain[m], book[m]) {
      ExtendKept(t, role, n, chain[n], book[n], b, m, chain[m], book[m]);
    }
    NamesChanged(t, role, book, chain, t', role', n, chain[n] + [|t.link|], Longer(book[n], b));
  }

  /** The search tree does not depend on entries that are no section names. */
  lemma TreeKept(t: Table, t': Table, tree: Tree, book: Book, nm: Name, n: nat)
    requires TreeAt(t, tree, book) && n in book && nm.key == book[n].key
    requires |t.link| <= |t'.link| == |t'.rlink|
    requires forall x | (x in book || x == 0) && x < |t.link| :: t'.link[x] == t.link[x] && t'.rlink[x] == t.rlink[x]
    ensures TreeAt(t', tree, book[n := nm])
  {
    RepresentsFrame(tree, t.rlink[0], t.link, t.rlink, t'.link, t'.rlink);
    KeysUpdated(book, n, nm);
    assert KeysOf(book)[n := nm.key] == KeysOf(book);
  }

  lemma ExtendTree(t: Table, role: seq<Role>, tree: Tree, book: Book, chain: map<nat, seq<nat>>, n: nat, b: seq<Byte>)
    requires Holds(t, role, tree, book, chain) && n in book && !book[n].complete
    ensures LastHolder(n, chain[n]) < |t.link|
    ensures TreeAt(Extend(t, LastHolder(n, chain[n]), b), tree, book[n := Longer(book[n], b)])
  {
    hide NameAt;
    var h := LastHolder(n, chain[n]);
    HolderRole(t, role, n, chain[n], book[n]);
    forall x | x in book ensures x != h { NameRole(t, role, x, chain[x], book[x]); }
    TreeKept(t, Extend(t, h, b), tree, book, Longer(book[n], b), n);
  }

  /** With the further piece `b` of name `n`, the table holds the names with the longer text. */
  ghost predicate HoldsLonger(t: Table, role: seq<Role>, tree: Tree, book: Book, chain: map<nat, seq<nat>>, n: nat, b: seq<Byte>)
    requires n in book && n in chain
  {
    && LastHolder(n, chain[n]) < |t.link|
    && Holds(Extend(t, LastHolder(n, chain[n]), b), role + [Chunk(n)], tree,
             book[n := Longer(book[n], b)], chain[n := chain[n] + [|t.link|]])
  }

  lemma ExtendHolds(t: Table, role: seq<Role>, tree: Tree, book: Book, chain: map<nat, seq<nat>>, n: nat, b: seq<Byte>)
    requires Holds(t, role, tree, book, chain) && n in book && !book[n].complete && (Marked(b) ==> |b| >= 2)
    ensures HoldsLonger(t, role, tree, book, chain, n, b)
  {
    hide NameAt;
    ExtendNames(t, role, book, chain, n, b);
    ExtendTree(t, role, tree, book, chain, n, b);
  }

  /** The piece for `suffix`, with a space if there is more. */
  lemma PieceFor(suffix: seq<Byte>, ispref: bool, nm: Name)
    requires if ispref then suffix != [] else !Marked(suffix)
    ensures var b := suffix + if ispref then [SPACE] else [];
            (Marked(b) ==> |b| >= 2) && Longer(nm, b) == Name(nm.key, nm.text + suffix, !ispref)
  {
    var b := suffix + if ispref then [SPACE] else [];
    assert Marked(b) == ispref && Unmarked(b) == suffix;
  }

  // ----- A shorter abbreviation ------------------------------------------------------------------

  lemma Shortened(t: Table, role: seq<Role>, n: nat, cs: seq<nat>, nm: Name, a: seq<Byte>)
    requires Shape(t) && |role| == |t.link| && NameAt(t, role, n, cs, nm) && a <= nm.key && |a| < 65536
    ensures t.start[n] + 1 < |t.mem|
    ensures Shape(SetLength(t, t.start[n], |a|)) && NameAt(SetLength(t, t.start[n], |a|), role, n, cs, nm.(key := a))
  {
    KeyBytes(t, role, n, cs, nm);
    SetLengthBytes(t, n, |a|);
    assert Pieces(SetLength(t, t.start[n], |a|), n, cs) == Pieces(t, n, cs);
  }

  lemma ShortenKept(t: Table, role: seq<Role>, n: nat, a: seq<Byte>, m: nat, cs: seq<nat>, nm: Name)
    requires Shape(t) && |role| == |t.link| && n < |t.link| && |Bytes(t, n)| >= 2 && t.start[n] + 1 < |t.mem|
    requires role[n] == SectionName && |a| < 65536 && m != n && NameAt(t, role, m, cs, nm)
    ensures Shape(SetLength(t, t.start[n], |a|)) && NameAt(SetLength(t, t.start[n], |a|), role, m, cs, nm)
  {
    SetLengthBytes(t, n, |a|);
    NameKept(t, role, SetLength(t, t.start[n], |a|), role, m, cs, nm);
  }

  lemma ShortenNames(t: Table, role: seq<Role>, book: Book, chain: map<nat, seq<nat>>, n: nat, a: seq<Byte>)
    requires NamesAt(t, role, book, chain) && n in book && a <= book[n].key && |a| < 65536
    ensures t.start[n] + 1 < |t.mem|
    ensures NamesAt(SetLength(t, t.start[n], |a|), role, book[n := book[n].(key := a)], chain)
  {
    hide NameAt;
    NameRole(t, role, n, chain[n], book[n]);
    Shortened(t, role, n, chain[n], book[n], a);
    var t', nm' := SetLength(t, t.start[n], |a|), book[n].(key := a);
    forall m | m in book && m != n ensures NameAt(t', role, m, chain[m], book[m]) {
      ShortenKept(t, role, n, a, m, chain[m], book[m]);
    }
    NamesChanged(t, role, book, chain, t', role, n, chain[n], nm');
    assert chain[n := chain[n]] == chain;
  }

  lemma ShortenHolds(t: Table, role: seq<Role>, tree: Tree, book: Book, chain: map<nat, seq<nat>>, n: nat, a: seq<Byte>)
    requires Holds(t, role, tree, book, chain) && n in book && a <= book[n].key && |a| < 65536 && Fitting(book, a) <= {n}
    ensures n < |t.link| < |t.start| && t.start[n] + 1 < |t.mem|
    ensures Holds(SetLength(t, t.start[n], |a|), role, tree, book[n := book[n].(key := a)], chain)
  {
    hide NameAt;
    NameRole(t, role, n, chain[n], book[n]);
    ShortenNames(t, role, book, chain, n, a);
    FittingMatches(book, a);
    ShortenOrdered(tree, KeysOf(book), a, n);
    KeysUpdated(book, n, book[n].(key := a));
  }
}
