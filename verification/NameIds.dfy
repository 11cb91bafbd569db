/** Identifiers share the name table with section names: every identifier is on the list of its hash code,
    and has one entry. */
module NameIds {
  import opened Wrappers
  import opened IndexNames
  import opened LinkedLists
  import opened NameTree
  import opened NameBook
  import opened NameTable
  import opened NameOrder
  import opened NamePieces
  import opened NameChanges

  /** `hash_size` */
  const HASH_SIZE: nat := 353

  function HashFrom(h: nat, s: seq<Byte>): (r: nat)
    requires h < HASH_SIZE
    ensures r < HASH_SIZE
    decreases |s|
  {
    if s == [] then h else HashFrom((h + h + s[0]) % HASH_SIZE, s[1..])
  }

  /** The hash code of an identifier begins with its first character. */
  function HashOf(s: seq<Byte>): (r: nat)
    requires s != []
    ensures r < HASH_SIZE
  {
    HashFrom(s[0], s[1..])
  }

  type Ids = map<seq<Byte>, nat>

  /** Entry `e` is identifier `s`. */
  ghost predicate IdAt(t: Table, role: seq<Role>, e: nat, s: seq<Byte>)
    requires Shape(t) && |role| == |t.link|
  {
    0 < e < |t.link| && role[e] == Identifier && s != [] && Bytes(t, e) == s
  }

  /** The identifiers `ids` are exactly the entries of that role, and each is on the list of its hash code and on no
      other. */
  ghost predicate IdsAt(t: Table, role: seq<Role>, hash: seq<nat>, lists: seq<seq<nat>>, ids: Ids) {
    && Shape(t) && |role| == |t.link| && |hash| == |lists| == HASH_SIZE
    && (forall s | s in ids :: IdAt(t, role, ids[s], s) && ids[s] in lists[HashOf(s)])
    && (forall e: nat | e < |role| && role[e] == Identifier :: Bytes(t, e) in ids && ids[Bytes(t, e)] == e)
    && ListsAt(t.link, role, hash, lists) && Hashed(t, lists)
  }

  /** Only identifiers with hash code `h` are on list `h`. */
  ghost predicate Hashed(t: Table, lists: seq<seq<nat>>)
    requires Shape(t)
  {
    forall h: nat, i: nat | h < |lists| && i < |lists[h]| ::
      lists[h][i] < |t.link| && Bytes(t, lists[h][i]) != [] && HashOf(Bytes(t, lists[h][i])) == h
  }

  /** Different identifiers have different entries. */
  lemma IdsDifferent(t: Table, role: seq<Role>, hash: seq<nat>, lists: seq<seq<nat>>, ids: Ids, s: seq<Byte>, u: seq<Byte>)
    requires IdsAt(t, role, hash, lists, ids) && s in ids && u in ids && s != u
    ensures ids[s] != ids[u]
  {
    assert IdAt(t, role, ids[s], s) && IdAt(t, role, ids[u], u);
  }

  /** Entries that are identifiers are the same in both tables, and none has been added. */
  ghost predicate IdsSame(t: Table, role: seq<Role>, t': Table, role': seq<Role>)
    requires Shape(t) && Shape(t') && |role| == |t.link| && |role'| == |t'.link|
  {
    && role <= role'
    && (forall e: nat | |role| <= e < |role'| :: role'[e] != Identifier)
    && (forall e: nat | e < |role| && role[e] == Identifier :: Bytes(t', e) == Bytes(t, e) && t'.link[e] == t.link[e])
  }

  ghost predicate ListsAt(link: seq<nat>, role: seq<Role>, hash: seq<nat>, lists: seq<seq<nat>>) {
    && |role| == |link| && |hash| == |lists| == HASH_SIZE
    && (forall h: nat | h < HASH_SIZE :: Chain(link, hash[h], lists[h]))
    && (forall h: nat, i: nat | h < HASH_SIZE && i < |lists[h]| :: lists[h][i] < |role| && role[lists[h][i]] == Identifier)
  }

  lemma ListsKept(link: seq<nat>, role: seq<Role>, hash: seq<nat>, lists: seq<seq<nat>>, link': seq<nat>, role': seq<Role>)
    requires ListsAt(link, role, hash, lists) && |role'| == |link'| && role <= role'
    requires forall e: nat | e < |role| && role[e] == Identifier :: link'[e] == link[e]
    ensures ListsAt(link', role', hash, lists)
  {
    forall h: nat | h < HASH_SIZE ensures Chain(link', hash[h], lists[h]) {
      ChainFrame(link, link', hash[h], lists[h]);
    }
    hide Chain;
  }

  lemma ListsAdded(link: seq<nat>, role: seq<Role>, hash: seq<nat>, lists: seq<seq<nat>>, h: nat)
    requires ListsAt(link, role, hash, lists) && h < HASH_SIZE && |link| > 0
    ensures var e := |link|; ListsAt(link + [hash[h]], role + [Identifier], hash[h := e], lists[h := [e] + lists[h]])
  {
    var e := |link|;
    ListsKept(link, role, hash, lists, link + [hash[h]], role + [Identifier]);
    assert ([e] + lists[h])[1..] == lists[h];
    assert Chain(link + [hash[h]], e, [e] + lists[h]);
    hide Chain;
  }

  lemma HashedKept(t: Table, role: seq<Role>, hash: seq<nat>, lists: seq<seq<nat>>, t': Table, role': seq<Role>)
    requires Shape(t) && |role| == |t.link| && ListsAt(t.link, role, hash, lists) && Hashed(t, lists)
    requires Shape(t') && |role'| == |t'.link| && IdsSame(t, role, t', role')
    ensures Hashed(t', lists)
  {
    hide Shape, Bytes, HashOf, Chain;
  }

  /** Changes of section names do not touch identifiers. */
  lemma IdsKept(t: Table, role: seq<Role>, hash: seq<nat>, lists: seq<seq<nat>>, ids: Ids, t': Table, role': seq<Role>)
    requires IdsAt(t, role, hash, lists, ids) && Shape(t') && |role'| == |t'.link| && IdsSame(t, role, t', role')
    ensures IdsAt(t', role', hash, lists, ids)
  {
    hide ListsAt, Bytes, Shape, Hashed;
    ListsKept(t.link, role, hash, lists, t'.link, role');
    HashedKept(t, role, hash, lists, t', role');
  }

  /** A new entry with bytes `b` and link `l`. */
  function AddId(t: Table, b: seq<Byte>, l: nat): Table {
    Table(t.mem + b, t.start + [|t.mem| + |b|], t.link + [l], t.rlink + [0])
  }

  lemma AddIdBytes(t: Table, b: seq<Byte>, l: nat)
    requires Shape(t)
    ensures Shape(AddId(t, b, l)) && Bytes(AddId(t, b, l), |t.link|) == b
    ensures forall i: nat | i < |t.link| :: Bytes(AddId(t, b, l), i) == Bytes(t, i)
  {
    forall i: nat | i < |t.link| ensures Bytes(AddId(t, b, l), i) == Bytes(t, i) {
      assert t.start[i + 1] <= |t.mem|;
    }
  }

  /** An identifier that was not known is put at the front of its list. */
  lemma IdAdded(t: Table, role: seq<Role>, hash: seq<nat>, lists: seq<seq<nat>>, ids: Ids, s: seq<Byte>)
    requires IdsAt(t, role, hash, lists, ids) && s != [] && s !in ids && |t.link| > 0
    ensures var h, e := HashOf(s), |t.link|;
            IdsAt(AddId(t, s, hash[h]), role + [Identifier], hash[h := e], lists[h := [e] + lists[h]], ids[s := e])
  {
    hide ListsAt, Shape, Bytes, HashOf;
    var h, e := HashOf(s), |t.link|;
    var t', role', lists' := AddId(t, s, hash[h]), role + [Identifier], lists[h := [e] + lists[h]];
    AddIdBytes(t, s, hash[h]);
    ListsAdded(t.link, role, hash, lists, h);
    assert lists'[h][0] == e;
    forall u | u in ids ensures u != s && IdAt(t', role', ids[u], u) && ids[u] in lists'[HashOf(u)] {
      assert IdAt(t, role, ids[u], u);
    }
  }

  lemma NameKeptById(t: Table, role: seq<Role>, n: nat, cs: seq<nat>, nm: Name, b: seq<Byte>, l: nat)
    requires Shape(t) && |role| == |t.link| && NameAt(t, role, n, cs, nm)
    ensures Shape(AddId(t, b, l)) && NameAt(AddId(t, b, l), role + [Identifier], n, cs, nm)
  {
    AddIdBytes(t, b, l);
    NameKept(t, role, AddId(t, b, l), role + [Identifier], n, cs, nm);
  }

  lemma TreeKeptById(t: Table, tree: Tree, book: Book, b: seq<Byte>, l: nat)
    requires TreeAt(t, tree, book)
    ensures TreeAt(AddId(t, b, l), tree, book)
  {
    RepresentsFrame(tree, t.rlink[0], t.link, t.rlink, t.link + [l], t.rlink + [0]);
  }

  /** The section names do not depend on identifiers. */
  lemma NamesKeptById(t: Table, role: seq<Role>, tree: Tree, book: Book, chain: map<nat, seq<nat>>, b: seq<Byte>, l: nat)
    requires Holds(t, role, tree, book, chain)
    ensures Holds(AddId(t, b, l), role + [Identifier], tree, book, chain)
  {
    hide NameAt, TreeAt;
    AddIdBytes(t, b, l);
    TreeKeptById(t, tree, book, b, l);
    forall n | n in book ensures NameAt(AddId(t, b, l), role + [Identifier], n, chain[n], book[n]) {
      NameKeptById(t, role, n, chain[n], book[n], b, l);
    }
  }

  /** A search that has not met the identifier on its list shows that it is not known. */
  lemma NotMet(t: Table, role: seq<Role>, hash: seq<nat>, lists: seq<seq<nat>>, ids: Ids, s: seq<Byte>)
    requires IdsAt(t, role, hash, lists, ids) && s != []
    requires forall i: nat | i < |lists[HashOf(s)]| :: Bytes(t, lists[HashOf(s)][i]) != s
    ensures s !in ids
  {
  }

  /** The entry in position `i` of the list of hash code `h`. */
  lemma OnList(t: Table, role: seq<Role>, hash: seq<nat>, lists: seq<seq<nat>>, ids: Ids, h: nat, p: nat, l: seq<nat>, i: nat)
    requires IdsAt(t, role, hash, lists, ids) && h < HASH_SIZE && i <= |lists[h]| && l == lists[h][i..]
    requires Chain(t.link, p, l) && p != 0
    ensures i < |lists[h]| && p == lists[h][i] < |t.link| && Chain(t.link, t.link[p], lists[h][i + 1..])
    ensures p < |role| && role[p] == Identifier && Bytes(t, p) in ids && ids[Bytes(t, p)] == p
    ensures t.start[p] <= t.start[p + 1] <= |t.mem| && Bytes(t, p) == t.mem[t.start[p]..t.start[p + 1]]
  {
    assert l[1..] == lists[h][i + 1..];
    assert t.start[p + 1] <= |t.mem|;
    hide Chain;
  }

  // ----- Changes of section names ----------------------------------------------------------------

  lemma AddKeepsIds(t: Table, role: seq<Role>, hash: seq<nat>, lists: seq<seq<nat>>, ids: Ids,
                    a: seq<Byte>, ispref: bool, par: nat, c: Comparison)
    requires IdsAt(t, role, hash, lists, ids) && Proper(a, ispref)
    requires par < |t.link| && (role[par] == Root || role[par] == SectionName)
    ensures par < |AddEntry(t, a, ispref).link| == |AddEntry(t, a, ispref).rlink|
    ensures IdsAt(Hang(AddEntry(t, a, ispref), par, c, |t.link|), AddRoles(role, ispref), hash, lists, ids)
  {
    assert Shape(t) && |role| == |t.link|;
    hide IdsAt, IdsSame;
    AddSame(t, role, a, ispref, par, c);
    IdsKept(t, role, hash, lists, ids, Hang(AddEntry(t, a, ispref), par, c, |t.link|), AddRoles(role, ispref));
  }

  /** A table whose identifiers have the bytes and links of those of `t`. */
  lemma SameIds(t: Table, role: seq<Role>, t1: Table, t': Table, role': seq<Role>, par: nat)
    requires Shape(t) && Shape(t1) && Shape(t') && |role| == |t.link| && |role'| == |t'.link| == |t1.link| && role <= role'
    requires par < |t.link| && role[par] != Identifier && forall e: nat | |role| <= e < |role'| :: role'[e] != Identifier
    requires t.link <= t1.link && forall e: nat | e < |t.link| :: Bytes(t1, e) == Bytes(t, e)
    requires forall e: nat | e < |t1.link| :: Bytes(t', e) == Bytes(t1, e)
    requires forall e: nat | e < |t1.link| && e != par :: t'.link[e] == t1.link[e]
    ensures IdsSame(t, role, t', role')
  {
    hide Shape, Bytes;
  }

  lemma AddSame(t: Table, role: seq<Role>, a: seq<Byte>, ispref: bool, par: nat, c: Comparison)
    requires Shape(t) && |role| == |t.link| && Proper(a, ispref)
    requires par < |t.link| && (role[par] == Root || role[par] == SectionName)
    ensures par < |AddEntry(t, a, ispref).link| == |AddEntry(t, a, ispref).rlink|
    ensures var t', role' := Hang(AddEntry(t, a, ispref), par, c, |t.link|), AddRoles(role, ispref);
            Shape(t') && |role'| == |t'.link| && IdsSame(t, role, t', role')
  {
    assert |a| < 65536;
    hide NameAt, Proper, AddEntry, Bytes, Shape, Hang, IdsSame;
    EntryAdded(t, role, a, ispref);
    var t1 := AddEntry(t, a, ispref);
    HangBytes(t1, par, c, |t.link|);
    SameIds(t, role, t1, Hang(t1, par, c, |t.link|), AddRoles(role, ispref), par);
  }

  lemma HangBytes(t: Table, par: nat, c: Comparison, n: nat)
    requires Shape(t) && par < |t.link|
    ensures Shape(Hang(t, par, c, n)) && forall i: nat | i < |t.link| :: Bytes(Hang(t, par, c, n), i) == Bytes(t, i)
    ensures |Hang(t, par, c, n).link| == |t.link|
    ensures forall i: nat | i < |t.link| && i != par :: Hang(t, par, c, n).link[i] == t.link[i]
  {
  }

  lemma ExtendKeepsIds(t: Table, role: seq<Role>, hash: seq<nat>, lists: seq<seq<nat>>, ids: Ids, h: nat, b: seq<Byte>, n: nat)
    requires IdsAt(t, role, hash, lists, ids) && h < |t.link| && role[h] != Identifier
    ensures IdsAt(Extend(t, h, b), role + [Chunk(n)], hash, lists, ids)
  {
    hide ListsAt;
    ExtendBytes(t, h, b);
    IdsKept(t, role, hash, lists, ids, Extend(t, h, b), role + [Chunk(n)]);
  }

  lemma ShortenKeepsIds(t: Table, role: seq<Role>, hash: seq<nat>, lists: seq<seq<nat>>, ids: Ids, n: nat, m: nat)
    requires IdsAt(t, role, hash, lists, ids) && n < |t.link| && role[n] == SectionName
    requires |Bytes(t, n)| >= 2 && m < 65536 && t.start[n] + 1 < |t.mem|
    ensures IdsAt(SetLength(t, t.start[n], m), role, hash, lists, ids)
  {
    hide ListsAt;
    SetLengthBytes(t, n, m);
    IdsKept(t, role, hash, lists, ids, SetLength(t, t.start[n], m), role);
  }

  /** Passing through all lists one meets every identifier once, and nothing else. */
  lemma MetOnce(t: Table, role: seq<Role>, hash: seq<nat>, lists: seq<seq<nat>>, ids: Ids)
    requires IdsAt(t, role, hash, lists, ids)
    ensures Distinct(Flat(lists))
    ensures forall e: nat :: e in Flat(lists) <==> e < |role| && role[e] == Identifier
  {
    hide Shape, Bytes, HashOf, Chain, Flat;
    forall h | 0 <= h < |lists| ensures Distinct(lists[h]) { ChainDistinct(t.link, hash[h], lists[h]); }
    FlatDistinct(lists);
    forall e: nat ensures e in Flat(lists) <==> e < |role| && role[e] == Identifier {
      FlatMembers(lists, e);
      if e < |role| && role[e] == Identifier { assert e in lists[HashOf(Bytes(t, e))]; }
    }
  }
}
