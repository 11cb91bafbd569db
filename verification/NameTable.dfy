/** The name table: all names lie one after the other in a common byte memory, and every entry has two
    links, whose meaning depends on what the entry is. */
module NameTable {
  import opened Wrappers
  import opened NameOrder
  import opened NameTree
  import opened NamePieces
  import opened NameBook

  /** `byte_mem`, and the `byte_start`, `link` (also `llink`) and `rlink` of the entries of `name_dir`. */
  datatype Table = Table(mem: seq<Byte>, start: seq<nat>, link: seq<nat>, rlink: seq<nat>)

  ghost predicate Shape(t: Table) {
    && |t.start| == |t.link| + 1 && |t.rlink| == |t.link| > 0
    && (forall i, j | 0 <= i <= j < |t.start| :: t.start[i] <= t.start[j])
    && t.start[|t.link|] == |t.mem|
  }

  /** The bytes of entry `i`. */
  ghost function Bytes(t: Table, i: nat): seq<Byte>
    requires Shape(t) && i < |t.link|
  {
    t.mem[t.start[i]..t.start[i + 1]]
  }

  /** The number that `set_prefix_length` writes as two bytes. */
  function Joined(hi: Byte, lo: Byte): nat {
    var h: int := hi;
    h * 256 + lo
  }

  /** A section name begins with two bytes that hold the length of its abbreviation. */
  ghost function First(t: Table, n: nat): seq<Byte>
    requires Shape(t) && n < |t.link| && |Bytes(t, n)| >= 2
  {
    Bytes(t, n)[2..]
  }

  ghost function PrefixLength(t: Table, n: nat): nat
    requires Shape(t) && n < |t.link| && |Bytes(t, n)| >= 2
  {
    Joined(Bytes(t, n)[0], Bytes(t, n)[1])
  }

  // ----- Changes of the table --------------------------------------------------------------------

  function Grow(t: Table, b: seq<Byte>): Table {
    Table(t.mem + b, t.start + [|t.mem| + |b|], t.link + [0], t.rlink + [0])
  }

  lemma GrowBytes(t: Table, b: seq<Byte>)
    requires Shape(t)
    ensures Shape(Grow(t, b)) && Bytes(Grow(t, b), |t.link|) == b
    ensures forall i: nat | i < |t.link| :: Bytes(Grow(t, b), i) == Bytes(t, i)
  {
    forall i: nat | i < |t.link| ensures Bytes(Grow(t, b), i) == Bytes(t, i) {
      assert t.start[i + 1] <= |t.mem|;
    }
  }

  function SetLength(t: Table, s: nat, m: nat): Table
    requires s + 1 < |t.mem| && m < 65536
  {
    t.(mem := t.mem[s := m / 256][s + 1 := m % 256])
  }

  lemma SetLengthBytes(t: Table, n: nat, m: nat)
    requires Shape(t) && n < |t.link| && |Bytes(t, n)| >= 2 && m < 65536 && t.start[n] + 1 < |t.mem|
    ensures var t' := SetLength(t, t.start[n], m);
            && Shape(t') && |Bytes(t', n)| == |Bytes(t, n)| && First(t', n) == First(t, n)
            && PrefixLength(t', n) == m
            && forall i: nat | i < |t.link| && i != n :: Bytes(t', i) == Bytes(t, i)
  {
    var t' := SetLength(t, t.start[n], m);
    forall i: nat | i < |t.link| && i != n ensures Bytes(t', i) == Bytes(t, i) {
      assert i < n ==> t.start[i + 1] <= t.start[n];
      assert i > n ==> t.start[n + 1] <= t.start[i];
    }
  }

  // ----- What the entries are --------------------------------------------------------------------

  /** The entry of a section name may be followed by a slot for the link to its further pieces. */
  datatype Role = Root | SectionName | Slot | Chunk(name: nat) | Identifier

  /** The pieces of name `n`, whose further pieces are the entries `cs`. */
  ghost function Pieces(t: Table, n: nat, cs: seq<nat>): seq<seq<Byte>>
    requires Shape(t) && n < |t.link| && |Bytes(t, n)| >= 2 && forall i | 0 <= i < |cs| :: cs[i] < |t.link|
  {
    [First(t, n)] + seq(|cs|, i requires 0 <= i < |cs| => Bytes(t, cs[i]))
  }

  ghost predicate ChunksAt(t: Table, role: seq<Role>, n: nat, cs: seq<nat>)
    requires |role| == |t.link|
  {
    && (forall i | 0 <= i < |cs| :: n + 1 < cs[i] < |t.link| && role[cs[i]] == Chunk(n))
    && (forall i, j | 0 <= i < j < |cs| :: cs[i] < cs[j])
    && (forall i, j | 0 <= i && i + 1 == j < |cs| :: t.link[cs[i]] == cs[j])
    && (cs != [] ==> t.link[cs[|cs| - 1]] == 0)
  }

  ghost predicate SlotAt(t: Table, role: seq<Role>, n: nat, cs: seq<nat>)
    requires |role| == |t.link|
  {
    n + 1 < |t.link| && role[n + 1] == Slot && t.link[n + 1] == if cs == [] then 0 else cs[0]
  }

  /** Entry `n` is the section name `nm`. */
  ghost predicate NameAt(t: Table, role: seq<Role>, n: nat, cs: seq<nat>, nm: Name)
    requires Shape(t) && |role| == |t.link|
  {
    && 0 < n < |t.link| && role[n] == SectionName && |Bytes(t, n)| >= 2
    && ChunksAt(t, role, n, cs)
    && WellPieced(Pieces(t, n, cs))
    && (Marked(First(t, n)) ==> SlotAt(t, role, n, cs))
    && Text(Pieces(t, n, cs)) == nm.text && Complete(Pieces(t, n, cs)) == nm.complete
    && PrefixLength(t, n) == |nm.key| && nm.key <= Unmarked(First(t, n))
  }

  lemma NameRole(t: Table, role: seq<Role>, n: nat, cs: seq<nat>, nm: Name)
    requires Shape(t) && |role| == |t.link| && NameAt(t, role, n, cs, nm)
    ensures 0 < n < |t.link| && role[n] == SectionName && |Bytes(t, n)| >= 2
  {
  }

  /** Entries of name `n` and the links between them are the same in both tables. */
  ghost predicate Kept(t: Table, role: seq<Role>, t': Table, role': seq<Role>, n: nat)
    requires Shape(t) && Shape(t') && |role| == |t.link| && |role'| == |t'.link|
  {
    && |t.link| <= |t'.link| && role <= role'
    && (forall x: nat | x < |t.link| && (x == n || role[x] == Chunk(n)) :: Bytes(t', x) == Bytes(t, x))
    && (forall x: nat | x < |t.link| && ((x == n + 1 && role[x] == Slot) || role[x] == Chunk(n)) :: t'.link[x] == t.link[x])
  }

  lemma PiecesKept(t: Table, role: seq<Role>, t': Table, role': seq<Role>, n: nat, cs: seq<nat>, nm: Name)
    requires Shape(t) && Shape(t') && |role| == |t.link| && |role'| == |t'.link|
    requires NameAt(t, role, n, cs, nm) && Kept(t, role, t', role', n)
    ensures |Bytes(t', n)| >= 2 && First(t', n) == First(t, n) && PrefixLength(t', n) == PrefixLength(t, n)
    ensures Pieces(t', n, cs) == Pieces(t, n, cs)
  {
    assert Bytes(t', n) == Bytes(t, n);
    assert forall i | 0 <= i < |cs| :: Bytes(t', cs[i]) == Bytes(t, cs[i]);
  }

  lemma LinksKept(t: Table, role: seq<Role>, t': Table, role': seq<Role>, n: nat, cs: seq<nat>, nm: Name)
    requires Shape(t) && Shape(t') && |role| == |t.link| && |role'| == |t'.link|
    requires NameAt(t, role, n, cs, nm) && Kept(t, role, t', role', n)
    ensures ChunksAt(t', role', n, cs)
    ensures SlotAt(t, role, n, cs) ==> SlotAt(t', role', n, cs)
    ensures role'[n] == SectionName
  {
    assert forall i | 0 <= i < |cs| :: t'.link[cs[i]] == t.link[cs[i]] && role'[cs[i]] == role[cs[i]];
  }

  lemma NameKept(t: Table, role: seq<Role>, t': Table, role': seq<Role>, n: nat, cs: seq<nat>, nm: Name)
    requires Shape(t) && Shape(t') && |role| == |t.link| && |role'| == |t'.link|
    requires NameAt(t, role, n, cs, nm) && Kept(t, role, t', role', n)
    ensures NameAt(t', role', n, cs, nm)
  {
    PiecesKept(t, role, t', role', n, cs, nm);
    LinksKept(t, role, t', role', n, cs, nm);
  }

  /** The entries of the section names `book`. */
  ghost predicate NamesAt(t: Table, role: seq<Role>, book: Book, chain: map<nat, seq<nat>>) {
    && Shape(t) && |role| == |t.link| && role[0] == Root && book.Keys == chain.Keys
    && (forall n | n in book :: NameAt(t, role, n, chain[n], book[n]))
  }

  /** The pointers form the search tree of the names. */
  ghost predicate TreeAt(t: Table, tree: Tree, book: Book) {
    && |t.rlink| == |t.link| > 0 && Elems(tree) == book.Keys
    && Ordered(tree, KeysOf(book)) && Represents(tree, t.rlink[0], t.link, t.rlink)
  }

  /** The table holds the section names `book`. */
  ghost predicate Holds(t: Table, role: seq<Role>, tree: Tree, book: Book, chain: map<nat, seq<nat>>) {
    NamesAt(t, role, book, chain) && TreeAt(t, tree, book)
  }

  lemma SliceOfSlice(m: seq<Byte>, lo: nat, hi: nat, i: nat, k: nat)
    requires lo <= hi <= |m| && i + k <= hi - lo
    ensures m[lo..hi][i..][..k] == m[lo + i..lo + i + k]
  {
  }

  /** The abbreviation of an entry, as the search sees it. */
  lemma KeyBytes(t: Table, role: seq<Role>, n: nat, cs: seq<nat>, nm: Name)
    requires Shape(t) && |role| == |t.link| && NameAt(t, role, n, cs, nm)
    ensures t.start[n] + 2 + |nm.key| <= |t.mem| && t.start[n] + 1 < |t.mem|
    ensures t.mem[t.start[n] + 2..t.start[n] + 2 + |nm.key|] == nm.key
    ensures Joined(t.mem[t.start[n]], t.mem[t.start[n] + 1]) == |nm.key|
    ensures nm.key <= nm.text
  {
    var b := Bytes(t, n);
    assert t.start[n + 1] <= |t.mem|;
    assert |nm.key| <= |Unmarked(First(t, n))| <= |b| - 2;
    SliceOfSlice(t.mem, t.start[n], t.start[n + 1], 2, |nm.key|);
    assert nm.key == First(t, n)[..|nm.key|];
    assert nm.text == Unmarked(First(t, n)) + Text(Pieces(t, n, cs)[1..]);
  }

  lemma HoldsValid(t: Table, role: seq<Role>, tree: Tree, book: Book, chain: map<nat, seq<nat>>)
    requires Holds(t, role, tree, book, chain)
    ensures ValidBook(book)
  {
    OrderedPrefixFree(tree, KeysOf(book));
    forall n | n in book ensures book[n].key <= book[n].text { KeyBytes(t, role, n, chain[n], book[n]); }
    forall x, y | x in book && y in book && x != y ensures !Compatible(book[x].key, book[y].key) {
      assert !Compatible(KeysOf(book)[x], KeysOf(book)[y]);
    }
  }
}
