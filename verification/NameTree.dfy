/** The binary search tree of section names: its keys are abbreviations, none of which is a prefix of
    another. */
module NameTree {
  import opened Wrappers
  import opened NameOrder

  datatype Tree = Leaf | Node(left: Tree, name: nat, right: Tree)

  ghost function Elems(t: Tree): set<nat> {
    match t
    case Leaf => {}
    case Node(l, m, r) => Elems(l) + {m} + Elems(r)
  }

  type Keys = map<nat, seq<Byte>>

  ghost predicate AllBefore(s: set<nat>, keys: Keys, k: seq<Byte>) {
    forall x | x in s :: x in keys && Compare(keys[x], k) == Less
  }

  ghost predicate AllAfter(s: set<nat>, keys: Keys, k: seq<Byte>) {
    forall x | x in s :: x in keys && Compare(k, keys[x]) == Less
  }

  /** A lexicographic search tree; since all comparisons are strict, no key is a prefix of another. */
  ghost predicate Ordered(t: Tree, keys: Keys) {
    match t
    case Leaf => true
    case Node(l, m, r) =>
      && m in keys && Ordered(l, keys) && Ordered(r, keys)
      && AllBefore(Elems(l), keys, keys[m]) && AllAfter(Elems(r), keys, keys[m])
  }

  ghost predicate PrefixFree(s: set<nat>, keys: Keys) {
    forall x, y | x in s && y in s && x != y :: x in keys && y in keys && !Compatible(keys[x], keys[y])
  }

  lemma {:induction false} OrderedKeys(t: Tree, keys: Keys)
    requires Ordered(t, keys)
    ensures forall x | x in Elems(t) :: x in keys
  {
    if t.Node? {
      OrderedKeys(t.left, keys);
      OrderedKeys(t.right, keys);
    }
  }

  lemma LessIncompatible(a: seq<Byte>, b: seq<Byte>)
    requires Compare(a, b) == Less
    ensures !Compatible(a, b) && !Compatible(b, a)
  {
    CompatibleCompare(a, b);
  }

  lemma Across(t: Tree, keys: Keys, x: nat, y: nat)
    requires t.Node? && Ordered(t, keys) && x in Elems(t.left) && y in Elems(t.right)
    ensures Compare(keys[x], keys[y]) == Less
  {
    LessTransitive(keys[x], keys[t.name], keys[y]);
  }

  /** No abbreviation in the tree is a prefix of another one. */
  lemma {:induction false} OrderedPrefixFree(t: Tree, keys: Keys)
    requires Ordered(t, keys)
    ensures PrefixFree(Elems(t), keys)
  {
    OrderedKeys(t, keys);
    if t.Node? {
      OrderedPrefixFree(t.left, keys);
      OrderedPrefixFree(t.right, keys);
      forall x | x in Elems(t.left) ensures !Compatible(keys[x], keys[t.name]) && !Compatible(keys[t.name], keys[x]) {
        LessIncompatible(keys[x], keys[t.name]);
      }
      forall x | x in Elems(t.right) ensures !Compatible(keys[x], keys[t.name]) && !Compatible(keys[t.name], keys[x]) {
        LessIncompatible(keys[t.name], keys[x]);
      }
      forall x, y | x in Elems(t.left) && y in Elems(t.right)
        ensures !Compatible(keys[x], keys[y]) && !Compatible(keys[y], keys[x])
      {
        Across(t, keys, x, y);
        LessIncompatible(keys[x], keys[y]);
      }
    }
  }

  // ----- Searching -------------------------------------------------------------------------------

  /** Names in `s` whose abbreviation is compatible with `a`. */
  ghost function Matches(s: set<nat>, keys: Keys, a: seq<Byte>): set<nat> {
    set x | x in s && x in keys && Compatible(a, keys[x])
  }

  /** Going left: no match is at the root or to its right. */
  lemma GoLeft(t: Tree, keys: Keys, a: seq<Byte>)
    requires t.Node? && Ordered(t, keys) && Compare(a, keys[t.name]) == Less
    ensures Matches(Elems(t), keys, a) == Matches(Elems(t.left), keys, a)
  {
    CompatibleCompare(a, keys[t.name]);
    forall x | x in Elems(t.right) ensures !Compatible(a, keys[x]) {
      LessTransitive(a, keys[t.name], keys[x]);
      CompatibleCompare(a, keys[x]);
    }
  }

  lemma GoRight(t: Tree, keys: Keys, a: seq<Byte>)
    requires t.Node? && Ordered(t, keys) && Compare(a, keys[t.name]) == Greater
    ensures Matches(Elems(t), keys, a) == Matches(Elems(t.right), keys, a)
  {
    CompatibleCompare(a, keys[t.name]);
    CompareSwap(keys[t.name], a);
    forall x | x in Elems(t.left) ensures !Compatible(a, keys[x]) {
      LessTransitive(keys[x], keys[t.name], a);
      CompareSwap(keys[x], a);
      CompatibleCompare(a, keys[x]);
    }
  }

  lemma PrefixesCompatible(x: seq<Byte>, y: seq<Byte>, a: seq<Byte>)
    requires x <= a && y <= a
    ensures Compatible(x, y)
  {
    assert |x| <= |y| ==> x == a[..|x|] == y[..|x|];
    assert |y| <= |x| ==> y == a[..|y|] == x[..|y|];
  }

  /** Two different matches: the argument is a proper prefix of both. */
  lemma TwoMatches(s: set<nat>, keys: Keys, a: seq<Byte>, x: nat, y: nat)
    requires PrefixFree(s, keys) && x in Matches(s, keys, a) && y in Matches(s, keys, a) && x != y
    ensures a < keys[x] && a < keys[y]
  {
    assert !Compatible(keys[x], keys[y]) && !Compatible(keys[y], keys[x]);
    if keys[x] <= a && keys[y] <= a { PrefixesCompatible(keys[x], keys[y], a); }
  }

  // ----- Inserting and shortening ----------------------------------------------------------------

  /** `n` is attached where the search for `a` ends. */
  ghost function Insert(t: Tree, keys: Keys, a: seq<Byte>, n: nat): Tree
    requires Ordered(t, keys)
  {
    match t
    case Leaf => Node(Leaf, n, Leaf)
    case Node(l, m, r) =>
      if Compare(a, keys[m]) == Less then Node(Insert(l, keys, a, n), m, r) else Node(l, m, Insert(r, keys, a, n))
  }

  lemma {:induction false} InsertElems(t: Tree, keys: Keys, a: seq<Byte>, n: nat)
    requires Ordered(t, keys)
    ensures Elems(Insert(t, keys, a, n)) == Elems(t) + {n}
  {
    if t.Node? {
      InsertElems(t.left, keys, a, n);
      InsertElems(t.right, keys, a, n);
    }
  }

  lemma NoMatchAtRoot(t: Tree, keys: Keys, a: seq<Byte>)
    requires t.Node? && Ordered(t, keys) && Matches(Elems(t), keys, a) == {}
    ensures Compare(a, keys[t.name]) == Less || Compare(a, keys[t.name]) == Greater
    ensures Compare(a, keys[t.name]) == Greater ==> Compare(keys[t.name], a) == Less
  {
    assert t.name !in Matches(Elems(t), keys, a);
    CompatibleCompare(a, keys[t.name]);
    CompareSwap(keys[t.name], a);
  }

  /** Replacing the left subtree by one with the additional name `n`. */
  lemma GrowLeft(t: Tree, keys: Keys, a: seq<Byte>, n: nat, l: Tree)
    requires t.Node? && Ordered(t, keys) && n !in Elems(t) && Compare(a, keys[t.name]) == Less
    requires Ordered(l, keys[n := a]) && Elems(l) == Elems(t.left) + {n}
    ensures Ordered(Node(l, t.name, t.right), keys[n := a])
  {
    SameKeys(t.right, keys, keys[n := a]);
  }

  lemma GrowRight(t: Tree, keys: Keys, a: seq<Byte>, n: nat, r: Tree)
    requires t.Node? && Ordered(t, keys) && n !in Elems(t) && Compare(keys[t.name], a) == Less
    requires Ordered(r, keys[n := a]) && Elems(r) == Elems(t.right) + {n}
    ensures Ordered(Node(t.left, t.name, r), keys[n := a])
  {
    SameKeys(t.left, keys, keys[n := a]);
  }

  /** A new name without matches keeps the order. */
  lemma {:induction false} InsertOrdered(t: Tree, keys: Keys, a: seq<Byte>, n: nat)
    requires Ordered(t, keys) && n !in Elems(t) && Matches(Elems(t), keys, a) == {}
    ensures Ordered(Insert(t, keys, a, n), keys[n := a])
  {
    if t.Node? {
      NoMatchAtRoot(t, keys, a);
      if Compare(a, keys[t.name]) == Less {
        GoLeft(t, keys, a);
        InsertOrdered(t.left, keys, a, n);
        InsertElems(t.left, keys, a, n);
        GrowLeft(t, keys, a, n, Insert(t.left, keys, a, n));
      } else {
        GoRight(t, keys, a);
        InsertOrdered(t.right, keys, a, n);
        InsertElems(t.right, keys, a, n);
        GrowRight(t, keys, a, n, Insert(t.right, keys, a, n));
      }
    }
  }

  /** Only the keys of the tree's own names matter. */
  lemma {:induction false} SameKeys(t: Tree, keys: Keys, keys': Keys)
    requires Ordered(t, keys) && forall x | x in Elems(t) && x in keys :: x in keys' && keys'[x] == keys[x]
    ensures Ordered(t, keys')
  {
    if t.Node? {
      OrderedKeys(t, keys);
      SameKeys(t.left, keys, keys');
      SameKeys(t.right, keys, keys');
    }
  }

  /** The only match of `a`, which extends it, can be abbreviated to `a`. */
  lemma {:induction false} ShortenOrdered(t: Tree, keys: Keys, a: seq<Byte>, n: nat)
    requires Ordered(t, keys) && n in keys && a <= keys[n] && Matches(Elems(t), keys, a) <= {n}
    ensures Ordered(t, keys[n := a])
  {
    if t.Node? {
      OrderedKeys(t, keys);
      var keys', m := keys[n := a], t.name;
      ShortenOrdered(t.left, keys, a, n);
      ShortenOrdered(t.right, keys, a, n);
      forall x | x in Elems(t.left) ensures Compare(keys'[x], keys'[m]) == Less {
        ShortenedPair(keys, a, n, x, m, Elems(t));
      }
      forall x | x in Elems(t.right) ensures Compare(keys'[m], keys'[x]) == Less {
        ShortenedPair(keys, a, n, m, x, Elems(t));
      }
    }
  }

  lemma ShortenedPair(keys: Keys, a: seq<Byte>, n: nat, x: nat, y: nat, s: set<nat>)
    requires n in keys && a <= keys[n] && Matches(s, keys, a) <= {n}
    requires x in s && y in s && x in keys && y in keys && Compare(keys[x], keys[y]) == Less
    ensures Compare(keys[n := a][x], keys[n := a][y]) == Less
  {
    assert x != n ==> x !in Matches(s, keys, a);
    assert y != n ==> y !in Matches(s, keys, a);
    LessIncompatible(keys[x], keys[y]);
    if y == n { ShorterSameOrder(keys[x], keys[n], a); }
    if x == n {
      ShorterSameOrder(keys[y], keys[n], a);
      CompareSwap(keys[n], keys[y]);
      CompareSwap(a, keys[y]);
    }
  }

  // ----- Pointers --------------------------------------------------------------------------------

  /** Nodes are numbers of names, 0 is the null pointer. */
  ghost predicate Represents(t: Tree, p: nat, llink: seq<nat>, rlink: seq<nat>) {
    match t
    case Leaf => p == 0
    case Node(l, m, r) =>
      && p == m && 0 < p < |llink| == |rlink|
      && Represents(l, llink[p], llink, rlink) && Represents(r, rlink[p], llink, rlink)
  }

  /** Changing the pointers of other names does not matter. */
  lemma {:induction false} RepresentsFrame(t: Tree, p: nat, llink: seq<nat>, rlink: seq<nat>, llink': seq<nat>, rlink': seq<nat>)
    requires Represents(t, p, llink, rlink) && |llink| == |rlink| <= |llink'| == |rlink'|
    requires forall x | x in Elems(t) && x < |llink| :: llink'[x] == llink[x] && rlink'[x] == rlink[x]
    ensures Represents(t, p, llink', rlink')
  {
    if t.Node? {
      RepresentsFrame(t.left, llink[p], llink, rlink, llink', rlink');
      RepresentsFrame(t.right, rlink[p], llink, rlink, llink', rlink');
    }
  }

  /** The last node on the search path of `a`, and the result of the comparison with it. */
  ghost function LastOnPath(t: Tree, keys: Keys, a: seq<Byte>): (r: (nat, Comparison))
    requires Ordered(t, keys) && t.Node?
    ensures r.0 in Elems(t)
  {
    var c := Compare(a, keys[t.name]);
    var next := if c == Less then t.left else t.right;
    if next.Leaf? then (t.name, c) else LastOnPath(next, keys, a)
  }

  /** Attaching the name `n` to the last node on the path. */
  lemma {:induction false} Attach(t: Tree, keys: Keys, a: seq<Byte>, n: nat, p: nat,
                                  llink: seq<nat>, rlink: seq<nat>, llink': seq<nat>, rlink': seq<nat>)
    requires t.Node? && Ordered(t, keys) && Represents(t, p, llink, rlink) && |llink| == |rlink| <= |llink'| == |rlink'|
    requires 0 < n < |llink'| && n !in Elems(t) && llink'[n] == 0 == rlink'[n]
    requires var (par, c) := LastOnPath(t, keys, a);
             forall x | x in Elems(t) && x < |llink| ::
               && llink'[x] == (if x == par && c == Less then n else llink[x])
               && rlink'[x] == (if x == par && c != Less then n else rlink[x])
    ensures Represents(Insert(t, keys, a, n), p, llink', rlink')
  {
    var c := Compare(a, keys[t.name]);
    var (par, d) := LastOnPath(t, keys, a);
    Disjoint(t, keys);
    if c == Less {
      RepresentsFrame(t.right, rlink[p], llink, rlink, llink', rlink');
      if t.left.Node? { Attach(t.left, keys, a, n, llink[p], llink, rlink, llink', rlink'); }
    } else {
      RepresentsFrame(t.left, llink[p], llink, rlink, llink', rlink');
      if t.right.Node? { Attach(t.right, keys, a, n, rlink[p], llink, rlink, llink', rlink'); }
    }
  }

  /** The two subtrees and the root have no names in common. */
  lemma Disjoint(t: Tree, keys: Keys)
    requires t.Node? && Ordered(t, keys)
    ensures t.name !in Elems(t.left) && t.name !in Elems(t.right) && Elems(t.left) !! Elems(t.right)
  {
    if t.name in Elems(t.left) || t.name in Elems(t.right) { LessIncompatible(keys[t.name], keys[t.name]); }
    forall x | x in Elems(t.left) && x in Elems(t.right) ensures false {
      LessTransitive(keys[x], keys[t.name], keys[x]);
      LessIncompatible(keys[x], keys[x]);
    }
  }
}
