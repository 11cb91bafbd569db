/** The search for all names whose abbreviation is compatible with a given one: it goes down one path, and
    from the first name it finds down a path in each of its two subtrees. */
module NameSearch {
  import opened Wrappers
  import opened NameOrder
  import opened NameTree
  import opened NameChanges

  ghost function Size(t: Tree): nat {
    match t
    case Leaf => 0
    case Node(l, _, r) => Size(l) + 1 + Size(r)
  }

  /** All nodes are names in `s`. */
  ghost predicate Within(t: Tree, s: set<nat>) {
    match t
    case Leaf => true
    case Node(l, m, r) => m in s && Within(l, s) && Within(r, s)
  }

  lemma {:induction false} ElemsWithin(t: Tree, s: set<nat>)
    requires Elems(t) <= s
    ensures Within(t, s)
  {
    if t.Node? {
      ElemsWithin(t.left, s);
      ElemsWithin(t.right, s);
    }
  }

  /** No name has been found: all matches are in the subtree `tp`, where the path goes on. */
  ghost predicate Descending(tree: Tree, keys: Keys, a: seq<Byte>, tp: Tree, par: nat, c: Comparison) {
    && Ordered(tree, keys) && Ordered(tp, keys)
    && Matches(Elems(tree), keys, a) == Matches(Elems(tp), keys, a)
    && if tp.Leaf? then EndsAt(tree, keys, a, par, c)
       else tree.Node? && LastOnPath(tree, keys, a) == LastOnPath(tp, keys, a)
  }

  /** Name `r` has been found: all further matches are in the subtrees `tp` and `tq`. */
  ghost predicate Checking(tree: Tree, keys: Keys, a: seq<Byte>, tp: Tree, tq: Tree, r: nat) {
    && Ordered(tree, keys) && Ordered(tp, keys) && Ordered(tq, keys)
    && r in Elems(tree) && r !in Elems(tp) && r !in Elems(tq)
    && Matches(Elems(tree), keys, a) == {r} + Matches(Elems(tp), keys, a) + Matches(Elems(tq), keys, a)
  }

  /** The variables of the search: `r` is 0 as long as no name has been found. */
  ghost predicate Searching(tree: Tree, keys: Keys, a: seq<Byte>, tp: Tree, tq: Tree, r: nat, par: nat, c: Comparison) {
    if r == 0 then tq == Leaf && Descending(tree, keys, a, tp, par, c) else Checking(tree, keys, a, tp, tq, r)
  }

  lemma SearchStarts(tree: Tree, keys: Keys, a: seq<Byte>)
    requires Ordered(tree, keys)
    ensures Searching(tree, keys, a, tree, Leaf, 0, 0, Equal)
  {
  }

  lemma DescendLess(tree: Tree, keys: Keys, a: seq<Byte>, tp: Tree, par: nat, c: Comparison)
    requires Descending(tree, keys, a, tp, par, c) && tp.Node? && Compare(a, keys[tp.name]) == Less
    ensures Descending(tree, keys, a, tp.left, tp.name, Less)
  {
    GoLeft(tp, keys, a);
  }

  lemma DescendGreater(tree: Tree, keys: Keys, a: seq<Byte>, tp: Tree, par: nat, c: Comparison)
    requires Descending(tree, keys, a, tp, par, c) && tp.Node? && Compare(a, keys[tp.name]) == Greater
    ensures Descending(tree, keys, a, tp.right, tp.name, Greater)
  {
    GoRight(tp, keys, a);
  }

  lemma SearchLess(tree: Tree, keys: Keys, a: seq<Byte>, tp: Tree, tq: Tree, r: nat, par: nat, c: Comparison)
    requires Searching(tree, keys, a, tp, tq, r, par, c) && tp.Node? && Ordered(tp, keys)
    requires Compare(a, keys[tp.name]) == Less
    ensures Searching(tree, keys, a, tp.left, tq, r, if r == 0 then tp.name else par, Less)
  {
    if r == 0 { DescendLess(tree, keys, a, tp, par, c); } else { GoLeft(tp, keys, a); }
  }

  lemma SearchGreater(tree: Tree, keys: Keys, a: seq<Byte>, tp: Tree, tq: Tree, r: nat, par: nat, c: Comparison)
    requires Searching(tree, keys, a, tp, tq, r, par, c) && tp.Node? && Ordered(tp, keys)
    requires Compare(a, keys[tp.name]) == Greater
    ensures Searching(tree, keys, a, tp.right, tq, r, if r == 0 then tp.name else par, Greater)
  {
    if r == 0 { DescendGreater(tree, keys, a, tp, par, c); } else { GoRight(tp, keys, a); }
  }

  /** The first name that is found. */
  lemma SearchHit(tree: Tree, keys: Keys, a: seq<Byte>, tp: Tree, tq: Tree, par: nat, c: Comparison, d: Comparison)
    requires Searching(tree, keys, a, tp, tq, 0, par, c) && tp.Node? && tp.name != 0 && Ordered(tp, keys)
    requires Compatible(a, keys[tp.name])
    ensures Searching(tree, keys, a, tp.left, tp.right, tp.name, par, d)
  {
    Disjoint(tp, keys);
    var all, l, r := Matches(Elems(tp), keys, a), Matches(Elems(tp.left), keys, a), Matches(Elems(tp.right), keys, a);
    assert all == {tp.name} + l + r;
    assert tp.name in Matches(Elems(tree), keys, a);
  }

  /** A second name that is found. */
  lemma SearchTwo(tree: Tree, keys: Keys, a: seq<Byte>, tp: Tree, tq: Tree, r: nat, par: nat, c: Comparison)
    requires Searching(tree, keys, a, tp, tq, r, par, c) && r != 0 && tp.Node? && Ordered(tp, keys)
    requires Compatible(a, keys[tp.name])
    ensures r in Matches(Elems(tree), keys, a) && tp.name in Matches(Elems(tree), keys, a) && r != tp.name
  {
    assert tp.name in Matches(Elems(tp), keys, a);
  }

  /** The first subtree has been searched. */
  lemma SearchOther(tree: Tree, keys: Keys, a: seq<Byte>, tq: Tree, r: nat, par: nat, c: Comparison)
    requires Searching(tree, keys, a, Leaf, tq, r, par, c)
    ensures Searching(tree, keys, a, tq, Leaf, r, par, c)
  {
  }

  /** Both have been searched. */
  lemma SearchEnds(tree: Tree, keys: Keys, a: seq<Byte>, r: nat, par: nat, c: Comparison)
    requires Searching(tree, keys, a, Leaf, Leaf, r, par, c)
    ensures if r == 0 then Matches(Elems(tree), keys, a) == {} && Ordered(tree, keys) && EndsAt(tree, keys, a, par, c)
            else Matches(Elems(tree), keys, a) == {r}
  {
    assert Matches({}, keys, a) == {};
  }
}
