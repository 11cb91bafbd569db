/** Where the names are while the index is sorted: every name is in one of the buckets, in one of the lists
    on the stack, in the list that is being distributed, or has been written. */
module IndexPlaces {
  import opened Wrappers
  import opened LinkedLists
  import opened Collation

  datatype Place = Bucket(c: nat) | Stacked(k: nat) | Current | Written | Nowhere

  type Lists = Place -> seq<nat>

  /** Every name is in the list of its place, and nowhere else. */
  ghost predicate Filed(at: Lists, place: nat -> Place) {
    && (forall p: Place, i: nat | i < |at(p)| :: place(at(p)[i]) == p)
    && (forall p: Place :: Distinct(at(p)))
    && (forall x: nat | place(x) != Nowhere :: x in at(place(x)))
    && at(Nowhere) == []
  }

  /** The first name of list `p` moves to the front of list `q`. */
  ghost function Moved(at: Lists, p: Place, q: Place): Lists
    requires at(p) != []
  {
    r => if r == p then at(p)[1..] else if r == q then [at(p)[0]] + at(q) else at(r)
  }

  ghost function PlaceMoved(place: nat -> Place, x: nat, q: Place): nat -> Place {
    (y: nat) => if y == x then q else place(y)
  }

  lemma MovedFiled(at: Lists, place: nat -> Place, p: Place, q: Place)
    requires Filed(at, place) && at(p) != [] && p != q && q != Nowhere
    ensures Filed(Moved(at, p, q), PlaceMoved(place, at(p)[0], q))
  {
    var at', place' := Moved(at, p, q), PlaceMoved(place, at(p)[0], q);
    var x := at(p)[0];
    DistinctTail(at(p));
    assert forall i | 0 <= i < |at(q)| :: at(q)[i] != x;
    DistinctCons(at(q), x);
    forall r: Place, i: nat | i < |at'(r)| ensures place'(at'(r)[i]) == r { MovedPlaces(at, place, p, q, r, i); }
    forall y: nat | place'(y) != Nowhere ensures y in at'(place'(y)) { MovedFound(at, place, p, q, y); }
  }

  lemma MovedPlaces(at: Lists, place: nat -> Place, p: Place, q: Place, r: Place, i: nat)
    requires Filed(at, place) && at(p) != [] && p != q && i < |Moved(at, p, q)(r)|
    ensures PlaceMoved(place, at(p)[0], q)(Moved(at, p, q)(r)[i]) == r
  {
    if r == p {
      assert at(p)[i + 1] != at(p)[0];
    } else if r == q {
      assert i > 0 ==> Moved(at, p, q)(q)[i] == at(q)[i - 1];
    }
  }

  lemma MovedFound(at: Lists, place: nat -> Place, p: Place, q: Place, y: nat)
    requires Filed(at, place) && at(p) != [] && p != q && PlaceMoved(place, at(p)[0], q)(y) != Nowhere
    ensures y in Moved(at, p, q)(PlaceMoved(place, at(p)[0], q)(y))
  {
    var at', x := Moved(at, p, q), at(p)[0];
    if y == x {
      assert at'(q)[0] == x;
    } else if place(y) == p {
      var i :| 0 <= i < |at(p)| && at(p)[i] == y;
      assert at'(p)[i - 1] == y;
    } else if place(y) == q {
      var i :| 0 <= i < |at(q)| && at(q)[i] == y;
      assert at'(q)[i + 1] == y;
    }
  }

  /** List `p` becomes list `q`. */
  ghost function Renamed(at: Lists, p: Place, q: Place): Lists {
    r => if r == p then [] else if r == q then at(p) else at(r)
  }

  ghost function PlaceRenamed(place: nat -> Place, p: Place, q: Place): nat -> Place {
    (y: nat) => if place(y) == p then q else place(y)
  }

  lemma RenamedFiled(at: Lists, place: nat -> Place, p: Place, q: Place)
    requires Filed(at, place) && p != q && q != Nowhere && p != Nowhere && at(q) == []
    ensures Filed(Renamed(at, p, q), PlaceRenamed(place, p, q))
  {
    assert forall y: nat :: place(y) == q ==> y in at(q);
  }

  /** All names of list `p` are written after the others. */
  ghost function Appended(at: Lists, p: Place): Lists {
    r => if r == p then [] else if r == Written then at(Written) + at(p) else at(r)
  }

  lemma AppendedFiled(at: Lists, place: nat -> Place, p: Place)
    requires Filed(at, place) && p != Written && p != Nowhere
    ensures Filed(Appended(at, p), PlaceRenamed(place, p, Written))
  {
    var at', place' := Appended(at, p), PlaceRenamed(place, p, Written);
    var w, l := at(Written), at(p);
    forall i, j | 0 <= i < j < |w + l| ensures (w + l)[i] != (w + l)[j] {
      if i < |w| <= j { assert place(w[i]) == Written && place(l[j - |w|]) == p; }
    }
    forall y: nat | place'(y) != Nowhere ensures y in at'(place'(y)) {
      assert y in at(place(y));
    }
  }

  /** A name that was nowhere comes to the front of list `q`. */
  ghost function Added(at: Lists, x: nat, q: Place): Lists {
    r => if r == q then [x] + at(q) else at(r)
  }

  lemma AddedFiled(at: Lists, place: nat -> Place, x: nat, q: Place)
    requires Filed(at, place) && place(x) == Nowhere && q != Nowhere
    ensures Filed(Added(at, x, q), PlaceMoved(place, x, q))
  {
    var at', place' := Added(at, x, q), PlaceMoved(place, x, q);
    assert forall i | 0 <= i < |at(q)| :: at(q)[i] != x;
    DistinctCons(at(q), x);
    forall y: nat | place'(y) != Nowhere ensures y in at'(place'(y)) {
      if y == x { assert at'(q)[0] == x; } else { assert y in at(place(y)); }
    }
  }

  // ----- Order -----------------------------------------------------------------------------------

  predicate AllSortable(names: seq<seq<Byte>>, l: seq<nat>) {
    forall i | 0 <= i < |l| :: l[i] < |names| && Sortable(names[l[i]])
  }

  predicate Leq(names: seq<seq<Byte>>, x: nat, y: nat)
    requires x < |names| && y < |names| && Sortable(names[x]) && Sortable(names[y])
  {
    LexLeq(Key(names[x]), Key(names[y]))
  }

  /** All names of `l` come before those of `m`. */
  predicate LeqAll(names: seq<seq<Byte>>, l: seq<nat>, m: seq<nat>)
    requires AllSortable(names, l) && AllSortable(names, m)
  {
    forall i, j | 0 <= i < |l| && 0 <= j < |m| :: Leq(names, l[i], m[j])
  }

  predicate Sorted(names: seq<seq<Byte>>, l: seq<nat>)
    requires AllSortable(names, l)
  {
    forall i, j | 0 <= i < j < |l| :: Leq(names, l[i], l[j])
  }

  const INFINITY: nat := 255

  /** The names of a list with the given depth are the same up to there, or altogether. */
  predicate Group(names: seq<seq<Byte>>, l: seq<nat>, depth: nat)
    requires AllSortable(names, l)
  {
    forall i, j | 0 <= i < |l| && 0 <= j < |l| ::
      if depth == INFINITY then Same(names[l[i]], names[l[j]]) else Agree(names[l[i]], names[l[j]], depth)
  }

  lemma GroupSorted(names: seq<seq<Byte>>, l: seq<nat>, depth: nat)
    requires AllSortable(names, l) && Group(names, l, depth) && (depth == INFINITY || |l| == 1)
    ensures Sorted(names, l)
  {
    forall i, j | 0 <= i < j < |l| ensures Leq(names, l[i], l[j]) { SameKey(names[l[i]], names[l[j]]); }
  }

  /** Names that agree up to depth `d` and are then in different buckets. */
  lemma BucketsOrdered(names: seq<seq<Byte>>, l: seq<nat>, m: seq<nat>, d: nat, c: Byte, e: Byte)
    requires AllSortable(names, l) && AllSortable(names, m) && Collated(c) && Collated(e) && Pos(c) < Pos(e)
    requires forall i, j | 0 <= i < |l| && 0 <= j < |m| :: Agree(names[l[i]], names[m[j]], d)
    requires forall i | 0 <= i < |l| :: Code(names[l[i]], d) == c
    requires forall j | 0 <= j < |m| :: Code(names[m[j]], d) == e
    ensures LeqAll(names, l, m)
  {
    forall i, j | 0 <= i < |l| && 0 <= j < |m| ensures Leq(names, l[i], m[j]) {
      LessLex(names[l[i]], names[m[j]], d);
    }
  }

  /** Names that agree up to depth `d` and are then in the same bucket. */
  lemma BucketGroup(names: seq<seq<Byte>>, l: seq<nat>, d: nat, c: Byte)
    requires AllSortable(names, l) && d < INFINITY
    requires forall i, j | 0 <= i < |l| && 0 <= j < |l| :: Agree(names[l[i]], names[l[j]], d)
    requires forall i | 0 <= i < |l| :: Code(names[l[i]], d) == c
    ensures Group(names, l, if c == 0 then INFINITY else d + 1)
  {
    forall i | 0 <= i < |l| ensures c == 0 <==> |names[l[i]]| == d {
      assert Agree(names[l[i]], names[l[i]], d);
      if d < |names[l[i]]| { assert Fold(names[l[i]][d]) != 0; }
    }
    assert forall i | 0 <= i < |l| :: c != 0 ==> d + 1 <= |names[l[i]]| < INFINITY;
  }

  // ----- Progress --------------------------------------------------------------------------------

  function Sum(order: seq<nat>, cost: nat -> nat): nat {
    if order == [] then 0 else cost(order[0]) + Sum(order[1..], cost)
  }

  lemma {:induction false} SumLeq(order: seq<nat>, f: nat -> nat, g: nat -> nat)
    requires forall i | 0 <= i < |order| :: g(order[i]) <= f(order[i])
    ensures Sum(order, g) <= Sum(order, f)
    ensures (exists i :: 0 <= i < |order| && g(order[i]) < f(order[i])) ==> Sum(order, g) < Sum(order, f)
  {
    if order != [] {
      assert forall i | 0 <= i < |order[1..]| :: order[1..][i] == order[i + 1];
      SumLeq(order[1..], f, g);
      if i :| 0 <= i < |order| && g(order[i]) < f(order[i]) {
        if i > 0 { assert order[1..][i - 1] == order[i]; }
      }
    }
  }
}
