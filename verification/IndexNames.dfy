/** The names that CWEAVE puts into its index: those with cross references, in the order in which the lists of the
    hash table are passed through. */
module IndexNames {
  import opened LinkedLists

  /** The lists one after the other. */
  function Flat(lists: seq<seq<nat>>): seq<nat> {
    if lists == [] then [] else Flat(lists[..|lists| - 1]) + lists[|lists| - 1]
  }

  predicate Referred(x: nat, xref: seq<bool>) {
    x < |xref| && xref[x]
  }

  /** The names of a list that have cross references. */
  function Kept(l: seq<nat>, xref: seq<bool>): seq<nat> {
    if l == [] then []
    else Kept(l[..|l| - 1], xref) + if Referred(l[|l| - 1], xref) then [l[|l| - 1]] else []
  }

  lemma {:induction false} KeptMembers(l: seq<nat>, xref: seq<bool>)
    ensures forall x: nat :: x in Kept(l, xref) <==> x in l && Referred(x, xref)
  {
    if l != [] {
      var n := |l| - 1;
      KeptMembers(l[..n], xref);
      assert l == l[..n] + [l[n]];
    }
  }

  lemma {:induction false} KeptDistinct(l: seq<nat>, xref: seq<bool>)
    requires Distinct(l)
    ensures Distinct(Kept(l, xref))
  {
    if l != [] {
      var n := |l| - 1;
      KeptDistinct(l[..n], xref);
      KeptMembers(l[..n], xref);
    }
  }

  /** How many names have been kept before place `p`, and what comes there. */
  lemma {:induction false} KeptUpTo(l: seq<nat>, p: nat, xref: seq<bool>)
    requires p <= |l|
    ensures Kept(l[..p], xref) <= Kept(l, xref)
    ensures p < |l| ==> Kept(l[..p + 1], xref) == Kept(l[..p], xref) + if Referred(l[p], xref) then [l[p]] else []
    decreases |l|
  {
    if p == |l| {
      assert l[..p] == l;
    } else {
      var n := |l| - 1;
      KeptUpTo(l[..n], p, xref);
      assert l[..n][..p] == l[..p];
      assert l[..p + 1][..p] == l[..p];
    }
  }

  lemma FlatNext(lists: seq<seq<nat>>, h: nat)
    requires h < |lists|
    ensures Flat(lists[..h + 1]) == Flat(lists[..h]) + lists[h]
  {
    assert lists[..h + 1][..h] == lists[..h];
  }

  lemma {:induction false} FlatMembers(lists: seq<seq<nat>>, x: nat)
    ensures x in Flat(lists) <==> exists h :: 0 <= h < |lists| && x in lists[h]
  {
    if lists != [] {
      var n := |lists| - 1;
      FlatMembers(lists[..n], x);
      if h :| 0 <= h < n && x in lists[h] { assert x in lists[..n][h]; }
    }
  }

  /** A list that ends has no entry twice. */
  lemma {:induction false} ChainDistinct(next: seq<nat>, head: nat, l: seq<nat>)
    requires Chain(next, head, l)
    ensures Distinct(l)
    decreases |l|
  {
    if l != [] {
      ChainDistinct(next, next[head], l[1..]);
      forall j | 0 < j < |l| ensures l[j] != l[0] {
        if l[j] == l[0] {
          ChainFrom(next, head, l, j);
          ChainUnique(next, head, l, l[j..]);
        }
      }
    }
  }

  lemma {:induction false} ChainFrom(next: seq<nat>, head: nat, l: seq<nat>, j: nat)
    requires Chain(next, head, l) && j < |l|
    ensures Chain(next, l[j], l[j..])
    decreases j
  {
    if j > 0 {
      ChainFrom(next, next[head], l[1..], j - 1);
      assert l[1..][j - 1..] == l[j..];
    } else {
      assert l[0..] == l;
    }
  }

  /** Lists without common names, and without any name twice, can be passed through one after the other. */
  lemma {:induction false} FlatDistinct(lists: seq<seq<nat>>)
    requires forall h | 0 <= h < |lists| :: Distinct(lists[h])
    requires forall g, h, x | 0 <= g < h < |lists| && x in lists[g] :: x !in lists[h]
    ensures Distinct(Flat(lists))
  {
    if lists != [] {
      var n := |lists| - 1;
      FlatDistinct(lists[..n]);
      var a, b := Flat(lists[..n]), lists[n];
      forall i, j | 0 <= i < j < |a + b| ensures (a + b)[i] != (a + b)[j] {
        if i < |a| <= j {
          FlatMembers(lists[..n], a[i]);
          assert b[j - |a|] in b;
        }
      }
    }
  }

  lemma FlatNone(lists: seq<seq<nat>>)
    ensures Flat(lists[..0]) == []
  {
  }

  /** List `h` has its place among all names. */
  lemma FlatPart(lists: seq<seq<nat>>, h: nat)
    requires h < |lists|
    ensures |Flat(lists[..h])| + |lists[h]| == |Flat(lists[..h + 1])| <= |Flat(lists)|
    ensures Flat(lists)[|Flat(lists[..h])|..|Flat(lists[..h + 1])|] == lists[h]
  {
    FlatNext(lists, h);
    FlatPrefix(lists, h + 1);
    assert Flat(lists)[..|Flat(lists[..h + 1])|] == Flat(lists[..h]) + lists[h];
  }

  lemma {:induction false} FlatPrefix(lists: seq<seq<nat>>, h: nat)
    requires h <= |lists|
    ensures Flat(lists[..h]) <= Flat(lists)
    decreases |lists|
  {
    if h == |lists| {
      assert lists[..h] == lists;
    } else {
      FlatPrefix(lists[..|lists| - 1], h);
      assert lists[..|lists| - 1][..h] == lists[..h];
    }
  }

  lemma KeptPositive(hash: seq<nat>, link: seq<nat>, lists: seq<seq<nat>>, xref: seq<bool>)
    requires |hash| == |lists| && forall h | 0 <= h < |hash| :: Chain(link, hash[h], lists[h])
    ensures forall i | 0 <= i < |Kept(Flat(lists), xref)| :: Kept(Flat(lists), xref)[i] > 0
  {
    var order := Kept(Flat(lists), xref);
    KeptMembers(Flat(lists), xref);
    forall i | 0 <= i < |order| ensures order[i] > 0 {
      assert order[i] in order;
      FlatMembers(lists, order[i]);
      var h :| 0 <= h < |lists| && order[i] in lists[h];
      ChainBounds(link, hash[h], lists[h]);
    }
  }
}
