/** Singly linked lists whose links are kept in an array: entry `x` leads to entry `next[x]`, and 0 ends a
    list. */
module LinkedLists {

  /** The list that begins at `head` consists of the entries `l`. */
  ghost predicate Chain(next: seq<nat>, head: nat, l: seq<nat>)
    decreases |l|
  {
    if l == [] then head == 0 else head == l[0] && 0 < head < |next| && Chain(next, next[head], l[1..])
  }

  ghost predicate Distinct(l: seq<nat>) {
    forall i, j | 0 <= i < j < |l| :: l[i] != l[j]
  }

  lemma {:induction false} ChainBounds(next: seq<nat>, head: nat, l: seq<nat>)
    requires Chain(next, head, l)
    ensures forall i | 0 <= i < |l| :: 0 < l[i] < |next|
    decreases |l|
  {
    if l != [] { ChainBounds(next, next[head], l[1..]); }
  }

  /** Links of other entries do not matter. */
  lemma {:induction false} ChainFrame(next: seq<nat>, next': seq<nat>, head: nat, l: seq<nat>)
    requires Chain(next, head, l) && |next| <= |next'|
    requires forall i | 0 <= i < |l| && l[i] < |next| :: next'[l[i]] == next[l[i]]
    ensures Chain(next', head, l)
    decreases |l|
  {
    if l != [] {
      assert forall i | 0 <= i < |l[1..]| :: l[1..][i] == l[i + 1];
      ChainFrame(next, next', next[head], l[1..]);
    }
  }

  /** A new first entry. */
  lemma ChainCons(next: seq<nat>, head: nat, l: seq<nat>, x: nat)
    requires Chain(next, head, l) && 0 < x < |next| && forall i | 0 <= i < |l| :: l[i] != x
    ensures Chain(next[x := head], x, [x] + l)
  {
    ChainFrame(next, next[x := head], head, l);
    assert ([x] + l)[1..] == l;
  }

  /** A list has only one sequence of entries. */
  lemma {:induction false} ChainUnique(next: seq<nat>, head: nat, l: seq<nat>, m: seq<nat>)
    requires Chain(next, head, l) && Chain(next, head, m)
    ensures l == m
    decreases |l|
  {
    if l == [] {
    } else {
      ChainUnique(next, next[head], l[1..], m[1..]);
      assert l == [head] + l[1..] && m == [head] + m[1..];
    }
  }

  lemma DistinctCons(l: seq<nat>, x: nat)
    requires Distinct(l) && forall i | 0 <= i < |l| :: l[i] != x
    ensures Distinct([x] + l)
  {
  }

  lemma DistinctTail(l: seq<nat>)
    requires Distinct(l) && l != []
    ensures Distinct(l[1..]) && forall i | 0 <= i < |l| - 1 :: l[1..][i] != l[0]
  {
  }

  /** The link of every entry leads to the next one. */
  lemma {:induction false} ChainLink(next: seq<nat>, head: nat, l: seq<nat>, j: nat)
    requires Chain(next, head, l) && j < |l|
    ensures 0 < l[j] < |next| && next[l[j]] == if j + 1 < |l| then l[j + 1] else 0
    decreases |l|
  {
    if j > 0 {
      ChainLink(next, next[head], l[1..], j - 1);
    } else if |l| > 1 {
      assert Chain(next, next[head], l[1..]);
    }
  }

  /** A new last cell of the array becomes entry `i` of a list. */
  lemma {:induction false} ChainInsert(next: seq<nat>, head: nat, l: seq<nat>, i: nat)
    requires Chain(next, head, l) && Distinct(l) && 0 < i <= |l| && |next| > 0
    ensures var e := |next|;
            && l[i - 1] < e
            && Chain((next + [if i < |l| then l[i] else 0])[l[i - 1] := e], head, l[..i] + [e] + l[i..])
    decreases |l|
  {
    var e, q := |next|, if i < |l| then l[i] else 0;
    ChainBounds(next, head, l);
    ChainLink(next, head, l, i - 1);
    var next' := (next + [q])[l[i - 1] := e];
    var r := l[..i] + [e] + l[i..];
    if i == 1 {
      DistinctTail(l);
      ChainFrame(next, next', next[head], l[1..]);
      assert r[1..] == [e] + l[1..] && ([e] + l[1..])[1..] == l[1..];
      assert Chain(next', e, [e] + l[1..]);
    } else {
      DistinctTail(l);
      ChainInsert(next, next[head], l[1..], i - 1);
      assert l[1..][..i - 1] == l[..i][1..] && l[1..][i - 1..] == l[i..];
      assert r[1..] == l[1..][..i - 1] + [e] + l[1..][i - 1..];
      assert l[1..][i - 2] == l[i - 1] && l[i - 1] != head;
    }
  }

  /** Entry `i` is taken out of a list. */
  lemma {:induction false} ChainDelete(next: seq<nat>, head: nat, l: seq<nat>, i: nat)
    requires Chain(next, head, l) && Distinct(l) && 0 < i < |l|
    ensures l[i - 1] < |next|
    ensures Chain(next[l[i - 1] := if i + 1 < |l| then l[i + 1] else 0], head, l[..i] + l[i + 1..])
    decreases |l|
  {
    var q := if i + 1 < |l| then l[i + 1] else 0;
    ChainBounds(next, head, l);
    var next' := next[l[i - 1] := q];
    var r := l[..i] + l[i + 1..];
    DistinctTail(l);
    if i == 1 {
      ChainLink(next, head, l, 1);
      assert Chain(next, next[head], l[1..]) && l[1..][1..] == l[2..];
      assert Chain(next, q, l[2..]);
      ChainFrame(next, next', q, l[2..]);
      assert r[1..] == l[2..];
    } else {
      ChainDelete(next, next[head], l[1..], i - 1);
      assert l[1..][i - 2] == l[i - 1] && l[i - 1] != head;
      assert r[1..] == l[1..][..i - 1] + l[1..][i..];
    }
  }
}
