/** CWEAVE's index sort as it runs: names are distributed into buckets by one character after the other, and
    the lists still to be sorted are kept on a stack.  The lists share one array of links. */
module IndexSort {
  import opened Wrappers
  import opened LinkedLists
  import opened Collation
  import opened IndexNames
  import opened IndexPlaces

  datatype Entry = Entry(depth: nat, head: nat)

  // ----- The order of the lists on the stack -----------------------------------------------------

  /** The lists get smaller from the bottom of the stack to its top, and all that has been written is smaller
      than they are. */
  ghost predicate Ordered(names: seq<seq<Byte>>, out: seq<nat>, ls: seq<seq<nat>>, stack: seq<Entry>) {
    && |ls| == |stack| && AllSortable(names, out) && Sorted(names, out)
    && (forall k | 0 <= k < |ls| ::
          ls[k] != [] && AllSortable(names, ls[k]) && Group(names, ls[k], stack[k].depth) && LeqAll(names, out, ls[k]))
    && (forall j, k | 0 <= j < k < |ls| :: LeqAll(names, ls[k], ls[j]))
  }

  lemma PushOrdered(names: seq<seq<Byte>>, out: seq<nat>, ls: seq<seq<nat>>, stack: seq<Entry>, l: seq<nat>, e: Entry)
    requires Ordered(names, out, ls, stack) && l != [] && AllSortable(names, l) && Group(names, l, e.depth)
    requires LeqAll(names, out, l) && forall k | 0 <= k < |ls| :: LeqAll(names, l, ls[k])
    ensures Ordered(names, out, ls + [l], stack + [e])
  {
  }

  lemma PopOrdered(names: seq<seq<Byte>>, out: seq<nat>, ls: seq<seq<nat>>, stack: seq<Entry>)
    requires Ordered(names, out, ls, stack) && ls != []
    ensures Ordered(names, out, ls[..|ls| - 1], stack[..|stack| - 1])
  {
  }

  lemma WriteOrdered(names: seq<seq<Byte>>, out: seq<nat>, ls: seq<seq<nat>>, stack: seq<Entry>)
    requires Ordered(names, out, ls, stack) && ls != [] && Sorted(names, ls[|ls| - 1])
    ensures Ordered(names, out + ls[|ls| - 1], ls[..|ls| - 1], stack[..|stack| - 1])
  {
  }

  /** Part of a list. */
  ghost predicate Part(l: seq<nat>, src: seq<nat>) {
    forall i | 0 <= i < |l| :: l[i] in src
  }

  lemma PartLeq(names: seq<seq<Byte>>, l: seq<nat>, src: seq<nat>, m: seq<nat>)
    requires Part(l, src) && AllSortable(names, src) && AllSortable(names, m) && AllSortable(names, l)
    ensures LeqAll(names, src, m) ==> LeqAll(names, l, m)
    ensures LeqAll(names, m, src) ==> LeqAll(names, m, l)
  {
  }

  /** All pairs of names agree up to depth `d`. */
  ghost predicate AgreeAll(names: seq<seq<Byte>>, src: seq<nat>, d: nat)
    requires AllSortable(names, src)
  {
    forall x, y | x in src && y in src :: x < |names| && y < |names| && Agree(names[x], names[y], d)
  }

  /** The names of list `l` come from `src`, and belong to the bucket in place `i` of the collating sequence. */
  ghost predicate FromBucket(names: seq<seq<Byte>>, l: seq<nat>, src: seq<nat>, d: nat, i: nat) {
    && i <= 228 && AllSortable(names, src) && Part(l, src)
    && forall j | 0 <= j < |l| :: l[j] < |names| && Code(names[l[j]], d) == CollateAt(i)
  }

  lemma FromBucketGroup(names: seq<seq<Byte>>, l: seq<nat>, src: seq<nat>, d: nat, i: nat)
    requires FromBucket(names, l, src, d, i) && AgreeAll(names, src, d) && d < INFINITY
    ensures AllSortable(names, l) && Group(names, l, if i == 0 then INFINITY else d + 1)
  {
    CollateInverse(0, i);
    forall j | 0 <= j < |l| ensures Sortable(names[l[j]]) {
      assert l[j] in src;
      var k :| 0 <= k < |src| && src[k] == l[j];
    }
    BucketGroup(names, l, d, CollateAt(i));
  }

  lemma FromBucketsOrdered(names: seq<seq<Byte>>, l: seq<nat>, m: seq<nat>, src: seq<nat>, d: nat, i: nat, j: nat)
    requires FromBucket(names, l, src, d, i) && FromBucket(names, m, src, d, j) && AgreeAll(names, src, d)
    requires i < j && d < INFINITY
    ensures AllSortable(names, l) && AllSortable(names, m) && LeqAll(names, l, m)
  {
    FromBucketGroup(names, l, src, d, i);
    FromBucketGroup(names, m, src, d, j);
    CollateInverse(0, i);
    CollateInverse(0, j);
    BucketsOrdered(names, l, m, d, CollateAt(i), CollateAt(j));
  }

  /** The lists pushed by `unbucket` so far, above those that were there before: they come from buckets in
      decreasing places `pos`, all of them at least `i`. */
  ghost predicate Pushed(names: seq<seq<Byte>>, ls: seq<seq<nat>>, stack: seq<Entry>, base: nat, src: seq<nat>, d: nat,
                         pos: seq<nat>, i: nat)
  {
    && base + |pos| == |ls| == |stack| && AllSortable(names, src)
    && (forall k | 0 <= k < |pos| :: pos[k] >= i && FromBucket(names, ls[base + k], src, d, pos[k])
                                    && stack[base + k].depth == if pos[k] == 0 then INFINITY else d + 1)
    && (forall k | 0 <= k < base :: AllSortable(names, ls[k]) && LeqAll(names, src, ls[k]))
  }

  /** Another bucket is pushed. */
  lemma PushBucket(names: seq<seq<Byte>>, out: seq<nat>, ls: seq<seq<nat>>, stack: seq<Entry>, base: nat, src: seq<nat>, d: nat,
                   pos: seq<nat>, i: nat, l: seq<nat>, e: Entry)
    requires AllSortable(names, src) && AgreeAll(names, src, d) && d < INFINITY
    requires Ordered(names, out, ls, stack) && LeqAll(names, out, src) && Pushed(names, ls, stack, base, src, d, pos, i + 1)
    requires l != [] && FromBucket(names, l, src, d, i) && e.depth == if i == 0 then INFINITY else d + 1
    ensures Ordered(names, out, ls + [l], stack + [e])
    ensures Pushed(names, ls + [l], stack + [e], base, src, d, pos + [i], i)
  {
    FromBucketGroup(names, l, src, d, i);
    PartLeq(names, l, src, out);
    forall k | 0 <= k < |ls| ensures LeqAll(names, l, ls[k]) {
      if k < base {
        PartLeq(names, l, src, ls[k]);
      } else {
        assert ls[k] == ls[base + (k - base)];
        FromBucketsOrdered(names, l, ls[k], src, d, i, pos[k - base]);
      }
    }
    PushOrdered(names, out, ls, stack, l, e);
  }

  // ----- The sorting machine ---------------------------------------------------------------------

  ghost function StackLists(at: Lists, n: nat): (ls: seq<seq<nat>>)
    ensures |ls| == n
  {
    seq(n, k requires 0 <= k < n => at(Stacked(k)))
  }

  /** The links of the buckets, of the lists on the stack, and of the list that begins at `rest`; there are
      no other lists. */
  ghost predicate LinksAt(next: seq<nat>, bucket: seq<nat>, stack: seq<Entry>, rest: nat, at: Lists) {
    && |bucket| == 256
    && (forall c: nat | c < 256 :: Chain(next, bucket[c], at(Bucket(c))))
    && (forall k: nat | k < |stack| :: Chain(next, stack[k].head, at(Stacked(k))))
    && Chain(next, rest, at(Current))
    && (forall c: nat | c >= 256 :: at(Bucket(c)) == []) && (forall k: nat | k >= |stack| :: at(Stacked(k)) == [])
  }

  lemma LinksPushed(next: seq<nat>, bucket: seq<nat>, stack: seq<Entry>, rest: nat, at: Lists, c: nat, depth: nat)
    requires LinksAt(next, bucket, stack, rest, at) && c < 256 && bucket[c] != 0
    ensures at(Bucket(c)) != [] && at(Stacked(|stack|)) == []
    ensures LinksAt(next, bucket[c := 0], stack + [Entry(depth, bucket[c])], rest, Renamed(at, Bucket(c), Stacked(|stack|)))
  {
    assert Chain(next, bucket[c], at(Bucket(c)));
    hide Chain;
  }

  /** The first name of list `p` is in no other list. */
  lemma Elsewhere(at: Lists, place: nat -> Place, p: Place, q: Place)
    requires Filed(at, place) && at(p) != [] && p != q
    ensures forall i | 0 <= i < |at(q)| :: at(q)[i] != at(p)[0]
  {
    assert place(at(p)[0]) == p;
  }

  lemma FirstOf(next: seq<nat>, head: nat, l: seq<nat>)
    requires Chain(next, head, l) && head != 0 && Distinct(l)
    ensures l != [] && l[0] == head < |next| && Chain(next, next[head], l[1..])
    ensures forall i | 0 <= i < |l[1..]| :: l[1..][i] != head
  {
    DistinctTail(l);
  }

  /** A list without entry `x` does not depend on its link. */
  lemma ChainOther(next: seq<nat>, x: nat, y: nat, head: nat, l: seq<nat>)
    requires Chain(next, head, l) && x < |next| && forall i | 0 <= i < |l| :: l[i] != x
    ensures Chain(next[x := y], head, l)
  {
    ChainFrame(next, next[x := y], head, l);
  }

  /** The first name of the current list moves to bucket `c`. */
  lemma LinksMoved(next: seq<nat>, bucket: seq<nat>, stack: seq<Entry>, rest: nat, at: Lists, place: nat -> Place, c: nat)
    requires LinksAt(next, bucket, stack, rest, at) && Filed(at, place) && c < 256 && rest != 0
    ensures at(Current) != [] && at(Current)[0] == rest < |next|
    ensures LinksAt(next[rest := bucket[c]], bucket[c := rest], stack, next[rest], Moved(at, Current, Bucket(c)))
  {
    assert Distinct(at(Current));
    assert Chain(next, bucket[c], at(Bucket(c)));
    FirstOf(next, rest, at(Current));
    Elsewhere(at, place, Current, Bucket(c));
    ChainCons(next, bucket[c], at(Bucket(c)), rest);
    var next' := next[rest := bucket[c]];
    ChainOther(next, rest, bucket[c], next[rest], at(Current)[1..]);
    forall e: nat | e < 256 && e != c ensures Chain(next', bucket[e], at(Bucket(e))) {
      Elsewhere(at, place, Current, Bucket(e));
      ChainOther(next, rest, bucket[c], bucket[e], at(Bucket(e)));
    }
    forall k: nat | k < |stack| ensures Chain(next', stack[k].head, at(Stacked(k))) {
      Elsewhere(at, place, Current, Stacked(k));
      ChainOther(next, rest, bucket[c], stack[k].head, at(Stacked(k)));
    }
    hide Filed, Chain, Distinct;
  }

  /** The top of the stack becomes the current list. */
  lemma LinksPopped(next: seq<nat>, bucket: seq<nat>, stack: seq<Entry>, at: Lists)
    requires LinksAt(next, bucket, stack, 0, at) && stack != []
    ensures at(Current) == []
    ensures LinksAt(next, bucket, stack[..|stack| - 1], stack[|stack| - 1].head, Renamed(at, Stacked(|stack| - 1), Current))
  {
    hide Chain;
    CurrentEmpty(next, at(Current));
  }

  lemma CurrentEmpty(next: seq<nat>, l: seq<nat>)
    requires Chain(next, 0, l)
    ensures l == []
  {
  }

  /** The buckets hold names of `src`, each in the bucket of its character at depth `d`; those in place `i` of
      the collating sequence and after it are empty. */
  ghost predicate Coded(names: seq<seq<Byte>>, at: Lists, src: seq<nat>, d: nat, i: nat) {
    && AllSortable(names, src)
    && forall c: nat | c < 256 && at(Bucket(c)) != [] ::
         Collated(c) && Pos(c) < i && FromBucket(names, at(Bucket(c)), src, d, Pos(c))
  }

  /** Where names are that were in buckets before `unbucket`. */
  ghost predicate Restacked(before: nat -> Place, place: nat -> Place, stack: seq<Entry>, base: nat, depth: nat) {
    forall x: nat ::
      if before(x).Bucket? then
        place(x) == before(x)
        || (place(x).Stacked? && base <= place(x).k < |stack|
            && (stack[place(x).k].depth == INFINITY || stack[place(x).k].depth == depth))
      else place(x) == before(x)
  }

  lemma StackListsPushed(at: Lists, c: nat, n: nat)
    ensures StackLists(Renamed(at, Bucket(c), Stacked(n)), n + 1) == StackLists(at, n) + [at(Bucket(c))]
  {
  }

  lemma CodedPushed(names: seq<seq<Byte>>, at: Lists, src: seq<nat>, d: nat, i: nat, n: nat)
    requires i <= 228 && Coded(names, at, src, d, i + 1)
    ensures Coded(names, Renamed(at, Bucket(CollateAt(i)), Stacked(n)), src, d, i)
    ensures at(Bucket(CollateAt(i))) != [] ==> FromBucket(names, at(Bucket(CollateAt(i))), src, d, i)
  {
    hide FromBucket;
    CollateInverse(0, i);
    forall c: Byte | Collated(c) && Pos(c) == i ensures c == CollateAt(i) { CollateInverse(c, i); }
  }

  lemma CodedSkipped(names: seq<seq<Byte>>, at: Lists, src: seq<nat>, d: nat, i: nat)
    requires i <= 228 && Coded(names, at, src, d, i + 1) && at(Bucket(CollateAt(i))) == []
    ensures Coded(names, at, src, d, i)
  {
    hide FromBucket;
    forall c: Byte | Collated(c) && Pos(c) == i ensures c == CollateAt(i) { CollateInverse(c, i); }
  }

  lemma RestackedPushed(before: nat -> Place, place: nat -> Place, stack: seq<Entry>, base: nat, depth: nat, c: nat, e: Entry)
    requires Restacked(before, place, stack, base, depth) && base <= |stack|
    requires e.depth == INFINITY || e.depth == depth
    ensures Restacked(before, PlaceRenamed(place, Bucket(c), Stacked(|stack|)), stack + [e], base, depth)
  {
  }

  lemma NotEmptied(next: seq<nat>, bucket: seq<nat>, stack: seq<Entry>, at: Lists, c: nat)
    requires LinksAt(next, bucket, stack, 0, at) && c < 256
    ensures bucket[c] == 0 <==> at(Bucket(c)) == []
  {
    assert Chain(next, bucket[c], at(Bucket(c)));
  }

  class Sorter {
    const names: seq<seq<Byte>>
    const maxEntries: nat
    const blink: array<nat>
    const bucket: array<nat>
    var stack: seq<Entry>
    var out: seq<nat>
    ghost var at: Lists
    ghost var place: nat -> Place

    ghost predicate Valid(rest: nat)
      reads `stack, `out, `at, `place, blink, bucket
    {
      && blink.Length == |names| && bucket.Length == 256 && blink != bucket
      && LinksAt(blink[..], bucket[..], stack, rest, at) && Filed(at, place) && out == at(Written)
    }

    constructor (names: seq<seq<Byte>>, maxEntries: nat)
      ensures this.names == names && this.maxEntries == maxEntries && stack == [] && out == []
      ensures fresh(blink) && fresh(bucket) && blink != bucket && blink.Length == |names| && bucket.Length == 256
    {
      this.names, this.maxEntries := names, maxEntries;
      blink := new nat[|names|];
      bucket := new nat[256];
      stack, out := [], [];
    }

    // ----- unbucket ------------------------------------------------------------------------------

    /** Bucket `c`, which is not empty, becomes the top of the stack. */
    method PushList(c: nat, depth: nat)
      requires Valid(0) && c < 256 && bucket[c] != 0
      modifies `stack, `at, `place, bucket
      ensures Valid(0) && bucket[..] == old(bucket[..])[c := 0]
      ensures old(at(Bucket(c))) != [] && stack == old(stack) + [Entry(depth, old(bucket[c]))]
      ensures at == Renamed(old(at), Bucket(c), Stacked(old(|stack|)))
      ensures place == PlaceRenamed(old(place), Bucket(c), Stacked(old(|stack|)))
    {
      hide LinksAt, Filed;
      LinksPushed(blink[..], bucket[..], stack, 0, at, c, depth);
      RenamedFiled(at, place, Bucket(c), Stacked(|stack|));
      at, place := Renamed(at, Bucket(c), Stacked(|stack|)), PlaceRenamed(place, Bucket(c), Stacked(|stack|));
      stack := stack + [Entry(depth, bucket[c])];
      bucket[c] := 0;
    }

    /** The first name of the current list moves to bucket `c`. */
    method MoveToBucket(rest: nat, c: nat) returns (next: nat)
      requires Valid(rest) && c < 256 && rest != 0
      modifies `at, `place, blink, bucket
      ensures Valid(next) && old(at(Current)) != [] && old(at(Current))[0] == rest
      ensures at == Moved(old(at), Current, Bucket(c)) && place == PlaceMoved(old(place), rest, Bucket(c))
    {
      hide LinksAt, Filed;
      LinksMoved(blink[..], bucket[..], stack, rest, at, place, c);
      MovedFiled(at, place, Current, Bucket(c));
      at, place := Moved(at, Current, Bucket(c)), PlaceMoved(place, rest, Bucket(c));
      next := blink[rest];
      blink[rest] := bucket[c];
      bucket[c] := rest;
    }

    /** The list at the top of the stack becomes the current one. */
    method PopList() returns (rest: nat)
      requires Valid(0) && stack != []
      modifies `stack, `at, `place
      ensures Valid(rest) && rest == old(stack)[|old(stack)| - 1].head && stack == old(stack)[..|old(stack)| - 1]
      ensures at == Renamed(old(at), Stacked(|stack|), Current) && place == PlaceRenamed(old(place), Stacked(|stack|), Current)
    {
      hide LinksAt, Filed;
      LinksPopped(blink[..], bucket[..], stack, at);
      RenamedFiled(at, place, Stacked(|stack| - 1), Current);
      at, place := Renamed(at, Stacked(|stack| - 1), Current), PlaceRenamed(place, Stacked(|stack| - 1), Current);
      rest := stack[|stack| - 1].head;
      stack := stack[..|stack| - 1];
    }

    ghost function Tops(): seq<seq<nat>>
      reads `stack, `at
    {
      StackLists(at, |stack|)
    }

    /** `unbucket`: the buckets go on the stack, the last one in the collating sequence first. */
    method Unbucket(depth: nat, ghost src: seq<nat>, ghost order: seq<nat>) returns (ok: bool)
      requires Valid(0) && at(Current) == [] && 0 < depth <= INFINITY && Coded(names, at, src, depth - 1, 229)
      requires AllSortable(names, src) && AgreeAll(names, src, depth - 1)
      requires Ordered(names, out, Tops(), stack) && LeqAll(names, out, src)
      requires Pushed(names, Tops(), stack, |stack|, src, depth - 1, [], 229) && Covers(place, order)
      modifies `stack, `at, `place, bucket
      ensures !ok ==> |order| >= maxEntries
      ensures ok ==> Valid(0) && at(Current) == [] && Ordered(names, out, Tops(), stack)
      ensures ok ==> forall c: nat :: at(Bucket(c)) == []
      ensures ok ==> |stack| >= old(|stack|) && stack[..old(|stack|)] == old(stack)
      ensures ok ==> Restacked(old(place), place, stack, old(|stack|), depth)
    {
      hide LinksAt, Filed, Ordered, Coded, Pushed, FromBucket, Restacked, AgreeAll, AllSortable, Covers;
      ghost var base, d := |stack|, depth - 1;
      ghost var pos: seq<nat> := [];
      var i := 229;
      RestackedSelf(place, stack, base, depth);
      while i > 0
        invariant i <= 229 && Valid(0) && at(Current) == []
        invariant Ordered(names, out, Tops(), stack) && Coded(names, at, src, d, i)
        invariant Pushed(names, Tops(), stack, base, src, d, pos, i)
        invariant |stack| >= base && stack[..base] == old(stack)
        invariant Restacked(old(place), place, stack, base, depth)
      {
        i := i - 1;
        var c := CollateAt(i);
        NotEmptied(blink[..], bucket[..], stack, at, c);
        if bucket[c] != 0 {
          if |stack| >= maxEntries - 1 {
            CoversRestacked(old(place), place, stack, base, depth, order);
            StackBound(names, out, at, place, stack, order, c);
            return false;
          }
          ghost var e := Entry(if i == 0 then INFINITY else depth, bucket[c]);
          ghost var l := at(Bucket(c));
          CodedPushed(names, at, src, d, i, |stack|);
          PushBucket(names, out, Tops(), stack, base, src, d, pos, i, l, e);
          StackListsPushed(at, c, |stack|);
          RestackedPushed(old(place), place, stack, base, depth, c, e);
          PushList(c, if i == 0 then INFINITY else depth);
          pos := pos + [i];
        } else {
          CodedSkipped(names, at, src, d, i);
          PushedSkip(names, Tops(), stack, base, src, d, pos, i);
        }
      }
      AllEmpty(names, blink[..], bucket[..], stack, at, src, d);
      ok := true;
    }

    // ----- One turn of the main loop -------------------------------------------------------------

    /** The names of the current list go into the buckets of their characters at depth `d`. */
    method Distribute(rest0: nat, d: nat, ghost src: seq<nat>)
      requires Valid(rest0) && rest0 != 0 && at(Current) == src && AllSortable(names, src) && AgreeAll(names, src, d)
      requires forall c: nat :: at(Bucket(c)) == []
      modifies `at, `place, blink, bucket
      ensures Valid(0) && at(Current) == [] && Coded(names, at, src, d, 229)
      ensures forall k: nat :: at(Stacked(k)) == old(at(Stacked(k)))
      ensures Distributed(old(place), place)
    {
      hide LinksAt, Filed, Coded, Distributed, AllSortable, AgreeAll, Part;
      var rest := rest0;
      DistributionStarts(names, at, place, src, d);
      while rest != 0
        invariant Valid(rest) && Coded(names, at, src, d, 229) && Part(at(Current), src)
        invariant forall k: nat :: at(Stacked(k)) == old(at(Stacked(k)))
        invariant at(Written) == old(at(Written)) && Distributed(old(place), place)
        decreases |at(Current)|
      {
        NextName(names, blink[..], bucket[..], stack, rest, at, src, d);
        var c: Byte := if d == |names[rest]| then 0 else Fold(names[rest][d]);
        CodedMoved(names, at, src, d, c);
        DistributedMoved(old(place), place, at, src, c);
        rest := MoveToBucket(rest, c);
      }
      CurrentDone(blink[..], bucket[..], stack, at);
    }

    /** The current list is written. */
    method WriteCurrent(rest: nat)
      requires Valid(rest)
      modifies `out, `at, `place
      ensures Valid(0) && at == Appended(old(at), Current) && place == PlaceRenamed(old(place), Current, Written)
    {
      hide LinksAt, Filed, Chain;
      CurrentChain(blink[..], bucket[..], stack, rest, at);
      WriteNames(rest, at(Current));
      AppendedFiled(at, place, Current);
      LinksAppended(blink[..], bucket[..], stack, rest, at);
      at, place := Appended(at, Current), PlaceRenamed(place, Current, Written);
    }

    /** The names of the list at the top of the stack are written. */
    method WriteList()
      requires Valid(0) && stack != []
      modifies `stack, `out, `at, `place
      ensures Valid(0) && at(Current) == [] && stack == old(stack)[..|old(stack)| - 1]
      ensures at(Written) == old(at(Written)) + old(at(Stacked(|stack| - 1)))
      ensures (forall c: nat :: at(Bucket(c)) == old(at(Bucket(c)))) && Tops() == old(Tops())[..|stack|]
      ensures ListWritten(old(place), place, |stack|)
    {
      hide Valid, StackLists;
      ghost var at0 := at;
      var rest := PopList();
      WriteCurrent(rest);
      StackListsKept(at0, at, |stack|, |stack| + 1);
    }

    method WriteNames(rest: nat, ghost l: seq<nat>)
      requires Chain(blink[..], rest, l)
      modifies `out
      ensures out == old(out) + l
    {
      var cur := rest;
      ghost var m := l;
      while cur != 0
        invariant Chain(blink[..], cur, m) && out + m == old(out) + l
        decreases |m|
      {
        ChainStep(blink[..], cur, m, out);
        out := out + [cur];
        cur := blink[cur];
        m := m[1..];
      }
      CurrentEmpty(blink[..], m);
    }

    /** Between two turns of the main loop: the names of `order` are on the stack or have been written. */
    ghost predicate Between(order: seq<nat>)
      reads `stack, `out, `at, `place, blink, bucket
    {
      && Valid(0) && at(Current) == [] && (forall c: nat :: at(Bucket(c)) == [])
      && Ordered(names, out, Tops(), stack) && Covers(place, order)
    }

    /** The list at the top of the stack, whose names are all the same or which has only one, is written. */
    method TurnWrite(ghost order: seq<nat>)
      requires Between(order) && stack != []
      requires stack[|stack| - 1].depth == INFINITY || |at(Stacked(|stack| - 1))| == 1
      modifies `stack, `out, `at, `place
      ensures Between(order) && Sum(order, Cost(place, stack)) < Sum(order, Cost(old(place), old(stack)))
    {
      hide LinksAt, Filed, Ordered, Covers, Cost, Sum, ListWritten;
      ghost var at0, place0, stack0, tops := at, place, stack, Tops();
      assert tops[|tops| - 1] == at(Stacked(|stack| - 1));
      hide StackLists;
      TopFilled(names, out, tops, stack);
      TopWritten(names, out, tops, stack);
      WriteList();
      WrittenLess(order, at0, place0, place, stack0);
    }

    /** The list at the top of the stack leaves it for the buckets. */
    method DistributeTop(d: nat, ghost src: seq<nat>)
      requires Valid(0) && at(Current) == [] && (forall c: nat :: at(Bucket(c)) == [])
      requires stack != [] && src == at(Stacked(|stack| - 1)) != [] && AllSortable(names, src) && AgreeAll(names, src, d)
      modifies `stack, `at, `place, blink, bucket
      ensures Valid(0) && at(Current) == [] && stack == old(stack)[..|old(stack)| - 1] && at(Written) == old(at(Written))
      ensures Coded(names, at, src, d, 229) && Tops() == old(Tops())[..|stack|]
      ensures Left(old(place), place, |stack|)
    {
      hide LinksAt, Filed, Distributed, Coded, AllSortable, AgreeAll, StackLists;
      ghost var at0, place0 := at, place;
      TopChain(blink[..], bucket[..], stack, at);
      var rest := PopList();
      Distribute(rest, d, src);
      StackListsKept(at0, at, |stack|, |stack| + 1);
    }

    lemma Placing()
      requires Valid(0)
      ensures Filed(at, place) && forall k: nat | k >= |stack| :: at(Stacked(k)) == []
    {
      NoneAbove(blink[..], bucket[..], stack, at);
    }

    /** What is known of the list at the top of the stack, and of the others. */
    lemma TopKnown(order: seq<nat>)
      requires Between(order) && stack != [] && stack[|stack| - 1].depth != INFINITY
      ensures var n, src, d := |stack| - 1, at(Stacked(|stack| - 1)), stack[|stack| - 1].depth;
              && src != [] && d < INFINITY && AllSortable(names, src) && AgreeAll(names, src, d)
              && AllSortable(names, out) && LeqAll(names, out, src)
              && Ordered(names, out, Tops()[..n], stack[..n])
              && Pushed(names, Tops()[..n], stack[..n], n, src, d, [], 229)
    {
      var tops, src := Tops(), at(Stacked(|stack| - 1));
      assert tops[|tops| - 1] == src;
      hide Valid, Ordered, Covers, Pushed, AllSortable, AgreeAll, LeqAll, StackLists;
      TopAgrees(names, out, tops, stack);
      TopBelow(names, out, tops, stack, stack[|stack| - 1].depth, src);
    }

    /** The list at the top of the stack is distributed further. */
    method TurnDistribute(ghost order: seq<nat>) returns (ok: bool)
      requires Between(order) && stack != [] && stack[|stack| - 1].depth != INFINITY
      modifies `stack, `at, `place, blink, bucket
      ensures !ok ==> |order| >= maxEntries
      ensures ok ==> Between(order) && Sum(order, Cost(place, stack)) < Sum(order, Cost(old(place), old(stack)))
    {
      hide Valid, Filed, Ordered, Restacked, Covers, Coded, Pushed, AllSortable, AgreeAll, LeqAll, Cost, Sum, Dealt, StackLists, Left;
      ghost var at0, place0, stack0, n, src := at, place, stack, |stack| - 1, at(Stacked(|stack| - 1));
      var d := stack[|stack| - 1].depth;
      Placing();
      TopKnown(order);
      DistributeTop(d, src);
      ghost var place2 := place;
      CoversLeft(place0, place2, n, order);
      ok := Unbucket(d + 1, src, order);
      if ok {
        Placing();
        DistributedPlaces(at0, place0, place2, at, place, stack, n, d + 1);
        DistributedLess(order, at0, place0, place, stack0, stack);
      }
    }

    /** One turn of the main loop. */
    method Turn(ghost order: seq<nat>) returns (ok: bool)
      requires Between(order) && stack != []
      modifies `stack, `out, `at, `place, blink, bucket
      ensures !ok ==> |order| >= maxEntries
      ensures ok ==> Between(order) && Sum(order, Cost(place, stack)) < Sum(order, Cost(old(place), old(stack)))
    {
      TopFilled(names, out, Tops(), stack);
      TopChain(blink[..], bucket[..], stack, at);
      hide LinksAt, Filed, Ordered, Covers, Cost, Sum;
      var e := stack[|stack| - 1];
      if blink[e.head] == 0 || e.depth == INFINITY {
        TurnWrite(order);
        ok := true;
      } else {
        ok := TurnDistribute(order);
      }
    }

    // ----- The whole sort ------------------------------------------------------------------------

    /** Name `x` is put in front of bucket `c`. */
    method AddToBucket(x: nat, c: nat)
      requires Valid(0) && c < 256 && 0 < x < |names| && place(x) == Nowhere
      modifies `at, `place, blink, bucket
      ensures Valid(0) && at == Added(old(at), x, Bucket(c)) && place == PlaceMoved(old(place), x, Bucket(c))
    {
      hide LinksAt, Filed;
      LinksAdded(blink[..], bucket[..], stack, at, place, x, c);
      AddedFiled(at, place, x, Bucket(c));
      at, place := Added(at, x, Bucket(c)), PlaceMoved(place, x, Bucket(c));
      blink[x] := bucket[c];
      bucket[c] := x;
    }

    /** All buckets are made empty. */
    method ClearBuckets()
      requires blink.Length == |names| && bucket.Length == 256 && blink != bucket && stack == [] && out == []
      modifies `at, `place, bucket
      ensures Valid(0) && at == (_ => []) && place == (_ => Nowhere)
    {
      var c := 0;
      while c < 256
        invariant 0 <= c <= 256 && forall e | 0 <= e < c :: bucket[e] == 0
      {
        bucket[c] := 0;
        c := c + 1;
      }
      at, place := _ => [], _ => Nowhere;
    }

    /** The first `i` names of `order` are in the buckets of their first characters. */
    ghost predicate Filling(order: seq<nat>, i: nat)
      reads `stack, `out, `at, `place, blink, bucket
    {
      && i <= |order| && Valid(0) && at(Current) == [] && at(Written) == [] && Coded(names, at, order, 0, 229)
      && Covers(place, order[..i]) && forall k: nat :: at(Stacked(k)) == []
    }

    method StartFilling(ghost order: seq<nat>)
      requires blink.Length == |names| && bucket.Length == 256 && blink != bucket && stack == [] && out == []
      requires AllSortable(names, order)
      modifies `at, `place, bucket
      ensures Filling(order, 0)
    {
      hide LinksAt, Filed, Coded, Covers;
      ClearBuckets();
      DistributionStarts(names, at, place, order, 0);
      CoversNone(place, order);
    }

    /** The next name. */
    method FillOne(x: nat, ghost order: seq<nat>, ghost i: nat)
      requires Filling(order, i) && i < |order| && order[i] == x && ToSort(order)
      modifies `at, `place, blink, bucket
      ensures Filling(order, i + 1)
    {
      hide LinksAt, Filed, Distinct, Coded, Covers;
      var c := Fold(names[x][0]);
      CoversNext(place, order, i, c);
      CodedAdded(names, at, order, 0, x, c);
      AddToBucket(x, c);
    }

    /** Of the names before place `p`, those with cross references are in the buckets. */
    ghost predicate Passed(all: seq<nat>, p: nat, xref: seq<bool>)
      reads `stack, `out, `at, `place, blink, bucket
    {
      p <= |all| && Kept(all[..p], xref) <= Kept(all, xref) && Filling(Kept(all, xref), |Kept(all[..p], xref)|)
    }

    /** What is known of the names that are to be sorted. */
    ghost predicate ToSort(order: seq<nat>) {
      AllSortable(names, order) && Distinct(order) && forall i | 0 <= i < |order| :: order[i] > 0
    }

    /** One name is passed. */
    method PassOne(x: nat, xref: seq<bool>, ghost all: seq<nat>, ghost p: nat)
      requires p < |all| && all[p] == x && Passed(all, p, xref) && ToSort(Kept(all, xref))
      modifies `at, `place, blink, bucket
      ensures Passed(all, p + 1, xref)
    {
      hide Filling, Distinct, Kept, AllSortable;
      KeptUpTo(all, p, xref);
      KeptUpTo(all, p + 1, xref);
      if x < |xref| && xref[x] { FillOne(x, Kept(all, xref), |Kept(all[..p], xref)|); }
    }

    /** One list of the hash table is passed through; `p` names have come before it. */
    method PassList(head: nat, link: seq<nat>, xref: seq<bool>, ghost l: seq<nat>, ghost all: seq<nat>, ghost p: nat)
      requires Chain(link, head, l) && p + |l| <= |all| && all[p..p + |l|] == l
      requires Passed(all, p, xref) && ToSort(Kept(all, xref))
      modifies `at, `place, blink, bucket
      ensures Passed(all, p + |l|, xref)
    {
      hide Passed, ToSort, Kept;
      var cur: nat := head;
      ghost var k: nat := 0;
      assert l[0..] == l;
      while cur != 0
        invariant k <= |l| && Chain(link, cur, l[k..]) && Passed(all, p + k, xref)
        decreases |l| - k
      {
        assert cur == l[k..][0] == l[k] == all[p..p + |l|][k] == all[p + k] && l[k..][1..] == l[k + 1..];
        PassOne(cur, xref, all, p + k);
        cur := link[cur];
        k := k + 1;
      }
    }

    /** "Do the first pass of sorting": the names with cross references, in the order of the hash lists, go into the
        buckets of their first characters. */
    method FirstBuckets(hash: seq<nat>, link: seq<nat>, xref: seq<bool>, ghost lists: seq<seq<nat>>)
      requires blink.Length == |names| && bucket.Length == 256 && blink != bucket && stack == [] && out == []
      requires |hash| == |lists| && forall h | 0 <= h < |hash| :: Chain(link, hash[h], lists[h])
      requires ToSort(Kept(Flat(lists), xref))
      modifies `at, `place, blink, bucket
      ensures Filling(Kept(Flat(lists), xref), |Kept(Flat(lists), xref)|)
    {
      hide Filling, ToSort, Flat, Chain;
      ghost var all := Flat(lists);
      assert all[..0] == [] && all[..|all|] == all && lists[..|lists|] == lists;
      assert AllSortable(names, Kept(all, xref)) by { Sorting(Kept(all, xref)); }
      StartFilling(Kept(all, xref));
      FlatNone(lists);
      hide Passed;
      var h := 0;
      while h < |hash|
        invariant h <= |hash| && Passed(all, |Flat(lists[..h])|, xref)
      {
        FlatPart(lists, h);
        PassList(hash[h], link, xref, lists[h], all, |Flat(lists[..h])|);
        h := h + 1;
      }
      Ends(all, xref);
    }

    lemma Sorting(order: seq<nat>)
      requires ToSort(order)
      ensures AllSortable(names, order)
    {
    }

    lemma Ends(all: seq<nat>, xref: seq<bool>)
      requires Passed(all, |all|, xref)
      ensures Filling(Kept(all, xref), |Kept(all, xref)|)
    {
      assert all[..|all|] == all;
    }

    /** The index: every name with cross references is written once, in the order of the collating sequence.  A stack
        with more entries than there are such names never overflows. */
    method SortIndex(hash: seq<nat>, link: seq<nat>, xref: seq<bool>, ghost lists: seq<seq<nat>>) returns (ok: bool)
      requires blink.Length == |names| && bucket.Length == 256 && blink != bucket && stack == [] && out == []
      requires |hash| == |lists| && (forall h | 0 <= h < |hash| :: Chain(link, hash[h], lists[h])) && Distinct(Flat(lists))
      requires AllSortable(names, Kept(Flat(lists), xref))
      modifies `stack, `out, `at, `place, blink, bucket
      ensures !ok ==> |Kept(Flat(lists), xref)| >= maxEntries
      ensures ok ==> AllSortable(names, out) && Sorted(names, out) && multiset(out) == multiset(Kept(Flat(lists), xref))
    {
      hide LinksAt, Filed, Coded, Covers, Restacked;
      ghost var order := Kept(Flat(lists), xref);
      KeptDistinct(Flat(lists), xref);
      KeptPositive(hash, link, lists, xref);
      FirstBuckets(hash, link, xref, lists);
      assert order[..|order|] == order;
      ghost var place0 := place;
      FirstAgree(names, order);
      ok := Unbucket(1, order, order);
      if ok { CoversRestacked(place0, place, stack, 0, 1, order); }
      while ok && stack != []
        invariant ok ==> Between(order)
        invariant !ok ==> |order| >= maxEntries
        decreases ok, Sum(order, Cost(place, stack))
      {
        ok := Turn(order);
      }
      if ok { AllWritten(blink[..], bucket[..], at, place, order); }
    }
  }

  lemma NoneAbove(next: seq<nat>, bucket: seq<nat>, stack: seq<Entry>, at: Lists)
    requires LinksAt(next, bucket, stack, 0, at)
    ensures forall k: nat | k >= |stack| :: at(Stacked(k)) == []
  {
  }

  lemma TopFilled(names: seq<seq<Byte>>, out: seq<nat>, ls: seq<seq<nat>>, stack: seq<Entry>)
    requires Ordered(names, out, ls, stack) && ls != []
    ensures ls[|ls| - 1] != []
  {
  }

  lemma ChainStep(next: seq<nat>, head: nat, l: seq<nat>, out: seq<nat>)
    requires Chain(next, head, l) && head != 0
    ensures l != [] && head < |next| && Chain(next, next[head], l[1..]) && out + [head] + l[1..] == out + l
  {
  }

  lemma CurrentChain(next: seq<nat>, bucket: seq<nat>, stack: seq<Entry>, rest: nat, at: Lists)
    requires LinksAt(next, bucket, stack, rest, at)
    ensures Chain(next, rest, at(Current))
  {
  }

  lemma RestackedSelf(place: nat -> Place, stack: seq<Entry>, base: nat, depth: nat)
    ensures Restacked(place, place, stack, base, depth)
  {
  }

  lemma PushedSkip(names: seq<seq<Byte>>, ls: seq<seq<nat>>, stack: seq<Entry>, base: nat, src: seq<nat>, d: nat, pos: seq<nat>, i: nat)
    requires Pushed(names, ls, stack, base, src, d, pos, i + 1)
    ensures Pushed(names, ls, stack, base, src, d, pos, i)
  {
    hide FromBucket;
  }

  lemma AllEmpty(names: seq<seq<Byte>>, next: seq<nat>, bucket: seq<nat>, stack: seq<Entry>, at: Lists, src: seq<nat>, d: nat)
    requires Coded(names, at, src, d, 0) && LinksAt(next, bucket, stack, 0, at)
    ensures forall c: nat :: at(Bucket(c)) == []
  {
    hide FromBucket, Chain;
  }

  /** Names of the current list have gone into buckets. */
  ghost predicate Distributed(before: nat -> Place, place: nat -> Place) {
    forall x: nat :: place(x) == before(x) || (before(x) == Current && place(x).Bucket?)
  }

  lemma DistributionStarts(names: seq<seq<Byte>>, at: Lists, place: nat -> Place, src: seq<nat>, d: nat)
    requires AllSortable(names, src) && forall c: nat :: at(Bucket(c)) == []
    ensures Part(src, src) && Coded(names, at, src, d, 229) && Distributed(place, place)
  {
  }

  lemma CurrentDone(next: seq<nat>, bucket: seq<nat>, stack: seq<Entry>, at: Lists)
    requires LinksAt(next, bucket, stack, 0, at)
    ensures at(Current) == []
  {
    CurrentEmpty(next, at(Current));
  }

  lemma NextName(names: seq<seq<Byte>>, next: seq<nat>, bucket: seq<nat>, stack: seq<Entry>, rest: nat, at: Lists,
                 src: seq<nat>, d: nat)
    requires LinksAt(next, bucket, stack, rest, at) && rest != 0 && Part(at(Current), src)
    requires AllSortable(names, src) && AgreeAll(names, src, d)
    ensures at(Current) != [] && at(Current)[0] == rest < |names| && rest in src && Sortable(names[rest]) && d <= |names[rest]|
  {
    assert rest in src;
    var i :| 0 <= i < |src| && src[i] == rest;
    assert Agree(names[rest], names[rest], d);
  }

  lemma CodedMoved(names: seq<seq<Byte>>, at: Lists, src: seq<nat>, d: nat, c: Byte)
    requires Coded(names, at, src, d, 229) && Part(at(Current), src) && at(Current) != []
    requires at(Current)[0] < |names| && Sortable(names[at(Current)[0]]) && c == Code(names[at(Current)[0]], d)
    ensures Coded(names, Moved(at, Current, Bucket(c)), src, d, 229)
    ensures Part(Moved(at, Current, Bucket(c))(Current), src)
  {
    assert Collated(c);
    CollateInverse(c, 0);
  }

  lemma DistributedMoved(before: nat -> Place, place: nat -> Place, at: Lists, src: seq<nat>, c: nat)
    requires Distributed(before, place) && Filed(at, place) && at(Current) != []
    ensures Distributed(before, PlaceMoved(place, at(Current)[0], Bucket(c)))
  {
    assert place(at(Current)[0]) == Current;
  }

  lemma LinksAppended(next: seq<nat>, bucket: seq<nat>, stack: seq<Entry>, rest: nat, at: Lists)
    requires LinksAt(next, bucket, stack, rest, at)
    ensures LinksAt(next, bucket, stack, 0, Appended(at, Current))
  {
  }

  /** The names that are anywhere are those of `order`. */
  ghost predicate Covers(place: nat -> Place, order: seq<nat>) {
    forall x: nat :: place(x) != Nowhere <==> x in order
  }

  /** What is still to be done for a name. */
  ghost function Cost(place: nat -> Place, stack: seq<Entry>): nat -> nat {
    (x: nat) =>
      if place(x).Stacked? && place(x).k < |stack| then
        if stack[place(x).k].depth >= INFINITY then 1 else 257 - stack[place(x).k].depth
      else 0
  }

  lemma TopChain(next: seq<nat>, bucket: seq<nat>, stack: seq<Entry>, at: Lists)
    requires LinksAt(next, bucket, stack, 0, at) && stack != [] && at(Stacked(|stack| - 1)) != []
    ensures 0 < stack[|stack| - 1].head < |next|
    ensures next[stack[|stack| - 1].head] == 0 <==> |at(Stacked(|stack| - 1))| == 1
  {
    var l := at(Stacked(|stack| - 1));
    assert Chain(next, stack[|stack| - 1].head, l);
    assert Chain(next, next[stack[|stack| - 1].head], l[1..]);
  }

  lemma TopWritten(names: seq<seq<Byte>>, out: seq<nat>, ls: seq<seq<nat>>, stack: seq<Entry>)
    requires Ordered(names, out, ls, stack) && ls != []
    requires stack[|stack| - 1].depth == INFINITY || |ls[|ls| - 1]| == 1
    ensures Ordered(names, out + ls[|ls| - 1], ls[..|ls| - 1], stack[..|stack| - 1])
  {
    GroupSorted(names, ls[|ls| - 1], stack[|stack| - 1].depth);
    WriteOrdered(names, out, ls, stack);
  }

  lemma TopAgrees(names: seq<seq<Byte>>, out: seq<nat>, ls: seq<seq<nat>>, stack: seq<Entry>)
    requires Ordered(names, out, ls, stack) && ls != [] && stack[|stack| - 1].depth != INFINITY
    ensures ls[|ls| - 1] != [] && AllSortable(names, ls[|ls| - 1]) && AgreeAll(names, ls[|ls| - 1], stack[|stack| - 1].depth)
    ensures stack[|stack| - 1].depth < INFINITY
  {
    var l := ls[|ls| - 1];
    assert Agree(names[l[0]], names[l[0]], stack[|stack| - 1].depth);
  }

  lemma TopBelow(names: seq<seq<Byte>>, out: seq<nat>, ls: seq<seq<nat>>, stack: seq<Entry>, d: nat, src: seq<nat>)
    requires Ordered(names, out, ls, stack) && ls != [] && src == ls[|ls| - 1]
    ensures AllSortable(names, src) && AllSortable(names, out) && LeqAll(names, out, src)
    ensures Ordered(names, out, ls[..|ls| - 1], stack[..|stack| - 1])
    ensures Pushed(names, ls[..|ls| - 1], stack[..|stack| - 1], |stack| - 1, src, d, [], 229)
  {
    PopOrdered(names, out, ls, stack);
  }

  /** The names of list `n` have been written. */
  ghost predicate ListWritten(place0: nat -> Place, place: nat -> Place, n: nat) {
    forall x: nat :: place(x) == if place0(x) == Stacked(n) || place0(x) == Current then Written else place0(x)
  }

  /** The lists of a stack depend only on what is on it. */
  lemma StackListsKept(at0: Lists, at: Lists, n: nat, m: nat)
    requires n <= m && forall k: nat | k < n :: at(Stacked(k)) == at0(Stacked(k))
    ensures StackLists(at, n) == StackLists(at0, m)[..n]
  {
  }

  /** Writing a list brings the end nearer. */
  lemma WrittenLess(order: seq<nat>, at0: Lists, place0: nat -> Place, place: nat -> Place, stack: seq<Entry>)
    requires Covers(place0, order) && Filed(at0, place0) && at0(Current) == [] && stack != [] && at0(Stacked(|stack| - 1)) != []
    requires ListWritten(place0, place, |stack| - 1)
    ensures Covers(place, order)
    ensures Sum(order, Cost(place, stack[..|stack| - 1])) < Sum(order, Cost(place0, stack))
  {
    var x, f, g := at0(Stacked(|stack| - 1))[0], Cost(place0, stack), Cost(place, stack[..|stack| - 1]);
    assert place0(x) == Stacked(|stack| - 1) && x in order;
    var i :| 0 <= i < |order| && order[i] == x;
    assert g(order[i]) < f(order[i]);
    SumLeq(order, f, g);
  }

  /** Where the names of the distributed list `n` are afterwards; the others have stayed. */
  ghost predicate Dealt(place0: nat -> Place, place: nat -> Place, stack: seq<Entry>, n: nat, depth: nat) {
    forall y: nat ::
      if place0(y) == Stacked(n) then
        place(y).Stacked? && n <= place(y).k < |stack|
        && (stack[place(y).k].depth == INFINITY || stack[place(y).k].depth == depth)
      else place(y) == place0(y)
  }

  /** The names of list `n` have gone into buckets. */
  ghost predicate Left(place0: nat -> Place, place: nat -> Place, n: nat) {
    Distributed(PlaceRenamed(place0, Stacked(n), Current), place)
  }

  lemma DistributedPlaces(at0: Lists, place0: nat -> Place, place2: nat -> Place,
                          at: Lists, place: nat -> Place, stack: seq<Entry>, n: nat, depth: nat)
    requires Filed(at0, place0) && at0(Current) == [] && (forall c: nat :: at0(Bucket(c)) == [])
    requires Left(place0, place2, n) && Restacked(place2, place, stack, n, depth)
    requires Filed(at, place) && at(Current) == [] && forall c: nat :: at(Bucket(c)) == []
    ensures Dealt(place0, place, stack, n, depth)
  {
    forall y: nat ensures !place0(y).Bucket? && place0(y) != Current && !place(y).Bucket? && place(y) != Current {
      NoBucket(at0, place0, y);
      NoBucket(at, place, y);
    }
    hide Filed;
  }

  lemma DealtCost(at0: Lists, place0: nat -> Place, place: nat -> Place, stack0: seq<Entry>, stack: seq<Entry>, y: nat)
    requires stack0 != [] && stack0[|stack0| - 1].depth < INFINITY && Filed(at0, place0)
    requires forall k: nat | k >= |stack0| :: at0(Stacked(k)) == []
    requires |stack| >= |stack0| - 1 && stack[..|stack0| - 1] == stack0[..|stack0| - 1]
    requires Dealt(place0, place, stack, |stack0| - 1, stack0[|stack0| - 1].depth + 1)
    ensures Cost(place, stack)(y) <= Cost(place0, stack0)(y)
    ensures place0(y) == Stacked(|stack0| - 1) ==> Cost(place, stack)(y) < Cost(place0, stack0)(y)
  {
    var n := |stack0| - 1;
    if place0(y).Stacked? && place0(y).k != n {
      assert y in at0(place0(y));
      assert place0(y).k < n;
      assert stack[..n][place0(y).k] == stack0[..n][place0(y).k];
    }
  }

  /** And so does distributing a list. */
  lemma DistributedLess(order: seq<nat>, at0: Lists, place0: nat -> Place, place: nat -> Place, stack0: seq<Entry>, stack: seq<Entry>)
    requires Covers(place0, order) && Filed(at0, place0)
    requires stack0 != [] && at0(Stacked(|stack0| - 1)) != [] && stack0[|stack0| - 1].depth < INFINITY
    requires forall k: nat | k >= |stack0| :: at0(Stacked(k)) == []
    requires |stack| >= |stack0| - 1 && stack[..|stack0| - 1] == stack0[..|stack0| - 1]
    requires Dealt(place0, place, stack, |stack0| - 1, stack0[|stack0| - 1].depth + 1)
    ensures Covers(place, order)
    ensures Sum(order, Cost(place, stack)) < Sum(order, Cost(place0, stack0))
  {
    var x, f, g := at0(Stacked(|stack0| - 1))[0], Cost(place0, stack0), Cost(place, stack);
    assert place0(x) == Stacked(|stack0| - 1) && x in order;
    forall y: nat ensures g(y) <= f(y) && (y == x ==> g(y) < f(y)) {
      DealtCost(at0, place0, place, stack0, stack, y);
    }
    hide Cost, Filed;
    var i :| 0 <= i < |order| && order[i] == x;
    assert g(order[i]) < f(order[i]);
    SumLeq(order, f, g);
  }

  lemma NoBucket(at: Lists, place: nat -> Place, x: nat)
    requires Filed(at, place) && at(Current) == [] && forall c: nat :: at(Bucket(c)) == []
    ensures !place(x).Bucket? && place(x) != Current
  {
    assert place(x) != Nowhere ==> x in at(place(x));
  }

  // ----- Beginning and end -----------------------------------------------------------------------

  lemma LinksAdded(next: seq<nat>, bucket: seq<nat>, stack: seq<Entry>, at: Lists, place: nat -> Place, x: nat, c: nat)
    requires LinksAt(next, bucket, stack, 0, at) && Filed(at, place) && c < 256 && 0 < x < |next| && place(x) == Nowhere
    ensures LinksAt(next[x := bucket[c]], bucket[c := x], stack, 0, Added(at, x, Bucket(c)))
  {
    var next' := next[x := bucket[c]];
    forall p: Place ensures forall i | 0 <= i < |at(p)| :: at(p)[i] != x {
    }
    ChainCons(next, bucket[c], at(Bucket(c)), x);
    ChainOther(next, x, bucket[c], 0, at(Current));
    forall e: nat | e < 256 && e != c ensures Chain(next', bucket[e], at(Bucket(e))) {
      ChainOther(next, x, bucket[c], bucket[e], at(Bucket(e)));
    }
    forall k: nat | k < |stack| ensures Chain(next', stack[k].head, at(Stacked(k))) {
      ChainOther(next, x, bucket[c], stack[k].head, at(Stacked(k)));
    }
    hide Filed, Chain;
  }

  lemma CoversNone(place: nat -> Place, order: seq<nat>)
    requires place == (_ => Nowhere)
    ensures Covers(place, order[..0])
  {
  }

  lemma CoversNext(place: nat -> Place, order: seq<nat>, i: nat, c: nat)
    requires i < |order| && Distinct(order) && Covers(place, order[..i])
    ensures place(order[i]) == Nowhere && Covers(PlaceMoved(place, order[i], Bucket(c)), order[..i + 1])
  {
    assert order[i] !in order[..i];
    assert order[..i + 1] == order[..i] + [order[i]];
  }

  lemma CodedAdded(names: seq<seq<Byte>>, at: Lists, src: seq<nat>, d: nat, x: nat, c: Byte)
    requires Coded(names, at, src, d, 229) && x in src && x < |names| && Sortable(names[x]) && c == Code(names[x], d)
    ensures Coded(names, Added(at, x, Bucket(c)), src, d, 229)
  {
    assert Collated(c);
    CollateInverse(c, 0);
  }

  lemma FirstAgree(names: seq<seq<Byte>>, order: seq<nat>)
    requires AllSortable(names, order)
    ensures AgreeAll(names, order, 0)
  {
    forall x | x in order ensures x < |names| { var i :| 0 <= i < |order| && order[i] == x; }
  }

  lemma CoversRestacked(before: nat -> Place, place: nat -> Place, stack: seq<Entry>, base: nat, depth: nat, order: seq<nat>)
    requires Covers(before, order) && Restacked(before, place, stack, base, depth)
    ensures Covers(place, order)
  {
  }

  lemma CoversLeft(place0: nat -> Place, place: nat -> Place, n: nat, order: seq<nat>)
    requires Covers(place0, order) && Left(place0, place, n)
    ensures Covers(place, order)
  {
  }

  /** The lists on the stack are not empty and have no names in common; so when one more is to come, there are
      at least as many names. */
  lemma StackBound(names: seq<seq<Byte>>, out: seq<nat>, at: Lists, place: nat -> Place, stack: seq<Entry>, order: seq<nat>, c: nat)
    requires Filed(at, place) && Covers(place, order) && at(Bucket(c)) != []
    requires Ordered(names, out, StackLists(at, |stack|), stack)
    ensures |stack| + 1 <= |order|
  {
    assert forall k: nat | k < |stack| :: at(Stacked(k)) != [] by {
      forall k: nat | k < |stack| ensures at(Stacked(k)) != [] {
        assert StackLists(at, |stack|)[k] != [];
      }
    }
    hide Ordered, StackLists;
    var l := seq(|stack| + 1, k requires 0 <= k <= |stack| => if k < |stack| then at(Stacked(k))[0] else at(Bucket(c))[0]);
    forall k | 0 <= k <= |stack| ensures place(l[k]) == if k < |stack| then Stacked(k) else Bucket(c) {
    }
    hide Filed;
    FewerNames(l, order);
  }

  lemma {:induction false} FewerNames(l: seq<nat>, order: seq<nat>)
    requires Distinct(l) && forall k | 0 <= k < |l| :: l[k] in order
    ensures |l| <= |order|
  {
    if l != [] {
      var i :| 0 <= i < |order| && order[i] == l[0];
      var fewer := order[..i] + order[i + 1..];
      forall k | 0 <= k < |l[1..]| ensures l[1..][k] in fewer {
        var j :| 0 <= j < |order| && order[j] == l[k + 1];
        assert fewer[if j < i then j else j - 1] == l[k + 1];
      }
      FewerNames(l[1..], fewer);
    }
  }

  /** When the stack is empty, all names have been written. */
  lemma AllWritten(next: seq<nat>, bucket: seq<nat>, at: Lists, place: nat -> Place, order: seq<nat>)
    requires LinksAt(next, bucket, [], 0, at) && Filed(at, place) && Covers(place, order) && Distinct(order)
    requires at(Current) == [] && forall c: nat :: at(Bucket(c)) == []
    ensures multiset(at(Written)) == multiset(order)
  {
    forall x: nat ensures x in at(Written) <==> x in order {
      assert place(x) != Nowhere ==> x in at(place(x));
      assert x in at(Written) ==> place(x) == Written;
    }
    DistinctSame(at(Written), order);
  }

  lemma {:induction false} DistinctCount(l: seq<nat>, x: nat)
    requires Distinct(l)
    ensures multiset(l)[x] == if x in l then 1 else 0
  {
    if l != [] {
      assert l == [l[0]] + l[1..];
      DistinctTail(l);
      DistinctCount(l[1..], x);
    }
  }

  lemma DistinctSame(l: seq<nat>, m: seq<nat>)
    requires Distinct(l) && Distinct(m) && forall x: nat :: x in l <==> x in m
    ensures multiset(l) == multiset(m)
  {
    forall x: nat ensures multiset(l)[x] == multiset(m)[x] {
      DistinctCount(l, x);
      DistinctCount(m, x);
    }
  }

  /** The sort as a whole, from the hash table to the list of names: it contains every name with cross references
      once, and no other. */
  method SortNames(names: seq<seq<Byte>>, maxEntries: nat, hash: seq<nat>, link: seq<nat>, xref: seq<bool>,
                   ghost lists: seq<seq<nat>>)
    returns (ok: bool, out: seq<nat>)
    requires |hash| == |lists| && (forall h | 0 <= h < |hash| :: Chain(link, hash[h], lists[h])) && Distinct(Flat(lists))
    requires forall x | x in Flat(lists) && IndexNames.Referred(x, xref) :: x < |names| && Sortable(names[x])
    ensures !ok ==> |Kept(Flat(lists), xref)| >= maxEntries
    ensures ok ==> AllSortable(names, out) && Sorted(names, out) && Distinct(out)
    ensures ok ==> forall x: nat :: x in out <==> x in Flat(lists) && IndexNames.Referred(x, xref)
  {
    ghost var order := Kept(Flat(lists), xref);
    KeptMembers(Flat(lists), xref);
    KeptDistinct(Flat(lists), xref);
    assert forall i | 0 <= i < |order| :: order[i] in order;
    var sorter := new Sorter(names, maxEntries);
    ok := sorter.SortIndex(hash, link, xref, lists);
    out := sorter.out;
    if ok { SameOnce(out, order); }
  }

  lemma SameOnce(l: seq<nat>, m: seq<nat>)
    requires multiset(l) == multiset(m) && Distinct(m)
    ensures Distinct(l) && forall x: nat :: x in l <==> x in m
  {
    forall x: nat ensures x in l <==> x in m { assert multiset(l)[x] == multiset(m)[x]; }
    forall i, j | 0 <= i < j < |l| ensures l[i] != l[j] {
      DistinctCount(m, l[i]);
      assert multiset(l)[l[i]] <= 1;
      if l[i] == l[j] { Twice(l, i, j); }
    }
  }

  lemma Twice(l: seq<nat>, i: nat, j: nat)
    requires i < j < |l| && l[i] == l[j]
    ensures multiset(l)[l[i]] >= 2
  {
    assert l == l[..i] + [l[i]] + l[i + 1..j] + [l[j]] + l[j + 1..];
  }
}
