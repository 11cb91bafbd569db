/** The collating sequence of the index, and the order of names that it induces. */
module Collation {
  import opened Wrappers

  /** Upper case letters are indexed like lower case letters. */
  function Fold(b: Byte): Byte {
    if 65 <= b <= 90 then b + 32 else b
  }

  /** `collate[i]` */
  function CollateAt(i: nat): Byte
    requires i <= 228
  {
    if i == 0 then 0
    else if i == 1 then 32
    else if i <= 32 then i - 1
    else if i <= 47 then i
    else if i <= 54 then i + 10
    else if i <= 58 then i + 36
    else if i == 59 then 96
    else if i <= 63 then i + 63
    else if i == 64 then 95
    else if i <= 90 then i + 32
    else if i <= 100 then i - 43
    else i + 27
  }

  /** The characters of names after folding that have a place in the collating sequence. */
  predicate Collated(c: Byte) {
    c != 127 && !(65 <= c <= 90)
  }

  /** The place of a character. */
  function Pos(c: Byte): (i: nat)
    requires Collated(c)
    ensures i <= 228
  {
    if c == 0 then 0
    else if c == 32 then 1
    else if c < 32 then c + 1
    else if c <= 47 then c
    else if c <= 57 then c + 43
    else if c <= 64 then c - 10
    else if c == 95 then 64
    else if c == 96 then 59
    else if c <= 94 then c - 36
    else if c <= 122 then c - 32
    else if c <= 126 then c - 63
    else c - 27
  }

  /** Every character has exactly one place in the sequence. */
  lemma CollateInverse(c: Byte, i: nat)
    requires i <= 228
    ensures Collated(CollateAt(i)) && Pos(CollateAt(i)) == i
    ensures Collated(c) ==> CollateAt(Pos(c)) == c
  {
  }

  /** A name that can be sorted: not empty, shorter than `infinity`, and of collated characters. */
  predicate Sortable(name: seq<Byte>) {
    0 < |name| < 255 && forall i | 0 <= i < |name| :: name[i] != 0 && Collated(Fold(name[i]))
  }

  /** The bucket of a name at depth `d`. */
  function Code(name: seq<Byte>, d: nat): Byte {
    if d < |name| then Fold(name[d]) else 0
  }

  /** The names agree up to depth `d` after folding. */
  predicate Agree(a: seq<Byte>, b: seq<Byte>, d: nat) {
    d <= |a| && d <= |b| && forall i | 0 <= i < d :: Code(a, i) == Code(b, i)
  }

  predicate LessAt(a: seq<Byte>, b: seq<Byte>, d: nat)
    requires Sortable(a) && Sortable(b)
  {
    Agree(a, b, d) && Pos(Code(a, d)) < Pos(Code(b, d))
  }

  /** The places of the folded characters of a name. */
  function Key(name: seq<Byte>): (k: seq<nat>)
    requires Sortable(name)
    ensures |k| == |name|
  {
    seq(|name|, i requires 0 <= i < |name| => Pos(Fold(name[i])))
  }

  /** The lexicographic order, shorter sequences first. */
  predicate LexLeq(a: seq<nat>, b: seq<nat>) {
    a == [] || (b != [] && (a[0] < b[0] || (a[0] == b[0] && LexLeq(a[1..], b[1..]))))
  }

  lemma {:induction false} LexFirst(a: seq<nat>, b: seq<nat>, d: nat)
    requires d <= |a| && d <= |b| && a[..d] == b[..d]
    requires d == |a| || (d < |b| && a[d] < b[d])
    ensures LexLeq(a, b)
    decreases d
  {
    if d > 0 {
      assert a[0] == a[..d][0] == b[..d][0] == b[0];
      assert a[1..][..d - 1] == a[..d][1..] == b[..d][1..] == b[1..][..d - 1];
      LexFirst(a[1..], b[1..], d - 1);
    }
  }

  /** Names that differ first at depth `d` are ordered lexicographically. */
  lemma LessLex(a: seq<Byte>, b: seq<Byte>, d: nat)
    requires Sortable(a) && Sortable(b) && LessAt(a, b, d)
    ensures LexLeq(Key(a), Key(b))
  {
    var k, l := Key(a), Key(b);
    forall i | 0 <= i < d ensures k[i] == l[i] { assert Code(a, i) == Code(b, i); }
    assert k[..d] == l[..d];
    LexFirst(k, l, d);
  }

  /** Names that are the same after folding. */
  predicate Same(a: seq<Byte>, b: seq<Byte>) {
    |a| == |b| && Agree(a, b, |a|)
  }

  lemma SameKey(a: seq<Byte>, b: seq<Byte>)
    requires Sortable(a) && Sortable(b) && Same(a, b)
    ensures Key(a) == Key(b) && LexLeq(Key(a), Key(b))
  {
    forall i | 0 <= i < |a| ensures Key(a)[i] == Key(b)[i] { assert Code(a, i) == Code(b, i); }
    LexFirst(Key(a), Key(b), |a|);
  }
}
