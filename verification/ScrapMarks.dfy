/** Which angle brackets absorb source text before CWEAVE's parser forgets them: the rewriting machine, seen only
    as a list of marks that tell brackets, insertions and preprocessor lines from other scraps, and scraps
    with content from those without. */
module ScrapMarks {
  import opened ScrapKinds

  datatype Mark = Mark(kind: Kind, loaded: bool)

  predicate Insertions(ms: seq<Mark>, lo: nat, hi: nat) {
    forall i | lo <= i < hi && i < |ms| :: ms[i].kind.Insertion?
  }

  /** What is in scrap `i` will be absorbed by the bracket in scrap `j`: it is that bracket, an insertion behind
      it with only insertions in between, or an insertion in front of it with only insertions in front. */
  predicate Reaches(ms: seq<Mark>, j: nat, i: nat) {
    i == j || (j < i && Insertions(ms, j + 1, i + 1)) || (i < j && Insertions(ms, 0, j))
  }

  ghost predicate ExposedAt(ms: seq<Mark>, j: nat, i: nat) {
    j < |ms| && i < |ms| && ms[j].kind.BracketMark? && ms[i].loaded && Reaches(ms, j, i)
  }

  /** Some content will be absorbed by a bracket. */
  ghost predicate Exposed(ms: seq<Mark>) {
    exists j: nat, i: nat :: ExposedAt(ms, j, i)
  }

  ghost predicate LinedAt(ms: seq<Mark>, l: nat, r: nat, j: nat) {
    && l < r < j < |ms| && Insertions(ms, 0, l) && ms[l].kind.LineStart? && ms[r].kind.LineEnd?
    && Insertions(ms, r + 1, j) && ms[j].kind.BracketMark?
  }

  /** The list begins, after insertions, with a preprocessor line, and a line ends right in front of a
      bracket: what becomes of the line may be absorbed by the bracket. */
  ghost predicate Lined(ms: seq<Mark>) {
    exists l: nat, r: nat, j: nat :: LinedAt(ms, l, r, j)
  }

  // ----- One step --------------------------------------------------------------------------------

  predicate AnyLoaded(ms: seq<Mark>, lo: nat, hi: nat) {
    exists i :: lo <= i < hi && i < |ms| && ms[i].loaded
  }

  function After(ms: seq<Mark>, pp: nat, ch: Change): (r: seq<Mark>)
    requires 1 <= ch.k && pp + ch.at + ch.k <= |ms|
    ensures |r| == |ms| - ch.k + 1
    ensures forall i | 0 <= i < pp + ch.at :: r[i] == ms[i]
    ensures r[pp + ch.at] == Mark(ch.kind, !ch.forgets && AnyLoaded(ms, pp + ch.at, pp + ch.at + ch.k))
    ensures forall i | pp + ch.at < i < |r| :: r[i] == ms[i + ch.k - 1]
  {
    var j := pp + ch.at;
    ms[..j] + [Mark(ch.kind, !ch.forgets && AnyLoaded(ms, j, j + ch.k))] + ms[j + ch.k..]
  }

  function MovedBy(pp: nat, d: int): nat {
    if pp + d >= 0 then pp + d else 0
  }

  /** What the table of productions guarantees of the scrap at `pp` and of the one behind those that are consumed. */
  ghost predicate Stands(ms: seq<Mark>, pp: nat, ch: Change)
    requires pp < |ms|
  {
    && (ch.forgets ==>
          && ch.at == 0 && ch.k == 1 && ms[pp].kind.BracketMark?
          && (pp + 1 < |ms| ==> !ms[pp + 1].kind.Insertion?))
    && (ch.d > 0 ==>
          && ch.at <= 1 && !ms[pp].kind.BracketMark? && !ms[pp].kind.Insertion?
          && !ch.kind.BracketMark? && !ch.kind.Insertion?
          && (ch.at == 0 && pp + ch.k < |ms| ==> !ms[pp + ch.k].kind.Insertion?))
  }

  ghost predicate Regular(ms: seq<Mark>, pp: nat, ch: Change) {
    && 1 <= ch.k && pp + ch.at + ch.k <= |ms| && ch.d <= 1
    && Arises(ch, ms[pp + ch.at].kind, ms[pp + ch.at + ch.k - 1].kind) && Stands(ms, pp, ch)
  }

  /** No bracket is left behind, and `pp` is always in front of the next insertion, unless that is the first scrap
      of all. */
  ghost predicate Placed(ms: seq<Mark>, pp: nat) {
    && (forall i | 0 <= i < pp && i < |ms| :: !ms[i].kind.BracketMark?)
    && (forall i | 0 < i <= pp && i < |ms| :: !ms[i].kind.Insertion?)
    && (|ms| >= 2 && ms[0].kind.Insertion? ==> pp == 0)
  }

  lemma PlacedKept(ms: seq<Mark>, pp: nat, ch: Change)
    requires Placed(ms, pp) && Regular(ms, pp, ch)
    ensures Placed(After(ms, pp, ch), MovedBy(pp, ch.d))
  {
    var r, j, pp' := After(ms, pp, ch), pp + ch.at, MovedBy(pp, ch.d);
    forall i | 0 <= i < pp' && i < |r| ensures !r[i].kind.BracketMark? {
    }
    forall i | 0 < i <= pp' && i < |r| ensures !r[i].kind.Insertion? {
    }
  }

  // ----- Nothing comes to be exposed -------------------------------------------------------------

  /** The place in the old list of what is at place `x` of the new one; `j` is the place of the new scrap. */
  function WasAt(ch: Change, j: nat, x: nat): nat
    requires ch.k >= 1
  {
    if x <= j then x else x + ch.k - 1
  }

  /** Insertions of the new list were insertions before, unless one is a preprocessor line. */
  lemma InsertionsBefore(ms: seq<Mark>, pp: nat, ch: Change, lo: nat, hi: nat)
    requires Regular(ms, pp, ch) && Insertions(After(ms, pp, ch), lo, hi) && lo <= hi <= |After(ms, pp, ch)|
    requires var j := pp + ch.at; lo <= j < hi ==> !ms[j].kind.LineStart?
    ensures Insertions(ms, WasAt(ch, pp + ch.at, lo), WasAt(ch, pp + ch.at, hi))
  {
    var r, j := After(ms, pp, ch), pp + ch.at;
    forall x | WasAt(ch, j, lo) <= x < WasAt(ch, j, hi) && x < |ms| ensures ms[x].kind.Insertion? {
      if x < j {
        assert r[x] == ms[x];
      } else if x < j + ch.k {
        assert r[j].kind.Insertion?;
      } else {
        assert r[x - ch.k + 1] == ms[x];
      }
    }
  }

  /** A preprocessor line that becomes an insertion is at `pp`, behind all brackets to its left. */
  lemma LineBecomes(ms: seq<Mark>, pp: nat, ch: Change)
    requires Placed(ms, pp) && Regular(ms, pp, ch) && ch.kind.Insertion? && ms[pp + ch.at].kind.LineStart?
    ensures ch.at == 0 && ch.k >= 2 && ms[pp + ch.k - 1].kind.LineEnd?
    ensures forall x | 0 <= x < pp :: !ms[x].kind.BracketMark?
  {
  }

  /** A bracket that becomes exposed behind a new insertion that was a preprocessor line. */
  lemma LinedBy(ms: seq<Mark>, pp: nat, ch: Change, j': nat)
    requires Placed(ms, pp) && Regular(ms, pp, ch) && ch.kind.Insertion? && ms[pp].kind.LineStart?
    requires pp + ch.at < j' < |After(ms, pp, ch)| && After(ms, pp, ch)[j'].kind.BracketMark?
    requires Insertions(After(ms, pp, ch), 0, j')
    ensures Lined(ms)
  {
    var r := After(ms, pp, ch);
    LineBecomes(ms, pp, ch);
    var e := pp + ch.k - 1;
    forall x | e + 1 <= x < j' + ch.k - 1 ensures ms[x].kind.Insertion? { assert r[x - ch.k + 1] == ms[x]; }
    assert LinedAt(ms, pp, e, j' + ch.k - 1);
  }

  /** What a new scrap has content from. */
  lemma LoadedFrom(ms: seq<Mark>, pp: nat, ch: Change) returns (x: nat)
    requires Regular(ms, pp, ch) && After(ms, pp, ch)[pp + ch.at].loaded
    ensures !ch.forgets && pp + ch.at <= x < pp + ch.at + ch.k && ms[x].loaded
  {
    x :| pp + ch.at <= x < pp + ch.at + ch.k && x < |ms| && ms[x].loaded;
  }

  /** Two scraps other than the new one. */
  lemma ExposedOthers(ms: seq<Mark>, pp: nat, ch: Change, j': nat, i': nat)
    requires Placed(ms, pp) && Regular(ms, pp, ch) && ExposedAt(After(ms, pp, ch), j', i')
    requires j' != pp + ch.at && i' != pp + ch.at
    ensures Exposed(ms) || Lined(ms)
  {
    var r, j := After(ms, pp, ch), pp + ch.at;
    var oj, oi := WasAt(ch, j, j'), WasAt(ch, j, i');
    if r[j].kind.Insertion? && ms[j].kind.LineStart? && (j' < j < i' || (i' < j' && j < j')) {
      LineBecomes(ms, pp, ch);
      if j' < j { assert false; }
      LinedBy(ms, pp, ch, j');
    } else if j' < i' {
      InsertionsBefore(ms, pp, ch, j' + 1, i' + 1);
      assert ExposedAt(ms, oj, oi);
    } else if i' < j' {
      InsertionsBefore(ms, pp, ch, 0, j');
      assert ExposedAt(ms, oj, oi);
    } else {
      assert ExposedAt(ms, oj, oi);
    }
  }

  /** The new scrap is a bracket. */
  lemma ExposedBracket(ms: seq<Mark>, pp: nat, ch: Change, i': nat)
    requires Placed(ms, pp) && Regular(ms, pp, ch) && ExposedAt(After(ms, pp, ch), pp + ch.at, i')
    ensures Exposed(ms)
  {
    var r, j := After(ms, pp, ch), pp + ch.at;
    var b := if ms[j].kind.BracketMark? then j else j + 1;
    if i' == j {
      var x := LoadedFrom(ms, pp, ch);
      assert ExposedAt(ms, b, x);
    } else if i' < j {
      InsertionsBefore(ms, pp, ch, 0, j);
      assert ExposedAt(ms, b, i');
    } else {
      InsertionsBefore(ms, pp, ch, j + 1, i' + 1);
      assert ExposedAt(ms, b, i' + ch.k - 1);
    }
  }

  /** The new scrap is what is exposed. */
  lemma ExposedNew(ms: seq<Mark>, pp: nat, ch: Change, j': nat)
    requires Placed(ms, pp) && Regular(ms, pp, ch) && ExposedAt(After(ms, pp, ch), j', pp + ch.at) && j' != pp + ch.at
    ensures Exposed(ms) || Lined(ms)
  {
    var r, j := After(ms, pp, ch), pp + ch.at;
    var x := LoadedFrom(ms, pp, ch);
    assert r[j].kind.Insertion?;
    if j' < j {
      assert false;
    } else if ms[j].kind.LineStart? {
      LinedBy(ms, pp, ch, j');
    } else {
      InsertionsBefore(ms, pp, ch, 0, j');
      assert ExposedAt(ms, WasAt(ch, j, j'), x);
    }
  }

  lemma ExposedBefore(ms: seq<Mark>, pp: nat, ch: Change)
    requires Placed(ms, pp) && Regular(ms, pp, ch) && Exposed(After(ms, pp, ch))
    ensures Exposed(ms) || Lined(ms)
  {
    var j': nat, i': nat :| ExposedAt(After(ms, pp, ch), j', i');
    if j' == pp + ch.at {
      ExposedBracket(ms, pp, ch, i');
    } else if i' == pp + ch.at {
      ExposedNew(ms, pp, ch, j');
    } else {
      ExposedOthers(ms, pp, ch, j', i');
    }
  }

  lemma ForgetsExposed(ms: seq<Mark>, pp: nat, ch: Change)
    requires Regular(ms, pp, ch) && ch.forgets && ms[pp].loaded
    ensures Exposed(ms)
  {
    assert ExposedAt(ms, pp, pp);
  }

  // ----- No new preprocessor line comes in front of a bracket ------------------------------------

  /** Where the first preprocessor line began before. */
  lemma StartBefore(ms: seq<Mark>, pp: nat, ch: Change, l': nat) returns (l: nat)
    requires Placed(ms, pp) && Regular(ms, pp, ch) && l' < |After(ms, pp, ch)|
    requires Insertions(After(ms, pp, ch), 0, l') && After(ms, pp, ch)[l'].kind.LineStart?
    ensures l < |ms| && Insertions(ms, 0, l) && ms[l].kind.LineStart?
    ensures l <= WasAt(ch, pp + ch.at, l') + (if l' == pp + ch.at then ch.k - 1 else 0)
  {
    var r, j := After(ms, pp, ch), pp + ch.at;
    if l' > j && ms[j].kind.LineStart? {
      InsertionsBefore(ms, pp, ch, 0, j);
      l := j;
    } else {
      InsertionsBefore(ms, pp, ch, 0, l');
      l := if l' == j && !ms[j].kind.LineStart? then j + 1 else WasAt(ch, j, l');
    }
  }

  /** Where the line in front of the bracket ended before, and where the bracket was. */
  lemma EndBefore(ms: seq<Mark>, pp: nat, ch: Change, r': nat, j': nat) returns (r: nat, j: nat)
    requires Placed(ms, pp) && Regular(ms, pp, ch) && 0 < r' < j' < |After(ms, pp, ch)|
    requires Insertions(After(ms, pp, ch), r' + 1, j')
    requires After(ms, pp, ch)[r'].kind.LineEnd? && After(ms, pp, ch)[j'].kind.BracketMark?
    ensures r < j < |ms| && Insertions(ms, r + 1, j) && ms[r].kind.LineEnd? && ms[j].kind.BracketMark?
    ensures r >= WasAt(ch, pp + ch.at, r')
  {
    var new', n := After(ms, pp, ch), pp + ch.at;
    j := WasAt(ch, n, j');
    if r' < n < j' && ms[n].kind.LineStart? {
      r := n + ch.k - 1;
      InsertionsBefore(ms, pp, ch, n + 1, j');
    } else {
      InsertionsBefore(ms, pp, ch, r' + 1, j');
      r := if r' == n && ms[n + ch.k - 1].kind.LineEnd? then n + ch.k - 1 else WasAt(ch, n, r');
    }
  }

  lemma LinedBefore(ms: seq<Mark>, pp: nat, ch: Change)
    requires Placed(ms, pp) && Regular(ms, pp, ch) && Lined(After(ms, pp, ch))
    ensures Lined(ms)
  {
    var l': nat, r': nat, j': nat :| LinedAt(After(ms, pp, ch), l', r', j');
    var l := StartBefore(ms, pp, ch, l');
    var r, j := EndBefore(ms, pp, ch, r', j');
    assert LinedAt(ms, l, r, j);
  }

  // ----- What is exposed stays exposed, or is forgotten ------------------------------------------

  /** No bracket is consumed except when it is forgotten or absorbs an insertion. */
  ghost predicate KeepsBrackets(ms: seq<Mark>, pp: nat, ch: Change)
    requires pp + ch.at + ch.k <= |ms|
  {
    ch.forgets || ch.kind.BracketMark? || forall i | pp + ch.at <= i < pp + ch.at + ch.k :: !ms[i].kind.BracketMark?
  }

  /** The place in the new list of what was at place `x`. */
  function NowAt(ch: Change, j: nat, x: nat): nat
    requires ch.k >= 1
  {
    if x <= j then x else if x < j + ch.k then j else x - ch.k + 1
  }

  lemma ExposedOn(ms: seq<Mark>, pp: nat, ch: Change, j: nat, i: nat)
    requires Placed(ms, pp) && Regular(ms, pp, ch) && KeepsBrackets(ms, pp, ch) && ExposedAt(ms, j, i)
    requires ch.forgets ==> !ms[pp].loaded
    ensures Exposed(After(ms, pp, ch))
  {
    var r, n := After(ms, pp, ch), pp + ch.at;
    var j', i' := NowAt(ch, n, j), NowAt(ch, n, i);
    if n <= j < n + ch.k {
      assert !ch.forgets && r[n].kind.BracketMark?;
      assert ExposedAt(r, j', i');
    } else {
      assert r[i'].loaded;
      assert ExposedAt(r, j', i');
    }
  }
}
