/** Section names in pieces: a name of which only the beginning is known ends with an additional space,
    and the rest is kept elsewhere when it becomes known. */
module NamePieces {
  import opened Wrappers
  import opened NameOrder

  const SPACE: Byte := 32

  predicate Marked(b: seq<Byte>) {
    b != [] && b[|b| - 1] == SPACE
  }

  /** A piece without the space that says it is incomplete. */
  function Unmarked(b: seq<Byte>): seq<Byte> {
    if Marked(b) then b[..|b| - 1] else b
  }

  /** Every piece but the last is incomplete, and no piece but the first adds nothing and is incomplete. */
  predicate WellPieced(ps: seq<seq<Byte>>) {
    && ps != []
    && (forall i | 0 <= i < |ps| - 1 :: Marked(ps[i]))
    && (forall i | 0 < i < |ps| && Marked(ps[i]) :: |ps[i]| >= 2)
  }

  function Text(ps: seq<seq<Byte>>): seq<Byte> {
    if ps == [] then [] else Unmarked(ps[0]) + Text(ps[1..])
  }

  predicate Complete(ps: seq<seq<Byte>>)
    requires ps != []
  {
    !Marked(ps[|ps| - 1])
  }

  lemma {:induction false} TextAppend(ps: seq<seq<Byte>>, b: seq<Byte>)
    ensures Text(ps + [b]) == Text(ps) + Unmarked(b)
  {
    if ps == [] {
      assert Text([b]) == Unmarked(b) + Text([]);
    } else {
      assert (ps + [b])[1..] == ps[1..] + [b];
      TextAppend(ps[1..], b);
    }
  }

  // ----- Comparing -------------------------------------------------------------------------------

  /** The results of `section_name_cmp`. */
  datatype Class = Is(c: Comparison) | BadExtension

  /** The argument against the whole text of a name.  Nothing extends a complete name; equality with an
      incomplete one is an extension by nothing. */
  function Classify(a: seq<Byte>, text: seq<Byte>, complete: bool): Class {
    match Compare(a, text)
    case Equal => if complete then Is(Equal) else Is(Extension)
    case Extension => if complete then BadExtension else Is(Extension)
    case c => Is(c)
  }

  /** Piece by piece, the way `section_name_cmp` goes. */
  function ClassifyPieces(a: seq<Byte>, ps: seq<seq<Byte>>): Class
    requires ps != []
  {
    var s := Unmarked(ps[0]);
    match Compare(a, s)
    case Equal =>
      if |ps| == 1 then Is(if Marked(ps[0]) then Extension else Equal)
      else Is(if ps[1] == [] then Equal else Prefix)
    case Extension =>
      if !Marked(ps[0]) then BadExtension
      else if |ps| > 1 then ClassifyPieces(a[|s|..], ps[1..])
      else Is(Extension)
    case c => Is(c)
  }

  /** Comparing with the beginning of a string first. */
  lemma {:induction false} CompareParts(a: seq<Byte>, s: seq<Byte>, t: seq<Byte>)
    ensures match Compare(a, s)
            case Equal => Compare(a, s + t) == if t == [] then Equal else Prefix
            case Extension => |s| <= |a| && Compare(a, s + t) == Compare(a[|s|..], t)
            case c => Compare(a, s + t) == c
  {
    if s == [] {
      assert s + t == t && a[0..] == a;
    } else {
      assert (s + t)[1..] == s[1..] + t;
      if a != [] && a[0] == s[0] {
        CompareParts(a[1..], s[1..], t);
        if Compare(a, s) == Extension { assert a[1..][|s| - 1..] == a[|s|..]; }
      }
    }
  }

  lemma OnePiece(ps: seq<seq<Byte>>)
    requires |ps| == 1
    ensures Text(ps) == Unmarked(ps[0])
  {
    assert Text(ps[1..]) == [];
  }

  /** What `section_name_cmp` finds piece by piece is what a comparison with the whole text finds. */
  lemma {:induction false} PiecesAsOne(a: seq<Byte>, ps: seq<seq<Byte>>)
    requires WellPieced(ps)
    ensures ClassifyPieces(a, ps) == Classify(a, Text(ps), Complete(ps))
  {
    var s, t := Unmarked(ps[0]), Text(ps[1..]);
    if |ps| == 1 {
      OnePiece(ps);
    } else {
      CompareParts(a, s, t);
      MorePieces(ps);
      if Compare(a, s) == Extension { PiecesAsOne(a[|s|..], ps[1..]); }
    }
  }

  /** The second piece is empty exactly if nothing follows the first one. */
  lemma MorePieces(ps: seq<seq<Byte>>)
    requires WellPieced(ps) && |ps| > 1
    ensures WellPieced(ps[1..]) && Complete(ps[1..]) == Complete(ps)
    ensures ps[1] == [] <==> Text(ps[1..]) == []
    ensures ps[1] == [] ==> Complete(ps)
  {
    var qs := ps[1..];
    assert forall i | 0 <= i < |qs| :: qs[i] == ps[i + 1];
    if ps[1] == [] {
      assert |qs| == 1 by { assert !Marked(qs[0]); }
      OnePiece(qs);
    } else {
      assert Unmarked(qs[0]) != [];
    }
  }
}
