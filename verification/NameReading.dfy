/** Reading a section name from the table, one piece after the other. */
module NameReading {
  import opened Wrappers
  import opened NameOrder
  import opened NamePieces
  import opened NameBook
  import opened NameTable

  /** Piece `i` of name `n` lies between `s` and the end of entry `r`; its link is that of entry `q`. */
  ghost predicate AtPiece(t: Table, n: nat, cs: seq<nat>, i: nat, r: nat, q: nat, s: nat) {
    && Shape(t) && i <= |cs| && r < |t.link|
    && r == (if i == 0 then n else cs[i - 1])
    && q == (if i == 0 then n + 1 else r)
    && s == t.start[r] + if i == 0 then 2 else 0
  }

  lemma AtFirst(t: Table, role: seq<Role>, n: nat, cs: seq<nat>, nm: Name)
    requires Shape(t) && |role| == |t.link| && NameAt(t, role, n, cs, nm)
    ensures AtPiece(t, n, cs, 0, n, n + 1, t.start[n] + 2)
    ensures forall i | 0 <= i < |cs| :: cs[i] < |t.link|
    ensures |Bytes(t, n)| >= 2 && WellPieced(Pieces(t, n, cs)) && |Pieces(t, n, cs)| == |cs| + 1
    ensures Text(Pieces(t, n, cs)) == nm.text && Complete(Pieces(t, n, cs)) == nm.complete
  {
  }

  lemma PieceSlice(t: Table, n: nat, cs: seq<nat>, i: nat, r: nat, q: nat, s: nat)
    requires Shape(t) && n < |t.link| && |Bytes(t, n)| >= 2 && (forall j | 0 <= j < |cs| :: cs[j] < |t.link|)
    requires AtPiece(t, n, cs, i, r, q, s)
    ensures i < |Pieces(t, n, cs)| && s <= t.start[r + 1] <= |t.mem|
    ensures t.mem[s..t.start[r + 1]] == Pieces(t, n, cs)[i]
  {
    assert t.start[r] <= t.start[r + 1] <= |t.mem|;
    if i == 0 { assert t.mem[s..t.start[n + 1]] == Bytes(t, n)[2..]; }
  }

  /** The bytes of a piece. */
  lemma PieceBytes(t: Table, role: seq<Role>, n: nat, cs: seq<nat>, nm: Name, i: nat, r: nat, q: nat, s: nat)
    requires Shape(t) && |role| == |t.link| && NameAt(t, role, n, cs, nm) && AtPiece(t, n, cs, i, r, q, s)
    ensures i < |Pieces(t, n, cs)| && s <= t.start[r + 1] <= |t.mem|
    ensures t.mem[s..t.start[r + 1]] == Pieces(t, n, cs)[i]
  {
    PiecesShape(t, role, n, cs, nm);
    hide NameAt, AtPiece, Shape, Pieces, Bytes;
    PieceSlice(t, n, cs, i, r, q, s);
  }

  lemma PiecesShape(t: Table, role: seq<Role>, n: nat, cs: seq<nat>, nm: Name)
    requires Shape(t) && |role| == |t.link| && NameAt(t, role, n, cs, nm)
    ensures n < |t.link| && |Bytes(t, n)| == t.start[n + 1] - t.start[n] >= 2
    ensures forall i | 0 <= i < |cs| :: cs[i] < |t.link|
  {
    assert t.start[n + 1] <= |t.mem|;
  }

  /** If the first piece is empty, the byte before its end belongs to the length 0. */
  lemma EmptyFirst(t: Table, role: seq<Role>, n: nat, cs: seq<nat>, nm: Name)
    requires Shape(t) && |role| == |t.link| && NameAt(t, role, n, cs, nm) && t.start[n] + 2 == t.start[n + 1]
    ensures t.start[n] + 1 < |t.mem| && t.mem[t.start[n] + 1] == 0
  {
    KeyBytes(t, role, n, cs, nm);
    assert |First(t, n)| == 0;
  }

  lemma MarkedSlice(m: seq<Byte>, s: nat, e: nat)
    requires s < e <= |m|
    ensures Marked(m[s..e]) <==> m[e - 1] == SPACE
    ensures Unmarked(m[s..e]) == if m[e - 1] == SPACE then m[s..e - 1] else m[s..e]
  {
  }

  /** Whether a piece is marked can be seen from the byte before its end. */
  lemma PieceMarked(t: Table, role: seq<Role>, n: nat, cs: seq<nat>, nm: Name, i: nat, r: nat, q: nat, s: nat)
    requires Shape(t) && |role| == |t.link| && NameAt(t, role, n, cs, nm) && AtPiece(t, n, cs, i, r, q, s)
    ensures (forall j | 0 <= j < |cs| :: cs[j] < |t.link|) && n < |t.link| && |Bytes(t, n)| >= 2
    ensures i < |Pieces(t, n, cs)| && t.start[r + 1] <= |t.mem|
    ensures Marked(Pieces(t, n, cs)[i]) <==> t.start[r + 1] - 1 >= t.start[r] && t.mem[t.start[r + 1] - 1] == SPACE
  {
    hide NameAt, Pieces, Unmarked;
    AtFirst(t, role, n, cs, nm);
    PieceBytes(t, role, n, cs, nm, i, r, q, s);
    var e := t.start[r + 1];
    if s < e {
      MarkedSlice(t.mem, s, e);
    } else if i == 0 {
      EmptyFirst(t, role, n, cs, nm);
    }
  }

  lemma PieceUnmarked(m: seq<Byte>, s: nat, e: nat, b: seq<Byte>)
    requires s <= e <= |m| && m[s..e] == b
    ensures Marked(b) ==> s < e && m[s..e - 1] == Unmarked(b)
    ensures !Marked(b) ==> m[s..e] == Unmarked(b)
  {
    if s < e { MarkedSlice(m, s, e); }
  }

  /** The link from a marked piece to the next one. */
  lemma PieceLink(t: Table, role: seq<Role>, n: nat, cs: seq<nat>, nm: Name, i: nat, r: nat, q: nat, s: nat)
    requires Shape(t) && |role| == |t.link| && NameAt(t, role, n, cs, nm) && AtPiece(t, n, cs, i, r, q, s)
    ensures i <= |cs| && |Pieces(t, n, cs)| == |cs| + 1
    ensures !Marked(Pieces(t, n, cs)[i]) ==> i == |cs|
    ensures Marked(Pieces(t, n, cs)[i]) ==> q < |t.link| && t.link[q] == if i < |cs| then cs[i] else 0
    ensures i < |cs| ==> 0 < cs[i] < |t.link| && AtPiece(t, n, cs, i + 1, cs[i], cs[i], t.start[cs[i]])
    ensures i < |cs| ==> (t.start[cs[i]] == t.start[cs[i] + 1] <==> Pieces(t, n, cs)[i + 1] == [])
  {
    assert Pieces(t, n, cs)[0] == First(t, n);
    if i < |cs| {
      assert Pieces(t, n, cs)[i + 1] == Bytes(t, cs[i]);
      assert t.start[cs[i] + 1] <= |t.mem|;
      assert |Bytes(t, cs[i])| == t.start[cs[i] + 1] - t.start[cs[i]];
    }
    if 0 < i < |cs| { assert t.link[cs[i - 1]] == cs[i]; }
  }

  /** One turn of the comparison piece by piece. */
  lemma OneTurn(first: seq<Byte>, ps: seq<seq<Byte>>, i: nat)
    requires i < |ps|
    ensures var s := Unmarked(ps[i]);
            ClassifyPieces(first, ps[i..]) ==
            match Compare(first, s)
            case Equal =>
              if i + 1 == |ps| then Is(if Marked(ps[i]) then Extension else Equal)
              else Is(if ps[i + 1] == [] then Equal else Prefix)
            case Extension =>
              if !Marked(ps[i]) then BadExtension
              else if i + 1 < |ps| then ClassifyPieces(first[|s|..], ps[i + 1..])
              else Is(Extension)
            case c => Is(c)
  {
    assert ps[i..][1..] == ps[i + 1..];
  }

  lemma TextNone(ps: seq<seq<Byte>>, a: seq<Byte>)
    ensures Text(ps[..0]) + a == a && ps[0..] == ps
  {
    assert ps[..0] == [];
  }

  lemma TextNext(ps: seq<seq<Byte>>, i: nat)
    requires i < |ps|
    ensures Text(ps[..i + 1]) == Text(ps[..i]) + Unmarked(ps[i])
  {
    assert ps[..i + 1] == ps[..i] + [ps[i]];
    TextAppend(ps[..i], ps[i]);
  }

  lemma TextTaken(done: seq<Byte>, s: seq<Byte>, first: seq<Byte>)
    requires Compare(first, s) == Equal || Compare(first, s) == Extension
    ensures |s| <= |first| && done + first == done + s + first[|s|..]
    ensures Compare(first, s) == Equal ==> first[|s|..] == []
  {
    var n := CompareMeans(first, s);
  }
}
