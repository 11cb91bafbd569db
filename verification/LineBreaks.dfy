/** CWEAVE's output lines: where a line that gets too long is broken, and what is kept. */
module LineBreaks {
  import opened Wrappers

  const SPACE: Byte := 32
  const PERCENT: Byte := 37
  const BACKSLASH: Byte := 92
  /** `line_length` */
  const LINE_LENGTH: nat := 80

  /** A line that has been written; `percent` says whether a percent sign was added at its end. */
  datatype Line = Line(text: seq<Byte>, percent: bool)

  /** The line as it stands in the file. */
  function Written(l: Line): seq<Byte> {
    l.text + if l.percent then [PERCENT] else []
  }

  predicate Fits(l: Line) {
    |Written(l)| <= LINE_LENGTH
  }

  /** All lines, and the characters that wait for the end of the next line. */
  datatype Output = Output(lines: seq<Line>, waiting: seq<Byte>)

  function NonSpace(s: seq<Byte>): seq<Byte> {
    if s == [] then [] else (if s[0] == SPACE then [] else [s[0]]) + NonSpace(s[1..])
  }

  lemma {:induction false} NonSpaceAppend(a: seq<Byte>, b: seq<Byte>)
    ensures NonSpace(a + b) == NonSpace(a) + NonSpace(b)
  {
    if a == [] {
      assert a + b == b;
    } else {
      assert (a + b)[1..] == a[1..] + b;
      NonSpaceAppend(a[1..], b);
    }
  }

  function Texts(lines: seq<Line>): seq<Byte> {
    if lines == [] then [] else Texts(lines[..|lines| - 1]) + lines[|lines| - 1].text
  }

  /** Everything that is not a space, in order. */
  function Content(o: Output): seq<Byte> {
    NonSpace(Texts(o.lines) + o.waiting)
  }

  // ----- Where lines are broken ------------------------------------------------------------------

  /** A line can be broken at a space, and before a backslash that begins a control sequence.  In front of
      the line stands a backslash that does not count. */
  predicate Good(s: seq<Byte>, k: nat)
    requires k < |s|
  {
    s[k] == SPACE || (s[k] == BACKSLASH && (if k == 0 then BACKSLASH else s[k - 1]) != BACKSLASH)
  }

  /** One more than the last good place among the first `n` characters, 0 if there is none. */
  function LastGood(s: seq<Byte>, n: nat): (k: nat)
    requires n <= |s|
    ensures k <= n && (k > 0 ==> Good(s, k - 1))
    ensures forall j | k <= j < n :: !Good(s, j)
  {
    if n == 0 || Good(s, n - 1) then n else LastGood(s, n - 1)
  }

  function TrimEnd(s: seq<Byte>): (t: seq<Byte>)
    ensures t <= s && (t == [] || t[|t| - 1] != SPACE)
    ensures forall i | |t| <= i < |s| :: s[i] == SPACE
  {
    if s == [] || s[|s| - 1] != SPACE then s else TrimEnd(s[..|s| - 1])
  }

  /** The line that `break_out` writes, and what is left: it ends before the last good place; if there is
      none, all characters but the last are written. */
  function Broken(s: seq<Byte>): (Line, seq<Byte>)
    requires s != []
  {
    var k := LastGood(s, |s|);
    if k == 0 then (Line(s[..|s| - 1], true), s[|s| - 1..])
    else if s[k - 1] == SPACE then (Line(TrimEnd(s[..k]), false), s[k..])
    else (Line(s[..k - 1], true), s[k - 1..])
  }

  /** `out(c)` */
  function Put(o: Output, c: Byte): Output {
    if |o.waiting| >= LINE_LENGTH then
      var (l, rest) := Broken(o.waiting);
      Output(o.lines + [l], rest + [c])
    else o.(waiting := o.waiting + [c])
  }

  /** `finish_line`, when something waits or the input line is blank. */
  function Finished(o: Output, blank: bool): Output {
    if o.waiting == [] && !blank then o else Output(o.lines + [Line(TrimEnd(o.waiting), false)], [])
  }

  // ----- What is kept ----------------------------------------------------------------------------

  lemma {:induction false} AllSpaces(s: seq<Byte>)
    requires forall i | 0 <= i < |s| :: s[i] == SPACE
    ensures NonSpace(s) == []
  {
    if s != [] { AllSpaces(s[1..]); }
  }

  lemma TrimEndContent(s: seq<Byte>)
    ensures NonSpace(TrimEnd(s)) == NonSpace(s)
  {
    var t := TrimEnd(s);
    assert s == t + s[|t|..];
    AllSpaces(s[|t|..]);
    NonSpaceAppend(t, s[|t|..]);
  }

  lemma NonSpaceSplit(s: seq<Byte>, k: nat)
    requires k <= |s|
    ensures NonSpace(s) == NonSpace(s[..k]) + NonSpace(s[k..])
  {
    assert s == s[..k] + s[k..];
    NonSpaceAppend(s[..k], s[k..]);
  }

  /** Breaking a line loses nothing but spaces, and leaves fewer characters. */
  lemma BrokenContent(s: seq<Byte>)
    requires s != []
    ensures NonSpace(Broken(s).0.text) + NonSpace(Broken(s).1) == NonSpace(s)
    ensures |s| >= 2 ==> |Broken(s).1| < |s|
  {
    hide NonSpace, TrimEnd;
    var k := LastGood(s, |s|);
    if k == 0 {
      NonSpaceSplit(s, |s| - 1);
    } else if s[k - 1] == SPACE {
      NonSpaceSplit(s, k);
      TrimEndContent(s[..k]);
    } else {
      NonSpaceSplit(s, k - 1);
    }
  }

  lemma ContentParts(o: Output)
    ensures Content(o) == NonSpace(Texts(o.lines)) + NonSpace(o.waiting)
  {
    NonSpaceAppend(Texts(o.lines), o.waiting);
  }

  lemma ContentOfLine(lines: seq<Line>, l: Line, rest: seq<Byte>)
    ensures Content(Output(lines + [l], rest)) == NonSpace(Texts(lines)) + NonSpace(l.text) + NonSpace(rest)
  {
    assert (lines + [l])[..|lines|] == lines;
    NonSpaceAppend(Texts(lines), l.text);
    ContentParts(Output(lines + [l], rest));
  }

  /** All written lines fit, and there is room for the characters that wait. */
  predicate Bounded(o: Output) {
    |o.waiting| <= LINE_LENGTH && forall i | 0 <= i < |o.lines| :: Fits(o.lines[i])
  }

  /** A broken line is short enough. */
  lemma BrokenFits(s: seq<Byte>)
    requires 0 < |s| <= LINE_LENGTH
    ensures Fits(Broken(s).0)
  {
    var k := LastGood(s, |s|);
    if k > 0 && s[k - 1] == SPACE { assert |TrimEnd(s[..k])| <= k; }
  }

  lemma PutKeeps(o: Output, c: Byte)
    requires Bounded(o)
    ensures Bounded(Put(o, c)) && Content(Put(o, c)) == Content(o) + NonSpace([c])
  {
    hide NonSpace, Content, Broken, Fits;
    var s := o.waiting;
    ContentParts(o);
    if |s| >= LINE_LENGTH {
      var (l, rest) := Broken(s);
      BrokenContent(s);
      BrokenFits(s);
      ContentOfLine(o.lines, l, rest + [c]);
      NonSpaceAppend(rest, [c]);
    } else {
      NonSpaceAppend(s, [c]);
      ContentParts(Put(o, c));
    }
  }

  lemma FinishedKeeps(o: Output, blank: bool)
    requires Bounded(o)
    ensures Bounded(Finished(o, blank)) && Content(Finished(o, blank)) == Content(o)
    ensures Finished(o, blank).waiting == []
  {
    if o.waiting != [] || blank {
      ContentParts(o);
      TrimEndContent(o.waiting);
      ContentOfLine(o.lines, Line(TrimEnd(o.waiting), false), []);
    }
  }

  // ----- Whole outputs ---------------------------------------------------------------------------

  /** A character, or the end of a line. */
  datatype Action = Char(c: Byte) | EndLine(blank: bool)

  function After(o: Output, a: Action): Output {
    match a
    case Char(c) => Put(o, c)
    case EndLine(blank) => Finished(o, blank)
  }

  function AfterAll(o: Output, actions: seq<Action>): Output
    decreases |actions|
  {
    if actions == [] then o else AfterAll(After(o, actions[0]), actions[1..])
  }

  function Chars(actions: seq<Action>): seq<Byte> {
    if actions == [] then [] else (if actions[0].Char? then [actions[0].c] else []) + Chars(actions[1..])
  }

  /** Whatever is written, every line fits, and apart from added percent signs the characters that are not
      spaces come out as they went in. */
  lemma {:induction false} NothingLost(o: Output, actions: seq<Action>)
    requires Bounded(o)
    ensures Bounded(AfterAll(o, actions)) && Content(AfterAll(o, actions)) == Content(o) + NonSpace(Chars(actions))
    decreases |actions|
  {
    if actions != [] {
      var a := actions[0];
      if a.Char? { PutKeeps(o, a.c); } else { FinishedKeeps(o, a.blank); }
      NothingLost(After(o, a), actions[1..]);
      NonSpaceAppend(if a.Char? then [a.c] else [], Chars(actions[1..]));
    }
  }
}
