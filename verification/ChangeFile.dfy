/** Change files: what a web file becomes when the blocks of a change file replace some of its lines. */
module ChangeFile {
  import opened Wrappers

  /** A line without the blanks at its end. */
  type Line = seq<Byte>

  const AT: Byte := 64

  function Lower(b: Byte): Byte {
    if 65 <= b <= 90 then b + 32 else b
  }

  /** A line of the change file after its control code, if it has one, has been turned to lower case. */
  function Folded(l: Line): Line {
    if |l| >= 2 && l[0] == AT then l[1 := Lower(l[1])] else l
  }

  /** The line begins with `@` and the letter `c` in either case. */
  predicate Control(l: Line, c: Byte) {
    |l| >= 2 && l[0] == AT && Lower(l[1]) == c
  }

  const X: Byte := 120
  const Y: Byte := 121
  const Z: Byte := 122
  const I: Byte := 105

  datatype Message =
    | MissingX | EndedAfterX | EndedBeforeY | WhereIsY | WhereIsZ | FailedToMatch(n: nat) | EndedWithoutZ | EndedDuringChange

  /** A line that `get_line` delivers, with its number in the web file or in the change file, or a message. */
  datatype Event = Get(line: Line, fromChange: bool, number: nat) | Say(m: Message)

  /** What happens until the web file ends, and what is then left in the change buffer. */
  datatype Run = Run(events: seq<Event>, left: Line)

  function After(e: seq<Event>, r: Run): Run {
    Run(e + r.events, r.left)
  }

  // ----- The rules, for all change files ---------------------------------------------------------

  /** Where the next block begins: the first line after `c` that begins with `@x`, |change| if there is
      none. */
  function FindX(change: seq<Line>, c: nat): (i: nat)
    requires c <= |change|
    ensures c <= i <= |change|
    ensures i < |change| ==> Control(change[i], X)
    ensures forall j | c <= j < i :: !Control(change[j], X)
    decreases |change| - c
  {
    if c == |change| || Control(change[c], X) then c else FindX(change, c + 1)
  }

  /** The first line after `c` that is not empty. */
  function SkipEmpty(change: seq<Line>, c: nat): (i: nat)
    requires c <= |change|
    ensures c <= i <= |change|
    ensures i < |change| ==> change[i] != []
    ensures forall j | c <= j < i :: change[j] == []
    decreases |change| - c
  {
    if c == |change| || change[c] != [] then c else SkipEmpty(change, c + 1)
  }

  /** The line of the change file that is to be matched next, |change| if there is none. */
  function Pending(change: seq<Line>, c: nat): (i: nat)
    requires c <= |change|
    ensures c <= i <= |change|
    ensures i < |change| ==> c < i && change[i] != []
  {
    var x := FindX(change, c);
    if x == |change| then x else SkipEmpty(change, x + 1)
  }

  /** The messages on the way there. */
  function Complaints(change: seq<Line>, c: nat, x: nat): seq<Event>
    requires c <= x <= |change|
    decreases x - c
  {
    if c == x then []
    else
      (if Control(change[c], Y) || Control(change[c], Z) || Control(change[c], I) then [Say(MissingX)] else [])
      + Complaints(change, c + 1, x)
  }

  function Priming(change: seq<Line>, c: nat): seq<Event>
    requires c <= |change|
  {
    var x := FindX(change, c);
    Complaints(change, c, x) + if x < |change| == Pending(change, c) then [Say(EndedAfterX)] else []
  }

  function LineAt(change: seq<Line>, i: nat): Line
    requires i <= |change|
  {
    if i == |change| then [] else change[i]
  }

  /** The next line comes from the web file, of which `w` lines have been read; line `i` of the change file
      is to be matched, if there is one. */
  function FromWeb(web: seq<Line>, change: seq<Line>, w: nat, i: nat): Run
    requires w <= |web| && i <= |change| && (i < |change| ==> change[i] != [])
    decreases |web| - w + |change| - i, 1
  {
    if w == |web| then Run([], LineAt(change, i))
    else if i < |change| && web[w] == change[i] then Matching(web, change, w + 1, i + 1, 0)
    else After([Get(web[w], false, w + 1)], FromWeb(web, change, w + 1, i))
  }

  /** The lines of the change file up to `@y` are compared with those of the web file; `n` of them have
      failed to match. */
  function Matching(web: seq<Line>, change: seq<Line>, w: nat, c: nat, n: nat): Run
    requires w <= |web| && c <= |change|
    decreases |web| - w + |change| - c, 2
  {
    if c == |change| then After([Say(EndedBeforeY), Get([], false, w)], FromWeb(web, change, w, |change|))
    else if Control(change[c], Y) then
      After(if n > 0 then [Say(FailedToMatch(n))] else [], FromChange(web, change, w, c + 1))
    else
      var l := Folded(change[c]);
      var said := if Control(change[c], X) || Control(change[c], Z) then [Say(WhereIsY)] else [];
      if w == |web| then Run(said + [Say(EndedDuringChange)], l)
      else After(said, Matching(web, change, w + 1, c + 1, if web[w] == l then n else n + 1))
  }

  /** The lines of the change file up to `@z` are delivered. */
  function FromChange(web: seq<Line>, change: seq<Line>, w: nat, c: nat): Run
    requires w <= |web| && c <= |change|
    decreases |web| - w + |change| - c, 2
  {
    if c == |change| then After([Say(EndedWithoutZ)], FromWeb(web, change, w, |change|))
    else if Control(change[c], Z) then
      After(Priming(change, c + 1), FromWeb(web, change, w, Pending(change, c + 1)))
    else
      var said := if Control(change[c], X) || Control(change[c], Y) then [Say(WhereIsZ)] else [];
      After(said + [Get(Folded(change[c]), true, c + 1)], FromChange(web, change, w, c + 1))
  }

  /** The whole merge. */
  function Merged(web: seq<Line>, change: seq<Line>): Run {
    After(Priming(change, 0), FromWeb(web, change, 0, Pending(change, 0)))
  }
}
