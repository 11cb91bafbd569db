/** Well-formed change files: each block replaces the first place after the previous change where its first
    line occurs. */
module ChangeBlocks {
  import opened Wrappers
  import opened ChangeFile

  /** A block of a change file with the lines before it, which do not matter. */
  datatype Block = Block(junk: seq<Line>, x: Line, empty: nat, first: Line, more: seq<Line>, y: Line, repl: seq<Line>, z: Line)

  predicate Without(ls: seq<Line>, c: Byte) {
    forall i | 0 <= i < |ls| :: !Control(ls[i], c)
  }

  predicate WellFormed(b: Block) {
    && Without(b.junk, X) && Control(b.x, X) && b.first != []
    && Without(b.more, Y) && Control(b.y, Y) && Without(b.repl, Z) && Control(b.z, Z)
  }

  function Head(b: Block): seq<Line> {
    b.junk + [b.x] + seq(b.empty, _ => [])
  }

  function LinesOf(b: Block): seq<Line> {
    Head(b) + [b.first] + b.more + [b.y] + b.repl + [b.z]
  }

  /** The change file: its blocks, and some lines after the last one. */
  function FileOf(blocks: seq<Block>, tail: seq<Line>): seq<Line> {
    if blocks == [] then tail else LinesOf(blocks[0]) + FileOf(blocks[1..], tail)
  }

  predicate AllWellFormed(blocks: seq<Block>) {
    forall i | 0 <= i < |blocks| :: WellFormed(blocks[i])
  }

  // ----- The pure merge --------------------------------------------------------------------------

  /** The first place at `w` or later where `first` occurs. */
  function Place(web: seq<Line>, w: nat, first: Line): (m: nat)
    requires w <= |web|
    ensures w <= m <= |web| && (m < |web| ==> web[m] == first)
    ensures forall k | w <= k < m :: web[k] != first
    decreases |web| - w
  {
    if w == |web| || web[w] == first then w else Place(web, w + 1, first)
  }

  /** The lines of the web file from `w` up to `m`. */
  function Unchanged(web: seq<Line>, w: nat, m: nat): seq<Event>
    requires w <= m <= |web|
    decreases m - w
  {
    if w == m then [] else [Get(web[w], false, w + 1)] + Unchanged(web, w + 1, m)
  }

  /** The lines that replace others, the first of them being line `c` (counted from 0) of the change file. */
  function Replacement(repl: seq<Line>, c: nat): seq<Event> {
    if repl == [] then [] else [Get(Folded(repl[0]), true, c + 1)] + Replacement(repl[1..], c + 1)
  }

  /** The lines delivered, and what is left to be matched, when `c` lines of the change file precede the
      blocks. */
  function Applied(web: seq<Line>, w: nat, blocks: seq<Block>, c: nat): Run
    requires w <= |web|
    decreases |blocks|
  {
    if blocks == [] then Run(Unchanged(web, w, |web|), [])
    else
      var b, m := blocks[0], Place(web, w, blocks[0].first);
      var e := m + 1 + |b.more|;
      if m == |web| then Run(Unchanged(web, w, m), b.first)
      else if e > |web| then Run(Unchanged(web, w, m), Folded(b.more[|web| - m - 1]))
      else
        After(Unchanged(web, w, m) + Replacement(b.repl, c + |Head(b)| + 1 + |b.more| + 1),
              Applied(web, e, blocks[1..], c + |LinesOf(b)|))
  }

  /** The lines without the messages. */
  function Gets(e: seq<Event>): seq<Event> {
    if e == [] then [] else (if e[0].Get? then [e[0]] else []) + Gets(e[1..])
  }

  lemma {:induction false} GetsAppend(a: seq<Event>, b: seq<Event>)
    ensures Gets(a + b) == Gets(a) + Gets(b)
  {
    if a == [] {
      assert a + b == b;
    } else {
      var first := if a[0].Get? then [a[0]] else [];
      assert (a + b)[0] == a[0] && (a + b)[1..] == a[1..] + b;
      GetsAppend(a[1..], b);
      assert first + Gets(a[1..]) + Gets(b) == first + (Gets(a[1..]) + Gets(b));
    }
  }

  /** Two runs deliver the same lines and leave the same. */
  predicate Alike(r: Run, s: Run) {
    Gets(r.events) == Gets(s.events) && r.left == s.left
  }

  lemma AlikeAfter(e: seq<Event>, f: seq<Event>, r: Run, s: Run)
    requires Gets(e) == Gets(f) && Alike(r, s)
    ensures Alike(After(e, r), After(f, s))
  {
    GetsAppend(e, r.events);
    GetsAppend(f, s.events);
  }

  lemma AlikeTrans(r: Run, s: Run, t: Run)
    requires Alike(r, s) && Alike(s, t)
    ensures Alike(r, t)
  {
  }

  /** `ls` stands in the change file at `c`. */
  predicate At(change: seq<Line>, c: nat, ls: seq<Line>) {
    c + |ls| <= |change| && change[c..c + |ls|] == ls
  }

  // ----- One block -------------------------------------------------------------------------------

  lemma {:induction false} NoGets(change: seq<Line>, c: nat, x: nat)
    requires c <= x <= |change|
    ensures Gets(Complaints(change, c, x)) == []
    decreases x - c
  {
    if c < x {
      NoGets(change, c + 1, x);
      GetsAppend(if Control(change[c], Y) || Control(change[c], Z) || Control(change[c], I) then [Say(MissingX)] else [],
                 Complaints(change, c + 1, x));
    }
  }

  lemma PrimingSilent(change: seq<Line>, c: nat)
    requires c <= |change|
    ensures Gets(Priming(change, c)) == []
  {
    var x := FindX(change, c);
    NoGets(change, c, x);
    GetsAppend(Complaints(change, c, x), if x < |change| == Pending(change, c) then [Say(EndedAfterX)] else []);
  }

  lemma FindsX(change: seq<Line>, c: nat, x: nat)
    requires c <= x <= |change| && (x < |change| ==> Control(change[x], X))
    requires forall j | c <= j < x :: !Control(change[j], X)
    ensures FindX(change, c) == x
  {
  }

  lemma AtPart(change: seq<Line>, c: nat, a: seq<Line>, b: seq<Line>)
    requires At(change, c, a + b)
    ensures At(change, c, a) && At(change, c + |a|, b)
  {
    var s := change[c..c + |a + b|];
    assert s[..|a|] == a && s[|a|..] == b;
    assert change[c..c + |a|] == s[..|a|] && change[c + |a|..c + |a| + |b|] == s[|a|..];
  }

  lemma AtLine(change: seq<Line>, c: nat, ls: seq<Line>, i: nat)
    requires At(change, c, ls) && c <= i < c + |ls|
    ensures change[i] == ls[i - c]
  {
    assert change[i] == change[c..c + |ls|][i - c];
  }

  /** The first line of a block is found. */
  lemma PendingBlock(change: seq<Line>, c: nat, b: Block)
    requires WellFormed(b) && At(change, c, Head(b) + [b.first])
    ensures Pending(change, c) == c + |Head(b)| < |change| && change[c + |Head(b)|] == b.first
  {
    var x, i := c + |b.junk|, c + |Head(b)|;
    AtPart(change, c, Head(b), [b.first]);
    AtLine(change, i, [b.first], i);
    AtPart(change, c, b.junk + [b.x], seq(b.empty, _ => []));
    AtPart(change, c, b.junk, [b.x]);
    AtLine(change, x, [b.x], x);
    forall j | c <= j < x ensures !Control(change[j], X) { AtLine(change, c, b.junk, j); }
    FindsX(change, c, x);
    forall j | x < j < i ensures change[j] == [] { AtLine(change, x + 1, seq(b.empty, _ => []), j); }
  }

  /** Lines of the web file before the place of the block. */
  lemma {:induction false} WebUntil(web: seq<Line>, change: seq<Line>, w: nat, i: nat, m: nat)
    requires w <= m <= |web| && i <= |change| && (i < |change| ==> change[i] != [])
    requires i < |change| ==> forall k | w <= k < m :: web[k] != change[i]
    ensures FromWeb(web, change, w, i) == After(Unchanged(web, w, m), FromWeb(web, change, m, i))
    decreases m - w
  {
    var r := FromWeb(web, change, m, i);
    if w == m {
      assert [] + r.events == r.events;
    } else {
      WebUntil(web, change, w + 1, i, m);
      assert [Get(web[w], false, w + 1)] + Unchanged(web, w + 1, m) + r.events
          == [Get(web[w], false, w + 1)] + (Unchanged(web, w + 1, m) + r.events);
    }
  }

  /** Where the comparison of `more` with the lines of the web file from `w` on leads to. */
  function Compared(web: seq<Line>, change: seq<Line>, w: nat, c: nat, more: seq<Line>): Run
    requires w <= |web| && c + |more| + 1 <= |change|
  {
    if w + |more| <= |web| then FromChange(web, change, w + |more|, c + |more| + 1)
    else Run([], Folded(more[|web| - w]))
  }

  lemma ComparedTail(web: seq<Line>, change: seq<Line>, w: nat, c: nat, more: seq<Line>)
    requires w < |web| && more != [] && c + |more| + 1 <= |change|
    ensures Compared(web, change, w, c, more) == Compared(web, change, w + 1, c + 1, more[1..])
  {
  }

  lemma MatchOne(web: seq<Line>, change: seq<Line>, w: nat, c: nat, n: nat) returns (n': nat)
    requires w < |web| && c < |change| && !Control(change[c], Y)
    ensures Alike(Matching(web, change, w, c, n), Matching(web, change, w + 1, c + 1, n'))
  {
    hide FromChange, Control, Folded;
    var said := if Control(change[c], X) || Control(change[c], Z) then [Say(WhereIsY)] else [];
    n' := if web[w] == Folded(change[c]) then n else n + 1;
    GetsAppend(said, Matching(web, change, w + 1, c + 1, n').events);
  }

  lemma MatchEnd(web: seq<Line>, change: seq<Line>, w: nat, c: nat, n: nat)
    requires w <= |web| && c < |change| && (Control(change[c], Y) || w == |web|)
    ensures Alike(Matching(web, change, w, c, n),
                  if Control(change[c], Y) then FromChange(web, change, w, c + 1) else Run([], Folded(change[c])))
  {
    if Control(change[c], Y) {
      GetsAppend(if n > 0 then [Say(FailedToMatch(n))] else [], FromChange(web, change, w, c + 1).events);
    } else {
      GetsAppend(if Control(change[c], X) || Control(change[c], Z) then [Say(WhereIsY)] else [], [Say(EndedDuringChange)]);
    }
  }

  /** The further lines of a block are read together with as many lines of the web file. */
  lemma {:induction false} MatchMore(web: seq<Line>, change: seq<Line>, w: nat, c: nat, n: nat, more: seq<Line>, y: Line)
    requires w <= |web| && Without(more, Y) && Control(y, Y) && At(change, c, more + [y])
    ensures Alike(Matching(web, change, w, c, n), Compared(web, change, w, c, more))
    decreases |more|
  {
    AtLine(change, c, more + [y], c);
    if more == [] || w == |web| {
      MatchEnd(web, change, w, c, n);
    } else {
      hide Matching, FromChange, Alike, Compared, At, Control;
      ComparedTail(web, change, w, c, more);
      var n' := MatchOne(web, change, w, c, n);
      assert more + [y] == [more[0]] + (more[1..] + [y]);
      AtPart(change, c, [more[0]], more[1..] + [y]);
      MatchMore(web, change, w + 1, c + 1, n', more[1..], y);
      AlikeTrans(Matching(web, change, w, c, n), Matching(web, change, w + 1, c + 1, n'), Compared(web, change, w, c, more));
    }
  }

  /** How many lines of `more` differ from the lines of the web file at `w`. */
  function Misses(web: seq<Line>, w: nat, more: seq<Line>): nat
    requires w + |more| <= |web|
    decreases |more|
  {
    if more == [] then 0 else (if web[w] == Folded(more[0]) then 0 else 1) + Misses(web, w + 1, more[1..])
  }

  /** Lines that fail to match are only counted: the block is replaced all the same, with a message that
      gives their number. */
  lemma {:induction false} MatchCounts(web: seq<Line>, change: seq<Line>, w: nat, c: nat, n: nat, more: seq<Line>, y: Line)
    requires w + |more| <= |web| && Without(more, X) && Without(more, Y) && Without(more, Z) && Control(y, Y)
    requires At(change, c, more + [y])
    ensures var k := n + Misses(web, w, more);
            Matching(web, change, w, c, n) ==
            After(if k > 0 then [Say(FailedToMatch(k))] else [], FromChange(web, change, w + |more|, c + |more| + 1))
    decreases |more|
  {
    hide FromChange, Without, Control, After;
    AtLine(change, c, more + [y], c);
    if more == [] {
      MatchAtY(web, change, w, c, n);
    } else {
      hide Misses, Matching;
      assert more + [y] == [more[0]] + (more[1..] + [y]);
      AtPart(change, c, [more[0]], more[1..] + [y]);
      WithoutTail(more, X);
      WithoutTail(more, Y);
      WithoutTail(more, Z);
      MatchCounts(web, change, w + 1, c + 1, if web[w] == Folded(more[0]) then n else n + 1, more[1..], y);
      MissesOne(web, w, more);
      SilentMatch(web, change, w, c, n);
    }
  }

  lemma MatchAtY(web: seq<Line>, change: seq<Line>, w: nat, c: nat, n: nat)
    requires w <= |web| && c < |change| && Control(change[c], Y)
    ensures Matching(web, change, w, c, n) ==
            After(if n > 0 then [Say(FailedToMatch(n))] else [], FromChange(web, change, w, c + 1))
  {
    hide FromChange, Control;
  }

  lemma WithoutTail(ls: seq<Line>, c: Byte)
    requires Without(ls, c) && ls != []
    ensures !Control(ls[0], c) && Without(ls[1..], c)
  {
    hide Control;
  }

  lemma MissesOne(web: seq<Line>, w: nat, more: seq<Line>)
    requires w + |more| <= |web| && more != []
    ensures Misses(web, w, more) == (if web[w] == Folded(more[0]) then 0 else 1) + Misses(web, w + 1, more[1..])
  {
  }

  lemma SilentMatch(web: seq<Line>, change: seq<Line>, w: nat, c: nat, n: nat)
    requires w < |web| && c < |change|
    requires !Control(change[c], X) && !Control(change[c], Y) && !Control(change[c], Z)
    ensures Matching(web, change, w, c, n) ==
            Matching(web, change, w + 1, c + 1, if web[w] == Folded(change[c]) then n else n + 1)
  {
    var r := Matching(web, change, w + 1, c + 1, if web[w] == Folded(change[c]) then n else n + 1);
    assert [] + r.events == r.events;
  }

  /** The replacement is delivered, and the search for the next block begins after it. */
  lemma {:induction false} Replace(web: seq<Line>, change: seq<Line>, w: nat, c: nat, repl: seq<Line>, z: Line)
    requires w <= |web| && Without(repl, Z) && Control(z, Z) && At(change, c, repl + [z])
    ensures Alike(FromChange(web, change, w, c),
                  After(Replacement(repl, c), FromWeb(web, change, w, Pending(change, c + |repl| + 1))))
    decreases |repl|
  {
    hide FromWeb, Pending, Priming, Matching, Folded;
    AtLine(change, c, repl + [z], c);
    var r := FromWeb(web, change, w, Pending(change, c + |repl| + 1));
    if repl == [] {
      PrimingSilent(change, c + 1);
      AlikeAfter(Priming(change, c + 1), [], r, r);
    } else {
      assert repl + [z] == [repl[0]] + (repl[1..] + [z]);
      AtPart(change, c, [repl[0]], repl[1..] + [z]);
      Replace(web, change, w, c + 1, repl[1..], z);
      hide At, Control;
      var said := if Control(change[c], X) || Control(change[c], Y) then [Say(WhereIsZ)] else [];
      var got := [Get(Folded(change[c]), true, c + 1)];
      GetsAppend(said, got);
      AlikeAfter(said + got, got, FromChange(web, change, w, c + 1), After(Replacement(repl[1..], c + 1), r));
      assert got + (Replacement(repl[1..], c + 1) + r.events) == Replacement(repl, c) + r.events;
    }
  }

  // ----- All blocks ------------------------------------------------------------------------------

  lemma {:induction false} GetsUnchanged(web: seq<Line>, w: nat, m: nat)
    requires w <= m <= |web|
    ensures Gets(Unchanged(web, w, m)) == Unchanged(web, w, m)
    decreases m - w
  {
    if w < m { GetsUnchanged(web, w + 1, m); }
  }

  lemma {:induction false} GetsReplacement(repl: seq<Line>, c: nat)
    ensures Gets(Replacement(repl, c)) == Replacement(repl, c)
  {
    if repl != [] { GetsReplacement(repl[1..], c + 1); }
  }

  /** After the last block nothing is to be matched. */
  lemma NoBlock(web: seq<Line>, change: seq<Line>, w: nat, c: nat)
    requires w <= |web| && c <= |change| && Without(change[c..], X)
    ensures Alike(FromWeb(web, change, w, Pending(change, c)), Run(Unchanged(web, w, |web|), []))
  {
    forall j | c <= j < |change| ensures !Control(change[j], X) { assert change[c..][j - c] == change[j]; }
    FindsX(change, c, |change|);
    WebUntil(web, change, w, |change|, |web|);
    assert Unchanged(web, w, |web|) + [] == Unchanged(web, w, |web|);
  }

  /** The parts of a block in the change file. */
  lemma BlockParts(change: seq<Line>, c: nat, b: Block)
    requires At(change, c, LinesOf(b))
    ensures At(change, c, Head(b) + [b.first])
    ensures At(change, c + |Head(b)| + 1, b.more + [b.y])
    ensures At(change, c + |Head(b)| + 1 + |b.more| + 1, b.repl + [b.z])
  {
    var h, m, r := Head(b) + [b.first], b.more + [b.y], b.repl + [b.z];
    assert LinesOf(b) == h + (m + r);
    AtPart(change, c, h, m + r);
    AtPart(change, c + |h|, m, r);
  }

  /** What follows when the first line of block `b` stands at `m`. */
  function FromPlace(web: seq<Line>, change: seq<Line>, m: nat, c: nat, b: Block): Run
    requires m <= |web| && c + |Head(b)| + 1 + |b.more| + 1 <= |change|
  {
    if m == |web| then Run([], b.first) else Compared(web, change, m + 1, c + |Head(b)| + 1, b.more)
  }

  lemma PlaceRun(web: seq<Line>, change: seq<Line>, m: nat, i: nat, b: Block)
    requires m <= |web| && i < |change| && change[i] == b.first && b.first != [] && (m < |web| ==> web[m] == b.first)
    ensures FromWeb(web, change, m, i) == if m == |web| then Run([], b.first) else Matching(web, change, m + 1, i + 1, 0)
  {
  }

  lemma AlikeSelf(r: Run)
    ensures Alike(r, r)
  {
  }

  /** A block up to its `@y`. */
  lemma OneMatch(web: seq<Line>, change: seq<Line>, w: nat, c: nat, b: Block)
    requires WellFormed(b) && w <= |web| && At(change, c, LinesOf(b))
    ensures Alike(FromWeb(web, change, w, Pending(change, c)),
                  After(Unchanged(web, w, Place(web, w, b.first)), FromPlace(web, change, Place(web, w, b.first), c, b)))
  {
    hide FromWeb, Matching, FromChange, Alike, Pending, LinesOf;
    var m, i := Place(web, w, b.first), c + |Head(b)|;
    BlockParts(change, c, b);
    PendingBlock(change, c, b);
    WebUntil(web, change, w, i, m);
    PlaceRun(web, change, m, i, b);
    if m < |web| { MatchMore(web, change, m + 1, i + 1, 0, b.more, b.y); } else { AlikeSelf(Run([], b.first)); }
    AlikeAfter(Unchanged(web, w, m), Unchanged(web, w, m), FromWeb(web, change, m, i), FromPlace(web, change, m, c, b));
  }

  /** The merge of a well-formed change file, in which each block is replaced at the first place after the
      previous change where its first line occurs. */
  lemma {:induction false} MergesBlocks(web: seq<Line>, change: seq<Line>, w: nat, c: nat, blocks: seq<Block>, tail: seq<Line>)
    requires w <= |web| && c <= |change| && AllWellFormed(blocks) && Without(tail, X)
    requires change[c..] == FileOf(blocks, tail)
    ensures Alike(FromWeb(web, change, w, Pending(change, c)), Applied(web, w, blocks, c))
    decreases |blocks|
  {
    if blocks == [] {
      NoBlock(web, change, w, c);
    } else {
      hide FromWeb, Matching, FromChange, Alike, Pending, LinesOf, FileOf, Applied, Control, At, Without, WellFormed, Unchanged, FromPlace, After, Place;
      FileAt(change, c, blocks, tail);
      OneMatch(web, change, w, c, blocks[0]);
      var m := Place(web, w, blocks[0].first);
      var e := m + 1 + |blocks[0].more|;
      if m < |web| && e <= |web| { MergesBlocks(web, change, e, c + |LinesOf(blocks[0])|, blocks[1..], tail); }
      MergesBlock(web, change, w, c, blocks);
    }
  }

  /** One block, when the merge goes on as it should. */
  lemma MergesBlock(web: seq<Line>, change: seq<Line>, w: nat, c: nat, blocks: seq<Block>)
    requires w <= |web| && blocks != [] && WellFormed(blocks[0]) && At(change, c, LinesOf(blocks[0]))
    requires var b, m := blocks[0], Place(web, w, blocks[0].first);
             var e, c' := m + 1 + |b.more|, c + |LinesOf(b)|;
             && Alike(FromWeb(web, change, w, Pending(change, c)), After(Unchanged(web, w, m), FromPlace(web, change, m, c, b)))
             && (m < |web| && e <= |web| ==> Alike(FromWeb(web, change, e, Pending(change, c')), Applied(web, e, blocks[1..], c')))
    ensures Alike(FromWeb(web, change, w, Pending(change, c)), Applied(web, w, blocks, c))
  {
    hide FromWeb, Matching, FromChange, Pending, Control, WellFormed, At, Head, Unchanged, Replacement, Place, Without, Alike, Applied;
    var b, m := blocks[0], Place(web, w, blocks[0].first);
    var e, d, c' := m + 1 + |b.more|, c + |Head(b)| + 1 + |b.more| + 1, c + |LinesOf(b)|;
    var same := Unchanged(web, w, m);
    if m < |web| && e <= |web| {
      hide After;
      MergesFacts(b);
      BlockParts(change, c, b);
      Replace(web, change, e, d, b.repl, b.z);
      Joined(same, Replacement(b.repl, d), FromChange(web, change, e, d),
             FromWeb(web, change, e, Pending(change, c')), Applied(web, e, blocks[1..], c'));
      AppliedStep(web, w, blocks, c);
      AlikeTrans(FromWeb(web, change, w, Pending(change, c)), After(same, FromPlace(web, change, m, c, b)), Applied(web, w, blocks, c));
    } else {
      assert same + [] == same;
      AppliedShort(web, w, blocks, c);
    }
  }

  lemma AppliedStep(web: seq<Line>, w: nat, blocks: seq<Block>, c: nat)
    requires w <= |web| && blocks != []
    requires Place(web, w, blocks[0].first) + 1 + |blocks[0].more| <= |web|
    ensures var b, m := blocks[0], Place(web, w, blocks[0].first);
            Applied(web, w, blocks, c) ==
            After(Unchanged(web, w, m) + Replacement(b.repl, c + |Head(b)| + 1 + |b.more| + 1),
                  Applied(web, m + 1 + |b.more|, blocks[1..], c + |LinesOf(b)|))
  {
    hide Unchanged, Replacement, Place, After, LinesOf, Head;
  }

  lemma AppliedShort(web: seq<Line>, w: nat, blocks: seq<Block>, c: nat)
    requires w <= |web| && blocks != []
    requires Place(web, w, blocks[0].first) + 1 + |blocks[0].more| > |web|
    ensures var b, m := blocks[0], Place(web, w, blocks[0].first);
            Applied(web, w, blocks, c) ==
            Run(Unchanged(web, w, m), if m == |web| then b.first else Folded(b.more[|web| - m - 1]))
  {
    hide Unchanged, Replacement, Place, After, LinesOf, Head, Folded;
  }

  lemma MergesFacts(b: Block)
    requires WellFormed(b)
    ensures Without(b.repl, Z) && Control(b.z, Z)
  {
  }

  lemma Joined(same: seq<Event>, repl: seq<Event>, r: Run, s: Run, t: Run)
    requires Alike(r, After(repl, s)) && Alike(s, t)
    ensures Alike(After(same, r), After(same + repl, t))
  {
    AlikeAfter(same, same, r, After(repl, s));
    AlikeAfter(same + repl, same + repl, s, t);
    assert same + (repl + s.events) == same + repl + s.events;
  }

  lemma FileAt(change: seq<Line>, c: nat, blocks: seq<Block>, tail: seq<Line>)
    requires c <= |change| && blocks != [] && change[c..] == FileOf(blocks, tail)
    ensures At(change, c, LinesOf(blocks[0])) && c + |LinesOf(blocks[0])| <= |change|
    ensures change[c + |LinesOf(blocks[0])|..] == FileOf(blocks[1..], tail)
  {
    var ls := LinesOf(blocks[0]);
    assert change[c..][..|ls|] == ls && change[c..][|ls|..] == FileOf(blocks[1..], tail);
    assert change[c..c + |ls|] == change[c..][..|ls|] && change[c + |ls|..] == change[c..][|ls|..];
  }

  /** The lines that `get_line` delivers for a well-formed change file are those of the pure merge. */
  lemma MergedBlocks(web: seq<Line>, blocks: seq<Block>, tail: seq<Line>)
    requires AllWellFormed(blocks) && Without(tail, X)
    ensures var r, s := Merged(web, FileOf(blocks, tail)), Applied(web, 0, blocks, 0);
            Gets(r.events) == s.events && r.left == s.left
  {
    var change := FileOf(blocks, tail);
    assert change[0..] == change;
    MergesBlocks(web, change, 0, 0, blocks, tail);
    PrimingSilent(change, 0);
    var r := FromWeb(web, change, 0, Pending(change, 0));
    GetsAppend(Priming(change, 0), r.events);
    GetsApplied(web, 0, blocks, 0);
  }

  lemma GetsJoined(web: seq<Line>, w: nat, m: nat, repl: seq<Line>, d: nat, rest: seq<Event>)
    requires w <= m <= |web| && Gets(rest) == rest
    ensures Gets(Unchanged(web, w, m) + Replacement(repl, d) + rest) == Unchanged(web, w, m) + Replacement(repl, d) + rest
  {
    GetsUnchanged(web, w, m);
    GetsReplacement(repl, d);
    GetsAppend(Unchanged(web, w, m), Replacement(repl, d));
    GetsAppend(Unchanged(web, w, m) + Replacement(repl, d), rest);
  }

  lemma {:induction false} GetsApplied(web: seq<Line>, w: nat, blocks: seq<Block>, c: nat)
    requires w <= |web|
    ensures Gets(Applied(web, w, blocks, c).events) == Applied(web, w, blocks, c).events
    decreases |blocks|
  {
    if blocks == [] {
      GetsUnchanged(web, w, |web|);
    } else {
      var b, m := blocks[0], Place(web, w, blocks[0].first);
      var e, d := m + 1 + |b.more|, c + |Head(b)| + 1 + |b.more| + 1;
      hide Applied, Gets, Unchanged, Replacement, LinesOf, Head, Place;
      if m + 1 + |b.more| > |web| {
        GetsUnchanged(web, w, m);
        AppliedShort(web, w, blocks, c);
      } else {
        AppliedStep(web, w, blocks, c);
        GetsApplied(web, e, blocks[1..], c + |LinesOf(b)|);
        GetsJoined(web, w, m, b.repl, d, Applied(web, e, blocks[1..], c + |LinesOf(b)|).events);
      }
    }
  }

  // ----- What is left ----------------------------------------------------------------------------

  /** The number of blocks whose lines have all been read together with lines of the web file. */
  function Matched(web: seq<Line>, w: nat, blocks: seq<Block>): (n: nat)
    requires w <= |web|
    ensures n <= |blocks|
    decreases |blocks|
  {
    if blocks == [] then 0
    else
      var m := Place(web, w, blocks[0].first);
      var e := m + 1 + |blocks[0].more|;
      if m == |web| || e > |web| then 0 else 1 + Matched(web, e, blocks[1..])
  }

  /** How many lines of the web file precede the block that was not matched. */
  function Position(web: seq<Line>, w: nat, blocks: seq<Block>): (n: nat)
    requires w <= |web|
    ensures w <= n <= |web|
    decreases |blocks|
  {
    if blocks == [] then w
    else
      var m := Place(web, w, blocks[0].first);
      var e := m + 1 + |blocks[0].more|;
      if m == |web| || e > |web| then m else Position(web, e, blocks[1..])
  }

  /** The web file ends inside a block, just when an empty line is to be matched. */
  predicate EndsAtEmpty(web: seq<Line>, w: nat, blocks: seq<Block>)
    requires w <= |web| && Matched(web, w, blocks) < |blocks|
  {
    var n, m := Matched(web, w, blocks), Position(web, w, blocks);
    m < |web| && |web| - m - 1 < |blocks[n].more| && blocks[n].more[|web| - m - 1] == []
  }

  /** Nothing is left exactly if all blocks were matched, or if the web file ended inside a block just when
      an empty line was to be matched. */
  lemma {:induction false} LeftIff(web: seq<Line>, w: nat, blocks: seq<Block>, c: nat)
    requires w <= |web| && AllWellFormed(blocks)
    ensures Applied(web, w, blocks, c).left == [] <==>
            Matched(web, w, blocks) == |blocks| || EndsAtEmpty(web, w, blocks)
    decreases |blocks|
  {
    if blocks != [] {
      hide LinesOf, Unchanged, Replacement, Control, Without;
      var b, m := blocks[0], Place(web, w, blocks[0].first);
      var e := m + 1 + |b.more|;
      hide Place, Head, Applied;
      if m < |web| && e <= |web| {
        hide WellFormed, Folded, EndsAtEmpty;
        LeftIff(web, e, blocks[1..], c + |LinesOf(b)|);
        AppliedStep(web, w, blocks, c);
        EndsLater(web, w, blocks);
      } else {
        hide Matched;
        AppliedShort(web, w, blocks, c);
        EndsHere(web, w, blocks);
      }
    }
  }

  lemma EndsLater(web: seq<Line>, w: nat, blocks: seq<Block>)
    requires w <= |web| && blocks != []
    requires Place(web, w, blocks[0].first) + 1 + |blocks[0].more| <= |web|
    ensures var e := Place(web, w, blocks[0].first) + 1 + |blocks[0].more|;
            && Matched(web, w, blocks) == 1 + Matched(web, e, blocks[1..])
            && Position(web, w, blocks) == Position(web, e, blocks[1..])
            && (Matched(web, w, blocks) < |blocks| ==>
                EndsAtEmpty(web, w, blocks) == EndsAtEmpty(web, e, blocks[1..]))
  {
    hide Place;
  }

  lemma EndsHere(web: seq<Line>, w: nat, blocks: seq<Block>)
    requires w <= |web| && blocks != []
    requires Place(web, w, blocks[0].first) + 1 + |blocks[0].more| > |web|
    ensures Matched(web, w, blocks) == 0 && Position(web, w, blocks) == Place(web, w, blocks[0].first)
  {
    hide Place;
  }

  /** A change of two lines, the second of them empty, for a web of one line. */
  const EMPTY_SECOND := Block([], [AT, X], 0, [97], [[]], [AT, Y], [], [AT, Z])

  /** So a change block may go unmatched without anything being left.  `check_complete` does not complain then; the
      only sign is the message that the web file ended during a change. */
  lemma UnmatchedNotLeft()
    ensures WellFormed(EMPTY_SECOND)
    ensures Matched([[97]], 0, [EMPTY_SECOND]) == 0 && Applied([[97]], 0, [EMPTY_SECOND], 0).left == []
  {
    var web: seq<Line> := [[97]];
    assert Place(web, 0, EMPTY_SECOND.first) == 0;
    assert |EMPTY_SECOND.more| == 1;
  }

  /** What the merge of a well-formed change file leaves to be matched. */
  lemma LeftOfFile(web: seq<Line>, blocks: seq<Block>, tail: seq<Line>)
    requires AllWellFormed(blocks) && Without(tail, X)
    ensures Merged(web, FileOf(blocks, tail)).left != [] <==>
            Matched(web, 0, blocks) < |blocks| && !EndsAtEmpty(web, 0, blocks)
  {
    MergedBlocks(web, blocks, tail);
    LeftIff(web, 0, blocks, 0);
  }

  /** The block that was not matched does not fit in the rest of the web file. */
  lemma {:induction false} MatchedPosition(web: seq<Line>, w: nat, blocks: seq<Block>)
    requires w <= |web|
    ensures var n, m := Matched(web, w, blocks), Position(web, w, blocks);
            n < |blocks| ==> m == |web| || m + 1 + |blocks[n].more| > |web|
    decreases |blocks|
  {
    if blocks != [] {
      var m := Place(web, w, blocks[0].first);
      var e := m + 1 + |blocks[0].more|;
      if m < |web| && e <= |web| { MatchedPosition(web, e, blocks[1..]); }
    }
  }
}
