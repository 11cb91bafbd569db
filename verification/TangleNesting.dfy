/** The section markers in CTANGLE's output nest like parentheses. */
module TangleNesting {
  import opened Wrappers
  import opened TangleTokens
  import opened TangleExpand

  /** Reads the markers of `events` like parentheses, with the sections `open` open at the beginning:
      the sections open at the end, None when a closing marker does not fit. */
  function Reads(events: seq<Event>, open: seq<int>): Option<seq<int>>
    decreases |events|
  {
    if events == [] then Some(open)
    else
      var n := |events| - 1;
      match Reads(events[..n], open)
      case None => None
      case Some(o) => ReadsOne(events[n], o)
  }

  function ReadsOne(e: Event, open: seq<int>): Option<seq<int>> {
    if !e.Marker? then Some(open)
    else if e.v > 0 then Some(open + [e.v])
    else if open != [] && open[|open| - 1] == -e.v then Some(open[..|open| - 1])
    else None
  }

  lemma {:induction false} ReadsAppend(a: seq<Event>, b: seq<Event>, open: seq<int>)
    ensures Reads(a + b, open) == match Reads(a, open) case None => None case Some(o) => Reads(b, o)
  {
    if b == [] {
      assert a + b == a;
    } else {
      assert (a + b)[..|a + b| - 1] == a + b[..|b| - 1];
      ReadsAppend(a, b[..|b| - 1], open);
    }
  }

  predicate NoMarkers(events: seq<Event>) {
    forall i | 0 <= i < |events| :: !events[i].Marker?
  }

  lemma {:induction false} ReadsUnmarked(events: seq<Event>, open: seq<int>)
    requires NoMarkers(events)
    ensures Reads(events, open) == Some(open)
  {
    if events != [] {
      ReadsUnmarked(events[..|events| - 1], open);
    }
  }

  predicate Unnumbered(ts: seq<Tok>) {
    forall i | 0 <= i < |ts| :: !ts[i].SecNum?
  }

  /** What phase one writes: every text of a section begins with its section number, which occurs
      nowhere else in it, and macro texts hold macro tokens. */
  ghost predicate Numbered(p: Program) {
    && p.Valid()
    && (forall t: nat | p.InSection(t) ::
          p.texts[t] != [] && p.texts[t][0].SecNum? && p.texts[t][0].n > 0 && Unnumbered(p.texts[t][1..]))
    && (forall t | 0 < t < |p.texts| && p.link[t] == 0 :: forall i | 0 <= i < |p.texts[t]| :: MacroTok(p.texts[t][i]))
  }

  lemma {:induction false} QuotedUnmarked(body: seq<Byte>)
    ensures NoMarkers(QuotedAll(body))
  {
    if body != [] { QuotedUnmarked(body[1..]); }
  }

  lemma TokUnmarked(t: Tok)
    requires Plain(t) && !t.SecNum?
    ensures NoMarkers(TokEvents(t))
  {
    if t.Quote? { QuotedUnmarked(t.body); }
  }

  lemma {:induction false} PlainUnmarked(ts: seq<Tok>)
    requires forall i | 0 <= i < |ts| :: MacroTok(ts[i])
    ensures NoMarkers(PlainEvents(ts))
  {
    if ts != [] {
      TokUnmarked(ts[0]);
      PlainUnmarked(ts[1..]);
    }
  }

  lemma OneMacro(p: Program, t: nat)
    requires Numbered(p) && 1 <= t < |p.texts|
    ensures NoMarkers(MacroAt(p, t))
  {
    hide PlainEvents;
    if p.link[t] == 0 { PlainUnmarked(Trimmed(p.texts[t])); }
  }

  lemma UnmarkedNone()
    ensures NoMarkers([])
  {
  }

  lemma UnmarkedAppend(a: seq<Event>, b: seq<Event>)
    requires NoMarkers(a) && NoMarkers(b)
    ensures NoMarkers(a + b)
  {
  }

  lemma {:induction false} MacrosUnmarked(p: Program, t: nat)
    requires |p.link| == |p.texts| && t <= |p.texts|
    requires forall u | t <= u < |p.texts| :: NoMarkers(MacroAt(p, u))
    ensures NoMarkers(MacrosFrom(p, t))
    decreases |p.texts| - t
  {
    hide MacroAt, NoMarkers;
    if t == |p.texts| {
      UnmarkedNone();
    } else {
      MacrosUnmarked(p, t + 1);
      UnmarkedAppend(MacroAt(p, t), MacrosFrom(p, t + 1));
    }
  }

  lemma AllMacrosUnmarked(p: Program)
    requires Numbered(p) && p.texts != []
    ensures NoMarkers(MacrosFrom(p, 1))
  {
    hide MacroAt, NoMarkers, MacrosFrom;
    forall u | 1 <= u < |p.texts| ensures NoMarkers(MacroAt(p, u)) { OneMacro(p, u); }
    MacrosUnmarked(p, 1);
  }

  /** Reading an output that may be cut off by an overflow: complete output leaves the open sections as
      they were, incomplete output may leave more of them open. */
  ghost predicate Balanced(e: Out, open: seq<int>) {
    var r := Reads(e.events, open);
    r.Some? && if e.ok then r.value == open else open <= r.value
  }

  lemma ReadsThen(a: Out, b: Out, open: seq<int>, mid: seq<int>)
    requires a.ok ==> Reads(a.events, open) == Some(mid)
    ensures a.ok ==> Reads(Then(a, b).events, open) == Reads(b.events, mid)
  {
    ReadsAppend(a.events, b.events, open);
  }

  lemma BalancedPlain(p: Program, t: Tok, room: nat, open: seq<int>)
    requires p.Valid() && Plain(t) && !t.SecNum?
    ensures Balanced(ExpandTok(p, t, room), open)
  {
    TokUnmarked(t);
    ReadsUnmarked(TokEvents(t), open);
    assert ExpandTok(p, t, room) == Emits(TokEvents(t));
  }

  lemma BalancedDefs(p: Program, room: nat, open: seq<int>)
    requires Numbered(p)
    ensures Balanced(ExpandTok(p, Defs, room), open)
  {
    if p.texts != [] { AllMacrosUnmarked(p); }
    ReadsUnmarked(Macros(p), open);
  }

  /** A reference that is expanded emits what its definition emits. */
  lemma RefEvents(p: Program, n: nat, text: nat, room: nat)
    requires p.Valid() && p.Definition(n) == Some(text) && room > 0
    ensures ExpandTok(p, SecRef(n), room).ok == ExpandText(p, text, 0, p.texts[text], room - 1).ok
    ensures ExpandTok(p, SecRef(n), room).events == ExpandText(p, text, 0, p.texts[text], room - 1).events
  {
  }

  lemma BalancedAlike(e: Out, f: Out, open: seq<int>)
    requires Balanced(f, open) && e.events == f.events && e.ok == f.ok
    ensures Balanced(e, open)
  {
  }

  lemma {:induction false} BalancedCall(p: Program, n: nat, text: nat, room: nat, open: seq<int>)
    requires Numbered(p) && p.Definition(n) == Some(text) && room > 0
    ensures Balanced(ExpandTok(p, SecRef(n), room), open)
    decreases room, 0, 0, 0
  {
    BalancedText(p, text, 0, room - 1, open);
    RefEvents(p, n, text, room);
    BalancedAlike(ExpandTok(p, SecRef(n), room), ExpandText(p, text, 0, p.texts[text], room - 1), open);
  }

  /** A reference that is not expanded: there is no definition, or no room. */
  lemma BalancedSkip(p: Program, n: nat, room: nat, open: seq<int>)
    requires p.Valid() && (p.Definition(n).None? || room == 0)
    ensures Balanced(ExpandTok(p, SecRef(n), room), open)
  {
    assert ExpandTok(p, SecRef(n), room).events == [];
  }

  lemma {:induction false} BalancedTok(p: Program, t: Tok, room: nat, open: seq<int>)
    requires Numbered(p) && !t.SecNum?
    ensures Balanced(ExpandTok(p, t, room), open)
    decreases room, 0, 0, 1
  {
    if t.SecRef? {
      var d := p.Definition(t.name);
      if d.None? || room == 0 {
        BalancedSkip(p, t.name, room, open);
      } else {
        BalancedCall(p, t.name, d.value, room, open);
      }
    } else if t.Defs? {
      BalancedDefs(p, room, open);
    } else {
      BalancedPlain(p, t, room, open);
    }
  }

  lemma {:induction false} BalancedToks(p: Program, ts: seq<Tok>, room: nat, open: seq<int>)
    requires Numbered(p) && Unnumbered(ts)
    ensures Balanced(ExpandToks(p, ts, room), open)
    decreases room, 0, 1, |ts|
  {
    if ts != [] {
      BalancedTok(p, ts[0], room, open);
      BalancedToks(p, ts[1..], room, open);
      ReadsThen(ExpandTok(p, ts[0], room), ExpandToks(p, ts[1..], room), open, open);
    }
  }

  lemma {:induction false} SectionStays(ts: seq<Tok>, sec: nat)
    requires Unnumbered(ts)
    ensures SectionAfter(ts, sec) == sec
  {
    if ts != [] { SectionStays(ts[1..], sec); }
  }

  /** Every whole text, with the texts of its section after it, is balanced: its marker is opened first
      and closed last, and all markers in between nest. */
  lemma {:induction false} BalancedText(p: Program, t: nat, sec: nat, room: nat, open: seq<int>)
    requires Numbered(p) && p.InSection(t)
    ensures Balanced(ExpandText(p, t, sec, p.texts[t], room), open)
    decreases room, 1 + |p.texts| - t, 0, 0
  {
    var n, ts := p.texts[t][0].n, p.texts[t][1..];
    FirstToken(p, Level(t, sec, p.texts[t]), room);
    var inside := ExpandToks(p, ts, room);
    var closing := Emits(Closing(n));
    var next := if p.link[t] < SECTION_FLAG then ExpandText(p, p.link[t], n, p.texts[p.link[t]], room) else Nothing;
    SectionStays(ts, n);
    assert ExpandText(p, t, sec, p.texts[t], room) == Then(Emits([Marker(n)]), Then(inside, Then(closing, next)));
    BalancedToks(p, ts, room, open + [n]);
    if p.link[t] < SECTION_FLAG { BalancedText(p, p.link[t], n, room, open); }
    MarkedBalanced(n, inside, next, open);
  }

  lemma MarkedBalanced(n: nat, inside: Out, next: Out, open: seq<int>)
    requires n > 0 && Balanced(inside, open + [n]) && Balanced(next, open)
    ensures Balanced(Then(Emits([Marker(n)]), Then(inside, Then(Emits(Closing(n)), next))), open)
  {
    var rest := Then(Emits(Closing(n)), next);
    assert [Marker(n)][..0] == [];
    assert Reads([Marker(n)], open) == Some(open + [n]);
    ReadsThen(Emits([Marker(n)]), Then(inside, rest), open, open + [n]);
    if inside.ok {
      ReadsThen(inside, rest, open + [n], open + [n]);
      assert Closing(n)[..0] == [] && (open + [n])[..|open|] == open;
      assert Reads(Closing(n), open + [n]) == Some(open);
      ReadsThen(Emits(Closing(n)), next, open + [n], open);
    }
  }
}
