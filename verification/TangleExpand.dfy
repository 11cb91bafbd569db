/** The expansion of replacement texts by recursion on the nesting of section names, and the states of
    the stack machine that computes it. */
module TangleExpand {
  import opened Wrappers
  import opened TangleTokens

  /** `section_flag`, the link of the last text of a section. */
  const SECTION_FLAG: nat := 2500

  /** The replacement texts in the order of their definition, their `text_link`, and the `equiv` of every
      name: the number of its first text, or 0 when it was never defined. */
  datatype Program = Program(texts: seq<seq<Tok>>, link: seq<nat>, equiv: seq<nat>) {

    /** Text `t` belongs to a section (the link of a macro is 0). */
    predicate InSection(t: nat) {
      0 < t < |texts| && |link| == |texts| && link[t] != 0
    }

    ghost predicate Valid() {
      && |link| == |texts| <= SECTION_FLAG
      && (forall t | 0 <= t < |texts| :: AllEncodable(texts[t]))
      && (forall t: nat | InSection(t) :: link[t] == SECTION_FLAG || (t < link[t] && InSection(link[t])))
      && (forall n | 0 <= n < |equiv| :: equiv[n] != 0 ==> InSection(equiv[n]))
    }

    /** The first text of a section name, if the section is defined. */
    function Definition(n: nat): Option<nat> {
      if n < |equiv| && equiv[n] != 0 then Some(equiv[n]) else None
    }
  }

  /** What is emitted, whether it is complete (not so when the stack overflows), and how many steps the
      machine takes. */
  datatype Out = Out(events: seq<Event>, ok: bool, steps: nat)

  const Nothing := Out([], true, 0)

  function Then(a: Out, b: Out): Out {
    if a.ok then Out(a.events + b.events, b.ok, a.steps + b.steps) else a
  }

  function Emits(events: seq<Event>): Out {
    Out(events, true, if events == [] then 1 else |events|)
  }

  lemma ThenAssociative(a: Out, b: Out, c: Out)
    ensures Then(Then(a, b), c) == Then(a, Then(b, c))
  {
    assert a.events + b.events + c.events == a.events + (b.events + c.events);
  }

  lemma ThenNothing(a: Out)
    ensures Then(Nothing, a) == a && Then(a, Nothing) == a
  {
    assert [] + a.events == a.events && a.events + [] == a.events;
  }

  // ----- Macro definitions -----------------------------------------------------------------------

  predicate MacroTok(t: Tok) {
    t.Id? || t.Ch? || t.Quote?
  }

  /** The events of the tokens that call nothing; others do not occur in macros. */
  function PlainEvents(ts: seq<Tok>): seq<Event> {
    if ts == [] then [] else (if Plain(ts[0]) then TokEvents(ts[0]) else []) + PlainEvents(ts[1..])
  }

  /** A final newline of a macro text is disregarded. */
  function Trimmed(ts: seq<Tok>): seq<Tok> {
    if ts != [] && ts[|ts| - 1] == Ch(NEWLINE) then ts[..|ts| - 1] else ts
  }

  /** What `output_defs` emits for text `t`, which may be no macro. */
  function MacroAt(p: Program, t: nat): seq<Event>
    requires |p.link| == |p.texts| && t < |p.texts|
  {
    if p.link[t] == 0 then [Define] + PlainEvents(Trimmed(p.texts[t])) + [EndLine] else []
  }

  /** What `output_defs` emits for the texts from `t` on. */
  function MacrosFrom(p: Program, t: nat): seq<Event>
    requires |p.link| == |p.texts| && t <= |p.texts|
    decreases |p.texts| - t
  {
    if t == |p.texts| then []
    else
      MacroAt(p, t) + MacrosFrom(p, t + 1)
  }

  function Macros(p: Program): seq<Event>
    requires |p.link| == |p.texts|
  {
    if p.texts == [] then [] else MacrosFrom(p, 1)
  }

  // ----- Recursive expansion ---------------------------------------------------------------------

  /** The section number in force after the tokens. */
  function SectionAfter(ts: seq<Tok>, sec: nat): nat {
    if ts == [] then sec else SectionAfter(ts[1..], if ts[0].SecNum? then ts[0].n else sec)
  }

  /** One token, when `room` further levels fit on the stack. */
  function ExpandTok(p: Program, t: Tok, room: nat): Out
    requires p.Valid()
    decreases room, 0, 0
  {
    match t
    case SecRef(n) =>
      (match p.Definition(n)
       case None => Emits([])
       case Some(text) =>
         if room == 0 then Out([], false, 1) else Then(Emits([]), ExpandText(p, text, 0, p.texts[text], room - 1)))
    case Defs => if room == 0 then Out([], false, 1) else Emits(Macros(p))
    case _ => Emits(TokEvents(t))
  }

  function ExpandToks(p: Program, ts: seq<Tok>, room: nat): Out
    requires p.Valid()
    decreases room, 0, |ts|
  {
    if ts == [] then Nothing else Then(ExpandTok(p, ts[0], room), ExpandToks(p, ts[1..], room))
  }

  /** The rest `ts` of text `t`, the marker that closes section `sec`, and then the other texts of the
      same section. */
  function ExpandText(p: Program, t: nat, sec: nat, ts: seq<Tok>, room: nat): Out
    requires p.Valid() && p.InSection(t)
    decreases room, 1 + |p.texts| - t, 0
  {
    Then(ExpandToks(p, ts, room), ExpandEnd(p, t, SectionAfter(ts, sec), room))
  }

  function ExpandEnd(p: Program, t: nat, sec: nat, room: nat): Out
    requires p.Valid() && p.InSection(t)
    decreases room, |p.texts| - t, 1
  {
    Then(Emits(Closing(sec)),
         if p.link[t] < SECTION_FLAG then ExpandText(p, p.link[t], sec, p.texts[p.link[t]], room) else Nothing)
  }

  function Closing(sec: nat): seq<Event> {
    var v: int := sec;
    if sec == 0 then [] else [Marker(-v)]
  }

  /** A whole section: what is emitted from its first text on when `room` further levels fit. */
  function ExpandSection(p: Program, t: nat, room: nat): Out
    requires p.Valid() && p.InSection(t)
  {
    ExpandText(p, t, 0, p.texts[t], room)
  }

  // ----- The states of the stack machine ---------------------------------------------------------

  /** A level of output: a text, the section number in force, and the tokens still to come. */
  datatype Level = Level(text: nat, sec: nat, toks: seq<Tok>)

  /** `Active`: the current level, the rest of a string or constant that has been begun in it, the levels
      below and the number of levels that still fit. */
  datatype State =
    | Active(cur: Level, quote: Option<(Byte, seq<Byte>)>, below: seq<Level>, room: nat)
    | Finished
    | Overflowed

  ghost predicate StateValid(p: Program, s: State)
    requires p.Valid()
  {
    s.Active? ==>
      && p.InSection(s.cur.text) && AllEncodable(s.cur.toks)
      && forall i | 0 <= i < |s.below| :: p.InSection(s.below[i].text) && AllEncodable(s.below[i].toks)
  }

  /** What the levels below the current one will emit, the uppermost (last) first. */
  function RestBelow(p: Program, below: seq<Level>, room: nat): Out
    requires p.Valid() && forall i | 0 <= i < |below| :: p.InSection(below[i].text)
  {
    if below == [] then Nothing
    else
      var l := below[|below| - 1];
      Then(ExpandText(p, l.text, l.sec, l.toks, room), RestBelow(p, below[..|below| - 1], room + 1))
  }

  function QuoteRest(q: Option<(Byte, seq<Byte>)>): Out {
    match q
    case None => Nothing
    case Some((d, body)) => Emits(QuotedAll(body) + [Char(d)])
  }

  /** Everything the machine will emit from state `s` on. */
  function Rest(p: Program, s: State): Out
    requires p.Valid() && StateValid(p, s)
  {
    match s
    case Finished => Nothing
    case Overflowed => Out([], false, 0)
    case Active(cur, quote, below, room) =>
      Then(QuoteRest(quote), Then(ExpandText(p, cur.text, cur.sec, cur.toks, room), RestBelow(p, below, room + 1)))
  }

  /** From `s`, the machine emits `events` and is then in state `s'`. */
  ghost predicate Moves(p: Program, s: State, events: seq<Event>, s': State)
    requires p.Valid() && StateValid(p, s) && StateValid(p, s')
  {
    && Rest(p, s).events == events + Rest(p, s').events
    && Rest(p, s).ok == Rest(p, s').ok
    && Rest(p, s').steps < Rest(p, s).steps
  }

  lemma MovesThen(p: Program, s: State, a: Out, s': State)
    requires p.Valid() && StateValid(p, s) && StateValid(p, s')
    requires a.ok && a.steps > 0 && Rest(p, s) == Then(a, Rest(p, s'))
    ensures Moves(p, s, a.events, s')
  {
  }

  /** A token that calls nothing, other than a string or constant, is emitted in one step. */
  lemma MovePlain(p: Program, s: State)
    requires p.Valid() && s.Active? && StateValid(p, s) && s.quote.None? && s.cur.toks != []
    requires var t := s.cur.toks[0]; Plain(t) && !t.Quote?
    ensures var t := s.cur.toks[0];
            var s' := s.(cur := Level(s.cur.text, if t.SecNum? then t.n else s.cur.sec, s.cur.toks[1..]));
            StateValid(p, s') && Moves(p, s, TokEvents(t), s')
  {
    var t := s.cur.toks[0];
    var s' := s.(cur := Level(s.cur.text, if t.SecNum? then t.n else s.cur.sec, s.cur.toks[1..]));
    FirstToken(p, s.cur, s.room);
    SplitFirst(p, s, Emits(TokEvents(t)), s'.cur);
  }

  /** The first token of a level comes first in its expansion. */
  lemma FirstToken(p: Program, l: Level, room: nat)
    requires p.Valid() && p.InSection(l.text) && l.toks != []
    ensures var t := l.toks[0];
            ExpandText(p, l.text, l.sec, l.toks, room) ==
            Then(ExpandTok(p, t, room),
                 ExpandText(p, l.text, if t.SecNum? then t.n else l.sec, l.toks[1..], room))
  {
    var t := l.toks[0];
    var sec' := if t.SecNum? then t.n else l.sec;
    ThenAssociative(ExpandTok(p, t, room), ExpandToks(p, l.toks[1..], room),
                    ExpandEnd(p, l.text, SectionAfter(l.toks[1..], sec'), room));
  }

  lemma SplitFirst(p: Program, s: State, a: Out, cur': Level)
    requires p.Valid() && s.Active? && StateValid(p, s) && s.quote.None?
    requires p.InSection(cur'.text) && AllEncodable(cur'.toks)
    requires a.ok && a.steps > 0
    requires ExpandText(p, s.cur.text, s.cur.sec, s.cur.toks, s.room) ==
             Then(a, ExpandText(p, cur'.text, cur'.sec, cur'.toks, s.room))
    ensures StateValid(p, s.(cur := cur')) && Moves(p, s, a.events, s.(cur := cur'))
  {
    var below := RestBelow(p, s.below, s.room + 1);
    var e := ExpandText(p, cur'.text, cur'.sec, cur'.toks, s.room);
    ThenAssociative(a, e, below);
    ThenNothing(Then(Then(a, e), below));
    ThenNothing(Then(e, below));
    MovesThen(p, s, a, s.(cur := cur'));
  }

  // ----- The moves with strings and constants ----------------------------------------------------

  lemma QuoteMove(p: Program, s: State, s': State, e: Event, rest: Out)
    requires p.Valid() && s.Active? && s'.Active? && StateValid(p, s) && StateValid(p, s')
    requires s'.below == s.below && s'.room == s.room
    requires Then(QuoteRest(s.quote), ExpandText(p, s.cur.text, s.cur.sec, s.cur.toks, s.room)) == Then(Emits([e]), rest)
    requires Then(QuoteRest(s'.quote), ExpandText(p, s'.cur.text, s'.cur.sec, s'.cur.toks, s.room)) == rest
    ensures Moves(p, s, [e], s')
  {
    var below := RestBelow(p, s.below, s.room + 1);
    ThenAssociative(QuoteRest(s.quote), ExpandText(p, s.cur.text, s.cur.sec, s.cur.toks, s.room), below);
    ThenAssociative(QuoteRest(s'.quote), ExpandText(p, s'.cur.text, s'.cur.sec, s'.cur.toks, s.room), below);
    ThenAssociative(Emits([e]), rest, below);
    MovesThen(p, s, Emits([e]), s');
  }

  /** The delimiter that begins a string or constant. */
  lemma MoveQuoteBegin(p: Program, s: State)
    requires p.Valid() && s.Active? && StateValid(p, s) && s.quote.None? && s.cur.toks != [] && s.cur.toks[0].Quote?
    ensures var t := s.cur.toks[0];
            var s' := s.(cur := s.cur.(toks := s.cur.toks[1..]), quote := Some((t.delim, t.body)));
            StateValid(p, s') && Moves(p, s, [Char(t.delim)], s')
  {
    var t := s.cur.toks[0];
    var s' := s.(cur := s.cur.(toks := s.cur.toks[1..]), quote := Some((t.delim, t.body)));
    FirstToken(p, s.cur, s.room);
    var e := ExpandText(p, s.cur.text, s.cur.sec, s.cur.toks[1..], s.room);
    var first, tail := Emits([Char(t.delim)]), QuoteRest(s'.quote);
    assert Emits(TokEvents(t)) == Then(first, tail) by {
      assert TokEvents(t) == [Char(t.delim)] + (QuotedAll(t.body) + [Char(t.delim)]);
    }
    ThenAssociative(first, tail, e);
    ThenNothing(Then(Emits(TokEvents(t)), e));
    QuoteMove(p, s, s', Char(t.delim), Then(tail, e));
  }

  /** A byte inside a string or constant. */
  lemma MoveQuoted(p: Program, s: State)
    requires p.Valid() && s.Active? && StateValid(p, s) && s.quote.Some? && s.quote.value.1 != []
    ensures var (d, body) := s.quote.value;
            var s' := s.(quote := Some((d, body[1..])));
            StateValid(p, s') && Moves(p, s, [Quoted(body[0])], s')
  {
    var (d, body) := s.quote.value;
    var s' := s.(quote := Some((d, body[1..])));
    var e := ExpandText(p, s.cur.text, s.cur.sec, s.cur.toks, s.room);
    var first, tail := Emits([Quoted(body[0])]), QuoteRest(s'.quote);
    assert QuoteRest(s.quote) == Then(first, tail) by {
      assert QuotedAll(body) + [Char(d)] == [Quoted(body[0])] + (QuotedAll(body[1..]) + [Char(d)]);
    }
    ThenAssociative(first, tail, e);
    QuoteMove(p, s, s', Quoted(body[0]), Then(tail, e));
  }

  /** The delimiter that ends a string or constant. */
  lemma MoveQuoteEnd(p: Program, s: State)
    requires p.Valid() && s.Active? && StateValid(p, s) && s.quote.Some? && s.quote.value.1 == []
    ensures var s' := s.(quote := None); StateValid(p, s') && Moves(p, s, [Char(s.quote.value.0)], s')
  {
    var e := ExpandText(p, s.cur.text, s.cur.sec, s.cur.toks, s.room);
    var d := s.quote.value.0;
    assert QuoteRest(s.quote) == Emits([Char(d)]) by { assert [] + [Char(d)] == [Char(d)]; }
    ThenNothing(e);
    QuoteMove(p, s, s.(quote := None), Char(d), e);
  }

  // ----- The moves that change levels ------------------------------------------------------------

  /** A reference to a name that was never defined contributes nothing. */
  lemma MoveSkip(p: Program, s: State)
    requires p.Valid() && s.Active? && StateValid(p, s) && s.quote.None? && s.cur.toks != []
    requires s.cur.toks[0].SecRef? && p.Definition(s.cur.toks[0].name).None?
    ensures var s' := s.(cur := s.cur.(toks := s.cur.toks[1..])); StateValid(p, s') && Moves(p, s, [], s')
  {
    FirstToken(p, s.cur, s.room);
    SplitFirst(p, s, Emits([]), s.cur.(toks := s.cur.toks[1..]));
  }

  lemma MoveMacros(p: Program, s: State)
    requires p.Valid() && s.Active? && StateValid(p, s) && s.quote.None? && s.cur.toks != []
    requires s.cur.toks[0].Defs? && s.room > 0
    ensures var s' := s.(cur := s.cur.(toks := s.cur.toks[1..])); StateValid(p, s') && Moves(p, s, Macros(p), s')
  {
    FirstToken(p, s.cur, s.room);
    SplitFirst(p, s, Emits(Macros(p)), s.cur.(toks := s.cur.toks[1..]));
  }

  /** `push_level` without room. */
  lemma MoveOverflow(p: Program, s: State)
    requires p.Valid() && s.Active? && StateValid(p, s) && s.quote.None? && s.cur.toks != [] && s.room == 0
    requires s.cur.toks[0].Defs? || (s.cur.toks[0].SecRef? && p.Definition(s.cur.toks[0].name).Some?)
    ensures Moves(p, s, [], Overflowed)
  {
    FirstToken(p, s.cur, s.room);
  }

  /** `push_level`: the tokens of the name come before the rest of the current level. */
  lemma MoveCall(p: Program, s: State)
    requires p.Valid() && s.Active? && StateValid(p, s) && s.quote.None? && s.cur.toks != [] && s.room > 0
    requires s.cur.toks[0].SecRef? && p.Definition(s.cur.toks[0].name).Some?
    ensures var text := p.Definition(s.cur.toks[0].name).value;
            var s' := Active(Level(text, 0, p.texts[text]), None, s.below + [s.cur.(toks := s.cur.toks[1..])], s.room - 1);
            StateValid(p, s') && Moves(p, s, [], s')
  {
    var text := p.Definition(s.cur.toks[0].name).value;
    var back := s.cur.(toks := s.cur.toks[1..]);
    var s' := Active(Level(text, 0, p.texts[text]), None, s.below + [back], s.room - 1);
    FirstToken(p, s.cur, s.room);
    var called := ExpandText(p, text, 0, p.texts[text], s.room - 1);
    var rest := ExpandText(p, back.text, back.sec, back.toks, s.room);
    var below := RestBelow(p, s.below, s.room + 1);
    assert (s.below + [back])[..|s.below|] == s.below;
    assert RestBelow(p, s'.below, s.room) == Then(rest, below);
    ThenAssociative(Emits([]), called, rest);
    ThenAssociative(Emits([]), Then(called, rest), below);
    ThenAssociative(called, rest, below);
    ThenNothing(Then(called, Then(rest, below)));
    ThenNothing(Rest(p, s));
    MovesThen(p, s, Emits([]), s');
  }

  /** The state after the end of a text: the next text of the section, or the level below. */
  function Popped(p: Program, s: State): State
    requires s.Active? && p.InSection(s.cur.text)
  {
    var next := p.link[s.cur.text];
    if next < SECTION_FLAG && next < |p.texts| then
      Active(Level(next, s.cur.sec, p.texts[next]), None, s.below, s.room)
    else if s.below == [] then Finished
    else Active(s.below[|s.below| - 1], None, s.below[..|s.below| - 1], s.room + 1)
  }

  /** What follows the closing marker of the current text within its own section. */
  function NextInSection(p: Program, l: Level, room: nat): Out
    requires p.Valid() && p.InSection(l.text)
  {
    var next := p.link[l.text];
    if next < SECTION_FLAG then ExpandText(p, next, l.sec, p.texts[next], room) else Nothing
  }

  lemma EndRest(p: Program, s: State)
    requires p.Valid() && s.Active? && StateValid(p, s) && s.quote.None? && s.cur.toks == []
    ensures Rest(p, s) == Then(Emits(Closing(s.cur.sec)),
                               Then(NextInSection(p, s.cur, s.room), RestBelow(p, s.below, s.room + 1)))
  {
    var below, end := RestBelow(p, s.below, s.room + 1), ExpandEnd(p, s.cur.text, s.cur.sec, s.room);
    ThenNothing(end);
    assert ExpandText(p, s.cur.text, s.cur.sec, [], s.room) == end;
    ThenNothing(Then(end, below));
    ThenAssociative(Emits(Closing(s.cur.sec)), NextInSection(p, s.cur, s.room), below);
  }

  lemma PoppedRest(p: Program, s: State)
    requires p.Valid() && s.Active? && StateValid(p, s) && s.quote.None? && s.cur.toks == []
    ensures StateValid(p, Popped(p, s))
    ensures Rest(p, Popped(p, s)) == Then(NextInSection(p, s.cur, s.room), RestBelow(p, s.below, s.room + 1))
  {
    var below := RestBelow(p, s.below, s.room + 1);
    ThenNothing(below);
    ThenNothing(Then(NextInSection(p, s.cur, s.room), below));
  }

  /** `pop_level` at the end of a text. */
  lemma MovePop(p: Program, s: State)
    requires p.Valid() && s.Active? && StateValid(p, s) && s.quote.None? && s.cur.toks == []
    ensures StateValid(p, Popped(p, s)) && Moves(p, s, Closing(s.cur.sec), Popped(p, s))
  {
    EndRest(p, s);
    PoppedRest(p, s);
    MovesThen(p, s, Emits(Closing(s.cur.sec)), Popped(p, s));
  }
}
