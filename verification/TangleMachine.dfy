/** CTANGLE's output routine as it runs: it reads packed bytes, keeps the interrupted levels on a stack of
    bounded size and emits one item per call of `get_output`.  It is proved to emit exactly the recursive
    expansion. */
module TangleMachine {
  import opened Wrappers
  import opened TangleTokens
  import opened TangleExpand

  /** `output_state` */
  datatype Saved = Saved(byte: nat, end: nat, repl: nat, section: nat)

  /** The bytes at `from` up to `end` represent the tokens `ts`. */
  ghost predicate Holds(mem: seq<Byte>, from: nat, end: nat, ts: seq<Tok>) {
    from <= end <= |mem| && AllEncodable(ts) && mem[from..end] == EncodeAll(ts)
  }

  /** The store of phase one: texts packed one after the other. */
  ghost predicate Stored(p: Program, mem: seq<Byte>, start: seq<nat>) {
    && p.Valid()
    && |start| == |p.texts| + 1
    && (forall t | 0 <= t < |p.texts| :: Holds(mem, start[t], start[t + 1], p.texts[t]))
    && (forall t | 0 < t < |p.texts| && p.link[t] == 0 :: forall i | 0 <= i < |p.texts[t]| :: MacroTok(p.texts[t][i]))
  }

  /** Reading one token that starts at `from`. */
  lemma ReadToken(mem: seq<Byte>, from: nat, end: nat, ts: seq<Tok>)
    requires Holds(mem, from, end, ts) && ts != []
    ensures var n := |Encode(ts[0])|;
            && from + n <= end && DecodeOne(mem[from..end]) == Some((ts[0], n))
            && Holds(mem, from + n, end, ts[1..])
  {
    var n := |Encode(ts[0])|;
    DecodeEncode(ts[0], EncodeAll(ts[1..]));
    assert mem[from..end][n..] == mem[from + n..end];
  }

  lemma FirstBytes(mem: seq<Byte>, from: nat, end: nat, ts: seq<Tok>)
    requires Holds(mem, from, end, ts) && ts != []
    ensures Encodable(ts[0]) && from + |Encode(ts[0])| <= end <= |mem| && mem[from..from + |Encode(ts[0])|] == Encode(ts[0])
  {
    hide Encode;
    var n := |Encode(ts[0])|;
    assert mem[from..end][..n] == Encode(ts[0]);
    assert mem[from..from + n] == mem[from..end][..n];
  }

  lemma LastToken(mem: seq<Byte>, from: nat, end: nat, ts: seq<Tok>)
    requires Holds(mem, from, end, ts) && from < end && (forall i | 0 <= i < |ts| :: MacroTok(ts[i]))
    ensures from + 1 == end && mem[from] == NEWLINE <==> ts == [Ch(NEWLINE)]
  {
    NothingLeft(mem, from, end, ts);
    FirstBytes(mem, from, end, ts);
    ReadToken(mem, from, end, ts);
    NothingLeft(mem, from + |Encode(ts[0])|, end, ts[1..]);
  }

  lemma QuoteParts(mem: seq<Byte>, from: nat, d: Byte, body: seq<Byte>)
    requires from + |body| + 2 <= |mem| && mem[from..from + (|body| + 2)] == [d] + body + [d]
    ensures mem[from] == d && mem[from + 1..from + 1 + |body| + 1] == body + [d]
  {
    var s := mem[from..from + (|body| + 2)];
    assert s[0] == mem[from] && s[1..] == mem[from + 1..from + 1 + |body| + 1];
    assert ([d] + body + [d])[1..] == body + [d];
  }

  lemma NothingLeft(mem: seq<Byte>, from: nat, end: nat, ts: seq<Tok>)
    requires Holds(mem, from, end, ts)
    ensures from == end <==> ts == []
  {
    if ts != [] { ReadToken(mem, from, end, ts); }
  }

  lemma AppendOne(a: seq<Event>, e: Event, b: seq<Event>)
    ensures (a + [e]) + b == a + ([e] + b)
  {
  }

  class Machine {
    const tokMem: seq<Byte>
    const tokStart: seq<nat>
    const textLink: seq<nat>
    const equiv: seq<nat>
    const stackSize: nat
    ghost const prog: Program

    var curByte: nat
    var curEnd: nat
    var curRepl: nat
    var curSection: nat
    var stack: seq<Saved>
    var stackPtr: nat
    var overflowed: bool
    var outState: OutState
    var out: seq<Event>

    /** The state before phase two, over the store of phase one. */
    constructor (tokMem: seq<Byte>, tokStart: seq<nat>, textLink: seq<nat>, equiv: seq<nat>, stackSize: nat, ghost p: Program)
      requires Stored(p, tokMem, tokStart) && textLink == p.link && equiv == p.equiv
      ensures Static() && prog == p && this.stackSize == stackSize
      ensures out == [] && outState == Normal && !overflowed
    {
      this.tokMem, this.tokStart, this.textLink, this.equiv := tokMem, tokStart, textLink, equiv;
      this.stackSize, prog := stackSize, p;
      curByte, curEnd, curRepl, curSection, stack, stackPtr := 0, 0, 0, 0, [], 0;
      overflowed, outState, out := false, Normal, [];
    }

    /** The tokens of level `l` are represented by the bytes of the saved level `s`. */
    ghost predicate Represents(s: Saved, l: Level) {
      s.repl == l.text && s.section == l.sec && Holds(tokMem, s.byte, s.end, l.toks)
    }

    ghost predicate Static() {
      Stored(prog, tokMem, tokStart) && textLink == prog.link && equiv == prog.equiv
    }

    /** Bytes from `curByte` to `curEnd` are the rest of a string or constant, and the tokens `ts`. */
    ghost predicate Reading(quote: Option<(Byte, seq<Byte>)>, ts: seq<Tok>)
      reads this
    {
      && (outState.Verbatim? <==> quote.Some?)
      && match quote
         case None => Holds(tokMem, curByte, curEnd, ts)
         case Some((d, body)) =>
           && Encodable(Quote(d, body))
           && curByte + |body| + 1 <= curEnd <= |tokMem|
           && tokMem[curByte..curByte + |body| + 1] == body + [d]
           && Holds(tokMem, curByte + |body| + 1, curEnd, ts)
    }

    ghost predicate Current(cur: Level, quote: Option<(Byte, seq<Byte>)>)
      reads this
    {
      curRepl == cur.text && curSection == cur.sec && Reading(quote, cur.toks)
    }

    /** The fields represent state `s` of the abstract machine. */
    ghost predicate Mirrors(s: State)
      reads this
    {
      match s
      case Overflowed => overflowed
      case Finished => !overflowed && stackPtr == 0 && !outState.Verbatim?
      case Active(cur, quote, below, room) =>
        && !overflowed && stackPtr == |stack| + 1 && stackPtr + room == stackSize
        && Current(cur, quote)
        && |below| == |stack|
        && forall i | 0 <= i < |stack| :: Represents(stack[i], below[i])
    }

    /** `out_char`, or `C_putc` for a byte inside a string or constant. */
    method Emit(e: Event)
      modifies `out, `outState
      ensures out == old(out) + [e] && outState == StateAfter(old(outState), e)
    {
      out := out + [e];
      outState := StateAfter(outState, e);
    }

    // ----- Macro definitions ---------------------------------------------------------------------

    /** What a partly read macro text will still emit. */
    static ghost function MacroRest(quote: Option<(Byte, seq<Byte>)>, ts: seq<Tok>): seq<Event> {
      QuoteRest(quote).events + PlainEvents(Trimmed(ts))
    }

    static lemma TrimmedTail(ts: seq<Tok>)
      requires ts != [] && ts != [Ch(NEWLINE)]
      ensures Trimmed(ts) == [ts[0]] + Trimmed(ts[1..])
    {
    }

    /** One byte inside a string or constant, or its end. */
    method QuotedByte(ghost quote: (Byte, seq<Byte>), ghost ts: seq<Tok>) returns (ghost quote': Option<(Byte, seq<Byte>)>)
      requires Reading(Some(quote), ts)
      modifies `curByte, `out, `outState
      ensures Reading(quote', ts)
      ensures quote' == if quote.1 == [] then None else Some((quote.0, quote.1[1..]))
      ensures out == old(out) + [if quote.1 == [] then Char(quote.0) else Quoted(quote.1[0])]
    {
      hide Holds, EncodeAll, Encode;
      ghost var (d, body) := quote;
      assert (body + [d])[0] == tokMem[curByte];
      var a := tokMem[curByte];
      curByte := curByte + 1;
      if a != STRING && a != CONSTANT && a != NEWLINE {
        out := out + [Put(a)];
      } else {
        Emit(Char(a));
      }
      quote' := if body == [] then None else Some((d, body[1..]));
      if body != [] {
        assert tokMem[curByte..curByte + |body|] == tokMem[old(curByte)..old(curByte) + |body| + 1][1..];
        assert (body + [d])[1..] == body[1..] + [d];
      }
    }

    /** A token of one byte, or the delimiter that begins a string or constant. */
    method SingleByte(ghost ts: seq<Tok>) returns (ghost quote': Option<(Byte, seq<Byte>)>)
      requires Reading(None, ts) && ts != [] && (ts[0].Ch? || ts[0].Quote?)
      modifies `curByte, `out, `outState
      ensures curByte == old(curByte) + 1
      ensures Reading(quote', ts[1..])
      ensures quote' == if ts[0].Ch? then None else Some((ts[0].delim, ts[0].body))
      ensures out == old(out) + [Char(if ts[0].Ch? then ts[0].c else ts[0].delim)]
    {
      hide Holds, EncodeAll, DecodeOne, Encode;
      if ts[0].Quote? { QuoteBytes(curByte, ts); } else { CharByte(curByte, ts); }
      var a := tokMem[curByte];
      curByte := curByte + 1;
      Emit(Char(a));
      quote' := if ts[0].Ch? then None else Some((ts[0].delim, ts[0].body));
    }

    lemma CharByte(from: nat, ts: seq<Tok>)
      requires Holds(tokMem, from, curEnd, ts) && ts != [] && ts[0].Ch?
      ensures Encodable(ts[0]) && from < curEnd <= |tokMem| && tokMem[from] == ts[0].c
      ensures Holds(tokMem, from + 1, curEnd, ts[1..])
    {
      hide Holds, EncodeAll, DecodeOne;
      ReadToken(tokMem, from, curEnd, ts);
      FirstBytes(tokMem, from, curEnd, ts);
    }

    lemma QuoteBytes(from: nat, ts: seq<Tok>)
      requires Holds(tokMem, from, curEnd, ts) && ts != [] && ts[0].Quote?
      ensures var (d, body) := (ts[0].delim, ts[0].body);
              && Encodable(Quote(d, body)) && from + 1 + |body| + 1 <= curEnd <= |tokMem|
              && tokMem[from] == d
              && tokMem[from + 1..from + 1 + |body| + 1] == body + [d]
              && Holds(tokMem, from + 1 + |body| + 1, curEnd, ts[1..])
    {
      hide Holds, EncodeAll, DecodeOne;
      ReadToken(tokMem, from, curEnd, ts);
      FirstBytes(tokMem, from, curEnd, ts);
      QuoteParts(tokMem, from, ts[0].delim, ts[0].body);
    }

    /** A token of two bytes that names an identifier. */
    method IdentifierItem(ghost ts: seq<Tok>)
      requires Reading(None, ts) && ts != [] && ts[0].Id?
      modifies `curByte, `out, `outState
      ensures curByte == old(curByte) + 2 && Reading(None, ts[1..])
      ensures out == old(out) + [Identifier(ts[0].name)]
    {
      ReadToken(tokMem, curByte, curEnd, ts);
      var a := Value(tokMem[curByte], tokMem[curByte + 1]);
      curByte := curByte + 2;
      Emit(Identifier(a));
    }

    /** The first item of a token of a macro text. */
    method MacroToken(ghost ts: seq<Tok>) returns (ghost quote: Option<(Byte, seq<Byte>)>, ghost e: Event)
      requires Reading(None, ts) && curByte < curEnd && AllMacro(ts) && ts != [Ch(NEWLINE)]
      modifies `curByte, `out, `outState
      ensures curByte > old(curByte) && ts != [] && Reading(quote, ts[1..])
      ensures out == old(out) + [e] && TokEvents(ts[0]) == [e] + QuoteRest(quote).events
    {
      NothingLeft(tokMem, curByte, curEnd, ts);
      ReadToken(tokMem, curByte, curEnd, ts);
      if tokMem[curByte] < 128 {
        e := Char(if ts[0].Ch? then ts[0].c else ts[0].delim);
        quote := SingleByte(ts);
      } else {
        e := Identifier(ts[0].name);
        IdentifierItem(ts);
        quote := None;
      }
    }

    static lemma MacroStep(ts: seq<Tok>, e: Event, quote: Option<(Byte, seq<Byte>)>)
      requires ts != [] && ts != [Ch(NEWLINE)] && MacroTok(ts[0])
      requires TokEvents(ts[0]) == [e] + QuoteRest(quote).events
      ensures MacroRest(None, ts) == [e] + MacroRest(quote, ts[1..])
    {
      hide PlainEvents, Trimmed, TokEvents, QuoteRest;
      TrimmedTail(ts);
      PlainFirst(ts[0], Trimmed(ts[1..]));
      var q, p := QuoteRest(quote).events, PlainEvents(Trimmed(ts[1..]));
      assert [e] + q + p == [e] + (q + p);
      NoQuote(PlainEvents(Trimmed(ts)));
    }

    static lemma PlainFirst(t: Tok, ts: seq<Tok>)
      requires Plain(t)
      ensures PlainEvents([t] + ts) == TokEvents(t) + PlainEvents(ts)
    {
      assert ([t] + ts)[1..] == ts;
    }

    static lemma NoQuote(events: seq<Event>)
      ensures QuoteRest(None).events + events == events
    {
    }

    /** One item of a macro text; `goal` is what will have been emitted at its end. */
    method MacroItem(ghost quote: Option<(Byte, seq<Byte>)>, ghost ts: seq<Tok>, ghost goal: seq<Event>)
      returns (ghost quote': Option<(Byte, seq<Byte>)>, ghost ts': seq<Tok>)
      requires Reading(quote, ts) && curByte < curEnd && AllMacro(ts)
      requires quote.None? ==> ts != [Ch(NEWLINE)]
      requires out + MacroRest(quote, ts) == goal
      modifies `curByte, `out, `outState
      ensures Reading(quote', ts') && AllMacro(ts') && curByte > old(curByte)
      ensures out + MacroRest(quote', ts') == goal
    {
      ghost var e: Event;
      if outState.Verbatim? {
        e := if quote.value.1 == [] then Char(quote.value.0) else Quoted(quote.value.1[0]);
        ts' := ts;
        quote' := QuotedByte(quote.value, ts);
        QuoteRestStep(quote.value, ts);
      } else {
        quote', e := MacroToken(ts);
        MacroStep(ts, e, quote');
        ts' := ts[1..];
      }
      AppendOne(old(out), e, MacroRest(quote', ts'));
    }

    static ghost predicate AllMacro(ts: seq<Tok>) {
      forall i | 0 <= i < |ts| :: MacroTok(ts[i])
    }

    static lemma QuoteRestStep(quote: (Byte, seq<Byte>), ts: seq<Tok>)
      ensures var (d, body) := quote;
              MacroRest(Some(quote), ts) ==
              [if body == [] then Char(d) else Quoted(body[0])] +
              MacroRest(if body == [] then None else Some((d, body[1..])), ts)
    {
    }

    /** The tokens of one macro text, whose final newline is disregarded. */
    method MacroBody(ghost all: seq<Tok>)
      requires Reading(None, all) && AllMacro(all)
      modifies `curByte, `out, `outState
      ensures out == old(out) + MacroRest(None, all) && !outState.Verbatim?
    {
      ghost var ts, quote: Option<(Byte, seq<Byte>)> := all, None;
      ghost var goal := out + MacroRest(None, all);
      while curByte < curEnd
        invariant Reading(quote, ts) && curByte <= curEnd && AllMacro(ts)
        invariant out + MacroRest(quote, ts) == goal
        decreases curEnd - curByte
      {
        LastNewline(quote, ts);
        if curByte + 1 == curEnd && tokMem[curByte] == NEWLINE { break; }
        quote, ts := MacroItem(quote, ts, goal);
      }
      MacroDone(quote, ts);
    }

    /** The definition of one macro. */
    method MacroText(t: nat)
      requires Static() && 0 < t < |prog.texts| && textLink[t] == 0
      modifies `curByte, `curEnd, `out, `outState
      ensures out == old(out) + ([Define] + PlainEvents(Trimmed(prog.texts[t])) + [EndLine])
      ensures !outState.Verbatim?
    {
      curByte := tokStart[t];
      curEnd := tokStart[t + 1];
      Emit(Define);
      MacroBody(prog.texts[t]);
      Emit(EndLine);
      MacroWhole(old(out), PlainEvents(Trimmed(prog.texts[t])));
    }

    static lemma MacroWhole(a: seq<Event>, b: seq<Event>)
      ensures a + [Define] + ([] + b) + [EndLine] == a + ([Define] + b + [EndLine])
    {
    }

    /** A newline that is the last byte is a token of its own. */
    lemma LastNewline(quote: Option<(Byte, seq<Byte>)>, ts: seq<Tok>)
      requires Reading(quote, ts) && curByte < curEnd && AllMacro(ts)
      ensures curByte + 1 == curEnd && tokMem[curByte] == NEWLINE <==> quote.None? && ts == [Ch(NEWLINE)]
    {
      match quote
      case None => LastToken(tokMem, curByte, curEnd, ts);
      case Some((d, body)) => assert (body + [d])[|body|] == tokMem[curByte + |body|];
    }

    lemma MacroDone(quote: Option<(Byte, seq<Byte>)>, ts: seq<Tok>)
      requires Reading(quote, ts)
      requires curByte == curEnd || (quote.None? && ts == [Ch(NEWLINE)])
      ensures MacroRest(quote, ts) == [] && quote.None?
    {
      if quote.None? && curByte == curEnd { NothingLeft(tokMem, curByte, curEnd, ts); }
    }
  
    // ----- Levels --------------------------------------------------------------------------------

    /** `push_level`: the stack overflows when it holds `stackSize` levels. */
    method PushLevel(p: Option<nat>)
      requires |tokStart| == |textLink| + 1 && (p.Some? ==> p.value < |equiv| && equiv[p.value] < |textLink|)
      modifies `curByte, `curEnd, `curRepl, `curSection, `stack, `stackPtr, `overflowed
      ensures old(stackPtr) == stackSize ==> overflowed && unchanged(`stack)
      ensures old(stackPtr) != stackSize ==>
              && overflowed == old(overflowed) && stackPtr == old(stackPtr) + 1
              && stack == old(stack) + [Saved(old(curByte), old(curEnd), old(curRepl), old(curSection))]
              && (p.Some? ==> curRepl == equiv[p.value] && curSection == 0
                              && curByte == tokStart[curRepl] && curEnd == tokStart[curRepl + 1])
              && (p.None? ==> unchanged(`curRepl))
    {
      if stackPtr == stackSize {
        overflowed := true;
        return;
      }
      stack := stack + [Saved(curByte, curEnd, curRepl, curSection)];
      stackPtr := stackPtr + 1;
      if p.Some? {
        curRepl := equiv[p.value];
        curByte := tokStart[curRepl];
        curEnd := tokStart[curRepl + 1];
        curSection := 0;
      }
    }

    /** `pop_level`: go on with the next text of the section if `flag` allows, else with the level below. */
    method PopLevel(flag: bool)
      requires |tokStart| == |textLink| + 1 && curRepl < |textLink| && stackPtr == |stack| + 1
      requires flag && textLink[curRepl] < SECTION_FLAG ==> textLink[curRepl] < |textLink|
      modifies `curByte, `curEnd, `curRepl, `curSection, `stack, `stackPtr
      ensures flag && textLink[old(curRepl)] < SECTION_FLAG ==>
              && curRepl == textLink[old(curRepl)] && curSection == old(curSection)
              && curByte == tokStart[curRepl] && curEnd == tokStart[curRepl + 1]
              && unchanged(`stack) && unchanged(`stackPtr)
      ensures !(flag && textLink[old(curRepl)] < SECTION_FLAG) ==>
              && stackPtr == old(stackPtr) - 1
              && if stackPtr == 0 then unchanged(`stack)
                 else stack == old(stack)[..stackPtr - 1]
                      && Saved(curByte, curEnd, curRepl, curSection) == old(stack)[stackPtr - 1]
    {
      if flag && textLink[curRepl] < SECTION_FLAG {
        curRepl := textLink[curRepl];
        curByte := tokStart[curRepl];
        curEnd := tokStart[curRepl + 1];
        return;
      }
      stackPtr := stackPtr - 1;
      if stackPtr > 0 {
        var s := stack[stackPtr - 1];
        curByte, curEnd, curRepl, curSection := s.byte, s.end, s.repl, s.section;
        stack := stack[..stackPtr - 1];
      }
    }

    /** `output_defs`: all macro definitions, or an overflow of the stack. */
    method OutputDefs()
      requires Static() && stackPtr == |stack| + 1 && curRepl < |textLink| && !outState.Verbatim? && !overflowed
      modifies `curByte, `curEnd, `curRepl, `curSection, `stack, `stackPtr, `overflowed, `out, `outState
      ensures overflowed <==> old(stackPtr) == stackSize
      ensures overflowed ==> out == old(out)
      ensures !overflowed ==>
              && out == old(out) + Macros(prog) && !outState.Verbatim?
              && stack == old(stack) && stackPtr == old(stackPtr)
              && curByte == old(curByte) && curEnd == old(curEnd) && curRepl == old(curRepl)
              && curSection == old(curSection)
    {
      PushLevel(None);
      if overflowed { return; }
      AllMacros();
      PopLevel(false);
    }

    method AllMacros()
      requires Static() && !outState.Verbatim? && |textLink| > 0
      modifies `curByte, `curEnd, `out, `outState
      ensures out == old(out) + Macros(prog) && !outState.Verbatim?
    {
      ghost var goal := out + MacrosFrom(prog, 1);
      var t := 1;
      while t < |textLink|
        invariant 1 <= t <= |textLink| && !outState.Verbatim?
        invariant out + MacrosFrom(prog, t) == goal
      {
        hide MacrosFrom, Stored, PlainEvents, Trimmed;
        ghost var before := out;
        if textLink[t] == 0 { MacroText(t); }
        MacroNext(before, t);
        t := t + 1;
      }
    }

    lemma MacroNext(before: seq<Event>, t: nat)
      requires |prog.link| == |prog.texts| && 1 <= t < |prog.texts|
      ensures before + MacrosFrom(prog, t) ==
              (if prog.link[t] == 0 then before + ([Define] + PlainEvents(Trimmed(prog.texts[t])) + [EndLine]) else before)
              + MacrosFrom(prog, t + 1)
    {
    }
  
    // ----- get_output ----------------------------------------------------------------------------

    /** A byte of a string or constant, or its final delimiter. */
    method QuotedItem(ghost s: State) returns (ghost next: State, ghost events: seq<Event>)
      requires Static() && StateValid(prog, s) && Mirrors(s) && s.Active? && s.quote.Some?
      modifies `curByte, `out, `outState
      ensures Mirrors(next) && out == old(out) + events && |events| == 1
      ensures StateValid(prog, next) && Moves(prog, s, events, next)
    {
      ghost var quote := s.quote.value;
      ghost var quote' := QuotedByte(quote, s.cur.toks);
      next := s.(quote := quote');
      if quote.1 == [] {
        MoveQuoteEnd(prog, s);
        events := [Char(quote.0)];
      } else {
        MoveQuoted(prog, s);
        events := [Quoted(quote.1[0])];
      }
    }

    /** A token of one byte, or the first delimiter of a string or constant. */
    method ByteItem(ghost s: State) returns (ghost next: State, ghost events: seq<Event>)
      requires Static() && StateValid(prog, s) && Mirrors(s) && s.Active? && s.quote.None?
      requires curByte < curEnd && tokMem[curByte] < 128
      modifies `curByte, `out, `outState
      ensures Mirrors(next) && out == old(out) + events && |events| == 1
      ensures StateValid(prog, next) && Moves(prog, s, events, next)
    {
      ghost var ts := s.cur.toks;
      NothingLeft(tokMem, curByte, curEnd, ts);
      ReadToken(tokMem, curByte, curEnd, ts);
      ghost var quote' := SingleByte(ts);
      next := s.(cur := s.cur.(toks := ts[1..]), quote := quote');
      if ts[0].Quote? {
        MoveQuoteBegin(prog, s);
        events := [Char(ts[0].delim)];
      } else {
        MovePlain(prog, s);
        events := [Char(ts[0].c)];
      }
    }

    /** The end of a text: the marker that closes its section, unless it has no number. */
    method EndOfText(ghost s: State) returns (emitted: bool, ghost next: State, ghost events: seq<Event>)
      requires Static() && StateValid(prog, s) && Mirrors(s) && s.Active? && s.quote.None? && curByte == curEnd
      modifies `curByte, `curEnd, `curRepl, `curSection, `stack, `stackPtr, `out, `outState
      ensures Mirrors(next) && out == old(out) + events && (emitted <==> events != [])
      ensures StateValid(prog, next) && Moves(prog, s, events, next)
    {
      hide Rest, ExpandText, Holds;
      NothingLeft(tokMem, curByte, curEnd, s.cur.toks);
      MovePop(prog, s);
      next, events := Popped(prog, s), Closing(curSection);
      var section: int := curSection;
      var curVal := -section;
      PopLevel(true);
      emitted := curVal != 0;
      if emitted { Emit(Marker(curVal)); }
    }

    /** The mechanics of a token of several bytes that emits itself. */
    method ReadPlain(a: nat, ghost ts: seq<Tok>)
      requires Reading(None, ts) && ts != [] && curByte + 2 <= curEnd && tokMem[curByte] >= 128
      requires a == Value(tokMem[curByte], tokMem[curByte + 1]) && (a < 10240 || a >= 20480)
      modifies `curByte, `curSection, `out, `outState
      ensures Plain(ts[0]) && !ts[0].Quote? && Reading(None, ts[1..]) && out == old(out) + TokEvents(ts[0])
      ensures curSection == if ts[0].SecNum? then ts[0].n else old(curSection)
      ensures |TokEvents(ts[0])| == 1
    {
      hide Holds, EncodeAll, Encode;
      ReadToken(tokMem, curByte, curEnd, ts);
      curByte := curByte + 2;
      if a < 10240 {
        Emit(Identifier(a));
      } else if a > 20480 {
        curSection := a - 20480;
        Emit(Marker(curSection));
      } else {
        var line := TwoByteValue(tokMem[curByte], tokMem[curByte + 1]);
        var file := Value(tokMem[curByte + 2], tokMem[curByte + 3]);
        curByte := curByte + 4;
        Emit(LineDirective(line, file));
      }
    }

    /** An identifier, a section number or a "#line" record. */
    method PlainItem(a: nat, ghost s: State) returns (ghost next: State, ghost events: seq<Event>)
      requires Static() && StateValid(prog, s) && Mirrors(s) && s.Active? && s.quote.None?
      requires s.cur.toks != [] && curByte + 2 <= curEnd && tokMem[curByte] >= 128
      requires a == Value(tokMem[curByte], tokMem[curByte + 1]) && (a < 10240 || a >= 20480)
      modifies `curByte, `curSection, `out, `outState
      ensures Mirrors(next) && out == old(out) + events && |events| == 1
      ensures StateValid(prog, next) && Moves(prog, s, events, next)
    {
      ghost var ts := s.cur.toks;
      ReadPlain(a, ts);
      MovePlain(prog, s);
      events := TokEvents(ts[0]);
      next := s.(cur := Level(s.cur.text, if ts[0].SecNum? then ts[0].n else s.cur.sec, ts[1..]));
    }

    /** The place of the macro definitions. */
    method DefsItem(ghost s: State) returns (ghost next: State, ghost events: seq<Event>)
      requires Static() && StateValid(prog, s) && s.Active? && s.quote.None?
      requires s.cur.toks != [] && s.cur.toks[0].Defs?
      requires var back := s.(cur := s.cur.(toks := s.cur.toks[1..])); Mirrors(back)
      modifies `curByte, `curEnd, `curRepl, `curSection, `stack, `stackPtr, `overflowed, `out, `outState
      ensures Mirrors(next) && out == old(out) + events
      ensures StateValid(prog, next) && Moves(prog, s, events, next)
    {
      if s.room == 0 { MoveOverflow(prog, s); } else { MoveMacros(prog, s); }
      OutputDefs();
      next, events := Overflowed, [];
      if !overflowed {
        next, events := s.(cur := s.cur.(toks := s.cur.toks[1..])), Macros(prog);
      }
    }

    /** A section name: its definition is pushed, or it is skipped when it was never defined. */
    method NameItem(n: nat, ghost s: State) returns (ghost next: State)
      requires Static() && StateValid(prog, s) && s.Active? && s.quote.None?
      requires s.cur.toks != [] && s.cur.toks[0] == SecRef(n)
      requires var back := s.(cur := s.cur.(toks := s.cur.toks[1..])); Mirrors(back)
      modifies `curByte, `curEnd, `curRepl, `curSection, `stack, `stackPtr, `overflowed
      ensures Mirrors(next)
      ensures StateValid(prog, next) && Moves(prog, s, [], next)
    {
      ghost var back := s.cur.(toks := s.cur.toks[1..]);
      if n < |equiv| && equiv[n] != 0 {
        var text := equiv[n];
        if s.room == 0 { MoveOverflow(prog, s); } else { MoveCall(prog, s); }
        PushLevel(Some(n));
        next := if s.room == 0 then Overflowed
                else Active(Level(text, 0, prog.texts[text]), None, s.below + [back], s.room - 1);
      } else {
        MoveSkip(prog, s);
        next := s.(cur := back);
      }
    }

    /** A reference to a section name, or the place of the macro definitions. */
    method CallItem(a: nat, ghost s: State) returns (ghost next: State, ghost events: seq<Event>)
      requires Static() && StateValid(prog, s) && Mirrors(s) && s.Active? && s.quote.None?
      requires s.cur.toks != [] && curByte + 2 <= curEnd && tokMem[curByte] >= 128
      requires a == Value(tokMem[curByte], tokMem[curByte + 1]) && 10240 <= a < 20480
      modifies `curByte, `curEnd, `curRepl, `curSection, `stack, `stackPtr, `overflowed, `out, `outState
      ensures Mirrors(next) && out == old(out) + events
      ensures StateValid(prog, next) && Moves(prog, s, events, next)
    {
      ReadToken(tokMem, curByte, curEnd, s.cur.toks);
      curByte := curByte + 2;
      if a == 20479 {
        next, events := DefsItem(s);
      } else {
        next := NameItem(a - 10240, s);
        events := [];
      }
    }
  
    /** `get_output`: go on until an item has been emitted, the stack is empty, or it overflows. */
    method GetOutput(ghost s0: State, ghost goal: seq<Event>) returns (ghost s: State)
      requires Static() && StateValid(prog, s0) && Mirrors(s0) && s0.Active?
      requires out + Rest(prog, s0).events == goal
      modifies `curByte, `curEnd, `curRepl, `curSection, `stack, `stackPtr, `overflowed, `out, `outState
      ensures StateValid(prog, s) && Mirrors(s)
      ensures out + Rest(prog, s).events == goal
      ensures Rest(prog, s).ok == Rest(prog, s0).ok && Rest(prog, s).steps < Rest(prog, s0).steps
    {
      var emitted;
      emitted, s := Item(s0, goal);
      while !emitted && !overflowed && stackPtr > 0
        invariant StateValid(prog, s) && Mirrors(s)
        invariant out + Rest(prog, s).events == goal
        invariant Rest(prog, s).ok == Rest(prog, s0).ok && Rest(prog, s).steps < Rest(prog, s0).steps
        decreases Rest(prog, s).steps
      {
        emitted, s := Item(s, goal);
      }
    }

    lemma MovesOn(s: State, out0: seq<Event>, events: seq<Event>, next: State, goal: seq<Event>)
      requires prog.Valid() && StateValid(prog, s) && StateValid(prog, next) && Moves(prog, s, events, next)
      requires out0 + Rest(prog, s).events == goal
      ensures out0 + events + Rest(prog, next).events == goal
    {
      assert out0 + events + Rest(prog, next).events == out0 + (events + Rest(prog, next).events);
    }

    /** One turn of `get_output`, up to its `restart`. */
    method Item(ghost s: State, ghost goal: seq<Event>) returns (emitted: bool, ghost next: State)
      requires Static() && StateValid(prog, s) && Mirrors(s) && s.Active?
      requires out + Rest(prog, s).events == goal
      modifies `curByte, `curEnd, `curRepl, `curSection, `stack, `stackPtr, `overflowed, `out, `outState
      ensures StateValid(prog, next) && Mirrors(next)
      ensures out + Rest(prog, next).events == goal
      ensures Rest(prog, next).ok == Rest(prog, s).ok && Rest(prog, next).steps < Rest(prog, s).steps
    {
      ghost var out0, events := out, [];
      emitted, next, events := Dispatch(s);
      MovesOn(s, out0, events, next, goal);
    }

    method Dispatch(ghost s: State) returns (emitted: bool, ghost next: State, ghost events: seq<Event>)
      requires Static() && StateValid(prog, s) && Mirrors(s) && s.Active?
      modifies `curByte, `curEnd, `curRepl, `curSection, `stack, `stackPtr, `overflowed, `out, `outState
      ensures Mirrors(next) && out == old(out) + events
      ensures StateValid(prog, next) && Moves(prog, s, events, next)
    {
      emitted := true;
      if outState.Verbatim? {
        next, events := QuotedItem(s);
      } else if curByte == curEnd {
        emitted, next, events := EndOfText(s);
      } else if tokMem[curByte] < 128 {
        next, events := ByteItem(s);
      } else {
        NothingLeft(tokMem, curByte, curEnd, s.cur.toks);
        ReadToken(tokMem, curByte, curEnd, s.cur.toks);
        var a := Value(tokMem[curByte], tokMem[curByte + 1]);
        if 10240 <= a < 20480 {
          next, events := CallItem(a, s);
          emitted := a == 20479;
        } else {
          next, events := PlainItem(a, s);
        }
      }
    }

    // ----- The output of whole programs ----------------------------------------------------------

    /** Start with text `t` on an otherwise empty stack and go on until the stack is empty: what is
        emitted is exactly the recursive expansion, cut off where the stack overflows. */
    method WriteFrom(t: nat)
      requires Static() && prog.InSection(t) && !overflowed && !outState.Verbatim? && stackSize >= 1
      modifies `curByte, `curEnd, `curRepl, `curSection, `stack, `stackPtr, `overflowed, `out, `outState
      ensures var e := ExpandText(prog, t, old(curSection), prog.texts[t], stackSize - 1);
              && overflowed == !e.ok
              && out == old(out) + e.events + (if e.ok then [EndLine] else [])
      ensures !overflowed ==> stackPtr == 0 && !outState.Verbatim?
    {
      stackPtr, stack := 1, [];
      curRepl := t;
      curByte := tokStart[t];
      curEnd := tokStart[t + 1];
      ghost var s := Active(Level(t, curSection, prog.texts[t]), None, [], stackSize - 1);
      ghost var goal := out + Rest(prog, s).events;
      ghost var ok := Rest(prog, s).ok;
      StartRest(t, curSection);
      Drain(s, goal, ok);
      if !overflowed { Emit(EndLine); }
    }

    /** The loop of `phase_two`: output until the stack is empty. */
    method Drain(ghost s0: State, ghost goal: seq<Event>, ghost ok: bool)
      requires Static() && StateValid(prog, s0) && Mirrors(s0)
      requires out + Rest(prog, s0).events == goal && Rest(prog, s0).ok == ok
      modifies `curByte, `curEnd, `curRepl, `curSection, `stack, `stackPtr, `overflowed, `out, `outState
      ensures overflowed == !ok && out == goal
      ensures !overflowed ==> stackPtr == 0 && !outState.Verbatim?
    {
      ghost var s := s0;
      while stackPtr > 0 && !overflowed
        invariant StateValid(prog, s) && Mirrors(s)
        invariant out + Rest(prog, s).events == goal && Rest(prog, s).ok == ok
        decreases Rest(prog, s).steps
      {
        s := GetOutput(s, goal);
      }
      assert out + [] == goal;
    }

    lemma StartRest(t: nat, sec: nat)
      requires prog.Valid() && prog.InSection(t) && stackSize >= 1
      ensures Rest(prog, Active(Level(t, sec, prog.texts[t]), None, [], stackSize - 1)) ==
              ExpandText(prog, t, sec, prog.texts[t], stackSize - 1)
    {
      var e := ExpandText(prog, t, sec, prog.texts[t], stackSize - 1);
      ThenNothing(e);
      ThenNothing(Then(e, Nothing));
    }

    /** `phase_two` up to the end of the main output file: the macro definitions, unless `@h` has placed
        them, and then the unnamed program text. */
    method PhaseTwo(outputDefsSeen: bool)
      requires Static() && |prog.texts| > 0 && !overflowed && !outState.Verbatim? && stackSize >= 2
      requires prog.link[0] != 0 ==> prog.InSection(prog.link[0])
      modifies `curByte, `curEnd, `curRepl, `curSection, `stack, `stackPtr, `overflowed, `out, `outState
      ensures var head := old(out) + (if outputDefsSeen then [] else Macros(prog));
              if prog.link[0] == 0 then out == head && !overflowed
              else
                var e := ExpandSection(prog, prog.link[0], stackSize - 1);
                overflowed == !e.ok && out == head + e.events + (if e.ok then [EndLine] else [])
    {
      stackPtr, stack := 1, [];
      curRepl := textLink[0];
      curByte, curEnd, curSection := tokStart[curRepl], tokStart[curRepl + 1], 0;
      if !outputDefsSeen { OutputDefs(); } else { assert out + [] == out; }
      if textLink[0] != 0 { WriteFrom(textLink[0]); }
    }
  }
}
