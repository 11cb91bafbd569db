/** CTANGLE's phase one as it runs: bytes are appended to the token memory one after the other, and the
    finished text is linked to the earlier texts of its section. */
module TanglePhaseOne {
  import opened Wrappers
  import opened TangleTokens
  import opened TangleExpand
  import opened TangleMachine
  import opened TangleNesting
  import opened TangleLinks
  import opened TangleStore

  lemma HoldsGrown(mem: seq<Byte>, more: seq<Byte>, from: nat, end: nat, ts: seq<Tok>)
    requires Holds(mem, from, end, ts)
    ensures Holds(mem + more, from, end, ts)
  {
    assert (mem + more)[from..end] == mem[from..end];
  }

  lemma OneEncoded(t: Tok)
    requires Encodable(t)
    ensures EncodeAll([t]) == Encode(t)
  {
    assert [t][1..] == [];
    assert Encode(t) + [] == Encode(t);
  }

  lemma TailAppended(mem: seq<Byte>, from: nat, more: seq<Byte>)
    requires from <= |mem|
    ensures (mem + more)[from..|mem| + |more|] == mem[from..|mem|] + more
  {
  }

  lemma HoldsMore(mem: seq<Byte>, from: nat, ts: seq<Tok>, t: Tok)
    requires Holds(mem, from, |mem|, ts) && Encodable(t)
    ensures Holds(mem + Encode(t), from, |mem| + |Encode(t)|, ts + [t])
    ensures Size(ts + [t]) == Size(ts) + |Encode(t)|
  {
    var e := Encode(t);
    OneEncoded(t);
    EncodeAppend(ts, [t]);
    TailAppended(mem, from, e);
  }

  /** Every finished text is where `start` says. */
  ghost predicate Packs(d: seq<Def>, mem: seq<Byte>, start: seq<nat>) {
    && |start| == |d| + 1 && start[|d|] <= |mem|
    && forall t | 0 <= t < |d| :: Holds(mem, start[t], start[t + 1], d[t].text)
  }

  lemma PacksGrown(d: seq<Def>, mem: seq<Byte>, start: seq<nat>, more: seq<Byte>)
    requires Packs(d, mem, start)
    ensures Packs(d, mem + more, start)
  {
    forall t | 0 <= t < |d| ensures Holds(mem + more, start[t], start[t + 1], d[t].text) {
      HoldsGrown(mem, more, start[t], start[t + 1], d[t].text);
    }
  }

  lemma SizeAppend(ts: seq<Tok>, us: seq<Tok>)
    requires AllEncodable(ts) && AllEncodable(us)
    ensures Size(ts + us) == Size(ts) + Size(us)
  {
    EncodeAppend(ts, us);
  }

  lemma FirstApart(ts: seq<Tok>, us: seq<Tok>)
    requires us != []
    ensures ts + us == ts + [us[0]] + us[1..] && us == [us[0]] + us[1..]
  {
  }

  /** The sizes before and after one token `u` of the rest `u` + `us`. */
  lemma FirstSize(ts: seq<Tok>, u: Tok, us: seq<Tok>)
    requires AllEncodable(ts) && Encodable(u) && AllEncodable(us)
    ensures Size(ts + [u]) == Size(ts) + |Encode(u)|
    ensures Size([u] + us) == |Encode(u)| + Size(us)
  {
    OneEncoded(u);
    SizeAppend(ts, [u]);
    SizeAppend([u], us);
  }

  lemma ScannedNext(inMacro: bool, ts: seq<Tok>, items: seq<Item>)
    requires AllScannable(inMacro, items) && items != [] && !Stops(inMacro, items[0].source)
    ensures ts + Scanned(inMacro, items) == ts + Tokens(inMacro, items[0]) + Scanned(inMacro, items[1..])
  {
  }

  lemma StartText(mem: seq<Byte>)
    ensures Holds(mem, |mem|, |mem|, []) && Size([]) == 0
  {
  }

  lemma LinkedFacts(kinds: seq<Kind>, link: seq<nat>, equiv: seq<nat>, last: nat, p: nat)
    requires Linked(kinds, link, equiv, last) && p < |equiv|
    ensures last < |kinds| && (equiv[p] != 0 ==> equiv[p] < |kinds| && kinds[equiv[p]] == Named(p))
  {
  }

  class Store {
    var tokMem: seq<Byte>
    var tokStart: seq<nat>
    var textLink: seq<nat>
    var equiv: seq<nat>
    var lastUnnamed: nat
    var sectionCount: nat
    ghost var defs: seq<Def>

    /** The finished texts are stored and linked. */
    ghost predicate Valid()
      reads this
    {
      && AllWellFormed(defs) && Stores(defs) && |equiv| == MAX_NAMES
      && Linked(Kinds(defs), textLink, equiv, lastUnnamed)
    }

    /** After the finished texts, the tokens `ts` of the next text have been stored. */
    ghost predicate Writing(ts: seq<Tok>)
      reads `tokMem, `tokStart, `defs
    {
      && Packs(defs, tokMem, tokStart) && |defs| <= MAX_TEXTS
      && Holds(tokMem, tokStart[|defs|], |tokMem|, ts)
      && |tokMem| == Bytes(defs) + Size(ts) <= TOKEN_LIMIT
    }

    /** The store holds exactly the texts `d`. */
    ghost predicate Stores(d: seq<Def>)
      reads `tokMem, `tokStart
    {
      && Packs(d, tokMem, tokStart) && |d| <= MAX_TEXTS
      && tokStart[|d|] == |tokMem| == Bytes(d) <= TOKEN_LIMIT
    }

    constructor ()
      ensures Valid() && defs == [Def(Dummy, [])] && sectionCount == 0
    {
      tokMem, tokStart, textLink, lastUnnamed, sectionCount := [], [0, 0], [0], 0, 0;
      equiv := seq(MAX_NAMES, _ => 0);
      defs := [Def(Dummy, [])];
    }

    // ----- Writing bytes -------------------------------------------------------------------------

    /** `app_repl` */
    method AppRepl(c: Byte) returns (ok: bool)
      modifies `tokMem
      ensures ok <==> |old(tokMem)| < TOKEN_LIMIT || |old(tokMem)| > TOKEN_LIMIT
      ensures tokMem == if ok then old(tokMem) + [c] else old(tokMem)
    {
      ok := |tokMem| != TOKEN_LIMIT;
      if ok { tokMem := tokMem + [c]; }
    }

    /** `store_two_bytes` */
    method StoreTwoBytes(x: nat) returns (ok: bool)
      requires x < 65536
      modifies `tokMem
      ensures ok <==> |old(tokMem)| + 2 <= TOKEN_LIMIT
      ensures tokMem == if ok then old(tokMem) + TwoBytes(x) else old(tokMem)
    {
      ok := |tokMem| + 2 <= TOKEN_LIMIT;
      if ok { tokMem := tokMem + [x / 256] + [x % 256]; }
    }

    /** Two calls of `app_repl`, for the token of value `a`. */
    method AppTwo(a: nat, base: nat) returns (ok: bool)
      requires |tokMem| <= TOKEN_LIMIT && a / 256 + base < 256
      modifies `tokMem
      ensures ok <==> |old(tokMem)| + 2 <= TOKEN_LIMIT
      ensures ok ==> tokMem == old(tokMem) + Packed(a, base)
    {
      ok := AppRepl(a / 256 + base);
      if ok { ok := AppRepl(a % 256); }
    }

    method AppLine(line: nat, file: nat) returns (ok: bool)
      requires |tokMem| <= TOKEN_LIMIT && Encodable(Line(line, file))
      modifies `tokMem
      ensures ok <==> |old(tokMem)| + 6 <= TOKEN_LIMIT
      ensures ok ==> tokMem == old(tokMem) + Encode(Line(line, file))
    {
      ok := StoreTwoBytes(53248);
      if ok { ok := StoreTwoBytes(line); }
      if ok { ok := AppTwo(file, 128); }
      assert ok ==> tokMem == old(tokMem) + TwoBytes(53248) + TwoBytes(line) + Packed(file, 128);
    }

    /** A string or constant between its delimiters. */
    method AppQuote(d: Byte, body: seq<Byte>) returns (ok: bool)
      requires |tokMem| <= TOKEN_LIMIT
      modifies `tokMem
      ensures ok <==> |old(tokMem)| + |body| + 2 <= TOKEN_LIMIT
      ensures ok ==> tokMem == old(tokMem) + ([d] + body + [d])
    {
      ok := AppRepl(d);
      var i := 0;
      while ok && i < |body|
        invariant i <= |body|
        invariant ok ==> tokMem == old(tokMem) + [d] + body[..i] && |tokMem| <= TOKEN_LIMIT
        invariant !ok ==> |old(tokMem)| + |body| + 2 > TOKEN_LIMIT
      {
        ok := AppRepl(body[i]);
        i := i + 1;
      }
      if ok { ok := AppRepl(d); }
    }

    /** Stores one token, byte by byte. */
    method App(t: Tok) returns (ok: bool)
      requires |tokMem| <= TOKEN_LIMIT && Encodable(t)
      modifies `tokMem
      ensures ok <==> |old(tokMem)| + |Encode(t)| <= TOKEN_LIMIT
      ensures ok ==> tokMem == old(tokMem) + Encode(t)
    {
      match t
      case Id(n) => ok := AppTwo(n, 128);
      case SecRef(n) => ok := AppTwo(n, 168);
      case Defs => ok := AppTwo(20479, 128);
      case SecNum(n) => ok := StoreTwoBytes(53248 + n);
      case Line(line, file) => ok := AppLine(line, file);
      case Ch(c) => ok := AppRepl(c);
      case Quote(d, body) => ok := AppQuote(d, body);
    }

    // ----- Writing texts -------------------------------------------------------------------------

    /** One more token of the text being written. */
    method AppToken(ghost ts: seq<Tok>, t: Tok) returns (ok: bool)
      requires Writing(ts) && Encodable(t)
      modifies `tokMem
      ensures ok <==> Bytes(defs) + Size(ts) + |Encode(t)| <= TOKEN_LIMIT
      ensures ok ==> Writing(ts + [t])
    {
      HoldsMore(tokMem, tokStart[|defs|], ts, t);
      PacksGrown(defs, tokMem, tokStart, Encode(t));
      ok := App(t);
    }

    method AppTokens(ghost ts: seq<Tok>, us: seq<Tok>) returns (ok: bool)
      requires Writing(ts) && AllEncodable(us)
      modifies `tokMem
      ensures ok <==> Bytes(defs) + Size(ts) + Size(us) <= TOKEN_LIMIT
      ensures ok ==> Writing(ts + us)
      decreases |us|
    {
      if us == [] {
        assert ts + us == ts;
        ok := true;
      } else {
        FirstApart(ts, us);
        FirstSize(ts, us[0], us[1..]);
        ok := AppToken(ts, us[0]);
        if ok { ok := AppTokens(ts + [us[0]], us[1..]); }
      }
    }

    /** The loop of `scan_repl`. */
    method ScanRepl(inMacro: bool, items: seq<Item>, ghost head: seq<Tok>) returns (ok: bool)
      requires Writing(head) && AllScannable(inMacro, items)
      modifies `tokMem
      ensures ok <==> Bytes(defs) + Size(head) + Size(Scanned(inMacro, items)) <= TOKEN_LIMIT
      ensures ok ==> Writing(head + Scanned(inMacro, items))
    {
      ghost var ts := head;
      ghost var whole := head + Scanned(inMacro, items);
      SizeAppend(head, Scanned(inMacro, items));
      var rest := items;
      ok := true;
      while ok && rest != [] && !Stops(inMacro, rest[0].source)
        invariant AllScannable(inMacro, rest)
        invariant ok ==> Writing(ts) && ts + Scanned(inMacro, rest) == whole
        invariant !ok ==> Bytes(defs) + Size(whole) > TOKEN_LIMIT
        decreases |rest|
      {
        ghost var more := Tokens(inMacro, rest[0]);
        ScannedNext(inMacro, ts, rest);
        SizeAppend(ts, more);
        SizeAppend(ts + more, Scanned(inMacro, rest[1..]));
        ok := AppTokens(ts, Tokens(inMacro, rest[0]));
        ts := ts + more;
        rest := rest[1..];
      }
      assert ok ==> ts == whole;
    }

    /** The end of `scan_repl`: the text gets a number, if there is one left. */
    method EndText(ghost ts: seq<Tok>) returns (ok: bool)
      requires Writing(ts) && |textLink| == |defs|
      modifies `tokStart, `textLink
      ensures ok <==> |defs| < MAX_TEXTS
      ensures ok ==> tokStart == old(tokStart) + [|tokMem|] && textLink == old(textLink) + [0]
      ensures !ok ==> tokStart == old(tokStart) && textLink == old(textLink)
    {
      ok := |textLink| <= MAX_TEXTS - 1;
      if ok {
        textLink := textLink + [0];
        tokStart := tokStart + [|tokMem|];
      }
    }

    /** The last text of the chain from `q`. */
    method LastOfChain(ghost kinds: seq<Kind>, q: nat) returns (r: nat)
      requires |kinds| <= |textLink| <= MAX_TEXTS && Linked(kinds, textLink[..|kinds|], equiv, lastUnnamed)
      requires 0 < q < |kinds| && kinds[q].Named?
      ensures 0 < r < |kinds| && kinds[r] == kinds[q] && textLink[r] >= SECTION_FLAG
    {
      r := q;
      while textLink[r] < SECTION_FLAG
        invariant 0 < r < |kinds| && kinds[r] == kinds[q]
        decreases |kinds| - r
      {
        assert textLink[..|kinds|][r] == RightLink(kinds, r);
        r := textLink[r];
      }
    }

    /** Links the new text to the earlier texts of name `p`. */
    method LinkPart(ghost kinds: seq<Kind>, p: nat)
      requires |textLink| == |kinds| + 1 <= MAX_TEXTS && p < |equiv|
      requires Linked(kinds, textLink[..|kinds|], equiv, lastUnnamed)
      modifies `textLink, `equiv, `lastUnnamed
      ensures Linked(kinds + [PartKind(p)], textLink, equiv, lastUnnamed) && |equiv| == old(|equiv|)
    {
      hide Linked, Next, First;
      var cur: nat := |textLink| - 1;
      ghost var link := textLink[..|kinds|];
      LinkedFacts(kinds, link, equiv, lastUnnamed, p);
      if p == 0 {
        LinkUnnamed(kinds, link, equiv, lastUnnamed);
        textLink := textLink[lastUnnamed := cur];
        lastUnnamed := cur;
      } else if equiv[p] == 0 {
        LinkFirst(kinds, link, equiv, lastUnnamed, p);
        equiv := equiv[p := cur];
      } else {
        var q := LastOfChain(kinds, equiv[p]);
        LinkNext(kinds, link, equiv, lastUnnamed, p, q);
        textLink := textLink[q := cur];
      }
      textLink := textLink[cur := SECTION_FLAG];
      assert textLink == (if p == 0 then link[old(lastUnnamed) := cur] else textLink[..cur]) + [SECTION_FLAG];
    }

    // ----- Definitions ---------------------------------------------------------------------------

    /** A whole text: what precedes the scanned items, the items, and the end. */
    method WriteText(inMacro: bool, head: seq<Tok>, items: seq<Item>, ghost d: Def) returns (ok: bool)
      requires Stores(defs) && |textLink| == |defs|
      requires AllEncodable(head) && AllScannable(inMacro, items) && d.text == head + Scanned(inMacro, items)
      modifies `tokMem, `tokStart, `textLink
      ensures ok <==> Fits(defs + [d])
      ensures ok ==> Stores(defs + [d]) && textLink == old(textLink) + [0]
    {
      hide Holds, EncodeAll, Scanned, Bytes, Size, Fits;
      SizeAppend(head, Scanned(inMacro, items));
      AddedFits(defs, d);
      assert [] + head == head;
      StartText(tokMem);
      ok := AppTokens([], head);
      if ok { ok := ScanRepl(inMacro, items, head); }
      if ok {
        ok := EndText(d.text);
        if ok { Added(defs, tokMem, tokStart, d); }
      }
    }

    method EndMacro(ghost d: Def)
      requires Stores(defs + [d]) && WellFormed(d) && d.kind == Macro && |equiv| == MAX_NAMES && AllWellFormed(defs)
      requires |textLink| == |defs| + 1 && textLink[|defs|] == 0
      requires Linked(Kinds(defs), textLink[..|defs|], equiv, lastUnnamed)
      modifies `defs
      ensures Valid() && defs == old(defs) + [d]
    {
      LinkMacro(Kinds(defs), textLink[..|defs|], equiv, lastUnnamed);
      assert textLink == textLink[..|defs|] + [0];
      KindsAppend(defs, d);
      defs := defs + [d];
    }

    method EndPart(p: nat, ghost d: Def)
      requires Stores(defs + [d]) && WellFormed(d) && d.kind == PartKind(p) && |equiv| == MAX_NAMES && AllWellFormed(defs)
      requires |textLink| == |defs| + 1 && p < MAX_NAMES
      requires Linked(Kinds(defs), textLink[..|defs|], equiv, lastUnnamed)
      modifies `textLink, `equiv, `lastUnnamed, `defs
      ensures Valid() && defs == old(defs) + [d]
    {
      LinkPart(Kinds(defs), p);
      KindsAppend(defs, d);
      defs := defs + [d];
    }

    /** A macro definition: the identifier, an empty string where no parameters follow, and the text. */
    method DefineMacro(m: MacroDef) returns (ok: bool)
      requires Valid() && MacroScannable(m)
      modifies `tokMem, `tokStart, `textLink, `defs
      ensures ok <==> Fits(old(defs) + [MacroDefined(m)])
      ensures ok ==> Valid() && defs == old(defs) + [MacroDefined(m)]
    {
      ghost var d := MacroDefined(m);
      MacroWellFormed(m);
      ok := WriteText(true, [Id(m.name)] + if m.hasParameters then [] else [Quote(STRING, [32])], m.items, d);
      if ok {
        assert textLink[..|defs|] == old(textLink);
        EndMacro(d);
      }
    }

    /** The C part of the current section. */
    method DefinePart(p: Part) returns (ok: bool)
      requires Valid() && PartScannable(p) && 0 < sectionCount < 12288
      modifies `tokMem, `tokStart, `textLink, `equiv, `lastUnnamed, `defs
      ensures ok <==> Fits(old(defs) + [PartDefined(p, sectionCount)])
      ensures ok ==> Valid() && defs == old(defs) + [PartDefined(p, sectionCount)]
    {
      ghost var d := PartDefined(p, sectionCount);
      PartWellFormed(p, sectionCount);
      ok := WriteText(false, [SecNum(sectionCount), Line(p.line % 65536, p.file)], p.items, d);
      if ok {
        assert textLink[..|defs|] == old(textLink);
        EndPart(p.name, d);
      }
    }

    /** One section: its macro definitions and then its C part. */
    method ScanSection(s: Section) returns (ok: bool)
      requires Valid() && SectionScannable(s) && sectionCount + 1 < 12288
      modifies `tokMem, `tokStart, `textLink, `equiv, `lastUnnamed, `defs, `sectionCount
      ensures sectionCount == old(sectionCount) + 1
      ensures ok <==> Fits(old(defs) + SectionDefined(s, sectionCount))
      ensures ok ==> Valid() && defs == old(defs) + SectionDefined(s, sectionCount)
    {
      sectionCount := sectionCount + 1;
      ghost var before := defs;
      ok := ScanMacros(s.macros);
      if ok && s.part.Some? {
        ok := DefinePart(s.part.value);
        Regroup(before, MacrosDefined(s.macros), PartDefined(s.part.value, sectionCount));
      } else if !ok && s.part.Some? {
        Regroup(before, MacrosDefined(s.macros), PartDefined(s.part.value, sectionCount));
        NoFit(before + MacrosDefined(s.macros), [PartDefined(s.part.value, sectionCount)]);
      } else {
        assert MacrosDefined(s.macros) + [] == MacrosDefined(s.macros);
      }
    }

    method ScanMacros(ms: seq<MacroDef>) returns (ok: bool)
      requires Valid() && forall i | 0 <= i < |ms| :: MacroScannable(ms[i])
      modifies `tokMem, `tokStart, `textLink, `defs
      ensures ok <==> Fits(old(defs) + MacrosDefined(ms))
      ensures ok ==> Valid() && defs == old(defs) + MacrosDefined(ms)
    {
      ok := true;
      var i := 0;
      assert defs + MacrosDefined(ms[..0]) == defs;
      while ok && i < |ms|
        invariant i <= |ms|
        invariant ok ==> Valid() && defs == old(defs) + MacrosDefined(ms[..i])
        invariant ok <==> Fits(old(defs) + MacrosDefined(ms[..i]))
        invariant !ok ==> !Fits(old(defs) + MacrosDefined(ms))
      {
        MacrosNext(ms, i);
        Regroup(old(defs), MacrosDefined(ms[..i]), MacroDefined(ms[i]));
        ok := DefineMacro(ms[i]);
        i := i + 1;
        if !ok { MacrosNoFit(old(defs), ms, i); }
      }
      if ok { assert ms[..i] == ms; }
    }

    /** Phase one: all sections of a web.  It succeeds exactly if the texts fit, and then stores them. */
    method PhaseOne(web: seq<Section>) returns (ok: bool)
      requires Valid() && WebScannable(web) && defs == [Def(Dummy, [])] && sectionCount == 0
      modifies this
      ensures ok <==> Fits(Defined(web))
      ensures ok ==> Valid() && defs == Defined(web)
    {
      ok := true;
      var i := 0;
      while ok && i < |web|
        invariant i <= |web| && (ok ==> sectionCount == i)
        invariant ok ==> Valid() && defs == Defined(web[..i])
        invariant ok <==> Fits(Defined(web[..i]))
        invariant !ok ==> !Fits(Defined(web))
      {
        hide Stores, Linked, Fits, Defined, SectionDefined;
        WebNext(web, i);
        ok := ScanSection(web[i]);
        i := i + 1;
        if !ok { WebNoFit(web, i); }
      }
      if ok { assert web[..i] == web; }
    }
  }

  lemma Regroup(a: seq<Def>, b: seq<Def>, x: Def)
    ensures a + (b + [x]) == a + b + [x]
  {
  }

  lemma NoFit(a: seq<Def>, b: seq<Def>)
    requires !Fits(a)
    ensures !Fits(a + b)
  {
    if Fits(a + b) { FitsPrefix(a, b); }
  }

  lemma MacrosNext(ms: seq<MacroDef>, i: nat)
    requires i < |ms| && forall j | 0 <= j < |ms| :: MacroScannable(ms[j])
    ensures MacrosDefined(ms[..i + 1]) == MacrosDefined(ms[..i]) + [MacroDefined(ms[i])]
  {
    assert ms[..i + 1][..i] == ms[..i];
  }

  lemma {:induction false} MacrosNoFit(d: seq<Def>, ms: seq<MacroDef>, i: nat)
    requires i <= |ms| && (forall j | 0 <= j < |ms| :: MacroScannable(ms[j]))
    requires !Fits(d + MacrosDefined(ms[..i]))
    ensures !Fits(d + MacrosDefined(ms))
    decreases |ms| - i
  {
    if i == |ms| {
      assert ms[..i] == ms;
    } else {
      MacrosNext(ms, i);
      Regroup(d, MacrosDefined(ms[..i]), MacroDefined(ms[i]));
      NoFit(d + MacrosDefined(ms[..i]), [MacroDefined(ms[i])]);
      MacrosNoFit(d, ms, i + 1);
    }
  }

  lemma WebNext(web: seq<Section>, i: nat)
    requires WebScannable(web) && i < |web|
    ensures Defined(web[..i + 1]) == Defined(web[..i]) + SectionDefined(web[i], i + 1)
  {
    assert web[..i + 1][..i] == web[..i];
  }

  lemma {:induction false} WebNoFit(web: seq<Section>, i: nat)
    requires WebScannable(web) && i <= |web| && !Fits(Defined(web[..i]))
    ensures !Fits(Defined(web))
    decreases |web| - i
  {
    if i == |web| {
      assert web[..i] == web;
    } else {
      WebNext(web, i);
      NoFit(Defined(web[..i]), SectionDefined(web[i], i + 1));
      WebNoFit(web, i + 1);
    }
  }

  /** The room that one more text needs. */
  lemma AddedFits(d: seq<Def>, x: Def)
    ensures Fits(d + [x]) <==> Bytes(d) + Size(x.text) <= TOKEN_LIMIT && |d| < MAX_TEXTS
    ensures Bytes(d + [x]) == Bytes(d) + Size(x.text)
  {
    assert (d + [x])[..|d|] == d;
  }

  /** A text that ends where the memory ends is packed like the others. */
  lemma Added(d: seq<Def>, mem: seq<Byte>, start: seq<nat>, x: Def)
    requires |start| == |d| + 2 && Packs(d, mem, start[..|d| + 1])
    requires start[|d| + 1] == |mem| && Holds(mem, start[|d|], |mem|, x.text)
    ensures Packs(d + [x], mem, start) && Holds(mem, |mem|, |mem|, [])
  {
    forall t | 0 <= t <= |d| ensures Holds(mem, start[t], start[t + 1], (d + [x])[t].text) {
      if t < |d| { assert Holds(mem, start[..|d| + 1][t], start[..|d| + 1][t + 1], d[t].text); }
    }
  }
}
