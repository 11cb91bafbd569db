/** Whole runs of `translate`: they end, they keep math modes balanced and conserve the source. */
module ScrapRuns {
  import opened Wrappers
  import opened Productions
  import opened ScrapTexts
  import opened ScrapMachine
  import opened ScrapLaws

  // ----- Termination -----------------------------------------------------------------------------

  /** The sum of the ranks of all scraps. */
  function Height(scraps: seq<Scrap>): nat {
    if scraps == [] then 0 else Height(scraps[..|scraps| - 1]) + Rank(scraps[|scraps| - 1].cat)
  }

  lemma {:induction false} HeightUpdate(scraps: seq<Scrap>, j: nat, s: Scrap)
    requires j < |scraps|
    ensures Height(scraps[j := s]) == Height(scraps) - Rank(scraps[j].cat) + Rank(s.cat)
  {
    var n := |scraps| - 1;
    if j < n {
      HeightUpdate(scraps[..n], j, s);
      assert scraps[j := s][..n] == scraps[..n][j := s];
    } else {
      assert scraps[j := s][..n] == scraps[..n];
    }
  }

  /** The measure of an iteration: scraps, then ranks, then scraps from `pp` to the end. */
  ghost predicate Descends(c: Config, c': Config)
    requires c.pp <= |c.scraps| && c'.pp <= |c'.scraps|
  {
    || |c'.scraps| < |c.scraps|
    || (|c'.scraps| == |c.scraps| &&
        (Height(c'.scraps) < Height(c.scraps)
         || (Height(c'.scraps) == Height(c.scraps) && |c'.scraps| - c'.pp < |c.scraps| - c.pp)))
  }

  lemma OneScrapDescends(c: Config, c': Config, j: nat, s: Scrap)
    requires c.pp <= |c.scraps| && c'.pp <= |c'.scraps| && j < |c.scraps|
    requires c'.scraps == c.scraps[j := s] && Rank(s.cat) < Rank(c.scraps[j].cat)
    ensures Descends(c, c')
  {
    HeightUpdate(c.scraps, j, s);
  }

  lemma ReplaceDescends(c: Config, r: Rule, w: Work)
    requires c.Valid() && r.k >= 1 && c.pp + r.at + r.k <= |c.scraps| && r.d <= 1
    requires r.k == 1 ==> Rank(r.cat) < Rank(c.scraps[c.pp + r.at].cat)
    ensures Replace(c, r, w).pp <= |Replace(c, r, w).scraps|
    ensures Descends(c, Replace(c, r, w))
  {
    if r.k == 1 {
      var j, c' := c.pp + r.at, Replace(c, r, w);
      assert c'.scraps == c.scraps[j := c'.scraps[j]];
      OneScrapDescends(c, c', j, c'.scraps[j]);
    }
  }

  lemma ApplyDescends(c: Config, r: Rule)
    requires c.Valid() && Fits(c, r)
    ensures Apply(c, r).Valid() && Descends(c, Apply(c, r)) && Apply(c, r).scraps != []
  {
    ApplyValid(c, r);
    match r.effect
    case Recat =>
      var j := c.pp + r.at;
      OneScrapDescends(c, Apply(c, r), j, c.scraps[j].(cat := r.cat));
    case Build(ops) => ReplaceDescends(Prepared(c, r), r, Built(Prepared(c, r), ops));
  }

  /** Every iteration of the loop of `translate` decreases the measure. */
  lemma StepDescends(c: Config, table: Table)
    requires SoundTable(table) && c.Valid() && c.pp < |c.scraps|
    ensures Step(c, table).Valid() && Grows(c.mem, Step(c, table).mem) && Descends(c, Step(c, table))
    ensures Step(c, table).scraps != []
  {
    ProductionFits(c, table);
    StepValid(c, table);
    if Production(c, table).Some? { ApplyDescends(c, Production(c, table).value); }
  }

  /** The configuration in which the loop of `translate` ends. */
  function Run(c: Config, table: Table): Config
    requires SoundTable(table) && c.Valid()
    decreases |c.scraps|, Height(c.scraps), |c.scraps| - c.pp
  {
    if c.pp == |c.scraps| then c
    else
      StepDescends(c, table);
      Run(Step(c, table), table)
  }

  lemma RunStep(c: Config, table: Table)
    requires SoundTable(table) && c.Valid() && c.pp < |c.scraps|
    ensures Step(c, table).Valid() && Run(c, table) == Run(Step(c, table), table)
  {
    StepDescends(c, table);
  }

  lemma RunEnd(c: Config, table: Table)
    requires SoundTable(table) && c.Valid() && c.pp == |c.scraps|
    ensures Run(c, table) == c
  {
  }

  lemma {:induction false} RunValid(c: Config, table: Table)
    requires SoundTable(table) && c.Valid()
    ensures Run(c, table).Valid() && Run(c, table).pp == |Run(c, table).scraps|
    ensures Grows(c.mem, Run(c, table).mem)
    ensures c.scraps != [] ==> Run(c, table).scraps != []
    decreases |c.scraps|, Height(c.scraps), |c.scraps| - c.pp
  {
    if c.pp < |c.scraps| {
      StepDescends(c, table);
      RunValid(Step(c, table), table);
      GrowsTransitive(c.mem, Step(c, table).mem, Run(c, table).mem);
    }
  }

  lemma GrowsTransitive(m: Memory, m1: Memory, m2: Memory)
    requires Grows(m, m1) && Grows(m1, m2)
    ensures Grows(m, m2)
  {
  }

  // ----- Math modes over a run -------------------------------------------------------------------

  /** The scraps with which `translate` starts: texts that are not taken apart, each with its demand on
      both sides. */
  ghost predicate Initial(demand: nat -> Mathness, c: Config) {
    && c.Valid() && c.pp == 0
    && forall i | 0 <= i < |c.scraps| :: c.scraps[i].left == c.scraps[i].right == demand(c.scraps[i].text)
  }

  lemma InitialBalanced(demand: nat -> Mathness, c: Config)
    requires Initial(demand, c)
    ensures AllBalanced(demand, c, c.mem.Count())
  {
    var n0 := c.mem.Count();
    forall i | 0 <= i < |c.scraps| ensures Balanced(demand, c.mem, n0, c.scraps[i]) {
      var leaf := Leaf(c.scraps[i].text);
      assert Flat(c.mem, n0, c.scraps[i].text) == [leaf];
      OneAtom(demand, leaf, YesMath);
      OneAtom(demand, leaf, NoMath);
    }
  }

  /** Every scrap that exists at any time during the run has the left mode that its text demands. */
  ghost predicate Records(demand: nat -> Mathness, c: Config, table: Table)
    requires SoundTable(table) && c.Valid()
    decreases |c.scraps|, Height(c.scraps), |c.scraps| - c.pp
  {
    Tagged(demand, c) &&
    if c.pp == |c.scraps| then true
    else
      StepDescends(c, table);
      Records(demand, Step(c, table), table)
  }

  /** The demands after a production: those before, and the left mode of the scrap that has been built. */
  function NotedBy(demand: nat -> Mathness, c: Config, r: Rule): nat -> Mathness
    requires c.Valid() && Fits(c, r)
  {
    if r.effect.Recat? then demand
    else
      var left := Built(Prepared(c, r), r.effect.ops).init;
      (t: nat) => if t == c.mem.Count() then left else demand(t)
  }

  function Noted(demand: nat -> Mathness, c: Config, table: Table): nat -> Mathness
    requires SoundTable(table) && c.Valid() && c.pp < |c.scraps|
  {
    ProductionFits(c, table);
    if Production(c, table).Some? then NotedBy(demand, c, Production(c, table).value) else demand
  }

  /** What all texts demand: those at the beginning, those built during the run, and outside of math the one
      that `translate` returns. */
  function RunModes(demand: nat -> Mathness, c: Config, table: Table): nat -> Mathness
    requires SoundTable(table) && c.Valid()
    decreases |c.scraps|, Height(c.scraps), |c.scraps| - c.pp
  {
    if c.pp == |c.scraps| then (t: nat) => if t == c.mem.Count() then NoMath else demand(t)
    else
      StepDescends(c, table);
      RunModes(Noted(demand, c, table), Step(c, table), table)
  }

  lemma {:induction false} ModesKept(demand: nat -> Mathness, c: Config, table: Table)
    requires SoundTable(table) && c.Valid()
    ensures forall t: nat | t < c.mem.Count() :: RunModes(demand, c, table)(t) == demand(t)
    ensures Run(c, table).Valid() && RunModes(demand, c, table)(Run(c, table).mem.Count()) == NoMath
    decreases |c.scraps|, Height(c.scraps), |c.scraps| - c.pp
  {
    RunValid(c, table);
    if c.pp < |c.scraps| {
      StepDescends(c, table);
      ModesKept(Noted(demand, c, table), Step(c, table), table);
    }
  }

  /** Scraps that were there before keep their demands. */
  lemma TagsKept(demand: nat -> Mathness, modes: nat -> Mathness, c: Config, c': Config, j: nat, k: nat)
    requires Tagged(demand, c) && 1 <= k && j + k <= |c.scraps| && |c'.scraps| == |c.scraps| - k + 1
    requires forall i | 0 <= i < |c.scraps| :: modes(c.scraps[i].text) == demand(c.scraps[i].text)
    requires forall i | 0 <= i < |c'.scraps| && i != j :: c'.scraps[i] == c.scraps[if i < j then i else i + k - 1]
    requires modes(c'.scraps[j].text) == c'.scraps[j].left
    ensures Tagged(modes, c')
  {
  }

  lemma PreparedTags(demand: nat -> Mathness, c: Config, r: Rule)
    requires c.Valid() && Fits(c, r) && Tagged(demand, c)
    ensures Tagged(demand, Prepared(c, r)) && |Prepared(c, r).scraps| == |c.scraps|
    ensures forall i | 0 <= i < |Prepared(c, r).scraps| :: Prepared(c, r).scraps[i].text < c.mem.Count()
  {
    hide Fits;
  }

  lemma RuleTags(demand: nat -> Mathness, c: Config, r: Rule)
    requires c.Valid() && Fits(c, r) && Tagged(demand, c)
    ensures Tagged(NotedBy(demand, c, r), Apply(c, r))
  {
    if r.effect.Build? {
      NewScrap(c, r);
      PreparedTags(demand, c, r);
      assert |Apply(c, r).scraps| == |c.scraps| - r.k + 1 && r.k >= 1 && c.pp + r.at + r.k <= |c.scraps|;
      hide Tagged, Apply, Built, Fits, Retyped, Prepared;
      TagsKept(demand, NotedBy(demand, c, r), Prepared(c, r), Apply(c, r), c.pp + r.at, r.k);
    }
  }

  lemma NotedTags(demand: nat -> Mathness, c: Config, table: Table)
    requires SoundTable(table) && c.Valid() && c.pp < |c.scraps| && Tagged(demand, c)
    ensures Tagged(Noted(demand, c, table), Step(c, table))
  {
    ProductionFits(c, table);
    if Production(c, table).Some? { RuleTags(demand, c, Production(c, table).value); }
  }

  lemma {:induction false} ModesRecorded(demand: nat -> Mathness, c: Config, table: Table)
    requires SoundTable(table) && c.Valid() && Tagged(demand, c)
    ensures Records(RunModes(demand, c, table), c, table)
    decreases |c.scraps|, Height(c.scraps), |c.scraps| - c.pp
  {
    ModesKept(demand, c, table);
    if c.pp < |c.scraps| {
      StepDescends(c, table);
      NotedTags(demand, c, table);
      ModesRecorded(Noted(demand, c, table), Step(c, table), table);
    }
  }

  lemma {:induction false} RunKeepsBalance(demand: nat -> Mathness, c: Config, table: Table, n0: nat)
    requires SoundTable(table) && c.Valid() && n0 <= c.mem.Count() && AllBalanced(demand, c, n0)
    requires Records(demand, c, table)
    ensures Run(c, table).Valid() && n0 <= Run(c, table).mem.Count() && AllBalanced(demand, Run(c, table), n0)
    decreases |c.scraps|, Height(c.scraps), |c.scraps| - c.pp
  {
    RunValid(c, table);
    if c.pp < |c.scraps| {
      StepDescends(c, table);
      StepBalanced(demand, c, table, n0);
      RunKeepsBalance(demand, Step(c, table), table, n0);
    }
  }

  /** After any run from leaf scraps, every scrap's left mode is "maybe" iff its right mode is, and its
      text leads from the one to the other, entering every text in it in the left mode of its scrap. */
  lemma RunBalanced(demand: nat -> Mathness, c: Config, table: Table)
    requires SoundTable(table) && Initial(demand, c)
    ensures var modes := RunModes(demand, c, table);
            && Records(modes, c, table)
            && Run(c, table).Valid() && AllBalanced(modes, Run(c, table), c.mem.Count())
    ensures forall i | 0 <= i < |Run(c, table).scraps| ::
              Run(c, table).scraps[i].left.MaybeMath? <==> Run(c, table).scraps[i].right.MaybeMath?
  {
    var modes := RunModes(demand, c, table);
    ModesKept(demand, c, table);
    ModesRecorded(demand, c, table);
    InitialBalanced(modes, c);
    RunKeepsBalance(modes, c, table, c.mem.Count());
    var e := Run(c, table);
    forall i | 0 <= i < |e.scraps| ensures e.scraps[i].left.MaybeMath? <==> e.scraps[i].right.MaybeMath? {
      assert Balanced(modes, e.mem, c.mem.Count(), e.scraps[i]);
    }
  }

  // ----- The text that `translate` returns -------------------------------------------------------

  /** The tokens for one remaining scrap, put into math where its modes require it. */
  function Wrap(s: Scrap, first: bool): seq<Token> {
    (if first then [] else [Chr(Glyph(' '))])
    + (if s.left.YesMath? then [Chr(Glyph('$'))] else [])
    + [TextRef(s.text)]
    + (if s.right.YesMath? then [Chr(Glyph('$'))] else [])
  }

  function WrapScrap(ts: seq<Token>, s: Scrap, first: bool): seq<Token> {
    ts + Wrap(s, first)
  }

  function WrapAll(scraps: seq<Scrap>): seq<Token> {
    Wrapped(scraps)
  }

  function Wrapped(scraps: seq<Scrap>): seq<Token> {
    if scraps == [] then []
    else WrapScrap(Wrapped(scraps[..|scraps| - 1]), scraps[|scraps| - 1], |scraps| == 1)
  }

  /** The token memory with the text that `translate` returns as its last text. */
  function Finish(c: Config): Memory {
    c.mem.Freeze(WrapAll(c.scraps))
  }

  /** The tokens in front of the scrap. */
  function Opening(ts: seq<Token>, s: Scrap, first: bool): seq<Token> {
    var spaced := if first then ts else ts + [Chr(Glyph(' '))];
    if s.left.YesMath? then spaced + [Chr(Glyph('$'))] else spaced
  }

  function Closing(ts: seq<Token>, s: Scrap): seq<Token> {
    if s.right.YesMath? then ts + [Chr(Glyph('$'))] else ts
  }

  lemma WrapParts(ts: seq<Token>, s: Scrap, first: bool)
    ensures WrapScrap(ts, s, first) == Closing(Opening(ts, s, first) + [TextRef(s.text)], s)
  {
    var blank := if first then [] else [Chr(Glyph(' '))];
    var dollar := if s.left.YesMath? then [Chr(Glyph('$'))] else [];
    assert Opening(ts, s, first) == ts + blank + dollar;
    var tail := if s.right.YesMath? then [Chr(Glyph('$'))] else [];
    assert Closing(Opening(ts, s, first) + [TextRef(s.text)], s) == ts + blank + dollar + [TextRef(s.text)] + tail;
  }

  lemma OpeningLeads(demand: nat -> Mathness, m: Memory, n0: nat, ts: seq<Token>, s: Scrap, first: bool, bound: nat)
    requires m.Ordered() && bound <= m.Count()
    requires Leads(demand, FlatToks(m, n0, ts, bound), NoMath, NoMath)
    ensures Leads(demand, FlatToks(m, n0, Opening(ts, s, first), bound), NoMath,
                  if s.left.YesMath? then YesMath else NoMath)
  {
    var spaced := if first then ts else ts + [Chr(Glyph(' '))];
    if !first { CharLeads(demand, m, n0, ts, Glyph(' '), bound, NoMath, NoMath); }
    if s.left.YesMath? { DollarLeads(demand, m, n0, spaced, bound, NoMath, NoMath); }
  }

  lemma WrapLeads(demand: nat -> Mathness, m: Memory, n0: nat, ts: seq<Token>, s: Scrap, first: bool, bound: nat)
    requires m.Ordered() && bound <= m.Count() && s.text < bound && Balanced(demand, m, n0, s)
    requires Leads(demand, FlatToks(m, n0, ts, bound), NoMath, NoMath)
    ensures Leads(demand, FlatToks(m, n0, WrapScrap(ts, s, first), bound), NoMath, NoMath)
  {
    WrapParts(ts, s, first);
    OpeningLeads(demand, m, n0, ts, s, first, bound);
    var t := Opening(ts, s, first);
    RefLeads(demand, m, n0, t, s, bound, NoMath, if s.left.YesMath? then YesMath else NoMath);
    if s.right.YesMath? { DollarLeads(demand, m, n0, t + [TextRef(s.text)], bound, NoMath, YesMath); }
  }

  lemma WrapContent(m: Memory, n0: nat, ts: seq<Token>, s: Scrap, first: bool, bound: nat)
    requires m.Ordered() && bound <= m.Count() && s.text < bound
    ensures Content(FlatToks(m, n0, WrapScrap(ts, s, first), bound)) ==
            Content(FlatToks(m, n0, ts, bound)) + TextContent(m, n0, s.text)
  {
    WrapParts(ts, s, first);
    var spaced := if first then ts else ts + [Chr(Glyph(' '))];
    var t := Opening(ts, s, first);
    if !first { CharContent(m, n0, ts, Glyph(' '), bound); }
    if s.left.YesMath? { CharContent(m, n0, spaced, Glyph('$'), bound); }
    AppendAtoms(m, n0, t, TextRef(s.text), bound);
    ContentAppend(FlatToks(m, n0, t, bound), Flat(m, n0, s.text));
    if s.right.YesMath? { CharContent(m, n0, t + [TextRef(s.text)], Glyph('$'), bound); }
  }

  lemma {:induction false} WrapAllLeads(demand: nat -> Mathness, m: Memory, n0: nat, scraps: seq<Scrap>, bound: nat)
    requires m.Ordered() && bound <= m.Count() && TextsBelow(scraps, bound)
    requires forall i | 0 <= i < |scraps| :: Balanced(demand, m, n0, scraps[i])
    ensures Leads(demand, FlatToks(m, n0, WrapAll(scraps), bound), NoMath, NoMath)
  {
    if scraps != [] {
      var n := |scraps| - 1;
      WrapAllLeads(demand, m, n0, scraps[..n], bound);
      WrapLeads(demand, m, n0, WrapAll(scraps[..n]), scraps[n], |scraps| == 1, bound);
    }
  }

  lemma {:induction false} WrapAllContent(m: Memory, n0: nat, scraps: seq<Scrap>, bound: nat)
    requires m.Ordered() && bound <= m.Count() && TextsBelow(scraps, bound)
    ensures Content(FlatToks(m, n0, WrapAll(scraps), bound)) == Contents(m, n0, scraps)
  {
    if scraps != [] {
      var n := |scraps| - 1;
      WrapAllContent(m, n0, scraps[..n], bound);
      WrapContent(m, n0, WrapAll(scraps[..n]), scraps[n], |scraps| == 1, bound);
    }
  }

  lemma {:induction false} WrapAllRefers(scraps: seq<Scrap>, bound: nat)
    requires TextsBelow(scraps, bound)
    ensures RefersBelow(WrapAll(scraps), bound)
    ensures scraps != [] ==> WrapAll(scraps) != []
  {
    if scraps != [] {
      WrapAllRefers(scraps[..|scraps| - 1], bound);
    }
  }

  lemma FinishValid(c: Config)
    requires c.Valid() && c.scraps != []
    ensures Finish(c).Valid() && Grows(c.mem, Finish(c)) && Finish(c).Count() == c.mem.Count() + 1
    ensures Finish(c).Text(c.mem.Count()) == WrapAll(c.scraps)
  {
    WrapAllRefers(c.scraps, c.mem.Count());
    FreezeKeeps(c.mem, WrapAll(c.scraps));
  }

  /** Typesetting the text that `translate` returns from outside of math ends outside of math and enters
      every text in the mode it demands. */
  lemma ReturnedModes(demand: nat -> Mathness, c: Config, n0: nat)
    requires c.Valid() && c.scraps != [] && n0 <= c.mem.Count() && AllBalanced(demand, c, n0)
    requires demand(c.mem.Count()) == NoMath
    ensures Finish(c).Valid() && Finish(c).Count() == c.mem.Count() + 1
    ensures EndMode(demand, Flat(Finish(c), n0, c.mem.Count()), NoMath) == Some(NoMath)
  {
    FinishValid(c);
    var m, m', t := c.mem, Finish(c), c.mem.Count();
    forall i | 0 <= i < |c.scraps| ensures Balanced(demand, m', n0, c.scraps[i]) {
      assert Balanced(demand, m, n0, c.scraps[i]);
      FlatGrows(m, m', n0, c.scraps[i].text);
    }
    WrapAllLeads(demand, m', n0, c.scraps, t);
    EntryLeads(demand, t, FlatToks(m', n0, WrapAll(c.scraps), t), NoMath, NoMath);
  }

  /** The content of the text that `translate` returns is that of the scraps that remained. */
  lemma ReturnedContent(c: Config, n0: nat)
    requires c.Valid() && c.scraps != [] && n0 <= c.mem.Count()
    ensures Finish(c).Valid() && Finish(c).Count() == c.mem.Count() + 1
    ensures TextContent(Finish(c), n0, c.mem.Count()) == ConfigContent(c, n0)
  {
    FinishValid(c);
    TakenApart(Finish(c), n0, c.mem.Count());
    WrapAllContent(Finish(c), n0, c.scraps, c.mem.Count());
    ContentsGrows(c.mem, Finish(c), n0, c.scraps);
  }

  // ----- Conservation over a run -----------------------------------------------------------------

  /** How many atoms of content the forgetting productions of a run lose. */
  function Lost(c: Config, table: Table, n0: nat): nat
    requires SoundTable(table) && c.Valid()
    decreases |c.scraps|, Height(c.scraps), |c.scraps| - c.pp
  {
    if c.pp == |c.scraps| then 0
    else
      StepDescends(c, table);
      (if Forgetting(c, table) then |TextContent(c.mem, n0, c.scraps[c.pp].text)| else 0)
      + Lost(Step(c, table), table, n0)
  }

  /** A run conserves the content of the scraps iff its forgetting productions met no content. */
  lemma {:induction false} RunConservesIff(c: Config, table: Table, n0: nat)
    requires SoundTable(table) && c.Valid() && n0 <= c.mem.Count()
    ensures Run(c, table).Valid()
    ensures |ConfigContent(c, n0)| == |ConfigContent(Run(c, table), n0)| + Lost(c, table, n0)
    ensures ConfigContent(Run(c, table), n0) == ConfigContent(c, n0) <==> Lost(c, table, n0) == 0
    decreases |c.scraps|, Height(c.scraps), |c.scraps| - c.pp
  {
    RunValid(c, table);
    if c.pp < |c.scraps| {
      StepDescends(c, table);
      StepConservesIff(c, table, n0);
      RunConservesIff(Step(c, table), table, n0);
    }
  }

  // ----- The laws of translate -------------------------------------------------------------------

  /** The text that `translate` returns for leaf scraps starts and ends outside of math, and every text in it,
      given or built on the way, is entered in the left mode that its scrap had. */
  lemma TranslationBalanced(demand: nat -> Mathness, c: Config, forceLines: bool)
    requires Initial(demand, c) && c.scraps != []
    ensures var table := CweaveTable(forceLines);
            var e, modes := Run(c, table), RunModes(demand, c, table);
            && (forall t: nat | t < c.mem.Count() :: modes(t) == demand(t)) && Records(modes, c, table)
            && e.Valid() && Finish(e).Valid() && Finish(e).Count() == e.mem.Count() + 1
            && modes(e.mem.Count()) == NoMath
            && EndMode(modes, Flat(Finish(e), c.mem.Count(), e.mem.Count()), NoMath) == Some(NoMath)
  {
    var table := CweaveTable(forceLines);
    RunBalanced(demand, c, table);
    RunValid(c, table);
    ModesKept(demand, c, table);
    GrowingCount(c.mem, Run(c, table).mem);
    ReturnedModes(RunModes(demand, c, table), Run(c, table), c.mem.Count());
  }

  lemma GrowingCount(m: Memory, m': Memory)
    requires Grows(m, m')
    ensures m.Count() <= m'.Count()
  {
  }
}
