/** When CWEAVE's parser conserves the source text: the only text that it ever loses is what an angle bracket has
    absorbed before it is forgotten, and that can be read off the scraps it starts with. */
module ScrapConservation {
  import opened Wrappers
  import opened Productions
  import opened ScrapKinds
  import opened ScrapTexts
  import opened ScrapMachine
  import opened ScrapLaws
  import opened ScrapRuns
  import opened ScrapMarks

  function MarkOf(m: Memory, n0: nat, s: Scrap): Mark
    requires m.Ordered() && s.text < m.Count()
  {
    Mark(KindOf(s.cat), TextContent(m, n0, s.text) != [])
  }

  function Marks(c: Config, n0: nat): (ms: seq<Mark>)
    requires c.mem.Ordered() && TextsBelow(c.scraps, c.mem.Count())
    ensures |ms| == |c.scraps|
    ensures forall i | 0 <= i < |ms| :: ms[i] == MarkOf(c.mem, n0, c.scraps[i])
  {
    seq(|c.scraps|, i requires 0 <= i < |c.scraps| => MarkOf(c.mem, n0, c.scraps[i]))
  }

  // ----- A step, seen on marks -------------------------------------------------------------------

  lemma ProductionTidy(c: Config, table: Table, r: Rule)
    requires SoundTable(table) && c.pp < |c.scraps| && Production(c, table) == Some(r)
    ensures Conserving(r) && Tidy(Some(r), c.Cat(0), c.Cat(1), c.Cat(2), c.Cat(3))
  {
    assert Sound(Production(c, table), c.Cat(0), c.Cat(1), c.Cat(2), c.Cat(3));
  }

  lemma CategoryAt(c: Config, i: nat)
    requires i < 4
    ensures Category(c.Cat(0), c.Cat(1), c.Cat(2), c.Cat(3), i) == c.Cat(i)
  {
  }

  lemma RuleArises(c: Config, r: Rule)
    requires c.Valid() && Fits(c, r) && Tidy(Some(r), c.Cat(0), c.Cat(1), c.Cat(2), c.Cat(3))
    ensures Arises(ChangeOf(r), KindOf(c.scraps[c.pp + r.at].cat), KindOf(c.scraps[c.pp + r.at + r.k - 1].cat))
  {
    CategoryAt(c, r.at);
    CategoryAt(c, r.at + r.k - 1);
    hide Closed, KeepsOrder, Rank, Category, Arises, KindOf, ChangeOf;
  }

  /** A production forgets only a bracket at `pp` that has nothing more to absorb. */
  lemma RuleForgets(c: Config, r: Rule)
    requires c.Valid() && Fits(c, r) && Tidy(Some(r), c.Cat(0), c.Cat(1), c.Cat(2), c.Cat(3)) && ForgetsText(r)
    ensures r.at == 0 && r.k == 1 && Bracket(c.scraps[c.pp].cat) && !c.Cat(1).Insert?
  {
    hide Closed, Origins, CopiesInOrder, Rank, Category;
  }

  /** And `pp` moves on only past other scraps. */
  lemma RuleMovesOn(c: Config, r: Rule)
    requires c.Valid() && Fits(c, r) && Tidy(Some(r), c.Cat(0), c.Cat(1), c.Cat(2), c.Cat(3)) && r.d > 0
    ensures r.at <= 1 && !Bracket(c.scraps[c.pp].cat) && !c.scraps[c.pp].cat.Insert?
    ensures !Bracket(r.cat) && !r.cat.Insert? && (r.at == 0 ==> !c.Cat(r.k).Insert?)
  {
    if r.k < 4 { CategoryAt(c, r.k); }
    hide Closed, Origins, KeepsOrder, Rank, Category;
  }

  lemma RuleStands(c: Config, r: Rule, n0: nat)
    requires c.Valid() && Fits(c, r) && Tidy(Some(r), c.Cat(0), c.Cat(1), c.Cat(2), c.Cat(3))
    ensures Stands(Marks(c, n0), c.pp, ChangeOf(r))
  {
    hide Tidy, KeepsOrder, Conserving, Rank, TextContent;
    if ForgetsText(r) { RuleForgets(c, r); }
    if r.d > 0 { RuleMovesOn(c, r); }
  }

  lemma RuleRegular(c: Config, r: Rule, n0: nat)
    requires c.Valid() && Fits(c, r) && Tidy(Some(r), c.Cat(0), c.Cat(1), c.Cat(2), c.Cat(3))
    ensures Regular(Marks(c, n0), c.pp, ChangeOf(r))
  {
    hide Tidy, Category, Conserving, Rank, TextContent, Arises, Stands, KindOf, Bracket;
    RuleArises(c, r);
    RuleStands(c, r, n0);
  }

  lemma {:induction false} ContentsLoaded(m: Memory, n0: nat, scraps: seq<Scrap>)
    requires m.Ordered() && TextsBelow(scraps, m.Count())
    ensures Contents(m, n0, scraps) != [] <==> exists i :: 0 <= i < |scraps| && TextContent(m, n0, scraps[i].text) != []
  {
    if scraps != [] {
      var n := |scraps| - 1;
      ContentsLoaded(m, n0, scraps[..n]);
      if i :| 0 <= i < n && TextContent(m, n0, scraps[..n][i].text) != [] {
        assert TextContent(m, n0, scraps[i].text) != [];
      }
      if i :| 0 <= i < n && TextContent(m, n0, scraps[i].text) != [] {
        assert TextContent(m, n0, scraps[..n][i].text) != [];
      }
    }
  }

  lemma PreparedMarks(c: Config, r: Rule, n0: nat)
    requires c.Valid() && Fits(c, r)
    ensures Marks(Prepared(c, r), n0) == Marks(c, n0)
  {
    var c1 := Prepared(c, r);
    forall i | 0 <= i < |c.scraps| ensures MarkOf(c1.mem, n0, c1.scraps[i]) == MarkOf(c.mem, n0, c.scraps[i]) {
      FlatGrows(c.mem, c1.mem, n0, c.scraps[i].text);
    }
  }

  /** The content of a text that was built. */
  lemma NewContent(c: Config, r: Rule, ops: Ops, n0: nat)
    requires c.Valid() && r.k >= 1 && c.pp + r.at + r.k <= |c.scraps| && r.d <= 1 && !r.cat.Zero?
    requires KeepsOrder(ops, r.at, r.k) && n0 <= c.mem.Count()
    ensures Rebuild(c, r, ops).mem.Ordered() && Rebuild(c, r, ops).mem.Count() == c.mem.Count() + 1
    ensures var j := c.pp + r.at;
            TextContent(Rebuild(c, r, ops).mem, n0, c.mem.Count()) ==
            if Forgets(ops) then [] else Contents(c.mem, n0, c.scraps[j..j + r.k])
  {
    var w := Built(c, ops);
    BuiltText(c, r, ops);
    ReplaceValid(c, r, w);
    var m' := Replace(c, r, w).mem;
    TakenApart(m', n0, c.mem.Count());
    if Forgets(ops) {
      ForgottenContent(m', n0, ops, c.scraps[c.pp..], c.mem.Count());
    } else {
      BuiltContent(c, m', r, ops, n0);
    }
  }

  /** The marks of the scraps that are not consumed. */
  lemma AroundMarks(c: Config, r: Rule, w: Work, n0: nat, i: nat)
    requires c.Valid() && r.k >= 1 && c.pp + r.at + r.k <= |c.scraps|
    requires Replace(c, r, w).Valid() && Grows(c.mem, Replace(c, r, w).mem)
    requires i < |Replace(c, r, w).scraps| && i != c.pp + r.at
    ensures Marks(Replace(c, r, w), n0)[i] == Marks(c, n0)[if i < c.pp + r.at then i else i + r.k - 1]
  {
    var x := if i < c.pp + r.at then i else i + r.k - 1;
    assert Replace(c, r, w).scraps[i] == c.scraps[x];
    FlatGrows(c.mem, Replace(c, r, w).mem, n0, c.scraps[x].text);
  }

  /** The mark of the new scrap. */
  lemma NewMark(c: Config, r: Rule, ops: Ops, n0: nat)
    requires c.Valid() && r.k >= 1 && c.pp + r.at + r.k <= |c.scraps| && r.d <= 1 && !r.cat.Zero?
    requires KeepsOrder(ops, r.at, r.k) && n0 <= c.mem.Count()
    ensures Rebuild(c, r, ops).Valid() && Grows(c.mem, Rebuild(c, r, ops).mem)
    ensures |Rebuild(c, r, ops).scraps| == |c.scraps| - r.k + 1
    ensures var j := c.pp + r.at;
            Marks(Rebuild(c, r, ops), n0)[j] ==
            Mark(KindOf(r.cat), !Forgets(ops) && AnyLoaded(Marks(c, n0), j, j + r.k))
  {
    hide KeepsOrder, Forgets, Rebuild, Built, KindOf, AnyLoaded, TextContent, Contents, Grows;
    RebuildParts(c, r, ops);
    NewContent(c, r, ops, n0);
    NewLoaded(c, c.pp + r.at, r.k, n0);
  }

  lemma RebuildMarks(c: Config, r: Rule, ops: Ops, n0: nat)
    requires c.Valid() && r.k >= 1 && c.pp + r.at + r.k <= |c.scraps| && r.d <= 1 && !r.cat.Zero?
    requires KeepsOrder(ops, r.at, r.k) && n0 <= c.mem.Count()
    ensures Rebuild(c, r, ops).Valid()
    ensures Marks(Rebuild(c, r, ops), n0) ==
            After(Marks(c, n0), c.pp, Change(r.at, r.k, KindOf(r.cat), r.d, Forgets(ops)))
  {
    hide KindOf, AnyLoaded, KeepsOrder, Forgets, Built, Replace, Grows, MarkOf;
    NewMark(c, r, ops, n0);
    var w := Built(c, ops);
    assert Rebuild(c, r, ops) == Replace(c, r, w);
    forall i | 0 <= i < |Replace(c, r, w).scraps| && i != c.pp + r.at
      ensures Marks(Replace(c, r, w), n0)[i] == Marks(c, n0)[if i < c.pp + r.at then i else i + r.k - 1]
    {
      AroundMarks(c, r, w, n0, i);
    }
  }

  lemma NewLoaded(c: Config, j: nat, k: nat, n0: nat)
    requires c.mem.Ordered() && TextsBelow(c.scraps, c.mem.Count()) && j + k <= |c.scraps|
    ensures Contents(c.mem, n0, c.scraps[j..j + k]) != [] <==> AnyLoaded(Marks(c, n0), j, j + k)
  {
    var mid, ms := c.scraps[j..j + k], Marks(c, n0);
    ContentsLoaded(c.mem, n0, mid);
    forall i | 0 <= i < k ensures TextContent(c.mem, n0, mid[i].text) != [] <==> ms[j + i].loaded {
    }
    if i :| j <= i < j + k && i < |ms| && ms[i].loaded {
      assert TextContent(c.mem, n0, mid[i - j].text) != [];
    }
  }

  lemma RecatMarks(c: Config, r: Rule, n0: nat)
    requires c.Valid() && r.k == 1 && c.pp + r.at < |c.scraps| && r.d <= 1 && !r.cat.Zero?
    ensures Recategorise(c, r).Valid()
    ensures Marks(Recategorise(c, r), n0) == After(Marks(c, n0), c.pp, Change(r.at, 1, KindOf(r.cat), r.d, false))
  {
    var j, ms := c.pp + r.at, Marks(c, n0);
    assert AnyLoaded(ms, j, j + 1) == ms[j].loaded;
  }

  lemma ApplyMarks(c: Config, r: Rule, n0: nat)
    requires c.Valid() && Fits(c, r) && n0 <= c.mem.Count()
    ensures Apply(c, r).Valid() && Marks(Apply(c, r), n0) == After(Marks(c, n0), c.pp, ChangeOf(r))
    ensures Apply(c, r).pp == MovedBy(c.pp, r.d)
  {
    match r.effect
    case Recat => RecatMarks(c, r, n0);
    case Build(ops) =>
      PreparedMarks(c, r, n0);
      RebuildMarks(Prepared(c, r), r, ops, n0);
  }

  // ----- A whole run -----------------------------------------------------------------------------

  /** What a step does to brackets and to what they will absorb. */
  lemma StepMarks(c: Config, table: Table, n0: nat)
    requires SoundTable(table) && c.Valid() && c.pp < |c.scraps| && n0 <= c.mem.Count() && Placed(Marks(c, n0), c.pp)
    ensures var c' := Step(c, table);
            && c'.Valid() && Placed(Marks(c', n0), c'.pp)
            && (Exposed(Marks(c', n0)) ==> Exposed(Marks(c, n0)) || Lined(Marks(c, n0)))
            && (Lined(Marks(c', n0)) ==> Lined(Marks(c, n0)))
    ensures Forgetting(c, table) && TextContent(c.mem, n0, c.scraps[c.pp].text) != [] ==> Exposed(Marks(c, n0))
  {
    ProductionFits(c, table);
    StepByRule(c, table);
    match Production(c, table)
    case None => NoneMarks(c, table, n0);
    case Some(r) =>
      ProductionTidy(c, table, r);
      RuleMarks(c, r, n0);
  }

  lemma NoneThorough(c: Config, table: Table)
    requires SoundTable(table) && Production(c, table).None?
    ensures !Bracket(c.Cat(0)) && !c.Cat(1).Insert? && (c.Cat(0).Insert? ==> c.Cat(1).Zero?)
  {
    assert Thorough(Production(c, table), c.Cat(0), c.Cat(1), c.Cat(2), c.Cat(3));
  }

  lemma NoneMarks(c: Config, table: Table, n0: nat)
    requires SoundTable(table) && c.Valid() && c.pp < |c.scraps| && Production(c, table).None?
    requires Placed(Marks(c, n0), c.pp)
    ensures Marks(c.(pp := c.pp + 1), n0) == Marks(c, n0) && Placed(Marks(c, n0), c.pp + 1)
  {
    hide SoundTable, TextContent, Production;
    NoneThorough(c, table);
    assert c.pp + 1 < |c.scraps| ==> c.Cat(1) == c.scraps[c.pp + 1].cat;
    assert c.Cat(0) == c.scraps[c.pp].cat;
  }

  lemma RuleMarks(c: Config, r: Rule, n0: nat)
    requires c.Valid() && Fits(c, r) && Tidy(Some(r), c.Cat(0), c.Cat(1), c.Cat(2), c.Cat(3))
    requires n0 <= c.mem.Count() && Placed(Marks(c, n0), c.pp)
    ensures var c' := Apply(c, r);
            && c'.Valid() && Placed(Marks(c', n0), c'.pp)
            && (Exposed(Marks(c', n0)) ==> Exposed(Marks(c, n0)) || Lined(Marks(c, n0)))
            && (Lined(Marks(c', n0)) ==> Lined(Marks(c, n0)))
    ensures ForgetsText(r) && TextContent(c.mem, n0, c.scraps[c.pp].text) != [] ==> Exposed(Marks(c, n0))
  {
    hide Tidy, Fits, KindOf, TextContent, Apply, Placed, Exposed, Lined, After;
    var ms, ch := Marks(c, n0), ChangeOf(r);
    RuleRegular(c, r, n0);
    ApplyMarks(c, r, n0);
    PlacedKept(ms, c.pp, ch);
    if Exposed(After(ms, c.pp, ch)) { ExposedBefore(ms, c.pp, ch); }
    if Lined(After(ms, c.pp, ch)) { LinedBefore(ms, c.pp, ch); }
    if ForgetsText(r) && ms[c.pp].loaded { ForgetsExposed(ms, c.pp, ch); }
  }

  /** A run that begins with nothing exposed loses nothing, */
  lemma {:induction false} NothingExposed(c: Config, table: Table, n0: nat)
    requires SoundTable(table) && c.Valid() && n0 <= c.mem.Count() && Placed(Marks(c, n0), c.pp)
    requires !Exposed(Marks(c, n0)) && !Lined(Marks(c, n0))
    ensures Lost(c, table, n0) == 0
    decreases |c.scraps|, Height(c.scraps), |c.scraps| - c.pp
  {
    hide Placed, Exposed, Lined, SoundTable, Descends, Step, Forgetting;
    if c.pp < |c.scraps| {
      StepDescends(c, table);
      StepMarks(c, table, n0);
      NothingExposed(Step(c, table), table, n0);
    }
  }

  // ----- The exact condition where brackets begin no templates ------------------------------------

  /** No scrap has to do with types, template brackets or macro arguments. */
  ghost predicate AllUndeclared(c: Config) {
    forall i | 0 <= i < |c.scraps| :: !Declares(c.scraps[i].cat)
  }

  /** There is no bracket `<`, and no end of a macro argument. */
  ghost predicate AllUnopened(c: Config) {
    forall i | 0 <= i < |c.scraps| :: !Opens(c.scraps[i].cat)
  }

  /** No bracket can begin a template: there are no types for it, or no such brackets. */
  ghost predicate NoTemplates(c: Config) {
    AllUndeclared(c) || AllUnopened(c)
  }

  /** Productions do not lead out of this class, and consume brackets only where they forget them or let them absorb
      something. */
  lemma RuleNoTemplates(c: Config, r: Rule, n0: nat)
    requires c.Valid() && Fits(c, r) && Tidy(Some(r), c.Cat(0), c.Cat(1), c.Cat(2), c.Cat(3)) && NoTemplates(c)
    ensures AllUndeclared(c) ==> r.reserve.None? && !Declares(r.cat)
    ensures AllUnopened(c) ==> !Opens(r.cat)
    ensures KeepsBrackets(Marks(c, n0), c.pp, ChangeOf(r))
  {
    hide Origins, InTurn, Conserving, Rank, TextContent, Forgets;
    assert AllUndeclared(c) ==> Undeclared(c.Cat(0), c.Cat(1), c.Cat(2), c.Cat(3));
    assert AllUnopened(c) ==> Unopened(c.Cat(0), c.Cat(1), c.Cat(2), c.Cat(3));
    forall i | c.pp + r.at <= i < c.pp + r.at + r.k && Bracket(c.scraps[i].cat)
      ensures ForgetsText(r) || Bracket(r.cat)
    {
      assert Takes(r, i - c.pp) && c.Cat(i - c.pp) == c.scraps[i].cat;
    }
  }

  /** Every category after a production was there before, or is what the production makes, or what `make_reserved`
      makes of an expression. */
  lemma ApplyCategories(c: Config, r: Rule, i: nat)
    requires c.Valid() && Fits(c, r) && i < |Apply(c, r).scraps|
    ensures var cat := Apply(c, r).scraps[i].cat;
            || cat == r.cat || (r.reserve.Some? && cat.RawInt?)
            || exists j :: 0 <= j < |c.scraps| && c.scraps[j].cat == cat
  {
  }

  lemma ApplyNoTemplates(c: Config, r: Rule)
    requires c.Valid() && Fits(c, r) && NoTemplates(c)
    requires AllUndeclared(c) ==> r.reserve.None? && !Declares(r.cat)
    requires AllUnopened(c) ==> !Opens(r.cat)
    ensures NoTemplates(Apply(c, r))
  {
    hide Apply, Fits;
    forall i | 0 <= i < |Apply(c, r).scraps|
      ensures AllUndeclared(c) ==> !Declares(Apply(c, r).scraps[i].cat)
      ensures AllUnopened(c) ==> !Opens(Apply(c, r).scraps[i].cat)
    {
      ApplyCategories(c, r, i);
    }
  }

  /** In this class what is exposed stays exposed, or is lost. */
  lemma StepNoTemplates(c: Config, table: Table, n0: nat)
    requires SoundTable(table) && c.Valid() && c.pp < |c.scraps| && n0 <= c.mem.Count() && Placed(Marks(c, n0), c.pp)
    requires NoTemplates(c)
    ensures Step(c, table).Valid() && NoTemplates(Step(c, table))
    ensures Exposed(Marks(c, n0)) && !(Forgetting(c, table) && TextContent(c.mem, n0, c.scraps[c.pp].text) != []) ==>
            Exposed(Marks(Step(c, table), n0))
  {
    ProductionFits(c, table);
    StepByRule(c, table);
    match Production(c, table)
    case None => NoneMarks(c, table, n0);
    case Some(r) =>
      ProductionTidy(c, table, r);
      RuleStaysExposed(c, r, n0);
  }

  lemma RuleStaysExposed(c: Config, r: Rule, n0: nat)
    requires c.Valid() && Fits(c, r) && Tidy(Some(r), c.Cat(0), c.Cat(1), c.Cat(2), c.Cat(3)) && NoTemplates(c)
    requires n0 <= c.mem.Count() && Placed(Marks(c, n0), c.pp)
    ensures Apply(c, r).Valid() && NoTemplates(Apply(c, r))
    ensures Exposed(Marks(c, n0)) && !(ForgetsText(r) && TextContent(c.mem, n0, c.scraps[c.pp].text) != []) ==>
            Exposed(Marks(Apply(c, r), n0))
  {
    hide Tidy, Fits, KindOf, TextContent, Apply, Placed, After, NoTemplates;
    var ms := Marks(c, n0);
    RuleRegular(c, r, n0);
    RuleNoTemplates(c, r, n0);
    ApplyNoTemplates(c, r);
    ApplyMarks(c, r, n0);
    if Exposed(ms) && !(ForgetsText(r) && ms[c.pp].loaded) {
      var j: nat, i: nat :| ExposedAt(ms, j, i);
      ExposedOn(ms, c.pp, ChangeOf(r), j, i);
    }
  }

  /** At the end of a run no bracket is left. */
  lemma NoneLeft(ms: seq<Mark>)
    requires Placed(ms, |ms|)
    ensures !Exposed(ms)
  {
  }

  /** A run in this class loses something exactly if something is exposed when it begins. */
  lemma {:induction false} LostIffExposed(c: Config, table: Table, n0: nat)
    requires SoundTable(table) && c.Valid() && n0 <= c.mem.Count() && Placed(Marks(c, n0), c.pp)
    requires NoTemplates(c) && !Lined(Marks(c, n0))
    ensures Lost(c, table, n0) > 0 <==> Exposed(Marks(c, n0))
    decreases |c.scraps|, Height(c.scraps), |c.scraps| - c.pp
  {
    hide Placed, Exposed, Lined, SoundTable, Descends, Step, Forgetting, NoTemplates;
    if c.pp == |c.scraps| {
      NoneLeft(Marks(c, n0));
    } else {
      StepDescends(c, table);
      StepMarks(c, table, n0);
      StepNoTemplates(c, table, n0);
      LostIffExposed(Step(c, table), table, n0);
    }
  }

  // ----- The laws of translate -------------------------------------------------------------------

  /** Does the text that `translate` returns have the content of the given scraps? */
  ghost predicate Conserves(c: Config, forceLines: bool, n0: nat)
    requires c.Valid() && c.scraps != [] && n0 <= c.mem.Count()
  {
    var e := Run(c, CweaveTable(forceLines));
    RunValid(c, CweaveTable(forceLines));
    GrowingCount(c.mem, e.mem);
    FinishValid(e);
    TextContent(Finish(e), n0, e.mem.Count()) == ConfigContent(c, n0)
  }

  lemma ConservesIffLost(c: Config, forceLines: bool, n0: nat)
    requires c.Valid() && c.scraps != [] && n0 <= c.mem.Count()
    ensures Conserves(c, forceLines, n0) <==> Lost(c, CweaveTable(forceLines), n0) == 0
  {
    var table := CweaveTable(forceLines);
    RunValid(c, table);
    GrowingCount(c.mem, Run(c, table).mem);
    ReturnedContent(Run(c, table), n0);
    RunConservesIff(c, table, n0);
  }

  /** `translate` conserves the source text, unless an angle bracket has or will absorb some of it; with `n0 == 0`
      the source text are the names of identifiers and sections. */
  lemma TranslationConserves(c: Config, forceLines: bool, n0: nat)
    requires c.Valid() && c.scraps != [] && c.pp == 0 && n0 <= c.mem.Count()
    requires !Exposed(Marks(c, n0)) && !Lined(Marks(c, n0))
    ensures Conserves(c, forceLines, n0)
  {
    NothingExposed(c, CweaveTable(forceLines), n0);
    ConservesIffLost(c, forceLines, n0);
  }

  /** Where nothing is declared, or no bracket opens anything, this is the exact condition. */
  lemma TranslationConservesIff(c: Config, forceLines: bool, n0: nat)
    requires c.Valid() && c.scraps != [] && c.pp == 0 && n0 <= c.mem.Count()
    requires NoTemplates(c) && !Lined(Marks(c, n0))
    ensures Conserves(c, forceLines, n0) <==> !Exposed(Marks(c, n0))
  {
    LostIffExposed(c, CweaveTable(forceLines), n0);
    ConservesIffLost(c, forceLines, n0);
  }

  /** Without angle brackets everything is conserved. */
  lemma NoBracketConserves(c: Config, forceLines: bool, n0: nat)
    requires c.Valid() && c.scraps != [] && c.pp == 0 && n0 <= c.mem.Count()
    requires forall i | 0 <= i < |c.scraps| :: !Bracket(c.scraps[i].cat)
    ensures Conserves(c, forceLines, n0)
  {
    TranslationConserves(c, forceLines, n0);
  }

  // ----- A comment behind an angle bracket -------------------------------------------------------

  function Chars(s: string): seq<Token> {
    seq(|s|, i requires 0 <= i < |s| => Chr(Glyph(s[i])))
  }

  /** What the scanner delivers for the C text `a < /*|c|*/ b`: texts 0, 1 and 8 are `a`, `<` and `b`, texts 2 to 7 come
      from the comment, in which `c` has been translated to text 6, and text 9 ends the whole. */
  const COMMENT_BEHIND_ANGLE := Config(
    [Scrap(Exp, MaybeMath, MaybeMath, 0), Scrap(PreLAngle, YesMath, YesMath, 1),
     Scrap(Insert, NoMath, NoMath, 7), Scrap(Exp, MaybeMath, MaybeMath, 8), Scrap(Insert, NoMath, NoMath, 9)],
    0,
    Memory(
      [Ident(1)] + Chars("\\langle") + [Chr(Cancel), Chr(Inserted)] + Chars("\\C{")
      + [Ident(7), Chr(Cancel), TextRef(3), TextRef(4), TextRef(5)]
      + [TextRef(2)] + Chars("\\PB{") + [InnerRef(6)] + Chars("}}") + [Chr(Force), Ident(2), Chr(Force)],
      [0, 1, 8, 13, 14, 15, 17, 18, 27, 28, 29]))

  lemma CommentTokens()
    ensures var toks := COMMENT_BEHIND_ANGLE.mem.toks;
            && |toks| == 29 && toks[13] == Ident(7) && toks[15] == TextRef(3) && toks[16] == TextRef(4)
            && toks[17] == TextRef(5) && toks[18] == TextRef(2) && toks[23] == InnerRef(6)
            && forall p | 0 <= p < 29 && p != 15 && p != 16 && p != 17 && p != 18 && p != 23 :: !IsRef(toks[p])
  {
    var angle, comment, section := Chars("\\langle"), Chars("\\C{"), Chars("\\PB{");
    assert |angle| == 7 && |comment| == 3 && |section| == 4;
  }

  lemma CommentTexts()
    ensures var m := COMMENT_BEHIND_ANGLE.mem;
            && m.Ordered() && m.Count() == 10
            && m.Text(3) == [Ident(7)] && m.Text(5) == [TextRef(3), TextRef(4)] && m.Text(6) == [TextRef(5)]
            && |m.Text(7)| == 9 && m.Text(7)[0] == TextRef(2) && m.Text(7)[5] == InnerRef(6)
  {
    hide Chars;
    CommentTokens();
  }

  lemma CommentValid()
    ensures COMMENT_BEHIND_ANGLE.Valid()
  {
    hide Chars;
    CommentTokens();
    CommentTexts();
    var m := COMMENT_BEHIND_ANGLE.mem;
    forall t | 0 <= t < m.Count() ensures RefersBelow(m.Text(t), t) {
      forall i | 0 <= i < |m.Text(t)| && IsRef(m.Text(t)[i]) ensures m.Text(t)[i].text < t {
        assert m.Text(t)[i] == m.toks[m.starts[t] + i];
      }
    }
  }

  /** A text has content if one of its tokens has. */
  lemma TokenLoaded(m: Memory, n0: nat, t: nat, i: nat)
    requires m.Ordered() && n0 <= t < m.Count() && i < |m.Text(t)|
    requires Content(FlatTok(m, n0, m.Text(t)[i], t)) != []
    ensures TextContent(m, n0, t) != []
  {
    var ts := m.Text(t);
    var a, b := ts[..i], ts[i + 1..];
    assert ts == a + [ts[i]] + b;
    FlatAppend(m, n0, a + [ts[i]], b, t);
    AppendAtoms(m, n0, a, ts[i], t);
    ContentAppend(FlatToks(m, n0, a, t) + FlatTok(m, n0, ts[i], t), FlatToks(m, n0, b, t));
    ContentAppend(FlatToks(m, n0, a, t), FlatTok(m, n0, ts[i], t));
    TakenApart(m, n0, t);
  }

  /** It has content if it mentions an identifier, or refers to a text with content. */
  lemma NameLoaded(m: Memory, n0: nat, t: nat, i: nat)
    requires m.Ordered() && n0 <= t < m.Count() && i < |m.Text(t)| && m.Text(t)[i].Ident?
    ensures TextContent(m, n0, t) != []
  {
    assert Content([Name(m.Text(t)[i].name)][..0]) == [];
    TokenLoaded(m, n0, t, i);
  }

  lemma RefLoaded(m: Memory, n0: nat, t: nat, i: nat)
    requires m.Ordered() && n0 <= t < m.Count() && i < |m.Text(t)|
    requires IsRef(m.Text(t)[i]) && m.Text(t)[i].text < t && TextContent(m, n0, m.Text(t)[i].text) != []
    ensures TextContent(m, n0, t) != []
  {
    TokenLoaded(m, n0, t, i);
  }

  lemma CommentLoaded()
    ensures COMMENT_BEHIND_ANGLE.Valid() && TextContent(COMMENT_BEHIND_ANGLE.mem, 0, 7) != []
  {
    hide Chars, TextContent;
    CommentTexts();
    CommentValid();
    var m := COMMENT_BEHIND_ANGLE.mem;
    NameLoaded(m, 0, 3, 0);
    RefLoaded(m, 0, 5, 0);
    RefLoaded(m, 0, 6, 0);
    RefLoaded(m, 0, 7, 5);
  }

  lemma CommentMarks()
    ensures var c := COMMENT_BEHIND_ANGLE;
            && c.Valid() && |c.scraps| == 5 && NoTemplates(c) && Exposed(Marks(c, 0)) && !Lined(Marks(c, 0))
  {
    hide TextContent, Chars;
    CommentLoaded();
    CommentTexts();
    assert ExposedAt(Marks(COMMENT_BEHIND_ANGLE, 0), 1, 2);
  }

  /** The parser does not conserve the source on every input: of this one it loses the identifier `c`. */
  lemma CommentLost(forceLines: bool)
    ensures COMMENT_BEHIND_ANGLE.Valid() && !Conserves(COMMENT_BEHIND_ANGLE, forceLines, 0)
  {
    hide NoTemplates, Lined, Exposed;
    CommentMarks();
    TranslationConservesIff(COMMENT_BEHIND_ANGLE, forceLines, 0);
  }
}
