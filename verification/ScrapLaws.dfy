/** What every production keeps: the source text of the scraps, and the balance of math modes. */
module ScrapLaws {
  import opened Wrappers
  import opened Productions
  import opened ScrapTexts
  import opened ScrapMachine

  // ----- Conservation ----------------------------------------------------------------------------

  function WorkAtoms(m: Memory, n0: nat, w: Work, bound: nat): seq<Atom>
    requires m.Ordered() && bound <= m.Count()
  {
    FlatToks(m, n0, w.toks, bound)
  }

  function WorkContent(m: Memory, n0: nat, w: Work, bound: nat): seq<Atom>
    requires m.Ordered() && bound <= m.Count()
  {
    Content(WorkAtoms(m, n0, w, bound))
  }

  lemma ShiftContent(m: Memory, n0: nat, w: Work, mode: Mathness, bound: nat)
    requires m.Ordered() && bound <= m.Count()
    ensures WorkContent(m, n0, Shift(w, mode), bound) == WorkContent(m, n0, w, bound)
  {
    var a, b, c := Glyph('$'), Glyph('{'), Glyph('}');
    CharsContent(m, n0, w.toks, b, c, a, bound);
    CharsContent(m, n0, w.toks, a, b, c, bound);
    assert w.toks + [] == w.toks;
  }

  lemma CharsContent(m: Memory, n0: nat, ts: seq<Token>, a: Code, b: Code, c: Code, bound: nat)
    requires m.Ordered() && bound <= m.Count()
    ensures Content(FlatToks(m, n0, ts + [Chr(a), Chr(b), Chr(c)], bound)) == Content(FlatToks(m, n0, ts, bound))
  {
    CharContent(m, n0, ts, a, bound);
    CharContent(m, n0, ts + [Chr(a)], b, bound);
    CharContent(m, n0, ts + [Chr(a)] + [Chr(b)], c, bound);
    assert ts + [Chr(a), Chr(b), Chr(c)] == ts + [Chr(a)] + [Chr(b)] + [Chr(c)];
  }

  lemma CharContent(m: Memory, n0: nat, ts: seq<Token>, a: Code, bound: nat)
    requires m.Ordered() && bound <= m.Count()
    ensures Content(FlatToks(m, n0, ts + [Chr(a)], bound)) == Content(FlatToks(m, n0, ts, bound))
  {
    AppendAtoms(m, n0, ts, Chr(a), bound);
    var atoms := FlatToks(m, n0, ts, bound);
    assert (atoms + [Layout(a)])[..|atoms|] == atoms;
  }

  lemma AppendAtoms(m: Memory, n0: nat, ts: seq<Token>, a: Token, bound: nat)
    requires m.Ordered() && bound <= m.Count()
    ensures FlatToks(m, n0, ts + [a], bound) == FlatToks(m, n0, ts, bound) + FlatTok(m, n0, a, bound)
  {
    assert (ts + [a])[..|ts + [a]| - 1] == ts;
  }

  /** One instruction adds the content of the scrap it copies, and nothing else. */
  lemma OpContent(m: Memory, n0: nat, w: Work, op: Op, scraps: seq<Scrap>, bound: nat)
    requires m.Ordered() && bound <= m.Count() && TextsBelow(scraps, bound)
    requires op.Sub? ==> op.i < |scraps|
    ensures WorkContent(m, n0, RunOp(w, op, scraps), bound) ==
            WorkContent(m, n0, w, bound) +
            (if op.Sub? then TextContent(m, n0, scraps[op.i].text) else [])
  {
    hide Content, Contents;
    match op
    case Sub(i) =>
      var s := scraps[i];
      if !s.left.MaybeMath? { ShiftContent(m, n0, w, s.left, bound); }
      var w1 := if s.left.MaybeMath? then w else Shift(w, s.left).(cur := s.right);
      AppendAtoms(m, n0, w1.toks, TextRef(s.text), bound);
      ContentAppend(WorkAtoms(m, n0, w1, bound), Flat(m, n0, s.text));
    case Big(a) =>
      var mode := if OutsideMath(a) then NoMath else YesMath;
      ShiftContent(m, n0, w, mode, bound);
      CharContent(m, n0, Shift(w, mode).toks, a, bound);
    case Raw(a) => CharContent(m, n0, w.toks, a, bound);
    case Angle(ch) => CharContent(m, n0, w.toks, Glyph(ch), bound);
  }

  /** The instructions of a copying production add the contents of the scraps they copy. */
  lemma {:induction false} CopyContent(m: Memory, n0: nat, ops: Ops, at: nat, end: nat, scraps: seq<Scrap>, bound: nat)
    requires m.Ordered() && bound <= m.Count() && TextsBelow(scraps, bound)
    requires CopiesInOrder(ops, at, end) && at <= end <= |scraps|
    ensures WorkContent(m, n0, RunOps(ops, scraps), bound) == Contents(m, n0, scraps[at..end])
  {
    if ops.Then? {
      var end' := if ops.op.Sub? then ops.op.i else end;
      CopyContent(m, n0, ops.prev, at, end', scraps, bound);
      OpContent(m, n0, RunOps(ops.prev, scraps), ops.op, scraps, bound);
      if ops.op.Sub? {
        assert scraps[at..end][..|scraps[at..end]| - 1] == scraps[at..end'];
      }
    }
  }

  /** Does the production selected at `pp` forget the text of its scrap? */
  predicate Forgetting(c: Config, table: Table) {
    var m := Production(c, table);
    m.Some? && m.value.effect.Build? && Forgets(m.value.effect.ops)
  }

  function ConfigContent(c: Config, n0: nat): seq<Atom>
    requires c.mem.Ordered() && TextsBelow(c.scraps, c.mem.Count())
  {
    Contents(c.mem, n0, c.scraps)
  }

  lemma RetypedContent(c: Config, c': Config, n0: nat)
    requires c.Valid() && Retyped(c, c') && c'.Valid()
    ensures ConfigContent(c', n0) == ConfigContent(c, n0)
  {
    RetypedValid(c, c');
    ContentsGrows(c.mem, c'.mem, n0, c.scraps);
    ContentsByText(c'.mem, n0, c.scraps, c'.scraps);
  }

  lemma RetypedParts(c: Config, c': Config, n0: nat)
    requires c.Valid() && Retyped(c, c') && c'.Valid() && c.pp < |c.scraps|
    ensures Contents(c'.mem, n0, c'.scraps[..c.pp]) == Contents(c.mem, n0, c.scraps[..c.pp])
    ensures Contents(c'.mem, n0, c'.scraps[c.pp + 1..]) == Contents(c.mem, n0, c.scraps[c.pp + 1..])
  {
    RetypedValid(c, c');
    ContentsGrows(c.mem, c'.mem, n0, c.scraps[..c.pp]);
    ContentsGrows(c.mem, c'.mem, n0, c.scraps[c.pp + 1..]);
    ContentsByText(c'.mem, n0, c.scraps[..c.pp], c'.scraps[..c.pp]);
    ContentsByText(c'.mem, n0, c.scraps[c.pp + 1..], c'.scraps[c.pp + 1..]);
  }

  lemma SpliceContent(m: Memory, n0: nat, left: seq<Scrap>, s: Scrap, right: seq<Scrap>)
    requires m.Ordered() && TextsBelow(left, m.Count()) && s.text < m.Count() && TextsBelow(right, m.Count())
    ensures TextsBelow(left + [s] + right, m.Count())
    ensures Contents(m, n0, left + [s] + right) ==
            Contents(m, n0, left) + TextContent(m, n0, s.text) + Contents(m, n0, right)
  {
    ContentsAppend(m, n0, left + [s], right);
    assert (left + [s])[..|left|] == left;
  }

  lemma SplitContent(c: Config, n0: nat, j: nat, k: nat)
    requires c.mem.Ordered() && TextsBelow(c.scraps, c.mem.Count()) && j + k <= |c.scraps|
    ensures ConfigContent(c, n0) ==
            Contents(c.mem, n0, c.scraps[..j]) + Contents(c.mem, n0, c.scraps[j..j + k]) +
            Contents(c.mem, n0, c.scraps[j + k..])
  {
    var left, mid, right := c.scraps[..j], c.scraps[j..j + k], c.scraps[j + k..];
    assert c.scraps == left + mid + right;
    ContentsAppend(c.mem, n0, left + mid, right);
    ContentsAppend(c.mem, n0, left, mid);
  }

  /** The content after `reduce`: that of the scraps around, with that of the new text in between. */
  lemma ReplaceContent(c: Config, r: Rule, w: Work, n0: nat, mid: seq<Atom>)
    requires c.Valid() && c.pp + r.at + r.k <= |c.scraps| && n0 <= c.mem.Count()
    requires Replace(c, r, w).Valid() && Grows(c.mem, Replace(c, r, w).mem)
    requires Replace(c, r, w).mem.Count() == c.mem.Count() + 1
    requires Replace(c, r, w).mem.Text(c.mem.Count()) == w.toks
    requires WorkContent(Replace(c, r, w).mem, n0, w, c.mem.Count()) == mid
    ensures var j := c.pp + r.at;
            ConfigContent(Replace(c, r, w), n0) ==
            Contents(c.mem, n0, c.scraps[..j]) + mid + Contents(c.mem, n0, c.scraps[j + r.k..])
  {
    hide Contents, FlatToks, TextContent, Grows;
    var c', j := Replace(c, r, w), c.pp + r.at;
    var left, s, right := c.scraps[..j], Scrap(r.cat, w.init, w.cur, c.mem.Count()), c.scraps[j + r.k..];
    TakenApart(c'.mem, n0, c.mem.Count());
    SpliceContent(c'.mem, n0, left, s, right);
    ContentsGrows(c.mem, c'.mem, n0, left);
    ContentsGrows(c.mem, c'.mem, n0, right);
  }

  /** The new text of a copying production has the content of the scraps it replaces. */
  lemma CopiedContent(m: Memory, m': Memory, n0: nat, r: Rule, ops: Ops, scraps: seq<Scrap>, mid: seq<Scrap>)
    requires m.Ordered() && m'.Ordered() && Grows(m, m')
    requires TextsBelow(scraps, m.Count()) && r.at + r.k <= |scraps| && mid == scraps[r.at..r.at + r.k]
    requires CopiesInOrder(ops, r.at, r.at + r.k)
    ensures WorkContent(m', n0, RunOps(ops, scraps), m.Count()) ==
            Contents(m, n0, mid)
  {
    CopyContent(m', n0, ops, r.at, r.at + r.k, scraps, m.Count());
    ContentsGrows(m, m', n0, mid);
  }

  /** The new text of a forgetting production has no content. */
  lemma ForgottenContent(m: Memory, n0: nat, ops: Ops, scraps: seq<Scrap>, bound: nat)
    requires m.Ordered() && bound <= m.Count() && Forgets(ops)
    ensures RunOps(ops, scraps) == Work([Chr(Glyph(ops.op.c))], YesMath, YesMath)
    ensures WorkContent(m, n0, RunOps(ops, scraps), bound) == []
  {
    assert RunOps(ops.prev, scraps) == Fresh;
    var a := Glyph(ops.op.c);
    assert [] + [Chr(a)] == [Chr(a)];
    CharContent(m, n0, [], a, bound);
    assert FlatToks(m, n0, [], bound) == [];
  }

  lemma BuiltContent(c: Config, m': Memory, r: Rule, ops: Ops, n0: nat)
    requires c.Valid() && c.pp + r.at + r.k <= |c.scraps| && m'.Ordered() && Grows(c.mem, m')
    requires CopiesInOrder(ops, r.at, r.at + r.k)
    ensures WorkContent(m', n0, Built(c, ops), c.mem.Count()) ==
            Contents(c.mem, n0, c.scraps[c.pp + r.at..c.pp + r.at + r.k])
  {
    CopiedContent(c.mem, m', n0, r, ops, c.scraps[c.pp..], c.scraps[c.pp + r.at..c.pp + r.at + r.k]);
  }

  lemma SplicedContent(c: Config, r: Rule, ops: Ops, n0: nat)
    requires c.Valid() && r.k >= 1 && c.pp + r.at + r.k <= |c.scraps| && r.d <= 1 && !r.cat.Zero?
    requires CopiesInOrder(ops, r.at, r.at + r.k) && n0 <= c.mem.Count()
    ensures Rebuild(c, r, ops).Valid()
    ensures var j := c.pp + r.at;
            ConfigContent(Rebuild(c, r, ops), n0) ==
            Contents(c.mem, n0, c.scraps[..j]) + Contents(c.mem, n0, c.scraps[j..j + r.k]) +
            Contents(c.mem, n0, c.scraps[j + r.k..])
  {
    var w, j := Built(c, ops), c.pp + r.at;
    BuiltText(c, r, ops);
    ReplaceValid(c, r, w);
    BuiltContent(c, Replace(c, r, w).mem, r, ops, n0);
    ReplaceContent(c, r, w, n0, Contents(c.mem, n0, c.scraps[j..j + r.k]));
  }

  /** A copying production conserves the content. */
  lemma CopyingContent(c: Config, r: Rule, ops: Ops, n0: nat)
    requires c.Valid() && r.k >= 1 && c.pp + r.at + r.k <= |c.scraps| && r.d <= 1 && !r.cat.Zero?
    requires CopiesInOrder(ops, r.at, r.at + r.k) && n0 <= c.mem.Count()
    ensures Rebuild(c, r, ops).Valid()
    ensures ConfigContent(Rebuild(c, r, ops), n0) == ConfigContent(c, n0)
  {
    hide Contents;
    SplicedContent(c, r, ops, n0);
    SplitContent(c, n0, c.pp + r.at, r.k);
  }

  lemma ForgettingContent(c: Config, r: Rule, ops: Ops, n0: nat)
    requires c.Valid() && r.at == 0 && r.k == 1 && c.pp < |c.scraps| && r.d <= 1 && !r.cat.Zero?
    requires Forgets(ops) && n0 <= c.mem.Count()
    ensures Rebuild(c, r, ops).Valid()
    ensures ConfigContent(Rebuild(c, r, ops), n0) ==
            Contents(c.mem, n0, c.scraps[..c.pp]) + Contents(c.mem, n0, c.scraps[c.pp + 1..])
  {
    hide Contents;
    var w := Built(c, ops);
    BuiltText(c, r, ops);
    ReplaceValid(c, r, w);
    ForgottenContent(Replace(c, r, w).mem, n0, ops, c.scraps[c.pp..], c.mem.Count());
    ReplaceContent(c, r, w, n0, []);
  }

  lemma BuildContent(c: Config, r: Rule, ops: Ops, n0: nat)
    requires c.Valid() && Fits(c, r) && r.effect == Build(ops) && n0 <= c.mem.Count()
    ensures Apply(c, r).Valid()
    ensures !Forgets(ops) ==> ConfigContent(Apply(c, r), n0) == ConfigContent(c, n0)
    ensures Forgets(ops) ==>
            ConfigContent(Apply(c, r), n0) ==
            Contents(c.mem, n0, c.scraps[..c.pp]) + Contents(c.mem, n0, c.scraps[c.pp + 1..])
  {
    var c1 := Prepared(c, r);
    if Forgets(ops) {
      ForgettingContent(c1, r, ops, n0);
      RetypedParts(c, c1, n0);
    } else {
      RetypedContent(c, c1, n0);
      CopyingContent(c1, r, ops, n0);
    }
  }

  lemma ApplyContent(c: Config, r: Rule, n0: nat)
    requires c.Valid() && Fits(c, r) && n0 <= c.mem.Count()
    ensures Apply(c, r).Valid()
    ensures !(r.effect.Build? && Forgets(r.effect.ops)) ==> ConfigContent(Apply(c, r), n0) == ConfigContent(c, n0)
    ensures r.effect.Build? && Forgets(r.effect.ops) ==>
            ConfigContent(Apply(c, r), n0) ==
            Contents(c.mem, n0, c.scraps[..c.pp]) + Contents(c.mem, n0, c.scraps[c.pp + 1..])
  {
    match r.effect
    case Recat =>
      ApplyValid(c, r);
      ContentsByText(c.mem, n0, c.scraps, Apply(c, r).scraps);
    case Build(ops) => BuildContent(c, r, ops, n0);
  }

  /** Every step keeps the left-to-right content of the scraps, unless it is a forgetting production on
      a scrap that has content; that content is then lost, and nothing else. */
  lemma StepContent(c: Config, table: Table, n0: nat)
    requires SoundTable(table) && c.Valid() && c.pp < |c.scraps| && n0 <= c.mem.Count()
    ensures Step(c, table).Valid()
    ensures !Forgetting(c, table) ==> ConfigContent(Step(c, table), n0) == ConfigContent(c, n0)
    ensures Forgetting(c, table) ==>
            ConfigContent(Step(c, table), n0) ==
            Contents(c.mem, n0, c.scraps[..c.pp]) + Contents(c.mem, n0, c.scraps[c.pp + 1..])
  {
    ProductionFits(c, table);
    if Production(c, table).Some? { ApplyContent(c, Production(c, table).value, n0); }
  }

  lemma LostContent(c: Config, n0: nat, rest: seq<Atom>)
    requires c.Valid() && c.pp < |c.scraps|
    requires rest == Contents(c.mem, n0, c.scraps[..c.pp]) + Contents(c.mem, n0, c.scraps[c.pp + 1..])
    ensures rest == ConfigContent(c, n0) <==> TextContent(c.mem, n0, c.scraps[c.pp].text) == []
    ensures |ConfigContent(c, n0)| == |rest| + |TextContent(c.mem, n0, c.scraps[c.pp].text)|
  {
    hide Contents, TextContent;
    var left, s, right := c.scraps[..c.pp], c.scraps[c.pp], c.scraps[c.pp + 1..];
    assert c.scraps == left + [s] + right;
    SpliceContent(c.mem, n0, left, s, right);
  }

  /** The exact condition: a step conserves iff it is not a forgetting production on a scrap that has
      content. */
  lemma StepConservesIff(c: Config, table: Table, n0: nat)
    requires SoundTable(table) && c.Valid() && c.pp < |c.scraps| && n0 <= c.mem.Count()
    ensures Step(c, table).Valid()
    ensures ConfigContent(Step(c, table), n0) == ConfigContent(c, n0) <==>
            !(Forgetting(c, table) && TextContent(c.mem, n0, c.scraps[c.pp].text) != [])
    ensures |ConfigContent(c, n0)| ==
            |ConfigContent(Step(c, table), n0)| +
            (if Forgetting(c, table) then |TextContent(c.mem, n0, c.scraps[c.pp].text)| else 0)
  {
    StepContent(c, table, n0);
    if Forgetting(c, table) {
      LostContent(c, n0, ConfigContent(Step(c, table), n0));
    }
  }

  // ----- Math-mode balance -----------------------------------------------------------------------

  lemma AppendMode(demand: nat -> Mathness, atoms: seq<Atom>, a: Atom, mode: Mathness)
    ensures EndMode(demand, atoms + [a], mode) ==
            match EndMode(demand, atoms, mode) case None => None case Some(m) => AtomMode(demand, a, m)
  {
    assert (atoms + [a])[..|atoms + [a]| - 1] == atoms;
  }

  /** Appending one character in a mode in which it may stand. */
  lemma CharLeads(demand: nat -> Mathness, m: Memory, n0: nat, ts: seq<Token>, a: Code, bound: nat,
                  left: Mathness, right: Mathness)
    requires m.Ordered() && bound <= m.Count()
    requires Leads(demand, FlatToks(m, n0, ts, bound), left, right)
    requires a != Glyph('$') && (NeedsNoMath(a) ==> right.NoMath?) && (NeedsMath(a) ==> right.YesMath?)
    ensures Leads(demand, FlatToks(m, n0, ts + [Chr(a)], bound), left, right)
  {
    AppendAtoms(m, n0, ts, Chr(a), bound);
    forall mode { AppendMode(demand, FlatToks(m, n0, ts, bound), Layout(a), mode); }
  }

  lemma DollarLeads(demand: nat -> Mathness, m: Memory, n0: nat, ts: seq<Token>, bound: nat,
                    left: Mathness, right: Mathness)
    requires m.Ordered() && bound <= m.Count() && !left.MaybeMath?
    requires Leads(demand, FlatToks(m, n0, ts, bound), left, right)
    ensures Leads(demand, FlatToks(m, n0, ts + [Chr(Glyph('$'))], bound), left, if right.YesMath? then NoMath else YesMath)
  {
    hide EndMode;
    AppendAtoms(m, n0, ts, Chr(Glyph('$')), bound);
    AppendMode(demand, FlatToks(m, n0, ts, bound), Layout(Glyph('$')), left);
  }

  lemma LeaveLeads(demand: nat -> Mathness, m: Memory, n0: nat, ts: seq<Token>, init: Mathness, bound: nat)
    requires m.Ordered() && bound <= m.Count() && !init.MaybeMath?
    requires Leads(demand, FlatToks(m, n0, ts, bound), init, YesMath)
    ensures Leads(demand, FlatToks(m, n0, ts + LEAVE_MATH, bound), init, NoMath)
  {
    var brace, unbrace, dollar := Chr(Glyph('{')), Chr(Glyph('}')), Chr(Glyph('$'));
    CharLeads(demand, m, n0, ts, Glyph('{'), bound, init, YesMath);
    CharLeads(demand, m, n0, ts + [brace], Glyph('}'), bound, init, YesMath);
    DollarLeads(demand, m, n0, ts + [brace] + [unbrace], bound, init, YesMath);
    assert ts + LEAVE_MATH == ts + [brace] + [unbrace] + [dollar];
  }

  lemma EnterLeads(demand: nat -> Mathness, m: Memory, n0: nat, ts: seq<Token>, init: Mathness, bound: nat)
    requires m.Ordered() && bound <= m.Count() && !init.MaybeMath?
    requires Leads(demand, FlatToks(m, n0, ts, bound), init, NoMath)
    ensures Leads(demand, FlatToks(m, n0, ts + ENTER_MATH, bound), init, YesMath)
  {
    var brace, unbrace, dollar := Chr(Glyph('{')), Chr(Glyph('}')), Chr(Glyph('$'));
    DollarLeads(demand, m, n0, ts, bound, init, NoMath);
    CharLeads(demand, m, n0, ts + [dollar], Glyph('{'), bound, init, YesMath);
    CharLeads(demand, m, n0, ts + [dollar] + [brace], Glyph('}'), bound, init, YesMath);
    assert ts + ENTER_MATH == ts + [dollar] + [brace] + [unbrace];
  }

  /** A math shift leads into the mode it is meant for. */
  lemma ShiftLeads(demand: nat -> Mathness, m: Memory, n0: nat, w: Work, mode: Mathness, bound: nat)
    requires m.Ordered() && bound <= m.Count() && !mode.MaybeMath?
    requires Leads(demand, WorkAtoms(m, n0, w, bound), w.init, w.cur)
    ensures Leads(demand, WorkAtoms(m, n0, Shift(w, mode), bound), Shift(w, mode).init, mode)
  {
    if w.cur.YesMath? && mode.NoMath? {
      LeaveLeads(demand, m, n0, w.toks, w.init, bound);
    } else if w.cur.NoMath? && mode.YesMath? {
      EnterLeads(demand, m, n0, w.toks, w.init, bound);
    } else {
      assert w.toks + [] == w.toks;
    }
  }

  /** Atoms that lead on from where others ended, or that do not mind the mode. */
  lemma LeadsOn(demand: nat -> Mathness, a: seq<Atom>, b: seq<Atom>, init: Mathness, cur: Mathness,
                left: Mathness, right: Mathness)
    requires Leads(demand, a, init, cur) && Leads(demand, b, left, right)
    requires left.MaybeMath? || left == cur
    ensures Leads(demand, a + b, init, if left.MaybeMath? then cur else right)
  {
    EndModeAppend(demand, a, b, YesMath);
    EndModeAppend(demand, a, b, NoMath);
  }

  /** Appending a reference to a balanced scrap in a mode it accepts. */
  lemma RefLeads(demand: nat -> Mathness, m: Memory, n0: nat, ts: seq<Token>, s: Scrap, bound: nat,
                 init: Mathness, cur: Mathness)
    requires m.Ordered() && bound <= m.Count() && s.text < bound && Balanced(demand, m, n0, s)
    requires Leads(demand, FlatToks(m, n0, ts, bound), init, cur)
    requires s.left.MaybeMath? || s.left == cur
    ensures Leads(demand, FlatToks(m, n0, ts + [TextRef(s.text)], bound), init, if s.left.MaybeMath? then cur else s.right)
  {
    AppendAtoms(m, n0, ts, TextRef(s.text), bound);
    LeadsOn(demand, FlatToks(m, n0, ts, bound), Flat(m, n0, s.text), init, cur, s.left, s.right);
  }

  /** Copying a balanced scrap. */
  lemma ScrapLeads(demand: nat -> Mathness, m: Memory, n0: nat, w: Work, s: Scrap, bound: nat)
    requires m.Ordered() && bound <= m.Count() && s.text < bound
    requires Leads(demand, WorkAtoms(m, n0, w, bound), w.init, w.cur)
    requires Balanced(demand, m, n0, s)
    ensures var w' := BigApp1(w, s); Leads(demand, WorkAtoms(m, n0, w', bound), w'.init, w'.cur)
  {
    var w1 := if s.left.MaybeMath? then w else Shift(w, s.left);
    if !s.left.MaybeMath? { ShiftLeads(demand, m, n0, w, s.left, bound); }
    RefLeads(demand, m, n0, w1.toks, s, bound, w1.init, w1.cur);
  }

  /** An instruction of a copying production. */
  predicate Plain(op: Op) {
    match op
    case Sub(_) => true
    case Big(a) => a != Glyph('$')
    case Raw(a) => Neutral(a)
    case Angle(_) => false
  }

  lemma OpLeads(demand: nat -> Mathness, m: Memory, n0: nat, w: Work, op: Op, scraps: seq<Scrap>, bound: nat)
    requires m.Ordered() && bound <= m.Count() && TextsBelow(scraps, bound)
    requires forall i | 0 <= i < |scraps| :: Balanced(demand, m, n0, scraps[i])
    requires Leads(demand, WorkAtoms(m, n0, w, bound), w.init, w.cur)
    requires Plain(op)
    ensures var w' := RunOp(w, op, scraps); Leads(demand, WorkAtoms(m, n0, w', bound), w'.init, w'.cur)
  {
    match op
    case Sub(i) => if i < |scraps| { ScrapLeads(demand, m, n0, w, scraps[i], bound); }
    case Big(a) =>
      var mode := if OutsideMath(a) then NoMath else YesMath;
      var w1 := Shift(w, mode);
      ShiftLeads(demand, m, n0, w, mode, bound);
      CharLeads(demand, m, n0, w1.toks, a, bound, w1.init, mode);
    case Raw(a) => CharLeads(demand, m, n0, w.toks, a, bound, w.init, w.cur);
  }

  lemma {:induction false} OpsLead(demand: nat -> Mathness, m: Memory, n0: nat, ops: Ops, at: nat, end: nat,
                                   scraps: seq<Scrap>, bound: nat)
    requires m.Ordered() && bound <= m.Count() && TextsBelow(scraps, bound) && CopiesInOrder(ops, at, end)
    requires forall i | 0 <= i < |scraps| :: Balanced(demand, m, n0, scraps[i])
    ensures var w := RunOps(ops, scraps); Leads(demand, WorkAtoms(m, n0, w, bound), w.init, w.cur)
  {
    if ops.Then? {
      OpsLead(demand, m, n0, ops.prev, at, if ops.op.Sub? then ops.op.i else end, scraps, bound);
      OpLeads(demand, m, n0, RunOps(ops.prev, scraps), ops.op, scraps, bound);
    }
  }

  ghost predicate AllBalanced(demand: nat -> Mathness, c: Config, n0: nat)
    requires c.mem.Ordered() && TextsBelow(c.scraps, c.mem.Count())
  {
    forall i | 0 <= i < |c.scraps| :: Balanced(demand, c.mem, n0, c.scraps[i])
  }

  lemma RetypedBalanced(demand: nat -> Mathness, c: Config, c': Config, n0: nat)
    requires c.Valid() && Retyped(c, c') && c'.Valid() && AllBalanced(demand, c, n0)
    ensures AllBalanced(demand, c', n0)
  {
    RetypedValid(c, c');
    forall i | 0 <= i < |c'.scraps| ensures Balanced(demand, c'.mem, n0, c'.scraps[i]) {
      FlatGrows(c.mem, c'.mem, n0, c.scraps[i].text);
      assert Balanced(demand, c.mem, n0, c.scraps[i]);
    }
  }

  /** What begins with the entry into a text that demands its left mode. */
  lemma EntryLeads(demand: nat -> Mathness, t: nat, atoms: seq<Atom>, left: Mathness, right: Mathness)
    requires Leads(demand, atoms, left, right) && demand(t) == left
    ensures Leads(demand, [Enter(t)] + atoms, left, right)
  {
    forall mode | left.MaybeMath? || mode == left
      ensures EndMode(demand, [Enter(t)] + atoms, mode) == EndMode(demand, atoms, mode)
    {
      OneAtom(demand, Enter(t), mode);
      EndModeAppend(demand, [Enter(t)], atoms, mode);
    }
  }

  lemma ReplaceBalanced(demand: nat -> Mathness, c: Config, r: Rule, w: Work, n0: nat)
    requires c.Valid() && r.k >= 1 && c.pp + r.at + r.k <= |c.scraps| && r.d <= 1 && !r.cat.Zero?
    requires w.toks != [] && RefersBelow(w.toks, c.mem.Count()) && n0 <= c.mem.Count()
    requires AllBalanced(demand, c, n0)
    requires Replace(c, r, w).mem.Ordered() && Replace(c, r, w).mem.Count() == c.mem.Count() + 1
    requires Leads(demand, WorkAtoms(Replace(c, r, w).mem, n0, w, c.mem.Count()), w.init, w.cur)
    requires demand(c.mem.Count()) == w.init
    ensures Replace(c, r, w).Valid() && AllBalanced(demand, Replace(c, r, w), n0)
  {
    ReplaceValid(c, r, w);
    var c', j := Replace(c, r, w), c.pp + r.at;
    EntryLeads(demand, c.mem.Count(), WorkAtoms(c'.mem, n0, w, c.mem.Count()), w.init, w.cur);
    forall i | 0 <= i < |c'.scraps| ensures Balanced(demand, c'.mem, n0, c'.scraps[i]) {
      if i != j {
        var s := if i < j then c.scraps[i] else c.scraps[i + r.k - 1];
        assert c'.scraps[i] == s && Balanced(demand, c.mem, n0, s);
        FlatGrows(c.mem, c'.mem, n0, s.text);
      }
    }
  }

  /** One atom stands in the mode it is met in. */
  lemma OneAtom(demand: nat -> Mathness, a: Atom, mode: Mathness)
    ensures EndMode(demand, [a], mode) == AtomMode(demand, a, mode)
  {
    AppendMode(demand, [], a, mode);
    assert [] + [a] == [a];
  }

  lemma AngleLeads(demand: nat -> Mathness, m: Memory, n0: nat, a: Code, bound: nat)
    requires m.Ordered() && bound <= m.Count() && NeedsMath(a)
    ensures Leads(demand, FlatToks(m, n0, [Chr(a)], bound), YesMath, YesMath)
  {
    AppendAtoms(m, n0, [], Chr(a), bound);
    assert [] + [Chr(a)] == [Chr(a)];
    assert FlatToks(m, n0, [Chr(a)], bound) == [Layout(a)];
    OneAtom(demand, Layout(a), YesMath);
  }

  lemma RebuildBalanced(demand: nat -> Mathness, c: Config, r: Rule, ops: Ops, n0: nat)
    requires c.Valid() && r.k >= 1 && c.pp + r.at + r.k <= |c.scraps| && r.d <= 1 && !r.cat.Zero?
    requires Forgets(ops) || CopiesInOrder(ops, r.at, r.at + r.k)
    requires n0 <= c.mem.Count() && AllBalanced(demand, c, n0) && demand(c.mem.Count()) == Built(c, ops).init
    ensures Rebuild(c, r, ops).Valid() && AllBalanced(demand, Rebuild(c, r, ops), n0)
  {
    var scraps := c.scraps[c.pp..];
    var w := RunOps(ops, scraps);
    BuiltText(c, r, ops);
    ReplaceValid(c, r, w);
    var m' := Replace(c, r, w).mem;
    if Forgets(ops) {
      ForgottenContent(m', n0, ops, scraps, c.mem.Count());
      AngleLeads(demand, m', n0, Glyph(ops.op.c), c.mem.Count());
    } else {
      forall i | 0 <= i < |scraps| ensures Balanced(demand, m', n0, scraps[i]) {
        assert scraps[i] == c.scraps[c.pp + i];
        FlatGrows(c.mem, m', n0, scraps[i].text);
      }
      OpsLead(demand, m', n0, ops, r.at, r.at + r.k, scraps, c.mem.Count());
    }
    ReplaceBalanced(demand, c, r, w, n0);
  }

  /** The left modes of all scraps are what their texts demand. */
  ghost predicate Tagged(demand: nat -> Mathness, c: Config) {
    forall i | 0 <= i < |c.scraps| :: demand(c.scraps[i].text) == c.scraps[i].left
  }

  lemma RebuildParts(c: Config, r: Rule, ops: Ops)
    requires c.Valid() && r.k >= 1 && c.pp + r.at + r.k <= |c.scraps| && r.d <= 1 && !r.cat.Zero?
    requires KeepsOrder(ops, r.at, r.k)
    ensures Rebuild(c, r, ops).Valid() && Grows(c.mem, Rebuild(c, r, ops).mem)
    ensures Rebuild(c, r, ops).mem.Count() == c.mem.Count() + 1
    ensures |Rebuild(c, r, ops).scraps| == |c.scraps| - r.k + 1
    ensures var w := Built(c, ops); Rebuild(c, r, ops).scraps[c.pp + r.at] == Scrap(r.cat, w.init, w.cur, c.mem.Count())
    ensures forall i | 0 <= i < |Rebuild(c, r, ops).scraps| && i != c.pp + r.at ::
              Rebuild(c, r, ops).scraps[i] == c.scraps[if i < c.pp + r.at then i else i + r.k - 1]
  {
    BuiltText(c, r, ops);
    ReplaceValid(c, r, Built(c, ops));
  }

  /** The scrap that a production has built. */
  lemma NewScrap(c: Config, r: Rule)
    requires c.Valid() && Fits(c, r) && r.effect.Build?
    ensures c.pp + r.at < |Apply(c, r).scraps| == |Prepared(c, r).scraps| - r.k + 1
    ensures Apply(c, r).mem.Count() == c.mem.Count() + 1
    ensures var s, w := Apply(c, r).scraps[c.pp + r.at], Built(Prepared(c, r), r.effect.ops);
            s == Scrap(r.cat, w.init, w.cur, c.mem.Count())
    ensures forall i | 0 <= i < |Apply(c, r).scraps| && i != c.pp + r.at ::
              Apply(c, r).scraps[i] == Prepared(c, r).scraps[if i < c.pp + r.at then i else i + r.k - 1]
  {
    hide KeepsOrder, Rebuild, Built;
    RebuildParts(Prepared(c, r), r, r.effect.ops);
  }

  lemma ApplyBalanced(demand: nat -> Mathness, c: Config, r: Rule, n0: nat)
    requires c.Valid() && Fits(c, r) && n0 <= c.mem.Count() && AllBalanced(demand, c, n0)
    requires Tagged(demand, Apply(c, r))
    ensures Apply(c, r).Valid() && AllBalanced(demand, Apply(c, r), n0)
  {
    ApplyValid(c, r);
    if r.effect.Build? {
      var c1 := Prepared(c, r);
      NewScrap(c, r);
      RetypedBalanced(demand, c, c1, n0);
      RebuildBalanced(demand, c1, r, r.effect.ops, n0);
    }
  }

  /** Every step keeps all scraps balanced. */
  lemma StepBalanced(demand: nat -> Mathness, c: Config, table: Table, n0: nat)
    requires SoundTable(table) && c.Valid() && c.pp < |c.scraps|
    requires n0 <= c.mem.Count() && AllBalanced(demand, c, n0) && Tagged(demand, Step(c, table))
    ensures Step(c, table).Valid() && AllBalanced(demand, Step(c, table), n0)
  {
    ProductionFits(c, table);
    if Production(c, table).Some? { ApplyBalanced(demand, c, Production(c, table).value, n0); }
  }
}
