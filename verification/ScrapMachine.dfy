/** The rewriting machine of CWEAVE's `translate`, on the list of all scraps (those already brought
    next to `pp` and those still waiting), and its laws: math modes stay balanced, source text is
    conserved, and every run ends. */
module ScrapMachine {
  import opened Wrappers
  import opened Productions
  import opened ScrapTexts

  // ----- Building a new text ---------------------------------------------------------------------

  /** The tokens appended so far with `init_mathness` and `cur_mathness`. */
  datatype Work = Work(toks: seq<Token>, init: Mathness, cur: Mathness)

  const Fresh := Work([], MaybeMath, MaybeMath)

  const LEAVE_MATH: seq<Token> := [Chr(Glyph('{')), Chr(Glyph('}')), Chr(Glyph('$'))]
  const ENTER_MATH: seq<Token> := [Chr(Glyph('$')), Chr(Glyph('{')), Chr(Glyph('}'))]

  /** Tokens that `big_app` sets outside of math: the blank and `big_cancel` to `big_force`. */
  predicate OutsideMath(a: Code) {
    match a
    case BigCancel | Cancel | Indent | Outdent | Opt | Backup | BreakSpace | Force | BigForce => true
    case Glyph(c) => c == ' '
    case _ => false
  }

  /** Get from the current mode to the definite mode `mode`, emitting a math shift if there is one. */
  function Shift(w: Work, mode: Mathness): Work {
    Work(w.toks + (if w.cur.YesMath? && mode.NoMath? then LEAVE_MATH
                   else if w.cur.NoMath? && mode.YesMath? then ENTER_MATH else []),
         if w.cur.MaybeMath? then mode else w.init,
         mode)
  }

  function Append(w: Work, a: Token): Work {
    w.(toks := w.toks + [a])
  }

  function BigApp(w: Work, a: Code): Work {
    Append(Shift(w, if OutsideMath(a) then NoMath else YesMath), Chr(a))
  }

  function BigApp1(w: Work, s: Scrap): Work {
    Append(if s.left.MaybeMath? then w else Shift(w, s.left).(cur := s.right), TextRef(s.text))
  }

  function RunOp(w: Work, op: Op, scraps: seq<Scrap>): Work {
    match op
    case Sub(i) => if i < |scraps| then BigApp1(w, scraps[i]) else w
    case Big(a) => BigApp(w, a)
    case Raw(a) => Append(w, Chr(a))
    case Angle(c) => Append(w.(init := YesMath, cur := YesMath), Chr(Glyph(c)))
  }

  /** The whole list of instructions, where `Sub(i)` means `scraps[i]`. */
  function RunOps(ops: Ops, scraps: seq<Scrap>): Work {
    match ops
    case New => Fresh
    case Then(prev, op) => RunOp(RunOps(prev, scraps), op, scraps)
  }

  // ----- Reserved words --------------------------------------------------------------------------

  /** `find_first_ident`: where the first identifier of text `t` stands, None when there is none before
      an `inserted` token. */
  function FirstIdent(m: Memory, t: nat): (r: Option<nat>)
    requires m.Ordered() && t < m.Count()
    ensures r.Some? ==> r.value < |m.toks| && (m.toks[r.value].Ident? || m.toks[r.value].Res?)
    decreases t, 1, 0
  {
    FirstIdentFrom(m, t, m.starts[t])
  }

  function FirstIdentFrom(m: Memory, t: nat, j: nat): (r: Option<nat>)
    requires m.Ordered() && t < m.Count() && j <= m.starts[t + 1]
    ensures r.Some? ==> r.value < |m.toks| && (m.toks[r.value].Ident? || m.toks[r.value].Res?)
    decreases t, 0, m.starts[t + 1] - j
  {
    if j == m.starts[t + 1] then None
    else
      var a := m.toks[j];
      if a.Ident? || a.Res? then Some(j)
      else if IsRef(a) && a.text < t && FirstIdent(m, a.text).Some? then FirstIdent(m, a.text)
      else if a == Chr(Inserted) then None
      else FirstIdentFrom(m, t, j + 1)
  }

  /** The list of scraps, the position in it, and the token memory. */
  datatype Config = Config(scraps: seq<Scrap>, pp: nat, mem: Memory) {
    ghost predicate Valid() {
      && mem.Valid()
      && pp <= |scraps|
      && forall i | 0 <= i < |scraps| :: scraps[i].text < mem.Count() && !scraps[i].cat.Zero?
    }

    /** The category `i` places to the right of `pp`. */
    function Cat(i: nat): Productions.Cat {
      if pp + i < |scraps| then scraps[pp + i].cat else Zero
    }
  }

  function FirstToken(m: Memory, s: Scrap): Option<Token>
    requires m.Ordered()
  {
    if s.text < m.Count() && m.starts[s.text] < |m.toks| then Some(m.toks[m.starts[s.text]]) else None
  }

  function Reserved(a: Token): Token {
    if a.Ident? || a.Res? then Res(a.name) else a
  }

  /** One step of the loop of `make_reserved`: an expression whose text begins with token `a` becomes
      a type. */
  function ReserveOne(c: Config, a: Token, i: nat): Config
    requires c.mem.Ordered() && i < |c.scraps|
  {
    var s := c.scraps[i];
    if s.cat.Exp? && FirstToken(c.mem, s) == Some(a) then
      c.(scraps := c.scraps[i := s.(cat := RawInt)],
         mem := c.mem.(toks := c.mem.toks[c.mem.starts[s.text] := Reserved(a)]))
    else c
  }

  /** The whole loop of `make_reserved`, from the scrap with index `i` on. */
  function ReserveFrom(c: Config, a: Token, i: nat): Config
    requires c.mem.Ordered() && i <= |c.scraps|
  {
    ReserveEach(c, a, i)
  }

  function ReserveEach(c: Config, a: Token, i: nat): Config
    requires c.mem.Ordered() && i <= |c.scraps|
    decreases |c.scraps| - i
  {
    if i == |c.scraps| then c else ReserveEach(ReserveOne(c, a, i), a, i + 1)
  }

  lemma ReserveFromStep(c: Config, a: Token, i: nat)
    requires c.mem.Ordered() && i < |c.scraps|
    ensures ReserveOne(c, a, i).mem.Ordered() && |ReserveOne(c, a, i).scraps| == |c.scraps|
    ensures ReserveFrom(c, a, i) == ReserveFrom(ReserveOne(c, a, i), a, i + 1)
  {
  }

  lemma ReserveFromEnd(c: Config, a: Token)
    requires c.mem.Ordered()
    ensures ReserveFrom(c, a, |c.scraps|) == c
  {
  }

  /** `make_reserved` for the scrap at index `i`. */
  function MakeReserved(c: Config, i: nat): Config
    requires c.mem.Ordered() && i < |c.scraps| && c.scraps[i].text < c.mem.Count()
  {
    match FirstIdent(c.mem, c.scraps[i].text)
    case None => c
    case Some(loc) =>
      var a := c.mem.toks[loc];
      var c' := ReserveFrom(c, a, i);
      if loc < |c'.mem.toks| then c'.(mem := c'.mem.(toks := c'.mem.toks[loc := Reserved(a)])) else c'
  }

  // ----- Steps and runs --------------------------------------------------------------------------

  function Production(c: Config, table: Table): Option<Rule> {
    table(c.Cat(0), c.Cat(1), c.Cat(2), c.Cat(3))
  }

  /** The new position after a production moved `pp` by `d`. */
  function Moved(pp: nat, d: int): nat {
    if pp + d >= 0 then pp + d else 0
  }

  /** Production `r` can be applied at `pp`, and does what the table guarantees. */
  ghost predicate Fits(c: Config, r: Rule) {
    && Conserving(r)
    && 1 <= r.k && r.at + r.k <= 4 && c.pp + r.at + r.k <= |c.scraps|
    && r.d <= 1 && !r.cat.Zero?
    && (r.reserve.Some? ==> r.k >= 2 && r.reserve.value < 4 && c.pp + r.reserve.value < |c.scraps|)
    && (r.k == 1 ==> Rank(r.cat) < Rank(c.scraps[c.pp + r.at].cat))
  }

  lemma ProductionFits(c: Config, table: Table)
    requires SoundTable(table) && c.Valid() && c.pp < |c.scraps|
    ensures Production(c, table).Some? ==> Fits(c, Production(c, table).value)
  {
    assert Sound(Production(c, table), c.Cat(0), c.Cat(1), c.Cat(2), c.Cat(3));
    assert Window(c.Cat(0), c.Cat(1), c.Cat(2), c.Cat(3));
    assert c.pp + Live(c.Cat(1), c.Cat(2), c.Cat(3)) <= |c.scraps|;
  }

  // ----- make_reserved changes neither texts nor modes -------------------------------------------

  /** `c'` is `c` after some expressions were turned into types. */
  ghost predicate Retyped(c: Config, c': Config) {
    && c'.pp == c.pp && c'.mem.starts == c.mem.starts && |c'.mem.toks| == |c.mem.toks|
    && |c'.scraps| == |c.scraps|
    && (forall i | 0 <= i < |c.mem.toks| :: Alike(c.mem.toks[i], c'.mem.toks[i]))
    && (forall i | 0 <= i < |c.scraps| ::
          || c'.scraps[i] == c.scraps[i]
          || (c.scraps[i].cat.Exp? && c'.scraps[i] == c.scraps[i].(cat := RawInt)))
  }

  lemma {:induction false} ReserveFromRetypes(c: Config, a: Token, i: nat)
    requires c.mem.Ordered() && i <= |c.scraps| && (a.Ident? || a.Res?)
    ensures Retyped(c, ReserveFrom(c, a, i))
    decreases |c.scraps| - i
  {
    if i < |c.scraps| {
      var c1 := ReserveOne(c, a, i);
      assert Retyped(c, c1);
      ReserveFromRetypes(c1, a, i + 1);
    }
  }

  lemma MakeReservedRetypes(c: Config, i: nat)
    requires c.mem.Ordered() && i < |c.scraps| && c.scraps[i].text < c.mem.Count()
    ensures Retyped(c, MakeReserved(c, i))
  {
    var q := FirstIdent(c.mem, c.scraps[i].text);
    if q.Some? {
      ReserveFromRetypes(c, c.mem.toks[q.value], i);
    }
  }

  lemma RetypedValid(c: Config, c': Config)
    requires c.Valid() && Retyped(c, c')
    ensures c'.Valid() && Grows(c.mem, c'.mem) && c'.mem.Count() == c.mem.Count()
  {
    assert c'.mem.Ordered();
    forall t | 0 <= t < c'.mem.Count() ensures RefersBelow(c'.mem.Text(t), t) {
      assert RefersBelow(c.mem.Text(t), t);
      forall i | 0 <= i < |c'.mem.Text(t)| && IsRef(c'.mem.Text(t)[i]) ensures c'.mem.Text(t)[i].text < t {
        assert c'.mem.Text(t)[i] == c'.mem.toks[c.mem.starts[t] + i];
        assert c.mem.Text(t)[i] == c.mem.toks[c.mem.starts[t] + i];
      }
    }
  }

  lemma ReserveNext(c: Config, a: Token, i: nat) returns (next: Config)
    requires c.Valid() && i < |c.scraps| && (a.Ident? || a.Res?)
    ensures next == ReserveOne(c, a, i) && next.Valid() && |next.scraps| == |c.scraps|
    ensures ReserveFrom(next, a, i + 1) == ReserveFrom(c, a, i)
  {
    next := ReserveOne(c, a, i);
    assert Retyped(c, next);
    RetypedValid(c, next);
    ReserveFromStep(c, a, i);
  }

  lemma ReserveFromValid(c: Config, a: Token, i: nat)
    requires c.Valid() && i <= |c.scraps| && (a.Ident? || a.Res?)
    ensures ReserveFrom(c, a, i).Valid() && |ReserveFrom(c, a, i).scraps| == |c.scraps|
    ensures |ReserveFrom(c, a, i).mem.toks| == |c.mem.toks|
  {
    ReserveFromRetypes(c, a, i);
    RetypedValid(c, ReserveFrom(c, a, i));
  }

  // ----- New texts refer to earlier texts --------------------------------------------------------

  lemma RefersAppend(a: seq<Token>, b: seq<Token>, bound: nat)
    requires RefersBelow(a, bound) && RefersBelow(b, bound)
    ensures RefersBelow(a + b, bound)
  {
  }

  lemma RunOpRefers(w: Work, op: Op, scraps: seq<Scrap>, bound: nat)
    requires RefersBelow(w.toks, bound) && TextsBelow(scraps, bound)
    ensures RefersBelow(RunOp(w, op, scraps).toks, bound)
  {
    RefersAppend(w.toks, LEAVE_MATH, bound);
    RefersAppend(w.toks, ENTER_MATH, bound);
    RefersAppend(w.toks, [], bound);
    match op
    case Sub(i) =>
      if i < |scraps| {
        var s := scraps[i];
        var w1 := if s.left.MaybeMath? then w else Shift(w, s.left);
        RefersAppend(w1.toks, [TextRef(s.text)], bound);
      }
    case Big(a) => RefersAppend(Shift(w, if OutsideMath(a) then NoMath else YesMath).toks, [Chr(a)], bound);
    case Raw(a) => RefersAppend(w.toks, [Chr(a)], bound);
    case Angle(ch) => RefersAppend(w.toks, [Chr(Glyph(ch))], bound);
  }

  lemma {:induction false} RunOpsRefers(ops: Ops, scraps: seq<Scrap>, bound: nat)
    requires TextsBelow(scraps, bound)
    ensures RefersBelow(RunOps(ops, scraps).toks, bound)
  {
    if ops.Then? {
      RunOpsRefers(ops.prev, scraps, bound);
      RunOpRefers(RunOps(ops.prev, scraps), ops.op, scraps, bound);
    }
  }

  lemma {:induction false} CopiesBound(ops: Ops, at: nat, end: nat)
    requires CopiesInOrder(ops, at, end)
    ensures at <= end
  {
    if ops.Then? {
      CopiesBound(ops.prev, at, if ops.op.Sub? then ops.op.i else end);
    }
  }

  /** Every `Sub(i)` among the instructions has `i < n`. */
  predicate SubsBelow(ops: Ops, n: nat) {
    ops.New? || (SubsBelow(ops.prev, n) && (ops.op.Sub? ==> ops.op.i < n))
  }

  lemma {:induction false} CopiesSubsBelow(ops: Ops, at: nat, end: nat, n: nat)
    requires CopiesInOrder(ops, at, end) && end <= n
    ensures SubsBelow(ops, n)
  {
    if ops.Then? {
      CopiesSubsBelow(ops.prev, at, if ops.op.Sub? then ops.op.i else end, n);
    }
  }

  /** A production that copies a scrap builds a text that is not empty. */
  lemma {:induction false} RunOpsNotEmpty(ops: Ops, at: nat, end: nat, scraps: seq<Scrap>)
    requires CopiesInOrder(ops, at, end) && at < end <= |scraps|
    ensures RunOps(ops, scraps).toks != []
  {
    if !ops.op.Sub? {
      RunOpsNotEmpty(ops.prev, at, end, scraps);
    }
  }

  // ----- One step --------------------------------------------------------------------------------

  /** The configuration in which production `r` does its work: after `make_reserved`. */
  function Prepared(c: Config, r: Rule): (c': Config)
    requires c.Valid()
    requires r.reserve.Some? ==> c.pp + r.reserve.value < |c.scraps|
    ensures Retyped(c, c') && c'.Valid() && Grows(c.mem, c'.mem) && c'.mem.Count() == c.mem.Count()
  {
    if r.reserve.Some? then
      var i := c.pp + r.reserve.value;
      MakeReservedRetypes(c, i);
      RetypedValid(c, MakeReserved(c, i));
      MakeReserved(c, i)
    else c
  }

  /** A `squash` of one scrap: only its category changes. */
  function Recategorise(c: Config, r: Rule): Config
    requires c.pp + r.at < |c.scraps|
  {
    var j := c.pp + r.at;
    Config(c.scraps[j := c.scraps[j].(cat := r.cat)], Moved(c.pp, r.d), c.mem)
  }

  function Replace(c: Config, r: Rule, w: Work): Config
    requires c.pp + r.at + r.k <= |c.scraps|
  {
    var j := c.pp + r.at;
    Config(c.scraps[..j] + [Scrap(r.cat, w.init, w.cur, c.mem.Count())] + c.scraps[j + r.k..],
           Moved(c.pp, r.d),
           c.mem.Freeze(w.toks))
  }

  /** What the instructions build from the scraps at and after `pp`. */
  function Built(c: Config, ops: Ops): Work
    requires c.pp <= |c.scraps|
  {
    RunOps(ops, c.scraps[c.pp..])
  }

  /** `reduce`: the `k` consumed scraps become one, whose text was built by `ops`. */
  function Rebuild(c: Config, r: Rule, ops: Ops): Config
    requires c.pp + r.at + r.k <= |c.scraps|
  {
    Replace(c, r, Built(c, ops))
  }

  function Apply(c: Config, r: Rule): Config
    requires c.Valid() && Fits(c, r)
  {
    match r.effect
    case Recat => Recategorise(c, r)
    case Build(ops) => Rebuild(Prepared(c, r), r, ops)
  }

  function Step(c: Config, table: Table): Config
    requires SoundTable(table) && c.Valid() && c.pp < |c.scraps|
  {
    ProductionFits(c, table);
    match Production(c, table)
    case None => c.(pp := c.pp + 1)
    case Some(r) => Apply(c, r)
  }

  lemma StepByRule(c: Config, table: Table)
    requires SoundTable(table) && c.Valid() && c.pp < |c.scraps|
    ensures Production(c, table).None? ==> Step(c, table) == c.(pp := c.pp + 1)
    ensures Production(c, table).Some? ==>
            Fits(c, Production(c, table).value) && Step(c, table) == Apply(c, Production(c, table).value)
  {
    ProductionFits(c, table);
  }

  // ----- Every step keeps the configuration valid ------------------------------------------------

  lemma ReplaceValid(c: Config, r: Rule, w: Work)
    requires c.Valid() && r.k >= 1 && c.pp + r.at + r.k <= |c.scraps| && r.d <= 1 && !r.cat.Zero?
    requires w.toks != [] && RefersBelow(w.toks, c.mem.Count())
    ensures Replace(c, r, w).Valid() && Grows(c.mem, Replace(c, r, w).mem)
    ensures Replace(c, r, w).mem.Count() == c.mem.Count() + 1
    ensures Replace(c, r, w).mem.Text(c.mem.Count()) == w.toks
  {
    FreezeKeeps(c.mem, w.toks);
    var scraps' := Replace(c, r, w).scraps;
    var j := c.pp + r.at;
    forall i | 0 <= i < |scraps'|
      ensures scraps'[i].text < c.mem.Count() + 1 && !scraps'[i].cat.Zero?
    {
      if i < j { assert scraps'[i] == c.scraps[i]; }
      else if i > j { assert scraps'[i] == c.scraps[i + r.k - 1]; }
    }
  }

  /** The text a production builds is not empty and refers to earlier texts only. */
  lemma BuiltText(c: Config, r: Rule, ops: Ops)
    requires c.Valid() && r.k >= 1 && c.pp + r.at + r.k <= |c.scraps|
    requires Forgets(ops) || CopiesInOrder(ops, r.at, r.at + r.k)
    ensures var w := Built(c, ops); w.toks != [] && RefersBelow(w.toks, c.mem.Count())
  {
    RunOpsRefers(ops, c.scraps[c.pp..], c.mem.Count());
    if Forgets(ops) {
      assert RunOps(ops.prev, c.scraps[c.pp..]) == Fresh;
    } else {
      RunOpsNotEmpty(ops, r.at, r.at + r.k, c.scraps[c.pp..]);
    }
  }

  lemma RecategoriseValid(c: Config, r: Rule)
    requires c.Valid() && c.pp + r.at < |c.scraps| && r.d <= 1 && !r.cat.Zero?
    ensures Recategorise(c, r).Valid()
  {
  }

  lemma ApplyValid(c: Config, r: Rule)
    requires c.Valid() && Fits(c, r)
    ensures Apply(c, r).Valid() && Grows(c.mem, Apply(c, r).mem)
  {
    match r.effect
    case Recat => RecategoriseValid(c, r);
    case Build(ops) =>
      var c1 := Prepared(c, r);
      BuiltText(c1, r, ops);
      ReplaceValid(c1, r, Built(c1, ops));
  }

  lemma StepValid(c: Config, table: Table)
    requires SoundTable(table) && c.Valid() && c.pp < |c.scraps|
    ensures Step(c, table).Valid() && Grows(c.mem, Step(c, table).mem)
  {
    ProductionFits(c, table);
    if Production(c, table).Some? { ApplyValid(c, Production(c, table).value); }
  }
}
