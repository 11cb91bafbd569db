/** Scraps, the texts they point to, and what a text means when it is typeset: the sequence of its
    atoms, and the way these atoms switch TeX's math mode on and off. */
module ScrapTexts {
  import opened Wrappers
  import opened Productions

  datatype Token =
    | Chr(code: Code) | Ident(name: nat) | Res(name: nat) | Section(name: nat)
    | TextRef(text: nat) | InnerRef(text: nat)

  datatype Mathness = MaybeMath | YesMath | NoMath

  datatype Scrap = Scrap(cat: Cat, left: Mathness, right: Mathness, text: nat)

  /** The token memory; text `t` occupies positions `starts[t]` to `starts[t+1]`. */
  datatype Memory = Memory(toks: seq<Token>, starts: seq<nat>) {

    ghost predicate Ordered() {
      && |starts| >= 1
      && (forall i, j | 0 <= i <= j < |starts| :: starts[i] <= starts[j] <= |toks|)
    }

    function Count(): nat {
      if |starts| == 0 then 0 else |starts| - 1
    }

    function Text(t: nat): (ts: seq<Token>)
      requires Ordered() && t < Count()
    {
      toks[starts[t]..starts[t + 1]]
    }

    /** Texts are frozen one after the other, refer only to earlier texts, and the last is not empty. */
    ghost predicate Valid() {
      && Ordered() && Count() >= 1
      && starts[Count()] == |toks|
      && starts[Count() - 1] < |toks|
      && forall t | 0 <= t < Count() :: RefersBelow(Text(t), t)
    }

    /** `freeze_text` after appending `ts`. */
    function Freeze(ts: seq<Token>): Memory {
      Memory(toks + ts, starts + [|toks| + |ts|])
    }
  }

  predicate IsRef(a: Token) {
    a.TextRef? || a.InnerRef?
  }

  ghost predicate RefersBelow(ts: seq<Token>, bound: nat) {
    forall i | 0 <= i < |ts| :: IsRef(ts[i]) ==> ts[i].text < bound
  }

  /** `Leaf(t)` is a text that is not taken apart, `Enter(t)` the place where the expansion of text `t`
      begins. */
  datatype Atom = Leaf(text: nat) | Enter(text: nat) | Name(name: nat) | SectionName(name: nat) | Layout(code: Code)

  /** The left-to-right expansion of text `t`, in which texts below `n0` are not taken apart. */
  function Flat(m: Memory, n0: nat, t: nat): seq<Atom>
    requires m.Ordered() && t < m.Count()
    decreases t, 2
  {
    if t < n0 then [Leaf(t)] else [Enter(t)] + FlatSeq(m, n0, m.Text(t), t)
  }

  /** The expansion of the tokens `ts`, in which references go to texts below `bound`. */
  function FlatToks(m: Memory, n0: nat, ts: seq<Token>, bound: nat): seq<Atom>
    requires m.Ordered() && bound <= m.Count()
  {
    FlatSeq(m, n0, ts, bound)
  }

  function FlatSeq(m: Memory, n0: nat, ts: seq<Token>, bound: nat): seq<Atom>
    requires m.Ordered() && bound <= m.Count()
    decreases bound, 1, |ts|
  {
    if ts == [] then []
    else FlatSeq(m, n0, ts[..|ts| - 1], bound) + FlatTok(m, n0, ts[|ts| - 1], bound)
  }

  function FlatTok(m: Memory, n0: nat, a: Token, bound: nat): seq<Atom>
    requires m.Ordered() && bound <= m.Count()
    decreases bound, 0
  {
    match a
    case Chr(c) => [Layout(c)]
    case Ident(n) => [Name(n)]
    case Res(n) => [Name(n)]
    case Section(n) => [SectionName(n)]
    case TextRef(u) => if u < bound then Flat(m, n0, u) else []
    case InnerRef(u) => if u < bound then Flat(m, n0, u) else []
  }

  lemma {:induction false} FlatAppend(m: Memory, n0: nat, a: seq<Token>, b: seq<Token>, bound: nat)
    requires m.Ordered() && bound <= m.Count()
    ensures FlatToks(m, n0, a + b, bound) == FlatToks(m, n0, a, bound) + FlatToks(m, n0, b, bound)
  {
    if b == [] {
      assert a + b == a;
    } else {
      var n := |b| - 1;
      assert (a + b)[..|a + b| - 1] == a + b[..n];
      FlatAppend(m, n0, a, b[..n], bound);
    }
  }

  // ----- Growth of the memory -------------------------------------------------------------------

  /** Equal, except that an identifier may have become a reserved word. */
  predicate Alike(a: Token, b: Token) {
    a == b || ((a.Ident? || a.Res?) && (b.Ident? || b.Res?) && a.name == b.name)
  }

  ghost predicate Grows(m: Memory, m': Memory) {
    && m.starts <= m'.starts
    && |m.toks| <= |m'.toks|
    && forall i | 0 <= i < |m.toks| :: Alike(m.toks[i], m'.toks[i])
  }

  lemma {:induction false} FlatGrows(m: Memory, m': Memory, n0: nat, t: nat)
    requires m.Ordered() && m'.Ordered() && Grows(m, m') && t < m.Count()
    ensures Flat(m, n0, t) == Flat(m', n0, t)
    decreases t, 1, 0
  {
    FlatToksGrows(m, m', n0, m.Text(t), m'.Text(t), t);
  }

  lemma {:induction false} FlatToksGrows(m: Memory, m': Memory, n0: nat, ts: seq<Token>, ts': seq<Token>, bound: nat)
    requires m.Ordered() && m'.Ordered() && Grows(m, m') && bound <= m.Count()
    requires |ts| == |ts'| && forall i | 0 <= i < |ts| :: Alike(ts[i], ts'[i])
    ensures FlatToks(m, n0, ts, bound) == FlatToks(m', n0, ts', bound)
    decreases bound, 0, |ts|
  {
    if ts != [] {
      var n := |ts| - 1;
      FlatToksGrows(m, m', n0, ts[..n], ts'[..n], bound);
      if IsRef(ts[n]) && ts[n].text < bound {
        FlatGrows(m, m', n0, ts[n].text);
      }
      assert FlatTok(m, n0, ts[n], bound) == FlatTok(m', n0, ts'[n], bound) by { assert Alike(ts[n], ts'[n]); }
    }
  }

  /** Freezing a text that refers only to earlier texts keeps the memory valid. */
  lemma FreezeKeeps(m: Memory, ts: seq<Token>)
    requires m.Valid() && ts != [] && RefersBelow(ts, m.Count())
    ensures m.Freeze(ts).Valid() && Grows(m, m.Freeze(ts))
    ensures m.Freeze(ts).Count() == m.Count() + 1 && m.Freeze(ts).Text(m.Count()) == ts
  {
    var f := m.Freeze(ts);
    assert f.Ordered();
    assert f.Text(m.Count()) == ts;
    forall t | 0 <= t < f.Count() ensures RefersBelow(f.Text(t), t) {
      if t < m.Count() { assert f.Text(t) == m.Text(t); }
    }
  }

  // ----- Conservation: the atoms that carry source text ------------------------------------------

  predicate Silent(a: Atom) {
    a.Layout? || a.Enter?
  }

  /** The atoms that carry source text. */
  function Content(atoms: seq<Atom>): seq<Atom> {
    if atoms == [] then []
    else Content(atoms[..|atoms| - 1]) + (if Silent(atoms[|atoms| - 1]) then [] else [atoms[|atoms| - 1]])
  }

  lemma {:induction false} ContentAppend(a: seq<Atom>, b: seq<Atom>)
    ensures Content(a + b) == Content(a) + Content(b)
  {
    if b == [] {
      assert a + b == a;
    } else {
      assert (a + b)[..|a + b| - 1] == a + b[..|b| - 1];
      ContentAppend(a, b[..|b| - 1]);
    }
  }

  /** The content of a text that is taken apart is that of its tokens. */
  lemma TakenApart(m: Memory, n0: nat, t: nat)
    requires m.Ordered() && n0 <= t < m.Count()
    ensures TextContent(m, n0, t) == Content(FlatToks(m, n0, m.Text(t), t))
  {
    assert Content([Enter(t)]) == [] by { assert Content([Enter(t)][..0]) == []; }
    ContentAppend([Enter(t)], FlatToks(m, n0, m.Text(t), t));
  }

  function TextContent(m: Memory, n0: nat, t: nat): seq<Atom>
    requires m.Ordered() && t < m.Count()
  {
    Content(Flat(m, n0, t))
  }

  predicate TextsBelow(scraps: seq<Scrap>, bound: nat) {
    forall i | 0 <= i < |scraps| :: scraps[i].text < bound
  }

  /** The content of a list of scraps, from left to right. */
  function Contents(m: Memory, n0: nat, scraps: seq<Scrap>): seq<Atom>
    requires m.Ordered() && TextsBelow(scraps, m.Count())
  {
    if scraps == [] then []
    else
      var n := |scraps| - 1;
      Contents(m, n0, scraps[..n]) + TextContent(m, n0, scraps[n].text)
  }

  lemma {:induction false} ContentsAppend(m: Memory, n0: nat, a: seq<Scrap>, b: seq<Scrap>)
    requires m.Ordered() && TextsBelow(a, m.Count()) && TextsBelow(b, m.Count())
    ensures Contents(m, n0, a + b) == Contents(m, n0, a) + Contents(m, n0, b)
  {
    if b == [] {
      assert a + b == a;
    } else {
      assert (a + b)[..|a + b| - 1] == a + b[..|b| - 1];
      ContentsAppend(m, n0, a, b[..|b| - 1]);
    }
  }

  lemma {:induction false} ContentsGrows(m: Memory, m': Memory, n0: nat, scraps: seq<Scrap>)
    requires m.Ordered() && m'.Ordered() && Grows(m, m') && TextsBelow(scraps, m.Count())
    ensures Contents(m, n0, scraps) == Contents(m', n0, scraps)
  {
    if scraps != [] {
      var n := |scraps| - 1;
      ContentsGrows(m, m', n0, scraps[..n]);
      FlatGrows(m, m', n0, scraps[n].text);
    }
  }

  /** Contents depend on the texts of the scraps only. */
  lemma {:induction false} ContentsByText(m: Memory, n0: nat, a: seq<Scrap>, b: seq<Scrap>)
    requires m.Ordered() && |a| == |b|
    requires forall i | 0 <= i < |a| :: a[i].text == b[i].text && a[i].text < m.Count()
    ensures TextsBelow(b, m.Count())
    ensures Contents(m, n0, a) == Contents(m, n0, b)
  {
    if a != [] {
      var n := |a| - 1;
      ContentsByText(m, n0, a[..n], b[..n]);
    }
  }

  // ----- Math mode -------------------------------------------------------------------------------

  /** Layout that TeX must see outside of math. */
  predicate NeedsNoMath(c: Code) {
    c.Backup? || c.BreakSpace? || c.Force? || c.BigForce?
  }

  /** Layout that TeX must see in math. */
  predicate NeedsMath(c: Code) {
    c.MathRel? || c == Glyph('{') || c == Glyph('}') || c == Glyph('<') || c == Glyph('>')
  }

  predicate Accepts(left: Mathness, mode: Mathness) {
    left.MaybeMath? || left == mode
  }

  /** The mode after one atom that is met in mode `mode`, or None when it may not stand there.  Every text may
      demand the mode in which it is entered; a text that is not taken apart leaves the mode as it is. */
  function AtomMode(demand: nat -> Mathness, a: Atom, mode: Mathness): Option<Mathness> {
    match a
    case Leaf(t) => if Accepts(demand(t), mode) then Some(mode) else None
    case Enter(t) => if Accepts(demand(t), mode) then Some(mode) else None
    case Name(_) => Some(mode)
    case SectionName(_) => Some(mode)
    case Layout(c) =>
      if c == Glyph('$') then Some(if mode.YesMath? then NoMath else YesMath)
      else if NeedsNoMath(c) then if mode.NoMath? then Some(mode) else None
      else if NeedsMath(c) then if mode.YesMath? then Some(mode) else None
      else Some(mode)
  }

  /** The mode in which typesetting the atoms ends when it begins in mode `mode`. */
  function EndMode(demand: nat -> Mathness, atoms: seq<Atom>, mode: Mathness): Option<Mathness> {
    if atoms == [] then Some(mode)
    else
      var n := |atoms| - 1;
      match EndMode(demand, atoms[..n], mode)
      case None => None
      case Some(m) => AtomMode(demand, atoms[n], m)
  }

  lemma {:induction false} EndModeAppend(demand: nat -> Mathness, a: seq<Atom>, b: seq<Atom>, mode: Mathness)
    ensures EndMode(demand, a + b, mode) ==
            match EndMode(demand, a, mode) case None => None case Some(m) => EndMode(demand, b, m)
  {
    if b == [] {
      assert a + b == a;
    } else {
      assert (a + b)[..|a + b| - 1] == a + b[..|b| - 1];
      EndModeAppend(demand, a, b[..|b| - 1], mode);
    }
  }

  /** Where atoms can be typeset, every text among them is entered in a mode that it accepts. */
  lemma {:induction false} EnteredRight(demand: nat -> Mathness, atoms: seq<Atom>, mode: Mathness, i: nat)
    requires EndMode(demand, atoms, mode).Some? && i < |atoms| && (atoms[i].Enter? || atoms[i].Leaf?)
    ensures EndMode(demand, atoms[..i], mode).Some?
    ensures Accepts(demand(atoms[i].text), EndMode(demand, atoms[..i], mode).value)
  {
    var n := |atoms| - 1;
    if i < n {
      assert atoms[..n][..i] == atoms[..i];
      EnteredRight(demand, atoms[..n], mode, i);
    }
  }

  /** Atoms with left mode `left` and right mode `right`: "maybe" on both sides and indifferent to the
      mode, or leading from a definite mode to a definite mode. */
  ghost predicate Leads(demand: nat -> Mathness, atoms: seq<Atom>, left: Mathness, right: Mathness) {
    if left.MaybeMath? then
      && right.MaybeMath?
      && EndMode(demand, atoms, YesMath) == Some(YesMath)
      && EndMode(demand, atoms, NoMath) == Some(NoMath)
    else
      !right.MaybeMath? && EndMode(demand, atoms, left) == Some(right)
  }

  ghost predicate Balanced(demand: nat -> Mathness, m: Memory, n0: nat, s: Scrap)
    requires m.Ordered() && s.text < m.Count()
  {
    Leads(demand, Flat(m, n0, s.text), s.left, s.right)
  }
}
