/** The links between CTANGLE's replacement texts: every name's texts form a chain in source order. */
module TangleLinks {
  import opened Wrappers
  import opened TangleTokens
  import opened TangleExpand

  /** What a text defines. Text 0 is a dummy that heads the chain of unnamed texts. */
  datatype Kind = Dummy | Macro | Unnamed | Named(name: nat)

  /** The first text of kind `k` at `from` or later, |kinds| if there is none. */
  function First(kinds: seq<Kind>, k: Kind, from: nat): (t: nat)
    requires from <= |kinds|
    ensures from <= t <= |kinds|
    ensures t < |kinds| ==> kinds[t] == k
    ensures forall i | from <= i < t :: kinds[i] != k
    decreases |kinds| - from
  {
    if from == |kinds| || kinds[from] == k then from else First(kinds, k, from + 1)
  }

  /** The first text of kind `k` at `from` or later, or `none`. */
  function Next(kinds: seq<Kind>, k: Kind, from: nat, none: nat): nat
    requires from <= |kinds|
  {
    if First(kinds, k, from) == |kinds| then none else First(kinds, k, from)
  }

  lemma FirstUnique(kinds: seq<Kind>, k: Kind, from: nat, t: nat)
    requires from <= t <= |kinds| && (t < |kinds| ==> kinds[t] == k)
    requires forall i | from <= i < t :: kinds[i] != k
    ensures First(kinds, k, from) == t
  {
  }

  lemma FirstGrown(kinds: seq<Kind>, k: Kind, c: Kind, from: nat)
    requires from <= |kinds|
    ensures var f := First(kinds, c, from);
            First(kinds + [k], c, from) == if f < |kinds| || c == k then f else f + 1
  {
    var f := First(kinds, c, from);
    FirstUnique(kinds + [k], c, from, if f < |kinds| || c == k then f else f + 1);
  }

  lemma NextGrown(kinds: seq<Kind>, k: Kind, c: Kind, from: nat, none: nat)
    requires from <= |kinds| && (none < from || none > |kinds|)
    ensures Next(kinds + [k], c, from, none) ==
            if Next(kinds, c, from, none) == none && c == k then |kinds| else Next(kinds, c, from, none)
    ensures Next(kinds, c, from, none) == none <==> First(kinds, c, from) == |kinds|
  {
    FirstGrown(kinds, k, c, from);
  }

  /** What `text_link` of text `t` must be. */
  function RightLink(kinds: seq<Kind>, t: nat): nat
    requires t < |kinds|
  {
    match kinds[t]
    case Dummy => Next(kinds, Unnamed, t + 1, 0)
    case Macro => 0
    case _ => Next(kinds, kinds[t], t + 1, SECTION_FLAG)
  }

  /** The texts of kind `k` end at `t`. */
  predicate Ends(kinds: seq<Kind>, k: Kind, t: nat)
    requires t < |kinds|
  {
    (kinds[t] == k || (kinds[t] == Dummy && k == Unnamed)) && First(kinds, k, t + 1) == |kinds|
  }

  lemma RightLinkGrown(kinds: seq<Kind>, k: Kind, t: nat)
    requires t < |kinds| < SECTION_FLAG && k != Dummy
    ensures RightLink(kinds + [k], t) == if k != Macro && Ends(kinds, k, t) then |kinds| else RightLink(kinds, t)
  {
    NextGrown(kinds, k, Unnamed, t + 1, 0);
    NextGrown(kinds, k, kinds[t], t + 1, SECTION_FLAG);
  }

  ghost predicate LinksRight(kinds: seq<Kind>, link: seq<nat>) {
    |kinds| == |link| && forall t: nat | t < |kinds| :: link[t] == RightLink(kinds, t)
  }

  /** A text comes in, linked from `q`, where the texts of its kind ended so far. */
  lemma LinksGrown(kinds: seq<Kind>, link: seq<nat>, k: Kind, q: nat)
    requires LinksRight(kinds, link) && |kinds| < SECTION_FLAG && q < |kinds| && k != Dummy && k != Macro
    requires Ends(kinds, k, q) && forall t | 0 < t < |kinds| :: kinds[t] != Dummy
    ensures LinksRight(kinds + [k], link[q := |kinds|] + [SECTION_FLAG])
  {
    var kinds', link' := kinds + [k], link[q := |kinds|] + [SECTION_FLAG];
    forall t: nat | t < |kinds'| ensures link'[t] == RightLink(kinds', t) {
      if t < |kinds| {
        RightLinkGrown(kinds, k, t);
        assert t != q ==> !Ends(kinds, k, t);
      }
    }
  }

  /** A text comes in that no other text is linked to. */
  lemma LinksGrownFree(kinds: seq<Kind>, link: seq<nat>, k: Kind)
    requires LinksRight(kinds, link) && |kinds| < SECTION_FLAG && k != Dummy
    requires k != Macro ==> forall t: nat | t < |kinds| :: !Ends(kinds, k, t)
    ensures LinksRight(kinds + [k], link + [if k == Macro then 0 else SECTION_FLAG])
  {
    var kinds', link' := kinds + [k], link + [if k == Macro then 0 else SECTION_FLAG];
    forall t: nat | t < |kinds'| ensures link'[t] == RightLink(kinds', t) {
      if t < |kinds| { RightLinkGrown(kinds, k, t); }
    }
  }

  /** The first text of every name. */
  ghost predicate FirstsRight(kinds: seq<Kind>, equiv: seq<nat>) {
    |kinds| > 0 && forall n: nat | n < |equiv| :: equiv[n] == Next(kinds, Named(n), 1, 0)
  }

  lemma FirstsGrown(kinds: seq<Kind>, equiv: seq<nat>, k: Kind)
    requires FirstsRight(kinds, equiv)
    requires forall n: nat | n < |equiv| && k == Named(n) :: equiv[n] != 0
    ensures FirstsRight(kinds + [k], equiv)
  {
    forall n: nat | n < |equiv| ensures equiv[n] == Next(kinds + [k], Named(n), 1, 0) {
      NextGrown(kinds, k, Named(n), 1, 0);
    }
  }

  lemma FirstsGrownNew(kinds: seq<Kind>, equiv: seq<nat>, n: nat)
    requires FirstsRight(kinds, equiv) && n < |equiv| && equiv[n] == 0
    ensures FirstsRight(kinds + [Named(n)], equiv[n := |kinds|])
  {
    var equiv' := equiv[n := |kinds|];
    forall m: nat | m < |equiv'| ensures equiv'[m] == Next(kinds + [Named(n)], Named(m), 1, 0) {
      NextGrown(kinds, Named(n), Named(m), 1, 0);
    }
  }

  /** The links and the first text of every name are right. */
  ghost predicate Chained(kinds: seq<Kind>, link: seq<nat>, equiv: seq<nat>) {
    && 0 < |kinds| <= SECTION_FLAG
    && kinds[0] == Dummy && (forall t | 0 < t < |kinds| :: kinds[t] != Dummy && kinds[t] != Named(0))
    && LinksRight(kinds, link)
    && FirstsRight(kinds, equiv)
  }

  /** And so is `last_unnamed`. */
  ghost predicate Linked(kinds: seq<Kind>, link: seq<nat>, equiv: seq<nat>, last: nat) {
    && Chained(kinds, link, equiv) && last < |kinds|
    && (last == 0 || kinds[last] == Unnamed) && First(kinds, Unnamed, last + 1) == |kinds|
  }

  /** A macro text comes in: its link is 0 and nothing else changes. */
  lemma LinkMacro(kinds: seq<Kind>, link: seq<nat>, equiv: seq<nat>, last: nat)
    requires Linked(kinds, link, equiv, last) && |kinds| < SECTION_FLAG
    ensures Linked(kinds + [Macro], link + [0], equiv, last)
  {
    LinksGrownFree(kinds, link, Macro);
    FirstsGrown(kinds, equiv, Macro);
    FirstGrown(kinds, Macro, Unnamed, last + 1);
  }

  /** An unnamed text comes in, linked from the last one before. */
  lemma LinkUnnamed(kinds: seq<Kind>, link: seq<nat>, equiv: seq<nat>, last: nat)
    requires Linked(kinds, link, equiv, last) && |kinds| < SECTION_FLAG
    ensures Linked(kinds + [Unnamed], link[last := |kinds|] + [SECTION_FLAG], equiv, |kinds|)
  {
    LinksGrown(kinds, link, Unnamed, last);
    FirstsGrown(kinds, equiv, Unnamed);
  }

  /** The first text of name `n` comes in. */
  lemma LinkFirst(kinds: seq<Kind>, link: seq<nat>, equiv: seq<nat>, last: nat, n: nat)
    requires Linked(kinds, link, equiv, last) && |kinds| < SECTION_FLAG
    requires 0 < n < |equiv| && equiv[n] == 0
    ensures Linked(kinds + [Named(n)], link + [SECTION_FLAG], equiv[n := |kinds|], last)
  {
    assert First(kinds, Named(n), 1) == |kinds|;
    LinksGrownFree(kinds, link, Named(n));
    FirstsGrownNew(kinds, equiv, n);
    FirstGrown(kinds, Named(n), Unnamed, last + 1);
  }

  /** A further text of name `n` comes in, linked from the last one before, `q`. */
  lemma LinkNext(kinds: seq<Kind>, link: seq<nat>, equiv: seq<nat>, last: nat, n: nat, q: nat)
    requires Linked(kinds, link, equiv, last) && |kinds| < SECTION_FLAG
    requires 0 < n < |equiv| && 0 < q < |kinds| && kinds[q] == Named(n) && link[q] >= SECTION_FLAG
    ensures Linked(kinds + [Named(n)], link[q := |kinds|] + [SECTION_FLAG], equiv, last)
  {
    assert link[q] == RightLink(kinds, q);
    LinksGrown(kinds, link, Named(n), q);
    assert First(kinds, Named(n), 1) <= q;
    FirstsGrown(kinds, equiv, Named(n));
    FirstGrown(kinds, Named(n), Unnamed, last + 1);
  }

  // ----- Chains ----------------------------------------------------------------------------------

  /** The texts met by following `text_link` from `t` to a link that is not below `section_flag`. */
  function Chain(p: Program, t: nat): (c: seq<nat>)
    requires p.Valid() && p.InSection(t)
    ensures |c| > 0
    decreases |p.texts| - t
  {
    [t] + if p.link[t] < SECTION_FLAG then Chain(p, p.link[t]) else []
  }

  /** All texts of kind `k` at `from` or later, in increasing order. */
  function AllOf(kinds: seq<Kind>, k: Kind, from: nat): (c: seq<nat>)
    requires from <= |kinds|
    ensures forall i | 0 <= i < |c| :: from <= c[i] < |kinds| && kinds[c[i]] == k
    ensures forall i, j | 0 <= i < j < |c| :: c[i] < c[j]
    ensures forall t: nat | from <= t < |kinds| && kinds[t] == k :: t in c
    decreases |kinds| - from
  {
    if from == |kinds| then []
    else (if kinds[from] == k then [from] else []) + AllOf(kinds, k, from + 1)
  }

  lemma {:induction false} AllFromFirst(kinds: seq<Kind>, k: Kind, from: nat)
    requires from <= |kinds|
    ensures AllOf(kinds, k, from) == AllOf(kinds, k, First(kinds, k, from))
    decreases |kinds| - from
  {
    if from < |kinds| && kinds[from] != k { AllFromFirst(kinds, k, from + 1); }
  }

  /** Right links make a valid program: every link leads to a later text of a section. */
  lemma ChainedValid(kinds: seq<Kind>, p: Program)
    requires Chained(kinds, p.link, p.equiv) && |p.texts| == |p.link|
    requires forall t | 0 <= t < |p.texts| :: AllEncodable(p.texts[t])
    ensures p.Valid()
    ensures forall t: nat | 0 < t < |kinds| :: p.InSection(t) <==> kinds[t] != Macro
  {
    forall t: nat | 0 < t < |kinds|
      ensures kinds[t] == Macro ==> p.link[t] == 0
      ensures kinds[t] != Macro ==> p.link[t] == Next(kinds, kinds[t], t + 1, SECTION_FLAG) != 0
    {
      assert p.link[t] == RightLink(kinds, t);
    }
  }

  /** From a text on, its chain consists of exactly the later texts of the same kind, in source order. */
  lemma {:induction false} ChainIsAll(kinds: seq<Kind>, p: Program, t: nat)
    requires Chained(kinds, p.link, p.equiv) && p.Valid() && p.InSection(t)
    requires kinds[t] != Macro
    ensures Chain(p, t) == AllOf(kinds, kinds[t], t)
    decreases |kinds| - t
  {
    hide Chained, RightLink, Next, First;
    LinkIsNext(kinds, p, t);
    AllFromFirst(kinds, kinds[t], t + 1);
    if p.link[t] < SECTION_FLAG { ChainIsAll(kinds, p, p.link[t]); }
  }

  /** The link of a text of a section leads to the first later text of its kind. */
  lemma LinkIsNext(kinds: seq<Kind>, p: Program, t: nat)
    requires Chained(kinds, p.link, p.equiv) && p.InSection(t) && kinds[t] != Macro
    ensures |kinds| == |p.texts| && var f := First(kinds, kinds[t], t + 1);
            if f == |kinds| then p.link[t] == SECTION_FLAG && AllOf(kinds, kinds[t], f) == []
            else p.link[t] == f < SECTION_FLAG && kinds[f] == kinds[t]
  {
    assert p.link[t] == RightLink(kinds, t);
  }

  /** From `equiv` of a name one visits exactly the texts of that name, and a name without texts has no
      definition. */
  lemma NameChain(kinds: seq<Kind>, p: Program, n: nat)
    requires Chained(kinds, p.link, p.equiv) && |p.texts| == |p.link| && n < |p.equiv|
    requires forall t | 0 <= t < |p.texts| :: AllEncodable(p.texts[t])
    ensures p.Valid()
    ensures match p.Definition(n)
            case None => AllOf(kinds, Named(n), 1) == []
            case Some(t) => p.InSection(t) && Chain(p, t) == AllOf(kinds, Named(n), 1)
  {
    ChainedValid(kinds, p);
    AllFromFirst(kinds, Named(n), 1);
    if p.Definition(n).Some? { ChainIsAll(kinds, p, p.equiv[n]); }
  }

  /** The same for the unnamed texts and the link of text 0. */
  lemma UnnamedChain(kinds: seq<Kind>, p: Program)
    requires Chained(kinds, p.link, p.equiv) && |p.texts| == |p.link|
    requires forall t | 0 <= t < |p.texts| :: AllEncodable(p.texts[t])
    ensures p.Valid()
    ensures if p.link[0] == 0 then AllOf(kinds, Unnamed, 1) == []
            else p.InSection(p.link[0]) && Chain(p, p.link[0]) == AllOf(kinds, Unnamed, 1)
  {
    ChainedValid(kinds, p);
    AllFromFirst(kinds, Unnamed, 1);
    assert p.link[0] == RightLink(kinds, 0);
    if p.link[0] != 0 { ChainIsAll(kinds, p, p.link[0]); }
  }

  // ----- What a chain expands to -----------------------------------------------------------------

  /** The text begins with its section number. */
  predicate Headed(p: Program, t: nat) {
    p.InSection(t) && p.texts[t] != [] && p.texts[t][0].SecNum?
  }

  /** Opening marker, tokens, closing marker. */
  function Bracketed(p: Program, t: nat, room: nat): Out
    requires p.Valid() && Headed(p, t)
  {
    var n, ts := p.texts[t][0].n, p.texts[t][1..];
    Then(Emits([Marker(n)]), Then(ExpandToks(p, ts, room), Emits(Closing(SectionAfter(ts, n)))))
  }

  /** The texts of a list one after the other. */
  function InOrder(p: Program, ts: seq<nat>, room: nat): Out
    requires p.Valid() && forall i | 0 <= i < |ts| :: Headed(p, ts[i])
  {
    if ts == [] then Nothing else Then(Bracketed(p, ts[0], room), InOrder(p, ts[1..], room))
  }

  ghost predicate AllHeaded(p: Program) {
    p.Valid() && forall t: nat | p.InSection(t) :: Headed(p, t)
  }

  lemma {:induction false} ChainInSections(p: Program, t: nat)
    requires p.Valid() && p.InSection(t)
    ensures forall i | 0 <= i < |Chain(p, t)| :: p.InSection(Chain(p, t)[i])
    decreases |p.texts| - t
  {
    if p.link[t] < SECTION_FLAG { ChainInSections(p, p.link[t]); }
  }

  lemma BracketedFirst(p: Program, t: nat, sec: nat, room: nat, next: Out)
    requires p.Valid() && Headed(p, t)
    requires next == if p.link[t] < SECTION_FLAG
                     then ExpandText(p, p.link[t], SectionAfter(p.texts[t][1..], p.texts[t][0].n), p.texts[p.link[t]], room)
                     else Nothing
    ensures ExpandText(p, t, sec, p.texts[t], room) == Then(Bracketed(p, t, room), next)
  {
    var n, ts := p.texts[t][0].n, p.texts[t][1..];
    var mark, inside, close := Emits([Marker(n)]), ExpandToks(p, ts, room), Emits(Closing(SectionAfter(ts, n)));
    assert ExpandToks(p, p.texts[t], room) == Then(mark, inside);
    ThenAssociative(mark, inside, Then(close, next));
    ThenAssociative(inside, close, next);
    ThenAssociative(mark, Then(inside, close), next);
  }

  /** The expansion of a chain is that of its texts one after the other, each between its own markers. */
  lemma {:induction false} ChainExpands(p: Program, t: nat, sec: nat, room: nat)
    requires AllHeaded(p) && p.InSection(t)
    ensures forall i | 0 <= i < |Chain(p, t)| :: Headed(p, Chain(p, t)[i])
    ensures ExpandText(p, t, sec, p.texts[t], room) == InOrder(p, Chain(p, t), room)
    decreases |p.texts| - t
  {
    ChainInSections(p, t);
    var sec', u := SectionAfter(p.texts[t][1..], p.texts[t][0].n), p.link[t];
    if u < SECTION_FLAG {
      ChainExpands(p, u, sec', room);
      assert Chain(p, t)[1..] == Chain(p, u);
      BracketedFirst(p, t, sec, room, ExpandText(p, u, sec', p.texts[u], room));
    } else {
      assert Chain(p, t)[1..] == [];
      BracketedFirst(p, t, sec, room, Nothing);
    }
  }

  /** The definition of a name expands to all its texts in source order. */
  lemma NameInOrder(kinds: seq<Kind>, p: Program, n: nat, room: nat)
    requires Chained(kinds, p.link, p.equiv) && AllHeaded(p) && n < |p.equiv|
    ensures forall i | 0 <= i < |AllOf(kinds, Named(n), 1)| :: Headed(p, AllOf(kinds, Named(n), 1)[i])
    ensures match p.Definition(n)
            case None => InOrder(p, AllOf(kinds, Named(n), 1), room) == Nothing
            case Some(t) => p.InSection(t)
                            && ExpandText(p, t, 0, p.texts[t], room) == InOrder(p, AllOf(kinds, Named(n), 1), room)
  {
    NameChain(kinds, p, n);
    var d := p.Definition(n);
    if d.Some? { ChainExpands(p, d.value, 0, room); }
  }
}
