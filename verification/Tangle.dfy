/** CTANGLE as a whole: what comes out for the sections that went in. */
module Tangle {
  import opened Wrappers
  import opened TangleTokens
  import opened TangleExpand
  import opened TangleMachine
  import opened TangleNesting
  import opened TangleLinks
  import opened TangleStore
  import opened TanglePhaseOne

  /** `stack_size` */
  const STACK_SIZE: nat := 50

  /** The texts with the links they must have. */
  function ProgramOf(d: seq<Def>): Program
    requires d != []
  {
    Program(
      Texts(d),
      seq(|d|, t requires 0 <= t < |d| => RightLink(Kinds(d), t)),
      seq(MAX_NAMES, n requires 0 <= n < MAX_NAMES => Next(Kinds(d), Named(n), 1, 0)))
  }

  /** The fields of phase one hold the program with the right links. */
  lemma StoreIsProgram(d: seq<Def>, link: seq<nat>, equiv: seq<nat>)
    requires Chained(Kinds(d), link, equiv) && |equiv| == MAX_NAMES
    ensures ProgramOf(d) == Program(Texts(d), link, equiv)
  {
    assert ProgramOf(d).link == link;
    assert ProgramOf(d).equiv == equiv;
  }

  /** It is packed as phase two expects it, and its texts are numbered. */
  lemma ProgramNumbered(d: seq<Def>)
    requires AllWellFormed(d) && |d| <= MAX_TEXTS
    ensures Chained(Kinds(d), ProgramOf(d).link, ProgramOf(d).equiv)
    ensures Numbered(ProgramOf(d)) && AllHeaded(ProgramOf(d))
  {
    var kinds, p := Kinds(d), ProgramOf(d);
    forall t: nat | t < |p.texts| ensures p.texts[t] == d[t].text && WellFormed(d[t]) && kinds[t] == d[t].kind {
    }
    ChainedValid(kinds, p);
  }

  lemma ProgramStored(d: seq<Def>, mem: seq<Byte>, start: seq<nat>)
    requires AllWellFormed(d) && |d| <= MAX_TEXTS && Packs(d, mem, start)
    ensures Stored(ProgramOf(d), mem, start)
  {
    ProgramNumbered(d);
  }

  /** All texts of a kind, in source order. */
  function TextsOf(d: seq<Def>, k: Kind): (c: seq<nat>)
    requires d != []
    ensures forall i | 0 <= i < |c| :: 0 < c[i] < |d| && d[c[i]].kind == k
  {
    AllOf(Kinds(d), k, 1)
  }

  lemma TextsHeaded(d: seq<Def>, k: Kind)
    requires AllWellFormed(d) && |d| <= MAX_TEXTS && k != Macro
    ensures forall i | 0 <= i < |TextsOf(d, k)| :: Headed(ProgramOf(d), TextsOf(d, k)[i])
  {
    ProgramNumbered(d);
    var p := ProgramOf(d);
    ChainedValid(Kinds(d), p);
  }

  /** What the texts of a kind expand to, one after the other in source order. */
  function Expansion(d: seq<Def>, k: Kind, room: nat): Out
    requires AllWellFormed(d) && |d| <= MAX_TEXTS && k != Macro
  {
    ProgramNumbered(d);
    TextsHeaded(d, k);
    InOrder(ProgramOf(d), TextsOf(d, k), room)
  }

  /** A reference to a section name is replaced by all texts of that name in source order, wherever in the
      web they stand; it contributes nothing when there are none. */
  lemma NameExpands(d: seq<Def>, n: nat, room: nat)
    requires AllWellFormed(d) && |d| <= MAX_TEXTS && n < MAX_NAMES
    ensures ProgramOf(d).Valid()
    ensures ExpandTok(ProgramOf(d), SecRef(n), room + 1).events == Expansion(d, Named(n), room).events
    ensures ExpandTok(ProgramOf(d), SecRef(n), room + 1).ok == Expansion(d, Named(n), room).ok
  {
    var p := ProgramOf(d);
    ProgramNumbered(d);
    NameInOrder(Kinds(d), p, n, room);
    if p.Definition(n).Some? { RefEvents(p, n, p.Definition(n).value, room + 1); }
  }

  /** The unnamed texts are what phase two starts with. */
  lemma UnnamedExpands(d: seq<Def>, room: nat)
    requires AllWellFormed(d) && |d| <= MAX_TEXTS
    ensures ProgramOf(d).Valid()
    ensures var p, first := ProgramOf(d), ProgramOf(d).link[0];
            if first == 0 then TextsOf(d, Unnamed) == []
            else p.InSection(first) && TextsOf(d, Unnamed) != []
                 && ExpandSection(p, first, room) == Expansion(d, Unnamed, room)
  {
    var p := ProgramOf(d);
    ProgramNumbered(d);
    UnnamedChain(Kinds(d), p);
    if p.link[0] != 0 { ChainExpands(p, p.link[0], 0, room); }
  }

  /** The whole output: the macro definitions, unless `@h` has placed them, and the unnamed texts. */
  function Output(d: seq<Def>, outputDefsSeen: bool): seq<Event>
    requires AllWellFormed(d) && |d| <= MAX_TEXTS
  {
    var e := Expansion(d, Unnamed, STACK_SIZE - 1);
    (if outputDefsSeen then [] else Macros(ProgramOf(d)))
    + if TextsOf(d, Unnamed) == [] then [] else e.events + (if e.ok then [EndLine] else [])
  }

  /** All markers in the output nest, and complete output leaves no section open. */
  lemma OutputNests(d: seq<Def>, outputDefsSeen: bool)
    requires AllWellFormed(d) && |d| <= MAX_TEXTS
    ensures var r := Reads(Output(d, outputDefsSeen), []);
            r.Some? && (Expansion(d, Unnamed, STACK_SIZE - 1).ok ==> r.value == [])
  {
    var p := ProgramOf(d);
    ProgramNumbered(d);
    UnnamedExpands(d, STACK_SIZE - 1);
    MacrosNest(p);
    var head := if outputDefsSeen then [] else Macros(p);
    var e := Expansion(d, Unnamed, STACK_SIZE - 1);
    assert Reads(head, []) == Some([]);
    if TextsOf(d, Unnamed) == [] {
      assert head + [] == head;
    } else {
      BalancedText(p, p.link[0], 0, STACK_SIZE - 1, []);
      var rest := e.events + if e.ok then [EndLine] else [];
      EndNests(e);
      ReadsAppend(head, rest, []);
    }
  }

  lemma MacrosNest(p: Program)
    requires Numbered(p)
    ensures Reads(Macros(p), []) == Some([])
  {
    if p.texts != [] { AllMacrosUnmarked(p); }
    ReadsUnmarked(Macros(p), []);
  }

  lemma EndNests(e: Out)
    requires Balanced(e, [])
    ensures var r := Reads(e.events + (if e.ok then [EndLine] else []), []);
            r.Some? && (e.ok ==> r.value == [])
  {
    if e.ok {
      assert [EndLine][..0] == [];
      ReadsAppend(e.events, [EndLine], []);
    } else {
      assert e.events + [] == e.events;
    }
  }

  /** Phase two over stored texts. */
  method RunPhaseTwo(mem: seq<Byte>, start: seq<nat>, link: seq<nat>, equiv: seq<nat>, outputDefsSeen: bool, ghost p: Program)
    returns (ok: bool, out: seq<Event>)
    requires Stored(p, mem, start) && link == p.link && equiv == p.equiv && |p.texts| > 0
    requires p.link[0] != 0 ==> p.InSection(p.link[0])
    ensures var head := if outputDefsSeen then [] else Macros(p);
            if p.link[0] == 0 then out == head && ok
            else
              var e := ExpandSection(p, p.link[0], STACK_SIZE - 1);
              ok == e.ok && out == head + (e.events + (if e.ok then [EndLine] else []))
  {
    hide Stored, Macros, ExpandSection;
    var machine := new Machine(mem, start, link, equiv, STACK_SIZE, p);
    machine.PhaseTwo(outputDefsSeen);
    ok, out := !machine.overflowed, machine.out;
  }

  /** The store of phase one is ready for phase two. */
  lemma StoreReady(store: Store)
    requires store.Valid()
    ensures AllWellFormed(store.defs) && |store.defs| <= MAX_TEXTS
    ensures ProgramOf(store.defs) == Program(Texts(store.defs), store.textLink, store.equiv)
    ensures Stored(ProgramOf(store.defs), store.tokMem, store.tokStart)
  {
    StoreIsProgram(store.defs, store.textLink, store.equiv);
    ProgramStored(store.defs, store.tokMem, store.tokStart);
  }

  /** CTANGLE: phase one, and phase two up to the end of the main output file.  It fails exactly when the
      texts do not fit, or when the section names nest too deep. */
  method Tangle(web: seq<Section>) returns (ok: bool, out: seq<Event>)
    requires WebScannable(web)
    ensures AllWellFormed(Defined(web))
    ensures ok <==> Fits(Defined(web)) && Expansion(Defined(web), Unnamed, STACK_SIZE - 1).ok
    ensures out == if Fits(Defined(web)) then Output(Defined(web), OutputDefsSeen(web)) else []
  {
    DefinedWellFormed(web);
    out := [];
    var store := new Store();
    ok := store.PhaseOne(web);
    if ok {
      ghost var d := store.defs;
      StoreReady(store);
      UnnamedExpands(d, STACK_SIZE - 1);
      ok, out := RunPhaseTwo(store.tokMem, store.tokStart, store.textLink, store.equiv, OutputDefsSeen(web), ProgramOf(d));
    }
  }
}
