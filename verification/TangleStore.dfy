/** CTANGLE's phase one: the sections of a web become packed replacement texts, linked by section name. */
module TangleStore {
  import opened Wrappers
  import opened TangleTokens
  import opened TangleExpand
  import opened TangleMachine
  import opened TangleNesting
  import opened TangleLinks

  /** One less than `max_toks`: `tok_mem_end` is the last byte and is never filled. */
  const TOKEN_LIMIT: nat := 269999
  /** `max_texts`, which is also `section_flag` */
  const MAX_TEXTS: nat := SECTION_FLAG
  const MAX_NAMES: nat := 4000

  // ----- What the scanner delivers ---------------------------------------------------------------

  /** `Break` is one of the control codes for definitions, formats and C text. */
  datatype Source =
    | Word(name: nat) | Name(name: nat) | DefsPlace | Single(c: Byte) | Literal(delim: Byte, body: seq<Byte>)
    | Break | NewSection

  /** What was scanned, on which line of which file. */
  datatype Item = Item(source: Source, line: nat, file: nat)

  datatype MacroDef = MacroDef(name: nat, hasParameters: bool, items: seq<Item>)

  /** The C part of a section; name 0 (`name_dir`) is that of the unnamed sections. */
  datatype Part = Part(name: nat, line: nat, file: nat, items: seq<Item>)

  datatype Section = Section(macros: seq<MacroDef>, part: Option<Part>)

  /** Indices of names are below `max_names`, and macros do not place the macro definitions. */
  predicate Scannable(inMacro: bool, i: Item) {
    && i.file < MAX_NAMES
    && match i.source
       case Word(n) => n < MAX_NAMES
       case Name(n) => n < MAX_NAMES
       case DefsPlace => !inMacro
       case Single(c) => Encodable(Ch(c))
       case Literal(d, body) => Encodable(Quote(d, body))
       case _ => true
  }

  predicate AllScannable(inMacro: bool, items: seq<Item>) {
    forall i | 0 <= i < |items| :: Scannable(inMacro, items[i])
  }

  /** The "#line" record; line numbers are cut off to sixteen bits. */
  function LineOf(i: Item): Tok {
    Line(i.line % 65536, i.file)
  }

  predicate Stops(inMacro: bool, s: Source) {
    s.NewSection? || (inMacro && (s.Break? || s.Name?))
  }

  function Tokens(inMacro: bool, i: Item): (ts: seq<Tok>)
    requires Scannable(inMacro, i) && !Stops(inMacro, i.source)
    ensures AllEncodable(ts) && Unnumbered(ts)
    ensures inMacro ==> forall j | 0 <= j < |ts| :: MacroTok(ts[j])
  {
    match i.source
    case Word(n) => [Id(n)]
    case Name(n) => [SecRef(n), LineOf(i)]
    case DefsPlace => [Defs, LineOf(i)]
    case Single(c) => if inMacro && c == 41 then [Ch(c), Ch(32)] else [Ch(c)]
    case Literal(d, body) => [Quote(d, body)]
    case _ => []
  }

  /** What `scan_repl` stores, up to the item that ends the text. */
  function Scanned(inMacro: bool, items: seq<Item>): (ts: seq<Tok>)
    requires AllScannable(inMacro, items)
    ensures AllEncodable(ts) && Unnumbered(ts)
    ensures inMacro ==> forall j | 0 <= j < |ts| :: MacroTok(ts[j])
  {
    if items == [] || Stops(inMacro, items[0].source) then []
    else Tokens(inMacro, items[0]) + Scanned(inMacro, items[1..])
  }

  // ----- What a web defines ----------------------------------------------------------------------

  datatype Def = Def(kind: Kind, text: seq<Tok>)

  predicate MacroScannable(m: MacroDef) {
    m.name < MAX_NAMES && AllScannable(true, m.items)
  }

  predicate PartScannable(p: Part) {
    p.name < MAX_NAMES && p.file < MAX_NAMES && AllScannable(false, p.items)
  }

  predicate SectionScannable(s: Section) {
    && (forall i | 0 <= i < |s.macros| :: MacroScannable(s.macros[i]))
    && (s.part.Some? ==> PartScannable(s.part.value))
  }

  function MacroHead(m: MacroDef): (ts: seq<Tok>)
    requires m.name < MAX_NAMES
    ensures AllEncodable(ts)
  {
    [Id(m.name)] + if m.hasParameters then [] else [Quote(STRING, [32])]
  }

  function MacroDefined(m: MacroDef): Def
    requires MacroScannable(m)
  {
    Def(Macro, MacroHead(m) + Scanned(true, m.items))
  }

  function PartHead(p: Part, section: nat): (ts: seq<Tok>)
    requires p.file < MAX_NAMES && 0 < section < 12288
    ensures AllEncodable(ts)
  {
    [SecNum(section), Line(p.line % 65536, p.file)]
  }

  function PartKind(name: nat): Kind {
    if name == 0 then Unnamed else Named(name)
  }

  function PartDefined(p: Part, section: nat): Def
    requires PartScannable(p) && 0 < section < 12288
  {
    Def(PartKind(p.name), PartHead(p, section) + Scanned(false, p.items))
  }

  function MacrosDefined(ms: seq<MacroDef>): seq<Def>
    requires forall i | 0 <= i < |ms| :: MacroScannable(ms[i])
  {
    if ms == [] then [] else MacrosDefined(ms[..|ms| - 1]) + [MacroDefined(ms[|ms| - 1])]
  }

  function SectionDefined(s: Section, section: nat): seq<Def>
    requires SectionScannable(s) && 0 < section < 12288
  {
    MacrosDefined(s.macros) + if s.part.Some? then [PartDefined(s.part.value, section)] else []
  }

  predicate WebScannable(web: seq<Section>) {
    |web| < 12288 && forall i | 0 <= i < |web| :: SectionScannable(web[i])
  }

  /** All texts of a web in the order of their definition, after the dummy. */
  function Defined(web: seq<Section>): (d: seq<Def>)
    requires WebScannable(web)
    ensures d != []
  {
    if web == [] then [Def(Dummy, [])]
    else Defined(web[..|web| - 1]) + SectionDefined(web[|web| - 1], |web|)
  }

  function Kinds(d: seq<Def>): (k: seq<Kind>)
    ensures |k| == |d|
  {
    seq(|d|, i requires 0 <= i < |d| => d[i].kind)
  }

  function Texts(d: seq<Def>): (t: seq<seq<Tok>>)
    ensures |t| == |d|
  {
    seq(|d|, i requires 0 <= i < |d| => d[i].text)
  }

  lemma KindsAppend(d: seq<Def>, x: Def)
    ensures Kinds(d + [x]) == Kinds(d) + [x.kind]
  {
  }

  /** A text as phase one writes it. */
  ghost predicate WellFormed(d: Def) {
    && AllEncodable(d.text)
    && match d.kind
       case Dummy => d.text == []
       case Macro => forall i | 0 <= i < |d.text| :: MacroTok(d.text[i])
       case _ =>
         d.kind != Named(0) && d.text != [] && d.text[0].SecNum? && d.text[0].n > 0 && Unnumbered(d.text[1..])
  }

  lemma MacroWellFormed(m: MacroDef)
    requires MacroScannable(m)
    ensures WellFormed(MacroDefined(m))
  {
  }

  lemma PartWellFormed(p: Part, section: nat)
    requires PartScannable(p) && 0 < section < 12288
    ensures WellFormed(PartDefined(p, section))
  {
    var ts := Scanned(false, p.items);
    assert (PartHead(p, section) + ts)[1..] == [Line(p.line % 65536, p.file)] + ts;
  }

  ghost predicate AllWellFormed(d: seq<Def>) {
    d != [] && d[0].kind == Dummy
    && forall t | 0 <= t < |d| :: WellFormed(d[t]) && (t > 0 ==> d[t].kind != Dummy)
  }

  lemma {:induction false} MacrosWellFormed(ms: seq<MacroDef>)
    requires forall i | 0 <= i < |ms| :: MacroScannable(ms[i])
    ensures forall t | 0 <= t < |MacrosDefined(ms)| :: WellFormed(MacrosDefined(ms)[t]) && MacrosDefined(ms)[t].kind == Macro
  {
    if ms != [] {
      MacrosWellFormed(ms[..|ms| - 1]);
      MacroWellFormed(ms[|ms| - 1]);
    }
  }

  lemma {:induction false} DefinedWellFormed(web: seq<Section>)
    requires WebScannable(web)
    ensures AllWellFormed(Defined(web))
  {
    if web != [] {
      var s := web[|web| - 1];
      DefinedWellFormed(web[..|web| - 1]);
      MacrosWellFormed(s.macros);
      if s.part.Some? { PartWellFormed(s.part.value, |web|); }
    }
  }

  // ----- The place of the macro definitions ------------------------------------------------------

  /** Is `@h` among the items of a C part, up to the one that ends it? */
  predicate PlacesDefs(items: seq<Item>) {
    items != [] && !Stops(false, items[0].source) && (items[0].source.DefsPlace? || PlacesDefs(items[1..]))
  }

  /** `output_defs_seen` after phase one */
  predicate OutputDefsSeen(web: seq<Section>) {
    exists i :: 0 <= i < |web| && web[i].part.Some? && PlacesDefs(web[i].part.value.items)
  }

  ghost predicate HasDefs(d: seq<Def>) {
    exists t :: 0 <= t < |d| && Defs in d[t].text
  }

  lemma {:induction false} ScannedHasDefs(items: seq<Item>)
    requires AllScannable(false, items)
    ensures Defs in Scanned(false, items) <==> PlacesDefs(items)
  {
    if items != [] && !Stops(false, items[0].source) { ScannedHasDefs(items[1..]); }
  }

  lemma SectionHasDefs(s: Section, section: nat)
    requires SectionScannable(s) && 0 < section < 12288
    ensures HasDefs(SectionDefined(s, section)) <==> s.part.Some? && PlacesDefs(s.part.value.items)
  {
    var ms, d := MacrosDefined(s.macros), SectionDefined(s, section);
    MacrosWellFormed(s.macros);
    forall t | 0 <= t < |ms| ensures Defs !in d[t].text { assert d[t] == ms[t]; }
    if s.part.Some? {
      ScannedHasDefs(s.part.value.items);
      assert d[|ms|] == PartDefined(s.part.value, section);
    }
  }

  lemma HasDefsAppend(a: seq<Def>, b: seq<Def>)
    ensures HasDefs(a + b) <==> HasDefs(a) || HasDefs(b)
  {
    if t :| 0 <= t < |a| && Defs in a[t].text { assert (a + b)[t] == a[t]; }
    if t :| 0 <= t < |b| && Defs in b[t].text { assert (a + b)[|a| + t] == b[t]; }
  }

  lemma SeenNext(web: seq<Section>)
    requires web != []
    ensures var n := |web| - 1;
            OutputDefsSeen(web) <==>
              OutputDefsSeen(web[..n]) || (web[n].part.Some? && PlacesDefs(web[n].part.value.items))
  {
    var n := |web| - 1;
    if i :| 0 <= i < n && web[i].part.Some? && PlacesDefs(web[i].part.value.items) { assert web[..n][i] == web[i]; }
  }

  /** The macro definitions are placed by the web exactly if some text says where. */
  lemma {:induction false} DefsSeenIff(web: seq<Section>)
    requires WebScannable(web)
    ensures HasDefs(Defined(web)) <==> OutputDefsSeen(web)
  {
    if web != [] {
      var n := |web| - 1;
      assert WebScannable(web[..n]) && SectionScannable(web[n]);
      assert Defined(web) == Defined(web[..n]) + SectionDefined(web[n], |web|);
      hide HasDefs, SectionDefined, PlacesDefs, SectionScannable, OutputDefsSeen, Defined;
      DefsSeenIff(web[..n]);
      SectionHasDefs(web[n], |web|);
      HasDefsAppend(Defined(web[..n]), SectionDefined(web[n], |web|));
      SeenNext(web);
    }
  }

  // ----- Space -----------------------------------------------------------------------------------

  /** The bytes of a text. */
  function Size(ts: seq<Tok>): nat {
    if AllEncodable(ts) then |EncodeAll(ts)| else 0
  }

  /** The bytes that texts occupy. */
  function Bytes(d: seq<Def>): nat {
    if d == [] then 0 else Bytes(d[..|d| - 1]) + Size(d[|d| - 1].text)
  }

  /** Enough room for the bytes and the texts. */
  predicate Fits(d: seq<Def>) {
    Bytes(d) <= TOKEN_LIMIT && |d| <= MAX_TEXTS
  }

  lemma {:induction false} FitsPrefix(a: seq<Def>, b: seq<Def>)
    requires Fits(a + b)
    ensures Fits(a)
  {
    if b == [] {
      assert a + b == a;
    } else {
      assert (a + b)[..|a + b| - 1] == a + b[..|b| - 1];
      FitsPrefix(a, b[..|b| - 1]);
    }
  }
}
