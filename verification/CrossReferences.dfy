/** Cross references from the first section to the index: phase one, phase two, and the lines of the index. */
module CrossReferences {
  import opened Wrappers
  import opened LinkedLists
  import opened Collation
  import opened XrefLists
  import opened XrefRuns
  import opened XrefMemory
  import IndexNames
  import IndexPlaces
  import IndexSort

  /** The memory holds the lists that phase one has collected so far. */
  ghost predicate Collects(x: Xrefs, acts: seq<Act>)
    reads x
  {
    && x.Valid() && x.sectionCount == Sections(acts) && |x.num| == Used(acts)
    && ListsAre(x.M(), x.nodes, x.owner, (p: nat) => Collected(acts, p))
  }

  /** One act, other than the beginning of a section. */
  method Perform(x: Xrefs, a: Act) returns (ok: bool)
    requires x.Valid() && !a.NewSection? && a.p < |x.nodes| && x.sectionCount > 0
    modifies x`num, x`xlink, x`head, x`nodes, x`owner, x`xrefSwitch, x`sectionXrefSwitch
    ensures x.Valid() && x.OnlyChanges(a.p)
    ensures var l := old(x.List(a.p));
            var r := Affected(l, a, a.p, x.sectionCount);
            && (ok <==> More(l, r) == 0 || |old(x.num)| < x.maxRefs)
            && x.List(a.p) == (if ok then r else l)
            && |x.num| == |old(x.num)| + (if ok then More(l, r) else 0) && More(l, r) <= 1
  {
    hide XrefLists.NewXref, XrefLists.NewSectionXref, XrefLists.SetFileFlag, Definitions;
    AffectedLength(x.List(a.p), a, a.p, x.sectionCount);
    match a {
      case Meets(p, flag, ignored) =>
        x.xrefSwitch := flag;
        ok := x.NewXref(p, ignored);
      case Formats(p) =>
        x.DropUses(p);
        ok := true;
      case Refers(p, flag) =>
        x.sectionXrefSwitch := flag;
        ok := x.NewSectionXref(p);
      case ToFile(p) => ok := x.SetFileFlag(p);
    }
  }

  lemma CollectedNext(acts: seq<Act>, i: nat, p: nat)
    requires i < |acts|
    ensures Collected(acts[..i + 1], p) == Affected(Collected(acts[..i], p), acts[i], p, Sections(acts[..i]))
    ensures Sections(acts[..i + 1]) == Sections(acts[..i]) + if acts[i].NewSection? then 1 else 0
    ensures Used(acts[..i + 1]) ==
            Used(acts[..i]) + if acts[i].NewSection? then 0 else More(Collected(acts[..i], acts[i].p), Collected(acts[..i + 1], acts[i].p))
  {
    assert acts[..i + 1][..i] == acts[..i];
  }

  /** The next act, if there is room. */
  method NextAct(x: Xrefs, ghost acts: seq<Act>, a: Act, ghost i: nat) returns (ok: bool)
    requires i < |acts| && acts[i] == a && Collects(x, acts[..i]) && Proper(acts, x.ids, |x.nodes|)
    requires |x.num| <= x.maxRefs && Sections(acts[..i]) < MAX_SECTIONS
    modifies x
    ensures ok <==> Used(acts[..i + 1]) <= x.maxRefs && Sections(acts[..i + 1]) < MAX_SECTIONS
    ensures ok ==> Collects(x, acts[..i + 1]) && |x.nodes| == |old(x.nodes)| && |x.num| <= x.maxRefs
  {
    hide Affected, Collected, Sections, Used, Holds, Refs, OthersKept, ListsAre, Proper;
    ghost var f, g := (p: nat) => Collected(acts[..i], p), (p: nat) => Collected(acts[..i + 1], p);
    ghost var m0, nodes0, owner0 := x.M(), x.nodes, x.owner;
    forall p: nat ensures g(p) == Affected(f(p), a, p, Sections(acts[..i])) { CollectedNext(acts, i, p); }
    forall p: nat | a.NewSection? || a.p != p ensures g(p) == f(p) { NotAffected(f(p), a, p, Sections(acts[..i])); }
    CollectedNext(acts, i, 0);
    if a.NewSection? {
      SameLists(x.M(), x.nodes, x.owner, f, g);
      x.NextSection();
      ok := x.sectionCount < MAX_SECTIONS;
    } else {
      InSomeSection(acts, x.ids, |x.nodes|, i);
      ListIs(x.M(), x.nodes, x.owner, f, a.p);
      ok := Perform(x, a);
      if ok { ListsNext(m0, nodes0, owner0, x.M(), x.nodes, x.owner, a.p, f, g); }
    }
  }

  lemma InSomeSection(acts: seq<Act>, ids: set<nat>, names: nat, i: nat)
    requires Proper(acts, ids, names) && i < |acts| && !acts[i].NewSection?
    ensures Sections(acts[..i]) > 0 && acts[i].p < names
  {
    assert acts[..i][0] == acts[0];
    SomeSection(acts[..i], ids, names);
  }

  lemma SameLists(m: Memory, nodes: seq<seq<nat>>, owner: seq<nat>, f: nat -> seq<nat>, g: nat -> seq<nat>)
    requires Holds(m, nodes, owner) && ListsAre(m, nodes, owner, f) && forall p: nat :: g(p) == f(p)
    ensures ListsAre(m, nodes, owner, g)
  {
    hide Holds, Refs;
  }

  lemma ListIs(m: Memory, nodes: seq<seq<nat>>, owner: seq<nat>, f: nat -> seq<nat>, p: nat)
    requires Holds(m, nodes, owner) && ListsAre(m, nodes, owner, f) && p < |nodes|
    ensures Refs(m, nodes, owner, p) == f(p)
  {
    hide Holds, Refs;
  }

  /** Phase one.  It fails exactly when there are too many sections or too many references. */
  method PhaseOne(x: Xrefs, acts: seq<Act>) returns (ok: bool)
    requires Collects(x, []) && Proper(acts, x.ids, |x.nodes|) && |x.num| <= x.maxRefs
    modifies x
    ensures ok <==> Used(acts) <= x.maxRefs && Sections(acts) < MAX_SECTIONS
    ensures ok ==> Collects(x, acts) && |x.nodes| == |old(x.nodes)| && |x.num| <= x.maxRefs
    ensures ok ==> x.UpToDate()
  {
    hide Used, Sections, Collected, Proper;
    var i := 0;
    assert acts[..0] == [];
    NoSections();
    while i < |acts|
      invariant i <= |acts| && Collects(x, acts[..i]) && |x.nodes| == |old(x.nodes)|
      invariant |x.num| <= x.maxRefs && Sections(acts[..i]) < MAX_SECTIONS
    {
      BeforeActs(acts, i + 1);
      ok := NextAct(x, acts, acts[i], i);
      if !ok { return; }
      i := i + 1;
    }
    assert acts[..i] == acts;
    ok := true;
    AllCollected(x, acts);
  }

  lemma NoSections()
    ensures Sections([]) == 0 && Used([]) == 1
  {
  }

  /** Then the lists of all identifiers and of all section names are in order. */
  lemma AllCollected(x: Xrefs, acts: seq<Act>)
    requires Collects(x, acts) && Proper(acts, x.ids, |x.nodes|) && Sections(acts) < MAX_SECTIONS
    ensures x.UpToDate()
  {
    hide Holds, Refs, UpToDate, Collected;
    forall p: nat | p < |x.nodes| ensures UpToDate(x.List(p), p in x.ids, x.sectionCount) {
      ListIs(x.M(), x.nodes, x.owner, (q: nat) => Collected(acts, q), p);
      CollectedInOrder(acts, x.ids, |x.nodes|, p);
    }
  }

  // ----- Phase two -------------------------------------------------------------------------------

  /** The memory holds the lists that phase one has collected, as far as they have been underlined. */
  ghost predicate Underlines(x: Xrefs, acts: seq<Act>, looks: seq<Look>)
    reads x
  {
    && x.Valid() && x.sectionCount == Passed(looks) && |x.num| == UsedByBoth(acts, looks)
    && ListsAre(x.M(), x.nodes, x.owner, (p: nat) => Final(acts, looks, p))
  }

  lemma FinalAt(acts: seq<Act>, looks: seq<Look>, i: nat, p: nat)
    requires i < |looks|
    ensures Final(acts, looks[..i + 1], p) ==
            if looks[i] == Declares(p) then Underline(Final(acts, looks[..i], p), Passed(looks[..i]) + DEF_FLAG)
            else Final(acts, looks[..i], p)
    ensures Passed(looks[..i + 1]) == Passed(looks[..i]) + if looks[i].NextSection? then 1 else 0
    ensures UsedByBoth(acts, looks[..i + 1]) ==
            UsedByBoth(acts, looks[..i]) +
            if looks[i].NextSection? then 0 else More(Final(acts, looks[..i], looks[i].p), Final(acts, looks[..i + 1], looks[i].p))
  {
    assert looks[..i + 1][..i] == looks[..i];
    FinalNext(acts, looks[..i + 1], p);
  }

  lemma UnderlineLength(l: seq<nat>, m: nat)
    ensures |l| <= |Underline(l, m)| <= |l| + 1
  {
  }

  /** The next declaration or section, if there is room. */
  method NextLook(x: Xrefs, ghost acts: seq<Act>, ghost looks: seq<Look>, k: Look, ghost i: nat) returns (ok: bool)
    requires i < |looks| && looks[i] == k && Underlines(x, acts, looks[..i]) && ProperLooks(looks, x.ids, |x.nodes|)
    requires |x.num| <= x.maxRefs
    modifies x
    ensures ok <==> UsedByBoth(acts, looks[..i + 1]) <= x.maxRefs
    ensures ok ==> Underlines(x, acts, looks[..i + 1]) && |x.nodes| == |old(x.nodes)| && |x.num| <= x.maxRefs
  {
    hide Final, Passed, UsedByBoth, Underline, Holds, Refs, OthersKept, ListsAre;
    ghost var f, g := (p: nat) => Final(acts, looks[..i], p), (p: nat) => Final(acts, looks[..i + 1], p);
    ghost var m0, nodes0, owner0 := x.M(), x.nodes, x.owner;
    forall p: nat ensures g(p) == if k == Declares(p) then Underline(f(p), Passed(looks[..i]) + DEF_FLAG) else f(p) {
      FinalAt(acts, looks, i, p);
    }
    FinalAt(acts, looks, i, 0);
    ok := true;
    match k {
      case NextSection =>
        SameLists(x.M(), x.nodes, x.owner, f, g);
        x.NextSection();
      case Declares(p) =>
        ListIs(x.M(), x.nodes, x.owner, f, p);
        x.xrefSwitch := DEF_FLAG;
        UnderlineLength(x.List(p), x.sectionCount + DEF_FLAG);
        ok := x.UnderlineXref(p);
        if ok { ListsNext(m0, nodes0, owner0, x.M(), x.nodes, x.owner, p, f, g); }
    }
  }

  /** Phase two, in which sections are counted again.  It fails exactly when there are too many references. */
  method PhaseTwo(x: Xrefs, ghost acts: seq<Act>, looks: seq<Look>) returns (ok: bool)
    requires Collects(x, acts) && ProperLooks(looks, x.ids, |x.nodes|) && |x.num| <= x.maxRefs
    modifies x
    ensures ok <==> UsedByBoth(acts, looks) <= x.maxRefs
    ensures ok ==> Underlines(x, acts, looks) && |x.nodes| == |old(x.nodes)|
  {
    hide Used, Collected, ProperLooks;
    x.StartPhaseTwo();
    NothingPassed(acts);
    hide Final, Passed, UsedByBoth;
    var i := 0;
    assert looks[..0] == [];
    while i < |looks|
      invariant i <= |looks| && Underlines(x, acts, looks[..i]) && |x.nodes| == |old(x.nodes)| && |x.num| <= x.maxRefs
    {
      UsedUpTo(acts, looks, i + 1);
      ok := NextLook(x, acts, looks, looks[i], i);
      if !ok { return; }
      i := i + 1;
    }
    assert looks[..i] == looks;
    ok := true;
  }

  lemma NothingPassed(acts: seq<Act>)
    ensures Passed([]) == 0 && UsedByBoth(acts, []) == Used(acts)
    ensures forall p: nat :: Final(acts, [], p) == Collected(acts, p)
  {
  }

  // ----- The index -------------------------------------------------------------------------------

  /** Which names have cross references. */
  function Bits(acts: seq<Act>, looks: seq<Look>, names: nat): (xref: seq<bool>)
    ensures |xref| == names && forall p: nat | p < names :: xref[p] == (Final(acts, looks, p) != [])
  {
    seq(names, p requires 0 <= p < names => Final(acts, looks, p) != [])
  }

  /** What the index finds in memory: the first entry of a list is 0 exactly if it is empty. */
  lemma HeadsAre(x: Xrefs, acts: seq<Act>, looks: seq<Look>, p: nat)
    requires Underlines(x, acts, looks) && p < |x.nodes|
    ensures p < |x.head| == |x.nodes| && (x.head[p] != 0 <==> Final(acts, looks, p) != []) && x.List(p) == Final(acts, looks, p)
  {
    hide Final;
    FirstEntry(x.M(), x.nodes, x.owner, p);
    ListIs(x.M(), x.nodes, x.owner, (q: nat) => Final(acts, looks, q), p);
  }

  method References(x: Xrefs, ghost acts: seq<Act>, ghost looks: seq<Look>) returns (xref: seq<bool>)
    requires Underlines(x, acts, looks)
    ensures xref == Bits(acts, looks, |x.nodes|)
  {
    hide Underlines, Final;
    var head := x.head;
    forall p: nat | p < |x.nodes| ensures p < |head| == |x.nodes| && (head[p] != 0 <==> Final(acts, looks, p) != []) {
      HeadsAre(x, acts, looks, p);
    }
    SameLength(x, acts, looks);
    xref := seq(|head|, p requires 0 <= p < |head| => head[p] != 0);
  }

  lemma SameLength(x: Xrefs, acts: seq<Act>, looks: seq<Look>)
    requires Underlines(x, acts, looks)
    ensures |x.head| == |x.nodes|
  {
    hide Final;
  }

  /** The index line of an identifier tells its sections; it is increasing exactly if phase two has underlined it only
      where that is safe. */
  lemma LineOf(acts: seq<Act>, looks: seq<Look>, ids: set<nat>, names: nat, p: nat)
    requires Proper(acts, ids, names) && Sections(acts) < MAX_SECTIONS && ProperLooks(looks, ids, names) && p in ids
    ensures IdList(Collected(acts, p)) && IdList(Final(acts, looks, p))
    ensures Decreasing(Final(acts, looks, p)) <==> SafeRun(Collected(acts, p), DeclaredIn(looks, p))
  {
    CollectedInOrder(acts, ids, names, p);
    DeclaredInSequence(looks, ids, names, p);
    UnderlinedKeepsIff(Collected(acts, p), DeclaredIn(looks, p));
  }

  /** The names of the index and their lines, for a memory in which both phases have been. */
  method Pages(x: Xrefs, names: seq<seq<Byte>>, hash: seq<nat>, link: seq<nat>, maxEntries: nat,
               ghost lists: seq<seq<nat>>, ghost acts: seq<Act>, ghost looks: seq<Look>)
    returns (ok: bool, order: seq<nat>, lines: seq<seq<nat>>)
    requires |hash| == |lists| && (forall h | 0 <= h < |hash| :: Chain(link, hash[h], lists[h]))
    requires Distinct(IndexNames.Flat(lists))
    requires forall p | p in IndexNames.Flat(lists) :: p < |names| && p in x.ids
    requires forall p | p in IndexNames.Flat(lists) && Final(acts, looks, p) != [] :: Sortable(names[p])
    requires Underlines(x, acts, looks) && |x.nodes| == |names|
    requires Proper(acts, x.ids, |names|) && Sections(acts) < MAX_SECTIONS && ProperLooks(looks, x.ids, |names|)
    modifies x
    ensures !ok ==> |IndexNames.Kept(IndexNames.Flat(lists), Bits(acts, looks, |names|))| >= maxEntries
    ensures ok ==> IndexPlaces.AllSortable(names, order) && IndexPlaces.Sorted(names, order) && Distinct(order)
    ensures ok ==> forall p: nat :: p in order <==> p in IndexNames.Flat(lists) && Final(acts, looks, p) != []
    ensures ok ==> |lines| == |order| && forall i | 0 <= i < |order| :: PrintsLine(acts, looks, order[i], lines[i])
  {
    hide Final, Collected, Proper, ProperLooks, Sections, Chain, Distinct, IndexNames.Flat, IndexNames.Kept;
    var xref := References(x, acts, looks);
    ok, order := IndexSort.SortNames(names, maxEntries, hash, link, xref, lists);
    lines := [];
    if !ok { return; }
    forall p: nat | p < |x.nodes| ensures x.List(p) == Final(acts, looks, p) { HeadsAre(x, acts, looks, p); }
    forall i | 0 <= i < |order|
      ensures order[i] < |x.nodes| && x.List(order[i]) != [] && x.List(order[i]) == Final(acts, looks, order[i])
      ensures order[i] in x.ids
    {
      assert order[i] in order;
    }
    lines := x.IndexLines(order);
    forall i | 0 <= i < |order| ensures PrintsLine(acts, looks, order[i], lines[i]) {
      LineOf(acts, looks, x.ids, |names|, order[i]);
    }
  }

  /** `line` is the index line of identifier `p`: its list from the end, in increasing order exactly if it was
      underlined only where that is safe. */
  ghost predicate PrintsLine(acts: seq<Act>, looks: seq<Look>, p: nat, line: seq<nat>) {
    && line == Reversed(Final(acts, looks, p)) && IdList(line) && IdList(Collected(acts, p))
    && (Increasing(line) <==> SafeRun(Collected(acts, p), DeclaredIn(looks, p)))
  }

  /** The index of a web, from the first section on. */
  method Index(names: seq<seq<Byte>>, hash: seq<nat>, link: seq<nat>, maxRefs: nat, maxEntries: nat,
               acts: seq<Act>, looks: seq<Look>, ghost lists: seq<seq<nat>>, ghost ids: set<nat>)
    returns (ok: bool, order: seq<nat>, lines: seq<seq<nat>>)
    requires |hash| == |lists| && (forall h | 0 <= h < |hash| :: Chain(link, hash[h], lists[h]))
    requires Distinct(IndexNames.Flat(lists))
    requires forall p | p in IndexNames.Flat(lists) :: p < |names| && p in ids
    requires forall p | p in IndexNames.Flat(lists) && Final(acts, looks, p) != [] :: Sortable(names[p])
    requires Proper(acts, ids, |names|) && ProperLooks(looks, ids, |names|) && maxRefs > 0
    ensures Sections(acts) >= MAX_SECTIONS || UsedByBoth(acts, looks) > maxRefs ==> !ok
    ensures !ok ==>
              || Sections(acts) >= MAX_SECTIONS || UsedByBoth(acts, looks) > maxRefs
              || |IndexNames.Kept(IndexNames.Flat(lists), Bits(acts, looks, |names|))| >= maxEntries
    ensures ok ==> IndexPlaces.AllSortable(names, order) && IndexPlaces.Sorted(names, order) && Distinct(order)
    ensures ok ==> forall p: nat :: p in order <==> p in IndexNames.Flat(lists) && Final(acts, looks, p) != []
    ensures ok ==> |lines| == |order| && forall i | 0 <= i < |order| :: PrintsLine(acts, looks, order[i], lines[i])
  {
    hide Final, Collected, Proper, ProperLooks, Used, UsedByBoth, Sections, Chain, Distinct, PrintsLine;
    hide IndexNames.Flat, IndexNames.Kept, IndexPlaces.AllSortable, IndexPlaces.Sorted, Collects, Underlines;
    order, lines := [], [];
    var x := new Xrefs(|names|, maxRefs, ids);
    NothingYet(x);
    BothUse(acts, looks);
    ok := PhaseOne(x, acts);
    if !ok { return; }
    ok := PhaseTwo(x, acts, looks);
    if !ok { return; }
    ok, order, lines := Pages(x, names, hash, link, maxEntries, lists, acts, looks);
  }

  lemma NothingYet(x: Xrefs)
    requires x.Valid() && x.num == [0] && x.sectionCount == 0
    requires forall p: nat | p < |x.nodes| :: x.List(p) == []
    ensures Collects(x, [])
  {
  }

  lemma BothUse(acts: seq<Act>, looks: seq<Look>)
    ensures UsedByBoth(acts, looks) >= Used(acts)
  {
    UsedUpTo(acts, looks, 0);
    assert looks[..0] == [];
  }
}
