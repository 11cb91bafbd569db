/** The cross references of a whole run of CWEAVE: phase one records where names occur, phase two begins again with
    the first section and underlines declarations. */
module XrefRuns {
  import opened Wrappers
  import opened XrefLists

  /** `max_sections` */
  const MAX_SECTIONS: nat := 2000

  // ----- Phase one -------------------------------------------------------------------------------

  /** What happens to cross references in phase one: a section begins, an identifier is met with the flag that
      `xref_switch` has then, it is formatted like a reserved word, a section name is referred to with the flag that
      `section_xref_switch` has then, or it names an output file. */
  datatype Act =
    | NewSection
    | Meets(p: nat, flag: nat, ignored: bool)
    | Formats(p: nat)
    | Refers(p: nat, flag: nat)
    | ToFile(p: nat)

  function Sections(acts: seq<Act>): nat {
    if acts == [] then 0 else Sections(acts[..|acts| - 1]) + if acts[|acts| - 1].NewSection? then 1 else 0
  }

  /** What an act in section `s` makes of the list of name `p`. */
  function Affected(l: seq<nat>, a: Act, p: nat, s: nat): seq<nat> {
    if a.NewSection? || a.p != p then l
    else match a
      case Meets(_, flag, ignored) => if ignored && flag == 0 then l else NewXref(l, s + flag)
      case Formats(_) => Definitions(l)
      case Refers(_, flag) => NewSectionXref(l, s, flag)
      case ToFile(_) => SetFileFlag(l)
  }

  /** The list of name `p` after phase one. */
  function Collected(acts: seq<Act>, p: nat): seq<nat> {
    if acts == [] then []
    else
      var before := acts[..|acts| - 1];
      Affected(Collected(before, p), acts[|acts| - 1], p, Sections(before))
  }

  predicate ForIdentifier(a: Act) {
    a.Meets? || a.Formats?
  }

  /** An act on an identifier or a section name, whichever `p` is. */
  predicate ProperAct(a: Act, ids: set<nat>, names: nat) {
    && (!a.NewSection? ==> a.p < names && (ForIdentifier(a) <==> a.p in ids))
    && (a.Meets? ==> a.flag == 0 || a.flag == DEF_FLAG)
    && (a.Refers? ==> GroupFlag(a.flag))
  }

  /** Nothing happens before the first section. */
  predicate Proper(acts: seq<Act>, ids: set<nat>, names: nat) {
    && (acts != [] ==> acts[0].NewSection?)
    && forall i | 0 <= i < |acts| :: ProperAct(acts[i], ids, names)
  }

  lemma {:induction false} SomeSection(acts: seq<Act>, ids: set<nat>, names: nat)
    requires Proper(acts, ids, names) && acts != []
    ensures Sections(acts) > 0
  {
    var n := |acts| - 1;
    if n > 0 {
      assert acts[..n][0] == acts[0];
      SomeSection(acts[..n], ids, names);
    }
  }

  /** Every act keeps the list of its name in order. */
  lemma AffectedUpToDate(l: seq<nat>, a: Act, ids: set<nat>, names: nat, s: nat)
    requires ProperAct(a, ids, names) && !a.NewSection? && 0 < s < CITE_FLAG && UpToDate(l, a.p in ids, s)
    ensures UpToDate(Affected(l, a, a.p, s), a.p in ids, s)
  {
    hide Decreasing, UpTo, Grouped, SectionsUpTo, NewXref, NewSectionXref, SetFileFlag, Definitions;
    match a
    case Meets(_, flag, _) => NewXrefKeeps(l, s + flag);
    case Formats(_) =>
      DefinitionsKeep(l);
      DefinitionsUpTo(l, s);
    case Refers(_, flag) => NewSectionXrefKeeps(l, s, flag);
    case ToFile(_) =>
      SetFileFlagKeeps(l);
      FileUpTo(l, s);
  }

  /** After phase one the list of every identifier is strictly decreasing, and that of every section name grouped. */
  lemma {:induction false} CollectedInOrder(acts: seq<Act>, ids: set<nat>, names: nat, p: nat)
    requires Proper(acts, ids, names) && Sections(acts) < MAX_SECTIONS
    ensures UpToDate(Collected(acts, p), p in ids, Sections(acts))
  {
    if acts != [] {
      var n := |acts| - 1;
      var before, a := acts[..n], acts[n];
      CollectedInOrder(before, ids, names, p);
      hide UpToDate, Affected;
      var l, s := Collected(before, p), Sections(before);
      if a.NewSection? {
        NotAffected(l, a, p, s);
        LaterUpToDate(l, p in ids, s);
      } else if a.p != p {
        NotAffected(l, a, p, s);
      } else {
        assert n > 0;
        SomeSection(before, ids, names);
        AffectedUpToDate(l, a, ids, names, s);
      }
    }
  }

  lemma NotAffected(l: seq<nat>, a: Act, p: nat, s: nat)
    requires a.NewSection? || a.p != p
    ensures Affected(l, a, p, s) == l
  {
  }

  /** The numbers with which identifier `p` is recorded. */
  function NumbersOf(acts: seq<Act>, p: nat): seq<nat> {
    if acts == [] then []
    else
      var before, a := acts[..|acts| - 1], acts[|acts| - 1];
      NumbersOf(before, p) +
      if a.Meets? && a.p == p && !(a.ignored && a.flag == 0) then [Sections(before) + a.flag] else []
  }

  /** The references that are made to section name `p`. */
  function ReferencesTo(acts: seq<Act>, p: nat): seq<Reference> {
    if acts == [] then []
    else
      var before, a := acts[..|acts| - 1], acts[|acts| - 1];
      ReferencesTo(before, p) +
      if a.Refers? && a.p == p then [Reference.Refers(Sections(before), a.flag)]
      else if a.ToFile? && a.p == p then [OutputFile]
      else []
  }

  /** The list of an identifier that is not formatted has one entry for each section in which it was met. */
  lemma {:induction false} CollectedNumbers(acts: seq<Act>, ids: set<nat>, names: nat, p: nat)
    requires Proper(acts, ids, names) && p in ids
    requires forall i | 0 <= i < |acts| :: acts[i] != Formats(p)
    ensures Collected(acts, p) == Recorded(NumbersOf(acts, p))
  {
    if acts != [] {
      var n := |acts| - 1;
      CollectedNumbers(acts[..n], ids, names, p);
      var ms := NumbersOf(acts[..n], p);
      assert ProperAct(acts[n], ids, names) && acts[n] != Formats(p);
      RecordedNext(ms, Sections(acts[..n]) + if acts[n].Meets? then acts[n].flag else 0);
      assert ms + [] == ms;
      hide Recorded, NewXref, ProperAct;
    }
  }

  lemma RecordedNext(ms: seq<nat>, m: nat)
    ensures Recorded(ms + [m]) == NewXref(Recorded(ms), m)
  {
    assert (ms + [m])[..|ms|] == ms;
  }

  /** The list of a section name holds the references that were made to it. */
  lemma {:induction false} CollectedReferences(acts: seq<Act>, ids: set<nat>, names: nat, p: nat)
    requires Proper(acts, ids, names) && p !in ids
    ensures Collected(acts, p) == Referred(ReferencesTo(acts, p))
  {
    if acts != [] {
      var n := |acts| - 1;
      CollectedReferences(acts[..n], ids, names, p);
      var rs := ReferencesTo(acts[..n], p);
      assert ProperAct(acts[n], ids, names) && rs + [] == rs;
      if ReferencesTo(acts, p) != rs { assert ReferencesTo(acts, p)[..|rs|] == rs; }
    }
  }

  // ----- Phase two -------------------------------------------------------------------------------

  /** In phase two sections are counted from the beginning, and declarations of identifiers are underlined. */
  datatype Look = NextSection | Declares(p: nat)

  function Passed(looks: seq<Look>): nat {
    if looks == [] then 0 else Passed(looks[..|looks| - 1]) + if looks[|looks| - 1].NextSection? then 1 else 0
  }

  predicate ProperLooks(looks: seq<Look>, ids: set<nat>, names: nat) {
    && (looks != [] ==> looks[0].NextSection?)
    && (forall i | 0 <= i < |looks| && looks[i].Declares? :: looks[i].p < names && looks[i].p in ids)
    && Passed(looks) < MAX_SECTIONS
  }

  /** The numbers with which `underline_xref` is called for identifier `p`. */
  function DeclaredIn(looks: seq<Look>, p: nat): seq<nat> {
    if looks == [] then []
    else
      var before := looks[..|looks| - 1];
      DeclaredIn(before, p) + if looks[|looks| - 1] == Declares(p) then [Passed(before) + DEF_FLAG] else []
  }

  function UnderlinedAll(l: seq<nat>, ms: seq<nat>): seq<nat> {
    if ms == [] then l else Underline(UnderlinedAll(l, ms[..|ms| - 1]), ms[|ms| - 1])
  }

  /** Definitions in sections that do not go down. */
  predicate InSequence(ms: seq<nat>) {
    && (forall i | 0 <= i < |ms| :: IdNumber(ms[i]) && Defines(ms[i]))
    && forall i, j | 0 <= i < j < |ms| :: ms[i] <= ms[j]
  }

  lemma {:induction false} PassedUpTo(looks: seq<Look>, i: nat)
    requires i <= |looks|
    ensures Passed(looks[..i]) <= Passed(looks)
  {
    if i < |looks| {
      var n := |looks| - 1;
      assert looks[..n][..i] == looks[..i];
      PassedUpTo(looks[..n], i);
    } else {
      assert looks[..i] == looks;
    }
  }

  lemma {:induction false} SomePassed(looks: seq<Look>)
    requires looks != [] && looks[0].NextSection?
    ensures Passed(looks) > 0
  {
    var n := |looks| - 1;
    if n > 0 {
      assert looks[..n][0] == looks[0];
      SomePassed(looks[..n]);
    }
  }

  lemma {:induction false} DeclaredInSequence(looks: seq<Look>, ids: set<nat>, names: nat, p: nat)
    requires ProperLooks(looks, ids, names)
    ensures InSequence(DeclaredIn(looks, p))
    ensures forall i | 0 <= i < |DeclaredIn(looks, p)| :: DeclaredIn(looks, p)[i] <= Passed(looks) + DEF_FLAG
  {
    if looks != [] {
      var n := |looks| - 1;
      PassedUpTo(looks, n);
      assert n > 0 ==> looks[..n][0] == looks[0];
      DeclaredInSequence(looks[..n], ids, names, p);
      if looks[n] == Declares(p) { SomePassed(looks[..n]); }
    }
  }

  // ----- The order after phase two ---------------------------------------------------------------

  /** Each section that is underlined has an entry from phase one; or else every use in an earlier section is
      followed, before that section, by a definition from phase one or by one that is underlined. */
  ghost predicate SafeRun(l: seq<nat>, ms: seq<nat>)
    requires IdList(l)
  {
    forall m | m in ms :: Has(l, SectionAt(m)) || Covered(l + ms, SectionAt(m))
  }

  /** An entry that is there after underlining: one that was underlined, or one of another section. */
  predicate Remains(l: seq<nat>, ms: seq<nat>, n: nat) {
    n in ms || (n in l && SectionAt(n) + DEF_FLAG !in ms)
  }

  /** List `r` is what has remained of `l`. */
  ghost predicate Remaining(l: seq<nat>, ms: seq<nat>, r: seq<nat>) {
    forall n :: n in r <==> Remains(l, ms, n)
  }

  lemma LastOf(ms: seq<nat>)
    requires ms != []
    ensures ms == ms[..|ms| - 1] + [ms[|ms| - 1]]
  {
  }

  /** What a list holds after it has been underlined, as long as it is in order. */
  lemma {:induction false} UnderlinedMembers(l: seq<nat>, ms: seq<nat>)
    requires IdList(l) && Decreasing(l) && InSequence(ms)
    ensures IdList(UnderlinedAll(l, ms))
    ensures Decreasing(UnderlinedAll(l, ms)) ==> Remaining(l, ms, UnderlinedAll(l, ms))
  {
    if ms != [] {
      var before, m := ms[..|ms| - 1], ms[|ms| - 1];
      UnderlinedMembers(l, before);
      var r := UnderlinedAll(l, before);
      LastOf(ms);
      if Decreasing(r) {
        UnderlineKeepsIff(r, m);
        UnderlineMembers(r, m);
        SectionsOf(ms);
        hide Decreasing, Underline, InSequence, UnderlinedAll, Remains;
        forall n ensures n in Underline(r, m) <==> Remains(l, ms, n) {
          MemberNext(l, before, m, r, n);
        }
      } else {
        UnderlineStaysOut(r, m);
      }
    }
  }

  lemma MemberNext(l: seq<nat>, before: seq<nat>, m: nat, r: seq<nat>, n: nat)
    requires forall k | k in before + [m] :: Defines(k) && k == SectionAt(k) + DEF_FLAG
    requires n in r <==> Remains(l, before, n)
    ensures n == m || (n in r && SectionAt(n) != SectionAt(m)) <==> Remains(l, before + [m], n)
  {
    var ms := before + [m];
    assert forall k :: k in ms <==> k in before || k == m;
  }

  lemma BeforeLast(ms: seq<nat>, n: nat)
    requires InSequence(ms) && ms != [] && n in ms
    ensures Defines(n) && SectionAt(n) <= SectionAt(ms[|ms| - 1]) && n == SectionAt(n) + DEF_FLAG
  {
    var i :| 0 <= i < |ms| && ms[i] == n;
    assert i < |ms| - 1 ==> ms[i] <= ms[|ms| - 1];
  }

  /** Whether the next section is safe can be told from the list of phase one and the sections underlined since. */
  lemma SafeNext(l: seq<nat>, before: seq<nat>, s: nat)
    requires IdList(l) && Decreasing(l) && InSequence(before)
    requires IdList(UnderlinedAll(l, before)) && Decreasing(UnderlinedAll(l, before))
    ensures Safe(UnderlinedAll(l, before), s) <==>
            Has(l, s) || s + DEF_FLAG in before || Covered(l + before, s)
  {
    var r := UnderlinedAll(l, before);
    UnderlinedMembers(l, before);
    SafeIff(r, s);
    hide UnderlinedAll, Decreasing, InSequence, Covered, Has, Safe, Remaining;
    HasNext(l, before, r, s);
    CoveredNext(l, before, r, s);
  }

  lemma HasNext(l: seq<nat>, before: seq<nat>, r: seq<nat>, s: nat)
    requires IdList(l) && IdList(r) && InSequence(before)
    requires Remaining(l, before, r)
    ensures Has(r, s) <==> Has(l, s) || s + DEF_FLAG in before
  {
    HasIff(r, s);
    HasIff(l, s);
    SectionsOf(before);
    hide Has, InSequence, IdList;
    if n: nat :| n in l && SectionAt(n) == s { assert Remains(l, before, n) || s + DEF_FLAG in before; }
    if s + DEF_FLAG in before {
      assert SectionAt(s + DEF_FLAG) == s;
      assert Remains(l, before, s + DEF_FLAG);
    }
  }

  lemma HasIff(l: seq<nat>, s: nat)
    requires IdList(l)
    ensures Has(l, s) <==> exists n :: n in l && SectionAt(n) == s
  {
    if Has(l, s) {
      var i :| 0 <= i < |l| && SectionOf(l[i]) == s;
      assert l[i] in l && SectionAt(l[i]) == s;
    }
    if n: nat :| n in l && SectionAt(n) == s {
      var i :| 0 <= i < |l| && l[i] == n;
    }
  }

  lemma SectionsOf(ms: seq<nat>)
    requires InSequence(ms)
    ensures forall n | n in ms :: Defines(n) && n == SectionAt(n) + DEF_FLAG
  {
    forall n | n in ms ensures Defines(n) && n == SectionAt(n) + DEF_FLAG { BeforeLast(ms, n); }
  }

  lemma CoveredNext(l: seq<nat>, before: seq<nat>, r: seq<nat>, s: nat)
    requires InSequence(before)
    requires Remaining(l, before, r)
    ensures Covered(r, s) <==> Covered(l + before, s)
  {
    SectionsOf(before);
    hide InSequence;
    forall n ensures HasCover(r, n, s) <==> HasCover(l + before, n, s) { CoverNext(l, before, r, n, s); }
    hide HasCover, Remaining;
    if Covered(r, s) {
      forall n | n in l + before && SectionAt(n) < s ensures HasCover(l + before, n, s) {
        var k := Standing(l, before, r, n);
        assert HasCover(r, k, s);
        SameCover(r, k, n, s);
      }
    }
    if Covered(l + before, s) {
      forall n | n in r && SectionAt(n) < s ensures HasCover(r, n, s) {
        RemainsIn(l, before, r, n);
        assert HasCover(l + before, n, s);
      }
    }
  }

  /** The entry that stands for `n` after underlining. */
  lemma Standing(l: seq<nat>, before: seq<nat>, r: seq<nat>, n: nat) returns (k: nat)
    requires Remaining(l, before, r) && n in l + before
    requires forall k | k in before :: Defines(k) && k == SectionAt(k) + DEF_FLAG
    ensures k in r && SectionAt(k) == SectionAt(n) && (Defines(n) ==> Defines(k))
  {
    k := if Remains(l, before, n) then n else SectionAt(n) + DEF_FLAG;
    assert Remains(l, before, k);
  }

  lemma RemainsIn(l: seq<nat>, before: seq<nat>, r: seq<nat>, n: nat)
    requires Remaining(l, before, r) && n in r
    ensures n in l + before
  {
    assert Remains(l, before, n);
  }

  lemma SameCover(l: seq<nat>, k: nat, n: nat, s: nat)
    requires SectionAt(k) == SectionAt(n) && HasCover(l, k, s)
    ensures HasCover(l, n, s)
  {
    var d :| d in l && Covers(d, k, s);
    assert Covers(d, n, s);
  }

  lemma CoverNext(l: seq<nat>, before: seq<nat>, r: seq<nat>, n: nat, s: nat)
    requires forall k | k in before :: Defines(k) && k == SectionAt(k) + DEF_FLAG
    requires Remaining(l, before, r)
    ensures HasCover(r, n, s) <==> HasCover(l + before, n, s)
  {
    if HasCover(r, n, s) {
      var d :| d in r && Covers(d, n, s);
      RemainsIn(l, before, r, d);
    }
    if HasCover(l + before, n, s) {
      var d :| d in l + before && Covers(d, n, s);
      var k := Standing(l, before, r, d);
      assert k in r && Covers(k, n, s);
    }
  }

  /** Underlining in a later section does not matter. */
  lemma CoveredBefore(l: seq<nat>, before: seq<nat>, m: nat, s: nat)
    requires SectionAt(m) >= s
    ensures Covered(l + (before + [m]), s) <==> Covered(l + before, s)
  {
    var a, b := l + (before + [m]), l + before;
    assert forall n :: n in a <==> n in b || n == m;
    forall n ensures HasCover(a, n, s) <==> HasCover(b, n, s) {
      if d: nat :| d in a && Covers(d, n, s) { assert d in b; }
      if d: nat :| d in b && Covers(d, n, s) { assert d in a; }
    }
    hide HasCover;
  }

  lemma SafeRunNext(l: seq<nat>, ms: seq<nat>)
    requires IdList(l) && InSequence(ms) && ms != []
    ensures var before, m := ms[..|ms| - 1], ms[|ms| - 1];
            SafeRun(l, ms) <==>
            SafeRun(l, before) && (Has(l, SectionAt(m)) || m in before || Covered(l + before, SectionAt(m)))
  {
    var before, m := ms[..|ms| - 1], ms[|ms| - 1];
    LastOf(ms);
    forall n | n in ms ensures Covered(l + ms, SectionAt(n)) <==> Covered(l + before, SectionAt(n)) {
      BeforeLast(ms, n);
      CoveredBefore(l, before, m, SectionAt(n));
    }
    hide Covered, Has, InSequence;
  }

  /** The order after phase two is exact to tell from the list of phase one and the sections that are underlined. */
  lemma {:induction false} UnderlinedKeepsIff(l: seq<nat>, ms: seq<nat>)
    requires IdList(l) && Decreasing(l) && InSequence(ms)
    ensures IdList(UnderlinedAll(l, ms))
    ensures Decreasing(UnderlinedAll(l, ms)) <==> SafeRun(l, ms)
  {
    if ms != [] {
      var before, m := ms[..|ms| - 1], ms[|ms| - 1];
      UnderlinedKeepsIff(l, before);
      var r := UnderlinedAll(l, before);
      assert IdNumber(m) && Defines(m);
      SafeRunNext(l, ms);
      if Decreasing(r) {
        SafeNext(l, before, SectionAt(m));
        UnderlineKeepsIff(r, m);
      } else {
        UnderlineStaysOut(r, m);
      }
    }
  }

  /** It is kept if every section that is underlined has an entry from phase one, or if there are only definitions. */
  lemma SafeRunWhen(l: seq<nat>, ms: seq<nat>)
    requires IdList(l) && InSequence(ms)
    requires (forall m | m in ms :: Has(l, SectionAt(m))) || Definitions(l) == l
    ensures SafeRun(l, ms)
  {
    if Definitions(l) == l {
      DefinitionsMembers(l);
      SectionsOf(ms);
      forall m, n | m in ms && n in l + ms && SectionAt(n) < SectionAt(m) ensures HasCover(l + ms, n, SectionAt(m)) {
        assert Covers(n, n, SectionAt(m));
      }
    }
  }

  // ----- Both phases -----------------------------------------------------------------------------

  /** The list of name `p` when the index is made. */
  function Final(acts: seq<Act>, looks: seq<Look>, p: nat): seq<nat> {
    UnderlinedAll(Collected(acts, p), DeclaredIn(looks, p))
  }

  /** Only the list of the name that is declared changes. */
  lemma FinalNext(acts: seq<Act>, looks: seq<Look>, p: nat)
    requires looks != []
    ensures var before, k := looks[..|looks| - 1], looks[|looks| - 1];
            Final(acts, looks, p) ==
            if k == Declares(p) then Underline(Final(acts, before, p), Passed(before) + DEF_FLAG) else Final(acts, before, p)
  {
    var before, k := looks[..|looks| - 1], looks[|looks| - 1];
    var ms := DeclaredIn(before, p);
    assert ms + [] == ms;
    if k == Declares(p) { assert (ms + [Passed(before) + DEF_FLAG])[..|ms|] == ms; }
  }

  /** How much longer a list has become. */
  function More(l: seq<nat>, r: seq<nat>): nat {
    if |r| > |l| then |r| - |l| else 0
  }

  /** Only `@f` makes a list shorter, and the others make it longer by one entry at most. */
  lemma AffectedLength(l: seq<nat>, a: Act, p: nat, s: nat)
    ensures |Affected(l, a, p, s)| <= |l| + 1 && (a.Formats? ==> |Affected(l, a, p, s)| <= |l|)
    ensures !a.Formats? ==> |Affected(l, a, p, s)| >= |l|
  {
    if a.Formats? { DefinitionsLength(l); }
  }

  /** How many entries of the cross-reference memory phase one uses, the first one included. */
  function Used(acts: seq<Act>): nat {
    if acts == [] then 1
    else
      var before, a := acts[..|acts| - 1], acts[|acts| - 1];
      Used(before) + if a.NewSection? then 0 else More(Collected(before, a.p), Collected(acts, a.p))
  }

  /** How many entries both phases use. */
  function UsedByBoth(acts: seq<Act>, looks: seq<Look>): nat {
    if looks == [] then Used(acts)
    else
      var before, k := looks[..|looks| - 1], looks[|looks| - 1];
      UsedByBoth(acts, before) + if k.NextSection? then 0 else More(Final(acts, before, k.p), Final(acts, looks, k.p))
  }

  lemma LastAct(acts: seq<Act>)
    requires acts != []
    ensures Sections(acts[..|acts| - 1]) <= Sections(acts) && Used(acts[..|acts| - 1]) <= Used(acts)
  {
    hide Collected, More;
  }

  lemma {:induction false} BeforeActs(acts: seq<Act>, i: nat)
    requires i <= |acts|
    ensures Sections(acts[..i]) <= Sections(acts) && Used(acts[..i]) <= Used(acts)
  {
    if i < |acts| {
      LastAct(acts);
      hide Used, Sections;
      var n := |acts| - 1;
      assert acts[..n][..i] == acts[..i];
      BeforeActs(acts[..n], i);
    } else {
      assert acts[..i] == acts;
    }
  }

  lemma {:induction false} UsedUpTo(acts: seq<Act>, looks: seq<Look>, i: nat)
    requires i <= |looks|
    ensures UsedByBoth(acts, looks[..i]) <= UsedByBoth(acts, looks)
  {
    if i < |looks| {
      hide Final, More, Used;
      var n := |looks| - 1;
      assert looks[..n][..i] == looks[..i];
      UsedUpTo(acts, looks[..n], i);
    } else {
      assert looks[..i] == looks;
    }
  }
}
