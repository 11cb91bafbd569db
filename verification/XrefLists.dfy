/** CWEAVE's cross-reference lists as sequences of numbers: what each operation does to a list, and which
    order the lists keep. */
module XrefLists {
  import opened Wrappers

  const CITE_FLAG: nat := 10240
  const DEF_FLAG: nat := 20480
  const FILE_FLAG: nat := 30720

  // ----- Identifiers -----------------------------------------------------------------------------

  /** Where an identifier is used, or defined. */
  predicate IdNumber(n: nat) {
    0 < n < CITE_FLAG || DEF_FLAG < n < DEF_FLAG + CITE_FLAG
  }

  predicate Defines(n: nat) {
    n >= DEF_FLAG
  }

  function SectionOf(n: nat): nat
    requires IdNumber(n)
  {
    if Defines(n) then n - DEF_FLAG else n
  }

  predicate IdList(l: seq<nat>) {
    forall i | 0 <= i < |l| :: IdNumber(l[i])
  }

  /** Strictly decreasing sections, hence at most one entry for each. */
  predicate Decreasing(l: seq<nat>)
    requires IdList(l)
  {
    forall i, j | 0 <= i < j < |l| :: SectionOf(l[i]) > SectionOf(l[j])
  }

  predicate Increasing(l: seq<nat>)
    requires IdList(l)
  {
    forall i, j | 0 <= i < j < |l| :: SectionOf(l[i]) < SectionOf(l[j])
  }

  /** `new_xref`, when it is not told to ignore the name; `m` is the section number with its flag. */
  function NewXref(l: seq<nat>, m: nat): seq<nat> {
    if l != [] && (l[0] == m || l[0] == m + DEF_FLAG) then l
    else if l != [] && m == l[0] + DEF_FLAG then [m] + l[1..]
    else [m] + l
  }

  /** In phase one section numbers never go down: no entry of a list is newer than section `s`. */
  predicate UpTo(l: seq<nat>, s: nat)
    requires IdList(l)
  {
    forall i | 0 <= i < |l| :: SectionOf(l[i]) <= s
  }

  /** `new_xref` keeps the order and records the section, as a definition if it was or is one. */
  lemma NewXrefKeeps(l: seq<nat>, m: nat)
    requires IdList(l) && IdNumber(m) && Decreasing(l) && UpTo(l, SectionOf(m))
    ensures var r, s := NewXref(l, m), SectionOf(m);
            && r != [] && IdList(r) && Decreasing(r) && UpTo(r, s) && SectionOf(r[0]) == s
            && (Defines(r[0]) <==> Defines(m) || s + DEF_FLAG in l)
            && (forall n | n in l && SectionAt(n) != s :: n in r) && (forall n | n in r && SectionAt(n) != s :: n in l)
  {
    NewXrefMembers(l, m);
    hide SectionAt;
    var r, s := NewXref(l, m), SectionOf(m);
    if l != [] && SectionOf(l[0]) == s {
      assert r == [r[0]] + l[1..];
      assert forall i | 1 <= i < |l| :: SectionOf(l[i]) < SectionOf(l[0]);
    }
  }

  lemma NewXrefMembers(l: seq<nat>, m: nat)
    requires IdList(l) && IdNumber(m) && Decreasing(l) && UpTo(l, SectionOf(m))
    ensures var r, s := NewXref(l, m), SectionOf(m);
            && r != [] && SectionOf(r[0]) == s && (Defines(r[0]) <==> Defines(m) || s + DEF_FLAG in l)
            && (forall n | n in l && SectionAt(n) != s :: n in r) && (forall n | n in r && SectionAt(n) != s :: n in l)
  {
    var r, s := NewXref(l, m), SectionOf(m);
    if l != [] && SectionOf(l[0]) == s {
      assert r == [r[0]] + l[1..] && l == [l[0]] + l[1..];
      assert forall i | 1 <= i < |l| :: SectionOf(l[i]) < s;
      hide Decreasing, UpTo;
    } else {
      assert forall i | 0 <= i < |l| :: SectionOf(l[i]) < s;
      hide Decreasing, UpTo;
    }
  }

  /** `SectionOf` for any number. */
  function SectionAt(n: nat): nat {
    if Defines(n) then n - DEF_FLAG else n
  }

  /** The list of an identifier that is met with the numbers `ms`, one after the other. */
  function Recorded(ms: seq<nat>): seq<nat> {
    if ms == [] then [] else NewXref(Recorded(ms[..|ms| - 1]), ms[|ms| - 1])
  }

  /** Over any run in which section numbers do not go down, lists are strictly decreasing, with one entry for
      each section in which the identifier was met. */
  lemma {:induction false} RecordedDecreasing(ms: seq<nat>)
    requires forall i | 0 <= i < |ms| :: IdNumber(ms[i])
    requires forall i, j | 0 <= i < j < |ms| :: SectionOf(ms[i]) <= SectionOf(ms[j])
    ensures var l := Recorded(ms);
            && IdList(l) && Decreasing(l) && (ms != [] ==> UpTo(l, SectionOf(ms[|ms| - 1])))
            && (forall n | n in ms :: Has(l, SectionAt(n)))
            && (forall n | n in l :: n in ms)
  {
    if ms != [] {
      var before, m := ms[..|ms| - 1], ms[|ms| - 1];
      RecordedDecreasing(before);
      var l := Recorded(before);
      assert UpTo(l, SectionOf(m));
      NewXrefKeeps(l, m);
      var r := NewXref(l, m);
      forall n | n in ms ensures Has(r, SectionAt(n)) {
        if SectionAt(n) == SectionOf(m) {
          assert SectionOf(r[0]) == SectionAt(n);
        } else {
          assert n in before;
          var i :| 0 <= i < |l| && SectionOf(l[i]) == SectionAt(n);
          assert l[i] in r;
          var j :| 0 <= j < |r| && r[j] == l[i];
        }
      }
    }
  }

  // ----- @f ----------------------------------------------------------------------------------------

  /** What is left of the list of a name that is not to be indexed by itself any more. */
  function Definitions(l: seq<nat>): seq<nat> {
    if l == [] then [] else (if Defines(l[0]) then [l[0]] else []) + Definitions(l[1..])
  }

  lemma {:induction false} DefinitionsMembers(l: seq<nat>)
    ensures forall n :: n in Definitions(l) <==> n in l && Defines(n)
  {
    if l != [] {
      DefinitionsMembers(l[1..]);
      assert l == [l[0]] + l[1..];
    }
  }

  lemma {:induction false} DefinitionsKeep(l: seq<nat>)
    requires IdList(l) && Decreasing(l)
    ensures IdList(Definitions(l)) && Decreasing(Definitions(l))
  {
    if l != [] {
      var d := Definitions(l[1..]);
      DefinitionsKeep(l[1..]);
      DefinitionsMembers(l[1..]);
      forall j | 0 <= j < |d| ensures SectionOf(d[j]) < SectionOf(l[0]) {
        assert d[j] in l[1..];
      }
    }
  }

  lemma {:induction false} DefinitionsLength(l: seq<nat>)
    ensures |Definitions(l)| <= |l|
  {
    if l != [] { DefinitionsLength(l[1..]); }
  }

  lemma {:induction false} UseDropped(l: seq<nat>, i: nat)
    requires i < |l| && !Defines(l[i])
    ensures Definitions(l[..i] + l[i + 1..]) == Definitions(l)
  {
    var r := l[..i] + l[i + 1..];
    if i == 0 {
      assert r == l[1..];
    } else {
      assert r[0] == l[0] && r[1..] == l[1..][..i - 1] + l[1..][i..];
      UseDropped(l[1..], i - 1);
    }
  }

  lemma {:induction false} DefinitionsOnly(l: seq<nat>)
    requires forall i | 0 <= i < |l| :: Defines(l[i])
    ensures Definitions(l) == l
  {
    if l != [] { DefinitionsOnly(l[1..]); }
  }

  lemma DefinitionsUpTo(l: seq<nat>, s: nat)
    requires IdList(l) && UpTo(l, s)
    ensures IdList(Definitions(l)) && UpTo(Definitions(l), s)
  {
    DefinitionsMembers(l);
    var d := Definitions(l);
    forall j | 0 <= j < |d| ensures IdNumber(d[j]) && SectionOf(d[j]) <= s { assert d[j] in l; }
  }

  // ----- underline_xref --------------------------------------------------------------------------

  /** Where `underline_xref` stops, and whether it has found an entry for the section of `m`: at such an
      entry, at a definition in an earlier section, or at the end. */
  function StopsAt(l: seq<nat>, m: nat): (r: (nat, bool))
    ensures r.0 <= |l| && (r.1 ==> r.0 < |l|)
  {
    if l == [] then (0, false)
    else if l[0] == m || m == l[0] + DEF_FLAG then (0, true)
    else if l[0] >= DEF_FLAG && l[0] < m then (0, false)
    else var (i, hit) := StopsAt(l[1..], m); (i + 1, hit)
  }

  function Underline(l: seq<nat>, m: nat): seq<nat> {
    var (i, hit) := StopsAt(l, m);
    if hit then l[i := m] else l[..i] + [m] + l[i..]
  }

  lemma {:induction false} Stops(l: seq<nat>, m: nat)
    requires IdList(l) && IdNumber(m) && Defines(m)
    ensures var (i, hit) := StopsAt(l, m);
            && (hit ==> SectionOf(l[i]) == SectionOf(m))
            && (!hit && i < |l| ==> Defines(l[i]) && SectionOf(l[i]) < SectionOf(m))
            && forall j | 0 <= j < i ::
                 SectionOf(l[j]) != SectionOf(m) && (Defines(l[j]) ==> SectionOf(l[j]) > SectionOf(m))
  {
    if l != [] && !(l[0] == m || m == l[0] + DEF_FLAG) && !(l[0] >= DEF_FLAG && l[0] < m) {
      Stops(l[1..], m);
      var (i, hit) := StopsAt(l, m);
      assert forall j | 0 <= j < i :: j > 0 ==> l[j] == l[1..][j - 1];
    }
  }

  /** The first entry for an earlier section than `s`, |l| if there is none. */
  function FirstEarlier(l: seq<nat>, s: nat): (i: nat)
    requires IdList(l)
    ensures i <= |l| && (i < |l| ==> SectionOf(l[i]) < s)
    ensures forall j | 0 <= j < i :: SectionOf(l[j]) >= s
  {
    if l == [] || SectionOf(l[0]) < s then 0 else 1 + FirstEarlier(l[1..], s)
  }

  predicate Has(l: seq<nat>, s: nat)
    requires IdList(l)
  {
    exists i :: 0 <= i < |l| && SectionOf(l[i]) == s
  }

  /** What a caller can check before: the section has an entry, or the first entry for an earlier section, if
      there is one, is a definition. */
  predicate Safe(l: seq<nat>, s: nat)
    requires IdList(l)
  {
    Has(l, s) || FirstEarlier(l, s) == |l| || Defines(l[FirstEarlier(l, s)])
  }

  /** `underline_xref` keeps the order exactly when its list is safe. */
  lemma UnderlineKeepsIff(l: seq<nat>, m: nat)
    requires IdList(l) && IdNumber(m) && Defines(m) && Decreasing(l)
    ensures IdList(Underline(l, m)) && m in Underline(l, m)
    ensures Decreasing(Underline(l, m)) <==> Safe(l, SectionOf(m))
  {
    var s, r := SectionOf(m), Underline(l, m);
    var (i, hit) := StopsAt(l, m);
    Stops(l, m);
    if hit {
      assert r[i] == m;
      assert forall j | 0 <= j < |l| :: SectionOf(r[j]) == SectionOf(l[j]);
    } else {
      assert r[i] == m;
      var f := FirstEarlier(l, s);
      assert f <= i;
      NotHit(l, m, i);
      if f == i {
        InsertDecreasing(l, i, m);
      } else {
        assert !Defines(l[f]) && r[f] == l[f] && SectionOf(r[f]) < SectionOf(r[i]);
      }
    }
  }

  /** For every entry of an earlier section than `s` there is a definition in its section, or between it and `s`. */
  ghost predicate Covered(l: seq<nat>, s: nat) {
    forall n | n in l && SectionAt(n) < s :: HasCover(l, n, s)
  }

  ghost predicate HasCover(l: seq<nat>, n: nat, s: nat) {
    exists d :: d in l && Covers(d, n, s)
  }

  predicate Covers(d: nat, n: nat, s: nat) {
    Defines(d) && SectionAt(n) <= SectionAt(d) < s
  }

  lemma SafeIff(l: seq<nat>, s: nat)
    requires IdList(l) && Decreasing(l)
    ensures Safe(l, s) <==> Has(l, s) || Covered(l, s)
  {
    var f := FirstEarlier(l, s);
    forall n | n in l && SectionAt(n) < s ensures f < |l| && SectionAt(n) <= SectionOf(l[f]) { Earlier(l, s, n); }
    hide Decreasing, Has, FirstEarlier;
    if f < |l| {
      if Defines(l[f]) {
        forall n | n in l && SectionAt(n) < s ensures HasCover(l, n, s) { assert Covers(l[f], n, s); }
      } else if Covered(l, s) {
        assert HasCover(l, l[f], s);
        var d :| d in l && Covers(d, l[f], s);
        SameSection(l, f, d);
      }
    }
  }

  lemma Earlier(l: seq<nat>, s: nat, n: nat)
    requires IdList(l) && Decreasing(l) && n in l && SectionAt(n) < s
    ensures FirstEarlier(l, s) < |l| && SectionAt(n) <= SectionOf(l[FirstEarlier(l, s)])
  {
    var j :| 0 <= j < |l| && l[j] == n;
  }

  /** No other entry has the section of entry `f`. */
  lemma SameSection(l: seq<nat>, f: nat, d: nat)
    requires IdList(l) && Decreasing(l) && f < |l| && d in l && SectionAt(d) == SectionOf(l[f])
    ensures d == l[f]
  {
    var j :| 0 <= j < |l| && l[j] == d;
    assert j == f;
  }

  /** What `underline_xref` leaves in the list. */
  lemma UnderlineMembers(l: seq<nat>, m: nat)
    requires IdList(l) && IdNumber(m) && Defines(m) && Decreasing(l)
    ensures forall n :: n in Underline(l, m) <==> n == m || (n in l && SectionAt(n) != SectionOf(m))
  {
    var (i, hit) := StopsAt(l, m);
    var r := Underline(l, m);
    Stops(l, m);
    if hit {
      assert forall j | 0 <= j < |l| && j != i :: SectionOf(l[j]) != SectionOf(l[i]);
      forall n ensures n in r <==> n == m || (n in l && SectionAt(n) != SectionOf(m)) {
        if n in l && SectionAt(n) != SectionOf(m) {
          var j :| 0 <= j < |l| && l[j] == n;
          assert r[j] == n;
        }
        if n in r && n != m {
          var j :| 0 <= j < |r| && r[j] == n;
          assert j != i && l[j] == n;
        }
        assert r[i] == m;
      }
    } else {
      NotHit(l, m, i);
      assert l == l[..i] + l[i..];
      forall n | n in l ensures SectionAt(n) != SectionOf(m) { var j :| 0 <= j < |l| && l[j] == n; }
    }
  }

  /** A list that is out of order stays so. */
  lemma UnderlineStaysOut(l: seq<nat>, m: nat)
    requires IdList(l) && IdNumber(m) && Defines(m) && !Decreasing(l)
    ensures IdList(Underline(l, m)) && !Decreasing(Underline(l, m))
  {
    var (i, hit) := StopsAt(l, m);
    var r := Underline(l, m);
    Stops(l, m);
    var a, b :| 0 <= a < b < |l| && SectionOf(l[a]) <= SectionOf(l[b]);
    if hit {
      assert forall j | 0 <= j < |l| :: SectionOf(r[j]) == SectionOf(l[j]);
    } else {
      var a', b' := if a < i then a else a + 1, if b < i then b else b + 1;
      assert r[a'] == l[a] && r[b'] == l[b];
    }
  }

  /** If no entry for the section was found, there is none. */
  lemma NotHit(l: seq<nat>, m: nat, i: nat)
    requires IdList(l) && IdNumber(m) && Decreasing(l) && i <= |l|
    requires i < |l| ==> SectionOf(l[i]) < SectionOf(m)
    requires forall j | 0 <= j < i :: SectionOf(l[j]) != SectionOf(m)
    ensures !Has(l, SectionOf(m))
  {
    forall j | i < j < |l| ensures SectionOf(l[j]) != SectionOf(m) {
      assert SectionOf(l[i]) > SectionOf(l[j]);
    }
  }

  lemma InsertDecreasing(l: seq<nat>, i: nat, m: nat)
    requires IdList(l) && IdNumber(m) && Decreasing(l) && i <= |l|
    requires i < |l| ==> SectionOf(l[i]) < SectionOf(m)
    requires forall j | 0 <= j < i :: SectionOf(l[j]) > SectionOf(m)
    ensures IdList(l[..i] + [m] + l[i..]) && Decreasing(l[..i] + [m] + l[i..])
  {
    var r := l[..i] + [m] + l[i..];
    forall j | 0 <= j < |r| ensures r[j] == if j < i then l[j] else if j == i then m else l[j - 1] {
    }
    forall j | i < j < |r| ensures SectionOf(r[j]) < SectionOf(m) {
      assert j - 1 > i ==> SectionOf(l[i]) > SectionOf(l[j - 1]);
    }
  }

  /** A list that is not safe: a use in section 7 and a definition in section 5, with section 9 to be underlined. */
  lemma UnderlineDisorders()
    ensures var l := [7, DEF_FLAG + 5];
            && IdList(l) && Decreasing(l) && Underline(l, DEF_FLAG + 9) == [7, DEF_FLAG + 9, DEF_FLAG + 5]
            && !Decreasing([7, DEF_FLAG + 9, DEF_FLAG + 5])
  {
    var l := [7, DEF_FLAG + 5];
    assert l[1..] == [DEF_FLAG + 5];
    assert StopsAt(l[1..], DEF_FLAG + 9) == (0, false);
    var r := [7, DEF_FLAG + 9, DEF_FLAG + 5];
    assert SectionOf(r[0]) < SectionOf(r[1]);
  }

  // ----- Reversal --------------------------------------------------------------------------------

  function Reversed(l: seq<nat>): (r: seq<nat>)
    ensures |r| == |l|
  {
    if l == [] then [] else Reversed(l[1..]) + [l[0]]
  }

  lemma {:induction false} ReversedAppend(l: seq<nat>, x: nat)
    ensures Reversed(l + [x]) == [x] + Reversed(l)
  {
    if l == [] {
      assert [x][1..] == [];
    } else {
      assert (l + [x])[1..] == l[1..] + [x];
      ReversedAppend(l[1..], x);
    }
  }

  lemma {:induction false} ReversedAt(l: seq<nat>, k: nat)
    requires k < |l|
    ensures Reversed(l)[k] == l[|l| - 1 - k]
  {
    if k < |l| - 1 { ReversedAt(l[1..], k); }
  }

  /** The index line of an identifier lists its sections in increasing order exactly if its list is decreasing. */
  lemma ReversedIncreasing(l: seq<nat>)
    requires IdList(l)
    ensures IdList(Reversed(l)) && (Increasing(Reversed(l)) <==> Decreasing(l))
  {
    var r := Reversed(l);
    forall k | 0 <= k < |l| ensures r[k] == l[|l| - 1 - k] { ReversedAt(l, k); }
    if Increasing(r) {
      forall i, j | 0 <= i < j < |l| ensures SectionOf(l[i]) > SectionOf(l[j]) {
        assert r[|l| - 1 - j] == l[j] && r[|l| - 1 - i] == l[i];
      }
    }
  }

  // ----- Section names ---------------------------------------------------------------------------

  /** The group of an entry: its flag. */
  function FlagOf(n: nat): nat {
    if n >= FILE_FLAG then FILE_FLAG else if n > DEF_FLAG then DEF_FLAG else if n > CITE_FLAG then CITE_FLAG else 0
  }

  predicate GroupFlag(flag: nat) {
    flag == 0 || flag == CITE_FLAG || flag == DEF_FLAG
  }

  predicate SectionNumber(n: nat) {
    n == FILE_FLAG || (0 < n - FlagOf(n) < CITE_FLAG && FlagOf(n) <= DEF_FLAG)
  }

  predicate SectionList(l: seq<nat>) {
    forall i | 0 <= i < |l| :: SectionNumber(l[i])
  }

  /** An entry `n` may stand before entry `k`: in an earlier group, or in the same group with a smaller
      section number; there is only one file flag. */
  predicate Before(n: nat, k: nat) {
    FlagOf(n) > FlagOf(k) || (FlagOf(n) == FlagOf(k) && n < k)
  }

  /** The file flag if there is one, then definitions, citations and uses, each group strictly increasing. */
  predicate Grouped(l: seq<nat>) {
    SectionList(l) && forall i, j | 0 <= i < j < |l| :: Before(l[i], l[j])
  }

  /** The number of entries before the place of a new entry with flag `flag`. */
  function GroupEnd(l: seq<nat>, flag: nat): (i: nat)
    ensures i <= |l| && (i < |l| ==> l[i] <= flag)
    ensures forall j | 0 <= j < i :: l[j] > flag
  {
    if l == [] || l[0] <= flag then 0 else 1 + GroupEnd(l[1..], flag)
  }

  /** `new_section_xref` */
  function NewSectionXref(l: seq<nat>, s: nat, flag: nat): seq<nat> {
    var i := GroupEnd(l, flag);
    if i > 0 && l[i - 1] == s + flag then l else l[..i] + [s + flag] + l[i..]
  }

  /** No entry of the list is newer than section `s`. */
  predicate SectionsUpTo(l: seq<nat>, s: nat) {
    forall i | 0 <= i < |l| && l[i] != FILE_FLAG :: l[i] - FlagOf(l[i]) <= s
  }

  lemma InsertGrouped(l: seq<nat>, i: nat, n: nat)
    requires Grouped(l) && SectionNumber(n) && i <= |l|
    requires (forall j | 0 <= j < i :: Before(l[j], n)) && forall j | i <= j < |l| :: Before(n, l[j])
    ensures Grouped(l[..i] + [n] + l[i..])
  {
    var r := l[..i] + [n] + l[i..];
    assert forall j | 0 <= j < |r| :: r[j] == if j < i then l[j] else if j == i then n else l[j - 1];
    hide Before, SectionNumber;
  }

  /** The entries before the place of a new one, and those after it. */
  lemma AroundGroupEnd(l: seq<nat>, s: nat, flag: nat)
    requires Grouped(l) && 0 < s < CITE_FLAG && SectionsUpTo(l, s) && GroupFlag(flag)
    requires var i := GroupEnd(l, flag); i == 0 || l[i - 1] != s + flag
    ensures var i := GroupEnd(l, flag);
            (forall j | 0 <= j < i :: Before(l[j], s + flag)) && forall j | i <= j < |l| :: Before(s + flag, l[j])
  {
    var i, n := GroupEnd(l, flag), s + flag;
    forall j | 0 <= j < i ensures Before(l[j], n) { BeforeNew(l, s, flag, j); }
    forall j | i <= j < |l| ensures Before(n, l[j]) { AfterNew(l, s, flag, j); }
  }

  lemma BeforeNew(l: seq<nat>, s: nat, flag: nat, j: nat)
    requires Grouped(l) && 0 < s < CITE_FLAG && SectionsUpTo(l, s) && GroupFlag(flag) && j < GroupEnd(l, flag)
    requires l[GroupEnd(l, flag) - 1] != s + flag
    ensures Before(l[j], s + flag)
  {
    var i := GroupEnd(l, flag);
    assert SectionNumber(l[j]) && SectionNumber(l[i - 1]);
    assert j < i - 1 ==> Before(l[j], l[i - 1]);
    NewNumber(s, flag);
    hide Grouped;
  }

  lemma AfterNew(l: seq<nat>, s: nat, flag: nat, j: nat)
    requires Grouped(l) && 0 < s < CITE_FLAG && GroupFlag(flag) && GroupEnd(l, flag) <= j < |l|
    ensures Before(s + flag, l[j])
  {
    var i := GroupEnd(l, flag);
    assert SectionNumber(l[i]) && SectionNumber(l[j]);
    assert j > i ==> Before(l[i], l[j]);
    NewNumber(s, flag);
    hide Grouped;
  }

  lemma InsertMembers(l: seq<nat>, i: nat, n: nat)
    requires i <= |l|
    ensures forall k :: k in l[..i] + [n] + l[i..] <==> k in l || k == n
  {
    assert l == l[..i] + l[i..];
  }

  lemma InsertUpTo(l: seq<nat>, i: nat, s: nat, flag: nat)
    requires i <= |l| && 0 < s < CITE_FLAG && SectionsUpTo(l, s) && GroupFlag(flag)
    ensures SectionsUpTo(l[..i] + [s + flag] + l[i..], s)
  {
    var r := l[..i] + [s + flag] + l[i..];
    assert forall j | 0 <= j < |r| :: r[j] == if j < i then l[j] else if j == i then s + flag else l[j - 1];
  }

  lemma NewNumber(s: nat, flag: nat)
    requires 0 < s < CITE_FLAG && GroupFlag(flag)
    ensures SectionNumber(s + flag) && FlagOf(s + flag) == flag
  {
  }

  lemma InsertKeeps(l: seq<nat>, s: nat, flag: nat)
    requires Grouped(l) && 0 < s < CITE_FLAG && SectionsUpTo(l, s) && GroupFlag(flag)
    requires var i := GroupEnd(l, flag); i == 0 || l[i - 1] != s + flag
    ensures var r := l[..GroupEnd(l, flag)] + [s + flag] + l[GroupEnd(l, flag)..];
            Grouped(r) && SectionsUpTo(r, s) && forall n :: n in r <==> n in l || n == s + flag
  {
    hide Grouped, Before, SectionNumber, SectionsUpTo, GroupEnd;
    NewNumber(s, flag);
    AroundGroupEnd(l, s, flag);
    InsertGrouped(l, GroupEnd(l, flag), s + flag);
    InsertMembers(l, GroupEnd(l, flag), s + flag);
    InsertUpTo(l, GroupEnd(l, flag), s, flag);
  }

  /** `new_section_xref` keeps the groups, and adds the section to its group. */
  lemma NewSectionXrefKeeps(l: seq<nat>, s: nat, flag: nat)
    requires Grouped(l) && 0 < s < CITE_FLAG && SectionsUpTo(l, s) && GroupFlag(flag)
    ensures var r := NewSectionXref(l, s, flag);
            Grouped(r) && SectionsUpTo(r, s) && forall n :: n in r <==> n in l || n == s + flag
  {
    hide Grouped, SectionsUpTo;
    var i := GroupEnd(l, flag);
    if i == 0 || l[i - 1] != s + flag { InsertKeeps(l, s, flag); } else { assert s + flag in l; }
  }

  /** `set_file_flag` */
  function SetFileFlag(l: seq<nat>): seq<nat> {
    if l != [] && l[0] == FILE_FLAG then l else [FILE_FLAG] + l
  }

  lemma SetFileFlagKeeps(l: seq<nat>)
    requires Grouped(l)
    ensures Grouped(SetFileFlag(l)) && forall n :: n in SetFileFlag(l) <==> n in l || n == FILE_FLAG
  {
    assert forall i | 0 < i < |l| :: Before(l[0], l[i]);
  }

  /** A reference to a section name in section `s`, or the mark of an output file. */
  datatype Reference = Refers(s: nat, flag: nat) | OutputFile

  function Referred(rs: seq<Reference>): seq<nat> {
    if rs == [] then []
    else
      var l, r := Referred(rs[..|rs| - 1]), rs[|rs| - 1];
      if r.OutputFile? then SetFileFlag(l) else NewSectionXref(l, r.s, r.flag)
  }

  /** References that come with section numbers that do not go down. */
  predicate InTurn(rs: seq<Reference>, s: nat) {
    && (forall i | 0 <= i < |rs| && rs[i].Refers? :: 0 < rs[i].s <= s < CITE_FLAG && GroupFlag(rs[i].flag))
    && (forall i, j | 0 <= i < j < |rs| && rs[i].Refers? && rs[j].Refers? :: rs[i].s <= rs[j].s)
  }

  /** The number under which a reference is recorded. */
  function NumberOf(r: Reference): nat {
    if r.OutputFile? then FILE_FLAG else r.s + r.flag
  }

  predicate Made(rs: seq<Reference>, n: nat) {
    exists i :: 0 <= i < |rs| && NumberOf(rs[i]) == n
  }

  lemma MadeNext(rs: seq<Reference>, n: nat)
    requires rs != []
    ensures Made(rs, n) <==> Made(rs[..|rs| - 1], n) || n == NumberOf(rs[|rs| - 1])
  {
    var before := rs[..|rs| - 1];
    assert forall i | 0 <= i < |before| :: before[i] == rs[i];
  }

  /** Over any such run the list keeps its groups, and holds exactly the references that were made. */
  lemma {:induction false} ReferredGrouped(rs: seq<Reference>, s: nat)
    requires InTurn(rs, s)
    ensures Grouped(Referred(rs)) && SectionsUpTo(Referred(rs), s)
    ensures forall n :: n in Referred(rs) <==> Made(rs, n)
  {
    if rs != [] {
      var before, r := rs[..|rs| - 1], rs[|rs| - 1];
      InTurnBefore(rs, s);
      hide Grouped, SectionsUpTo, NewSectionXref, SetFileFlag, Made, InTurn;
      forall n ensures Made(rs, n) <==> Made(before, n) || n == NumberOf(r) { MadeNext(rs, n); }
      if r.OutputFile? {
        ReferredGrouped(before, s);
        SetFileFlagKeeps(Referred(before));
        FileUpTo(Referred(before), s);
      } else {
        ReferredGrouped(before, r.s);
        NewSectionXrefKeeps(Referred(before), r.s, r.flag);
        UpToMore(Referred(rs), r.s, s);
      }
    }
  }

  lemma InTurnBefore(rs: seq<Reference>, s: nat)
    requires InTurn(rs, s) && rs != []
    ensures var r := rs[|rs| - 1];
            if r.OutputFile? then InTurn(rs[..|rs| - 1], s)
            else 0 < r.s <= s && r.s < CITE_FLAG && GroupFlag(r.flag) && InTurn(rs[..|rs| - 1], r.s)
  {
  }

  lemma UpToMore(l: seq<nat>, s: nat, t: nat)
    requires SectionsUpTo(l, s) && s <= t
    ensures SectionsUpTo(l, t)
  {
  }

  lemma FileUpTo(l: seq<nat>, s: nat)
    requires SectionsUpTo(l, s)
    ensures SectionsUpTo(SetFileFlag(l), s)
  {
  }

  // ----- All lists -------------------------------------------------------------------------------

  /** The list of an identifier is strictly decreasing, that of a section name is grouped. */
  predicate Tidy(l: seq<nat>, identifier: bool) {
    if identifier then IdList(l) && Decreasing(l) else Grouped(l)
  }

  /** And no entry is newer than section `s`, as long as sections are counted for the first time. */
  predicate UpToDate(l: seq<nat>, identifier: bool, s: nat) {
    Tidy(l, identifier) && if identifier then UpTo(l, s) else SectionsUpTo(l, s)
  }

  lemma LaterUpToDate(l: seq<nat>, identifier: bool, s: nat)
    requires UpToDate(l, identifier, s)
    ensures UpToDate(l, identifier, s + 1)
  {
  }

  // ----- footnote --------------------------------------------------------------------------------

  function Minus(l: seq<nat>, flag: nat): seq<nat>
    requires forall i | 0 <= i < |l| :: l[i] > flag
  {
    if l == [] then [] else [l[0] - flag] + Minus(l[1..], flag)
  }

  function Plus(l: seq<nat>, flag: nat): seq<nat> {
    if l == [] then [] else [l[0] + flag] + Plus(l[1..], flag)
  }

  /** `footnote(flag)`: the section numbers that are printed, and the entries that are left. */
  function Footnote(l: seq<nat>, flag: nat): (seq<nat>, seq<nat>) {
    var i := GroupEnd(l, flag);
    (Minus(l[..i], flag), l[i..])
  }

  /** Where the footnotes of a section begin: the file flag and the number of its first section are passed
      over. */
  function Skipped(l: seq<nat>): seq<nat> {
    var m := if l != [] && l[0] == FILE_FLAG then l[1..] else l;
    if m != [] && m[0] > DEF_FLAG then m[1..] else m
  }

  /** The sections printed by the three footnotes of a section: further definitions, citations and uses. */
  function Footnotes(l: seq<nat>): (seq<nat>, seq<nat>, seq<nat>, seq<nat>) {
    var (also, rest) := Footnote(Skipped(l), DEF_FLAG);
    var (cited, rest') := Footnote(rest, CITE_FLAG);
    var (used, rest'') := Footnote(rest', 0);
    (also, cited, used, rest'')
  }

  lemma {:induction false} PlusMinus(l: seq<nat>, flag: nat)
    requires forall i | 0 <= i < |l| :: l[i] > flag
    ensures Plus(Minus(l, flag), flag) == l
  {
    if l != [] { PlusMinus(l[1..], flag); }
  }

  predicate Rising(l: seq<nat>) {
    forall i, j | 0 <= i < j < |l| :: 0 < l[i] < l[j] < CITE_FLAG
  }

  lemma {:induction false} MinusAt(l: seq<nat>, flag: nat, k: nat)
    requires (forall i | 0 <= i < |l| :: l[i] > flag) && k < |l|
    ensures |Minus(l, flag)| == |l| && Minus(l, flag)[k] == l[k] - flag
  {
    if |l| > 1 {
      MinusAt(l[1..], flag, if k > 0 then k - 1 else 0);
    } else {
      assert Minus(l[1..], flag) == [];
    }
  }

  /** The entries of a group, and those after it. */
  lemma GroupSplit(l: seq<nat>, flag: nat)
    requires Grouped(l) && GroupFlag(flag)
    requires forall i | 0 <= i < |l| :: FlagOf(l[i]) <= flag
    ensures var i := GroupEnd(l, flag);
            && (forall k | 0 <= k < i :: FlagOf(l[k]) == flag)
            && (forall k | i <= k < |l| :: FlagOf(l[k]) < flag)
            && (flag == 0 ==> i == |l|)
  {
    var i := GroupEnd(l, flag);
    forall k | i <= k < |l| ensures FlagOf(l[k]) < flag || flag == 0 {
      assert k > i ==> Before(l[i], l[k]);
    }
  }

  lemma GroupedRest(l: seq<nat>, i: nat)
    requires Grouped(l) && i <= |l|
    ensures Grouped(l[i..])
  {
    assert forall k | 0 <= k < |l| - i :: l[i..][k] == l[i + k];
    hide Before, SectionNumber;
  }

  /** Entries of one group rise. */
  lemma GroupRises(l: seq<nat>, flag: nat)
    requires Grouped(l) && GroupFlag(flag) && forall k | 0 <= k < |l| :: FlagOf(l[k]) == flag && l[k] > flag
    ensures Rising(Minus(l, flag))
  {
    if l == [] { assert Minus(l, flag) == []; }
    forall k | 0 <= k < |l| ensures |Minus(l, flag)| == |l| && Minus(l, flag)[k] == l[k] - flag { MinusAt(l, flag, k); }
    forall j, k | 0 <= j < k < |l| ensures l[j] < l[k] { assert Before(l[j], l[k]); }
  }

  /** One footnote prints the entries of one group. */
  lemma OneFootnote(l: seq<nat>, flag: nat)
    requires Grouped(l) && GroupFlag(flag)
    requires forall i | 0 <= i < |l| :: FlagOf(l[i]) <= flag
    ensures var (p, rest) := Footnote(l, flag);
            && Rising(p) && Plus(p, flag) + rest == l && Grouped(rest) && (flag == 0 ==> rest == [])
            && forall i | 0 <= i < |rest| :: FlagOf(rest[i]) < flag
  {
    hide Grouped, FlagOf, Rising;
    var i := GroupEnd(l, flag);
    GroupSplit(l, flag);
    GroupedRest(l, i);
    GroupedStart(l, i);
    assert forall k | 0 <= k < i :: l[..i][k] == l[k];
    GroupRises(l[..i], flag);
    PlusMinus(l[..i], flag);
    assert forall k | 0 <= k < |l| - i :: l[i..][k] == l[i + k];
    assert l[..i] + l[i..] == l;
  }

  lemma GroupedStart(l: seq<nat>, i: nat)
    requires Grouped(l) && i <= |l|
    ensures Grouped(l[..i])
  {
  }

  /** The three footnotes together pass over the list once, and print every remaining entry in its own
      group. */
  lemma FootnotesPrintAll(l: seq<nat>)
    requires Grouped(l)
    ensures var (also, cited, used, rest) := Footnotes(l);
            && Rising(also) && Rising(cited) && Rising(used) && rest == []
            && Plus(also, DEF_FLAG) + Plus(cited, CITE_FLAG) + Plus(used, 0) == Skipped(l)
  {
    hide Grouped, Skipped, Footnote, FlagOf, Rising, Plus;
    SkippedGrouped(l);
    OneFootnote(Skipped(l), DEF_FLAG);
    TwoFootnotes(Footnote(Skipped(l), DEF_FLAG).1);
    var (also, cited, used, rest) := Footnotes(l);
    assert Plus(also, DEF_FLAG) + (Plus(cited, CITE_FLAG) + Plus(used, 0)) == Skipped(l);
  }

  lemma TwoFootnotes(l: seq<nat>)
    requires Grouped(l) && forall i | 0 <= i < |l| :: FlagOf(l[i]) < DEF_FLAG
    ensures var (cited, rest) := Footnote(l, CITE_FLAG);
            var (used, none) := Footnote(rest, 0);
            Rising(cited) && Rising(used) && none == [] && Plus(cited, CITE_FLAG) + Plus(used, 0) == l
  {
    assert forall i | 0 <= i < |l| :: FlagOf(l[i]) <= CITE_FLAG;
    hide Grouped, Footnote, FlagOf, Rising, Plus;
    OneFootnote(l, CITE_FLAG);
    LastFootnote(Footnote(l, CITE_FLAG).1);
  }

  lemma LastFootnote(l: seq<nat>)
    requires Grouped(l) && forall i | 0 <= i < |l| :: FlagOf(l[i]) < CITE_FLAG
    ensures Rising(Footnote(l, 0).0) && Plus(Footnote(l, 0).0, 0) == l && Footnote(l, 0).1 == []
  {
    OneFootnote(l, 0);
    hide Footnote;
    assert Plus(Footnote(l, 0).0, 0) + [] == l;
  }

  lemma SkippedGrouped(l: seq<nat>)
    requires Grouped(l)
    ensures Grouped(Skipped(l)) && forall i | 0 <= i < |Skipped(l)| :: FlagOf(Skipped(l)[i]) <= DEF_FLAG
  {
    var m := Skipped(l);
    var k := |l| - |m|;
    assert forall i | 0 <= i < |m| :: m[i] == l[k + i];
    forall i | 0 <= i < |m| ensures FlagOf(m[i]) <= DEF_FLAG {
      assert k + i > 0 ==> Before(l[0], l[k + i]);
    }
  }
}
