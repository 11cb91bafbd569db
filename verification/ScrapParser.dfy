/** CWEAVE's parser as it runs: a fixed array of scraps with a gap between the scraps next to `pp` and
    those still waiting, a token memory that grows, and the global mathness variables.  `Translate` is
    proved to compute exactly what the rewriting machine on the plain list of scraps computes. */
module ScrapParser {
  import opened Wrappers
  import opened Productions
  import opened ScrapTexts
  import opened ScrapMachine
  import opened ScrapLaws
  import opened ScrapRuns

  const SAFE_TOK_INCR := 20
  const SAFE_TEXT_INCR := 10

  /** The list held in the array `a`: positions `base` to `lo` and `hi` to `end-1`. */
  function Gapped(a: seq<Scrap>, base: nat, lo: int, hi: int, end: int): seq<Scrap>
    requires base <= lo + 1 <= hi <= end <= |a|
  {
    a[base..lo + 1] + a[hi..end]
  }

  /** Moving the scrap behind the gap to its front keeps the list. */
  lemma MoveGap(a: seq<Scrap>, base: nat, lo: int, hi: int, end: int)
    requires base <= lo + 1 <= hi < end <= |a|
    ensures Gapped(a[lo + 1 := a[hi]], base, lo + 1, hi + 1, end) == Gapped(a, base, lo, hi, end)
  {
    var b := a[lo + 1 := a[hi]];
    assert b[base..lo + 2] == a[base..lo + 1] + [a[hi]];
    assert b[hi + 1..end] == a[hi + 1..end];
    assert a[hi..end] == [a[hi]] + a[hi + 1..end];
  }

  /** Writing into the gap keeps the list when nothing waits behind it. */
  lemma WriteGap(a: seq<Scrap>, base: nat, lo: int, end: int, i: int, s: Scrap)
    requires base <= lo + 1 <= end <= |a| && lo < i < |a|
    ensures Gapped(a[i := s], base, lo, end, end) == Gapped(a, base, lo, end, end)
  {
  }

  /** Where the scrap with index `i` stands. */
  function Place(base: nat, lo: int, hi: int, i: nat): int {
    if base + i <= lo then base + i else hi + i - (lo + 1 - base)
  }

  /** Writing over a scrap of the list. */
  lemma WriteScrap(a: seq<Scrap>, base: nat, lo: int, hi: int, end: int, i: nat, s: Scrap)
    requires base <= lo + 1 <= hi <= end <= |a| && i < |Gapped(a, base, lo, hi, end)|
    ensures var p := Place(base, lo, hi, i);
            && 0 <= p < |a| && a[p] == Gapped(a, base, lo, hi, end)[i]
            && Gapped(a[p := s], base, lo, hi, end) == Gapped(a, base, lo, hi, end)[i := s]
  {
  }

  /** `b` is `a` with the elements from `j+k` to `lo` moved down to `j+1`. */
  ghost predicate MovedDown(a: seq<Scrap>, b: seq<Scrap>, j: int, k: nat, lo: int) {
    && 0 <= j && 1 <= k && j + k <= lo + 1 <= |a| == |b|
    && (forall n | j < n <= lo - k + 1 :: b[n] == a[n + k - 1])
    && (forall n | 0 <= n <= j || lo - k + 1 < n < |a| :: b[n] == a[n])
  }

  /** Shifting the scraps behind position `j` down over the `k-1` scraps after it. */
  lemma CloseUp(a: seq<Scrap>, b: seq<Scrap>, base: nat, lo: int, hi: int, end: int, i: nat, j: int, k: nat,
                goal: seq<Scrap>)
    requires base <= lo + 1 <= hi <= end <= |a| == |b| && 1 <= k && j == base + i && j + k <= lo + 1
    requires MovedDown(a, b, j, k, lo)
    requires var s := Gapped(a, base, lo, hi, end); goal == s[..i] + [a[j]] + s[i + k..]
    ensures Gapped(b, base, lo - k + 1, hi, end) == goal
  {
    var s, lo' := Gapped(a, base, lo, hi, end), lo - k + 1;
    MovedLive(a, b, base, lo, j, k);
    assert b[hi..end] == a[hi..end];
    assert s[..i] == a[base..j];
    assert s[i + k..] == a[j + k..lo + 1] + a[hi..end];
  }

  lemma MovedLive(a: seq<Scrap>, b: seq<Scrap>, base: nat, lo: int, j: nat, k: nat)
    requires base <= j && 1 <= k && j + k <= lo + 1 <= |a| == |b| && MovedDown(a, b, j, k, lo)
    ensures b[base..lo - k + 2] == a[base..j] + [a[j]] + a[j + k..lo + 1]
  {
    var lo' := lo - k + 1;
    assert b[base..j] == a[base..j] && b[j + 1..lo' + 1] == a[j + k..lo + 1];
    assert b[base..lo' + 1] == b[base..j] + [b[j]] + b[j + 1..lo' + 1];
  }

  lemma CloseUpAny(a: seq<Scrap>, base: nat, lo: int, hi: int, end: int, i: nat, j: int, k: nat, goal: seq<Scrap>)
    requires base <= lo + 1 <= hi <= end <= |a| && 1 <= k && j == base + i && j + k <= lo + 1
    requires var s := Gapped(a, base, lo, hi, end); goal == s[..i] + [a[j]] + s[i + k..]
    ensures k == 1 ==> Gapped(a, base, lo, hi, end) == goal
    ensures forall b | MovedDown(a, b, j, k, lo) :: Gapped(b, base, lo - k + 1, hi, end) == goal
  {
    forall b | MovedDown(a, b, j, k, lo) ensures Gapped(b, base, lo - k + 1, hi, end) == goal {
      CloseUp(a, b, base, lo, hi, end, i, j, k, goal);
    }
    if k == 1 {
      assert MovedDown(a, a, j, 1, lo);
    }
  }

  /** The scraps at and after `pp`, as long as they stand in front of the gap. */
  lemma InFront(a: seq<Scrap>, base: nat, lo: int, hi: int, end: int, i: nat, n: nat)
    requires base <= lo + 1 <= hi <= end <= |a| && base + i + n <= lo + 1
    ensures i + n <= |Gapped(a, base, lo, hi, end)|
    ensures Gapped(a, base, lo, hi, end)[i..][..n] == a[base + i..base + i + n]
  {
    assert a[base..lo + 1][i..][..n] == a[base + i..base + i + n];
  }

  lemma AroundUpdate(l: seq<Scrap>, i: nat, k: nat, s: Scrap)
    requires 1 <= k && i + k <= |l|
    ensures l[i := s][..i] == l[..i] && l[i := s][i + k..] == l[i + k..]
  {
  }

  class Parser {
    const table: Table
    const tokMemEnd: nat
    const tokStartEnd: nat

    var scrapInfo: array<Scrap>
    var scrapBase: nat
    var scrapPtr: nat
    var pp: int
    var loPtr: int
    var hiPtr: int

    var tokMem: seq<Token>
    var tokStart: seq<nat>
    var initMathness: Mathness
    var curMathness: Mathness

    /** A parser for the scraps from `scrapBase` to `scrapPtr`; there is room for four more. */
    constructor (scrapInfo: array<Scrap>, scrapBase: nat, scrapPtr: nat, mem: Memory, table: Table,
                 tokMemEnd: nat, tokStartEnd: nat)
      requires 1 <= scrapBase <= scrapPtr && scrapPtr + 4 < scrapInfo.Length
      ensures this.scrapInfo == scrapInfo && this.scrapBase == scrapBase && this.scrapPtr == scrapPtr
      ensures this.table == table && this.tokMemEnd == tokMemEnd && this.tokStartEnd == tokStartEnd
      ensures Pointers() && List() == scrapInfo[scrapBase..scrapPtr + 1] && pp == scrapBase
      ensures tokMem == mem.toks && tokStart == mem.starts
    {
      this.scrapInfo, this.scrapBase, this.scrapPtr := scrapInfo, scrapBase, scrapPtr;
      this.table, this.tokMemEnd, this.tokStartEnd := table, tokMemEnd, tokStartEnd;
      tokMem, tokStart := mem.toks, mem.starts;
      pp, loPtr, hiPtr := scrapBase, scrapBase - 1, scrapBase;
      initMathness, curMathness := MaybeMath, MaybeMath;
    }

    /** `scrap_base <= pp <= lo_ptr+1` and `lo_ptr < hi_ptr`. */
    ghost predicate Pointers()
      reads this
    {
      Gap() && scrapBase <= pp <= loPtr + 1
    }

    /** The gap lies between the scraps next to `pp` and those that wait. */
    ghost predicate Gap()
      reads this
    {
      scrapPtr + 4 < scrapInfo.Length && scrapBase <= loPtr + 1 <= hiPtr <= scrapPtr + 1
    }

    /** The scraps to the left of the gap and those to its right. */
    ghost function List(): (s: seq<Scrap>)
      requires Gap()
      reads this, scrapInfo
    {
      Gapped(scrapInfo[..], scrapBase, loPtr, hiPtr, scrapPtr + 1)
    }

    ghost function Memory(): ScrapTexts.Memory
      reads this
    {
      ScrapTexts.Memory(tokMem, tokStart)
    }

    ghost function State(): Config
      requires Pointers()
      reads this, scrapInfo
    {
      Config(List(), pp - scrapBase, Memory())
    }

    ghost predicate Valid()
      reads this, scrapInfo
    {
      Pointers() && SoundTable(table) && State().Valid()
    }

    /** The category of the scrap `i` places after `pp` may be read from the array. */
    ghost predicate Fetched()
      requires Pointers()
      reads this, scrapInfo
    {
      && (loPtr < pp + 3 ==> hiPtr == scrapPtr + 1)
      && forall i | loPtr < i <= pp + 3 :: scrapInfo[i].cat.Zero?
    }

    /** Move the first waiting scrap across the gap. */
    method MoveOne()
      requires Pointers() && hiPtr <= scrapPtr
      modifies `loPtr, `hiPtr, scrapInfo
      ensures Pointers() && List() == old(List()) && loPtr == old(loPtr) + 1 && hiPtr == old(hiPtr) + 1
    {
      ghost var a := scrapInfo[..];
      MoveGap(a, scrapBase, loPtr, hiPtr, scrapPtr + 1);
      loPtr := loPtr + 1;
      scrapInfo[loPtr] := scrapInfo[hiPtr];
      assert scrapInfo[..] == a[loPtr := a[hiPtr]];
      hiPtr := hiPtr + 1;
    }

    /** Bring waiting scraps across the gap until three stand to the right of `pp`. */
    method BringUp()
      requires Pointers() && loPtr < pp + 3
      modifies `loPtr, `hiPtr, scrapInfo
      ensures Pointers() && List() == old(List())
      ensures loPtr < pp + 3 ==> hiPtr == scrapPtr + 1
      ensures loPtr <= pp + 3
    {
      while hiPtr <= scrapPtr && loPtr != pp + 3
        invariant Pointers() && loPtr <= pp + 3 && List() == old(List())
        decreases scrapPtr - hiPtr
      {
        MoveOne();
      }
    }

    /** Nothing stands beyond the last scrap. */
    method ClearAbove()
      requires Pointers() && loPtr <= pp + 3 && (loPtr < pp + 3 ==> hiPtr == scrapPtr + 1)
      modifies scrapInfo
      ensures List() == old(List()) && Fetched()
    {
      var i := loPtr + 1;
      while i <= pp + 3
        invariant loPtr < i <= pp + 4 && Pointers() && List() == old(List())
        invariant forall n | loPtr < n < i :: scrapInfo[n].cat.Zero?
      {
        WriteGap(scrapInfo[..], scrapBase, loPtr, scrapPtr + 1, i, scrapInfo[i].(cat := Zero));
        ghost var a := scrapInfo[..];
        scrapInfo[i] := scrapInfo[i].(cat := Zero);
        assert scrapInfo[..] == a[i := a[i].(cat := Zero)];
        i := i + 1;
      }
    }

    /** "Make sure the entries `pp` through `pp+3` of `cat` are defined." */
    method Fetch(ghost c: Config)
      requires Pointers() && State() == c
      modifies `loPtr, `hiPtr, scrapInfo
      ensures Pointers() && State() == c && Fetched()
    {
      if loPtr < pp + 3 {
        BringUp();
        ClearAbove();
      }
    }

    /** The text under construction: the tokens after the last frozen text. */
    ghost function Current(): Work
      requires |tokStart| > 0 && tokStart[|tokStart| - 1] <= |tokMem|
      reads this
    {
      Work(tokMem[tokStart[|tokStart| - 1]..], initMathness, curMathness)
    }

    ghost predicate Open()
      reads this
    {
      |tokStart| > 0 && tokStart[|tokStart| - 1] <= |tokMem|
    }

    method App(a: Token)
      requires Open()
      modifies `tokMem
      ensures Open() && tokMem == old(tokMem) + [a] && Current() == Append(old(Current()), a)
    {
      tokMem := tokMem + [a];
    }

    method AppAll(a: seq<Token>)
      requires Open()
      modifies `tokMem
      ensures Open() && tokMem == old(tokMem) + a
      ensures Current() == old(Current()).(toks := old(Current()).toks + a)
    {
      for i := 0 to |a|
        invariant Open() && tokMem == old(tokMem) + a[..i]
        invariant Current() == old(Current()).(toks := old(Current()).toks + a[..i])
      {
        assert a[..i + 1] == a[..i] + [a[i]];
        App(a[i]);
      }
      assert a[..|a|] == a;
    }

    /** The math shift that `big_app` and `big_app1` put before something definite. */
    method EnterMode(mode: Mathness)
      requires Open() && !mode.MaybeMath?
      modifies `tokMem, `initMathness, `curMathness
      ensures Open() && old(tokMem) <= tokMem && Current() == Shift(old(Current()), mode)
    {
      if curMathness.MaybeMath? {
        initMathness := mode;
      } else if mode.NoMath? && curMathness.YesMath? {
        AppAll(LEAVE_MATH);
      } else if mode.YesMath? && curMathness.NoMath? {
        AppAll(ENTER_MATH);
      }
      curMathness := mode;
      assert old(Current()).toks + [] == old(Current()).toks;
    }

    method BigApp(a: Code)
      requires Open()
      modifies `tokMem, `initMathness, `curMathness
      ensures Open() && old(tokMem) <= tokMem && Current() == ScrapMachine.BigApp(old(Current()), a)
    {
      EnterMode(if OutsideMath(a) then NoMath else YesMath);
      App(Chr(a));
    }

    method BigApp1(i: nat)
      requires Open() && i < scrapInfo.Length
      modifies `tokMem, `initMathness, `curMathness
      ensures Open() && old(tokMem) <= tokMem
      ensures Current() == ScrapMachine.BigApp1(old(Current()), scrapInfo[i])
    {
      var s := scrapInfo[i];
      if !s.left.MaybeMath? {
        EnterMode(s.left);
        curMathness := s.right;
      }
      App(TextRef(s.text));
    }

    /** Carry out the instructions of a production, where `scraps[i]` stands at `pp+i`. */
    method Execute(ops: Ops, n: nat, ghost scraps: seq<Scrap>)
      requires Open() && Current() == Fresh
      requires 0 <= pp && pp + n <= scrapInfo.Length && n <= |scraps| && scraps[..n] == scrapInfo[pp..pp + n]
      requires SubsBelow(ops, n)
      modifies `tokMem, `initMathness, `curMathness
      ensures Open() && old(tokMem) <= tokMem && Current() == RunOps(ops, scraps)
    {
      match ops
      case New =>
      case Then(prev, op) =>
        Execute(prev, n, scraps);
        match op {
          case Sub(i) =>
            assert scraps[..n][i] == scrapInfo[pp..pp + n][i];
            BigApp1(pp + i);
          case Big(a) => BigApp(a);
          case Raw(a) => App(Chr(a));
          case Angle(ch) =>
            initMathness, curMathness := YesMath, YesMath;
            App(Chr(Glyph(ch)));
        }
    }
  
    // ----- Reserved words ------------------------------------------------------------------------

    /** `find_first_ident` */
    method FindFirstIdent(t: nat) returns (r: Option<nat>)
      requires Memory().Valid() && t < Memory().Count()
      ensures r == FirstIdent(Memory(), t)
      decreases t
    {
      var j := tokStart[t];
      while j < tokStart[t + 1]
        invariant tokStart[t] <= j <= tokStart[t + 1]
        invariant FirstIdentFrom(Memory(), t, j) == FirstIdent(Memory(), t)
      {
        match tokMem[j] {
          case Ident(_) => return Some(j);
          case Res(_) => return Some(j);
          case TextRef(u) =>
            RefersEarlier(t, j);
            var q := FindFirstIdent(u);
            if q.Some? { return q; }
          case InnerRef(u) =>
            RefersEarlier(t, j);
            var q := FindFirstIdent(u);
            if q.Some? { return q; }
          case Chr(c) => if c == Inserted { return None; }
          case Section(_) =>
        }
        j := j + 1;
      }
      return None;
    }

    lemma RefersEarlier(t: nat, j: nat)
      requires Memory().Valid() && t < Memory().Count() && tokStart[t] <= j < tokStart[t + 1] && IsRef(tokMem[j])
      ensures tokMem[j].text < t
    {
      var text := Memory().Text(t);
      assert RefersBelow(text, t);
      assert text[j - tokStart[t]] == tokMem[j];
    }
  
    lemma ScrapAt(i: nat)
      requires Pointers() && i < |List()|
      ensures var p := Place(scrapBase, loPtr, hiPtr, i); 0 <= p < scrapInfo.Length && scrapInfo[p] == List()[i]
      ensures Place(scrapBase, loPtr, hiPtr, i) <= scrapPtr
      ensures Place(scrapBase, loPtr, hiPtr, i + 1) ==
              if Place(scrapBase, loPtr, hiPtr, i) == loPtr then hiPtr else Place(scrapBase, loPtr, hiPtr, i) + 1
    {
    }

    /** Overwrite the scrap at position `p`, which has index `i`. */
    method PutScrap(p: int, s: Scrap, ghost i: nat)
      requires Gap() && i < |List()| && p == Place(scrapBase, loPtr, hiPtr, i)
      modifies scrapInfo
      ensures 0 <= p < scrapInfo.Length && scrapInfo[p] == s && List() == old(List())[i := s]
    {
      ghost var a := scrapInfo[..];
      WriteScrap(a, scrapBase, loPtr, hiPtr, scrapPtr + 1, i, s);
      scrapInfo[p] := s;
      assert scrapInfo[..] == a[p := s];
    }

    /** The assignments of one iteration of the loop of `make_reserved`. */
    method Retype(p: int, a: Token, ghost i: nat)
      requires Pointers() && i < |List()| && p == Place(scrapBase, loPtr, hiPtr, i) && 0 <= p < scrapInfo.Length
      requires scrapInfo[p].text < |tokStart| && tokStart[scrapInfo[p].text] < |tokMem|
      modifies `tokMem, scrapInfo
      ensures Pointers() && List() == old(List())[i := old(scrapInfo[p]).(cat := RawInt)]
      ensures tokMem == old(tokMem)[tokStart[old(scrapInfo[p]).text] := Reserved(a)]
    {
      var s := scrapInfo[p];
      PutScrap(p, s.(cat := RawInt), i);
      tokMem := tokMem[tokStart[s.text] := Reserved(a)];
    }

    /** One iteration of the loop of `make_reserved`. */
    method ReserveScrap(p: int, a: Token, ghost c: Config, ghost i: nat)
      requires Pointers() && State() == c && c.Valid() && i < |c.scraps| && p == Place(scrapBase, loPtr, hiPtr, i)
      modifies `tokMem, scrapInfo
      ensures Pointers() && State() == ReserveOne(c, a, i)
    {
      ScrapAt(i);
      if scrapInfo[p].cat.Exp? && tokMem[tokStart[scrapInfo[p].text]] == a {
        Retype(p, a, i);
      }
    }

    /** The loop of `make_reserved`, which visits the scraps from `p0` on, across the gap. */
    method ReserveAll(p0: int, a: Token, ghost c0: Config, ghost i0: nat)
      requires Pointers() && State() == c0 && c0.Valid()
      requires p0 == scrapBase + i0 && p0 <= loPtr && (a.Ident? || a.Res?)
      modifies `tokMem, scrapInfo
      ensures Pointers() && State() == ReserveFrom(c0, a, i0)
    {
      hide SoundTable, ReserveOne, Reserved;
      ghost var c, i := c0, i0;
      var p := p0;
      while p <= scrapPtr
        invariant Pointers() && State() == c && c.Valid()
        invariant i <= |c.scraps| && p == Place(scrapBase, loPtr, hiPtr, i)
        invariant ReserveFrom(c, a, i) == ReserveFrom(c0, a, i0)
        decreases |c.scraps| - i
      {
        ScrapAt(i);
        ghost var next := ReserveNext(c, a, i);
        ReserveScrap(p, a, c, i);
        c := next;
        if p == loPtr { p := hiPtr; } else { p := p + 1; }
        i := i + 1;
      }
      ReserveFromEnd(c, a);
    }

    /** `make_reserved`: every remaining expression that begins with the same identifier as the scrap at
        `p` becomes a type. */
    method MakeReserved(p: int, ghost c: Config, ghost i: nat)
      requires Pointers() && State() == c && c.Valid() && p == scrapBase + i && p <= loPtr
      modifies `tokMem, scrapInfo
      ensures Pointers() && State() == ScrapMachine.MakeReserved(c, i)
    {
      assert List()[i] == scrapInfo[p];
      var q := FindFirstIdent(scrapInfo[p].text);
      if q.Some? {
        var a := tokMem[q.value];
        ReserveFromValid(c, a, i);
        ReserveAll(p, a, c, i);
        tokMem := tokMem[q.value := Reserved(a)];
      }
    }
  
    // ----- Productions ---------------------------------------------------------------------------

    /** "Change `pp` to max(scrap_base, pp+d)", and then one less, because the loop adds one. */
    method MovePp(d: int)
      requires Gap()
      modifies `pp
      ensures Gap() && List() == old(List())
      ensures pp + 1 == scrapBase + (if old(pp) - scrapBase + d >= 0 then old(pp) - scrapBase + d else 0)
    {
      if pp + d >= scrapBase { pp := pp + d; } else { pp := scrapBase; }
      pp := pp - 1;
    }

    /** Shift the scraps from `j+k` to `lo_ptr` down to `j+1`. */
    method CopyDown(j: int, k: nat)
      requires 0 <= j && 1 <= k && j + k <= loPtr + 1 <= scrapInfo.Length
      modifies scrapInfo
      ensures MovedDown(old(scrapInfo[..]), scrapInfo[..], j, k, loPtr)
    {
      ghost var a := scrapInfo[..];
      var i, i1 := j + k, j + 1;
      while i <= loPtr
        invariant j + 1 <= i1 && i == i1 + k - 1 && i <= loPtr + 1
        invariant forall n | j < n < i1 :: scrapInfo[n] == a[n + k - 1]
        invariant forall n | 0 <= n <= j || i1 <= n < scrapInfo.Length :: scrapInfo[n] == a[n]
      {
        scrapInfo[i1] := scrapInfo[i];
        i, i1 := i + 1, i1 + 1;
      }
    }

    /** The scraps `j+1` to `j+k-1` disappear. */
    method ShiftDown(j: int, k: nat, ghost i: nat, ghost goal: seq<Scrap>)
      requires Gap() && j == scrapBase + i && 1 <= k && j + k <= loPtr + 1
      requires goal == List()[..i] + [scrapInfo[j]] + List()[i + k..]
      modifies `loPtr, scrapInfo
      ensures Gap() && loPtr == old(loPtr) - k + 1
      ensures List() == goal
    {
      ghost var a, l := scrapInfo[..], List();
      CloseUpAny(a, scrapBase, loPtr, hiPtr, scrapPtr + 1, i, j, k, goal);
      if k > 1 {
        CopyDown(j, k);
      }
      Retreat(k, scrapInfo[..], goal);
    }

    method Retreat(k: nat, ghost b: seq<Scrap>, ghost goal: seq<Scrap>)
      requires Gap() && 1 <= k && scrapBase + k <= loPtr + 1 && b == scrapInfo[..]
      requires Gapped(b, scrapBase, loPtr - k + 1, hiPtr, scrapPtr + 1) == goal
      modifies `loPtr
      ensures Gap() && loPtr == old(loPtr) - k + 1 && List() == goal
    {
      loPtr := loPtr - k + 1;
    }

    /** Scrap `j` gets the text under construction, and the next text is begun. */
    method PutText(j: int, s: Scrap, ghost i: nat)
      requires Gap() && i < |List()| && j == Place(scrapBase, loPtr, hiPtr, i)
      modifies `tokStart, scrapInfo
      ensures Gap() && 0 <= j < scrapInfo.Length && scrapInfo[j] == s && List() == old(List())[i := s]
      ensures tokStart == old(tokStart) + [|tokMem|]
    {
      PutScrap(j, s, i);
      tokStart := tokStart + [|tokMem|];
    }

    /** `reduce(j,k,c,d)`: the scraps `j` to `j+k-1` become one of category `cat`, whose text is the one
        under construction. */
    method Reduce(j: int, k: nat, cat: Cat, d: int, ghost i: nat, ghost goal: seq<Scrap>)
      requires Gap() && Open() && j == scrapBase + i && 1 <= k && j + k <= loPtr + 1
      requires goal == List()[..i] + [Scrap(cat, initMathness, curMathness, |tokStart| - 1)] + List()[i + k..]
      modifies `pp, `loPtr, `tokStart, scrapInfo
      ensures Gap() && loPtr == old(loPtr) - k + 1 && tokStart == old(tokStart) + [|tokMem|]
      ensures List() == goal
      ensures pp + 1 == scrapBase + (if old(pp) - scrapBase + d >= 0 then old(pp) - scrapBase + d else 0)
    {
      var s := Scrap(cat, initMathness, curMathness, |tokStart| - 1);
      AroundUpdate(List(), i, k, s);
      PutText(j, s, i);
      ShiftDown(j, k, i, goal);
      MovePp(d);
    }

    /** Build the text of a production from the scraps at and after `pp`. */
    method BuildText(r: Rule, ops: Ops)
      requires Valid() && pp + r.at + r.k <= loPtr + 1 && Current() == Fresh
      requires Forgets(ops) || CopiesInOrder(ops, r.at, r.at + r.k)
      modifies `tokMem, `initMathness, `curMathness
      ensures Open() && Current() == Built(old(State()), ops) && tokMem == old(tokMem) + Current().toks
    {
      ghost var scraps := List()[pp - scrapBase..];
      var n := r.at + r.k;
      if Forgets(ops) {
        assert SubsBelow(ops.prev, n);
      } else {
        CopiesSubsBelow(ops, r.at, n, n);
      }
      InFront(scrapInfo[..], scrapBase, loPtr, hiPtr, scrapPtr + 1, pp - scrapBase, n);
      assert scraps[..n] == scrapInfo[pp..pp + n];
      Execute(ops, n, scraps);
    }

    /** The configuration in which the loop of `translate` will go on, once it has added one to `pp`. */
    ghost predicate Before(c: Config)
      reads this, scrapInfo
    {
      && Gap() && scrapBase <= pp + 1 <= loPtr + 1
      && c.scraps == List() && c.pp == pp + 1 - scrapBase && c.mem == Memory()
    }

    /** A `squash` of one scrap. */
    method Recategorise(r: Rule, ghost next: Config)
      requires Valid() && pp + r.at <= loPtr && r.d <= 1 && next == ScrapMachine.Recategorise(State(), r)
      modifies `pp, scrapInfo
      ensures Before(next)
    {
      var j := pp + r.at;
      ghost var i: nat := (pp - scrapBase) + r.at;
      assert scrapInfo[j] == List()[i];
      PutScrap(j, scrapInfo[j].(cat := r.cat), i);
      MovePp(r.d);
    }

    /** Building a new text and reducing to it. */
    method Rebuild(r: Rule, ops: Ops, ghost next: Config)
      requires Valid() && pp + r.at + r.k <= loPtr + 1 && r.k >= 1 && r.d <= 1 && Current() == Fresh
      requires Forgets(ops) || CopiesInOrder(ops, r.at, r.at + r.k)
      requires State().pp + r.at + r.k <= |List()| && next == ScrapMachine.Rebuild(State(), r, ops)
      modifies `pp, `loPtr, `tokMem, `tokStart, `initMathness, `curMathness, scrapInfo
      ensures Before(next)
    {
      hide SoundTable, RunOps, Forgets, CopiesInOrder, Gapped;
      ghost var c := State();
      BuildText(r, ops);
      ghost var w, i := Current(), c.pp + r.at;
      assert next == Replace(c, r, w);
      Reduce(pp + r.at, r.k, r.cat, r.d, i, next.scraps);
      assert next.mem == Memory();
    }

    /** `make_reserved` where the production asks for it. */
    method Prepare(r: Rule, ghost c: Config, ghost next: Config)
      requires Pointers() && State() == c && c.Valid() && Current() == Fresh
      requires r.reserve.Some? ==> pp + r.reserve.value <= loPtr
      requires next == Prepared(c, r)
      modifies `tokMem, scrapInfo
      ensures Pointers() && State() == next && Current() == Fresh
    {
      if r.reserve.Some? { MakeReserved(pp + r.reserve.value, c, c.pp + r.reserve.value); }
      assert |tokMem| == |c.mem.toks|;
    }

    /** Apply production `r` at `pp`. */
    method ApplyRule(r: Rule, ghost next: Config)
      requires Valid() && Fits(State(), r) && pp + r.at + r.k <= loPtr + 1
      requires r.reserve.Some? ==> pp + r.reserve.value <= loPtr
      requires Current() == Fresh && next == Apply(State(), r)
      modifies `pp, `loPtr, `tokMem, `tokStart, `initMathness, `curMathness, scrapInfo
      ensures Before(next)
    {
      match r.effect {
        case Recat => Recategorise(r, next);
        case Build(ops) =>
          Prepare(r, State(), Prepared(State(), r));
          Rebuild(r, ops, next);
      }
    }

    // ----- The parser ----------------------------------------------------------------------------

    /** What `Translate` is given: the scraps in the array, none of them looked at yet. */
    ghost function Given(): Config
      requires scrapBase <= scrapPtr + 1 <= scrapInfo.Length
      reads this, scrapInfo
    {
      Config(scrapInfo[scrapBase..scrapPtr + 1], 0, Memory())
    }

    /** After `Fetch` the categories of the next four scraps may be read from the array. */
    lemma FetchedCat(i: nat)
      requires Pointers() && Fetched() && i <= 3
      ensures scrapInfo[pp + i].cat == State().Cat(i)
    {
    }

    /** The production for the four categories at `pp`. */
    method Select(ghost c: Config) returns (m: Option<Rule>)
      requires Pointers() && Fetched() && State() == c
      ensures m == Production(c, table)
    {
      FetchedCat(0);
      FetchedCat(1);
      FetchedCat(2);
      FetchedCat(3);
      m := table(scrapInfo[pp].cat, scrapInfo[pp + 1].cat, scrapInfo[pp + 2].cat, scrapInfo[pp + 3].cat);
    }

    /** A production that fits concerns scraps that have been fetched. */
    lemma FitsFetched(r: Rule)
      requires Pointers() && Fetched() && Fits(State(), r)
      ensures pp + r.at + r.k <= loPtr + 1
      ensures r.reserve.Some? ==> pp + r.reserve.value <= loPtr
    {
      assert |List()| == loPtr + 1 - scrapBase + (scrapPtr + 1 - hiPtr);
    }

    method Advance(ghost next: Config)
      requires Before(next)
      modifies `pp
      ensures Pointers() && State() == next
    {
      pp := pp + 1;
    }

    /** The next configuration of the rewriting machine, and why the run goes on from there. */
    lemma Next(c: Config, m: Option<Rule>) returns (next: Config)
      requires SoundTable(table) && c.Valid() && c.pp < |c.scraps| && m == Production(c, table)
      ensures m.Some? ==> Fits(c, m.value) && next == Apply(c, m.value)
      ensures m.None? ==> next == c.(pp := c.pp + 1)
      ensures next.Valid() && Descends(c, next) && Run(c, table) == Run(next, table)
    {
      RunStep(c, table);
      StepDescends(c, table);
      StepByRule(c, table);
      next := Step(c, table);
    }

    /** Apply the selected production, if any, and go on to the next position. */
    method Produce(m: Option<Rule>, ghost c: Config, ghost next: Config)
      requires Pointers() && SoundTable(table) && State() == c && c.Valid()
      requires pp <= loPtr && Fetched() && Current() == Fresh
      requires m.Some? ==> Fits(c, m.value) && next == Apply(c, m.value)
      requires m.None? ==> next == c.(pp := c.pp + 1)
      modifies `pp, `loPtr, `tokMem, `tokStart, `initMathness, `curMathness, scrapInfo
      ensures Pointers() && State() == next
    {
      if m.Some? {
        FitsFetched(m.value);
        ApplyRule(m.value, next);
      }
      Advance(next);
    }

    /** Select a production and apply it. */
    method Rewrite(ghost c: Config, ghost m: Option<Rule>, ghost next: Config)
      requires Pointers() && SoundTable(table) && State() == c && c.Valid() && m == Production(c, table)
      requires pp <= loPtr && Fetched()
      requires m.Some? ==> Fits(c, m.value) && next == Apply(c, m.value)
      requires m.None? ==> next == c.(pp := c.pp + 1)
      modifies `pp, `loPtr, `tokMem, `tokStart, `initMathness, `curMathness, scrapInfo
      ensures Pointers() && State() == next
    {
      hide SoundTable, Apply, Fits, Production;
      initMathness, curMathness := MaybeMath, MaybeMath;
      var r := Select(c);
      assert r == m;
      Produce(r, c, next);
    }

    /** One iteration of the loop of `translate`. */
    method Iterate(ghost c: Config) returns (ghost next: Config)
      requires Pointers() && SoundTable(table) && State() == c && c.Valid()
      requires pp <= loPtr && Fetched() && c.pp < |c.scraps|
      modifies `pp, `loPtr, `tokMem, `tokStart, `initMathness, `curMathness, scrapInfo
      ensures Pointers() && State() == next && next.Valid()
      ensures Descends(c, next) && Run(c, table) == Run(next, table)
    {
      next := Next(c, Production(c, table));
      Rewrite(c, Production(c, table), next);
    }

    /** The loop of `translate`: rewrite until no production applies at or after `pp`.  The result false
        stands for `overflow`. */
    method Parse(ghost given: Config) returns (ok: bool)
      requires Pointers() && SoundTable(table) && State() == given && given.Valid()
      modifies `pp, `loPtr, `hiPtr, `tokMem, `tokStart, `initMathness, `curMathness, scrapInfo
      ensures Pointers()
      ensures ok <==> Roomy(Run(given, table).mem)
      ensures ok ==> State() == Run(given, table) && State().Valid() && hiPtr == scrapPtr + 1
    {
      ghost var c := given;
      while true
        invariant Pointers() && SoundTable(table) && State() == c && c.Valid()
        invariant Run(c, table) == Run(given, table)
        decreases |c.scraps|, Height(c.scraps), |c.scraps| - c.pp
      {
        Fetch(c);
        RoomyBefore(c, given);
        if |tokMem| + SAFE_TOK_INCR > tokMemEnd { return false; }
        if |tokStart| - 1 + SAFE_TEXT_INCR > tokStartEnd { return false; }
        if pp > loPtr { break; }
        c := Iterate(c);
      }
      RunEnd(c, table);
      return true;
    }

    /** The room that every iteration of `translate` asks for. */
    ghost predicate Roomy(m: ScrapTexts.Memory) {
      |m.toks| + SAFE_TOK_INCR <= tokMemEnd && |m.starts| - 1 + SAFE_TEXT_INCR <= tokStartEnd
    }

    /** The memory only grows, so that room at the end of a run is room all the time. */
    lemma RoomyBefore(c: Config, given: Config)
      requires SoundTable(table) && c.Valid() && given.Valid() && Run(c, table) == Run(given, table)
      ensures Roomy(Run(given, table).mem) ==> Roomy(c.mem)
    {
      hide SoundTable;
      RunValid(c, table);
    }

    /** `translate`: rewrite the scraps as long as productions apply, and return the text of all
        remaining scraps; None stands for `overflow`, which happens exactly when the memories do not have
        room for the result. */
    method Translate() returns (r: Option<nat>)
      requires scrapBase <= scrapPtr + 1 && scrapPtr + 4 < scrapInfo.Length
      requires SoundTable(table) && Given().Valid()
      modifies `pp, `loPtr, `hiPtr, `tokMem, `tokStart, `initMathness, `curMathness, scrapInfo
      ensures var e := Run(old(Given()), table);
              && (r.Some? <==> Roomy(e.mem) && |Finish(e).toks| + 6 <= tokMemEnd)
              && (r.Some? ==> Memory() == Finish(e) && r.value == e.mem.Count())
    {
      ghost var given := Given();
      pp := scrapBase;
      loPtr := pp - 1;
      hiPtr := pp;
      assert State() == given;
      var ok := Parse(given);
      if !ok { return None; }
      r := Collect(Run(given, table));
    }

    method EmitScrap(s: Scrap, first: bool)
      requires Open()
      modifies `tokMem
      ensures Open() && tokMem == WrapScrap(old(tokMem), s, first)
    {
      ghost var ts := tokMem;
      WrapParts(ts, s, first);
      if !first { App(Chr(Glyph(' '))); }
      if s.left.YesMath? { App(Chr(Glyph('$'))); }
      assert tokMem == Opening(ts, s, first);
      App(TextRef(s.text));
      if s.right.YesMath? { App(Chr(Glyph('$'))); }
    }

    /** "Combine the irreducible scraps that remain." */
    method Collect(ghost c: Config) returns (r: Option<nat>)
      requires Pointers() && State() == c && c.Valid() && hiPtr == scrapPtr + 1
      modifies `tokMem, `tokStart
      requires Roomy(c.mem)
      ensures r.Some? <==> |Finish(c).toks| + 6 <= tokMemEnd
      ensures r.Some? ==> Memory() == Finish(c) && r.value == c.mem.Count()
    {
      ghost var scraps, toks := List(), tokMem;
      var j := scrapBase;
      ghost var i: nat := 0;
      while j <= loPtr
        invariant j == scrapBase + i && i <= |scraps| && Gap() && Open() && List() == scraps
        invariant tokStart == old(tokStart) && tokMem == toks + WrapAll(scraps[..i]) && |tokMem| + 6 <= tokMemEnd
      {
        assert scrapInfo[j] == scraps[i];
        WrapNext(toks, scraps, i);
        EmitScrap(scrapInfo[j], j == scrapBase);
        if |tokMem| + 6 > tokMemEnd {
          WrapLonger(scraps, i + 1);
          return None;
        }
        j, i := j + 1, i + 1;
      }
      assert scraps[..i] == scraps;
      tokStart := tokStart + [|tokMem|];
      r := Some(|tokStart| - 2);
    }

    static lemma {:induction false} WrapLonger(scraps: seq<Scrap>, i: nat)
      requires i <= |scraps|
      ensures |WrapAll(scraps[..i])| <= |WrapAll(scraps)|
    {
      var n := |scraps| - 1;
      if i == |scraps| {
        assert scraps[..i] == scraps;
      } else {
        assert scraps[..n][..i] == scraps[..i];
        WrapLonger(scraps[..n], i);
      }
    }

    static lemma WrapNext(toks: seq<Token>, scraps: seq<Scrap>, i: nat)
      requires i < |scraps|
      ensures toks + WrapAll(scraps[..i + 1]) == WrapScrap(toks + WrapAll(scraps[..i]), scraps[i], i == 0)
    {
      assert scraps[..i + 1][..i] == scraps[..i];
    }
  }
}
