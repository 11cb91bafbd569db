/** The routines that read the web file and the change file, line by line, as they run. */
module ChangeMerger {
  import opened Wrappers
  import opened ChangeFile
  import opened ChangeBlocks

  /** No line asks for another file to be read. */
  predicate NoIncludes(ls: seq<Line>) {
    forall i | 0 <= i < |ls| :: !Control(ls[i], I)
  }

  lemma AfterAfter(a: seq<Event>, b: seq<Event>, r: Run)
    ensures After(a, After(b, r)) == After(a + b, r)
  {
    assert a + (b + r.events) == a + b + r.events;
  }

  lemma AfterNothing(a: seq<Event>, r: Run)
    ensures After(a + [], r) == After(a, r) && After([], r) == r
  {
    assert a + [] == a && [] + r.events == r.events;
  }

  /** After the message about a control code among the lines to be matched, if `l` is one. */
  function Misplaced(log: seq<Event>, l: Line): seq<Event> {
    if Control(l, X) || Control(l, Z) then log + [Say(WhereIsY)] else log
  }

  lemma AtY(web: seq<Line>, change: seq<Line>, w: nat, c: nat, n: nat, log: seq<Event>, goal: Run)
    requires w <= |web| && c < |change| && Control(change[c], Y) && After(log, Matching(web, change, w, c, n)) == goal
    ensures After(if n > 0 then log + [Say(FailedToMatch(n))] else log, FromChange(web, change, w, c + 1)) == goal
  {
    AfterAfter(log, if n > 0 then [Say(FailedToMatch(n))] else [], FromChange(web, change, w, c + 1));
    AfterNothing(log, FromChange(web, change, w, c + 1));
  }

  lemma NoY(web: seq<Line>, change: seq<Line>, w: nat, n: nat, log: seq<Event>, goal: Run)
    requires w <= |web| && After(log, Matching(web, change, w, |change|, n)) == goal
    ensures After(log + [Say(EndedBeforeY)] + [Get([], false, w)], FromWeb(web, change, w, |change|)) == goal
  {
    AfterAfter(log, [Say(EndedBeforeY), Get([], false, w)], FromWeb(web, change, w, |change|));
    assert log + [Say(EndedBeforeY)] + [Get([], false, w)] == log + [Say(EndedBeforeY), Get([], false, w)];
  }

  lemma WebEnded(web: seq<Line>, change: seq<Line>, c: nat, n: nat, log: seq<Event>, goal: Run)
    requires c < |change| && !Control(change[c], Y) && After(log, Matching(web, change, |web|, c, n)) == goal
    ensures After(Misplaced(log, change[c]) + [Say(EndedDuringChange)], Run([], Folded(change[c]))) == goal
  {
    assert Misplaced(log, change[c]) == log + Misplaced([], change[c]);
    assert log + (Misplaced([], change[c]) + [Say(EndedDuringChange)]) == Misplaced(log, change[c]) + [Say(EndedDuringChange)] + [];
  }

  lemma WebGoesOn(web: seq<Line>, change: seq<Line>, w: nat, c: nat, n: nat, log: seq<Event>, goal: Run)
    requires w < |web| && c < |change| && !Control(change[c], Y) && After(log, Matching(web, change, w, c, n)) == goal
    ensures After(Misplaced(log, change[c]),
                  Matching(web, change, w + 1, c + 1, if web[w] == Folded(change[c]) then n else n + 1)) == goal
  {
    assert Misplaced(log, change[c]) == log + Misplaced([], change[c]);
    AfterAfter(log, Misplaced([], change[c]), Matching(web, change, w + 1, c + 1, if web[w] == Folded(change[c]) then n else n + 1));
  }

  /** After the message about a control code among the lines of a replacement, if `l` is one. */
  function Misleading(log: seq<Event>, l: Line): seq<Event> {
    if Control(l, X) || Control(l, Y) then log + [Say(WhereIsZ)] else log
  }

  lemma AtZ(web: seq<Line>, change: seq<Line>, w: nat, c: nat, log: seq<Event>, goal: Run)
    requires w <= |web| && c <= |change| && (c < |change| ==> Control(change[c], Z))
    requires After(log, FromChange(web, change, w, c)) == goal
    ensures var said, c' := if c < |change| then log else log + [Say(EndedWithoutZ)], if c < |change| then c + 1 else c;
            After(said + Priming(change, c'), FromWeb(web, change, w, Pending(change, c'))) == goal
  {
    if c < |change| {
      AfterAfter(log, Priming(change, c + 1), FromWeb(web, change, w, Pending(change, c + 1)));
    } else {
      var r := FromWeb(web, change, w, |change|);
      assert Priming(change, c) == [];
      AfterAfter(log, [Say(EndedWithoutZ)], r);
      AfterNothing(log + [Say(EndedWithoutZ)], r);
    }
  }

  lemma NotAtZ(web: seq<Line>, change: seq<Line>, w: nat, c: nat, log: seq<Event>, goal: Run)
    requires w <= |web| && c < |change| && !Control(change[c], Z) && After(log, FromChange(web, change, w, c)) == goal
    ensures After(Misleading(log, change[c]) + [Get(Folded(change[c]), true, c + 1)],
                  FromChange(web, change, w, c + 1)) == goal
  {
    var said, got := Misleading([], change[c]), [Get(Folded(change[c]), true, c + 1)];
    AfterAfter(log, said + got, FromChange(web, change, w, c + 1));
    assert log + (said + got) == log + said + got && Misleading(log, change[c]) == log + said;
  }

  /** A line of the web file that is not waited for. */
  lemma WebLine(web: seq<Line>, change: seq<Line>, w: nat, i: nat, log: seq<Event>, goal: Run)
    requires w < |web| && i <= |change| && (i < |change| ==> change[i] != [])
    requires After(log, FromWeb(web, change, w, i)) == goal
    ensures if i < |change| && web[w] == change[i] then After(log, Matching(web, change, w + 1, i + 1, 0)) == goal
            else After(log + [Get(web[w], false, w + 1)], FromWeb(web, change, w + 1, i)) == goal
  {
    if !(i < |change| && web[w] == change[i]) {
      AfterAfter(log, [Get(web[w], false, w + 1)], FromWeb(web, change, w + 1, i));
    }
  }

  /** Messages and nothing else have been added to the log. */
  ghost predicate OnlySays(before: seq<Event>, log: seq<Event>) {
    before <= log && forall i | |before| <= i < |log| :: log[i].Say?
  }

  lemma NothingSaid(log: seq<Event>)
    ensures OnlySays(log, log)
  {
  }

  lemma {:induction false} ComplaintsSay(change: seq<Line>, c: nat, x: nat)
    requires c <= x <= |change|
    ensures forall i | 0 <= i < |Complaints(change, c, x)| :: Complaints(change, c, x)[i].Say?
    decreases x - c
  {
    if c < x { ComplaintsSay(change, c + 1, x); }
  }

  lemma PrimingSays(log: seq<Event>, change: seq<Line>, c: nat)
    requires c <= |change|
    ensures OnlySays(log, log + Priming(change, c))
  {
    ComplaintsSay(change, c, FindX(change, c));
  }

  class Merger {
    const web: seq<Line>
    const change: seq<Line>
    /** How many lines of each file have been read. */
    var webRead: nat
    var changeRead: nat
    var changing: bool
    var curLine: nat
    var changeLine: nat
    var buffer: Line
    var changeBuffer: Line
    var inputHasEnded: bool
    /** What has been delivered and said so far. */
    var log: seq<Event>

    constructor (web: seq<Line>, change: seq<Line>)
      ensures this.web == web && this.change == change
      ensures webRead == 0 && changeRead == 0 && curLine == 0 && changeLine == 0 && !inputHasEnded && log == []
    {
      this.web, this.change := web, change;
      webRead, changeRead, changing, curLine, changeLine := 0, 0, true, 0, 0;
      buffer, changeBuffer, inputHasEnded, log := [], [], false, [];
    }

    /** `input_ln` on the change file. */
    method InputChange() returns (ok: bool)
      requires changeRead <= |change|
      modifies `changeRead, `changeLine, `buffer
      ensures changeLine == old(changeLine) + 1 && ok == (old(changeRead) < |change|)
      ensures ok ==> changeRead == old(changeRead) + 1 && buffer == change[old(changeRead)]
      ensures !ok ==> changeRead == old(changeRead) && buffer == []
    {
      changeLine := changeLine + 1;
      ok := changeRead < |change|;
      if ok {
        buffer := change[changeRead];
        changeRead := changeRead + 1;
      } else {
        buffer := [];
      }
    }

    /** `input_ln` on the web file. */
    method InputWeb() returns (ok: bool)
      requires webRead <= |web|
      modifies `webRead, `curLine, `buffer
      ensures curLine == old(curLine) + 1 && ok == (old(webRead) < |web|)
      ensures ok ==> webRead == old(webRead) + 1 && buffer == web[old(webRead)]
      ensures !ok ==> webRead == old(webRead)
    {
      curLine := curLine + 1;
      ok := webRead < |web|;
      if ok {
        buffer := web[webRead];
        webRead := webRead + 1;
      } else {
        buffer := [];
      }
    }

    /** The control code in the buffer becomes a small letter. */
    method Fold()
      modifies `buffer
      ensures buffer == Folded(old(buffer))
    {
      if |buffer| >= 2 && buffer[0] == AT { buffer := buffer[1 := Lower(buffer[1])]; }
    }

    method Tell(m: Message)
      modifies `log
      ensures log == old(log) + [Say(m)]
      ensures forall before :: OnlySays(before, old(log)) ==> OnlySays(before, log)
    {
      log := log + [Say(m)];
    }

    // ----- State ---------------------------------------------------------------------------------

    /** Line numbers count the lines read, as long as there are lines. */
    ghost predicate Counts()
      reads this
    {
      && webRead <= |web| && changeRead <= |change|
      && (changeRead < |change| ==> changeLine == changeRead) && (!inputHasEnded ==> curLine == webRead)
    }

    /** Line `i` of the change file, if there is one, is in the change buffer. */
    ghost predicate Waits(i: nat)
      reads this
    {
      && i <= |change| && changeBuffer == LineAt(change, i)
      && (if i < |change| then change[i] != [] && changeRead == i + 1 else changeRead == |change|)
      && Counts()
    }

    /** The line of the change file that is waited for. */
    ghost function Waited(): nat
      reads this
    {
      if changeBuffer == [] || changeRead == 0 then |change| else changeRead - 1
    }

    /** What will still happen. */
    ghost function Rest(): Run
      requires Stands()
      reads this
    {
      if inputHasEnded then Run([], changeBuffer)
      else if changing then FromChange(web, change, webRead, changeRead)
      else FromWeb(web, change, webRead, Waited())
    }

    ghost predicate Stands()
      reads this
    {
      Counts() && (inputHasEnded || changing || Waits(Waited()))
    }

    lemma Waiting(i: nat)
      requires Waits(i)
      ensures Waited() == i
    {
    }

    // ----- prime_the_change_buffer ---------------------------------------------------------------

    /** The first loop: up to a line that begins with `@x`. */
    method FindBlock() returns (found: bool)
      requires Counts()
      modifies `changeRead, `changeLine, `buffer, `log
      ensures Counts()
      ensures var c, x := old(changeRead), FindX(change, old(changeRead));
              && found == (x < |change|) && changeRead == (if found then x + 1 else x)
              && log == old(log) + Complaints(change, c, x)
    {
      ghost var c, x := changeRead, FindX(change, changeRead);
      ghost var goal := log + Complaints(change, c, x);
      while true
        invariant c <= changeRead <= x && Counts() && FindX(change, changeRead) == x
        invariant log + Complaints(change, changeRead, x) == goal
        decreases |change| - changeRead
      {
        ghost var now, log0 := changeRead, log;
        var ok := InputChange();
        if !ok { return false; }
        if |buffer| >= 2 && buffer[0] == AT {
          Fold();
          if buffer[1] == X { return true; }
          if buffer[1] == Y || buffer[1] == Z || buffer[1] == I { Tell(MissingX); }
        }
        OneComplaint(log0, now, x);
      }
    }

    lemma OneComplaint(log0: seq<Event>, c: nat, x: nat)
      requires c < x <= |change|
      ensures log0 + Complaints(change, c, x) ==
              (if Control(change[c], Y) || Control(change[c], Z) || Control(change[c], I) then log0 + [Say(MissingX)] else log0)
              + Complaints(change, c + 1, x)
    {
    }

    /** `prime_the_change_buffer` */
    method Prime()
      requires Counts()
      modifies `changeRead, `changeLine, `buffer, `changeBuffer, `log
      ensures Waits(Pending(change, old(changeRead)))
      ensures log == old(log) + Priming(change, old(changeRead))
    {
      hide FindX;
      ghost var c, log0 := changeRead, log;
      changeBuffer := [];
      var found := FindBlock();
      if !found {
        assert log0 + (Complaints(change, c, |change|) + []) == log;
        return;
      }
      ghost var x: nat := changeRead;
      while true
        invariant x <= changeRead <= SkipEmpty(change, x) == SkipEmpty(change, changeRead) && Counts()
        invariant changeBuffer == [] && log == log0 + Complaints(change, c, x - 1)
        decreases |change| - changeRead
      {
        var ok := InputChange();
        if !ok {
          Tell(EndedAfterX);
          assert log0 + (Complaints(change, c, x - 1) + [Say(EndedAfterX)]) == log;
          return;
        }
        if buffer != [] { break; }
      }
      changeBuffer := buffer;
      assert log0 + (Complaints(change, c, x - 1) + []) == log;
    }

    /** `reset_input` */
    method Reset()
      requires NoIncludes(web) && NoIncludes(change)
      requires webRead == 0 && changeRead == 0 && curLine == 0 && changeLine == 0 && !inputHasEnded && log == []
      modifies this
      ensures Stands() && !inputHasEnded && After(log, Rest()) == Merged(web, change)
    {
      changing := true;
      Prime();
      changing := !changing;
      Waiting(Pending(change, 0));
      assert [] + Priming(change, 0) == Priming(change, 0);
    }

    // ----- check_change --------------------------------------------------------------------------

    /** The line in the buffer is the one waited for: the block is matched up to its `@y`. */
    method CheckChange(ghost goal: Run)
      requires Counts() && !changing && !inputHasEnded && buffer == changeBuffer
      requires After(log, Matching(web, change, webRead, changeRead, 0)) == goal
      modifies `webRead, `changeRead, `changing, `curLine, `changeLine, `buffer, `changeBuffer, `inputHasEnded, `log
      ensures Stands()
      ensures webRead >= old(webRead) && OnlySays(old(log), log)
      ensures inputHasEnded || changing ==> After(log, Rest()) == goal
      ensures !inputHasEnded && !changing ==> buffer == [] && After(log + [Get([], false, webRead)], Rest()) == goal
    {
      NothingSaid(log);
      hide FromWeb, Matching, FromChange, After, OnlySays;
      var n := 0;
      while true
        invariant Counts() && !inputHasEnded && webRead >= old(webRead) && OnlySays(old(log), log)
        invariant After(log, Matching(web, change, webRead, changeRead, n)) == goal
        decreases |change| - changeRead
      {
        ghost var c, log0, n0 := changeRead, log, n;
        changing := true;
        var ok := InputChange();
        if !ok {
          Tell(EndedBeforeY);
          changeBuffer, changing := [], false;
          NoY(web, change, webRead, n, log0, goal);
          return;
        }
        if |buffer| > 1 && buffer[0] == AT {
          Fold();
          if buffer[1] == X || buffer[1] == Z {
            Tell(WhereIsY);
          } else if buffer[1] == Y {
            if n > 0 { Tell(FailedToMatch(n)); }
            AtY(web, change, webRead, c, n, log0, goal);
            return;
          }
        }
        changeBuffer := buffer;
        changing := false;
        ok := InputWeb();
        if !ok {
          Tell(EndedDuringChange);
          inputHasEnded := true;
          WebEnded(web, change, c, n, log0, goal);
          return;
        }
        if buffer != changeBuffer { n := n + 1; }
        WebGoesOn(web, change, webRead - 1, c, n0, log0, goal);
      }
    }

    // ----- get_line ------------------------------------------------------------------------------

    /** The next line of the change file, up to the `@z` that ends the block. */
    method ReadChange(ghost goal: Run)
      requires Counts() && changing && !inputHasEnded && After(log, FromChange(web, change, webRead, changeRead)) == goal
      modifies `changeRead, `changing, `changeLine, `buffer, `changeBuffer, `log
      ensures Counts() && (!changing ==> Waits(Waited())) && OnlySays(old(log), log)
      ensures if changing then
                changeLine == changeRead
                && After(log + [Get(buffer, true, changeLine)], FromChange(web, change, webRead, changeRead)) == goal
              else After(log, FromWeb(web, change, webRead, Waited())) == goal
    {
      hide FromWeb, Matching, FromChange, After, Pending, Priming;
      ghost var c, log0 := changeRead, log;
      var ok := InputChange();
      if !ok {
        Tell(EndedWithoutZ);
        buffer := [AT, Z];
      }
      if buffer != [] && buffer[0] == AT {
        Fold();
        if |buffer| > 1 && (buffer[1] == X || buffer[1] == Y) {
          Tell(WhereIsZ);
        } else if |buffer| > 1 && buffer[1] == Z {
          AtZ(web, change, webRead, c, log0, goal);
          PrimingSays(log, change, changeRead);
          Prime();
          changing := !changing;
          Waiting(Pending(change, if ok then c + 1 else c));
          return;
        }
      }
      NotAtZ(web, change, webRead, c, log0, goal);
    }

    /** The next line of the web file, and the check for a change. */
    method ReadWeb(ghost goal: Run)
      requires Stands() && !changing && !inputHasEnded && After(log, Rest()) == goal
      modifies `webRead, `changeRead, `changing, `curLine, `changeLine, `buffer, `changeBuffer, `inputHasEnded, `log
      ensures Stands() && (inputHasEnded || webRead > old(webRead)) && OnlySays(old(log), log)
      ensures inputHasEnded || changing ==> After(log, Rest()) == goal
      ensures !inputHasEnded && !changing ==> After(log + [Get(buffer, false, curLine)], Rest()) == goal
    {
      hide Matching, FromChange, After;
      ghost var i, w := Waited(), webRead;
      var ok := InputWeb();
      if !ok {
        inputHasEnded := true;
        return;
      }
      WebLine(web, change, w, i, log, goal);
      if |buffer| == |changeBuffer| && changeBuffer != [] && buffer == changeBuffer {
        CheckChange(goal);
      } else {
        Waiting(i);
      }
    }

    /** `get_line`: one more line is delivered, with its file and its number there, or the input has ended. */
    method GetLine(ghost goal: Run) returns (more: bool)
      requires Stands() && !inputHasEnded && After(log, Rest()) == goal
      modifies this
      ensures Stands() && After(log, Rest()) == goal && more == !inputHasEnded
      ensures if more then
                |log| > 0 && OnlySays(old(log), log[..|log| - 1])
                && log[|log| - 1] == Get(buffer, changing, if changing then changeLine else curLine)
              else OnlySays(old(log), log)
    {
      hide FromWeb, Matching, FromChange, After;
      ghost var log0 := log;
      while true
        invariant Stands() && !inputHasEnded && After(log, Rest()) == goal && OnlySays(log0, log)
        decreases |web| - webRead
      {
        if changing {
          ReadChange(goal);
          if changing {
            log := log + [Get(buffer, true, changeLine)];
            return true;
          }
        }
        ReadWeb(goal);
        if inputHasEnded { return false; }
        if !changing {
          log := log + [Get(buffer, false, curLine)];
          return true;
        }
      }
    }

    /** `check_complete`: whether it says that a change was not matched. */
    method CheckComplete() returns (complains: bool)
      ensures complains <==> changeBuffer != []
    {
      complains := changeBuffer != [];
    }

    /** All lines up to the end of the input: they are those of the merge, and so is what is left. */
    method ReadAll() returns (complains: bool)
      requires NoIncludes(web) && NoIncludes(change)
      requires webRead == 0 && changeRead == 0 && curLine == 0 && changeLine == 0 && !inputHasEnded && log == []
      modifies this
      ensures log == Merged(web, change).events && (complains <==> Merged(web, change).left != [])
    {
      Reset();
      ghost var goal := Merged(web, change);
      var more := true;
      while more
        invariant Stands() && After(log, Rest()) == goal && more == !inputHasEnded
        decreases more, |goal.events| - |log|
      {
        more := GetLine(goal);
      }
      complains := CheckComplete();
    }
  }

  /** The whole merge.  For a well-formed change file the lines are those of the pure merge, and there is a complaint
      exactly if some block was not matched, unless the web file ended just when an empty line was to be matched. */
  method Merge(web: seq<Line>, change: seq<Line>) returns (log: seq<Event>, complains: bool)
    requires NoIncludes(web) && NoIncludes(change)
    ensures log == Merged(web, change).events && (complains <==> Merged(web, change).left != [])
    ensures forall blocks: seq<Block>, tail: seq<Line> ::
              AllWellFormed(blocks) && Without(tail, X) && change == FileOf(blocks, tail) ==>
                && Gets(log) == Applied(web, 0, blocks, 0).events
                && (complains <==> Matched(web, 0, blocks) < |blocks| && !EndsAtEmpty(web, 0, blocks))
  {
    var merger := new Merger(web, change);
    complains := merger.ReadAll();
    log := merger.log;
    forall blocks: seq<Block>, tail: seq<Line>
      | AllWellFormed(blocks) && Without(tail, X) && change == FileOf(blocks, tail)
      ensures Gets(log) == Applied(web, 0, blocks, 0).events
      ensures complains <==> Matched(web, 0, blocks) < |blocks| && !EndsAtEmpty(web, 0, blocks)
    {
      MergedBlocks(web, blocks, tail);
      LeftOfFile(web, blocks, tail);
    }
  }
}
