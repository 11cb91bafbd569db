/** CWEAVE's output buffer as it is: characters are collected in an array, and what follows a break moves to
    its beginning. */
module LineBuffer {
  import opened Wrappers
  import opened LineBreaks

  lemma TrimLonger(s: seq<Byte>, n: nat)
    requires n < |s| && s[n] == SPACE
    ensures TrimEnd(s[..n + 1]) == TrimEnd(s[..n])
  {
    assert s[..n + 1][..n] == s[..n];
  }

  lemma TrimDone(s: seq<Byte>, n: nat)
    requires n <= |s| && (n == 0 || s[n - 1] != SPACE)
    ensures TrimEnd(s[..n]) == s[..n]
  {
  }

  class OutBuffer {
    const outBuf: array<Byte>
    var outPtr: nat
    var lines: seq<Line>

    /** The backslash in front of the line, and no percent signs in it. */
    ghost predicate Valid()
      reads this, outBuf
    {
      && outBuf.Length == LINE_LENGTH + 1 && outPtr <= LINE_LENGTH && outBuf[0] == BACKSLASH
      && forall i | 1 <= i <= outPtr :: outBuf[i] != PERCENT
    }

    ghost function Waiting(): (s: seq<Byte>)
      requires Valid()
      reads this, outBuf
      ensures |s| == outPtr && forall i | 0 <= i < outPtr :: s[i] == outBuf[i + 1]
    {
      outBuf[1..outPtr + 1]
    }

    ghost function State(): Output
      requires Valid()
      reads this, outBuf
    {
      Output(lines, Waiting())
    }

    constructor ()
      ensures Valid() && fresh(outBuf) && State() == Output([], [99])
    {
      outBuf := new Byte[LINE_LENGTH + 1];
      outPtr, lines := 1, [];
      new;
      outBuf[0], outBuf[1] := BACKSLASH, 99;
    }

    /** The end of the characters up to `b` without the spaces at their end. */
    method SkipSpaces(b: nat) returns (j: nat)
      requires Valid() && b <= outPtr
      ensures j <= b && Waiting()[..j] == TrimEnd(Waiting()[..b])
    {
      j := b;
      while j > 0 && outBuf[j] == SPACE
        invariant j <= b && TrimEnd(Waiting()[..j]) == TrimEnd(Waiting()[..b])
      {
        TrimLonger(Waiting(), j - 1);
        j := j - 1;
      }
      TrimDone(Waiting(), j);
    }

    /** Looks for a percent sign that is not escaped among the first `j` characters; there is none. */
    method FindComment(j0: nat) returns (found: bool)
      requires Valid() && j0 <= outPtr
      ensures !found
    {
      found := false;
      var j := j0;
      while j > 0 && !found
        invariant j <= j0 && !found
      {
        var escaped := j > 1 && outBuf[j - 1] == BACKSLASH;
        found := outBuf[j] == PERCENT && !escaped;
        j := j - 1;
      }
    }

    /** The characters after position `b` move to the beginning. */
    method MoveDown(b: nat)
      requires Valid() && b <= outPtr
      modifies outBuf, `outPtr
      ensures Valid() && Waiting() == old(Waiting())[b..]
    {
      var i := 1;
      while b + i <= outPtr
        invariant 1 <= i && b + i <= outPtr + 1 && outPtr == old(outPtr) && outBuf.Length == LINE_LENGTH + 1 && outBuf[0] == BACKSLASH
        invariant forall k | 1 <= k < i :: outBuf[k] == old(outBuf[..])[b + k]
        invariant forall k | b + i <= k <= outPtr :: outBuf[k] == old(outBuf[..])[k]
      {
        outBuf[i] := outBuf[b + i];
        i := i + 1;
      }
      outPtr := outPtr - b;
    }

    /** `flush_buffer`: the characters up to `b` are written, without spaces at the end or with an added
        percent sign. */
    method FlushBuffer(b: nat, perCent: bool, carryover: bool)
      requires Valid() && b <= outPtr
      modifies outBuf, `outPtr, `lines
      ensures Valid()
      ensures var w := old(Waiting());
              State() == Output(old(lines) + [Line(if perCent then w[..b] else TrimEnd(w[..b]), perCent)], w[b..])
    {
      var j := b;
      if !perCent { j := SkipSpaces(b); }
      assert outBuf[1..j + 1] == Waiting()[..j];
      lines := lines + [Line(outBuf[1..j + 1], perCent)];
      if carryover {
        var found := FindComment(j);
        assert !found;
      }
      MoveDown(b);
    }

    /** `break_out`: the search for a good place goes from the end of the line to its beginning. */
    method BreakOut()
      requires Valid() && outPtr > 0
      modifies outBuf, `outPtr, `lines
      ensures Valid()
      ensures var (l, rest) := Broken(old(Waiting())); State() == Output(old(lines) + [l], rest)
    {
      ghost var w := Waiting();
      var k: nat := outPtr;
      assert w[..|w|] == w;
      while k > 0
        invariant k <= outPtr && LastGood(w, |w|) == LastGood(w, k) && Waiting() == w && lines == old(lines) && Valid()
        decreases k
      {
        assert outBuf[k] == w[k - 1] && outBuf[k - 1] == if k == 1 then BACKSLASH else w[k - 2];
        if outBuf[k] == SPACE {
          FlushBuffer(k, false, true);
          return;
        }
        if outBuf[k] == BACKSLASH && outBuf[k - 1] != BACKSLASH {
          FlushBuffer(k - 1, true, true);
          return;
        }
        k := k - 1;
      }
      FlushBuffer(outPtr - 1, true, true);
    }

    /** `out(c)` for a character that is not a percent sign */
    method Out(c: Byte)
      requires Valid() && c != PERCENT
      modifies outBuf, `outPtr, `lines
      ensures Valid() && State() == Put(old(State()), c)
    {
      hide Broken;
      if outPtr >= LINE_LENGTH {
        BrokenContent(Waiting());
        BreakOut();
      }
      Append(c);
    }

    method Append(c: Byte)
      requires Valid() && outPtr < LINE_LENGTH && c != PERCENT
      modifies outBuf, `outPtr
      ensures Valid() && Waiting() == old(Waiting()) + [c]
    {
      outPtr := outPtr + 1;
      outBuf[outPtr] := c;
    }

    /** `finish_line`; `blank` says whether the current input line is blank. */
    method FinishLine(blank: bool)
      requires Valid()
      modifies outBuf, `outPtr, `lines
      ensures Valid() && State() == Finished(old(State()), blank)
    {
      assert Waiting()[..outPtr] == Waiting();
      if outPtr > 0 {
        FlushBuffer(outPtr, false, false);
      } else if blank {
        FlushBuffer(0, false, false);
      }
    }

    /** A whole output: every line fits, and nothing but spaces is lost. */
    method Write(actions: seq<Action>)
      requires Valid() && Bounded(State()) && forall i | 0 <= i < |actions| && actions[i].Char? :: actions[i].c != PERCENT
      modifies outBuf, `outPtr, `lines
      ensures Valid() && State() == AfterAll(old(State()), actions)
      ensures Bounded(State()) && Content(State()) == old(Content(State())) + NonSpace(Chars(actions))
    {
      ghost var o := State();
      var rest := actions;
      while rest != []
        invariant Valid() && AfterAll(State(), rest) == AfterAll(o, actions)
        invariant forall i | 0 <= i < |rest| && rest[i].Char? :: rest[i].c != PERCENT
        decreases |rest|
      {
        match rest[0] {
          case Char(c) => Out(c);
          case EndLine(blank) => FinishLine(blank);
        }
        rest := rest[1..];
      }
      NothingLost(o, actions);
    }
  }
}
