/** The section names as their users see them: what a lookup answers and how it changes the names, and
    what holds over any sequence of lookups. */
module NameBook {
  import opened Wrappers
  import opened NameOrder
  import opened NameTree
  import opened NamePieces

  /** The shortest abbreviation met so far, the text as far as it is known, and whether that is all. */
  datatype Name = Name(key: seq<Byte>, text: seq<Byte>, complete: bool)

  type Book = map<nat, Name>

  ghost function KeysOf(book: Book): Keys {
    map n | n in book :: book[n].key
  }

  /** No abbreviation is a prefix of another one, and each is a prefix of its text. */
  ghost predicate ValidBook(book: Book) {
    && (forall x, y | x in book && y in book && x != y :: !Compatible(book[x].key, book[y].key))
    && (forall n | n in book :: book[n].key <= book[n].text)
  }

  /** The names whose abbreviation is compatible with `a`. */
  ghost function Fitting(book: Book, a: seq<Byte>): set<nat> {
    set n | n in book && Compatible(a, book[n].key)
  }

  lemma FittingMatches(book: Book, a: seq<Byte>)
    ensures Fitting(book, a) == Matches(book.Keys, KeysOf(book), a)
  {
  }

  lemma TwoFitting(book: Book, a: seq<Byte>, x: nat, y: nat)
    requires ValidBook(book) && x in Fitting(book, a) && y in Fitting(book, a) && x != y
    ensures a < book[x].key && a < book[y].key
  {
    FittingMatches(book, a);
    TwoMatches(book.Keys, KeysOf(book), a, x, y);
  }

  /** `p` is the name found, `error` whether a message says that it does not fit. */
  datatype Answer = Overflow | Ambiguous | At(p: nat, error: bool)

  /** The change to the name that is found: an incomplete name gets more text, or its abbreviation gets
      shorter. */
  function Updated(nm: Name, a: seq<Byte>, ispref: bool): Name {
    match Classify(a, nm.text, nm.complete)
    case Is(Prefix) => if ispref && |a| < |nm.key| then nm.(key := a) else nm
    case Is(Extension) => nm.(text := a, complete := !ispref)
    case _ => nm
  }

  predicate Misfit(nm: Name, a: seq<Byte>, ispref: bool) {
    match Classify(a, nm.text, nm.complete)
    case Is(Prefix) => !ispref
    case Is(Equal) => false
    case Is(Extension) => false
    case _ => true
  }

  /** What `section_lookup` answers and leaves behind. */
  ghost predicate LooksUp(book: Book, a: seq<Byte>, ispref: bool, r: Answer, book': Book) {
    var m := Fitting(book, a);
    match r
    case Overflow => true
    case Ambiguous => book' == book && exists x, y :: x in m && y in m && x != y
    case At(p, error) =>
      if p in book then m == {p} && error == Misfit(book[p], a, ispref) && book' == book[p := Updated(book[p], a, ispref)]
      else m == {} && !error && book' == book[p := Name(a, a, !ispref)]
  }

  // ----- One lookup ------------------------------------------------------------------------------

  /** A lookup is ambiguous exactly when two or more abbreviations extend the argument. */
  lemma AmbiguousIff(book: Book, a: seq<Byte>, ispref: bool, r: Answer, book': Book)
    requires ValidBook(book) && LooksUp(book, a, ispref, r, book') && !r.Overflow?
    ensures r.Ambiguous? <==> exists x, y :: x in book && y in book && x != y && a < book[x].key && a < book[y].key
  {
    var m := Fitting(book, a);
    if r.Ambiguous? {
      var x, y :| x in m && y in m && x != y;
      TwoFitting(book, a, x, y);
    } else {
      assert forall z | z in book && a < book[z].key :: z in m;
    }
  }

  /** An old name is found exactly when it is compatible and the lookup is not ambiguous. */
  lemma FoundIff(book: Book, a: seq<Byte>, ispref: bool, r: Answer, book': Book, n: nat)
    requires ValidBook(book) && LooksUp(book, a, ispref, r, book') && r.At? && n in book
    ensures r.p == n <==> Compatible(a, book[n].key)
  {
    var m := Fitting(book, a);
    assert n in m <==> Compatible(a, book[n].key);
  }

  /** The change keeps the abbreviation a prefix of the text, and both compatible with what they were. */
  lemma UpdatedKey(nm: Name, a: seq<Byte>, ispref: bool)
    requires nm.key <= nm.text && Compatible(a, nm.key)
    ensures var u := Updated(nm, a, ispref);
            && u.key <= u.text && u.key <= nm.key && nm.text <= u.text
            && (u.key == nm.key || u.key == a)
  {
    var n := CompareMeans(a, nm.text);
  }

  lemma SingleChange(book: Book, p: nat, nm: Name)
    requires ValidBook(book) && nm.key <= nm.text
    requires forall x | x in book && x != p :: !Compatible(nm.key, book[x].key)
    ensures ValidBook(book[p := nm])
  {
  }

  /** Abbreviations stay free of prefixes of each other, also when one is shortened. */
  lemma LookupValid(book: Book, a: seq<Byte>, ispref: bool, r: Answer, book': Book)
    requires ValidBook(book) && LooksUp(book, a, ispref, r, book') && !r.Overflow?
    ensures ValidBook(book')
  {
    if r.At? {
      var p := r.p;
      assert forall x | x in book && x != p :: x !in Fitting(book, a);
      if p in book {
        assert p in Fitting(book, a);
        UpdatedKey(book[p], a, ispref);
        SingleChange(book, p, Updated(book[p], a, ispref));
      } else {
        SingleChange(book, p, Name(a, a, !ispref));
      }
    }
  }

  // ----- Sequences of lookups --------------------------------------------------------------------

  /** Name `p` is settled as the answer to `a`: its abbreviation is a prefix of `a` and `a` of its text, and
      they are the same where `a` is given as complete. */
  predicate Settled(book: Book, a: seq<Byte>, ispref: bool, p: nat) {
    && p in book && book[p].key <= a && a <= book[p].text
    && (!ispref ==> book[p].complete && a == book[p].text)
  }

  /** A lookup without a message settles its argument. */
  lemma LookupSettles(book: Book, a: seq<Byte>, ispref: bool, p: nat, book': Book)
    requires ValidBook(book) && LooksUp(book, a, ispref, At(p, false), book')
    ensures Settled(book', a, ispref, p)
  {
    if p in book {
      assert p in Fitting(book, a);
      var n := CompareMeans(a, book[p].text);
      if a < book[p].text && !(ispref && |a| < |book[p].key|) {
        assert !(a < book[p].key);
      }
    }
  }

  /** Other lookups do not unsettle it. */
  lemma SettledStays(book: Book, a: seq<Byte>, ispref: bool, p: nat, b: seq<Byte>, bpref: bool, r: Answer, book': Book)
    requires ValidBook(book) && Settled(book, a, ispref, p)
    requires LooksUp(book, b, bpref, r, book') && !r.Overflow?
    ensures Settled(book', a, ispref, p)
  {
    if r.At? && r.p == p {
      assert p in Fitting(book, b);
      UpdatedKey(book[p], b, bpref);
      CompleteStays(book[p], b, bpref);
    }
  }

  /** A complete name never changes its text. */
  lemma CompleteStays(nm: Name, a: seq<Byte>, ispref: bool)
    ensures nm.complete ==> Updated(nm, a, ispref).complete && Updated(nm, a, ispref).text == nm.text
  {
  }

  /** And the answer to a settled argument is its name, without a message and without any change. */
  lemma SettledFound(book: Book, a: seq<Byte>, ispref: bool, p: nat, r: Answer, book': Book)
    requires ValidBook(book) && Settled(book, a, ispref, p)
    requires LooksUp(book, a, ispref, r, book') && !r.Overflow?
    ensures r == At(p, false) && book' == book
  {
    var m := Fitting(book, a);
    assert p in m;
    if r.Ambiguous? {
      var x, y :| x in m && y in m && x != y;
      TwoFitting(book, a, x, y);
      var z := if x == p then y else x;
      TwoFitting(book, a, p, z);
      assert false;
    }
    var n := CompareMeans(a, book[p].text);
    assert Updated(book[p], a, ispref) == book[p];
  }

  /** A lookup and its outcome. */
  datatype Step = Step(a: seq<Byte>, ispref: bool, answer: Answer, after: Book)

  /** The steps lead from `book` on, one after the other, and no memory overflows. */
  ghost predicate Runs(book: Book, steps: seq<Step>)
    decreases |steps|
  {
    steps == [] ||
    (var s := steps[0];
     && !s.answer.Overflow? && LooksUp(book, s.a, s.ispref, s.answer, s.after)
     && Runs(s.after, steps[1..]))
  }

  /** Once a name has been the answer to an argument, it always is. */
  lemma {:induction false} AnswersAgree(book: Book, steps: seq<Step>, i: nat, j: nat)
    requires ValidBook(book) && Runs(book, steps) && i < j < |steps|
    requires steps[i].answer.At? && !steps[i].answer.error
    requires steps[j].a == steps[i].a && steps[j].ispref == steps[i].ispref
    ensures steps[j].answer == steps[i].answer
    decreases |steps|
  {
    var s := steps[0];
    LookupValid(book, s.a, s.ispref, s.answer, s.after);
    if i > 0 {
      AnswersAgree(s.after, steps[1..], i - 1, j - 1);
    } else {
      LookupSettles(book, s.a, s.ispref, s.answer.p, s.after);
      SettledLater(s.after, steps[1..], s.a, s.ispref, s.answer.p, j - 1);
    }
  }

  lemma {:induction false} SettledLater(book: Book, steps: seq<Step>, a: seq<Byte>, ispref: bool, p: nat, j: nat)
    requires ValidBook(book) && Runs(book, steps) && Settled(book, a, ispref, p)
    requires j < |steps| && steps[j].a == a && steps[j].ispref == ispref
    ensures steps[j].answer == At(p, false)
    decreases |steps|
  {
    hide LooksUp, ValidBook, Settled;
    var s := steps[0];
    if j == 0 {
      SettledFound(book, a, ispref, p, s.answer, s.after);
    } else {
      LookupValid(book, s.a, s.ispref, s.answer, s.after);
      SettledStays(book, a, ispref, p, s.a, s.ispref, s.answer, s.after);
      SettledLater(s.after, steps[1..], a, ispref, p, j - 1);
    }
  }
}
