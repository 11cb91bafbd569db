/** The kinds of scraps that matter for what angle brackets absorb, and how a production changes them. */
module ScrapKinds {
  /** `LineStart` and `LineEnd` are the scraps at both ends of a preprocessor line. */
  datatype Kind = BracketMark | Insertion | LineStart | LineEnd | Other

  /** `k` scraps at `pp+at` become one of kind `kind`, and `pp` moves by `d`. */
  datatype Change = Change(at: nat, k: nat, kind: Kind, d: int, forgets: bool)

  /** What the table of productions guarantees of the first and the last scrap that are consumed: a bracket or the
      mark of a preprocessor line arises only from one, which may absorb an insertion, and an insertion from two, or from
      a preprocessor line; an insertion is consumed together with what is in front of it. */
  ghost predicate Arises(ch: Change, first: Kind, last: Kind) {
    && (ch.kind.BracketMark? ==>
          ch.k == 2 && ((first.BracketMark? && last.Insertion?) || (ch.at == 0 && first.Insertion? && last.BracketMark?)))
    && (ch.kind.Insertion? ==>
          && ch.at == 0 && ch.d < 0 && ch.k >= 2
          && ((ch.k == 2 && first.Insertion? && last.Insertion?) || (first.LineStart? && last.LineEnd?)))
    && (ch.kind.LineStart? ==> first.LineStart? || (ch.k == 2 && first.Insertion? && last.LineStart?))
    && (ch.kind.LineEnd? ==> last.LineEnd? || (ch.k == 2 && first.LineEnd? && last.Insertion?))
    && (first.Insertion? ==> ch.at == 0 && ch.k == 2 && ch.kind == last)
  }
}
