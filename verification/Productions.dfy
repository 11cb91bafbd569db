/** CWEAVE's grammar: the categories of scraps, the instructions by which a production builds its
    new text, and the table of all productions of `translate`.

    A production looks at the categories of at most four neighbouring scraps, the first of which is
    the one at `pp`.  A position beyond the last scrap has category `Zero`. */
module Productions {

  import opened Wrappers
  import opened ScrapKinds

  datatype Cat =
    | Zero | Exp | UnOp | BinOp | UnorBinOp | Cast | Question | LBrace | RBrace | DeclHead | Comma
    | LPar | RPar | PreLAngle | PreRAngle | LAngle | ColCol | Base | Decl | StructHead | Stmt
    | Function | ElseLike | FnDecl | Semi | Colon | Tag | IfHead | ElseHead | IfClause | LProc | RProc
    | Insert | SectionScrap | Dead | PublicLike | OperatorLike | NewLike | CatchLike | ForLike
    | DoLike | IfLike | RawRPar | RawUnorBin | ConstLike | RawInt | IntLike | CaseLike | SizeofLike
    | StructLike | TypedefLike | DefineLike | BeginArg | EndArg

  /** The one-character tokens: layout commands, and `Glyph(c)` for an ordinary character. */
  datatype Code =
    | MathRel | BigCancel | Cancel | Indent | Outdent | Opt | Backup | BreakSpace | Force | BigForce
    | PreprocLine | QuotedChar | EndTranslation | Inserted | Noop
    | Glyph(c: char)

  /** `Sub(i)` is `big_app1(pp+i)`, `Big(a)` is `big_app(a)`, `Raw(a)` is `app(a)`, and `Angle(c)`
      sets both mathness variables to `yes_math` before `app(c)`. */
  datatype Op = Sub(i: nat) | Big(a: Code) | Raw(a: Code) | Angle(c: char)

  /** A list of instructions, the last one outermost. */
  datatype Ops = New | Then(prev: Ops, op: Op) {
    function Scrap(i: nat): Ops { Then(this, Sub(i)) }
    function Big(a: Code): Ops { Then(this, Op.Big(a)) }
    function App(a: Code): Ops { Then(this, Raw(a)) }
    function Angle(c: char): Ops { Then(this, Op.Angle(c)) }
  }

  /** What a production does to the text of the scraps it consumes: `Recat` (a `squash` of one
      scrap) keeps text and mathness, `Build` makes a new text. */
  datatype Effect = Recat | Build(ops: Ops)

  /** Production `number` replaces the `k` scraps from `pp+at` by one scrap of category `cat`, and
      then moves `pp` by `d`.  When `reserve` is `Some(i)`, `make_reserved(pp+i)` comes first. */
  datatype Rule = Rule(number: nat, at: nat, k: nat, cat: Cat, d: int, effect: Effect, reserve: Option<nat>)

  function Reduce(ops: Ops, at: nat, k: nat, cat: Cat, d: int, number: nat): (m: Option<Rule>)
    requires KeepsOrder(ops, at, k)
    ensures m.Some? && Conserving(m.value)
  {
    Some(Rule(number, at, k, cat, d, Build(ops), None))
  }

  function Reserving(i: nat, ops: Ops, at: nat, k: nat, cat: Cat, d: int, number: nat): (m: Option<Rule>)
    requires KeepsOrder(ops, at, k)
    ensures m.Some? && Conserving(m.value)
  {
    Some(Rule(number, at, k, cat, d, Build(ops), Some(i)))
  }

  function Copies(at: nat, k: nat): (ops: Ops)
    ensures CopiesInOrder(ops, at, at + k) && !Forgets(ops)
  {
    if k == 0 then New else Copies(at, k - 1).Scrap(at + k - 1)
  }

  function Squash(at: nat, k: nat, cat: Cat, d: int, number: nat): (m: Option<Rule>)
    ensures m.Some? && Conserving(m.value)
  {
    Some(Rule(number, at, k, cat, d, if k == 1 then Recat else Build(Copies(at, k)), None))
  }

  function MatchExpBase(c2: Cat, c3: Cat): (m: Option<Rule>)
    ensures Sound(m, Exp, Base, c2, c3)
  {
    hide Conserving, Undeclared;
    if c2.IntLike? && c3.Comma? then
      Reduce(New.Scrap(1).Big(Glyph(' ')).Scrap(2).Scrap(3).App(Opt).App(Glyph('9')), 1, 3, Base, 0, 8)
    else if c2.IntLike? && c3.LBrace? then
      Reduce(New.Scrap(0).Big(Glyph(' ')).Scrap(1).Big(Glyph(' ')).Scrap(2), 0, 3, Exp, -1, 9)
    else None
  }

  /** An expression and what it is combined with, other than operators. */
  function MatchExpSequence(c1: Cat, c2: Cat, c3: Cat): (m: Option<Rule>)
    ensures Sound(m, Exp, c1, c2, c3)
  {
    hide Conserving, Undeclared;
    if c1.Comma? && c2.Exp? then
      Reduce(New.Scrap(0).Scrap(1).App(Opt).App(Glyph('9')).Scrap(2), 0, 3, Exp, -2, 4)
    else if c1.Exp? || c1.Cast? then Squash(0, 2, Exp, -2, 5)
    else if c1.Semi? then Squash(0, 2, Stmt, -1, 6)
    else if c1.Colon? then Squash(0, 2, Tag, 0, 7)
    else if c1.Base? then MatchExpBase(c2, c3)
    else if c1.RBrace? then Squash(0, 1, Stmt, -1, 10)
    else None
  }

  function MatchExp(c1: Cat, c2: Cat, c3: Cat): (m: Option<Rule>)
    ensures Sound(m, Exp, c1, c2, c3)
  {
    hide Conserving, Undeclared;
    if c1.LBrace? || c1.IntLike? || c1.Decl? then
      Reduce(New.Scrap(0).Big(Indent).App(Indent), 0, 1, FnDecl, 0, 1)
    else if c1.UnOp? then Squash(0, 2, Exp, -2, 2)
    else if (c1.BinOp? || c1.UnorBinOp?) && c2.Exp? then Squash(0, 3, Exp, -2, 3)
    else MatchExpSequence(c1, c2, c3)
  }

  /** The beginning of a list of declarations, or a cast. */
  function MatchLParList(c1: Cat, c2: Cat, c3: Cat): (m: Option<Rule>)
    ensures Sound(m, LPar, c1, c2, c3)
  {
    hide Conserving, Undeclared;
    if c1.DeclHead? || c1.IntLike? || c1.Exp? then
      if c2.RPar? then Squash(0, 3, Cast, -2, 13)
      else if c2.Comma? then
        Reduce(New.Scrap(0).Scrap(1).Scrap(2).App(Opt).App(Glyph('9')), 0, 3, LPar, 0, 14)
      else None
    else if c1.Stmt? || c1.Decl? then Reduce(New.Scrap(0).Scrap(1).Big(Glyph(' ')), 0, 2, LPar, 0, 15)
    else None
  }

  function MatchLPar(c1: Cat, c2: Cat, c3: Cat): (m: Option<Rule>)
    ensures Sound(m, LPar, c1, c2, c3)
  {
    hide Conserving, Undeclared;
    if (c1.Exp? || c1.UnorBinOp?) && c2.RPar? then Squash(0, 3, Exp, -2, 11)
    else if c1.RPar? then Reduce(New.Scrap(0).App(Glyph('\\')).App(Glyph(',')).Scrap(1), 0, 2, Exp, -2, 12)
    else MatchLParList(c1, c2, c3)
  }

  function MatchQuestion(c1: Cat, c2: Cat, c3: Cat): (m: Option<Rule>)
    ensures Sound(m, Question, c1, c2, c3)
  {
    hide Conserving, Undeclared;
    if c1.Exp? && c2.Colon? then Squash(0, 3, BinOp, -2, 16) else None
  }

  function MatchUnOp(c1: Cat, c2: Cat, c3: Cat): (m: Option<Rule>)
    ensures Sound(m, UnOp, c1, c2, c3)
  {
    hide Conserving;
    if c1.Exp? || c1.IntLike? then Squash(0, 2, c1, -2, 17) else None
  }

  function MatchUnorBinOp(c1: Cat, c2: Cat, c3: Cat): (m: Option<Rule>)
    ensures Sound(m, UnorBinOp, c1, c2, c3)
  {
    hide Conserving;
    if c1.Exp? || c1.IntLike? then
      Reduce(New.Big(Glyph('{')).Scrap(0).Big(Glyph('}')).Scrap(1), 0, 2, c1, -2, 18)
    else if c1.BinOp? then
      Reduce(New.Big(MathRel).Scrap(0).Big(Glyph('{')).Scrap(1).Big(Glyph('}')).Big(Glyph('}')), 0, 2, BinOp, -1, 19)
    else None
  }

  function MatchBinOp(c1: Cat, c2: Cat, c3: Cat): (m: Option<Rule>)
    ensures Sound(m, BinOp, c1, c2, c3)
  {
    hide Conserving, Undeclared;
    if c1.BinOp? then
      Reduce(New.Big(MathRel).Big(Glyph('{')).Scrap(0).Big(Glyph('}')).Big(Glyph('{')).Scrap(1).Big(Glyph('}')).Big(Glyph('}')), 0, 2, BinOp, -1, 20)
    else None
  }

  function MatchCast(c1: Cat, c2: Cat, c3: Cat): (m: Option<Rule>)
    ensures Sound(m, Cast, c1, c2, c3)
  {
    hide Conserving, Undeclared;
    if c1.Exp? then Reduce(New.Scrap(0).Big(Glyph(' ')).Scrap(1), 0, 2, Exp, -2, 21)
    else if c1.Semi? then Squash(0, 1, Exp, -2, 22)
    else None
  }

  function MatchSizeofLike(c1: Cat, c2: Cat, c3: Cat): (m: Option<Rule>)
    ensures Sound(m, SizeofLike, c1, c2, c3)
  {
    hide Conserving, Undeclared;
    if c1.Cast? then Squash(0, 2, Exp, -2, 23)
    else if c1.Exp? then Reduce(New.Scrap(0).Big(Glyph(' ')).Scrap(1), 0, 2, Exp, -2, 24)
    else None
  }

  function MatchIntLikeCast(c2: Cat, c3: Cat): (m: Option<Rule>)
    ensures Sound(m, IntLike, Cast, c2, c3)
  {
    hide Conserving;
    if c2.LBrace? then Reduce(New.Scrap(0).Scrap(1).Big(Indent).Big(Indent), 0, 2, FnDecl, 1, 31)
    else Squash(0, 2, IntLike, -2, 32)
  }

  /** The beginning of a declaration. */
  function MatchIntLikeHead(c1: Cat, c2: Cat, c3: Cat): (m: Option<Rule>)
    ensures Sound(m, IntLike, c1, c2, c3)
  {
    hide Conserving, Undeclared;
    if c1.Exp? || c1.UnorBinOp? then Reduce(New.Scrap(0).Big(Glyph(' ')), 0, 1, DeclHead, -1, 27)
    else if c1.Semi? then Reduce(New.Scrap(0), 0, 1, DeclHead, -1, 27)
    else if c1.Colon? then Reduce(New.Scrap(0).Big(Glyph(' ')), 0, 1, DeclHead, 0, 28)
    else None
  }

  function MatchIntLike(c1: Cat, c2: Cat, c3: Cat): (m: Option<Rule>)
    ensures Sound(m, IntLike, c1, c2, c3)
  {
    hide Conserving;
    if c1.IntLike? || c1.StructLike? then Reduce(New.Scrap(0).Big(Glyph(' ')).Scrap(1), 0, 2, c1, -2, 25)
    else if c1.Exp? && (c2.RawInt? || c2.StructLike?) then Squash(0, 2, IntLike, -2, 26)
    else if c1.PreLAngle? then Squash(1, 1, LAngle, 1, 29)
    else if c1.ColCol? && (c2.Exp? || c2.IntLike?) then Squash(0, 3, c2, -2, 30)
    else if c1.Cast? then MatchIntLikeCast(c2, c3)
    else MatchIntLikeHead(c1, c2, c3)
  }

  /** The end of the head of a declaration. */
  function MatchDeclHeadEnd(c1: Cat, c2: Cat, c3: Cat): (m: Option<Rule>)
    ensures Sound(m, DeclHead, c1, c2, c3)
  {
    hide Conserving, Undeclared;
    if (c1.BinOp? || c1.Colon?) && c2.Exp? && (c3.Comma? || c3.Semi? || c3.RPar?) then
      Squash(0, 3, DeclHead, -1, 36)
    else if c1.Cast? then Squash(0, 2, DeclHead, -1, 37)
    else if c1.LBrace? || (c1.IntLike? && !c2.ColCol?) || c1.Decl? then
      Reduce(New.Scrap(0).Big(Indent).App(Indent), 0, 1, FnDecl, 0, 38)
    else if c1.Semi? then Squash(0, 2, Decl, -1, 39)
    else None
  }

  function MatchDeclHead(c1: Cat, c2: Cat, c3: Cat): (m: Option<Rule>)
    ensures Sound(m, DeclHead, c1, c2, c3)
  {
    hide Conserving, Undeclared;
    if c1.Comma? then Reduce(New.Scrap(0).Scrap(1).Big(Glyph(' ')), 0, 2, DeclHead, -1, 33)
    else if c1.UnorBinOp? then
      Reduce(New.Scrap(0).Big(Glyph('{')).Scrap(1).Big(Glyph('}')), 0, 2, DeclHead, -1, 34)
    else if c1.Exp? && !c2.LPar? && !c2.Exp? then Squash(0, 2, DeclHead, -1, 35)
    else MatchDeclHeadEnd(c1, c2, c3)
  }

  function MatchDecl(c1: Cat, c2: Cat, c3: Cat): (m: Option<Rule>)
    ensures Sound(m, Decl, c1, c2, c3)
  {
    hide Conserving, Undeclared;
    if c1.Decl? then Reduce(New.Scrap(0).Big(Force).Scrap(1), 0, 2, Decl, -1, 40)
    else if c1.Stmt? || c1.Function? then Reduce(New.Scrap(0).Big(BigForce).Scrap(1), 0, 2, c1, -1, 41)
    else None
  }

  function MatchTypedefLike(c1: Cat, c2: Cat, c3: Cat): (m: Option<Rule>)
    ensures Sound(m, TypedefLike, c1, c2, c3)
  {
    hide Conserving;
    if !c1.DeclHead? then None
    else if (c2.Exp? && !c3.LPar? && !c3.Exp?) || c2.IntLike? then
      Reserving(2, New.Scrap(1).Scrap(2), 1, 2, DeclHead, 0, 42)
    else if c2.Semi? then Reduce(New.Scrap(0).Big(Glyph(' ')).Scrap(1).Scrap(2), 0, 3, Decl, -1, 43)
    else None
  }

  function MatchStructLike(c1: Cat, c2: Cat, c3: Cat): (m: Option<Rule>)
    ensures Sound(m, StructLike, c1, c2, c3)
  {
    hide Conserving;
    if c1.LBrace? then Reduce(New.Scrap(0).Big(Glyph(' ')).Scrap(1), 0, 2, StructHead, 0, 44)
    else if c1.Exp? || c1.IntLike? then
      if c2.Semi? then Reserving(1, New.Scrap(0).Big(Glyph(' ')).Scrap(1), 0, 2, DeclHead, 0, 45)
      else if c2.LBrace? then
        Reserving(1, New.Scrap(0).Big(Glyph(' ')).Scrap(1).Big(Glyph(' ')).Scrap(2), 0, 3, StructHead, 0, 46)
      else if c2.Colon? then Squash(2, 1, Base, -1, 47)
      else if !c2.Base? then Reduce(New.Scrap(0).Big(Glyph(' ')).Scrap(1), 0, 2, IntLike, -2, 48)
      else None
    else None
  }

  function MatchStructHead(c1: Cat, c2: Cat, c3: Cat): (m: Option<Rule>)
    ensures Sound(m, StructHead, c1, c2, c3)
  {
    hide Conserving;
    if (c1.Decl? || c1.Stmt? || c1.Function?) && c2.RBrace? then
      Reduce(New.Scrap(0).Big(Indent).Big(Force).Scrap(1).Big(Outdent).Big(Force).Scrap(2), 0, 3, IntLike, -2, 49)
    else if c1.RBrace? then
      Reduce(New.Scrap(0).App(Glyph('\\')).App(Glyph(',')).Scrap(1), 0, 2, IntLike, -2, 50)
    else None
  }

  function MatchFnDecl(c1: Cat, c2: Cat, c3: Cat): (m: Option<Rule>)
    ensures Sound(m, FnDecl, c1, c2, c3)
  {
    hide Conserving, Undeclared;
    if c1.Decl? then Reduce(New.Scrap(0).Big(Force).Scrap(1), 0, 2, FnDecl, 0, 51)
    else if c1.Stmt? then
      Reduce(New.Scrap(0).App(Outdent).App(Outdent).Big(Force).Scrap(1), 0, 2, Function, -1, 52)
    else None
  }

  function MatchFunction(c1: Cat, c2: Cat, c3: Cat): (m: Option<Rule>)
    ensures Sound(m, Function, c1, c2, c3)
  {
    hide Conserving, Undeclared;
    if c1.Function? || c1.Decl? || c1.Stmt? then Reduce(New.Scrap(0).Big(BigForce).Scrap(1), 0, 2, c1, -1, 53)
    else None
  }

  function MatchLBrace(c1: Cat, c2: Cat, c3: Cat): (m: Option<Rule>)
    ensures Sound(m, LBrace, c1, c2, c3)
  {
    hide Conserving, Undeclared;
    if c1.RBrace? then Reduce(New.Scrap(0).App(Glyph('\\')).App(Glyph(',')).Scrap(1), 0, 2, Stmt, -1, 54)
    else if (c1.Stmt? || c1.Decl? || c1.Function?) && c2.RBrace? then
      Reduce(New.Big(Force).Scrap(0).Big(Indent).Big(Force).Scrap(1).Big(Force).Big(Backup).Scrap(2).Big(Outdent).Big(Force), 0, 3, Stmt, -1, 55)
    else if c1.Exp? then MatchInitializer(c2, c3)
    else None
  }

  function MatchInitializer(c2: Cat, c3: Cat): (m: Option<Rule>)
    ensures Sound(m, LBrace, Exp, c2, c3)
  {
    hide Conserving, Undeclared;
    if c2.RBrace? then Squash(0, 3, Exp, -2, 56)
    else if c2.Comma? && c3.RBrace? then Squash(0, 4, Exp, -2, 56)
    else None
  }

  /** The text of a do statement. */
  function DoStatement(): (ops: Ops)
    ensures CopiesInOrder(ops, 0, 4) && !Forgets(ops)
  {
    New.Scrap(0).Big(BreakSpace).App(Noop).Big(Cancel).Scrap(1).Big(Cancel).App(Noop).Big(BreakSpace).Scrap(2).Scrap(3)
  }

  function MatchDoLike(c1: Cat, c2: Cat, c3: Cat): (m: Option<Rule>)
    ensures Sound(m, DoLike, c1, c2, c3)
  {
    hide Conserving, Undeclared, DoStatement;
    if c1.Stmt? && c2.ElseLike? && c3.Semi? then Reduce(DoStatement(), 0, 4, Stmt, -1, 69) else None
  }

  function MatchIfLike(c1: Cat, c2: Cat, c3: Cat): (m: Option<Rule>)
    ensures Sound(m, IfLike, c1, c2, c3)
  {
    hide Conserving, Undeclared;
    if c1.Exp? then Reduce(New.Scrap(0).Big(Glyph(' ')).Scrap(1), 0, 2, IfClause, 0, 57) else None
  }

  function MatchForLike(c1: Cat, c2: Cat, c3: Cat): (m: Option<Rule>)
    ensures Sound(m, ForLike, c1, c2, c3)
  {
    hide Conserving, Undeclared;
    if c1.Exp? then Reduce(New.Scrap(0).Big(Glyph(' ')).Scrap(1), 0, 2, ElseLike, -2, 58) else None
  }

  function MatchElseLike(c1: Cat, c2: Cat, c3: Cat): (m: Option<Rule>)
    ensures Sound(m, ElseLike, c1, c2, c3)
  {
    hide Conserving, Undeclared;
    if c1.LBrace? then Squash(0, 1, ElseHead, 0, 59)
    else if c1.Stmt? then
      Reduce(New.Big(Force).Scrap(0).Big(Indent).Big(BreakSpace).Scrap(1).Big(Outdent).Big(Force), 0, 2, Stmt, -1, 60)
    else None
  }

  /** A conditional statement with an else part. */
  function MatchIfClauseElse(c3: Cat): (m: Option<Rule>)
    ensures Sound(m, IfClause, Stmt, ElseLike, c3)
  {
    hide Conserving, Undeclared;
    if c3.IfLike? then
      Reduce(New.Big(Force).Scrap(0).Big(Indent).Big(BreakSpace).Scrap(1).Big(Outdent).Big(Force).Scrap(2).Big(Glyph(' ')).Scrap(3), 0, 4, IfLike, 0, 63)
    else
      Reduce(New.Big(Force).Scrap(0).Big(Indent).Big(BreakSpace).Scrap(1).Big(Outdent).Big(Force).Scrap(2),
             0, 3, ElseLike, 0, 64)
  }

  function MatchIfClause(c1: Cat, c2: Cat, c3: Cat): (m: Option<Rule>)
    ensures Sound(m, IfClause, c1, c2, c3)
  {
    hide Conserving, Undeclared;
    if c1.LBrace? then Squash(0, 1, IfHead, 0, 62)
    else if c1.Stmt? then if c2.ElseLike? then MatchIfClauseElse(c3) else Squash(0, 1, ElseLike, 0, 65)
    else None
  }

  function MatchIfHeadElse(c1: Cat, c3: Cat): (m: Option<Rule>)
    requires c1.Stmt? || c1.Exp?
    ensures Sound(m, IfHead, c1, ElseLike, c3)
  {
    hide Conserving, Undeclared;
    if c3.IfLike? then
      Reduce(New.Big(Force).Scrap(0).Big(BreakSpace).App(Noop).Big(Cancel).Scrap(1).Big(Force).Scrap(2).Big(Glyph(' ')).Scrap(3), 0, 4, IfLike, 0, 66)
    else
      Reduce(New.Big(Force).Scrap(0).Big(BreakSpace).App(Noop).Big(Cancel).Scrap(1).Big(Force).Scrap(2),
             0, 3, ElseLike, 0, 67)
  }

  function MatchIfHead(c1: Cat, c2: Cat, c3: Cat): (m: Option<Rule>)
    ensures Sound(m, IfHead, c1, c2, c3)
  {
    hide Conserving, Undeclared;
    if c1.Stmt? || c1.Exp? then
      if c2.ElseLike? then MatchIfHeadElse(c1, c3)
      else Squash(0, 1, ElseHead, 0, 68)
    else None
  }

  function MatchElseHead(c1: Cat, c2: Cat, c3: Cat): (m: Option<Rule>)
    ensures Sound(m, ElseHead, c1, c2, c3)
  {
    hide Conserving, Undeclared;
    if c1.Stmt? || c1.Exp? then
      Reduce(New.Big(Force).Scrap(0).Big(BreakSpace).App(Noop).Big(Cancel).Scrap(1).Big(Force), 0, 2, Stmt, -1, 61)
    else None
  }

  function MatchCaseLike(c1: Cat, c2: Cat, c3: Cat): (m: Option<Rule>)
    ensures Sound(m, CaseLike, c1, c2, c3)
  {
    hide Conserving, Undeclared;
    if c1.Semi? then Squash(0, 2, Stmt, -1, 70)
    else if c1.Colon? then Squash(0, 2, Tag, -1, 71)
    else if c1.Exp? then
      if c2.Semi? then Reduce(New.Scrap(0).Big(Glyph(' ')).Scrap(1).Scrap(2), 0, 3, Stmt, -1, 72)
      else if c2.Colon? then Reduce(New.Scrap(0).Big(Glyph(' ')).Scrap(1).Scrap(2), 0, 3, Tag, -1, 73)
      else None
    else None
  }

  function MatchStmt(c1: Cat, c2: Cat, c3: Cat, forceLines: bool): (m: Option<Rule>)
    ensures Sound(m, Stmt, c1, c2, c3)
  {
    hide Conserving, Undeclared;
    if c1.Stmt? then
      if forceLines then Reduce(New.Scrap(0).Big(Force).Scrap(1), 0, 2, Stmt, -1, 76)
      else Reduce(New.Scrap(0).Big(BreakSpace).Scrap(1), 0, 2, Stmt, -1, 76)
    else if c1.Decl? || c1.Function? then Reduce(New.Scrap(0).Big(BigForce).Scrap(1), 0, 2, c1, -1, 76)
    else None
  }

  /** The text of a statement or declaration with a label. */
  function Labelled(): (ops: Ops)
    ensures CopiesInOrder(ops, 0, 2) && !Forgets(ops)
  {
    New.Big(Force).Big(Backup).Scrap(0).Big(BreakSpace).Scrap(1)
  }

  function MatchTag(c1: Cat, c2: Cat, c3: Cat): (m: Option<Rule>)
    ensures Sound(m, Tag, c1, c2, c3)
  {
    hide Conserving, Undeclared, Labelled;
    if c1.Tag? then Reduce(New.Scrap(0).Big(BreakSpace).Scrap(1), 0, 2, Tag, -1, 74)
    else if c1.Stmt? || c1.Decl? || c1.Function? then
      Reduce(Labelled(), 0, 2, c1, -1, 75)
    else None
  }

  /** The text of a definition with a value. */
  function DefineLine(): (ops: Ops)
    ensures CopiesInOrder(ops, 0, 4) && !Forgets(ops)
  {
    New.App(Inserted).Scrap(0).Big(Glyph(' ')).Scrap(1).App(Glyph(' ')).App(Glyph('\\')).App(Glyph('5')).Scrap(2).Scrap(3)
  }

  function MatchLProc(c1: Cat, c2: Cat, c3: Cat): (m: Option<Rule>)
    ensures Sound(m, LProc, c1, c2, c3)
  {
    hide Conserving, Undeclared, DefineLine;
    if c1.ElseLike? || c1.IfLike? || c1.DefineLike? then Squash(0, 2, LProc, 0, 78)
    else if c1.RProc? then Reduce(New.App(Inserted).Scrap(0).Scrap(1), 0, 2, Insert, -1, 79)
    else if c1.Exp? || c1.Function? then
      if c2.RProc? then Reduce(New.App(Inserted).Scrap(0).Big(Glyph(' ')).Scrap(1).Scrap(2), 0, 3, Insert, -1, 80)
      else if c2.Exp? && c3.RProc? && c1.Exp? then Reduce(DefineLine(), 0, 4, Insert, -1, 80)
      else None
    else None
  }

  function MatchSectionScrap(c1: Cat, c2: Cat, c3: Cat): (m: Option<Rule>)
    ensures Sound(m, SectionScrap, c1, c2, c3)
  {
    hide Conserving, Undeclared;
    if c1.Semi? then Reduce(New.Scrap(0).Scrap(1).Big(Force), 0, 2, Stmt, -2, 81)
    else Squash(0, 1, Exp, -2, 82)
  }

  function MatchInsert(c1: Cat, c2: Cat, c3: Cat): (m: Option<Rule>)
    requires !c1.Insert?
    ensures Sound(m, Insert, c1, c2, c3)
  {
    hide Conserving;
    if !c1.Zero? then Squash(0, 2, c1, 0, 83) else None
  }

  function MatchLAngle(c1: Cat, c2: Cat, c3: Cat): (m: Option<Rule>)
    ensures Sound(m, LAngle, c1, c2, c3)
  {
    hide Conserving;
    if c1.Exp? && c2.PreRAngle? then Squash(0, 3, Cast, -1, 86)
    else if c1.PreRAngle? then
      Reduce(New.Scrap(0).App(Glyph('\\')).App(Glyph(',')).Scrap(1), 0, 2, Cast, -1, 87)
    else if c1.DeclHead? || c1.IntLike? then
      if c2.PreRAngle? then Squash(0, 3, Cast, -1, 88)
      else if c2.Comma? then
        Reduce(New.Scrap(0).Scrap(1).Scrap(2).App(Opt).App(Glyph('9')), 0, 3, LAngle, 0, 89)
      else None
    else None
  }

  function MatchPublicLike(c1: Cat, c2: Cat, c3: Cat): (m: Option<Rule>)
    ensures Sound(m, PublicLike, c1, c2, c3)
  {
    hide Conserving;
    if c1.Colon? then Squash(0, 2, Tag, -1, 90) else Squash(0, 1, IntLike, -2, 91)
  }

  function MatchColCol(c1: Cat, c2: Cat, c3: Cat): (m: Option<Rule>)
    ensures Sound(m, ColCol, c1, c2, c3)
  {
    hide Conserving;
    if c1.Exp? || c1.IntLike? then Squash(0, 2, c1, -2, 92) else None
  }

  function MatchNewLike(c1: Cat, c2: Cat, c3: Cat): (m: Option<Rule>)
    ensures Sound(m, NewLike, c1, c2, c3)
  {
    hide Conserving, Undeclared;
    if c1.Exp? || (c1.RawInt? && !c2.PreLAngle? && !c2.LAngle?) then
      Reduce(New.Scrap(0).Big(Glyph(' ')).Scrap(1), 0, 2, NewLike, 0, 93)
    else if c1.RawUnorBin? || c1.ColCol? then Squash(0, 2, NewLike, 0, 94)
    else if c1.Cast? then Squash(0, 2, Exp, -2, 95)
    else if !c1.LPar? && !c1.RawInt? && !c1.StructLike? then Squash(0, 1, Exp, -2, 96)
    else None
  }

  function MatchOperatorLike(c1: Cat, c2: Cat, c3: Cat): (m: Option<Rule>)
    ensures Sound(m, OperatorLike, c1, c2, c3)
  {
    hide Conserving, Undeclared;
    if c1.BinOp? || c1.UnOp? || c1.UnorBinOp? then MatchOverloaded(c1, c2, c3)
    else if c1.NewLike? || c1.SizeofLike? then Reduce(New.Scrap(0).Big(Glyph(' ')).Scrap(1), 0, 2, Exp, -2, 98)
    else Squash(0, 1, NewLike, 0, 99)
  }

  function MatchOverloaded(c1: Cat, c2: Cat, c3: Cat): (m: Option<Rule>)
    requires c1.BinOp? || c1.UnOp? || c1.UnorBinOp?
    ensures Sound(m, OperatorLike, c1, c2, c3)
  {
    hide Conserving, Undeclared;
    if c2.BinOp? then None
    else Reduce(New.Scrap(0).Big(Glyph('{')).Scrap(1).Big(Glyph('}')), 0, 2, Exp, -2, 97)
  }

  function MatchCatchLike(c1: Cat, c2: Cat, c3: Cat): (m: Option<Rule>)
    ensures Sound(m, CatchLike, c1, c2, c3)
  {
    hide Conserving, Undeclared;
    if c1.Cast? || c1.Exp? then Reduce(New.Scrap(0).Scrap(1).Big(Indent).Big(Indent), 0, 2, FnDecl, 0, 100) else None
  }

  function MatchBase(c1: Cat, c2: Cat, c3: Cat): (m: Option<Rule>)
    ensures Sound(m, Base, c1, c2, c3)
  {
    hide Conserving;
    if c1.PublicLike? && c2.Exp? then
      if c3.Comma? then Reduce(New.Scrap(0).Scrap(1).Big(Glyph(' ')).Scrap(2).Scrap(3), 0, 4, Base, 0, 101)
      else Reduce(New.Scrap(1).Big(Glyph(' ')).Scrap(2), 1, 2, IntLike, -1, 102)
    else None
  }

  function MatchRawRPar(c1: Cat, c2: Cat, c3: Cat): (m: Option<Rule>)
    ensures Sound(m, RawRPar, c1, c2, c3)
  {
    hide Conserving, Undeclared;
    if c1.ConstLike? && (c2.Semi? || c2.LBrace? || c2.Comma? || c2.BinOp? || c2.ConstLike?) then
      Reduce(New.Scrap(0).Big(Glyph(' ')).Scrap(1), 0, 2, RawRPar, 0, 103)
    else Squash(0, 1, RPar, -3, 104)
  }

  function MatchRawUnorBin(c1: Cat, c2: Cat, c3: Cat): (m: Option<Rule>)
    ensures Sound(m, RawUnorBin, c1, c2, c3)
  {
    hide Conserving, Undeclared;
    if c1.ConstLike? then
      Reduce(New.Scrap(0).Scrap(1).App(Glyph('\\')).App(Glyph(' ')), 0, 2, RawUnorBin, 0, 105)
    else Squash(0, 1, UnorBinOp, -2, 106)
  }

  function MatchRawInt(c1: Cat, c2: Cat, c3: Cat): (m: Option<Rule>)
    ensures Sound(m, RawInt, c1, c2, c3)
  {
    hide Conserving;
    if c1.LPar? then Squash(0, 1, Exp, -2, 108) else Squash(0, 1, IntLike, -3, 109)
  }

  /** The productions that start with an operand. */
  function MatchOperand(c0: Cat, c1: Cat, c2: Cat, c3: Cat): (m: Option<Rule>)
    ensures Sound(m, c0, c1, c2, c3)
  {
    hide Conserving, Undeclared;
    match c0
    case Exp => MatchExp(c1, c2, c3)
    case LPar => MatchLPar(c1, c2, c3)
    case Cast => MatchCast(c1, c2, c3)
    case SizeofLike => MatchSizeofLike(c1, c2, c3)
    case ColCol => MatchColCol(c1, c2, c3)
    case NewLike => MatchNewLike(c1, c2, c3)
    case OperatorLike => MatchOperatorLike(c1, c2, c3)
    case _ => None
  }

  /** The productions that start with an operator or an angle bracket. */
  function MatchOperator(c0: Cat, c1: Cat, c2: Cat, c3: Cat): (m: Option<Rule>)
    requires !c1.Insert?
    ensures Sound(m, c0, c1, c2, c3)
  {
    hide Conserving, Undeclared;
    match c0
    case Question => MatchQuestion(c1, c2, c3)
    case UnOp => MatchUnOp(c1, c2, c3)
    case UnorBinOp => MatchUnorBinOp(c1, c2, c3)
    case BinOp => MatchBinOp(c1, c2, c3)
    case PreLAngle => Reduce(New.Angle('<'), 0, 1, BinOp, -2, 84)
    case PreRAngle => Reduce(New.Angle('>'), 0, 1, BinOp, -2, 85)
    case LAngle => MatchLAngle(c1, c2, c3)
    case _ => None
  }

  /** The productions that start with a type. */
  function MatchType(c0: Cat, c1: Cat, c2: Cat, c3: Cat): (m: Option<Rule>)
    ensures Sound(m, c0, c1, c2, c3)
  {
    hide Conserving;
    match c0
    case IntLike => MatchIntLike(c1, c2, c3)
    case StructLike => MatchStructLike(c1, c2, c3)
    case StructHead => MatchStructHead(c1, c2, c3)
    case PublicLike => MatchPublicLike(c1, c2, c3)
    case Base => MatchBase(c1, c2, c3)
    case ConstLike => Squash(0, 1, IntLike, -2, 107)
    case RawInt => MatchRawInt(c1, c2, c3)
    case _ => None
  }

  /** The productions that start with a declaration. */
  function MatchDeclaration(c0: Cat, c1: Cat, c2: Cat, c3: Cat): (m: Option<Rule>)
    ensures Sound(m, c0, c1, c2, c3)
  {
    hide Conserving, Undeclared;
    match c0
    case DeclHead => MatchDeclHead(c1, c2, c3)
    case Decl => MatchDecl(c1, c2, c3)
    case TypedefLike => MatchTypedefLike(c1, c2, c3)
    case FnDecl => MatchFnDecl(c1, c2, c3)
    case Function => MatchFunction(c1, c2, c3)
    case CatchLike => MatchCatchLike(c1, c2, c3)
    case _ => None
  }

  /** The productions that start with a statement. */
  function MatchStatement(c0: Cat, c1: Cat, c2: Cat, c3: Cat, forceLines: bool): (m: Option<Rule>)
    ensures Sound(m, c0, c1, c2, c3)
  {
    hide Conserving, Undeclared;
    match c0
    case LBrace => MatchLBrace(c1, c2, c3)
    case CaseLike => MatchCaseLike(c1, c2, c3)
    case Stmt => MatchStmt(c1, c2, c3, forceLines)
    case Tag => MatchTag(c1, c2, c3)
    case Semi => Reduce(New.Big(Glyph(' ')).Scrap(0), 0, 1, Stmt, -1, 77)
    case _ => None
  }

  /** The productions that start with a control structure. */
  function MatchControl(c0: Cat, c1: Cat, c2: Cat, c3: Cat): (m: Option<Rule>)
    ensures Sound(m, c0, c1, c2, c3)
  {
    hide Conserving, Undeclared;
    match c0
    case DoLike => MatchDoLike(c1, c2, c3)
    case IfLike => MatchIfLike(c1, c2, c3)
    case ForLike => MatchForLike(c1, c2, c3)
    case ElseLike => MatchElseLike(c1, c2, c3)
    case IfClause => MatchIfClause(c1, c2, c3)
    case IfHead => MatchIfHead(c1, c2, c3)
    case ElseHead => MatchElseHead(c1, c2, c3)
    case _ => None
  }

  /** All productions selected by the category at `pp`. */
  function MatchOrdinary(c0: Cat, c1: Cat, c2: Cat, c3: Cat, forceLines: bool): (m: Option<Rule>)
    requires !c1.Insert?
    ensures Sound(m, c0, c1, c2, c3)
  {
    hide Conserving, Undeclared;
    match c0
    case Exp | LPar | Cast | SizeofLike | ColCol | NewLike | OperatorLike =>
      MatchOperand(c0, c1, c2, c3)
    case Question | UnOp | UnorBinOp | BinOp | PreLAngle | PreRAngle | LAngle =>
      MatchOperator(c0, c1, c2, c3)
    case IntLike | StructLike | StructHead | PublicLike | Base | ConstLike | RawInt =>
      MatchType(c0, c1, c2, c3)
    case DeclHead | Decl | TypedefLike | FnDecl | Function | CatchLike =>
      MatchDeclaration(c0, c1, c2, c3)
    case LBrace | CaseLike | Stmt | Tag | Semi =>
      MatchStatement(c0, c1, c2, c3, forceLines)
    case DoLike | IfLike | ForLike | ElseLike | IfClause | IfHead | ElseHead =>
      MatchControl(c0, c1, c2, c3)
    case LProc => MatchLProc(c1, c2, c3)
    case SectionScrap => MatchSectionScrap(c1, c2, c3)
    case Insert => MatchInsert(c1, c2, c3)
    case RawRPar => MatchRawRPar(c1, c2, c3)
    case RawUnorBin => MatchRawUnorBin(c1, c2, c3)
    case _ => None
  }

  predicate Simple(c: Cat) {
    c.Semi? || c.RawInt? || c.RawUnorBin? || c.RawRPar? || c.ConstLike?
  }

  /** An insertion is absorbed by the scrap in front of it. */
  function MatchAbsorbed(c0: Cat, c1: Cat, c2: Cat, c3: Cat): (m: Option<Rule>)
    requires c1.Insert? || c2.Insert? || c3.Insert?
    ensures m.Some? && Sound(m, c0, c1, c2, c3)
  {
    hide Conserving;
    if c1.Insert? then Squash(0, 2, c0, -2, 0)
    else if c2.Insert? then Squash(1, 2, c1, -1, 0)
    else Squash(2, 2, c2, 0, 0)
  }

  /** The whole table: macro arguments and insertions first, then the ordinary productions. */
  function Match(c0: Cat, c1: Cat, c2: Cat, c3: Cat, forceLines: bool): (m: Option<Rule>)
    ensures Sound(m, c0, c1, c2, c3) && Thorough(m, c0, c1, c2, c3)
  {
    hide Conserving;
    if c1.EndArg? && !Simple(c0) then
      if c0.BeginArg? then Squash(0, 2, Exp, -2, 110) else Squash(0, 2, EndArg, -1, 111)
    else if c1.Insert? || c2.Insert? || c3.Insert? then MatchAbsorbed(c0, c1, c2, c3)
    else MatchOrdinary(c0, c1, c2, c3, forceLines)
  }

  /** No gap among the categories seen: nothing follows a `Zero`. */
  predicate Window(c0: Cat, c1: Cat, c2: Cat, c3: Cat) {
    !c0.Zero? && (c1.Zero? ==> c2.Zero?) && (c2.Zero? ==> c3.Zero?)
  }

  /** How many of the four categories belong to scraps. */
  function Live(c1: Cat, c2: Cat, c3: Cat): nat {
    if c1.Zero? then 1 else if c2.Zero? then 2 else if c3.Zero? then 3 else 4
  }

  /** The height of a category in the order of one-scrap replacements. */
  function Rank(c: Cat): nat {
    match c
    case OperatorLike => 4
    case NewLike => 3
    case SectionScrap => 3
    case Cast => 3
    case RawInt => 4
    case ConstLike => 3
    case PublicLike => 3
    case Exp => 2
    case IntLike => 2
    case IfClause => 2
    case DeclHead => 1
    case ElseLike => 1
    case IfHead => 1
    case PreLAngle => 1
    case PreRAngle => 1
    case Colon => 1
    case Semi => 1
    case RawRPar => 1
    case RawUnorBin => 1
    case _ => 0
  }

  function Category(c0: Cat, c1: Cat, c2: Cat, c3: Cat, i: nat): Cat {
    if i == 0 then c0 else if i == 1 then c1 else if i == 2 then c2 else if i == 3 then c3 else Zero
  }

  /** Tokens that `app` may add in either mode. */
  predicate Neutral(a: Code) {
    match a
    case MathRel | Backup | BreakSpace | Force | BigForce => false
    case Glyph(c) => c != '$' && c != '{' && c != '}' && c != '<' && c != '>'
    case _ => true
  }

  /** The instructions copy the texts of exactly the scraps at offsets `at`, ..., `end-1`, each once
      and in this order, and add by `app` only tokens that are allowed in either mode. */
  predicate CopiesInOrder(ops: Ops, at: nat, end: nat) {
    match ops
    case New => at == end
    case Then(prev, Sub(i)) => at <= i && i + 1 == end && CopiesInOrder(prev, at, i)
    case Then(prev, Big(a)) => a != Glyph('$') && CopiesInOrder(prev, at, end)
    case Then(prev, Raw(a)) => Neutral(a) && CopiesInOrder(prev, at, end)
    case Then(_, Angle(_)) => false
  }

  /** Productions 84 and 85 are the only ones that forget the text of the scrap they consume. */
  predicate Forgets(ops: Ops) {
    ops.Then? && ops.prev.New? && (ops.op == Angle('<') || ops.op == Angle('>'))
  }

  /** The new text of a production contains the texts of the consumed scraps in order, unless the
      production is one of the two that forget. */
  ghost predicate Conserving(r: Rule) {
    match r.effect
    case Recat => r.k == 1
    case Build(ops) => KeepsOrder(ops, r.at, r.k)
  }

  /** The texts of the `k` scraps at `at` are copied in their order, or one scrap is forgotten. */
  predicate KeepsOrder(ops: Ops, at: nat, k: nat) {
    if Forgets(ops) then at == 0 && k == 1 else CopiesInOrder(ops, at, at + k)
  }

  /** The production `r` selected for the categories `c0`..`c3` consumes scraps that exist, and
      shortens the list or lowers a rank. */
  ghost predicate Shrinking(r: Rule, c0: Cat, c1: Cat, c2: Cat, c3: Cat) {
    && 1 <= r.k && r.at + r.k <= Live(c1, c2, c3)
    && r.d <= 1 && !r.cat.Zero?
    && (r.reserve.Some? ==> r.k >= 2 && r.reserve.value < Live(c1, c2, c3))
    && (r.k == 1 ==> Rank(r.cat) < Rank(Category(c0, c1, c2, c3, r.at)))
  }

  predicate Bracket(c: Cat) {
    c.PreLAngle? || c.PreRAngle?
  }

  /** The categories by which types, template brackets and macro arguments come about. */
  predicate Declares(c: Cat) {
    || c.IntLike? || c.StructLike? || c.StructHead? || c.PublicLike? || c.ConstLike? || c.RawInt? || c.TypedefLike?
    || c.LAngle? || c.EndArg?
  }

  predicate Undeclared(c0: Cat, c1: Cat, c2: Cat, c3: Cat) {
    !Declares(c0) && !Declares(c1) && !Declares(c2) && !Declares(c3)
  }

  /** The categories by which a bracket `<` comes to begin a template, and `@]`, which takes whatever is in front of it. */
  predicate Opens(c: Cat) {
    c.PreLAngle? || c.LAngle? || c.EndArg?
  }

  predicate Unopened(c0: Cat, c1: Cat, c2: Cat, c3: Cat) {
    !Opens(c0) && !Opens(c1) && !Opens(c2) && !Opens(c3)
  }

  predicate Takes(r: Rule, i: nat) {
    r.at <= i < r.at + r.k
  }

  predicate TakesBracket(r: Rule, c0: Cat, c1: Cat, c2: Cat, c3: Cat) {
    (Takes(r, 0) && Bracket(c0)) || (Takes(r, 1) && Bracket(c1)) || (Takes(r, 2) && Bracket(c2)) || (Takes(r, 3) && Bracket(c3))
  }

  predicate ForgetsText(r: Rule) {
    r.effect.Build? && Forgets(r.effect.ops)
  }

  function KindOf(c: Cat): Kind {
    if Bracket(c) then BracketMark
    else if c.Insert? then Insertion
    else if c.LProc? then LineStart
    else if c.RProc? then LineEnd
    else Other
  }

  function ChangeOf(r: Rule): Change {
    Change(r.at, r.k, KindOf(r.cat), r.d, ForgetsText(r))
  }

  /** What brackets, insertions and the marks of preprocessor lines arise from. */
  ghost predicate Origins(r: Rule, c0: Cat, c1: Cat, c2: Cat, c3: Cat)
    requires r.k >= 1
  {
    Arises(ChangeOf(r), KindOf(Category(c0, c1, c2, c3, r.at)), KindOf(Category(c0, c1, c2, c3, r.at + r.k - 1)))
  }

  /** Only brackets are forgotten, and not before they have absorbed what follows; and `pp` moves on past neither
      brackets nor insertions. */
  ghost predicate InTurn(r: Rule, c0: Cat, c1: Cat, c2: Cat, c3: Cat) {
    && (ForgetsText(r) ==> Bracket(c0) && !c1.Insert?)
    && (r.d > 0 ==>
          && r.at <= 1 && r.k < 4 && !Bracket(c0) && !c0.Insert? && !Bracket(r.cat) && !r.cat.Insert?
          && (r.at == 0 ==> !Category(c0, c1, c2, c3, r.k).Insert?))
  }

  /** Among categories that declare nothing, and among categories that open nothing, brackets are only forgotten,
      or absorb insertions. */
  ghost predicate Closed(r: Rule, c0: Cat, c1: Cat, c2: Cat, c3: Cat) {
    && (Undeclared(c0, c1, c2, c3) ==> r.reserve.None? && !Declares(r.cat))
    && (Unopened(c0, c1, c2, c3) ==> !Opens(r.cat))
    && (Undeclared(c0, c1, c2, c3) || Unopened(c0, c1, c2, c3) ==>
          TakesBracket(r, c0, c1, c2, c3) ==> ForgetsText(r) || Bracket(r.cat))
  }

  /** There is a production for every bracket and for every insertion. */
  ghost predicate Thorough(m: Option<Rule>, c0: Cat, c1: Cat, c2: Cat, c3: Cat) {
    m.None? ==> !Bracket(c0) && !c1.Insert? && (c0.Insert? ==> c1.Zero?)
  }

  ghost predicate Tidy(m: Option<Rule>, c0: Cat, c1: Cat, c2: Cat, c3: Cat) {
    m.Some? ==>
      && m.value.k >= 1 && Origins(m.value, c0, c1, c2, c3) && InTurn(m.value, c0, c1, c2, c3)
      && Closed(m.value, c0, c1, c2, c3)
  }

  /** What the table guarantees of the production it selects for the categories `c0`..`c3`. */
  ghost predicate Sound(m: Option<Rule>, c0: Cat, c1: Cat, c2: Cat, c3: Cat) {
    m.Some? ==>
      && Conserving(m.value)
      && Tidy(m, c0, c1, c2, c3)
      && (Window(c0, c1, c2, c3) ==> Shrinking(m.value, c0, c1, c2, c3))
  }

  /** A table of productions selects at most one production for four categories. */
  type Table = (Cat, Cat, Cat, Cat) -> Option<Rule>

  ghost predicate SoundTable(table: Table) {
    forall c0, c1, c2, c3 :: Sound(table(c0, c1, c2, c3), c0, c1, c2, c3) && Thorough(table(c0, c1, c2, c3), c0, c1, c2, c3)
  }

  /** CWEAVE's table, for either setting of the flag `force_lines`. */
  function CweaveTable(forceLines: bool): (table: Table)
    ensures SoundTable(table)
  {
    (c0, c1, c2, c3) => Match(c0, c1, c2, c3, forceLines)
  }
}
