/**
 * The abstract syntax of BL programs, the token vocabulary the parsers
 * consult, and the token string of each statement (the partner of the
 * parsers: parsing a statement's token string gives the statement back).
 */
module BLSyntax {
  import opened AsciiText

  /** The sentinel that the tokenizer puts at the end of every token queue. */
  const EndOfInput: string := "### END OF INPUT ###"

  /**
   * A condition, held as its normalised spelling: the condition token with
   * every '-' replaced by '_' and then upper-cased (`NEXT_IS_EMPTY` for the
   * token `next-is-empty`).
   */
  type Condition = string

  /** The five statement kinds. IF, IF_ELSE and WHILE own BLOCK bodies. */
  datatype Statement =
    | Block(children: seq<Statement>)
    | If(cond: Condition, thenPart: Statement)
    | IfElse(cond: Condition, thenPart: Statement, elsePart: Statement)
    | While(cond: Condition, body: Statement)
    | Call(name: string)

  /** A parsed program: its name, its user-defined instructions and its main body. */
  datatype Program = Program(name: string, context: map<string, Statement>, body: Statement)

  /**
   * The tokenizer's two classification predicates, which the parsers call
   * but do not define.
   */
  datatype Lexicon = Lexicon(isIdentifier: string -> bool, isCondition: string -> bool)

  /** The one assumption made about the tokenizer: the sentinel is neither an identifier nor a condition. */
  predicate ValidLexicon(lex: Lexicon) {
    !lex.isIdentifier(EndOfInput) && !lex.isCondition(EndOfInput)
  }

  /**
   * The condition spellings of BL are lower-case words joined by hyphens
   * (`next-is-not-wall`, `random`, `true`). Only the soundness of the parser
   * with respect to `Render` needs this.
   */
  ghost predicate LowerCaseConditions(lex: Lexicon) {
    forall tok :: lex.isCondition(tok) ==> IsLowerSpelling(tok)
  }

  /** Every fatal error the parsers report. */
  datatype ParseError =
    | UnexpectedToken(expected: string, found: string)
    | NotACondition(token: string)
    | IsACondition(token: string)
    | NotACall(token: string)
    | NotAnIdentifier(token: string)
    | PrimitiveName(name: string)
    | DuplicateInstruction(name: string)
    | NameMismatch(begin: string, end: string)
    | TermsRemain

  /** `<END_OF_INPUT>` is a suffix of `ts`. */
  predicate EndsWithSentinel(ts: seq<string>) {
    |ts| > 0 && ts[|ts| - 1] == EndOfInput
  }

  /** The tokens on which a block stops; they are left for the caller. */
  predicate IsBlockEnd(t: string) {
    t == "END" || t == "ELSE" || t == EndOfInput
  }

  /** Removing a front token other than the sentinel keeps the sentinel at the end. */
  lemma DropFront(ts: seq<string>)
    requires EndsWithSentinel(ts) && ts[0] != EndOfInput
    ensures |ts| >= 2 && EndsWithSentinel(ts[1..])
  {
  }

  /* Condition spellings --------------------------------------------------- */

  predicate IsLowerSpelling(tok: string) {
    forall i :: 0 <= i < |tok| ==> 'a' <= tok[i] <= 'z' || '0' <= tok[i] <= '9' || tok[i] == '-'
  }

  predicate IsCanonical(c: Condition) {
    forall i :: 0 <= i < |c| ==> 'A' <= c[i] <= 'Z' || '0' <= c[i] <= '9' || c[i] == '_'
  }

  /** The normalisation applied to a condition token: '-' becomes '_', then upper case. */
  function ConditionName(tok: string): (c: Condition)
    ensures |c| == |tok|
    ensures forall i :: 0 <= i < |tok| ==> c[i] == UpperChar(if tok[i] == '-' then '_' else tok[i])
  {
    ToUpper(Replace(tok, '-', '_'))
  }

  /** The token that names a condition: '_' becomes '-', then lower case. */
  function Spelling(c: Condition): string {
    ToLower(Replace(c, '_', '-'))
  }

  /** A lower-case spelling survives normalisation: the two maps are inverse on BL's spellings. */
  lemma SpellingOfConditionName(tok: string)
    requires IsLowerSpelling(tok)
    ensures IsCanonical(ConditionName(tok))
    ensures Spelling(ConditionName(tok)) == tok
  {
    var c := ConditionName(tok);
    forall i | 0 <= i < |tok|
      ensures Spelling(c)[i] == tok[i]
    {
    }
  }

  lemma ConditionNameOfSpelling(c: Condition)
    requires IsCanonical(c)
    ensures IsLowerSpelling(Spelling(c))
    ensures ConditionName(Spelling(c)) == c
  {
    var tok := Spelling(c);
    forall i | 0 <= i < |c|
      ensures ConditionName(tok)[i] == c[i]
    {
    }
  }

  /* Primitive instructions ------------------------------------------------- */

  /** The instruction names reserved by the BL machine. */
  function PrimitiveInstructions(): (p: set<string>)
    ensures |p| == 5
    ensures "move" in p && "turnleft" in p && "turnright" in p && "infect" in p && "skip" in p
  {
    {"move", "turnleft", "turnright", "infect", "skip"}
  }

  /* Token strings of statements -------------------------------------------- */

  /** The token string of a statement, as a BL text would spell it. */
  function Render(s: Statement): seq<string>
    decreases s
  {
    match s
    case Block(ss) => RenderAll(ss)
    case If(c, b) => ["IF", Spelling(c), "THEN"] + Render(b) + ["END", "IF"]
    case IfElse(c, b1, b2) =>
      ["IF", Spelling(c), "THEN"] + Render(b1) + ["ELSE"] + Render(b2) + ["END", "IF"]
    case While(c, b) => ["WHILE", Spelling(c), "DO"] + Render(b) + ["END", "WHILE"]
    case Call(n) => [n]
  }

  function RenderAll(ss: seq<Statement>): seq<string>
    decreases ss
  {
    if ss == [] then [] else Render(ss[0]) + RenderAll(ss[1..])
  }

  /** A call name the statement parser accepts. */
  predicate CallName(lex: Lexicon, n: string) {
    lex.isIdentifier(n) && !lex.isCondition(n) && n != "IF" && n != "WHILE"
  }

  predicate ValidCondition(lex: Lexicon, c: Condition) {
    IsCanonical(c) && lex.isCondition(Spelling(c))
  }

  /**
   * The statements the parsers can produce: bodies are blocks, blocks hold
   * no blocks directly, a call inside a block is not named like a block
   * terminator, and conditions are spelled as the lexicon expects.
   */
  predicate WellFormed(lex: Lexicon, s: Statement)
    decreases s
  {
    match s
    case Block(ss) =>
      forall i :: 0 <= i < |ss| ==>
        && !ss[i].Block?
        && WellFormed(lex, ss[i])
        && !(ss[i].Call? && IsBlockEnd(ss[i].name))
    case If(c, b) => ValidCondition(lex, c) && b.Block? && WellFormed(lex, b)
    case IfElse(c, b1, b2) =>
      ValidCondition(lex, c) && b1.Block? && WellFormed(lex, b1) && b2.Block? && WellFormed(lex, b2)
    case While(c, b) => ValidCondition(lex, c) && b.Block? && WellFormed(lex, b)
    case Call(n) => CallName(lex, n)
  }
}
