/**
 * The BL program parser (Program1Parse1).
 *
 * `InstructionAt`, `InstructionsFrom`, `ProgramAt` and `ProgramBodyAt` say
 * what parsing a token sequence yields; `ParseInstruction` and
 * `BLProgram.Parse` are the parser, dequeuing from a `TokenQueue` and
 * filling in a program object, proved to agree with them.
 */
module ProgramParser {
  import opened Wrappers
  import opened BLSyntax
  import opened StatementParser

  /** A user-defined instruction: `INSTRUCTION name IS body END name`. */
  datatype Instruction = Instruction(name: string, body: Statement)

  type ParsedInstruction = Result<(Instruction, seq<string>), ParseError>
  type ParsedContext = Result<(map<string, Statement>, seq<string>), ParseError>
  type ParsedProgram = Result<(Program, seq<string>), ParseError>

  /* What parsing yields --------------------------------------------------- */

  /** parseInstruction: `INSTRUCTION x IS B END x`. */
  function InstructionAt(lex: Lexicon, ts: seq<string>): (r: ParsedInstruction)
    requires ValidLexicon(lex) && EndsWithSentinel(ts) && ts[0] == "INSTRUCTION"
    ensures r.Success? ==> |r.value.1| < |ts| && IsSuffix(ts, r.value.1) && EndsWithSentinel(r.value.1)
    ensures r.Success? ==> lex.isIdentifier(r.value.0.name) && r.value.0.body.Block?
  {
    DropFront(ts);
    var name := ts[1];
    if !lex.isIdentifier(name) then Failure(NotAnIdentifier(name))
    else
      DropFront(ts[1..]);
      assert ts[1..][1..] == ts[2..];
      if ts[2] != "IS" then Failure(UnexpectedToken("IS", ts[2]))
      else
        DropFront(ts[2..]);
        assert ts[2..][1..] == ts[3..];
        match BlockAt(lex, ts[3..])
        case Failure(e) => Failure(e)
        case Success((body, rest)) =>
          SuffixTransitive(ts, ts[3..], rest);
          InstructionEnd(name, body, rest)
  }

  /** `END x` after an instruction body; the closing name must be the opening one. */
  function InstructionEnd(name: string, body: Statement, rest: seq<string>): (r: ParsedInstruction)
    requires EndsWithSentinel(rest) && name != EndOfInput
    ensures r.Success? ==> r.value.0 == Instruction(name, body)
    ensures r.Success? ==> |r.value.1| < |rest| && IsSuffix(rest, r.value.1) && EndsWithSentinel(r.value.1)
  {
    if rest[0] != "END" then Failure(UnexpectedToken("END", rest[0]))
    else
      DropFront(rest);
      if rest[1] != name then Failure(NameMismatch(name, rest[1]))
      else
        DropFront(rest[1..]);
        assert rest[1..][1..] == rest[2..];
        Success((Instruction(name, body), rest[2..]))
  }

  /**
   * The instruction loop, after the instructions in `ctx` have been read:
   * it runs while the front token is INSTRUCTION, rejecting a name defined
   * before or a primitive name.
   */
  function InstructionsFrom(lex: Lexicon, ts: seq<string>, ctx: map<string, Statement>): (r: ParsedContext)
    requires ValidLexicon(lex) && EndsWithSentinel(ts)
    ensures r.Success? ==> IsSuffix(ts, r.value.1) && EndsWithSentinel(r.value.1) && r.value.1[0] != "INSTRUCTION"
    ensures r.Success? ==> ctx.Keys <= r.value.0.Keys
    decreases |ts|
  {
    if ts[0] != "INSTRUCTION" then Success((ctx, ts))
    else
      match InstructionAt(lex, ts)
      case Failure(e) => Failure(e)
      case Success((instr, rest)) =>
        if instr.name in ctx then Failure(DuplicateInstruction(instr.name))
        else if instr.name in PrimitiveInstructions() then Failure(PrimitiveName(instr.name))
        else
          var r := InstructionsFrom(lex, rest, ctx[instr.name := instr.body]);
          if r.Success? then SuffixTransitive(ts, rest, r.value.1); r else r
  }

  /** parse: `PROGRAM n IS` instructions `BEGIN B END n`, then nothing but the sentinel. */
  function ProgramAt(lex: Lexicon, ts: seq<string>): (r: ParsedProgram)
    requires ValidLexicon(lex) && EndsWithSentinel(ts)
    ensures r.Success? ==> IsSuffix(ts, r.value.1) && EndsWithSentinel(r.value.1) && r.value.1[0] == EndOfInput
    ensures r.Success? ==> lex.isIdentifier(r.value.0.name) && r.value.0.name !in PrimitiveInstructions()
    ensures r.Success? ==> r.value.0.body.Block?
  {
    if ts[0] != "PROGRAM" then Failure(UnexpectedToken("PROGRAM", ts[0]))
    else
      DropFront(ts);
      var name := ts[1];
      if !lex.isIdentifier(name) then Failure(NotAnIdentifier(name))
      else if name in PrimitiveInstructions() then Failure(PrimitiveName(name))
      else
        DropFront(ts[1..]);
        assert ts[1..][1..] == ts[2..];
        if ts[2] != "IS" then Failure(UnexpectedToken("IS", ts[2]))
        else
          DropFront(ts[2..]);
          assert ts[2..][1..] == ts[3..];
          match InstructionsFrom(lex, ts[3..], map[])
          case Failure(e) => Failure(e)
          case Success((ctx, rest)) =>
            SuffixTransitive(ts, ts[3..], rest);
            var r := ProgramBodyAt(lex, name, ctx, rest);
            if r.Success? then SuffixTransitive(ts, rest, r.value.1); r else r
  }

  /** `BEGIN B END n` and the check that only the sentinel is left. */
  function ProgramBodyAt(lex: Lexicon, name: string, ctx: map<string, Statement>, ts: seq<string>): (r: ParsedProgram)
    requires ValidLexicon(lex) && EndsWithSentinel(ts) && name != EndOfInput
    ensures r.Success? ==> r.value.0.name == name && r.value.0.context == ctx && r.value.0.body.Block?
    ensures r.Success? ==> IsSuffix(ts, r.value.1) && EndsWithSentinel(r.value.1) && r.value.1[0] == EndOfInput
  {
    if ts[0] != "BEGIN" then Failure(UnexpectedToken("BEGIN", ts[0]))
    else
      DropFront(ts);
      match BlockAt(lex, ts[1..])
      case Failure(e) => Failure(e)
      case Success((body, rest)) =>
        SuffixTransitive(ts, ts[1..], rest);
        if rest[0] != "END" then Failure(UnexpectedToken("END", rest[0]))
        else
          DropFront(rest);
          if rest[1] != name then Failure(UnexpectedToken(name, rest[1]))
          else
            DropFront(rest[1..]);
            assert rest[1..][1..] == rest[2..];
            SuffixTransitive(ts, rest, rest[2..]);
            if rest[2] != EndOfInput then Failure(TermsRemain)
            else Success((Program(name, ctx, body), rest[2..]))
  }

  /* The parser ------------------------------------------------------------ */

  predicate InstructionAgrees(spec: ParsedInstruction, r: Result<Instruction, ParseError>, items: seq<string>) {
    match spec
    case Success((instr, rest)) => r == Success(instr) && items == rest
    case Failure(e) => r == Failure(e)
  }

  method ParseInstruction(lex: Lexicon, tokens: TokenQueue) returns (r: Result<Instruction, ParseError>)
    requires ValidLexicon(lex) && EndsWithSentinel(tokens.items) && tokens.items[0] == "INSTRUCTION"
    modifies tokens
    ensures InstructionAgrees(InstructionAt(lex, old(tokens.items)), r, tokens.items)
  {
    ghost var ts := tokens.items;
    DropFront(ts);
    var instructionTok := tokens.Dequeue();
    var name := tokens.Dequeue();
    if !lex.isIdentifier(name) {
      return Failure(NotAnIdentifier(name));
    }
    DropFront(ts[1..]);
    assert tokens.items == ts[2..];
    var isTok := tokens.Dequeue();
    if isTok != "IS" {
      return Failure(UnexpectedToken("IS", isTok));
    }
    DropFront(ts[2..]);
    assert tokens.items == ts[3..];
    var body :- ParseBlock(lex, tokens);
    ghost var rest := tokens.items;
    var endTok := tokens.Dequeue();
    if endTok != "END" {
      return Failure(UnexpectedToken("END", endTok));
    }
    DropFront(rest);
    var endName := tokens.Dequeue();
    if endName != name {
      return Failure(NameMismatch(name, endName));
    }
    assert tokens.items == rest[2..];
    r := Success(Instruction(name, body));
  }

  /** A BL program object, filled in by `Parse`. */
  class BLProgram {
    var name: string
    var context: map<string, Statement>
    var body: Statement

    /** The empty program (its default name is not part of this model). */
    constructor ()
      ensures context == map[] && body == Block([])
    {
      name := "";
      context := map[];
      body := Block([]);
    }

    function Value(): Program
      reads this
    {
      Program(name, context, body)
    }

    /**
     * Replaces this program by the one `tokens` spells. On an error the
     * parse stops with that error and what this program holds is unspecified.
     */
    method Parse(lex: Lexicon, tokens: TokenQueue) returns (r: Result<(), ParseError>)
      requires ValidLexicon(lex) && EndsWithSentinel(tokens.items)
      modifies this, tokens
      ensures ProgramAt(lex, old(tokens.items)).Success? ==>
        r.Success? && Value() == ProgramAt(lex, old(tokens.items)).value.0
        && tokens.items == ProgramAt(lex, old(tokens.items)).value.1
      ensures ProgramAt(lex, old(tokens.items)).Failure? ==> r == Failure(ProgramAt(lex, old(tokens.items)).error)
    {
      ghost var ts := tokens.items;
      var programTok := tokens.Dequeue();
      if programTok != "PROGRAM" {
        return Failure(UnexpectedToken("PROGRAM", programTok));
      }
      DropFront(ts);
      var nameTok := tokens.Dequeue();
      if !lex.isIdentifier(nameTok) {
        return Failure(NotAnIdentifier(nameTok));
      }
      if nameTok in PrimitiveInstructions() {
        return Failure(PrimitiveName(nameTok));
      }
      name := nameTok;
      DropFront(ts[1..]);
      assert tokens.items == ts[2..];
      var isTok := tokens.Dequeue();
      if isTok != "IS" {
        return Failure(UnexpectedToken("IS", isTok));
      }
      DropFront(ts[2..]);
      assert tokens.items == ts[3..];
      var ctx: map<string, Statement> := map[];
      var front := tokens.Front();
      while front == "INSTRUCTION"
        invariant EndsWithSentinel(tokens.items) && front == tokens.items[0]
        invariant InstructionsFrom(lex, ts[3..], map[]) == InstructionsFrom(lex, tokens.items, ctx)
        invariant name == ts[1]
        decreases |tokens.items|
      {
        var parsed := ParseInstruction(lex, tokens);
        if parsed.Failure? {
          return Failure(parsed.error);
        }
        var instr := parsed.value;
        if instr.name in ctx {
          return Failure(DuplicateInstruction(instr.name));
        }
        if instr.name in PrimitiveInstructions() {
          return Failure(PrimitiveName(instr.name));
        }
        ctx := ctx[instr.name := instr.body];
        front := tokens.Front();
      }
      context := ctx;
      ghost var afterContext := tokens.items;
      r := ParseBody(lex, tokens);
      assert r.Success? ==> ProgramBodyAt(lex, name, ctx, afterContext).Success?;
    }

    /** `BEGIN B END n` and the check that nothing but the sentinel is left. */
    method ParseBody(lex: Lexicon, tokens: TokenQueue) returns (r: Result<(), ParseError>)
      requires ValidLexicon(lex) && EndsWithSentinel(tokens.items) && name != EndOfInput
      modifies this, tokens
      ensures name == old(name) && context == old(context)
      ensures ProgramBodyAt(lex, name, context, old(tokens.items)).Success? ==>
        r.Success? && Value() == ProgramBodyAt(lex, name, context, old(tokens.items)).value.0
        && tokens.items == ProgramBodyAt(lex, name, context, old(tokens.items)).value.1
      ensures ProgramBodyAt(lex, name, context, old(tokens.items)).Failure? ==>
        r == Failure(ProgramBodyAt(lex, name, context, old(tokens.items)).error)
    {
      ghost var ts := tokens.items;
      var beginTok := tokens.Dequeue();
      if beginTok != "BEGIN" {
        return Failure(UnexpectedToken("BEGIN", beginTok));
      }
      DropFront(ts);
      var b :- ParseBlock(lex, tokens);
      ghost var rest := tokens.items;
      var endTok := tokens.Dequeue();
      if endTok != "END" {
        return Failure(UnexpectedToken("END", endTok));
      }
      DropFront(rest);
      var endName := tokens.Dequeue();
      if endName != name {
        return Failure(UnexpectedToken(name, endName));
      }
      DropFront(rest[1..]);
      assert tokens.items == rest[2..];
      var last := tokens.Front();
      if last != EndOfInput {
        return Failure(TermsRemain);
      }
      body := b;
      r := Success(());
    }
  }
}
