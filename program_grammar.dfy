/**
 * What the program parser accepts, stated against the token string of a
 * program: a well-formed program is parsed back from its tokens with one
 * context entry per instruction, every program it returns is well formed,
 * and the error cases of the program skeleton.
 */
module ProgramGrammar {
  import opened Wrappers
  import opened BLSyntax
  import opened StatementParser
  import opened StatementGrammar
  import opened ProgramParser

  /* Token strings ------------------------------------------------------------ */

  function InstructionTokens(d: Instruction): seq<string> {
    ["INSTRUCTION", d.name, "IS"] + Render(d.body) + ["END", d.name]
  }

  function InstructionsTokens(ds: seq<Instruction>): seq<string> {
    if ds == [] then [] else InstructionTokens(ds[0]) + InstructionsTokens(ds[1..])
  }

  function ProgramTokens(n: string, ds: seq<Instruction>, body: Statement): seq<string> {
    ["PROGRAM", n, "IS"] + InstructionsTokens(ds) + ["BEGIN"] + Render(body) + ["END", n]
  }

  /** The context after the instructions `ds` are added, in order, to `ctx`. */
  function AddAll(ctx: map<string, Statement>, ds: seq<Instruction>): map<string, Statement>
    decreases |ds|
  {
    if ds == [] then ctx else AddAll(ctx[ds[0].name := ds[0].body], ds[1..])
  }

  /** Names are distinct identifiers, neither primitive nor already in `ctx`, and bodies are well-formed blocks. */
  predicate ValidInstructions(lex: Lexicon, ctx: map<string, Statement>, ds: seq<Instruction>) {
    && (forall i :: 0 <= i < |ds| ==>
          && lex.isIdentifier(ds[i].name)
          && ds[i].name !in PrimitiveInstructions()
          && ds[i].name !in ctx
          && ds[i].body.Block?
          && WellFormed(lex, ds[i].body))
    && (forall i, j :: 0 <= i < j < |ds| ==> ds[i].name != ds[j].name)
  }

  lemma SentinelAfter(a: seq<string>, b: seq<string>)
    requires EndsWithSentinel(b)
    ensures EndsWithSentinel(a + b)
  {
    assert (a + b)[|a + b| - 1] == b[|b| - 1];
  }

  /* The context ---------------------------------------------------------------- */

  /** Adding distinct fresh names adds one entry per instruction, binding each name to its body. */
  lemma {:induction false} AddAllContents(lex: Lexicon, ctx: map<string, Statement>, ds: seq<Instruction>)
    requires ValidInstructions(lex, ctx, ds)
    ensures |AddAll(ctx, ds)| == |ctx| + |ds|
    ensures forall k :: k in ctx ==> k in AddAll(ctx, ds) && AddAll(ctx, ds)[k] == ctx[k]
    ensures forall i :: 0 <= i < |ds| ==> ds[i].name in AddAll(ctx, ds) && AddAll(ctx, ds)[ds[i].name] == ds[i].body
    decreases |ds|
  {
    if ds != [] {
      var ctx' := ctx[ds[0].name := ds[0].body];
      ValidInstructionsTail(lex, ctx, ds);
      AddAllContents(lex, ctx', ds[1..]);
      var m := AddAll(ctx, ds);
      assert m == AddAll(ctx', ds[1..]);
      forall i | 0 <= i < |ds|
        ensures ds[i].name in m && m[ds[i].name] == ds[i].body
      {
        if i > 0 {
          assert ds[i] == ds[1..][i - 1];
        }
      }
    }
  }

  /* Completeness --------------------------------------------------------------- */

  /** InstructionAt in terms of the body block. */
  lemma InstructionAtParts(lex: Lexicon, ts: seq<string>, b: Statement, tail: seq<string>)
    requires ValidLexicon(lex) && EndsWithSentinel(ts) && ts[0] == "INSTRUCTION"
    requires |ts| > 3 && lex.isIdentifier(ts[1]) && ts[2] == "IS" && EndsWithSentinel(ts[3..])
    requires BlockAt(lex, ts[3..]) == Success((b, tail))
    ensures InstructionAt(lex, ts) == InstructionEnd(ts[1], b, tail)
  {
  }

  /** A well-formed instruction is parsed back from its tokens, whatever follows. */
  lemma InstructionAtRender(lex: Lexicon, d: Instruction, rest: seq<string>)
    requires ValidLexicon(lex) && lex.isIdentifier(d.name) && d.body.Block? && WellFormed(lex, d.body)
    requires EndsWithSentinel(rest)
    ensures EndsWithSentinel(InstructionTokens(d) + rest)
    ensures InstructionAt(lex, InstructionTokens(d) + rest) == Success((d, rest))
  {
    var tail := ["END", d.name] + rest;
    var ts := InstructionTokens(d) + rest;
    Associate4(["INSTRUCTION", d.name, "IS"], Render(d.body), ["END", d.name], rest);
    assert ts[3..] == Render(d.body) + tail;
    SentinelAfter(["END", d.name], rest);
    BlockAtRender(lex, d.body, tail);
    SentinelAfter(InstructionTokens(d), rest);
    InstructionAtParts(lex, ts, d.body, tail);
    assert tail[1] == d.name && tail[2..] == rest;
  }

  /** Reading valid instructions is the same as starting the loop with them already in the context. */
  lemma {:induction false} InstructionsFromPrefix(lex: Lexicon, ds: seq<Instruction>, ctx: map<string, Statement>, more: seq<string>)
    requires ValidLexicon(lex) && ValidInstructions(lex, ctx, ds) && EndsWithSentinel(more)
    ensures EndsWithSentinel(InstructionsTokens(ds) + more)
    ensures InstructionsFrom(lex, InstructionsTokens(ds) + more, ctx) == InstructionsFrom(lex, more, AddAll(ctx, ds))
    decreases |ds|
  {
    if ds == [] {
      assert InstructionsTokens(ds) + more == more;
    } else {
      var d := ds[0];
      var more' := InstructionsTokens(ds[1..]) + more;
      ValidInstructionsTail(lex, ctx, ds);
      InstructionsFromPrefix(lex, ds[1..], ctx[d.name := d.body], more);
      InstructionAtRender(lex, d, more');
      InstructionsTokensCons(ds, more);
      InstructionsFromStep(lex, InstructionTokens(d) + more', ctx, d, more');
    }
  }

  lemma ValidInstructionsTail(lex: Lexicon, ctx: map<string, Statement>, ds: seq<Instruction>)
    requires ValidInstructions(lex, ctx, ds) && ds != []
    ensures ValidInstructions(lex, ctx[ds[0].name := ds[0].body], ds[1..])
  {
    var ctx' := ctx[ds[0].name := ds[0].body];
    forall i | 0 <= i < |ds[1..]|
      ensures ds[1..][i].name !in ctx'
    {
      assert ds[1..][i] == ds[i + 1];
    }
  }

  lemma InstructionsTokensCons(ds: seq<Instruction>, more: seq<string>)
    requires ds != []
    ensures InstructionsTokens(ds) + more == InstructionTokens(ds[0]) + (InstructionsTokens(ds[1..]) + more)
  {
  }

  /** One turn of the instruction loop on a fresh, non-primitive name. */
  lemma InstructionsFromStep(lex: Lexicon, ts: seq<string>, ctx: map<string, Statement>, d: Instruction, rest: seq<string>)
    requires ValidLexicon(lex) && EndsWithSentinel(ts) && ts[0] == "INSTRUCTION"
    requires InstructionAt(lex, ts) == Success((d, rest))
    requires d.name !in ctx && d.name !in PrimitiveInstructions()
    ensures InstructionsFrom(lex, ts, ctx) == InstructionsFrom(lex, rest, ctx[d.name := d.body])
  {
  }

  /** ProgramAt in terms of the instruction loop. */
  lemma ProgramAtParts(lex: Lexicon, n: string, more: seq<string>)
    requires ValidLexicon(lex) && lex.isIdentifier(n) && n !in PrimitiveInstructions() && EndsWithSentinel(more)
    ensures EndsWithSentinel(["PROGRAM", n, "IS"] + more)
    ensures InstructionsFrom(lex, more, map[]).Failure? ==>
      ProgramAt(lex, ["PROGRAM", n, "IS"] + more) == Failure(InstructionsFrom(lex, more, map[]).error)
    ensures InstructionsFrom(lex, more, map[]).Success? ==>
      ProgramAt(lex, ["PROGRAM", n, "IS"] + more)
      == ProgramBodyAt(lex, n, InstructionsFrom(lex, more, map[]).value.0, InstructionsFrom(lex, more, map[]).value.1)
  {
    var ts := ["PROGRAM", n, "IS"] + more;
    SentinelAfter(["PROGRAM", n, "IS"], more);
    assert ts[3..] == more;
  }

  /** ProgramBodyAt in terms of the main block. */
  lemma ProgramBodyAtParts(lex: Lexicon, n: string, ctx: map<string, Statement>, ts: seq<string>, b: Statement, tail: seq<string>)
    requires ValidLexicon(lex) && EndsWithSentinel(ts) && n != EndOfInput && ts[0] == "BEGIN"
    requires EndsWithSentinel(ts[1..]) && BlockAt(lex, ts[1..]) == Success((b, tail))
    requires |tail| >= 3 && tail[0] == "END" && EndsWithSentinel(tail[2..])
    ensures tail[1] != n ==> ProgramBodyAt(lex, n, ctx, ts) == Failure(UnexpectedToken(n, tail[1]))
    ensures tail[1] == n && tail[2] != EndOfInput ==> ProgramBodyAt(lex, n, ctx, ts) == Failure(TermsRemain)
    ensures tail[1] == n && tail[2] == EndOfInput ==> ProgramBodyAt(lex, n, ctx, ts) == Success((Program(n, ctx, b), tail[2..]))
  {
    assert tail[1..][1..] == tail[2..];
  }

  /** The main part of a program, `BEGIN B END w` and what follows, read after any context. */
  lemma ProgramBodyRender(lex: Lexicon, n: string, ctx: map<string, Statement>, body: Statement, w: string, rest: seq<string>)
    requires ValidLexicon(lex) && n != EndOfInput && body.Block? && WellFormed(lex, body) && EndsWithSentinel(rest)
    ensures EndsWithSentinel(["BEGIN"] + Render(body) + ["END", w] + rest)
    ensures w != n ==> ProgramBodyAt(lex, n, ctx, ["BEGIN"] + Render(body) + ["END", w] + rest) == Failure(UnexpectedToken(n, w))
    ensures w == n && rest[0] != EndOfInput ==> ProgramBodyAt(lex, n, ctx, ["BEGIN"] + Render(body) + ["END", w] + rest) == Failure(TermsRemain)
    ensures w == n && rest[0] == EndOfInput ==> ProgramBodyAt(lex, n, ctx, ["BEGIN"] + Render(body) + ["END", w] + rest) == Success((Program(n, ctx, body), rest))
  {
    var tail := ["END", w] + rest;
    var ts := ["BEGIN"] + Render(body) + ["END", w] + rest;
    Associate4(["BEGIN"], Render(body), ["END", w], rest);
    assert ts[1..] == Render(body) + tail;
    SentinelAfter(["END", w], rest);
    SentinelAfter(Render(body), tail);
    SentinelAfter(["BEGIN"], Render(body) + tail);
    BlockAtRender(lex, body, tail);
    assert tail[2..] == rest;
    ProgramBodyAtParts(lex, n, ctx, ts, body, tail);
  }

  /**
   * A well-formed program is parsed back from its tokens: same name, same
   * body, and a context with exactly one entry per instruction, binding its
   * name to its body.
   */
  lemma ProgramAtRender(lex: Lexicon, n: string, ds: seq<Instruction>, body: Statement, rest: seq<string>)
    requires ValidLexicon(lex) && lex.isIdentifier(n) && n !in PrimitiveInstructions()
    requires ValidInstructions(lex, map[], ds) && body.Block? && WellFormed(lex, body)
    requires EndsWithSentinel(rest) && rest[0] == EndOfInput
    ensures EndsWithSentinel(ProgramTokens(n, ds, body) + rest)
    ensures ProgramAt(lex, ProgramTokens(n, ds, body) + rest) == Success((Program(n, AddAll(map[], ds), body), rest))
    ensures |AddAll(map[], ds)| == |ds|
    ensures forall i :: 0 <= i < |ds| ==> ds[i].name in AddAll(map[], ds) && AddAll(map[], ds)[ds[i].name] == ds[i].body
  {
    var main := ["BEGIN"] + Render(body) + ["END", n] + rest;
    ProgramTokensSplit(n, ds, body, n, rest);
    ProgramBodyRender(lex, n, AddAll(map[], ds), body, n, rest);
    InstructionsFromPrefix(lex, ds, map[], main);
    assert InstructionsFrom(lex, main, AddAll(map[], ds)) == Success((AddAll(map[], ds), main));
    ProgramAtParts(lex, n, InstructionsTokens(ds) + main);
    AddAllContents(lex, map[], ds);
  }

  lemma ProgramTokensSplit(n: string, ds: seq<Instruction>, body: Statement, w: string, rest: seq<string>)
    ensures ["PROGRAM", n, "IS"] + InstructionsTokens(ds) + ["BEGIN"] + Render(body) + ["END", w] + rest
      == ["PROGRAM", n, "IS"] + (InstructionsTokens(ds) + (["BEGIN"] + Render(body) + ["END", w] + rest))
  {
  }

  /* Error cases ------------------------------------------------------------------ */

  /** Any token other than the sentinel after `END n` is rejected: terms still remain. */
  lemma ProgramTermsRemain(lex: Lexicon, n: string, ds: seq<Instruction>, body: Statement, t: string, rest: seq<string>)
    requires ValidLexicon(lex) && lex.isIdentifier(n) && n !in PrimitiveInstructions()
    requires ValidInstructions(lex, map[], ds) && body.Block? && WellFormed(lex, body)
    requires EndsWithSentinel(rest) && t != EndOfInput
    ensures EndsWithSentinel(ProgramTokens(n, ds, body) + ([t] + rest))
    ensures ProgramAt(lex, ProgramTokens(n, ds, body) + ([t] + rest)) == Failure(TermsRemain)
  {
    var rest' := [t] + rest;
    SentinelAfter([t], rest);
    var main := ["BEGIN"] + Render(body) + ["END", n] + rest';
    ProgramTokensSplit(n, ds, body, n, rest');
    ProgramBodyRender(lex, n, AddAll(map[], ds), body, n, rest');
    InstructionsFromPrefix(lex, ds, map[], main);
    assert InstructionsFrom(lex, main, AddAll(map[], ds)) == Success((AddAll(map[], ds), main));
    ProgramAtParts(lex, n, InstructionsTokens(ds) + main);
  }

  /** A program closed by a name other than its own is rejected. */
  lemma ProgramWrongEndName(lex: Lexicon, n: string, ds: seq<Instruction>, body: Statement, w: string, rest: seq<string>)
    requires ValidLexicon(lex) && lex.isIdentifier(n) && n !in PrimitiveInstructions()
    requires ValidInstructions(lex, map[], ds) && body.Block? && WellFormed(lex, body)
    requires EndsWithSentinel(rest) && w != n
    ensures EndsWithSentinel(["PROGRAM", n, "IS"] + InstructionsTokens(ds) + ["BEGIN"] + Render(body) + ["END", w] + rest)
    ensures ProgramAt(lex, ["PROGRAM", n, "IS"] + InstructionsTokens(ds) + ["BEGIN"] + Render(body) + ["END", w] + rest)
      == Failure(UnexpectedToken(n, w))
  {
    var main := ["BEGIN"] + Render(body) + ["END", w] + rest;
    ProgramTokensSplit(n, ds, body, w, rest);
    ProgramBodyRender(lex, n, AddAll(map[], ds), body, w, rest);
    InstructionsFromPrefix(lex, ds, map[], main);
    assert InstructionsFrom(lex, main, AddAll(map[], ds)) == Success((AddAll(map[], ds), main));
    ProgramAtParts(lex, n, InstructionsTokens(ds) + main);
  }

  /** An instruction whose name was defined earlier in the program is rejected. */
  lemma ProgramDuplicateInstruction(lex: Lexicon, n: string, ds: seq<Instruction>, d: Instruction, rest: seq<string>)
    requires ValidLexicon(lex) && lex.isIdentifier(n) && n !in PrimitiveInstructions()
    requires ValidInstructions(lex, map[], ds) && lex.isIdentifier(d.name) && d.body.Block? && WellFormed(lex, d.body)
    requires EndsWithSentinel(rest) && exists i :: 0 <= i < |ds| && ds[i].name == d.name
    ensures EndsWithSentinel(["PROGRAM", n, "IS"] + (InstructionsTokens(ds) + (InstructionTokens(d) + rest)))
    ensures ProgramAt(lex, ["PROGRAM", n, "IS"] + (InstructionsTokens(ds) + (InstructionTokens(d) + rest)))
      == Failure(DuplicateInstruction(d.name))
  {
    var more := InstructionTokens(d) + rest;
    InstructionAtRender(lex, d, rest);
    InstructionsFromPrefix(lex, ds, map[], more);
    AddAllContents(lex, map[], ds);
    ProgramAtParts(lex, n, InstructionsTokens(ds) + more);
  }

  /** An instruction with a primitive name is rejected. */
  lemma InstructionPrimitiveName(lex: Lexicon, ctx: map<string, Statement>, d: Instruction, rest: seq<string>)
    requires ValidLexicon(lex) && lex.isIdentifier(d.name) && d.body.Block? && WellFormed(lex, d.body)
    requires EndsWithSentinel(rest) && d.name !in ctx && d.name in PrimitiveInstructions()
    ensures EndsWithSentinel(InstructionTokens(d) + rest)
    ensures InstructionsFrom(lex, InstructionTokens(d) + rest, ctx) == Failure(PrimitiveName(d.name))
  {
    InstructionAtRender(lex, d, rest);
  }

  /** A program named like a primitive instruction is rejected. */
  lemma ProgramPrimitiveName(lex: Lexicon, n: string, rest: seq<string>)
    requires ValidLexicon(lex) && lex.isIdentifier(n) && n in PrimitiveInstructions() && EndsWithSentinel(rest)
    ensures EndsWithSentinel(["PROGRAM", n] + rest)
    ensures ProgramAt(lex, ["PROGRAM", n] + rest) == Failure(PrimitiveName(n))
  {
    SentinelAfter(["PROGRAM", n], rest);
  }

  /** An instruction may share the program's name: `PROGRAM p IS INSTRUCTION p IS END p BEGIN END p` parses. */
  lemma InstructionNamedLikeProgram(lex: Lexicon, n: string)
    requires ValidLexicon(lex) && lex.isIdentifier(n) && n !in PrimitiveInstructions()
    ensures ProgramAt(lex, ["PROGRAM", n, "IS", "INSTRUCTION", n, "IS", "END", n, "BEGIN", "END", n, EndOfInput])
      == Success((Program(n, map[n := Block([])], Block([])), [EndOfInput]))
  {
    var ds := [Instruction(n, Block([]))];
    assert AddAll(map[], ds) == map[n := Block([])];
    ProgramAtRender(lex, n, ds, Block([]), [EndOfInput]);
    OneEmptyInstructionTokens(n);
  }

  lemma OneEmptyInstructionTokens(n: string)
    ensures ProgramTokens(n, [Instruction(n, Block([]))], Block([])) + [EndOfInput]
      == ["PROGRAM", n, "IS", "INSTRUCTION", n, "IS", "END", n, "BEGIN", "END", n, EndOfInput]
  {
    var ds := [Instruction(n, Block([]))];
    assert Render(Block([])) == [];
    assert InstructionsTokens(ds) == InstructionTokens(ds[0]) + InstructionsTokens([]);
    assert InstructionsTokens(ds) == ["INSTRUCTION", n, "IS", "END", n];
  }

  /* Soundness -------------------------------------------------------------------- */

  /**
   * `m` keeps every entry of `ctx`, and every entry it adds has an
   * identifier for a name, not a primitive one, and a well-formed block for a body.
   */
  predicate Extends(lex: Lexicon, ctx: map<string, Statement>, m: map<string, Statement>) {
    && (forall k :: k in ctx ==> k in m && m[k] == ctx[k])
    && (forall k :: k in m && k !in ctx ==>
          lex.isIdentifier(k) && k !in PrimitiveInstructions() && m[k].Block? && WellFormed(lex, m[k]))
  }

  lemma ExtendsTransitive(lex: Lexicon, a: map<string, Statement>, b: map<string, Statement>, c: map<string, Statement>)
    requires Extends(lex, a, b) && Extends(lex, b, c)
    ensures Extends(lex, a, c)
  {
  }

  /** The instruction loop only adds well-formed, non-primitive entries and keeps the earlier ones. */
  lemma {:induction false} InstructionsFromSound(lex: Lexicon, ts: seq<string>, ctx: map<string, Statement>)
    requires ValidLexicon(lex) && LowerCaseConditions(lex) && EndsWithSentinel(ts)
    requires InstructionsFrom(lex, ts, ctx).Success?
    ensures Extends(lex, ctx, InstructionsFrom(lex, ts, ctx).value.0)
    decreases |ts|
  {
    if ts[0] == "INSTRUCTION" {
      var p := InstructionAt(lex, ts).value;
      InstructionAtSound(lex, ts);
      var d := p.0;
      var ctx' := ctx[d.name := d.body];
      InstructionsFromNext(lex, ts, ctx);
      InstructionsFromStep(lex, ts, ctx, d, p.1);
      ExtendsByOne(lex, ctx, d);
      InstructionsFromSound(lex, p.1, ctx');
      ExtendsTransitive(lex, ctx, ctx', InstructionsFrom(lex, ts, ctx).value.0);
    }
  }

  /** A successful turn of the loop read an instruction with a fresh, non-primitive name. */
  lemma InstructionsFromNext(lex: Lexicon, ts: seq<string>, ctx: map<string, Statement>)
    requires ValidLexicon(lex) && EndsWithSentinel(ts) && ts[0] == "INSTRUCTION"
    requires InstructionsFrom(lex, ts, ctx).Success?
    ensures InstructionAt(lex, ts).Success?
    ensures InstructionAt(lex, ts).value.0.name !in ctx
    ensures InstructionAt(lex, ts).value.0.name !in PrimitiveInstructions()
  {
  }

  lemma ExtendsByOne(lex: Lexicon, ctx: map<string, Statement>, d: Instruction)
    requires lex.isIdentifier(d.name) && d.name !in PrimitiveInstructions() && d.name !in ctx
    requires d.body.Block? && WellFormed(lex, d.body)
    ensures Extends(lex, ctx, ctx[d.name := d.body])
  {
  }

  /**
   * A parsed instruction has a well-formed body and was spelled by exactly
   * the tokens consumed: `INSTRUCTION x IS B END x`.
   */
  lemma InstructionAtSound(lex: Lexicon, ts: seq<string>)
    requires ValidLexicon(lex) && LowerCaseConditions(lex) && EndsWithSentinel(ts) && ts[0] == "INSTRUCTION"
    requires InstructionAt(lex, ts).Success?
    ensures WellFormed(lex, InstructionAt(lex, ts).value.0.body)
    ensures ts == InstructionTokens(InstructionAt(lex, ts).value.0) + InstructionAt(lex, ts).value.1
  {
    DropFront(ts);
    DropFront(ts[1..]);
    assert ts[1..][1..] == ts[2..];
    DropFront(ts[2..]);
    assert ts[2..][1..] == ts[3..];
    var p := BlockAt(lex, ts[3..]).value;
    BlockAtSound(lex, ts[3..]);
    InstructionAtParts(lex, ts, p.0, p.1);
    var tail := p.1;
    var rest := InstructionAt(lex, ts).value.1;
    assert tail == ["END", ts[1]] + rest;
    SplitFront3(ts);
    Associate4(["INSTRUCTION", ts[1], "IS"], Render(p.0), ["END", ts[1]], rest);
  }

  /**
   * A successful instruction loop read definitions `ds` that are valid
   * after `ctx`, spelled by exactly the tokens it consumed, and added them
   * to the context in order.
   */
  lemma {:induction false} InstructionsFromTokens(lex: Lexicon, ts: seq<string>, ctx: map<string, Statement>)
    returns (ds: seq<Instruction>)
    requires ValidLexicon(lex) && LowerCaseConditions(lex) && EndsWithSentinel(ts)
    requires InstructionsFrom(lex, ts, ctx).Success?
    ensures ValidInstructions(lex, ctx, ds)
    ensures InstructionsFrom(lex, ts, ctx).value.0 == AddAll(ctx, ds)
    ensures ts == InstructionsTokens(ds) + InstructionsFrom(lex, ts, ctx).value.1
    decreases |ts|
  {
    if ts[0] != "INSTRUCTION" {
      ds := [];
      assert InstructionsTokens(ds) + ts == ts;
    } else {
      var p := InstructionAt(lex, ts).value;
      var d := p.0;
      InstructionAtSound(lex, ts);
      InstructionsFromNext(lex, ts, ctx);
      InstructionsFromStep(lex, ts, ctx, d, p.1);
      var ctx' := ctx[d.name := d.body];
      var ds' := InstructionsFromTokens(lex, p.1, ctx');
      ds := [d] + ds';
      ValidInstructionsCons(lex, ctx, d, ds');
      assert ds[0] == d && ds[1..] == ds';
      InstructionsTokensCons(ds, InstructionsFrom(lex, ts, ctx).value.1);
    }
  }

  /** A fresh valid definition in front of definitions valid after it is valid after `ctx`. */
  lemma ValidInstructionsCons(lex: Lexicon, ctx: map<string, Statement>, d: Instruction, ds: seq<Instruction>)
    requires lex.isIdentifier(d.name) && d.name !in PrimitiveInstructions() && d.name !in ctx
    requires d.body.Block? && WellFormed(lex, d.body)
    requires ValidInstructions(lex, ctx[d.name := d.body], ds)
    ensures ValidInstructions(lex, ctx, [d] + ds)
  {
    var ds' := [d] + ds;
    forall i | 0 < i < |ds'|
      ensures ds'[i] == ds[i - 1]
    {
    }
  }

  /**
   * A parsed program is well formed: its name is a non-primitive
   * identifier, every instruction name is a non-primitive identifier bound
   * to a well-formed block, and its body is a well-formed block. And it was
   * spelled by exactly the tokens consumed: `PROGRAM n IS`, valid
   * definitions `ds`, `BEGIN B END n`, with the context holding one entry
   * per definition.
   */
  lemma ProgramAtSound(lex: Lexicon, ts: seq<string>)
    requires ValidLexicon(lex) && LowerCaseConditions(lex) && EndsWithSentinel(ts)
    requires ProgramAt(lex, ts).Success?
    ensures lex.isIdentifier(ProgramAt(lex, ts).value.0.name)
    ensures ProgramAt(lex, ts).value.0.name !in PrimitiveInstructions()
    ensures forall k :: k in ProgramAt(lex, ts).value.0.context ==>
      && lex.isIdentifier(k) && k !in PrimitiveInstructions()
      && ProgramAt(lex, ts).value.0.context[k].Block?
      && WellFormed(lex, ProgramAt(lex, ts).value.0.context[k])
    ensures ProgramAt(lex, ts).value.0.body.Block? && WellFormed(lex, ProgramAt(lex, ts).value.0.body)
    ensures ProgramAt(lex, ts).value.0.name == ts[1]
    ensures exists ds :: ProgramSpelledBy(lex, ts, ProgramAt(lex, ts).value, ds)
  {
    ProgramAtFront(lex, ts);
    ProgramAtParts(lex, ts[1], ts[3..]);
    var q := InstructionsFrom(lex, ts[3..], map[]).value;
    InstructionsFromSound(lex, ts[3..], map[]);
    ProgramBodyAtSound(lex, ts[1], q.0, q.1);
    var ds := InstructionsFromTokens(lex, ts[3..], map[]);
    AddAllContents(lex, map[], ds);
    var r := ProgramAt(lex, ts).value;
    ProgramTokensSplit(ts[1], ds, r.0.body, ts[1], r.1);
    assert ProgramSpelledBy(lex, ts, r, ds);
  }

  /**
   * `ts` is the program `p.0` spelled with the valid definitions `ds`,
   * followed by `p.1`, and the context has one entry per definition.
   */
  predicate ProgramSpelledBy(lex: Lexicon, ts: seq<string>, p: (Program, seq<string>), ds: seq<Instruction>) {
    && ValidInstructions(lex, map[], ds)
    && p.0.context == AddAll(map[], ds)
    && |p.0.context| == |ds|
    && ts == ProgramTokens(p.0.name, ds, p.0.body) + p.1
  }

  /** What a successful ProgramAt has seen before the instructions. */
  lemma ProgramAtFront(lex: Lexicon, ts: seq<string>)
    requires ValidLexicon(lex) && EndsWithSentinel(ts) && ProgramAt(lex, ts).Success?
    ensures |ts| > 3 && ts[0] == "PROGRAM" && ts[2] == "IS" && EndsWithSentinel(ts[3..])
    ensures lex.isIdentifier(ts[1]) && ts[1] !in PrimitiveInstructions()
    ensures ts == ["PROGRAM", ts[1], "IS"] + ts[3..]
  {
    DropFront(ts);
    DropFront(ts[1..]);
    assert ts[1..][1..] == ts[2..];
    DropFront(ts[2..]);
    assert ts[2..][1..] == ts[3..];
    SplitFront3(ts);
  }

  /** The main part of a parsed program is a well-formed block, spelled `BEGIN B END n` by the tokens consumed. */
  lemma ProgramBodyAtSound(lex: Lexicon, n: string, ctx: map<string, Statement>, ts: seq<string>)
    requires ValidLexicon(lex) && LowerCaseConditions(lex) && EndsWithSentinel(ts) && n != EndOfInput
    requires ProgramBodyAt(lex, n, ctx, ts).Success?
    ensures WellFormed(lex, ProgramBodyAt(lex, n, ctx, ts).value.0.body)
    ensures ts == ["BEGIN"] + Render(ProgramBodyAt(lex, n, ctx, ts).value.0.body) + ["END", n]
      + ProgramBodyAt(lex, n, ctx, ts).value.1
  {
    DropFront(ts);
    var p := BlockAt(lex, ts[1..]).value;
    var body, tail := p.0, p.1;
    BlockAtSound(lex, ts[1..]);
    assert tail[0] == "END" && tail[1] == n;
    DropFront(tail);
    DropFront(tail[1..]);
    assert tail[1..][1..] == tail[2..];
    ProgramBodyAtParts(lex, n, ctx, ts, body, tail);
    var rest := tail[2..];
    SplitFront2(tail);
    assert ts == ["BEGIN"] + ts[1..];
    Associate4(["BEGIN"], Render(body), ["END", n], rest);
  }

  /** The first two tokens, then the rest. */
  lemma SplitFront2(ts: seq<string>)
    requires |ts| >= 2
    ensures ts == [ts[0], ts[1]] + ts[2..]
  {
  }
}
