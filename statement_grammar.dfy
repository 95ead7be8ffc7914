/**
 * What the statement parser accepts, stated against `Render`, the token
 * string of a statement: it parses every well-formed statement back from
 * its tokens (completeness), every statement it returns is well formed and
 * was spelled by exactly the tokens it consumed (soundness), and the error
 * cases of the grammar.
 */
module StatementGrammar {
  import opened Wrappers
  import opened BLSyntax
  import opened StatementParser

  /* Completeness ------------------------------------------------------------ */

  /** A well-formed non-block statement is parsed back from its tokens, whatever follows. */
  lemma {:induction false} StatementAtRender(lex: Lexicon, s: Statement, rest: seq<string>)
    requires ValidLexicon(lex) && WellFormed(lex, s) && !s.Block? && EndsWithSentinel(rest)
    ensures EndsWithSentinel(Render(s) + rest)
    ensures StatementAt(lex, Render(s) + rest) == Success((s, rest))
    decreases s, 1
  {
    match s
    case If(c, b) =>
      assert Render(s) + rest == ["IF", Spelling(c), "THEN"] + Render(b) + ["END", "IF"] + rest;
      IfRender(lex, c, b, rest);
    case IfElse(c, b1, b2) =>
      assert Render(s) + rest
        == ["IF", Spelling(c), "THEN"] + Render(b1) + ["ELSE"] + Render(b2) + ["END", "IF"] + rest;
      IfElseRender(lex, c, b1, b2, rest);
    case While(c, b) =>
      assert Render(s) + rest == ["WHILE", Spelling(c), "DO"] + Render(b) + ["END", "WHILE"] + rest;
      WhileRender(lex, c, b, rest);
    case Call(n) =>
      assert (Render(s) + rest)[1..] == rest;
  }

  lemma {:induction false} IfRender(lex: Lexicon, c: Condition, b: Statement, rest: seq<string>)
    requires ValidLexicon(lex) && ValidCondition(lex, c) && b.Block? && WellFormed(lex, b)
    requires EndsWithSentinel(rest)
    ensures EndsWithSentinel(["IF", Spelling(c), "THEN"] + Render(b) + ["END", "IF"] + rest)
    ensures IfAt(lex, ["IF", Spelling(c), "THEN"] + Render(b) + ["END", "IF"] + rest) == Success((If(c, b), rest))
    decreases If(c, b), 0
  {
    var tail := ["END", "IF"] + rest;
    var ts := ["IF", Spelling(c), "THEN"] + Render(b) + ["END", "IF"] + rest;
    assert ts[1] == Spelling(c) && ts[2] == "THEN" && ts[3..] == Render(b) + tail;
    ConditionNameOfSpelling(c);
    BlockAtRender(lex, b, tail);
    assert tail[1] == "IF" && tail[2..] == rest;
  }

  lemma {:induction false} IfElseRender(lex: Lexicon, c: Condition, b1: Statement, b2: Statement, rest: seq<string>)
    requires ValidLexicon(lex) && ValidCondition(lex, c)
    requires b1.Block? && WellFormed(lex, b1) && b2.Block? && WellFormed(lex, b2)
    requires EndsWithSentinel(rest)
    ensures EndsWithSentinel(["IF", Spelling(c), "THEN"] + Render(b1) + ["ELSE"] + Render(b2) + ["END", "IF"] + rest)
    ensures IfAt(lex, ["IF", Spelling(c), "THEN"] + Render(b1) + ["ELSE"] + Render(b2) + ["END", "IF"] + rest)
      == Success((IfElse(c, b1, b2), rest))
    decreases IfElse(c, b1, b2), 0
  {
    var tail2 := ["END", "IF"] + rest;
    var tail1 := ["ELSE"] + (Render(b2) + tail2);
    var ts := ["IF", Spelling(c), "THEN"] + Render(b1) + ["ELSE"] + Render(b2) + ["END", "IF"] + rest;
    Associate6(["IF", Spelling(c), "THEN"], Render(b1), ["ELSE"], Render(b2), ["END", "IF"], rest);
    assert ts[3..] == Render(b1) + tail1;
    ConditionNameOfSpelling(c);
    BlockAtRender(lex, b1, tail1);
    assert tail1[1..] == Render(b2) + tail2;
    BlockAtRender(lex, b2, tail2);
    IfAtElse(lex, ts, b1, tail1, b2, tail2);
    assert tail2[1] == "IF" && tail2[2..] == rest;
  }

  /** IfAt when the then-part is followed by ELSE, in terms of its two blocks. */
  lemma IfAtElse(lex: Lexicon, ts: seq<string>, b1: Statement, tail1: seq<string>, b2: Statement, tail2: seq<string>)
    requires ValidLexicon(lex) && EndsWithSentinel(ts) && ts[0] == "IF"
    requires |ts| > 3 && lex.isCondition(ts[1]) && ts[2] == "THEN" && EndsWithSentinel(ts[3..])
    requires BlockAt(lex, ts[3..]) == Success((b1, tail1)) && tail1[0] == "ELSE"
    requires EndsWithSentinel(tail1[1..]) && BlockAt(lex, tail1[1..]) == Success((b2, tail2))
    ensures IfAt(lex, ts) == CloseWith("IF", IfElse(ConditionName(ts[1]), b1, b2), tail2)
  {
  }

  lemma {:induction false} WhileRender(lex: Lexicon, c: Condition, b: Statement, rest: seq<string>)
    requires ValidLexicon(lex) && ValidCondition(lex, c) && b.Block? && WellFormed(lex, b)
    requires EndsWithSentinel(rest)
    ensures EndsWithSentinel(["WHILE", Spelling(c), "DO"] + Render(b) + ["END", "WHILE"] + rest)
    ensures WhileAt(lex, ["WHILE", Spelling(c), "DO"] + Render(b) + ["END", "WHILE"] + rest) == Success((While(c, b), rest))
    decreases While(c, b), 0
  {
    var tail := ["END", "WHILE"] + rest;
    var ts := ["WHILE", Spelling(c), "DO"] + Render(b) + ["END", "WHILE"] + rest;
    assert ts[1] == Spelling(c) && ts[2] == "DO" && ts[3..] == Render(b) + tail;
    ConditionNameOfSpelling(c);
    BlockAtRender(lex, b, tail);
    assert tail[1] == "WHILE" && tail[2..] == rest;
  }

  /** A well-formed block is parsed back from its tokens when a block terminator follows. */
  lemma {:induction false} BlockAtRender(lex: Lexicon, b: Statement, rest: seq<string>)
    requires ValidLexicon(lex) && WellFormed(lex, b) && b.Block?
    requires EndsWithSentinel(rest) && IsBlockEnd(rest[0])
    ensures EndsWithSentinel(Render(b) + rest)
    ensures BlockAt(lex, Render(b) + rest) == Success((b, rest))
    decreases b, 2
  {
    BlockFromRender(lex, [], b.children, rest);
    assert [] + b.children == b.children;
  }

  /** The first statement of a block renders to tokens that do not start with a block end, and the rest is a block too. */
  lemma FirstChild(lex: Lexicon, ss: seq<Statement>)
    requires WellFormed(lex, Block(ss)) && ss != []
    ensures WellFormed(lex, ss[0]) && !ss[0].Block? && Render(ss[0]) != [] && !IsBlockEnd(Render(ss[0])[0])
    ensures WellFormed(lex, Block(ss[1..]))
  {
    forall i | 0 <= i < |ss[1..]|
      ensures !ss[1..][i].Block? && WellFormed(lex, ss[1..][i]) && !(ss[1..][i].Call? && IsBlockEnd(ss[1..][i].name))
    {
      assert ss[1..][i] == ss[i + 1];
    }
    match ss[0]
    case Call(n) =>
    case If(c, b) =>
    case IfElse(c, b1, b2) =>
    case While(c, b) =>
  }

  /** After the statements `acc`, the block loop parses the statements `ss` back from their tokens. */
  lemma {:induction false} BlockFromRender(lex: Lexicon, acc: seq<Statement>, ss: seq<Statement>, rest: seq<string>)
    requires ValidLexicon(lex) && WellFormed(lex, Block(ss))
    requires EndsWithSentinel(rest) && IsBlockEnd(rest[0])
    ensures EndsWithSentinel(RenderAll(ss) + rest)
    ensures BlockFrom(lex, RenderAll(ss) + rest, acc) == Success((Block(acc + ss), rest))
    decreases ss
  {
    if ss == [] {
      assert acc + ss == acc;
      assert RenderAll(ss) + rest == rest;
    } else {
      FirstChild(lex, ss);
      BlockFromRender(lex, acc + [ss[0]], ss[1..], rest);
      Unshift(acc, ss);
      ChildParsed(lex, acc, ss[0], RenderAll(ss[1..]) + rest, Success((Block(acc + ss), rest)));
      assert RenderAll(ss) == Render(ss[0]) + RenderAll(ss[1..]);
      Regroup(Render(ss[0]), RenderAll(ss[1..]), rest);
    }
  }

  /** A statement of the block, rendered in front of tokens the loop parses, is parsed first. */
  lemma ChildParsed(lex: Lexicon, acc: seq<Statement>, child: Statement, after: seq<string>, r: Parsed)
    requires ValidLexicon(lex) && WellFormed(lex, child) && !child.Block?
    requires Render(child) != [] && !IsBlockEnd(Render(child)[0])
    requires EndsWithSentinel(after) && BlockFrom(lex, after, acc + [child]) == r
    ensures EndsWithSentinel(Render(child) + after) && BlockFrom(lex, Render(child) + after, acc) == r
    decreases child, 2
  {
    StatementAtRender(lex, child, after);
    assert (Render(child) + after)[0] == Render(child)[0];
    BlockFromNext(lex, Render(child) + after, acc, child, after);
  }

  /** The block loop goes on past a statement it parses where no block end stands. */
  lemma BlockFromNext(lex: Lexicon, ts: seq<string>, acc: seq<Statement>, s: Statement, after: seq<string>)
    requires ValidLexicon(lex) && EndsWithSentinel(ts) && !IsBlockEnd(ts[0])
    requires StatementAt(lex, ts) == Success((s, after))
    ensures EndsWithSentinel(after) && BlockFrom(lex, ts, acc) == BlockFrom(lex, after, acc + [s])
  {
  }

  lemma Regroup<T>(a: seq<T>, b: seq<T>, c: seq<T>)
    ensures a + b + c == a + (b + c)
  {
  }

  lemma Unshift<T>(acc: seq<T>, ss: seq<T>)
    requires ss != []
    ensures acc + [ss[0]] + ss[1..] == acc + ss
  {
    assert [ss[0]] + ss[1..] == ss;
  }

  /* Soundness --------------------------------------------------------------- */

  /**
   * A statement the parser returns is well formed, and the tokens it took
   * are exactly that statement's token string.
   */
  lemma {:induction false} StatementAtSound(lex: Lexicon, ts: seq<string>)
    requires ValidLexicon(lex) && LowerCaseConditions(lex) && EndsWithSentinel(ts)
    requires StatementAt(lex, ts).Success?
    ensures WellFormed(lex, StatementAt(lex, ts).value.0)
    ensures ts == Render(StatementAt(lex, ts).value.0) + StatementAt(lex, ts).value.1
    decreases |ts|, 1
  {
    if ts[0] == "IF" {
      IfAtSound(lex, ts);
    } else if ts[0] == "WHILE" {
      WhileAtSound(lex, ts);
    } else {
      assert ts == [ts[0]] + ts[1..];
    }
  }

  lemma {:induction false} IfAtSound(lex: Lexicon, ts: seq<string>)
    requires ValidLexicon(lex) && LowerCaseConditions(lex) && EndsWithSentinel(ts) && ts[0] == "IF"
    requires IfAt(lex, ts).Success?
    ensures WellFormed(lex, IfAt(lex, ts).value.0)
    ensures ts == Render(IfAt(lex, ts).value.0) + IfAt(lex, ts).value.1
    decreases |ts|, 0
  {
    IfAtFront(lex, ts);
    var c := ConditionName(ts[1]);
    SpellingOfConditionName(ts[1]);
    var (thenPart, rest) := BlockAt(lex, ts[3..]).value;
    BlockAtSound(lex, ts[3..]);
    if rest[0] == "ELSE" {
      IfAtElseFront(lex, ts, thenPart, rest);
      var (elsePart, rest') := BlockAt(lex, rest[1..]).value;
      BlockAtSound(lex, rest[1..]);
      IfAtElse(lex, ts, thenPart, rest, elsePart, rest');
      IfElseCloseSound(lex, ts, c, thenPart, rest, elsePart, rest');
    } else {
      IfAtNoElse(lex, ts, thenPart, rest);
      IfCloseSound(lex, ts, c, thenPart, rest);
    }
  }

  /** What a successful IfAt has seen before its then-part. */
  lemma IfAtFront(lex: Lexicon, ts: seq<string>)
    requires ValidLexicon(lex) && EndsWithSentinel(ts) && ts[0] == "IF" && IfAt(lex, ts).Success?
    ensures |ts| > 3 && lex.isCondition(ts[1]) && ts[2] == "THEN" && EndsWithSentinel(ts[3..])
    ensures ts == ["IF", ts[1], "THEN"] + ts[3..]
    ensures BlockAt(lex, ts[3..]).Success?
  {
    DropFront(ts);
    DropFront(ts[1..]);
    assert ts[1..][1..] == ts[2..];
    DropFront(ts[2..]);
    assert ts[2..][1..] == ts[3..];
    SplitFront3(ts);
  }

  /** The first three tokens, then the rest. */
  lemma SplitFront3(ts: seq<string>)
    requires |ts| >= 3
    ensures ts == [ts[0], ts[1], ts[2]] + ts[3..]
  {
  }

  /** What a successful IfAt has seen before its else-part. */
  lemma IfAtElseFront(lex: Lexicon, ts: seq<string>, b1: Statement, tail1: seq<string>)
    requires ValidLexicon(lex) && EndsWithSentinel(ts) && ts[0] == "IF" && IfAt(lex, ts).Success?
    requires |ts| > 3 && lex.isCondition(ts[1]) && ts[2] == "THEN" && EndsWithSentinel(ts[3..])
    requires BlockAt(lex, ts[3..]) == Success((b1, tail1)) && tail1[0] == "ELSE"
    ensures EndsWithSentinel(tail1[1..]) && BlockAt(lex, tail1[1..]).Success?
  {
    DropFront(tail1);
  }

  lemma IfElseCloseSound(lex: Lexicon, ts: seq<string>, c: Condition, b1: Statement, tail1: seq<string>,
                         b2: Statement, tail2: seq<string>)
    requires ValidLexicon(lex) && ValidCondition(lex, c) && EndsWithSentinel(tail2)
    requires b1.Block? && WellFormed(lex, b1) && b2.Block? && WellFormed(lex, b2)
    requires |ts| >= 3 && ts == ["IF", Spelling(c), "THEN"] + ts[3..] && ts[3..] == Render(b1) + tail1
    requires |tail1| >= 1 && tail1[0] == "ELSE" && tail1[1..] == Render(b2) + tail2
    requires CloseWith("IF", IfElse(c, b1, b2), tail2).Success?
    ensures WellFormed(lex, CloseWith("IF", IfElse(c, b1, b2), tail2).value.0)
    ensures ts == Render(IfElse(c, b1, b2)) + CloseWith("IF", IfElse(c, b1, b2), tail2).value.1
  {
    CloseWithSound("IF", IfElse(c, b1, b2), tail2);
    assert tail1 == ["ELSE"] + tail1[1..];
    Associate6(["IF", Spelling(c), "THEN"], Render(b1), ["ELSE"], Render(b2), ["END", "IF"], tail2[2..]);
  }

  lemma Associate6<T>(a: seq<T>, b: seq<T>, c: seq<T>, d: seq<T>, e: seq<T>, f: seq<T>)
    ensures a + b + c + d + e + f == a + (b + (c + (d + (e + f))))
  {
  }

  lemma IfCloseSound(lex: Lexicon, ts: seq<string>, c: Condition, b1: Statement, tail1: seq<string>)
    requires ValidLexicon(lex) && ValidCondition(lex, c) && EndsWithSentinel(tail1)
    requires b1.Block? && WellFormed(lex, b1)
    requires |ts| >= 3 && ts == ["IF", Spelling(c), "THEN"] + ts[3..] && ts[3..] == Render(b1) + tail1
    requires CloseWith("IF", If(c, b1), tail1).Success?
    ensures WellFormed(lex, CloseWith("IF", If(c, b1), tail1).value.0)
    ensures ts == Render(If(c, b1)) + CloseWith("IF", If(c, b1), tail1).value.1
  {
    CloseWithSound("IF", If(c, b1), tail1);
    Associate4(["IF", Spelling(c), "THEN"], Render(b1), ["END", "IF"], tail1[2..]);
  }

  /** A successful close took exactly `END closer`. */
  lemma CloseWithSound(closer: string, s: Statement, rest: seq<string>)
    requires closer != EndOfInput && EndsWithSentinel(rest) && CloseWith(closer, s, rest).Success?
    ensures CloseWith(closer, s, rest) == Success((s, rest[2..]))
    ensures rest == ["END", closer] + rest[2..]
  {
  }

  /** IfAt when no ELSE follows the then-part. */
  lemma IfAtNoElse(lex: Lexicon, ts: seq<string>, b1: Statement, tail1: seq<string>)
    requires ValidLexicon(lex) && EndsWithSentinel(ts) && ts[0] == "IF"
    requires |ts| > 3 && lex.isCondition(ts[1]) && ts[2] == "THEN" && EndsWithSentinel(ts[3..])
    requires BlockAt(lex, ts[3..]) == Success((b1, tail1)) && tail1[0] != "ELSE"
    ensures IfAt(lex, ts) == CloseWith("IF", If(ConditionName(ts[1]), b1), tail1)
  {
  }

  lemma {:induction false} WhileAtSound(lex: Lexicon, ts: seq<string>)
    requires ValidLexicon(lex) && LowerCaseConditions(lex) && EndsWithSentinel(ts) && ts[0] == "WHILE"
    requires WhileAt(lex, ts).Success?
    ensures WellFormed(lex, WhileAt(lex, ts).value.0)
    ensures ts == Render(WhileAt(lex, ts).value.0) + WhileAt(lex, ts).value.1
    decreases |ts|, 0
  {
    WhileAtFront(lex, ts);
    var c := ConditionName(ts[1]);
    SpellingOfConditionName(ts[1]);
    var (body, rest) := BlockAt(lex, ts[3..]).value;
    BlockAtSound(lex, ts[3..]);
    WhileAtParts(lex, ts, body, rest);
    WhileCloseSound(lex, ts, c, body, rest);
  }

  /** What a successful WhileAt has seen before its body. */
  lemma WhileAtFront(lex: Lexicon, ts: seq<string>)
    requires ValidLexicon(lex) && EndsWithSentinel(ts) && ts[0] == "WHILE" && WhileAt(lex, ts).Success?
    ensures |ts| > 3 && lex.isCondition(ts[1]) && ts[2] == "DO" && EndsWithSentinel(ts[3..])
    ensures ts == ["WHILE", ts[1], "DO"] + ts[3..]
    ensures BlockAt(lex, ts[3..]).Success?
  {
    DropFront(ts);
    DropFront(ts[1..]);
    assert ts[1..][1..] == ts[2..];
    DropFront(ts[2..]);
    assert ts[2..][1..] == ts[3..];
    SplitFront3(ts);
  }

  lemma WhileCloseSound(lex: Lexicon, ts: seq<string>, c: Condition, b: Statement, tail: seq<string>)
    requires ValidLexicon(lex) && ValidCondition(lex, c) && EndsWithSentinel(tail)
    requires b.Block? && WellFormed(lex, b)
    requires |ts| >= 3 && ts == ["WHILE", Spelling(c), "DO"] + ts[3..] && ts[3..] == Render(b) + tail
    requires CloseWith("WHILE", While(c, b), tail).Success?
    ensures WellFormed(lex, CloseWith("WHILE", While(c, b), tail).value.0)
    ensures ts == Render(While(c, b)) + CloseWith("WHILE", While(c, b), tail).value.1
  {
    CloseWithSound("WHILE", While(c, b), tail);
    Associate4(["WHILE", Spelling(c), "DO"], Render(b), ["END", "WHILE"], tail[2..]);
  }

  lemma Associate4<T>(a: seq<T>, b: seq<T>, c: seq<T>, d: seq<T>)
    ensures a + b + c + d == a + (b + (c + d))
  {
  }

  /** WhileAt in terms of its body block. */
  lemma WhileAtParts(lex: Lexicon, ts: seq<string>, b: Statement, tail: seq<string>)
    requires ValidLexicon(lex) && EndsWithSentinel(ts) && ts[0] == "WHILE"
    requires |ts| > 3 && lex.isCondition(ts[1]) && ts[2] == "DO" && EndsWithSentinel(ts[3..])
    requires BlockAt(lex, ts[3..]) == Success((b, tail))
    ensures WhileAt(lex, ts) == CloseWith("WHILE", While(ConditionName(ts[1]), b), tail)
  {
  }

  lemma {:induction false} BlockAtSound(lex: Lexicon, ts: seq<string>)
    requires ValidLexicon(lex) && LowerCaseConditions(lex) && EndsWithSentinel(ts)
    requires BlockAt(lex, ts).Success?
    ensures WellFormed(lex, BlockAt(lex, ts).value.0)
    ensures ts == Render(BlockAt(lex, ts).value.0) + BlockAt(lex, ts).value.1
    decreases |ts|, 3
  {
    BlockFromSound(lex, ts, []);
    var b := BlockAt(lex, ts).value.0;
    assert b.children[0..] == b.children;
  }

  lemma {:induction false} BlockFromSound(lex: Lexicon, ts: seq<string>, acc: seq<Statement>)
    requires ValidLexicon(lex) && LowerCaseConditions(lex) && EndsWithSentinel(ts)
    requires WellFormed(lex, Block(acc))
    requires BlockFrom(lex, ts, acc).Success?
    ensures WellFormed(lex, BlockFrom(lex, ts, acc).value.0)
    ensures ts == RenderAll(BlockFrom(lex, ts, acc).value.0.children[|acc|..]) + BlockFrom(lex, ts, acc).value.1
    decreases |ts|, 2
  {
    if IsBlockEnd(ts[0]) {
      assert BlockFrom(lex, ts, acc) == Success((Block(acc), ts));
      assert acc[|acc|..] == [];
    } else {
      BlockFromStep(lex, ts, acc);
      var p := StatementAt(lex, ts).value;
      StatementAtSound(lex, ts);
      AppendWellFormed(lex, acc, p.0, ts);
      BlockFromSound(lex, p.1, acc + [p.0]);
      var q := BlockFrom(lex, p.1, acc + [p.0]).value;
      BlockFromConcat(ts, acc, p.0, p.1, q.0.children, q.1);
    }
  }

  lemma BlockFromConcat(ts: seq<string>, acc: seq<Statement>, s: Statement, rest: seq<string>,
                        children: seq<Statement>, rest': seq<string>)
    requires acc + [s] <= children
    requires ts == Render(s) + rest && rest == RenderAll(children[|acc + [s]|..]) + rest'
    ensures ts == RenderAll(children[|acc|..]) + rest'
  {
    assert children[|acc|] == (acc + [s])[|acc|];
    RenderAllFrom(children, |acc|);
  }

  /** One turn of the block loop: a statement is parsed and the loop goes on after it. */
  lemma BlockFromStep(lex: Lexicon, ts: seq<string>, acc: seq<Statement>)
    requires ValidLexicon(lex) && EndsWithSentinel(ts) && !IsBlockEnd(ts[0])
    requires BlockFrom(lex, ts, acc).Success?
    ensures StatementAt(lex, ts).Success?
    ensures BlockFrom(lex, ts, acc) == BlockFrom(lex, StatementAt(lex, ts).value.1, acc + [StatementAt(lex, ts).value.0])
  {
  }

  /** A statement parsed inside a block may join the block's children. */
  lemma AppendWellFormed(lex: Lexicon, acc: seq<Statement>, s: Statement, ts: seq<string>)
    requires WellFormed(lex, Block(acc)) && WellFormed(lex, s) && !s.Block?
    requires |ts| > 0 && !IsBlockEnd(ts[0]) && (s.Call? ==> ts == Render(s) + ts[1..])
    ensures WellFormed(lex, Block(acc + [s]))
  {
    var ss := acc + [s];
    forall i | 0 <= i < |ss|
      ensures !ss[i].Block? && WellFormed(lex, ss[i]) && !(ss[i].Call? && IsBlockEnd(ss[i].name))
    {
      if i < |acc| {
        assert ss[i] == acc[i];
      }
    }
  }

  lemma RenderAllFrom(ss: seq<Statement>, k: nat)
    requires k < |ss|
    ensures RenderAll(ss[k..]) == Render(ss[k]) + RenderAll(ss[k + 1..])
  {
    assert ss[k..][0] == ss[k] && ss[k..][1..] == ss[k + 1..];
  }

  /* Shape and error cases ----------------------------------------------------- */

  /** A front token other than IF and WHILE parses exactly when it is a call name, taking one token. */
  lemma StatementAtCall(lex: Lexicon, ts: seq<string>)
    requires ValidLexicon(lex) && EndsWithSentinel(ts) && ts[0] != "IF" && ts[0] != "WHILE"
    ensures StatementAt(lex, ts).Success? <==> CallName(lex, ts[0])
    ensures StatementAt(lex, ts).Success? ==> StatementAt(lex, ts).value == (Call(ts[0]), ts[1..])
    ensures lex.isCondition(ts[0]) ==> StatementAt(lex, ts) == Failure(IsACondition(ts[0]))
    ensures !lex.isCondition(ts[0]) && !lex.isIdentifier(ts[0]) ==> StatementAt(lex, ts) == Failure(NotACall(ts[0]))
  {
  }

  /** A block that starts at a terminator is empty and leaves the terminator in place. */
  lemma BlockAtTerminator(lex: Lexicon, ts: seq<string>)
    requires ValidLexicon(lex) && EndsWithSentinel(ts) && IsBlockEnd(ts[0])
    ensures BlockAt(lex, ts) == Success((Block([]), ts))
  {
  }

  /** An IF closed by any word other than IF is rejected, naming the expected IF. */
  lemma {:induction false} IfWrongCloser(lex: Lexicon, c: Condition, b: Statement, w: string, rest: seq<string>)
    requires ValidLexicon(lex) && ValidCondition(lex, c) && b.Block? && WellFormed(lex, b)
    requires EndsWithSentinel(rest) && w != "IF"
    ensures EndsWithSentinel(["IF", Spelling(c), "THEN"] + Render(b) + ["END", w] + rest)
    ensures IfAt(lex, ["IF", Spelling(c), "THEN"] + Render(b) + ["END", w] + rest) == Failure(UnexpectedToken("IF", w))
  {
    var tail := ["END", w] + rest;
    var ts := ["IF", Spelling(c), "THEN"] + Render(b) + ["END", w] + rest;
    assert ts == ["IF", Spelling(c), "THEN"] + (Render(b) + tail);
    assert ts[3..] == Render(b) + tail;
    ConditionNameOfSpelling(c);
    BlockAtRender(lex, b, tail);
  }

  /** A WHILE closed by any word other than WHILE is rejected. */
  lemma {:induction false} WhileWrongCloser(lex: Lexicon, c: Condition, b: Statement, w: string, rest: seq<string>)
    requires ValidLexicon(lex) && ValidCondition(lex, c) && b.Block? && WellFormed(lex, b)
    requires EndsWithSentinel(rest) && w != "WHILE"
    ensures EndsWithSentinel(["WHILE", Spelling(c), "DO"] + Render(b) + ["END", w] + rest)
    ensures WhileAt(lex, ["WHILE", Spelling(c), "DO"] + Render(b) + ["END", w] + rest) == Failure(UnexpectedToken("WHILE", w))
  {
    var tail := ["END", w] + rest;
    var ts := ["WHILE", Spelling(c), "DO"] + Render(b) + ["END", w] + rest;
    assert ts == ["WHILE", Spelling(c), "DO"] + (Render(b) + tail);
    assert ts[3..] == Render(b) + tail;
    ConditionNameOfSpelling(c);
    BlockAtRender(lex, b, tail);
  }

  /** `IF c THEN call1 END IF` parses to an IF whose body holds the one call. */
  lemma IfWithOneCall(lex: Lexicon, c: Condition, call1: string)
    requires ValidLexicon(lex) && ValidCondition(lex, c) && CallName(lex, call1) && !IsBlockEnd(call1)
    ensures StatementAt(lex, ["IF", Spelling(c), "THEN", call1, "END", "IF", EndOfInput])
      == Success((If(c, Block([Call(call1)])), [EndOfInput]))
  {
    var s := If(c, Block([Call(call1)]));
    assert RenderAll([Call(call1)]) == Render(Call(call1)) + RenderAll([]);
    assert Render(Block([Call(call1)])) == [call1];
    assert Render(s) + [EndOfInput] == ["IF", Spelling(c), "THEN", call1, "END", "IF", EndOfInput];
    StatementAtRender(lex, s, [EndOfInput]);
  }
}
