/**
 * The BL statement parser (Statement1Parse1).
 *
 * The functions `StatementAt`, `IfAt`, `WhileAt`, `CallAt`, `BlockAt` and
 * `BlockFrom` say what parsing a token sequence yields: the statement and
 * the tokens left over, or the first fatal error. The methods `Parse`,
 * `ParseIf`, `ParseWhile`, `ParseCall` and `ParseBlock` are the parser
 * itself, dequeuing from a shared `TokenQueue`; each is proved to agree
 * with its function.
 */
module StatementParser {
  import opened Wrappers
  import opened BLSyntax
  import opened AsciiText

  /** A statement and the tokens after it, or the error that stopped the parse. */
  type Parsed = Result<(Statement, seq<string>), ParseError>

  /** `rest` is what is left of `ts` once a prefix has been taken off. */
  predicate IsSuffix(ts: seq<string>, rest: seq<string>) {
    |rest| <= |ts| && rest == ts[|ts| - |rest|..]
  }

  lemma SuffixTransitive(a: seq<string>, b: seq<string>, c: seq<string>)
    requires IsSuffix(a, b) && IsSuffix(b, c)
    ensures IsSuffix(a, c)
  {
    assert a[|a| - |b|..][|b| - |c|..] == a[|a| - |c|..];
  }

  /* What parsing yields --------------------------------------------------- */

  /** parse: dispatch on the front token. */
  function StatementAt(lex: Lexicon, ts: seq<string>): (r: Parsed)
    requires ValidLexicon(lex) && EndsWithSentinel(ts)
    ensures r.Success? ==> |r.value.1| < |ts| && IsSuffix(ts, r.value.1) && EndsWithSentinel(r.value.1)
    ensures r.Success? ==> !r.value.0.Block?
    decreases |ts|, 1
  {
    if ts[0] == "IF" then IfAt(lex, ts)
    else if ts[0] == "WHILE" then WhileAt(lex, ts)
    else if lex.isCondition(ts[0]) then Failure(IsACondition(ts[0]))
    else if !lex.isIdentifier(ts[0]) then Failure(NotACall(ts[0]))
    else CallAt(lex, ts)
  }

  /** parseIf: `IF c THEN B [ELSE B'] END IF`. */
  function IfAt(lex: Lexicon, ts: seq<string>): (r: Parsed)
    requires ValidLexicon(lex) && EndsWithSentinel(ts) && ts[0] == "IF"
    ensures r.Success? ==> |r.value.1| < |ts| && IsSuffix(ts, r.value.1) && EndsWithSentinel(r.value.1)
    ensures r.Success? ==> r.value.0.If? || r.value.0.IfElse?
    decreases |ts|, 0
  {
    DropFront(ts);
    var condTok := ts[1];
    if !lex.isCondition(condTok) then Failure(NotACondition(condTok))
    else
      DropFront(ts[1..]);
      assert ts[1..][1..] == ts[2..];
      if ts[2] != "THEN" then Failure(UnexpectedToken("THEN", ts[2]))
      else
        DropFront(ts[2..]);
        assert ts[2..][1..] == ts[3..];
        match BlockAt(lex, ts[3..])
        case Failure(e) => Failure(e)
        case Success((thenPart, rest)) =>
          SuffixTransitive(ts, ts[3..], rest);
          var r := IfRest(lex, ConditionName(condTok), thenPart, rest);
          if r.Success? then SuffixTransitive(ts, rest, r.value.1); r else r
  }

  /** The end of parseIf once the then-part is parsed: an optional `ELSE B'`, then `END IF`. */
  function IfRest(lex: Lexicon, c: Condition, thenPart: Statement, rest: seq<string>): (r: Parsed)
    requires ValidLexicon(lex) && EndsWithSentinel(rest)
    ensures r.Success? ==> |r.value.1| < |rest| && IsSuffix(rest, r.value.1) && EndsWithSentinel(r.value.1)
    ensures r.Success? ==> r.value.0.If? || r.value.0.IfElse?
    decreases |rest|, 0
  {
    if rest[0] == "ELSE" then
      DropFront(rest);
      match BlockAt(lex, rest[1..])
      case Failure(e) => Failure(e)
      case Success((elsePart, rest')) =>
        SuffixTransitive(rest, rest[1..], rest');
        CloseWith("IF", IfElse(c, thenPart, elsePart), rest')
    else
      CloseWith("IF", If(c, thenPart), rest)
  }

  /** parseWhile: `WHILE c DO B END WHILE`. */
  function WhileAt(lex: Lexicon, ts: seq<string>): (r: Parsed)
    requires ValidLexicon(lex) && EndsWithSentinel(ts) && ts[0] == "WHILE"
    ensures r.Success? ==> |r.value.1| < |ts| && IsSuffix(ts, r.value.1) && EndsWithSentinel(r.value.1)
    ensures r.Success? ==> r.value.0.While?
    decreases |ts|, 0
  {
    DropFront(ts);
    var condTok := ts[1];
    if !lex.isCondition(condTok) then Failure(NotACondition(condTok))
    else
      var c := ConditionName(condTok);
      DropFront(ts[1..]);
      assert ts[1..][1..] == ts[2..];
      if ts[2] != "DO" then Failure(UnexpectedToken("DO", ts[2]))
      else
        DropFront(ts[2..]);
        assert ts[2..][1..] == ts[3..];
        match BlockAt(lex, ts[3..])
        case Failure(e) => Failure(e)
        case Success((body, rest)) =>
          SuffixTransitive(ts, ts[3..], rest);
          CloseWith("WHILE", While(c, body), rest)
  }

  /** `END closer` after a construct's body; the construct is `s`. */
  function CloseWith(closer: string, s: Statement, rest: seq<string>): (r: Parsed)
    requires closer != EndOfInput && EndsWithSentinel(rest)
    ensures r.Success? ==> r.value.0 == s
    ensures r.Success? ==> |r.value.1| < |rest| && IsSuffix(rest, r.value.1) && EndsWithSentinel(r.value.1)
  {
    if rest[0] != "END" then Failure(UnexpectedToken("END", rest[0]))
    else
      DropFront(rest);
      if rest[1] != closer then Failure(UnexpectedToken(closer, rest[1]))
      else
        DropFront(rest[1..]);
        assert rest[1..][1..] == rest[2..];
        Success((s, rest[2..]))
  }

  /** parseCall: the front token, already known to be an identifier, becomes a call. */
  function CallAt(lex: Lexicon, ts: seq<string>): (r: Parsed)
    requires ValidLexicon(lex) && EndsWithSentinel(ts) && lex.isIdentifier(ts[0])
    ensures r.Success? && r.value.0 == Call(ts[0])
    ensures |r.value.1| == |ts| - 1 && IsSuffix(ts, r.value.1) && EndsWithSentinel(r.value.1)
  {
    DropFront(ts);
    Success((Call(ts[0]), ts[1..]))
  }

  /** parseBlock: statements up to the first `END`, `ELSE` or sentinel, which stays. */
  function BlockAt(lex: Lexicon, ts: seq<string>): (r: Parsed)
    requires ValidLexicon(lex) && EndsWithSentinel(ts)
    ensures r.Success? ==> IsSuffix(ts, r.value.1) && EndsWithSentinel(r.value.1)
    ensures r.Success? ==> IsBlockEnd(r.value.1[0]) && r.value.0.Block?
    decreases |ts|, 3
  {
    BlockFrom(lex, ts, [])
  }

  /** The block loop, after the statements `acc` have been parsed. */
  function BlockFrom(lex: Lexicon, ts: seq<string>, acc: seq<Statement>): (r: Parsed)
    requires ValidLexicon(lex) && EndsWithSentinel(ts)
    ensures r.Success? ==> IsSuffix(ts, r.value.1) && EndsWithSentinel(r.value.1)
    ensures r.Success? ==> IsBlockEnd(r.value.1[0]) && r.value.0.Block?
    ensures r.Success? ==> acc <= r.value.0.children
    decreases |ts|, 2
  {
    if IsBlockEnd(ts[0]) then Success((Block(acc), ts))
    else
      match StatementAt(lex, ts)
      case Failure(e) => Failure(e)
      case Success((s, rest)) =>
        var r := BlockFrom(lex, rest, acc + [s]);
        if r.Success? then SuffixTransitive(ts, rest, r.value.1); r else r
  }

  /* The parser ------------------------------------------------------------ */

  /** The token queue shared by all parsing routines; tokens are taken from the front. */
  class TokenQueue {
    var items: seq<string>

    constructor (ts: seq<string>)
      ensures items == ts
    {
      items := ts;
    }

    method Front() returns (t: string)
      requires items != []
      ensures t == items[0]
    {
      t := items[0];
    }

    method Dequeue() returns (t: string)
      requires items != []
      modifies this
      ensures t == old(items)[0] && items == old(items)[1..]
    {
      t := items[0];
      items := items[1..];
    }
  }

  /** The method's result and queue are those the function describes. */
  predicate Agrees(spec: Parsed, r: Result<Statement, ParseError>, items: seq<string>) {
    match spec
    case Success((s, rest)) => r == Success(s) && items == rest
    case Failure(e) => r == Failure(e)
  }

  method Parse(lex: Lexicon, tokens: TokenQueue) returns (r: Result<Statement, ParseError>)
    requires ValidLexicon(lex) && EndsWithSentinel(tokens.items)
    modifies tokens
    ensures Agrees(StatementAt(lex, old(tokens.items)), r, tokens.items)
    decreases |tokens.items|, 1
  {
    var front := tokens.Front();
    if front == "IF" {
      r := ParseIf(lex, tokens);
    } else if front == "WHILE" {
      r := ParseWhile(lex, tokens);
    } else if lex.isCondition(front) {
      r := Failure(IsACondition(front));
    } else if !lex.isIdentifier(front) {
      r := Failure(NotACall(front));
    } else {
      r := ParseCall(lex, tokens);
    }
  }

  method ParseIf(lex: Lexicon, tokens: TokenQueue) returns (r: Result<Statement, ParseError>)
    requires ValidLexicon(lex) && EndsWithSentinel(tokens.items) && tokens.items[0] == "IF"
    modifies tokens
    ensures Agrees(IfAt(lex, old(tokens.items)), r, tokens.items)
    decreases |tokens.items|, 0
  {
    ghost var ts := tokens.items;
    DropFront(ts);
    var opener := tokens.Dequeue();
    var condTok := tokens.Dequeue();
    if !lex.isCondition(condTok) {
      return Failure(NotACondition(condTok));
    }
    var c := ConditionName(condTok);
    DropFront(ts[1..]);
    assert tokens.items == ts[2..];
    var thenTok := tokens.Dequeue();
    if thenTok != "THEN" {
      return Failure(UnexpectedToken("THEN", thenTok));
    }
    DropFront(ts[2..]);
    assert tokens.items == ts[3..];
    var thenPart :- ParseBlock(lex, tokens);
    ghost var rest := tokens.items;
    var s: Statement;
    var front := tokens.Front();
    if front == "ELSE" {
      DropFront(rest);
      var elseTok := tokens.Dequeue();
      var elsePart :- ParseBlock(lex, tokens);
      s := IfElse(c, thenPart, elsePart);
    } else {
      s := If(c, thenPart);
    }
    r := Close(opener, s, tokens);
  }

  method ParseWhile(lex: Lexicon, tokens: TokenQueue) returns (r: Result<Statement, ParseError>)
    requires ValidLexicon(lex) && EndsWithSentinel(tokens.items) && tokens.items[0] == "WHILE"
    modifies tokens
    ensures Agrees(WhileAt(lex, old(tokens.items)), r, tokens.items)
    decreases |tokens.items|, 0
  {
    ghost var ts := tokens.items;
    DropFront(ts);
    var whileTok := tokens.Dequeue();
    var condTok := tokens.Dequeue();
    if !lex.isCondition(condTok) {
      return Failure(NotACondition(condTok));
    }
    var c := ConditionName(condTok);
    DropFront(ts[1..]);
    assert tokens.items == ts[2..];
    var doTok := tokens.Dequeue();
    if doTok != "DO" {
      return Failure(UnexpectedToken("DO", doTok));
    }
    DropFront(ts[2..]);
    assert tokens.items == ts[3..];
    var body :- ParseBlock(lex, tokens);
    r := Close("WHILE", While(c, body), tokens);
  }

  /** Dequeues `END` and the closing word, which must equal `closer`. */
  method Close(closer: string, s: Statement, tokens: TokenQueue) returns (r: Result<Statement, ParseError>)
    requires closer != EndOfInput && EndsWithSentinel(tokens.items)
    modifies tokens
    ensures Agrees(CloseWith(closer, s, old(tokens.items)), r, tokens.items)
  {
    ghost var rest := tokens.items;
    var endTok := tokens.Dequeue();
    if endTok != "END" {
      return Failure(UnexpectedToken("END", endTok));
    }
    DropFront(rest);
    var closeTok := tokens.Dequeue();
    if closeTok != closer {
      return Failure(UnexpectedToken(closer, closeTok));
    }
    assert tokens.items == rest[2..];
    r := Success(s);
  }

  method ParseCall(lex: Lexicon, tokens: TokenQueue) returns (r: Result<Statement, ParseError>)
    requires ValidLexicon(lex) && EndsWithSentinel(tokens.items) && lex.isIdentifier(tokens.items[0])
    modifies tokens
    ensures Agrees(CallAt(lex, old(tokens.items)), r, tokens.items)
  {
    var name := tokens.Dequeue();
    r := Success(Call(name));
  }

  method ParseBlock(lex: Lexicon, tokens: TokenQueue) returns (r: Result<Statement, ParseError>)
    requires ValidLexicon(lex) && EndsWithSentinel(tokens.items)
    modifies tokens
    ensures Agrees(BlockAt(lex, old(tokens.items)), r, tokens.items)
    decreases |tokens.items|, 3
  {
    var children: seq<Statement> := [];
    var front := tokens.Front();
    while front != "END" && front != "ELSE" && front != EndOfInput
      invariant EndsWithSentinel(tokens.items) && front == tokens.items[0]
      invariant |tokens.items| <= |old(tokens.items)|
      invariant BlockAt(lex, old(tokens.items)) == BlockFrom(lex, tokens.items, children)
      decreases |tokens.items|
    {
      var s := Parse(lex, tokens);
      if s.Failure? {
        return Failure(s.error);
      }
      children := children + [s.value];
      front := tokens.Front();
    }
    r := Success(Block(children));
  }
}
