/**
 * The recursive-descent parser. It pulls tokens from the lexer through a
 * two-token window, checks the grammar and the symbol tables, and emits the C
 * translation as it goes. A failure stops everything: it is recorded in the
 * field `aborted` and every method returns as soon as it sees it.
 */
module Parsing {
  import opened Wrappers
  import opened Tokens
  import opened Lexing
  import opened LexerProperties
  import opened Emitting
  import opened Syntax
  import opened ParserSpec

  datatype ParseError =
    | Expected(want: TokenType, got: TokenType)
    | NoComparisonOperator(at: string)
    | UndeclaredVariable(name: string)
    | DuplicateLabel(name: string)
    | UndeclaredLabel(name: string)
    | InvalidStatement(text: string, kind: TokenType)
    | UnexpectedToken(text: string)

  /** Why a compilation stopped: the lexer or the parser gave up. */
  datatype Error = LexFailure(lex: LexError) | ParseFailure(parse: ParseError)

  /** A variable reported as used before assignment is indeed not among `syms`. */
  predicate BlamesUnassigned(e: Option<Error>, syms: set<string>) {
    e.Some? && e.value.ParseFailure? && e.value.parse.UndeclaredVariable? ==> e.value.parse.name !in syms
  }

  /** Some GOTO target missing from the declared labels, if there is one; which one is left open. */
  method FindUndeclared(gotos: set<string>, declared: set<string>) returns (missing: Option<string>)
    ensures missing.None? <==> gotos <= declared
    ensures missing.Some? ==> missing.value in gotos && missing.value !in declared
  {
    var rest := gotos;
    while rest != {}
      invariant rest <= gotos
      invariant forall l | l in gotos && l !in rest :: l in declared
      decreases |rest|
    {
      var l :| l in rest;
      if l !in declared {
        return Some(l);
      }
      rest := rest - {l};
    }
    return None;
  }

  /** The first two calls of the lexer from a position inside the source fill a valid window. */
  lemma FirstWindow(s: string, p0: nat)
    requires Terminated(s) && p0 <= |s| && Scan(s, p0).Success?
    requires Scan(s, Scan(s, p0).value.next).Success?
    ensures var l1 := Scan(s, p0).value; var l2 := Scan(s, l1.next).value;
      l2.next <= |s| + 2
      && (l1.token.kind != EOF ==> l2.next <= |s| + 1)
      && (l2.token.kind != EOF ==> l2.next <= |s|)
      && LexesTo(s, p0, [l1.token, l2.token], l2.next)
  {
    var l1 := Scan(s, p0).value;
    var l2 := Scan(s, l1.next).value;
    ScanProgress(s, p0);
    ScanProgress(s, l1.next);
    LexesToSnoc(s, p0, [], p0);
    LexesToSnoc(s, p0, [l1.token], l1.next);
    assert [] + [l1.token] + [l2.token] == [l1.token, l2.token];
  }

  /** The first two calls of the lexer, which fill the parser's window. */
  method FillWindow(lexer: Lexer) returns (r: Result<(Token, Token), LexError>)
    requires lexer.Valid() && lexer.curPos <= |lexer.source|
    modifies lexer
    ensures lexer.Valid()
    ensures r.Success? ==>
      var (cur, peek) := r.value;
      lexer.curPos <= |lexer.source| + 2
      && (cur.kind != EOF ==> lexer.curPos <= |lexer.source| + 1)
      && (peek.kind != EOF ==> lexer.curPos <= |lexer.source|)
      && LexesTo(lexer.source, old(lexer.curPos), [cur, peek], lexer.curPos)
  {
    ghost var p0 := lexer.curPos;
    var first := lexer.GetToken();
    if first.Failure? {
      return Failure(first.error);
    }
    var second := lexer.GetToken();
    if second.Failure? {
      return Failure(second.error);
    }
    FirstWindow(lexer.source, p0);
    return Success((first.value, second.value));
  }

  /** One more call of the lexer shifts a valid window by one token. */
  lemma ShiftWindow(s: string, p0: nat, consumed: seq<Token>, cur: Token, peek: Token, q: nat)
    requires Terminated(s) && cur.kind != EOF && q <= |s| + 1 && (peek.kind != EOF ==> q <= |s|)
    requires LexesTo(s, p0, consumed + [cur, peek], q) && Scan(s, q).Success?
    ensures var l := Scan(s, q).value;
      q < l.next <= |s| + 2
      && (peek.kind != EOF ==> l.next <= |s| + 1)
      && (l.token.kind != EOF ==> l.next <= |s|)
      && LexesTo(s, p0, (consumed + [cur]) + [peek, l.token], l.next)
  {
    ScanProgress(s, q);
    LexesToSnoc(s, p0, consumed + [cur, peek], q);
    assert consumed + [cur, peek] + [Scan(s, q).value.token] == (consumed + [cur]) + [peek, Scan(s, q).value.token];
  }

  /** The two lines of a LABEL: the label, and a jump to it. */
  method EmitLabel(emitter: Emitter, n: string)
    modifies emitter
    ensures emitter.code == old(emitter.code) + Translate(Label(n)) && emitter.header == old(emitter.header)
  {
    emitter.EmitLine(n + ":");
    emitter.EmitLine("goto " + n + ";");
    Associative4(old(emitter.code), n + ":", "\n", "goto " + n + ";", "\n");
  }

  /** The five lines of an INPUT, which read a float into `n` or set it to 0. */
  method EmitInput(emitter: Emitter, n: string)
    modifies emitter
    ensures emitter.code == old(emitter.code) + InputCode(n) && emitter.header == old(emitter.header)
  {
    emitter.EmitLine("if(0 == scanf(\"%" + "f\", &" + n + ")) {");
    emitter.EmitLine(n + " = 0;");
    emitter.Emit("scanf(\"%");
    emitter.EmitLine("*s\");");
    emitter.EmitLine("}");
    InputCodeAppended(old(emitter.code), n);
  }

  /** The two header lines that open the C program. */
  method EmitPreamble(emitter: Emitter)
    modifies emitter
    ensures emitter.header == old(emitter.header) + Preamble() && emitter.code == old(emitter.code)
  {
    emitter.HeaderLine("#include <stdio.h>");
    emitter.HeaderLine("int main(void){");
    Associative4(old(emitter.header), "#include <stdio.h>", "\n", "int main(void){", "\n");
  }

  /** The two lines that close the C program. */
  method EmitEpilogue(emitter: Emitter)
    modifies emitter
    ensures emitter.code == old(emitter.code) + Epilogue() && emitter.header == old(emitter.header)
  {
    emitter.EmitLine("return 0");
    emitter.EmitLine("}");
    Associative4(old(emitter.code), "return 0", "\n", "}", "\n");
  }

  class Parser {
    const lexer: Lexer
    const emitter: Emitter
    var symbols: set<string>
    var labelsDeclared: set<string>
    var labelsGoToed: set<string>
    var curToken: Token
    var peekToken: Token
    var aborted: Option<Error>
    /** The variables in the order their declarations were written to the header. */
    ghost var declared: seq<string>
    /** The tokens shifted out of the window so far. */
    ghost var consumed: seq<Token>
    /** Where the lexer stood when the parser was made. */
    ghost const start: nat

    /**
     * The variable tables agree; and until a failure, the window holds well-formed
     * tokens that, after the consumed ones, are what the lexer produced from `start`.
     */
    ghost predicate Valid()
      reads this, lexer
    {
      Distinct(declared) && SetOf(declared) == symbols &&
      (aborted.None? ==>
         lexer.Valid()
         && lexer.curPos <= |lexer.source| + 2
         && (curToken.kind != EOF ==> lexer.curPos <= |lexer.source| + 1)
         && (peekToken.kind != EOF ==> lexer.curPos <= |lexer.source|)
         && LexesTo(lexer.source, start, consumed + [curToken, peekToken], lexer.curPos))
    }

    ghost function State(): Snapshot
      reads this, emitter
    {
      Snapshot(symbols, declared, labelsDeclared, labelsGoToed, emitter.header, emitter.code, consumed)
    }

    /** Decreases with every token shifted out of the window. */
    ghost function Measure(): nat
      reads this, lexer
    {
      var m := 2 * (|lexer.source| + 2 - lexer.curPos) + (if curToken.kind == EOF then 0 else 1);
      if m < 0 then 0 else m
    }

    /** The window is filled with the first two tokens, so `curToken` is the first one lexed. */
    constructor (lexer: Lexer, emitter: Emitter)
      requires lexer.Valid() && lexer.curPos <= |lexer.source|
      modifies lexer
      ensures Valid()
      ensures this.lexer == lexer && this.emitter == emitter && start == old(lexer.curPos)
      ensures symbols == {} && labelsDeclared == {} && labelsGoToed == {}
      ensures declared == [] && consumed == []
      ensures aborted.None? ==> LexesTo(lexer.source, old(lexer.curPos), [curToken, peekToken], lexer.curPos)
      ensures aborted.Some? ==> aborted.value.LexFailure?
    {
      this.lexer := lexer;
      this.emitter := emitter;
      symbols := {};
      labelsDeclared := {};
      labelsGoToed := {};
      declared := [];
      consumed := [];
      start := lexer.curPos;
      curToken := Token("", EOF);
      peekToken := Token("", EOF);
      aborted := None;
      new;
      var window := FillWindow(lexer);
      if window.Failure? {
        aborted := Some(LexFailure(window.error));
        return;
      }
      curToken, peekToken := window.value.0, window.value.1;
      assert consumed + [curToken, peekToken] == [curToken, peekToken];
    }

    /** Shifts the window by one token, lexing a new `peekToken`. */
    method NextToken()
      requires Valid() && aborted == None && curToken.kind != EOF
      modifies this, lexer
      ensures Valid()
      ensures aborted == None ==>
        curToken == old(peekToken)
        && State() == old(State()).(consumed := old(consumed) + [old(curToken)])
        && Measure() < old(Measure())
      ensures aborted != None ==> aborted.value.LexFailure?
    {
      ghost var q := lexer.curPos;
      var r := lexer.GetToken();
      if r.Failure? {
        aborted := Some(LexFailure(r.error));
        return;
      }
      ShiftWindow(lexer.source, start, consumed, curToken, peekToken, q);
      consumed := consumed + [curToken];
      curToken := peekToken;
      peekToken := r.value;
    }

    /** Consumes a token of kind `kind`, failing on any other; `t` is the token consumed. */
    method Match(kind: TokenType) returns (ghost t: Token)
      requires Valid() && aborted == None && kind != EOF
      modifies this, lexer
      ensures Valid()
      ensures t == old(curToken) && WellFormed(t)
      ensures t.kind != kind ==> aborted == Some(ParseFailure(Expected(kind, t.kind)))
      ensures t.kind == kind && aborted == None ==>
        curToken == old(peekToken) && State() == old(State()).(consumed := old(consumed) + [t]) && Measure() < old(Measure())
      ensures t.kind == kind && aborted != None ==> aborted.value.LexFailure?
    {
      WindowWellFormed();
      t := curToken;
      if curToken.kind != kind {
        aborted := Some(ParseFailure(Expected(kind, curToken.kind)));
        return;
      }
      NextToken();
    }

    /** Skips the NEWLINE tokens at the head of the window. */
    method SkipNewlines() returns (ghost nls: seq<Token>)
      requires Valid() && aborted == None
      modifies this, lexer
      ensures Valid()
      ensures aborted == None ==>
        State() == old(State()).(consumed := old(consumed) + nls)
        && NonNewlines(nls) == [] && curToken.kind != NEWLINE && Measure() <= old(Measure())
      ensures aborted != None ==> aborted.value.LexFailure?
    {
      ghost var a := State();
      ghost var m0 := Measure();
      nls := [];
      assert a.consumed + [] == a.consumed;
      while aborted == None && curToken.kind == NEWLINE
        invariant Valid()
        invariant aborted == None ==> State() == a.(consumed := a.consumed + nls) && NonNewlines(nls) == [] && Measure() <= m0
        invariant aborted != None ==> aborted.value.LexFailure?
        decreases (if aborted == None then 1 else 0), Measure()
      {
        NonNewlinesAppend(nls, [curToken]);
        nls := nls + [curToken];
        NextToken();
      }
    }

    /** nl ::= NEWLINE+ */
    method Nl() returns (ghost nls: seq<Token>)
      requires Valid() && aborted == None
      modifies this, lexer
      ensures Valid()
      ensures old(curToken.kind) != NEWLINE ==> aborted == Some(ParseFailure(Expected(NEWLINE, old(curToken.kind))))
      ensures aborted == None ==>
        State() == old(State()).(consumed := old(consumed) + nls)
        && |nls| > 0 && NonNewlines(nls) == [] && curToken.kind != NEWLINE
        && Measure() < old(Measure())
    {
      var t := Match(NEWLINE);
      nls := [t];
      if aborted != None {
        return;
      }
      var rest := SkipNewlines();
      if aborted != None {
        return;
      }
      NonNewlinesAppend([t], rest);
      Associative(old(consumed), [t], rest);
      nls := [t] + rest;
    }

    /** primary ::= number | ident, the ident being a declared variable */
    method Primary(ghost syms: set<string>) returns (ghost p: Token)
      requires Valid() && aborted == None && symbols == syms
      modifies this, lexer, emitter
      ensures Valid()
      ensures old(curToken.kind) == IDENT && old(curToken.text) !in syms ==>
        aborted == Some(ParseFailure(UndeclaredVariable(old(curToken.text))))
      ensures old(curToken.kind) != NUMBER && old(curToken.kind) != IDENT ==>
        aborted == Some(ParseFailure(UnexpectedToken(old(curToken.text))))
      ensures old(curToken.kind) == NUMBER || (old(curToken.kind) == IDENT && old(curToken.text) in syms) ==>
        aborted == None || aborted.value.LexFailure?
      ensures BlamesUnassigned(aborted, syms)
      ensures aborted == None ==>
        p == old(curToken) && IsPrimary(p, syms) && Reads(old(State()), State(), [p]) && Measure() < old(Measure())
    {
      p := curToken;
      if curToken.kind == NUMBER {
        emitter.Emit(curToken.text);
        NextToken();
      } else if curToken.kind == IDENT {
        if curToken.text !in symbols {
          aborted := Some(ParseFailure(UndeclaredVariable(curToken.text)));
          return;
        }
        emitter.Emit(curToken.text);
        NextToken();
      } else {
        aborted := Some(ParseFailure(UnexpectedToken(curToken.text)));
        return;
      }
      assert Texts([p]) == p.text + "";
    }

    /** Emits and shifts out the operator in `curToken`. */
    method Operator() returns (ghost op: Token)
      requires Valid() && aborted == None && curToken.kind != EOF
      modifies this, lexer, emitter
      ensures Valid()
      ensures op == old(curToken)
      ensures aborted != None ==> aborted.value.LexFailure?
      ensures aborted == None ==> Reads(old(State()), State(), [op]) && Measure() < old(Measure())
    {
      op := curToken;
      emitter.Emit(curToken.text);
      NextToken();
      assert Texts([op]) == op.text + "";
    }

    /** unary ::= ["+" | "-"] primary */
    method Unary(ghost syms: set<string>) returns (ghost u: Unary)
      requires Valid() && aborted == None && symbols == syms
      modifies this, lexer, emitter
      ensures Valid()
      ensures BlamesUnassigned(aborted, syms)
      ensures aborted == None ==> u.Checked(syms) && Reads(old(State()), State(), u.Tokens()) && Measure() < old(Measure())
    {
      ghost var a := State();
      if curToken.kind == PLUS || curToken.kind == MINUS {
        var op := Operator();
        u := Plain(op);
        if aborted != None {
          return;
        }
        ghost var b := State();
        var p := Primary(syms);
        if aborted != None {
          return;
        }
        ReadsCompose(a, b, State(), [op], [p]);
        u := Signed(op, p);
      } else {
        var p := Primary(syms);
        u := Plain(p);
      }
    }

    /** term ::= unary {("*" | "/") unary} */
    method Term(ghost syms: set<string>) returns (ghost t: Term)
      requires Valid() && aborted == None && symbols == syms
      modifies this, lexer, emitter
      ensures Valid()
      ensures BlamesUnassigned(aborted, syms)
      ensures aborted == None ==> t.Checked(syms) && Reads(old(State()), State(), t.Tokens()) && Measure() < old(Measure())
    {
      ghost var a := State();
      ghost var m0 := Measure();
      var u := Unary(syms);
      t := Factor(u);
      if aborted != None {
        return;
      }
      while aborted == None && (curToken.kind == ASTERISK || curToken.kind == SLASH)
        invariant Valid()
        invariant BlamesUnassigned(aborted, syms)
        invariant aborted == None ==> t.Checked(syms) && Reads(a, State(), t.Tokens()) && Measure() < m0
        decreases (if aborted == None then 1 else 0), Measure()
      {
        ghost var b := State();
        var op := Operator();
        if aborted == None {
          ghost var c := State();
          var r := Unary(syms);
          if aborted == None {
            ReadsCompose(b, c, State(), [op], r.Tokens());
            ReadsCompose(a, b, State(), t.Tokens(), [op] + r.Tokens());
            t := Product(t, op, r);
          }
        }
      }
    }

    /** expression ::= term {("+" | "-") term} */
    method Expression(ghost syms: set<string>) returns (ghost e: Expr)
      requires Valid() && aborted == None && symbols == syms
      modifies this, lexer, emitter
      ensures Valid()
      ensures BlamesUnassigned(aborted, syms)
      ensures aborted == None ==> e.Checked(syms) && Reads(old(State()), State(), e.Tokens()) && Measure() < old(Measure())
    {
      ghost var a := State();
      ghost var m0 := Measure();
      var t := Term(syms);
      e := Summand(t);
      if aborted != None {
        return;
      }
      while aborted == None && (curToken.kind == PLUS || curToken.kind == MINUS)
        invariant Valid()
        invariant BlamesUnassigned(aborted, syms)
        invariant aborted == None ==> e.Checked(syms) && Reads(a, State(), e.Tokens()) && Measure() < m0
        decreases (if aborted == None then 1 else 0), Measure()
      {
        ghost var b := State();
        var op := Operator();
        if aborted == None {
          ghost var c := State();
          var r := Term(syms);
          if aborted == None {
            ReadsCompose(b, c, State(), [op], r.Tokens());
            ReadsCompose(a, b, State(), e.Tokens(), [op] + r.Tokens());
            e := Sum(e, op, r);
          }
        }
      }
    }

    /** One comparison operator and the expression after it. */
    method ComparisonRest(ghost syms: set<string>) returns (ghost op: Token, ghost r: Expr)
      requires Valid() && aborted == None && IsComparisonOp(curToken) && symbols == syms
      modifies this, lexer, emitter
      ensures Valid()
      ensures BlamesUnassigned(aborted, syms)
      ensures aborted == None ==>
        IsComparisonOp(op) && r.Checked(syms) && Reads(old(State()), State(), [op] + r.Tokens()) && Measure() < old(Measure())
    {
      ghost var b := State();
      op := Operator();
      r := Summand(Factor(Plain(op)));
      if aborted != None {
        return;
      }
      ghost var c := State();
      r := Expression(syms);
      if aborted != None {
        return;
      }
      ReadsCompose(b, c, State(), [op], r.Tokens());
    }

    /** comparison ::= expression (comparisonOp expression)+ */
    method Comparison(ghost syms: set<string>) returns (ghost c: Cond)
      requires Valid() && aborted == None && symbols == syms
      modifies this, lexer, emitter
      ensures Valid()
      ensures BlamesUnassigned(aborted, syms)
      ensures aborted == None ==> c.Checked(syms) && Reads(old(State()), State(), c.Tokens()) && Measure() < old(Measure())
    {
      ghost var a := State();
      ghost var m0 := Measure();
      var e := Expression(syms);
      c := Compare(e, curToken, e);

      if aborted != None {
        return;
      }
      if !IsComparisonOp(curToken) {
        aborted := Some(ParseFailure(NoComparisonOperator(curToken.text)));
        return;
      }
      ghost var b := State();
      var op, r := ComparisonRest(syms);
      if aborted != None {
        return;
      }
      ReadsCompose(a, b, State(), e.Tokens(), [op] + r.Tokens());
      c := Compare(e, op, r);
      while aborted == None && IsComparisonOp(curToken)
        invariant Valid()
        invariant BlamesUnassigned(aborted, syms)
        invariant aborted == None ==> c.Checked(syms) && Reads(a, State(), c.Tokens()) && Measure() < m0
        decreases (if aborted == None then 1 else 0), Measure()
      {
        b := State();
        op, r := ComparisonRest(syms);
        if aborted == None {
          ReadsCompose(a, b, State(), c.Tokens(), [op] + r.Tokens());
          c := Chain(c, op, r);
        }
      }
    }

    /** The window holds well-formed tokens, since the lexer produced them. */
    lemma WindowWellFormed()
      requires Valid() && aborted == None
      ensures WellFormed(curToken) && WellFormed(peekToken)
    {
      var ts := consumed + [curToken, peekToken];
      LexesToWellFormed(lexer.source, start, ts, lexer.curPos);
      assert ts[|consumed|] == curToken && ts[|consumed| + 1] == peekToken;
    }

    /** Shifts out a keyword token, which is spelled as its keyword. */
    method Keyword() returns (ghost kw: Token)
      requires Valid() && aborted == None && curToken.kind.IsKeyword()
      modifies this, lexer
      ensures Valid()
      ensures kw == KeywordToken(old(curToken.kind))
      ensures aborted != None ==> aborted.value.LexFailure?
      ensures aborted == None ==>
        curToken == old(peekToken)
        && State() == old(State()).(consumed := old(consumed) + [kw]) && Measure() < old(Measure())
    {
      WindowWellFormed();
      KeywordTokenOfKind(curToken);
      kw := curToken;
      NextToken();
    }

    /** "PRINT" (string | expression) */
    method PrintStatement() returns (ghost s: Stmt, ghost ts: seq<Token>)
      requires Valid() && aborted == None && curToken.kind == PRINT
      modifies this, lexer, emitter
      ensures Valid()
      ensures BlamesUnassigned(aborted, old(symbols))
      ensures aborted == None ==> Partial(old(State()), State(), s, ts) && Measure() < old(Measure())
    {
      ghost var a := State();
      var kw := Keyword();
      s, ts := PrintString(""), [kw];
      if aborted != None {
        return;
      }
      if curToken.kind == STRING {
        WindowWellFormed();
        ghost var str := curToken;
        emitter.EmitLine("printf(\"" + curToken.text + "\\n\");");
        NextToken();
        if aborted != None {
          return;
        }
        s, ts := PrintString(str.text), [kw] + [str];
        PrintStringStep(a, State(), kw, str);
      } else {
        ghost var b := State();
        emitter.Emit("printf(\"%" + ".2f\\n\", (float)(");
        var e := Expression(symbols);
        if aborted != None {
          return;
        }
        emitter.EmitLine("));");
        s, ts := PrintExpression(e), [kw] + e.Tokens();
        PrintExpressionStep(a, State(), kw, e);
      }
    }

    /** Declares the variable `name` in the header unless it is declared already. */
    method Declare(name: string)
      requires Valid()
      modifies this`symbols, this`declared, emitter
      ensures Valid()
      ensures State() == Declared(old(State()), name)
    {
      DeclareOne(declared, name, emitter.header);
      if name !in symbols {
        DistinctSnoc(declared, name);
        SetOfAppend(declared, [name]);
        assert SetOf([name]) == {name};
        emitter.HeaderLine("float " + name + ";");
        symbols := symbols + {name};
        declared := declared + [name];
      }
    }

    /** "LABEL" ident: the label is new, and is written with a jump to itself. */
    method LabelStatement() returns (ghost s: Stmt, ghost ts: seq<Token>)
      requires Valid() && aborted == None && curToken.kind == LABEL
      modifies this, lexer, emitter
      ensures Valid()
      ensures old(peekToken.text) in old(labelsDeclared) ==>
        aborted.Some? && (aborted.value.LexFailure? || aborted.value == ParseFailure(DuplicateLabel(old(peekToken.text))))
      ensures aborted == None ==> Partial(old(State()), State(), s, ts) && Measure() < old(Measure())
    {
      ghost var a := State();
      var kw := Keyword();
      s, ts := Goto(""), [kw];
      if aborted != None {
        return;
      }
      if curToken.text in labelsDeclared {
        aborted := Some(ParseFailure(DuplicateLabel(curToken.text)));
        return;
      }
      ghost var n, a1 := curToken.text, State();
      labelsDeclared := labelsDeclared + {curToken.text};
      EmitLabel(emitter, curToken.text);
      ghost var a2 := State();
      assert a2 == a1.(labelsDeclared := a1.labelsDeclared + {n}, code := a1.code + Translate(Label(n)));
      var id := Match(IDENT);
      if aborted != None {
        return;
      }
      assert id.text == n && IsIdentifier(n);
      assert State() == a2.(consumed := a2.consumed + [id]);
      s, ts := Label(id.text), [kw] + [id];
      LabelStep(a, State(), kw, id);
    }

    /** "GOTO" ident: the target is recorded, to be checked at the end of the program. */
    method GotoStatement() returns (ghost s: Stmt, ghost ts: seq<Token>)
      requires Valid() && aborted == None && curToken.kind == GOTO
      modifies this, lexer, emitter
      ensures Valid()
      ensures aborted == None ==> Partial(old(State()), State(), s, ts) && Measure() < old(Measure())
    {
      ghost var a := State();
      var kw := Keyword();
      s, ts := Goto(""), [kw];
      if aborted != None {
        return;
      }
      labelsGoToed := labelsGoToed + {curToken.text};
      var id := Match(IDENT);
      if aborted != None {
        return;
      }
      s, ts := Goto(id.text), [kw] + [id];
      GotoStep(a, State(), kw, id);
    }

    /** The part of LET after the keyword and before the expression: the variable, declared first, and "=". */
    method LetTarget() returns (ghost id: Token, ghost eq: Token)
      requires Valid() && aborted == None
      modifies this, lexer, emitter
      ensures Valid()
      ensures aborted != None ==> aborted.value.LexFailure? || aborted.value.parse.Expected?
      ensures aborted == None ==>
        id.kind == IDENT && IsIdentifier(id.text) && id == old(curToken) && eq == Token("=", EQ)
        && State() == Declared(old(State()), id.text).(code := old(emitter.code) + (id.text + " = "),
                                                      consumed := old(consumed) + [id] + [eq])
        && Measure() < old(Measure())
    {
      Declare(curToken.text);
      emitter.Emit(curToken.text + " = ");
      id := Match(IDENT);
      eq := id;
      if aborted != None {
        return;
      }
      eq := Match(EQ);
      if eq.kind == EQ {
        EqToken(eq);
      }
    }

    /**
     * "LET" ident "=" expression. The variable is declared before the expression is
     * read, so the expression may use it: `LET x = x + 1` never blames `x`.
     */
    method LetStatement() returns (ghost s: Stmt, ghost ts: seq<Token>)
      requires Valid() && aborted == None && curToken.kind == LET
      modifies this, lexer, emitter
      ensures Valid()
      ensures BlamesUnassigned(aborted, old(symbols) + {old(peekToken.text)})
      ensures aborted == None ==> Partial(old(State()), State(), s, ts) && Measure() < old(Measure())
    {
      ghost var a := State();
      var kw := Keyword();
      s, ts := Goto(""), [kw];
      if aborted != None {
        return;
      }
      ghost var a1 := State();
      var id, eq := LetTarget();
      if aborted != None {
        return;
      }
      ghost var c := State();
      var e := Expression(symbols);
      if aborted != None {
        return;
      }
      ghost var d := State();
      emitter.EmitLine(";");
      s, ts := Let(id.text, e), [kw] + [id] + [eq] + e.Tokens();
      LetStep(a, a1, c, d, State(), kw, id, eq, e);
    }

    /** "INPUT" ident, declaring the variable first. */
    method InputStatement() returns (ghost s: Stmt, ghost ts: seq<Token>)
      requires Valid() && aborted == None && curToken.kind == INPUT
      modifies this, lexer, emitter
      ensures Valid()
      ensures aborted == None ==> Partial(old(State()), State(), s, ts) && Measure() < old(Measure())
    {
      ghost var a := State();
      var kw := Keyword();
      s, ts := Goto(""), [kw];
      if aborted != None {
        return;
      }
      Declare(curToken.text);
      EmitInput(emitter, curToken.text);
      var id := Match(IDENT);
      if aborted != None {
        return;
      }
      s, ts := Input(id.text), [kw] + [id];
      InputStep(a, State(), kw, id);
    }

    /** A block's keyword and its condition, whose text is written after `open`. */
    method CondHead(open: string) returns (ghost kw: Token, ghost c: Cond)
      requires Valid() && aborted == None && curToken.kind.IsKeyword()
      modifies this, lexer, emitter
      ensures Valid()
      ensures kw == KeywordToken(old(curToken.kind))
      ensures aborted == None ==>
        c.Checked(old(symbols))
        && State() == old(State()).(code := old(emitter.code) + open + Texts(c.Tokens()), consumed := old(consumed) + [kw] + c.Tokens())
        && Measure() < old(Measure())
    {
      kw := Keyword();
      c := Compare(Summand(Factor(Plain(kw))), kw, Summand(Factor(Plain(kw))));
      if aborted != None {
        return;
      }
      emitter.Emit(open);
      c := Comparison(symbols);
    }

    /** THEN or REPEAT, the newlines after it, and the line `close` that opens the C block. */
    method BlockOpen(sep: TokenType, close: string) returns (ghost th: Token, ghost nls: seq<Token>)
      requires Valid() && aborted == None && sep.IsKeyword()
      modifies this, lexer, emitter
      ensures Valid()
      ensures old(curToken.kind) != sep ==> aborted == Some(ParseFailure(Expected(sep, old(curToken.kind))))
      ensures aborted == None ==>
        th == KeywordToken(sep) && |nls| > 0 && NonNewlines(nls) == []
        && State() == old(State()).(code := old(emitter.code) + close + "\n", consumed := old(consumed) + [th] + nls)
        && Measure() < old(Measure())
    {
      th := Match(sep);
      nls := [];
      if aborted != None {
        return;
      }
      KeywordTokenOfKind(th);
      nls := Nl();
      if aborted != None {
        return;
      }
      emitter.EmitLine(close);
    }

    /**
     * The head of IF (when `isIf`) or WHILE: the opening C text, the condition, and
     * the line that opens the C block once the separating keyword and its newlines are read.
     */
    method BlockHead(isIf: bool) returns (ghost c: Cond, ghost head: seq<Token>)
      requires Valid() && aborted == None && curToken.kind == Opener(isIf).kind
      modifies this, lexer, emitter
      ensures Valid()
      ensures aborted == None ==>
        c.Checked(old(symbols))
        && Collapse(head) == [Opener(isIf)] + c.Tokens() + [Separator(isIf), NL]
        && State() == old(State()).(code := old(emitter.code) + Opening(isIf, c), consumed := old(consumed) + head)
        && Measure() < old(Measure())
    {
      ghost var a := State();
      ghost var kw;
      BlockKeywords(isIf);
      kw, c := CondHead(OpenWord(isIf));
      head := [kw];
      if aborted != None {
        return;
      }
      ghost var a1 := State();
      var th, nls := BlockOpen(Separator(isIf).kind, CloseWord(isIf));
      if aborted != None {
        return;
      }
      ComparisonSpelling(c, a.symbols);
      HeadSpelling(kw, c.Tokens(), th, nls);
      HeadSnapshot(a, a1, State(), isIf, kw, c, th, nls);
      head := [kw] + c.Tokens() + [th] + nls;
    }

    /** The keyword that closes a block, and the closing brace. */
    method BlockClose(isIf: bool) returns (ghost cl: Token)
      requires Valid() && aborted == None && curToken.kind == Closer(isIf).kind
      modifies this, lexer, emitter
      ensures Valid()
      ensures aborted == None ==>
        cl == Closer(isIf)
        && State() == old(State()).(code := old(emitter.code) + "}" + "\n", consumed := old(consumed) + [cl])
        && Measure() < old(Measure())
    {
      BlockKeywords(isIf);
      cl := Match(Closer(isIf).kind);
      if aborted != None {
        return;
      }
      KeywordTokenOfKind(cl);
      emitter.EmitLine("}");
    }

    /** "IF" comparison "THEN" nl {statement} "ENDIF" */
    method IfStatement() returns (ghost s: Stmt, ghost ts: seq<Token>)
      requires Valid() && aborted == None && curToken.kind == IF
      modifies this, lexer, emitter
      decreases Measure(), 0
      ensures Valid()
      ensures aborted == None ==> Partial(old(State()), State(), s, ts) && Measure() < old(Measure())
    {
      ghost var a := State();
      var c, head := BlockHead(true);
      s, ts := Goto(""), head;
      if aborted == None {
        ghost var b := State();
        var body, bts := Statements(ENDIF);
        if aborted == None {
          ghost var cc := State();
          var cl := BlockClose(true);
          if aborted == None {
            BlockStep(a, b, cc, State(), true, c, body, head, bts, cl);
            s, ts := Block(true, c, body), head + bts + [cl];
          }
        }
      }
    }

    /** "WHILE" comparison "REPEAT" nl {statement} "ENDWHILE" */
    method WhileStatement() returns (ghost s: Stmt, ghost ts: seq<Token>)
      requires Valid() && aborted == None && curToken.kind == WHILE
      modifies this, lexer, emitter
      decreases Measure(), 0
      ensures Valid()
      ensures aborted == None ==> Partial(old(State()), State(), s, ts) && Measure() < old(Measure())
    {
      ghost var a := State();
      var c, head := BlockHead(false);
      s, ts := Goto(""), head;
      if aborted == None {
        ghost var b := State();
        var body, bts := Statements(ENDWHILE);
        if aborted == None {
          ghost var cc := State();
          var cl := BlockClose(false);
          if aborted == None {
            BlockStep(a, b, cc, State(), false, c, body, head, bts, cl);
            s, ts := Block(false, c, body), head + bts + [cl];
          }
        }
      }
    }

    /** One statement, chosen by its first token, without the newlines that end it. */
    method BareStatement() returns (ghost s: Stmt, ghost ts: seq<Token>)
      requires Valid() && aborted == None
      modifies this, lexer, emitter
      decreases Measure(), 1
      ensures Valid()
      ensures old(curToken.kind) !in {PRINT, IF, WHILE, LABEL, GOTO, LET, INPUT} ==>
        aborted == Some(ParseFailure(InvalidStatement(old(curToken.text), old(curToken.kind))))
      ensures aborted == None ==> Partial(old(State()), State(), s, ts) && Measure() < old(Measure())
    {
      if curToken.kind == PRINT {
        s, ts := PrintStatement();
      } else if curToken.kind == IF {
        s, ts := IfStatement();
      } else if curToken.kind == WHILE {
        s, ts := WhileStatement();
      } else if curToken.kind == LABEL {
        s, ts := LabelStatement();
      } else if curToken.kind == GOTO {
        s, ts := GotoStatement();
      } else if curToken.kind == LET {
        s, ts := LetStatement();
      } else if curToken.kind == INPUT {
        s, ts := InputStatement();
      } else {
        aborted := Some(ParseFailure(InvalidStatement(curToken.text, curToken.kind)));
        s, ts := Goto(""), [];
      }
    }

    /** One statement and the newlines that end it. */
    method Statement() returns (ghost s: Stmt, ghost ts: seq<Token>)
      requires Valid() && aborted == None
      modifies this, lexer, emitter
      decreases Measure(), 2
      ensures Valid()
      ensures old(curToken.kind) !in {PRINT, IF, WHILE, LABEL, GOTO, LET, INPUT} ==>
        aborted == Some(ParseFailure(InvalidStatement(old(curToken.text), old(curToken.kind))))
      ensures aborted == None ==>
        Steps(old(State()), State(), [s], ts) && |ts| > 0 && ts[|ts| - 1].kind == NEWLINE
        && curToken.kind != NEWLINE && Measure() < old(Measure())
    {
      ghost var a := State();
      s, ts := BareStatement();
      if aborted != None {
        return;
      }
      ghost var b := State();
      var nls := Nl();
      if aborted != None {
        return;
      }
      LineStep(a, b, s, ts, nls);
      ts := ts + nls;
      RunEndsInNewline(a, [s], ts);
    }

    /** Statements up to a token of kind `end`, which is left in `curToken`. */
    method Statements(end: TokenType) returns (ghost ss: seq<Stmt>, ghost ts: seq<Token>)
      requires Valid() && aborted == None
      modifies this, lexer, emitter
      decreases Measure(), 3
      ensures Valid()
      ensures aborted == None ==> Steps(old(State()), State(), ss, ts) && curToken.kind == end && Measure() <= old(Measure())
    {
      ghost var a := State();
      ghost var m0 := Measure();
      ss, ts := [], [];
      StepsNone(a);
      while aborted == None && curToken.kind != end
        invariant Valid()
        invariant aborted == None ==> Steps(a, State(), ss, ts) && Measure() <= m0
        decreases (if aborted == None then 1 else 0), Measure()
      {
        ghost var b := State();
        var s, sts := Statement();
        if aborted == None {
          StepsCompose(a, b, State(), ss, ts, [s], sts);
          ss, ts := ss + [s], ts + sts;
        }
      }
    }

    /** The preamble, the leading newlines `lead`, the statements up to EOF, and the epilogue. */
    method ProgramBody() returns (ghost prog: seq<Stmt>, ghost lead: seq<Token>, ghost ts: seq<Token>)
      requires Valid() && aborted == None
      modifies this, lexer, emitter
      ensures Valid()
      ensures aborted == None ==>
        curToken.kind == EOF && NonNewlines(lead) == []
        && Legal(old(State()).(header := old(emitter.header) + Preamble()), prog, ts)
        && State() == Compiled(old(State()), prog, lead + ts)
    {
      prog, lead, ts := [], [], [];
      EmitPreamble(emitter);
      ghost var a := State();
      var nls := SkipNewlines();
      if aborted != None {
        return;
      }
      var body, bts := Statements(EOF);
      if aborted != None {
        return;
      }
      ghost var c := State();
      EmitEpilogue(emitter);
      NewlinesThenSteps(a, c, nls, body, bts);
      prog, lead, ts := body, nls, bts;
    }

    /**
     * program ::= {statement}, after the preamble and any leading newlines; then the
     * epilogue, and every GOTO target must be a declared label.
     */
    method Program() returns (ghost parsed: bool, ghost prog: seq<Stmt>, ghost lead: seq<Token>, ghost ts: seq<Token>)
      requires Valid() && aborted == None
      modifies this, lexer, emitter
      ensures Valid()
      ensures !parsed ==> aborted != None
      ensures parsed ==> lexer.Valid() && LexesTo(lexer.source, start, consumed + [curToken, peekToken], lexer.curPos)
      ensures parsed ==>
        curToken.kind == EOF && NonNewlines(lead) == []
        && Legal(old(State()).(header := old(emitter.header) + Preamble()), prog, ts)
        && State() == Compiled(old(State()), prog, lead + ts)
        && (aborted == None <==> labelsGoToed <= labelsDeclared)
        && (aborted != None ==> aborted.value.ParseFailure? && aborted.value.parse.UndeclaredLabel?
                                && aborted.value.parse.name in labelsGoToed && aborted.value.parse.name !in labelsDeclared)
    {
      prog, lead, ts := ProgramBody();
      parsed := aborted == None;
      if aborted != None {
        return;
      }
      var missing := FindUndeclared(labelsGoToed, labelsDeclared);
      if missing.Some? {
        aborted := Some(ParseFailure(UndeclaredLabel(missing.value)));
      }
    }
  }
}
