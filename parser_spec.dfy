/**
 * The parser's observable state at one moment, and the relation between the
 * state before and after it parses a run of statements.
 */
module ParserSpec {
  import opened Tokens
  import opened Syntax

  /** Symbol tables, emitter buffers and the tokens consumed so far. */
  datatype Snapshot = Snapshot(
    symbols: set<string>,
    declared: seq<string>,
    labelsDeclared: set<string>,
    labelsGoToed: set<string>,
    header: string,
    code: string,
    consumed: seq<Token>)

  lemma Associative3<T>(w: seq<T>, x: seq<T>, y: seq<T>, z: seq<T>)
    ensures w + x + y + z == w + (x + y + z)
  {
    Associative(w, x, y);
    Associative(w, x + y, z);
  }

  lemma Associative4<T>(v: seq<T>, w: seq<T>, x: seq<T>, y: seq<T>, z: seq<T>)
    ensures v + w + x + y + z == v + (w + x + y + z)
  {
    Associative3(v, w, x, y);
    Associative(v, w + x + y, z);
  }

  /** Reading the expression tokens `e` emits their texts and changes nothing else. */
  ghost predicate Reads(a: Snapshot, b: Snapshot, e: seq<Token>) {
    b == a.(code := a.code + Texts(e), consumed := a.consumed + e)
  }

  lemma ReadsCompose(a: Snapshot, b: Snapshot, c: Snapshot, e1: seq<Token>, e2: seq<Token>)
    requires Reads(a, b, e1) && Reads(b, c, e2)
    ensures Reads(a, c, e1 + e2)
  {
    TextsAppend(e1, e2);
    assert c.code == a.code + Texts(e1 + e2);
    assert c.consumed == a.consumed + (e1 + e2);
  }

  /** Labels declared by a run of LABEL statements: none twice, none declared before. */
  predicate FreshLabels(ls: seq<string>, declared: set<string>) {
    Distinct(ls) && forall i | 0 <= i < |ls| :: ls[i] !in declared
  }

  /**
   * The parser's state after it parsed the statements `ss` from the tokens `ts`,
   * starting from `a`: the variables they assign are declared in the header in
   * first-use order, their labels and GOTO targets are recorded, and their
   * translation is appended to the body.
   */
  ghost function After(a: Snapshot, ss: seq<Stmt>, ts: seq<Token>): Snapshot {
    var added := NewNames(a.declared, TargetsAll(ss));
    Snapshot(
      a.symbols + SetOf(TargetsAll(ss)),
      a.declared + added,
      a.labelsDeclared + SetOf(LabelsAll(ss)),
      a.labelsGoToed + GotosAll(ss),
      a.header + Declarations(added),
      a.code + TranslateAll(ss),
      a.consumed + ts)
  }

  /**
   * What the parser checks of the statements `ss` read from `ts`, starting from `a`:
   * they are accepted, their labels are fresh, and `ts` spells them, each ending
   * in one or more newlines.
   */
  ghost predicate Legal(a: Snapshot, ss: seq<Stmt>, ts: seq<Token>) {
    AcceptedAll(ss, a.symbols) && FreshLabels(LabelsAll(ss), a.labelsDeclared) && Collapse(ts) == SpelledAll(ss)
  }

  /** Parsing the statements `ss` from the tokens `ts` took the parser from `a` to `b`. */
  ghost predicate Steps(a: Snapshot, b: Snapshot, ss: seq<Stmt>, ts: seq<Token>) {
    Legal(a, ss, ts) && b == After(a, ss, ts)
  }

  /**
   * Parsing the statement `s` from `ts`, up to the newlines that end it, took the
   * parser from `a` to `b`.
   */
  ghost predicate Partial(a: Snapshot, b: Snapshot, s: Stmt, ts: seq<Token>) {
    Accepted(s, a.symbols) && FreshLabels(Labels(s), a.labelsDeclared) && Collapse(ts) == Spelled(s)
    && b == After(a, [s], ts)
  }

  lemma StepsNone(a: Snapshot)
    ensures Steps(a, a, [], [])
  {
    assert NewNames(a.declared, []) == [];
    assert a.consumed + [] == a.consumed;
  }

  lemma FreshLabelsAppend(l1: seq<string>, l2: seq<string>, d: set<string>)
    requires FreshLabels(l1, d) && FreshLabels(l2, d + SetOf(l1))
    ensures FreshLabels(l1 + l2, d)
  {
    var l := l1 + l2;
    forall i, j | 0 <= i < j < |l| ensures l[i] != l[j] {
      if j >= |l1| {
        assert l[j] == l2[j - |l1|];
        if i < |l1| {
          assert l[i] in SetOf(l1);
        }
      }
    }
  }

  lemma ComposeVariables(a: Snapshot, b: Snapshot, c: Snapshot, ss1: seq<Stmt>, ss2: seq<Stmt>)
    requires AcceptedAll(ss1, a.symbols) && AcceptedAll(ss2, b.symbols)
    requires b.symbols == a.symbols + SetOf(TargetsAll(ss1)) && c.symbols == b.symbols + SetOf(TargetsAll(ss2))
    requires b.declared == a.declared + NewNames(a.declared, TargetsAll(ss1))
    requires c.declared == b.declared + NewNames(b.declared, TargetsAll(ss2))
    requires b.header == a.header + Declarations(NewNames(a.declared, TargetsAll(ss1)))
    requires c.header == b.header + Declarations(NewNames(b.declared, TargetsAll(ss2)))
    ensures AcceptedAll(ss1 + ss2, a.symbols)
    ensures c.symbols == a.symbols + SetOf(TargetsAll(ss1 + ss2))
    ensures c.declared == a.declared + NewNames(a.declared, TargetsAll(ss1 + ss2))
    ensures c.header == a.header + Declarations(NewNames(a.declared, TargetsAll(ss1 + ss2)))
  {
    var t1, t2 := TargetsAll(ss1), TargetsAll(ss2);
    var n1, n2 := NewNames(a.declared, t1), NewNames(b.declared, t2);
    TargetsAllAppend(ss1, ss2);
    AcceptedAllAppend(ss1, ss2, a.symbols);
    SetOfAppend(t1, t2);
    NewNamesAppend(a.declared, t1, t2);
    Associative(a.declared, n1, n2);
    DeclarationsAppend(n1, n2);
    Associative(a.header, Declarations(n1), Declarations(n2));
  }

  lemma ComposeLabels(a: Snapshot, b: Snapshot, c: Snapshot, ss1: seq<Stmt>, ss2: seq<Stmt>)
    requires FreshLabels(LabelsAll(ss1), a.labelsDeclared) && FreshLabels(LabelsAll(ss2), b.labelsDeclared)
    requires b.labelsDeclared == a.labelsDeclared + SetOf(LabelsAll(ss1))
    requires c.labelsDeclared == b.labelsDeclared + SetOf(LabelsAll(ss2))
    requires b.labelsGoToed == a.labelsGoToed + GotosAll(ss1) && c.labelsGoToed == b.labelsGoToed + GotosAll(ss2)
    ensures FreshLabels(LabelsAll(ss1 + ss2), a.labelsDeclared)
    ensures c.labelsDeclared == a.labelsDeclared + SetOf(LabelsAll(ss1 + ss2))
    ensures c.labelsGoToed == a.labelsGoToed + GotosAll(ss1 + ss2)
  {
    LabelsAllAppend(ss1, ss2);
    FreshLabelsAppend(LabelsAll(ss1), LabelsAll(ss2), a.labelsDeclared);
    SetOfAppend(LabelsAll(ss1), LabelsAll(ss2));
    GotosAllAppend(ss1, ss2);
  }

  lemma ComposeText(a: Snapshot, b: Snapshot, c: Snapshot, ss1: seq<Stmt>, ts1: seq<Token>, ss2: seq<Stmt>, ts2: seq<Token>)
    requires b.code == a.code + TranslateAll(ss1) && c.code == b.code + TranslateAll(ss2)
    requires b.consumed == a.consumed + ts1 && c.consumed == b.consumed + ts2
    requires Collapse(ts1) == SpelledAll(ss1) && Collapse(ts2) == SpelledAll(ss2)
    ensures c.code == a.code + TranslateAll(ss1 + ss2)
    ensures c.consumed == a.consumed + (ts1 + ts2)
    ensures Collapse(ts1 + ts2) == SpelledAll(ss1 + ss2)
  {
    TranslateAllAppend(ss1, ss2);
    Associative(a.code, TranslateAll(ss1), TranslateAll(ss2));
    SpelledAllAppend(ss1, ss2);
    if ts2 != [] {
      RunFirst(ts2, ss2);
    }
    CollapseAppend(ts1, ts2);
    Associative(a.consumed, ts1, ts2);
  }

  /** Parsing one run of statements and then another is parsing their concatenation. */
  lemma StepsCompose(a: Snapshot, b: Snapshot, c: Snapshot, ss1: seq<Stmt>, ts1: seq<Token>, ss2: seq<Stmt>, ts2: seq<Token>)
    requires Steps(a, b, ss1, ts1) && Steps(b, c, ss2, ts2)
    ensures Steps(a, c, ss1 + ss2, ts1 + ts2)
  {
    ComposeVariables(a, b, c, ss1, ss2);
    ComposeLabels(a, b, c, ss1, ss2);
    ComposeText(a, b, c, ss1, ts1, ss2, ts2);
  }

  /** Every statement of a run ends in a newline, the last one included. */
  lemma RunEndsInNewline(a: Snapshot, ss: seq<Stmt>, ts: seq<Token>)
    requires Legal(a, ss, ts) && ss != []
    ensures ts != [] && ts[|ts| - 1].kind == NEWLINE
  {
    SpelledAllLast(ss);
    if ts != [] {
      CollapseLast(ts);
    }
  }

  /** A statement and the newlines that end it. */
  lemma LineStep(a: Snapshot, b: Snapshot, s: Stmt, ts: seq<Token>, nls: seq<Token>)
    requires Partial(a, b, s, ts) && nls != [] && NonNewlines(nls) == []
    ensures Steps(a, b.(consumed := b.consumed + nls), [s], ts + nls)
  {
    Single(s, a.symbols);
    SpelledLast(s, a.symbols);
    CollapseLast(ts);
    CollapseAppend(ts, nls);
    CollapseRun(nls);
    Associative(a.consumed, ts, nls);
  }

  /** Newlines before a run of statements are consumed and spell nothing. */
  lemma NewlinesThenSteps(a: Snapshot, b: Snapshot, nls: seq<Token>, ss: seq<Stmt>, ts: seq<Token>)
    requires Steps(a.(consumed := a.consumed + nls), b, ss, ts)
    ensures Legal(a, ss, ts) && b == After(a, ss, nls + ts)
  {
    Associative(a.consumed, nls, ts);
  }

  /** A program's leading newlines, if any, count as one before its spelling. */
  lemma LeadingNewlines(lead: seq<Token>, ts: seq<Token>, prog: seq<Stmt>)
    requires NonNewlines(lead) == [] && Collapse(ts) == SpelledAll(prog)
    ensures Collapse(lead + ts) == (if lead == [] then [] else [NL]) + SpelledAll(prog)
  {
    if lead == [] {
      assert lead + ts == ts;
    } else {
      if ts != [] {
        RunFirst(ts, prog);
      }
      CollapseAppend(lead, ts);
      CollapseRun(lead);
    }
  }

  /** The header lines every translation starts with. */
  function Preamble(): string {
    "#include <stdio.h>" + "\n" + "int main(void){" + "\n"
  }

  /** The lines every translation ends with. */
  function Epilogue(): string {
    "return 0" + "\n" + "}" + "\n"
  }

  /**
   * The state after a whole program: the preamble is in the header, the
   * statements `prog` are parsed from `ts` after it, and the epilogue closes the body.
   */
  ghost function Compiled(a: Snapshot, prog: seq<Stmt>, ts: seq<Token>): Snapshot {
    var m := After(a.(header := a.header + Preamble()), prog, ts);
    m.(code := m.code + Epilogue())
  }

  /** LET and INPUT declare their variable, with one header line, unless it is declared already. */
  lemma DeclareOne(d: seq<string>, n: string, h: string)
    ensures NewNames(d, [n]) == if n in d then [] else [n]
    ensures h + ("float " + n + ";") + "\n" == h + Declarations([n])
    ensures h + Declarations([]) == h
  {
    assert [n][1..] == [];
    Associative(h, "float " + n + ";", "\n");
    assert Declarations([n]) == "float " + n + ";" + "\n" + "";
  }

  /** A keyword and one more token other than NEWLINE both count for the spelling. */
  lemma KeywordThenToken(kw: Token, t: Token, k: TokenType)
    requires k.IsKeyword() && kw == KeywordToken(k) && t.kind != NEWLINE
    ensures Collapse([kw] + [t]) == [KeywordToken(k), Token(t.text, t.kind)]
  {
    CollapseKeeps([kw] + [t]);
  }

  /** A single label is fresh when it is not declared yet. */
  lemma FreshOne(n: string, d: set<string>)
    requires n !in d
    ensures FreshLabels([n], d)
  {
  }

  /** A statement without a body that assigns nothing and names no label only appends code. */
  lemma Quiet(a: Snapshot, s: Stmt, ts: seq<Token>)
    requires Targets(s) == [] && Labels(s) == [] && Gotos(s) == {}
    ensures After(a, [s], ts) == a.(code := a.code + Translate(s), consumed := a.consumed + ts)
  {
    Single(s, a.symbols);
    assert NewNames(a.declared, []) == [];
    assert SetOf([]) == {};
    assert a.header + "" == a.header;
  }

  /** A statement without a body that declares the label `n` and assigns nothing. */
  lemma Labelling(a: Snapshot, s: Stmt, n: string, ts: seq<Token>)
    requires Targets(s) == [] && Labels(s) == [n] && Gotos(s) == {}
    ensures After(a, [s], ts) ==
      a.(labelsDeclared := a.labelsDeclared + {n}, code := a.code + Translate(s), consumed := a.consumed + ts)
  {
    Single(s, a.symbols);
    assert NewNames(a.declared, []) == [];
    assert SetOf([]) == {};
    assert SetOf([n]) == {n};
    assert a.header + "" == a.header;
  }

  /** A statement without a body that jumps to the label `n` and assigns nothing. */
  lemma Jumping(a: Snapshot, s: Stmt, n: string, ts: seq<Token>)
    requires Targets(s) == [] && Labels(s) == [] && Gotos(s) == {n}
    ensures After(a, [s], ts) ==
      a.(labelsGoToed := a.labelsGoToed + {n}, code := a.code + Translate(s), consumed := a.consumed + ts)
  {
    Single(s, a.symbols);
    assert NewNames(a.declared, []) == [];
    assert SetOf([]) == {};
    assert a.header + "" == a.header;
  }

  /** A statement without a body that assigns `n` declares it as `Declared` does. */
  lemma Assigning(a: Snapshot, s: Stmt, n: string, ts: seq<Token>)
    requires Targets(s) == [n] && Labels(s) == [] && Gotos(s) == {}
    ensures After(a, [s], ts) == Declared(a, n).(code := a.code + Translate(s), consumed := a.consumed + ts)
  {
    Single(s, a.symbols);
    assert SetOf([n]) == {n};
    assert SetOf([]) == {};
  }

  /** IF when `isIf`, WHILE otherwise. */
  function Block(isIf: bool, c: Cond, body: seq<Stmt>): Stmt {
    if isIf then If(c, body) else While(c, body)
  }

  /** The C text a block's head emits, up to and including the line that opens the C block. */
  function Opening(isIf: bool, c: Cond): string {
    OpenWord(isIf) + Texts(c.Tokens()) + CloseWord(isIf) + "\n"
  }

  /** The C text before a block's condition, and the one after it. */
  function OpenWord(isIf: bool): string { if isIf then "if(" else "while(" }
  function CloseWord(isIf: bool): string { if isIf then ")}" else "){" }

  /** The keywords of a block: the first, the separating one and the closing one. */
  function Opener(isIf: bool): Token { if isIf then KeywordToken(IF) else KeywordToken(WHILE) }
  function Separator(isIf: bool): Token { if isIf then KeywordToken(THEN) else KeywordToken(REPEAT) }
  function Closer(isIf: bool): Token { if isIf then KeywordToken(ENDIF) else KeywordToken(ENDWHILE) }

  /** Each of a block's keyword tokens is the keyword token of its own kind. */
  lemma BlockKeywords(isIf: bool)
    ensures Opener(isIf).kind.IsKeyword() && KeywordToken(Opener(isIf).kind) == Opener(isIf)
    ensures Separator(isIf).kind.IsKeyword() && KeywordToken(Separator(isIf).kind) == Separator(isIf)
    ensures Closer(isIf).kind.IsKeyword() && KeywordToken(Closer(isIf).kind) == Closer(isIf)
  {
  }

  /**
   * IF and WHILE: a head (keyword, condition, keyword, newlines) that only emits
   * its opening, a body run, and the closing keyword that emits the closing brace;
   * the newlines after the closing keyword are not read yet.
   */
  lemma BlockStep(a: Snapshot, b: Snapshot, c: Snapshot, d: Snapshot, isIf: bool, cond: Cond, body: seq<Stmt>,
                  head: seq<Token>, ts: seq<Token>, cl: Token)
    requires cond.Checked(a.symbols)
    requires Collapse(head) == [Opener(isIf)] + cond.Tokens() + [Separator(isIf), NL]
    requires b == a.(code := a.code + Opening(isIf, cond), consumed := a.consumed + head)
    requires Steps(b, c, body, ts)
    requires cl == Closer(isIf)
    requires d == c.(code := c.code + "}" + "\n", consumed := c.consumed + [cl])
    ensures Partial(a, d, Block(isIf, cond, body), head + ts + [cl])
  {
    var s := Block(isIf, cond, body);
    Single(s, a.symbols);
    var open := Opening(isIf, cond);
    var text := TranslateAll(body);
    assert Translate(s) == open + text + "}" + "\n";
    assert d.code == a.code + open + text + "}" + "\n";
    Associative3(a.code, open, text, "}");
    Associative(a.code, open + text + "}", "\n");
    BlockSpelling(isIf, cond, body, head, ts, cl);
    Associative(a.consumed, head, ts);
    Associative(a.consumed, head + ts, [cl]);
  }

  /** A block's head, its body's tokens and its closing keyword spell the block. */
  lemma BlockSpelling(isIf: bool, cond: Cond, body: seq<Stmt>, head: seq<Token>, ts: seq<Token>, cl: Token)
    requires Collapse(head) == [Opener(isIf)] + cond.Tokens() + [Separator(isIf), NL]
    requires Collapse(ts) == SpelledAll(body) && cl == Closer(isIf)
    ensures Collapse(head + ts + [cl]) == Spelled(Block(isIf, cond, body))
  {
    if ts != [] {
      RunFirst(ts, body);
    }
    CollapseAppend(head, ts);
    CollapseAppend(head + ts, [cl]);
    CollapseKeeps([cl]);
  }

  /** PRINT followed by a string literal. */
  lemma PrintStringStep(a: Snapshot, b: Snapshot, kw: Token, str: Token)
    requires kw == KeywordToken(PRINT) && str.kind == STRING && IsStringBody(str.text)
    requires b == a.(code := a.code + ("printf(\"" + str.text + "\\n\");") + "\n", consumed := a.consumed + [kw] + [str])
    ensures Partial(a, b, PrintString(str.text), [kw] + [str])
  {
    var s := PrintString(str.text);
    var ts := [kw] + [str];
    KeywordThenToken(kw, str, PRINT);
    Quiet(a, s, ts);
    Associative(a.code, "printf(\"" + str.text + "\\n\");", "\n");
    Associative(a.consumed, [kw], [str]);
  }

  /** PRINT followed by an expression. */
  lemma PrintExpressionStep(a: Snapshot, b: Snapshot, kw: Token, e: Expr)
    requires kw == KeywordToken(PRINT) && e.Checked(a.symbols)
    requires b == a.(code := a.code + ("printf(\"%" + ".2f\\n\", (float)(") + Texts(e.Tokens()) + "));" + "\n",
      consumed := a.consumed + [kw] + e.Tokens())
    ensures Partial(a, b, PrintExpression(e), [kw] + e.Tokens())
  {
    var s := PrintExpression(e);
    var ts := [kw] + e.Tokens();
    ExpressionSpelling(e, a.symbols);
    CollapseAppend([kw], e.Tokens());
    assert Collapse([kw]) == [kw];
    Quiet(a, s, ts);
    Associative4(a.code, "printf(\"%" + ".2f\\n\", (float)(", Texts(e.Tokens()), "));", "\n");
    Associative(a.consumed, [kw], e.Tokens());
  }

  /** LABEL followed by a fresh label name. */
  lemma LabelStep(a: Snapshot, b: Snapshot, kw: Token, id: Token)
    requires kw == KeywordToken(LABEL) && id.kind == IDENT && IsIdentifier(id.text) && id.text !in a.labelsDeclared
    requires var n := id.text;
      b == a.(labelsDeclared := a.labelsDeclared + {n}, code := a.code + Translate(Label(n)),
        consumed := a.consumed + [kw] + [id])
    ensures Partial(a, b, Label(id.text), [kw] + [id])
  {
    var n := id.text;
    var s := Label(n);
    var ts := [kw] + [id];
    KeywordThenToken(kw, id, LABEL);
    FreshOne(n, a.labelsDeclared);
    Labelling(a, s, n, ts);
    Associative(a.consumed, [kw], [id]);
  }

  /** GOTO followed by a label name, which need not be declared yet. */
  lemma GotoStep(a: Snapshot, b: Snapshot, kw: Token, id: Token)
    requires kw == KeywordToken(GOTO) && id.kind == IDENT && IsIdentifier(id.text)
    requires b == a.(labelsGoToed := a.labelsGoToed + {id.text}, consumed := a.consumed + [kw] + [id])
    ensures Partial(a, b, Goto(id.text), [kw] + [id])
  {
    var s := Goto(id.text);
    var ts := [kw] + [id];
    KeywordThenToken(kw, id, GOTO);
    Jumping(a, s, id.text, ts);
    assert a.code + "" == a.code;
    Associative(a.consumed, [kw], [id]);
  }

  /** The snapshot after `n` is declared, if it was not declared before. */
  ghost function Declared(a: Snapshot, n: string): Snapshot {
    var added := NewNames(a.declared, [n]);
    a.(symbols := a.symbols + {n}, declared := a.declared + added, header := a.header + Declarations(added))
  }

  /** The text and the tokens LET appends, regrouped as one statement's. */
  lemma LetPieces(code: string, consumed: seq<Token>, kw: Token, id: Token, eq: Token, e: Expr, syms: set<string>)
    requires kw == KeywordToken(LET) && id.kind == IDENT && eq == Token("=", EQ) && e.Checked(syms)
    ensures code + (id.text + " = ") + Texts(e.Tokens()) + ";" + "\n" == code + Translate(Let(id.text, e))
    ensures consumed + [kw] + [id] + [eq] + e.Tokens() == consumed + ([kw] + [id] + [eq] + e.Tokens())
    ensures Collapse([kw] + [id] + [eq] + e.Tokens()) == Spelled(Let(id.text, e))
  {
    var head := [kw] + [id] + [eq];
    Associative3(consumed, [kw], [id], [eq]);
    Associative(consumed, head, e.Tokens());
    Associative4(code, id.text + " = ", Texts(e.Tokens()), ";", "\n");
    ExpressionSpelling(e, syms);
    CollapseKeeps(head);
    CollapseAppend(head, e.Tokens());
    assert head == [kw, id, eq];
  }

  /**
   * LET, a variable, "=" and an expression that may use the variable, through the
   * states the parser passes: keyword read, variable declared, "=" read, expression read.
   */
  lemma LetStep(a: Snapshot, a1: Snapshot, c: Snapshot, d: Snapshot, b: Snapshot,
                kw: Token, id: Token, eq: Token, e: Expr)
    requires kw == KeywordToken(LET) && id.kind == IDENT && IsIdentifier(id.text) && eq == Token("=", EQ)
    requires a1 == a.(consumed := a.consumed + [kw])
    requires c == Declared(a1, id.text).(code := a1.code + (id.text + " = "), consumed := a1.consumed + [id] + [eq])
    requires e.Checked(c.symbols) && Reads(c, d, e.Tokens())
    requires b == d.(code := d.code + ";" + "\n")
    ensures Partial(a, b, Let(id.text, e), [kw] + [id] + [eq] + e.Tokens())
  {
    var n := id.text;
    var s := Let(n, e);
    var ts := [kw] + [id] + [eq] + e.Tokens();
    LetPieces(a.code, a.consumed, kw, id, eq, e, a.symbols + {n});
    Assigning(a, s, n, ts);
    assert Declared(a1, n) == Declared(a, n).(consumed := a1.consumed);
    assert b.code == a.code + (n + " = ") + Texts(e.Tokens()) + ";" + "\n";
    assert b.consumed == a.consumed + [kw] + [id] + [eq] + e.Tokens();
    assert b == After(a, [s], ts);
    assert Accepted(s, a.symbols) && Labels(s) == [];
  }

  /** The lines INPUT emits, one after the other, make up `InputCode`. */
  lemma InputCodeAppended(h: string, n: string)
    ensures h + ("if(0 == scanf(\"%" + "f\", &" + n + ")) {") + "\n" + (n + " = 0;") + "\n" + "scanf(\"%" + "*s\");" + "\n" + "}" + "\n"
      == h + InputCode(n)
  {
    var f1 := "if(0 == scanf(\"%" + "f\", &" + n + ")) {";
    var f3 := n + " = 0;";
    Associative(h, f1, "\n");
    Associative(h, f1 + "\n", f3);
    Associative(h, f1 + "\n" + f3, "\n");
    Associative(h, f1 + "\n" + f3 + "\n", "scanf(\"%");
    Associative(h, f1 + "\n" + f3 + "\n" + "scanf(\"%", "*s\");");
    Associative(h, f1 + "\n" + f3 + "\n" + "scanf(\"%" + "*s\");", "\n");
    Associative(h, f1 + "\n" + f3 + "\n" + "scanf(\"%" + "*s\");" + "\n", "}");
    Associative(h, f1 + "\n" + f3 + "\n" + "scanf(\"%" + "*s\");" + "\n" + "}", "\n");
  }

  /** INPUT followed by a variable, declared by it if it was not declared before. */
  lemma InputStep(a: Snapshot, b: Snapshot, kw: Token, id: Token)
    requires kw == KeywordToken(INPUT) && id.kind == IDENT && IsIdentifier(id.text)
    requires b == Declared(a, id.text).(code := a.code + InputCode(id.text), consumed := a.consumed + [kw] + [id])
    ensures Partial(a, b, Input(id.text), [kw] + [id])
  {
    var n := id.text;
    var s := Input(n);
    var ts := [kw] + [id];
    KeywordThenToken(kw, id, INPUT);
    assert Collapse(ts) == Spelled(s);
    Assigning(a, s, n, ts);
    assert Translate(s) == InputCode(n);
    Associative(a.consumed, [kw], [id]);
    assert b == After(a, [s], ts);
    assert Accepted(s, a.symbols) && Labels(s) == [];
  }

  /** The head of a block spells its keywords and condition; the newlines after them count as one. */
  lemma HeadSpelling(kw: Token, ct: seq<Token>, th: Token, nls: seq<Token>)
    requires forall i | 0 <= i < |ct| :: ct[i].kind != NEWLINE
    requires kw.kind != NEWLINE && th.kind != NEWLINE && nls != [] && NonNewlines(nls) == []
    ensures Collapse([kw] + ct + [th] + nls) == [kw] + ct + [th, NL]
  {
    var p := [kw] + ct + [th];
    forall i | 0 <= i < |p| ensures p[i].kind != NEWLINE {
      if 0 < i < |p| - 1 {
        assert p[i] == ct[i - 1];
      }
    }
    CollapseKeeps(p);
    CollapseAppend(p, nls);
    CollapseRun(nls);
  }

  /** The two steps of a block's head, taken as one. */
  lemma HeadSnapshot(a: Snapshot, a1: Snapshot, b: Snapshot, isIf: bool, kw: Token, c: Cond, th: Token, nls: seq<Token>)
    requires a1 == a.(code := a.code + OpenWord(isIf) + Texts(c.Tokens()), consumed := a.consumed + [kw] + c.Tokens())
    requires b == a1.(code := a1.code + CloseWord(isIf) + "\n", consumed := a1.consumed + [th] + nls)
    ensures b == a.(code := a.code + Opening(isIf, c), consumed := a.consumed + ([kw] + c.Tokens() + [th] + nls))
  {
    Associative4(a.code, OpenWord(isIf), Texts(c.Tokens()), CloseWord(isIf), "\n");
    Associative3(a.consumed, [kw], c.Tokens(), [th]);
    Associative(a.consumed, [kw] + c.Tokens() + [th], nls);
  }
}
