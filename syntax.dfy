/**
 * The grammar the parser recognises, as predicates on token sequences, and a
 * record of the statements it accepts, with the C text each one is translated to.
 * The parser builds no tree: these are specifications of what it does.
 */
module Syntax {
  import opened Tokens

  // ----- expressions -----

  predicate IsAddOp(t: Token) { t.kind == PLUS || t.kind == MINUS }
  predicate IsMulOp(t: Token) { t.kind == ASTERISK || t.kind == SLASH }
  predicate IsComparisonOp(t: Token) {
    t.kind == EQEQ || t.kind == NOTEQ || t.kind == LT || t.kind == LTEQ || t.kind == GT || t.kind == GTEQ
  }
  /** primary ::= number | ident, where the ident must already be a declared variable */
  predicate IsPrimary(t: Token, syms: set<string>) {
    t.kind == NUMBER || (t.kind == IDENT && t.text in syms)
  }

  /**
   * Derivations of the expression grammar. Each one records the tokens it
   * covers; `Checked` says the operators have the kinds the grammar allows
   * there and every variable is declared. Chains of operators associate to
   * the left, as the parser reads them.
   */

  /** unary ::= ["+" | "-"] primary */
  datatype Unary = Plain(atom: Token) | Signed(sign: Token, atom: Token)
  {
    function Tokens(): seq<Token> {
      match this
      case Plain(p) => [p]
      case Signed(op, p) => [op] + [p]
    }

    predicate Checked(syms: set<string>) {
      IsPrimary(atom, syms) && (Signed? ==> IsAddOp(sign))
    }
  }

  /** term ::= unary {("*" | "/") unary} */
  datatype Term = Factor(unary: Unary) | Product(left: Term, op: Token, right: Unary)
  {
    function Tokens(): seq<Token> {
      match this
      case Factor(u) => u.Tokens()
      case Product(l, op, r) => l.Tokens() + ([op] + r.Tokens())
    }

    predicate Checked(syms: set<string>) {
      match this
      case Factor(u) => u.Checked(syms)
      case Product(l, op, r) => l.Checked(syms) && IsMulOp(op) && r.Checked(syms)
    }
  }

  /** expression ::= term {("+" | "-") term} */
  datatype Expr = Summand(term: Term) | Sum(left: Expr, op: Token, right: Term)
  {
    function Tokens(): seq<Token> {
      match this
      case Summand(t) => t.Tokens()
      case Sum(l, op, r) => l.Tokens() + ([op] + r.Tokens())
    }

    predicate Checked(syms: set<string>) {
      match this
      case Summand(t) => t.Checked(syms)
      case Sum(l, op, r) => l.Checked(syms) && IsAddOp(op) && r.Checked(syms)
    }
  }

  /** comparison ::= expression (comparisonOp expression)+ */
  datatype Cond = Compare(first: Expr, op: Token, second: Expr) | Chain(left: Cond, op: Token, right: Expr)
  {
    function Tokens(): seq<Token> {
      match this
      case Compare(l, op, r) => l.Tokens() + ([op] + r.Tokens())
      case Chain(l, op, r) => l.Tokens() + ([op] + r.Tokens())
    }

    predicate Checked(syms: set<string>) {
      match this
      case Compare(l, op, r) => l.Checked(syms) && IsComparisonOp(op) && r.Checked(syms)
      case Chain(l, op, r) => l.Checked(syms) && IsComparisonOp(op) && r.Checked(syms)
    }
  }

  /** A token an expression may contain: an arithmetic operator, a number, or a declared variable. */
  predicate InExpression(t: Token, syms: set<string>) {
    IsAddOp(t) || IsMulOp(t) || IsPrimary(t, syms)
  }

  /** Every token of `ts` satisfies `InExpression`. */
  predicate AllInExpression(ts: seq<Token>, syms: set<string>) {
    forall i | 0 <= i < |ts| :: InExpression(ts[i], syms)
  }

  /** Joining runs of expression tokens around one more expression token. */
  lemma JoinTokens(a: seq<Token>, t: Token, b: seq<Token>, syms: set<string>)
    requires AllInExpression(a, syms) && InExpression(t, syms) && AllInExpression(b, syms)
    ensures AllInExpression(a + ([t] + b), syms)
  {
    var s := a + ([t] + b);
    forall i | 0 <= i < |s| ensures InExpression(s[i], syms) {
      if i < |a| {
        assert s[i] == a[i];
      } else if i > |a| {
        assert s[i] == b[i - |a| - 1];
      }
    }
  }

  lemma UnaryTokens(u: Unary, syms: set<string>)
    requires u.Checked(syms)
    ensures AllInExpression(u.Tokens(), syms)
  {
  }

  lemma {:induction false} TermTokens(t: Term, syms: set<string>)
    requires t.Checked(syms)
    ensures AllInExpression(t.Tokens(), syms)
    decreases t
  {
    match t
    case Factor(u) => UnaryTokens(u, syms);
    case Product(l, op, r) =>
      TermTokens(l, syms);
      UnaryTokens(r, syms);
      JoinTokens(l.Tokens(), op, r.Tokens(), syms);
  }

  /**
   * Every variable an expression mentions is declared, and an expression holds
   * nothing but arithmetic operators, numbers and variables.
   */
  lemma {:induction false} ExpressionTokens(e: Expr, syms: set<string>)
    requires e.Checked(syms)
    ensures AllInExpression(e.Tokens(), syms)
    decreases e
  {
    match e
    case Summand(t) => TermTokens(t, syms);
    case Sum(l, op, r) =>
      ExpressionTokens(l, syms);
      TermTokens(r, syms);
      JoinTokens(l.Tokens(), op, r.Tokens(), syms);
  }

  /** A comparison holds a comparison operator. */
  lemma ComparisonHasOperator(c: Cond, syms: set<string>)
    requires c.Checked(syms)
    ensures exists i | 0 <= i < |c.Tokens()| :: IsComparisonOp(c.Tokens()[i])
  {
    match c
    case Compare(l, op, r) => assert c.Tokens()[|l.Tokens()|] == op;
    case Chain(l, op, r) => assert c.Tokens()[|l.Tokens()|] == op;
  }

  /** Joining a run of comparison tokens and an expression around a comparison operator. */
  lemma JoinComparison(a: seq<Token>, t: Token, b: seq<Token>, syms: set<string>)
    requires forall i | 0 <= i < |a| :: InExpression(a[i], syms) || IsComparisonOp(a[i])
    requires IsComparisonOp(t) && AllInExpression(b, syms)
    ensures var s := a + ([t] + b); forall i | 0 <= i < |s| :: InExpression(s[i], syms) || IsComparisonOp(s[i])
  {
    var s := a + ([t] + b);
    forall i | 0 <= i < |s| ensures InExpression(s[i], syms) || IsComparisonOp(s[i]) {
      if i < |a| {
        assert s[i] == a[i];
      } else if i > |a| {
        assert s[i] == b[i - |a| - 1];
      }
    }
  }

  /** A comparison holds expression tokens and comparison operators only. */
  lemma {:induction false} ComparisonTokens(c: Cond, syms: set<string>)
    requires c.Checked(syms)
    ensures forall i | 0 <= i < |c.Tokens()| :: InExpression(c.Tokens()[i], syms) || IsComparisonOp(c.Tokens()[i])
    decreases c
  {
    match c
    case Compare(l, op, r) =>
      ExpressionTokens(l, syms);
      ExpressionTokens(r, syms);
      JoinComparison(l.Tokens(), op, r.Tokens(), syms);
    case Chain(l, op, r) =>
      ComparisonTokens(l, syms);
      ExpressionTokens(r, syms);
      JoinComparison(l.Tokens(), op, r.Tokens(), syms);
  }

  /** The concatenation of the tokens' texts, in order. */
  function Texts(ts: seq<Token>): string {
    if ts == [] then "" else ts[0].text + Texts(ts[1..])
  }

  lemma {:induction false} TextsAppend(a: seq<Token>, b: seq<Token>)
    ensures Texts(a + b) == Texts(a) + Texts(b)
    decreases |a|
  {
    if a == [] {
      assert a + b == b;
    } else {
      assert (a + b)[0] == a[0] && (a + b)[1..] == a[1..] + b;
      TextsAppend(a[1..], b);
    }
  }

  /** The tokens other than NEWLINE, in order. */
  function NonNewlines(ts: seq<Token>): seq<Token> {
    if ts == [] then [] else (if ts[0].kind == NEWLINE then [] else [ts[0]]) + NonNewlines(ts[1..])
  }

  lemma {:induction false} NonNewlinesAppend(a: seq<Token>, b: seq<Token>)
    ensures NonNewlines(a + b) == NonNewlines(a) + NonNewlines(b)
    decreases |a|
  {
    if a == [] {
      assert a + b == b;
    } else {
      assert (a + b)[0] == a[0] && (a + b)[1..] == a[1..] + b;
      NonNewlinesAppend(a[1..], b);
    }
  }

  /** The one NEWLINE token a run of newlines counts as. */
  const NL := Token("\n", NEWLINE)

  /** The tokens in order, with each run of consecutive NEWLINE tokens taken as one `NL`. */
  function Collapse(ts: seq<Token>): seq<Token> {
    Squeeze(ts, false)
  }

  /** `Collapse`, where `open` says that a run of newlines has already been counted. */
  function Squeeze(ts: seq<Token>, open: bool): seq<Token> {
    if ts == [] then []
    else if ts[0].kind != NEWLINE then [ts[0]] + Squeeze(ts[1..], false)
    else if open then Squeeze(ts[1..], true)
    else [NL] + Squeeze(ts[1..], true)
  }

  /** Whether a run of newlines is open after `a`, given whether one was open before it. */
  function OpenAfter(a: seq<Token>, open: bool): bool {
    if a == [] then open else a[|a| - 1].kind == NEWLINE
  }

  lemma {:induction false} SqueezeAppend(a: seq<Token>, b: seq<Token>, open: bool)
    ensures Squeeze(a + b, open) == Squeeze(a, open) + Squeeze(b, OpenAfter(a, open))
    decreases |a|
  {
    if a == [] {
      assert a + b == b;
    } else {
      var o := a[0].kind == NEWLINE;
      var h := if !o then [a[0]] else if open then [] else [NL];
      assert (a + b)[0] == a[0] && (a + b)[1..] == a[1..] + b;
      assert Squeeze(a + b, open) == h + Squeeze(a[1..] + b, o);
      assert Squeeze(a, open) == h + Squeeze(a[1..], o);
      SqueezeAppend(a[1..], b, o);
      assert OpenAfter(a[1..], o) == OpenAfter(a, open);
      Associative(h, Squeeze(a[1..], o), Squeeze(b, OpenAfter(a, open)));
    }
  }

  /** Collapsing two pieces that do not split a run of newlines collapses each piece. */
  lemma CollapseAppend(a: seq<Token>, b: seq<Token>)
    requires a == [] || b == [] || a[|a| - 1].kind != NEWLINE || b[0].kind != NEWLINE
    ensures Collapse(a + b) == Collapse(a) + Collapse(b)
  {
    SqueezeAppend(a, b, false);
    if b != [] {
      assert Squeeze(b, OpenAfter(a, false)) == Squeeze(b, false);
    }
  }

  /** A non-empty run of newlines counts as one. */
  lemma CollapseRun(nls: seq<Token>)
    requires nls != [] && NonNewlines(nls) == []
    ensures Collapse(nls) == [NL]
  {
    assert nls[0].kind == NEWLINE;
    RunSqueezed(nls[1..]);
  }

  /** Newlines after a counted run add nothing. */
  lemma {:induction false} RunSqueezed(nls: seq<Token>)
    requires NonNewlines(nls) == []
    ensures Squeeze(nls, true) == []
    decreases |nls|
  {
    if nls != [] {
      RunSqueezed(nls[1..]);
    }
  }

  /** Tokens none of which is a NEWLINE are kept whole. */
  lemma {:induction false} CollapseKeeps(ts: seq<Token>)
    requires forall i | 0 <= i < |ts| :: ts[i].kind != NEWLINE
    ensures Collapse(ts) == ts
    decreases |ts|
  {
    if ts != [] {
      CollapseKeeps(ts[1..]);
    }
  }

  /** Collapsing keeps whether the first token is a NEWLINE. */
  lemma CollapseFirst(ts: seq<Token>)
    requires ts != []
    ensures Collapse(ts) != [] && (Collapse(ts)[0].kind == NEWLINE <==> ts[0].kind == NEWLINE)
  {
  }

  /** Tokens ending in a NEWLINE collapse to tokens that end in one too, or to nothing. */
  lemma {:induction false} SqueezeLast(ts: seq<Token>, open: bool)
    requires ts != [] && ts[|ts| - 1].kind == NEWLINE
    ensures var c := Squeeze(ts, open); c == [] || c[|c| - 1].kind == NEWLINE
    decreases |ts|
  {
    var o := ts[0].kind == NEWLINE;
    if |ts| > 1 {
      SqueezeLast(ts[1..], o);
    }
  }

  /** Collapsing keeps whether the last token is a NEWLINE. */
  lemma CollapseLast(ts: seq<Token>)
    requires ts != []
    ensures var c := Collapse(ts); c != [] && (c[|c| - 1].kind == NEWLINE <==> ts[|ts| - 1].kind == NEWLINE)
  {
    var i := |ts| - 1;
    assert ts == ts[..i] + [ts[i]];
    SqueezeAppend(ts[..i], [ts[i]], false);
    var o := OpenAfter(ts[..i], false);
    if ts[i].kind == NEWLINE {
      SqueezeLast(ts, false);
      assert Squeeze([ts[i]], false) == [NL];
    } else {
      assert Squeeze([ts[i]], o) == [ts[i]];
    }
  }

  /** An expression holds no NEWLINE. */
  lemma ExpressionSpelling(e: Expr, syms: set<string>)
    requires e.Checked(syms)
    ensures Collapse(e.Tokens()) == e.Tokens()
  {
    ExpressionTokens(e, syms);
    CollapseKeeps(e.Tokens());
  }

  /** A comparison holds no NEWLINE. */
  lemma ComparisonSpelling(c: Cond, syms: set<string>)
    requires c.Checked(syms)
    ensures forall i | 0 <= i < |c.Tokens()| :: c.Tokens()[i].kind != NEWLINE
  {
    ComparisonTokens(c, syms);
  }

  // ----- statements -----

  /** A statement the parser accepted, as a record of what it read. */
  datatype Stmt =
    | PrintString(text: string)
    | PrintExpression(expr: Expr)
    | If(cond: Cond, body: seq<Stmt>)
    | While(cond: Cond, body: seq<Stmt>)
    | Label(name: string)
    | Goto(name: string)
    | Let(name: string, expr: Expr)
    | Input(name: string)

  /** The C code emitted for a statement, fragment by fragment as the translator writes it. */
  function Translate(s: Stmt): string
    decreases s
  {
    match s
    case PrintString(t) => "printf(\"" + t + "\\n\");" + "\n"
    case PrintExpression(e) => "printf(\"%" + ".2f\\n\", (float)(" + Texts(e.Tokens()) + "));" + "\n"
    case If(c, body) => "if(" + Texts(c.Tokens()) + ")}" + "\n" + TranslateAll(body) + "}" + "\n"
    case While(c, body) => "while(" + Texts(c.Tokens()) + "){" + "\n" + TranslateAll(body) + "}" + "\n"
    case Label(n) => n + ":" + "\n" + ("goto " + n + ";") + "\n"
    case Goto(n) => ""
    case Let(n, e) => n + " = " + Texts(e.Tokens()) + ";" + "\n"
    case Input(n) => InputCode(n)
  }

  function TranslateAll(ss: seq<Stmt>): string
    decreases ss
  {
    if ss == [] then "" else Translate(ss[0]) + TranslateAll(ss[1..])
  }

  /** Read a float into `n`; if that fails, set `n` to 0 and discard the unread word. */
  function InputCode(n: string): string {
    "if(0 == scanf(\"%" + "f\", &" + n + ")) {" + "\n" + (n + " = 0;") + "\n" + "scanf(\"%" + "*s\");" + "\n" + "}" + "\n"
  }

  /** The variables LET and INPUT assign, in textual order. */
  function Targets(s: Stmt): seq<string>
    decreases s
  {
    match s
    case Let(n, _) => [n]
    case Input(n) => [n]
    case If(_, body) => TargetsAll(body)
    case While(_, body) => TargetsAll(body)
    case _ => []
  }

  function TargetsAll(ss: seq<Stmt>): seq<string>
    decreases ss
  {
    if ss == [] then [] else Targets(ss[0]) + TargetsAll(ss[1..])
  }

  /** The labels LABEL declares, in textual order. */
  function Labels(s: Stmt): seq<string>
    decreases s
  {
    match s
    case Label(n) => [n]
    case If(_, body) => LabelsAll(body)
    case While(_, body) => LabelsAll(body)
    case _ => []
  }

  function LabelsAll(ss: seq<Stmt>): seq<string>
    decreases ss
  {
    if ss == [] then [] else Labels(ss[0]) + LabelsAll(ss[1..])
  }

  /** The labels GOTO jumps to. */
  function Gotos(s: Stmt): set<string>
    decreases s
  {
    match s
    case Goto(n) => {n}
    case If(_, body) => GotosAll(body)
    case While(_, body) => GotosAll(body)
    case _ => {}
  }

  function GotosAll(ss: seq<Stmt>): set<string>
    decreases ss
  {
    if ss == [] then {} else Gotos(ss[0]) + GotosAll(ss[1..])
  }

  /**
   * The tokens a statement consists of, with one `NL` where the grammar demands
   * one or more newlines: after THEN and REPEAT, and after every statement of a run.
   */
  function Spelled(s: Stmt): seq<Token>
    decreases s
  {
    match s
    case PrintString(t) => [KeywordToken(PRINT), Token(t, STRING)]
    case PrintExpression(e) => [KeywordToken(PRINT)] + e.Tokens()
    case If(c, body) => [KeywordToken(IF)] + c.Tokens() + [KeywordToken(THEN), NL] + SpelledAll(body) + [KeywordToken(ENDIF)]
    case While(c, body) => [KeywordToken(WHILE)] + c.Tokens() + [KeywordToken(REPEAT), NL] + SpelledAll(body) + [KeywordToken(ENDWHILE)]
    case Label(n) => [KeywordToken(LABEL), Token(n, IDENT)]
    case Goto(n) => [KeywordToken(GOTO), Token(n, IDENT)]
    case Let(n, e) => [KeywordToken(LET), Token(n, IDENT), Token("=", EQ)] + e.Tokens()
    case Input(n) => [KeywordToken(INPUT), Token(n, IDENT)]
  }

  function SpelledAll(ss: seq<Stmt>): seq<Token>
    decreases ss
  {
    if ss == [] then [] else Spelled(ss[0]) + [NL] + SpelledAll(ss[1..])
  }

  /** The spelling of a non-empty run ends in `NL`. */
  lemma {:induction false} SpelledAllLast(ss: seq<Stmt>)
    requires ss != []
    ensures var t := SpelledAll(ss); t != [] && t[|t| - 1] == NL
    decreases |ss|
  {
    if |ss| > 1 {
      SpelledAllLast(ss[1..]);
    } else {
      assert SpelledAll(ss[1..]) == [];
    }
  }

  /** A statement starts with its keyword. */
  lemma SpelledFirst(s: Stmt)
    ensures Spelled(s) != [] && Spelled(s)[0].kind.IsKeyword()
  {
  }

  /** An accepted statement does not end in a NEWLINE. */
  lemma SpelledLast(s: Stmt, syms: set<string>)
    requires Accepted(s, syms)
    ensures var t := Spelled(s); t != [] && t[|t| - 1].kind != NEWLINE
  {
    if s.PrintExpression? || s.Let? {
      ExpressionLast(s, syms);
    } else if s.If? || s.While? {
      BlockLast(s);
    } else {
      LeafLast(s);
    }
  }

  /** PRINT of an expression and LET end in their expression, which holds no NEWLINE. */
  lemma ExpressionLast(s: Stmt, syms: set<string>)
    requires s.PrintExpression? || s.Let?
    requires s.PrintExpression? ==> s.expr.Checked(syms)
    requires s.Let? ==> s.expr.Checked(syms + {s.name})
    ensures var t := Spelled(s); t != [] && t[|t| - 1].kind != NEWLINE
  {
    if s.PrintExpression? {
      EndsOutsideRun([KeywordToken(PRINT)], s.expr, syms);
    } else {
      EndsOutsideRun([KeywordToken(LET), Token(s.name, IDENT), Token("=", EQ)], s.expr, syms + {s.name});
    }
  }

  /** PRINT of a string, LABEL, GOTO and INPUT are a keyword and one more token. */
  lemma LeafLast(s: Stmt)
    requires s.PrintString? || s.Label? || s.Goto? || s.Input?
    ensures var t := Spelled(s); |t| == 2 && t[1].kind == (if s.PrintString? then STRING else IDENT)
  {
  }

  /** IF and WHILE end in their closing keyword. */
  lemma BlockLast(s: Stmt)
    requires s.If? || s.While?
    ensures var t := Spelled(s); t != [] && t[|t| - 1].kind.IsKeyword()
  {
    var k := if s.If? then ENDIF else ENDWHILE;
    var p := if s.If? then [KeywordToken(IF)] + s.cond.Tokens() + [KeywordToken(THEN), NL] + SpelledAll(s.body)
             else [KeywordToken(WHILE)] + s.cond.Tokens() + [KeywordToken(REPEAT), NL] + SpelledAll(s.body);
    assert Spelled(s) == p + [KeywordToken(k)];
  }

  /** Tokens ending in something other than a NEWLINE, followed by an expression, still do. */
  lemma EndsOutsideRun(p: seq<Token>, e: Expr, syms: set<string>)
    requires p != [] && p[|p| - 1].kind != NEWLINE && e.Checked(syms)
    ensures var t := p + e.Tokens(); t[|t| - 1].kind != NEWLINE
  {
    var et := e.Tokens();
    if et != [] {
      ExpressionTokens(e, syms);
      assert (p + et)[|p + et| - 1] == et[|et| - 1];
    }
  }

  /** Tokens that collapse to the spelling of a run, if any, start with a keyword. */
  lemma RunFirst(ts: seq<Token>, ss: seq<Stmt>)
    requires ts != [] && Collapse(ts) == SpelledAll(ss)
    ensures ts[0].kind != NEWLINE
  {
    CollapseFirst(ts);
    assert ss != [];
    SpelledFirst(ss[0]);
    assert SpelledAll(ss)[0] == Spelled(ss[0])[0];
  }

  function SetOf(xs: seq<string>): set<string> {
    set x | x in xs
  }

  /**
   * What the parser demands of a statement, given the variables declared before it:
   * names are identifiers, expressions use only declared variables, and LET's
   * target counts as declared in its own right-hand side.
   */
  ghost predicate Accepted(s: Stmt, syms: set<string>)
    decreases s
  {
    match s
    case PrintString(t) => IsStringBody(t)
    case PrintExpression(e) => e.Checked(syms)
    case If(c, body) => c.Checked(syms) && AcceptedAll(body, syms)
    case While(c, body) => c.Checked(syms) && AcceptedAll(body, syms)
    case Label(n) => IsIdentifier(n)
    case Goto(n) => IsIdentifier(n)
    case Let(n, e) => IsIdentifier(n) && e.Checked(syms + {n})
    case Input(n) => IsIdentifier(n)
  }

  /** A run of statements, each judged with the variables its predecessors declared. */
  ghost predicate AcceptedAll(ss: seq<Stmt>, syms: set<string>)
    decreases ss
  {
    ss == [] || (Accepted(ss[0], syms) && AcceptedAll(ss[1..], syms + SetOf(Targets(ss[0]))))
  }

  /** Every variable an accepted run assigns is an identifier. */
  lemma {:induction false} TargetsAreIdentifiers(ss: seq<Stmt>, syms: set<string>)
    requires AcceptedAll(ss, syms)
    ensures forall i | 0 <= i < |TargetsAll(ss)| :: IsIdentifier(TargetsAll(ss)[i])
    decreases ss
  {
    if ss != [] {
      var s := ss[0];
      assert forall i | 0 <= i < |Targets(s)| :: IsIdentifier(Targets(s)[i]) by {
        if s.If? || s.While? {
          TargetsAreIdentifiers(s.body, syms);
        }
      }
      TargetsAreIdentifiers(ss[1..], syms + SetOf(Targets(s)));
      var t1, t2 := Targets(s), TargetsAll(ss[1..]);
      forall i | 0 <= i < |t1 + t2| ensures IsIdentifier((t1 + t2)[i]) {
        if i >= |t1| { assert (t1 + t2)[i] == t2[i - |t1|]; }
      }
    }
  }

  // ----- list lemmas -----

  lemma Associative<T>(x: seq<T>, y: seq<T>, z: seq<T>)
    ensures x + y + z == x + (y + z)
  {
  }

  lemma SetOfAppend(a: seq<string>, b: seq<string>)
    ensures SetOf(a + b) == SetOf(a) + SetOf(b)
  {
  }

  lemma {:induction false} TranslateAllAppend(a: seq<Stmt>, b: seq<Stmt>)
    ensures TranslateAll(a + b) == TranslateAll(a) + TranslateAll(b)
    decreases |a|
  {
    if a == [] {
      assert a + b == b;
    } else {
      assert (a + b)[0] == a[0] && (a + b)[1..] == a[1..] + b;
      TranslateAllAppend(a[1..], b);
    }
  }

  lemma {:induction false} TargetsAllAppend(a: seq<Stmt>, b: seq<Stmt>)
    ensures TargetsAll(a + b) == TargetsAll(a) + TargetsAll(b)
    decreases |a|
  {
    if a == [] {
      assert a + b == b;
    } else {
      assert (a + b)[0] == a[0] && (a + b)[1..] == a[1..] + b;
      TargetsAllAppend(a[1..], b);
    }
  }

  lemma {:induction false} LabelsAllAppend(a: seq<Stmt>, b: seq<Stmt>)
    ensures LabelsAll(a + b) == LabelsAll(a) + LabelsAll(b)
    decreases |a|
  {
    if a == [] {
      assert a + b == b;
    } else {
      assert (a + b)[0] == a[0] && (a + b)[1..] == a[1..] + b;
      LabelsAllAppend(a[1..], b);
    }
  }

  lemma {:induction false} GotosAllAppend(a: seq<Stmt>, b: seq<Stmt>)
    ensures GotosAll(a + b) == GotosAll(a) + GotosAll(b)
    decreases |a|
  {
    if a == [] {
      assert a + b == b;
    } else {
      assert (a + b)[0] == a[0] && (a + b)[1..] == a[1..] + b;
      GotosAllAppend(a[1..], b);
    }
  }

  lemma {:induction false} SpelledAllAppend(a: seq<Stmt>, b: seq<Stmt>)
    ensures SpelledAll(a + b) == SpelledAll(a) + SpelledAll(b)
    decreases |a|
  {
    if a == [] {
      assert a + b == b;
    } else {
      assert (a + b)[0] == a[0] && (a + b)[1..] == a[1..] + b;
      SpelledAllAppend(a[1..], b);
    }
  }

  lemma {:induction false} AcceptedAllAppend(a: seq<Stmt>, b: seq<Stmt>, syms: set<string>)
    ensures AcceptedAll(a + b, syms) <==> AcceptedAll(a, syms) && AcceptedAll(b, syms + SetOf(TargetsAll(a)))
    decreases |a|
  {
    if a == [] {
      assert a + b == b;
      assert syms + SetOf(TargetsAll(a)) == syms;
    } else {
      assert (a + b)[0] == a[0];
      assert (a + b)[1..] == a[1..] + b;
      AcceptedAllAppend(a[1..], b, syms + SetOf(Targets(a[0])));
      SetOfAppend(Targets(a[0]), TargetsAll(a[1..]));
      assert syms + SetOf(Targets(a[0])) + SetOf(TargetsAll(a[1..])) == syms + SetOf(TargetsAll(a));
    }
  }

  /** The one-statement run and the statement agree. */
  lemma Single(s: Stmt, syms: set<string>)
    ensures TranslateAll([s]) == Translate(s) && TargetsAll([s]) == Targets(s)
    ensures LabelsAll([s]) == Labels(s) && GotosAll([s]) == Gotos(s) && SpelledAll([s]) == Spelled(s) + [NL]
    ensures AcceptedAll([s], syms) <==> Accepted(s, syms)
  {
    assert [s][1..] == [];
  }

  // ----- declarations -----

  predicate Distinct(xs: seq<string>) {
    forall i, j | 0 <= i < j < |xs| :: xs[i] != xs[j]
  }

  /** The names of `ns` not already in `d`, each once, in the order of their first occurrence. */
  function NewNames(d: seq<string>, ns: seq<string>): seq<string>
    decreases |ns|
  {
    if ns == [] then []
    else if ns[0] in d then NewNames(d, ns[1..])
    else [ns[0]] + NewNames(d + [ns[0]], ns[1..])
  }

  lemma DistinctSnoc(d: seq<string>, x: string)
    requires Distinct(d) && x !in d
    ensures Distinct(d + [x])
  {
  }

  lemma SetOfCons(ns: seq<string>)
    requires ns != []
    ensures SetOf(ns) == {ns[0]} + SetOf(ns[1..])
  {
    assert ns == [ns[0]] + ns[1..];
    SetOfAppend([ns[0]], ns[1..]);
  }

  /** Adding the new names to `d` keeps it free of repetitions and adds exactly the names of `ns`. */
  lemma {:induction false} NewNamesAdd(d: seq<string>, ns: seq<string>)
    requires Distinct(d)
    ensures Distinct(d + NewNames(d, ns))
    ensures SetOf(d + NewNames(d, ns)) == SetOf(d) + SetOf(ns)
    decreases |ns|
  {
    if ns == [] {
      assert d + NewNames(d, ns) == d;
    } else {
      SetOfCons(ns);
      if ns[0] in d {
        NewNamesAdd(d, ns[1..]);
      } else {
        var d' := d + [ns[0]];
        DistinctSnoc(d, ns[0]);
        NewNamesAdd(d', ns[1..]);
        assert d + NewNames(d, ns) == d' + NewNames(d', ns[1..]);
        SetOfAppend(d, [ns[0]]);
      }
    }
  }

  lemma {:induction false} NewNamesAppend(d: seq<string>, a: seq<string>, b: seq<string>)
    ensures NewNames(d, a + b) == NewNames(d, a) + NewNames(d + NewNames(d, a), b)
    decreases |a|
  {
    if a == [] {
      assert a + b == b && d + [] == d;
    } else {
      assert (a + b)[0] == a[0] && (a + b)[1..] == a[1..] + b;
      if a[0] in d {
        NewNamesAppend(d, a[1..], b);
      } else {
        NewNamesAppend(d + [a[0]], a[1..], b);
        assert d + [a[0]] + NewNames(d + [a[0]], a[1..]) == d + NewNames(d, a);
      }
    }
  }

  /** The header lines declaring `names` as C floats. */
  function Declarations(names: seq<string>): string {
    if names == [] then "" else "float " + names[0] + ";" + "\n" + Declarations(names[1..])
  }

  lemma {:induction false} DeclarationsAppend(a: seq<string>, b: seq<string>)
    ensures Declarations(a + b) == Declarations(a) + Declarations(b)
    decreases |a|
  {
    if a == [] {
      assert a + b == b;
    } else {
      assert (a + b)[0] == a[0] && (a + b)[1..] == a[1..] + b;
      DeclarationsAppend(a[1..], b);
    }
  }

  /** One declaration line per name: the header text for `names` holds exactly `|names|` newlines. */
  lemma {:induction false} DeclarationLines(names: seq<string>)
    requires forall i | 0 <= i < |names| :: '\n' !in names[i]
    ensures multiset(Declarations(names))['\n'] == |names|
    decreases |names|
  {
    if names != [] {
      DeclarationLines(names[1..]);
      var line := "float " + names[0] + ";" + "\n";
      assert multiset(line)['\n'] == 1 by {
        assert line == "float " + names[0] + ";" + "\n";
        assert multiset("float ")['\n'] == 0 && multiset(";")['\n'] == 0 && multiset("\n")['\n'] == 1;
        assert multiset(names[0])['\n'] == 0;
      }
      assert Declarations(names) == line + Declarations(names[1..]);
    }
  }

  /** A list without repetitions has as many elements as its set. */
  lemma {:induction false} DistinctCardinality(xs: seq<string>)
    requires Distinct(xs)
    ensures |SetOf(xs)| == |xs|
    decreases |xs|
  {
    if xs != [] {
      var rest := xs[1..];
      DistinctCardinality(rest);
      assert xs == [xs[0]] + rest;
      SetOfAppend([xs[0]], rest);
      assert xs[0] !in SetOf(rest) by {
        forall j | 0 <= j < |rest| ensures rest[j] != xs[0] {
          assert rest[j] == xs[j + 1];
        }
      }
      assert SetOf([xs[0]]) == {xs[0]};
    }
  }
}
