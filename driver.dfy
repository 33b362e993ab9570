/**
 * A whole compilation: a lexer over the source, an emitter, the parser's
 * `Program`, and the emitter's header and body written out one after the other.
 */
module Compiling {
  import opened Wrappers
  import opened Tokens
  import opened Lexing
  import opened Emitting
  import opened Syntax
  import opened ParserSpec
  import opened Parsing

  /** The C text of a program: preamble, one declaration per variable in first-assignment order, body, epilogue. */
  function Translation(prog: seq<Stmt>): string {
    Preamble() + Declarations(NewNames([], TargetsAll(prog))) + TranslateAll(prog) + Epilogue()
  }

  /**
   * What the compiler demands of a whole program: every statement is accepted with
   * the variables assigned before it, no label is declared twice, and every GOTO
   * target is a declared label.
   */
  ghost predicate Sound(prog: seq<Stmt>) {
    AcceptedAll(prog, {}) && FreshLabels(LabelsAll(prog), {}) && GotosAll(prog) <= SetOf(LabelsAll(prog))
  }

  /** The header declares every assigned variable once: one line per distinct name. */
  lemma HeaderDeclaresEachOnce(prog: seq<Stmt>)
    requires AcceptedAll(prog, {})
    ensures var names := NewNames([], TargetsAll(prog));
      Distinct(names) && SetOf(names) == SetOf(TargetsAll(prog))
      && multiset(Declarations(names))['\n'] == |SetOf(TargetsAll(prog))|
  {
    var ns := TargetsAll(prog);
    var names := NewNames([], ns);
    NewNamesAdd([], ns);
    assert [] + names == names;
    assert SetOf([]) == {};
    TargetsAreIdentifiers(prog, {});
    NamesHaveNoNewline(names, ns);
    DeclarationLines(names);
    DistinctCardinality(names);
  }

  /** Names drawn from a list of identifiers hold no newline. */
  lemma NamesHaveNoNewline(names: seq<string>, ns: seq<string>)
    requires SetOf(names) == SetOf(ns) && forall i | 0 <= i < |ns| :: IsIdentifier(ns[i])
    ensures forall i | 0 <= i < |names| :: '\n' !in names[i]
  {
    forall i | 0 <= i < |names| ensures '\n' !in names[i] {
      assert names[i] in SetOf(names);
      var j :| 0 <= j < |ns| && ns[j] == names[i];
      IdentifierHasNoNewline(ns[j]);
    }
  }

  /** An identifier is a word, which holds letters and digits only. */
  lemma IdentifierHasNoNewline(n: string)
    requires IsIdentifier(n)
    ensures '\n' !in n
  {
    forall i | 0 <= i < |n| ensures n[i] != '\n' {
      assert IsAlnum(n[i]);
    }
  }

  /** The output of a parse that ended in `Compiled`, from a fresh parser and emitter. */
  lemma CompiledOutput(a: Snapshot, prog: seq<Stmt>, ts: seq<Token>)
    requires a == Snapshot({}, [], {}, {}, "", "", [])
    ensures var b := Compiled(a, prog, ts);
      b.header + b.code == Translation(prog) && b.consumed == ts
      && b.labelsDeclared == SetOf(LabelsAll(prog)) && b.labelsGoToed == GotosAll(prog)
  {
    var h := Preamble() + Declarations(NewNames([], TargetsAll(prog)));
    assert "" + Preamble() == Preamble();
    assert "" + TranslateAll(prog) == TranslateAll(prog);
    assert [] + ts == ts;
    Associative(h, TranslateAll(prog), Epilogue());
  }

  /**
   * Compiles `input`. When the statements parse, `prog` is the program read and
   * `lexed` what the lexer produced: perhaps some newlines, the tokens of `prog`
   * with one or more newlines after each statement and after each THEN and REPEAT,
   * then EOF and the token lexed after it.
   */
  method Compile(input: string) returns (r: Result<string, Error>, ghost parsed: bool, ghost prog: seq<Stmt>,
                                        ghost lexed: seq<Token>)
    ensures !parsed ==> r.Failure?
    ensures parsed ==>
      AcceptedAll(prog, {}) && FreshLabels(LabelsAll(prog), {})
      && (r.Success? <==> GotosAll(prog) <= SetOf(LabelsAll(prog)))
      && (r.Failure? ==> r.error.ParseFailure? && r.error.parse.UndeclaredLabel?
                         && r.error.parse.name in GotosAll(prog) && r.error.parse.name !in SetOf(LabelsAll(prog)))
      && |lexed| >= 2 && lexed[|lexed| - 2].kind == EOF
      && (var body := Collapse(lexed[..|lexed| - 2]); body == SpelledAll(prog) || body == [NL] + SpelledAll(prog))
      && exists q: nat :: LexesTo(input + "\n", 0, lexed, q)
    ensures r.Success? ==> parsed && Sound(prog) && r.value == Translation(prog)
    ensures r.Success? ==> exists p: seq<Stmt> :: Sound(p) && r.value == Translation(p)
  {
    parsed, prog, lexed := false, [], [];
    var lexer := new Lexer(input);
    var emitter := new Emitter();
    var parser := new Parser(lexer, emitter);
    if parser.aborted != None {
      return Failure(parser.aborted.value), parsed, prog, lexed;
    }
    ghost var a := parser.State();
    ghost var lead, ts;
    parsed, prog, lead, ts := parser.Program();
    if parsed {
      CompiledOutput(a, prog, lead + ts);
      LeadingNewlines(lead, ts, prog);
      lexed := lead + ts + [parser.curToken, parser.peekToken];
      assert lexed[..|lexed| - 2] == lead + ts;
      assert LexesTo(input + "\n", 0, lexed, parser.lexer.curPos);
    }
    if parser.aborted != None {
      return Failure(parser.aborted.value), parsed, prog, lexed;
    }
    r := Success(emitter.Output());
  }
}
