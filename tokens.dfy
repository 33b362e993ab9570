/**
 * Tokens of the TeenyTiny language: the token kinds with the numbers the
 * enumeration gives them, the keyword lookup that relies on those numbers,
 * and the shapes a token's text can take.
 */
module Tokens {
  import opened Wrappers

  /** The token kinds, in the order the enumeration declares them. */
  datatype TokenType =
    | EOF | NEWLINE | NUMBER | IDENT | STRING
    // keywords
    | LABEL | GOTO | PRINT | INPUT | LET | IF | THEN | ENDIF | WHILE | REPEAT | ENDWHILE
    // operators
    | EQ | PLUS | MINUS | ASTERISK | SLASH | EQEQ | NOTEQ | LT | LTEQ | GT | GTEQ
  {
    /** The number the enumeration assigns to this kind. */
    function Value(): int {
      match this
      case EOF => -1
      case NEWLINE => 0
      case NUMBER => 1
      case IDENT => 2
      case STRING => 3
      case LABEL => 101
      case GOTO => 102
      case PRINT => 103
      case INPUT => 104
      case LET => 105
      case IF => 106
      case THEN => 107
      case ENDIF => 108
      case WHILE => 109
      case REPEAT => 110
      case ENDWHILE => 111
      case EQ => 201
      case PLUS => 202
      case MINUS => 203
      case ASTERISK => 204
      case SLASH => 205
      case EQEQ => 206
      case NOTEQ => 207
      case LT => 208
      case LTEQ => 209
      case GT => 210
      case GTEQ => 211
    }

    /** The member's name in the enumeration. */
    function Name(): string {
      match this
      case EOF => "EOF"
      case NEWLINE => "NEWLINE"
      case NUMBER => "NUMBER"
      case IDENT => "IDENT"
      case STRING => "STRING"
      case LABEL => "LABEL"
      case GOTO => "GOTO"
      case PRINT => "PRINT"
      case INPUT => "INPUT"
      case LET => "LET"
      case IF => "IF"
      case THEN => "THEN"
      case ENDIF => "ENDIF"
      case WHILE => "WHILE"
      case REPEAT => "REPEAT"
      case ENDWHILE => "ENDWHILE"
      case EQ => "EQ"
      case PLUS => "PLUS"
      case MINUS => "MINUS"
      case ASTERISK => "ASTERISK"
      case SLASH => "SLASH"
      case EQEQ => "EQEQ"
      case NOTEQ => "NOTEQ"
      case LT => "LT"
      case LTEQ => "LTEQ"
      case GT => "GT"
      case GTEQ => "GTEQ"
    }

    /** The keyword band: values strictly between 100 and 200. */
    predicate IsKeyword() {
      100 < Value() < 200
    }
  }

  /** Every kind, in declaration order: the order in which the keyword lookup visits them. */
  const AllKinds: seq<TokenType> :=
    [EOF, NEWLINE, NUMBER, IDENT, STRING,
     LABEL, GOTO, PRINT, INPUT, LET, IF, THEN, ENDIF, WHILE, REPEAT, ENDWHILE,
     EQ, PLUS, MINUS, ASTERISK, SLASH, EQEQ, NOTEQ, LT, LTEQ, GT, GTEQ]

  lemma AllKindsListed(k: TokenType)
    ensures k in AllKinds
  {
  }

  /** The first kind of `kinds` in the keyword band whose name is `text`. */
  function FindKeyword(kinds: seq<TokenType>, text: string): (r: Option<TokenType>)
    ensures r.Some? ==> r.value in kinds && r.value.IsKeyword() && r.value.Name() == text
    ensures r.None? ==> forall k :: k in kinds && k.IsKeyword() ==> k.Name() != text
  {
    if |kinds| == 0 then None
    else if kinds[0].Name() == text && kinds[0].IsKeyword() then Some(kinds[0])
    else FindKeyword(kinds[1..], text)
  }

  /**
   * The keyword kind spelled `text`, if any: only kinds in the keyword band
   * are candidates, the comparison is exact and case-sensitive.
   */
  function CheckIfKeyword(text: string): (r: Option<TokenType>)
    ensures r.Some? ==> r.value.IsKeyword() && r.value.Name() == text
  {
    FindKeyword(AllKinds, text)
  }

  /** The lookup finds nothing exactly when no kind in the keyword band has that name. */
  lemma CheckIfKeywordNone(text: string)
    ensures CheckIfKeyword(text).None? <==> forall k: TokenType :: k.IsKeyword() ==> k.Name() != text
  {
    if CheckIfKeyword(text).None? {
      forall k: TokenType | k.IsKeyword() ensures k.Name() != text {
        AllKindsListed(k);
      }
    }
  }

  /** The kind of a word: the keyword it spells, or IDENT. */
  function WordKindOf(text: string): (k: TokenType)
    ensures k == IDENT <==> CheckIfKeyword(text) == None
    ensures k != IDENT ==> k.IsKeyword() && k.Name() == text
  {
    match CheckIfKeyword(text)
    case Some(k) => assert k.Value() != IDENT.Value(); k
    case None => IDENT
  }

  /** Two keywords with the same name are the same keyword. */
  lemma KeywordNamesDistinct(a: TokenType, b: TokenType)
    requires a.IsKeyword() && b.IsKeyword() && a.Name() == b.Name()
    ensures a == b
  {
  }

  /** A word lexes as keyword `k` exactly when it is `k`'s name and `k` lies in the keyword band. */
  lemma CheckIfKeywordExact(text: string, k: TokenType)
    ensures CheckIfKeyword(text) == Some(k) <==> k.IsKeyword() && k.Name() == text
  {
    var r := CheckIfKeyword(text);
    if k.IsKeyword() && k.Name() == text {
      CheckIfKeywordNone(text);
      assert r.Some?;
      KeywordNamesDistinct(r.value, k);
    }
  }

  /** The names of the kinds in the keyword band. */
  const KeywordNames: set<string> :=
    {"LABEL", "GOTO", "PRINT", "INPUT", "LET", "IF", "THEN", "ENDIF", "WHILE", "REPEAT", "ENDWHILE"}

  /** A word is a keyword exactly when it is one of the eleven keyword names. */
  lemma KeywordIffKeywordName(text: string)
    ensures CheckIfKeyword(text).Some? <==> text in KeywordNames
  {
    if text in KeywordNames {
      var k := if text == "LABEL" then LABEL else if text == "GOTO" then GOTO
        else if text == "PRINT" then PRINT else if text == "INPUT" then INPUT
        else if text == "LET" then LET else if text == "IF" then IF
        else if text == "THEN" then THEN else if text == "ENDIF" then ENDIF
        else if text == "WHILE" then WHILE else if text == "REPEAT" then REPEAT else ENDWHILE;
      assert k.IsKeyword() && k.Name() == text;
    } else {
      forall k: TokenType | k.IsKeyword() ensures k.Name() != text {
        assert k.Name() in KeywordNames;
      }
    }
    CheckIfKeywordNone(text);
  }

  /** The name of a kind outside the keyword band (EQ, PLUS, EOF, ...) is not a keyword. */
  lemma OutsideBandIsNotKeyword(k: TokenType)
    requires !k.IsKeyword()
    ensures CheckIfKeyword(k.Name()) == None
  {
    OutsideBandName(k);
    KeywordIffKeywordName(k.Name());
  }

  lemma OutsideBandName(k: TokenType)
    requires !k.IsKeyword()
    ensures k.Name() !in KeywordNames
  {
  }

  /** The match is case-sensitive: a word starting with a lower-case letter is never a keyword. */
  lemma LowerCaseIsNotKeyword(text: string)
    requires |text| > 0 && 'a' <= text[0] <= 'z'
    ensures CheckIfKeyword(text) == None
  {
    assert forall w | w in KeywordNames :: |w| > 0 && 'A' <= w[0] <= 'Z';
    KeywordIffKeywordName(text);
  }

  // ----- character classes (ASCII) -----

  predicate IsDigit(c: char) { '0' <= c <= '9' }
  predicate IsAlpha(c: char) { 'a' <= c <= 'z' || 'A' <= c <= 'Z' }
  predicate IsAlnum(c: char) { IsDigit(c) || IsAlpha(c) }
  /** Blanks skipped between tokens; newline is not one of them. */
  predicate IsBlank(c: char) { c == ' ' || c == '\t' || c == '\r' }
  /** Characters a string literal may not contain. */
  predicate IllegalInString(c: char) { c == '\r' || c == '\n' || c == '\t' || c == '\\' || c == '%' }

  // ----- token shapes -----

  datatype Token = Token(text: string, kind: TokenType)

  /** One or more digits. */
  predicate IsDigits(s: string) {
    |s| > 0 && forall i | 0 <= i < |s| :: IsDigit(s[i])
  }

  /** `digit+ ('.' digit+)?` */
  predicate IsNumberText(s: string) {
    IsDigits(s) || exists k | 0 < k < |s| :: s[k] == '.' && IsDigits(s[..k]) && IsDigits(s[k + 1..])
  }

  /** `alpha alnum*` */
  predicate IsWord(s: string) {
    |s| > 0 && IsAlpha(s[0]) && forall i | 1 <= i < |s| :: IsAlnum(s[i])
  }

  /** What may stand between the quotes of a string literal. */
  predicate IsStringBody(s: string) {
    forall i | 0 <= i < |s| :: s[i] != '"' && !IllegalInString(s[i])
  }

  /** A word that is not a keyword: the text of an IDENT token. */
  predicate IsIdentifier(s: string) {
    IsWord(s) && CheckIfKeyword(s) == None
  }

  /** The fixed text of a kind, for the kinds that have one. */
  function Spelling(k: TokenType): Option<string> {
    match k
    case EOF => Some("\0")
    case NEWLINE => Some("\n")
    case NUMBER => None
    case IDENT => None
    case STRING => None
    case EQ => Some("=")
    case PLUS => Some("+")
    case MINUS => Some("-")
    case ASTERISK => Some("*")
    case SLASH => Some("/")
    case EQEQ => Some("==")
    case NOTEQ => Some("!=")
    case LT => Some("<")
    case LTEQ => Some("<=")
    case GT => Some(">")
    case GTEQ => Some(">=")
    case _ => Some(k.Name())
  }

  /** The relation between a token's kind and its text that the lexer guarantees. */
  predicate WellFormed(t: Token) {
    match t.kind
    case NUMBER => IsNumberText(t.text)
    case IDENT => IsIdentifier(t.text)
    case STRING => IsStringBody(t.text)
    case _ => Spelling(t.kind) == Some(t.text)
  }

  /** The token of a keyword, as the lexer produces it. */
  function KeywordToken(k: TokenType): Token
    requires k.IsKeyword()
  {
    Token(k.Name(), k)
  }

  /** A well-formed keyword token is spelled as its keyword. */
  lemma KeywordTokenOfKind(t: Token)
    requires WellFormed(t) && t.kind.IsKeyword()
    ensures t == KeywordToken(t.kind)
  {
    assert Spelling(t.kind) == Some(t.kind.Name());
  }

  /** A well-formed "=" token. */
  lemma EqToken(t: Token)
    requires WellFormed(t) && t.kind == EQ
    ensures t == Token("=", EQ)
  {
    assert Spelling(EQ) == Some("=");
  }
}
