/**
 * The lexer: a character cursor over the source text, with "\n" appended,
 * that hands out one token per call.  `Scan` is the reference definition of
 * one call; the class `Lexer` is the cursor itself, and its `GetToken` is
 * proved to do what `Scan` says.
 */
module Lexing {
  import opened Wrappers
  import opened Tokens

  /** The lexer's source always ends with the newline appended to the input. */
  predicate Terminated(s: string) {
    |s| > 0 && s[|s| - 1] == '\n'
  }

  /** The character under the cursor at position `i`: `'\0'` outside the source. */
  function CharAt(s: string, i: int): (c: char)
    ensures 0 <= i < |s| ==> c == s[i]
    ensures !(0 <= i < |s|) ==> c == '\0'
  {
    if 0 <= i < |s| then s[i] else '\0'
  }

  /** The first position at or after `i` whose character satisfies `stop`, or `|s|`. */
  function Until(s: string, i: nat, stop: char -> bool): (j: nat)
    requires i <= |s|
    decreases |s| - i
    ensures i <= j <= |s|
    ensures j < |s| ==> stop(s[j])
    ensures forall k | i <= k < j :: !stop(s[k])
  {
    if i == |s| || stop(s[i]) then i else Until(s, i + 1, stop)
  }

  /** `Until` stops no later than the first position that satisfies `stop`. */
  lemma {:induction false} UntilAtMost(s: string, i: nat, stop: char -> bool, k: nat)
    requires i <= k < |s| && stop(s[k])
    ensures Until(s, i, stop) <= k
    decreases k - i
  {
    if i < k && !stop(s[i]) {
      UntilAtMost(s, i + 1, stop, k);
    }
  }

  /** `Until` is the only position with its two defining properties. */
  lemma UntilUnique(s: string, i: nat, stop: char -> bool, j: nat)
    requires i <= j <= |s|
    requires forall k | i <= k < j :: !stop(s[k])
    requires j == |s| || stop(s[j])
    ensures Until(s, i, stop) == j
  {
  }

  predicate NotBlank(c: char) { !IsBlank(c) }
  predicate IsNewline(c: char) { c == '\n' }
  predicate NotDigit(c: char) { !IsDigit(c) }
  predicate NotAlnum(c: char) { !IsAlnum(c) }
  /** What ends the scan of a string literal: its closing quote or a forbidden character. */
  predicate EndsString(c: char) { c == '"' || IllegalInString(c) }

  /** Where the cursor stands after skipping blanks from `p`. */
  function SkipBlanks(s: string, p: nat): (q: nat)
    ensures p <= q
    ensures !IsBlank(CharAt(s, q))
    ensures forall k | p <= k < q :: k < |s| && IsBlank(s[k])
  {
    if p >= |s| then p else Until(s, p, NotBlank)
  }

  /** Where the cursor stands after skipping a comment at `p`: on the newline that ends it. */
  function SkipComment(s: string, p: nat): (q: nat)
    requires Terminated(s)
    ensures p <= q
    ensures CharAt(s, p) == '#' ==> q < |s| && s[q] == '\n' && forall k | p <= k < q :: s[k] != '\n'
    ensures CharAt(s, p) != '#' ==> q == p
  {
    if p < |s| && s[p] == '#' then
      UntilAtMost(s, p, IsNewline, |s| - 1);
      Until(s, p, IsNewline)
    else p
  }

  /** The position of the first character of the token a call at `p` classifies. */
  function TokenStart(s: string, p: nat): nat
    requires Terminated(s)
  {
    SkipComment(s, SkipBlanks(s, p))
  }

  /** Why lexing stopped. */
  datatype LexError =
    | BangWithoutEquals(next: char)
    | IllegalCharacterInString
    | IllegalCharacterInNumber
    | UnknownToken(c: char)

  /** A token and the cursor position after it. */
  datatype Lexed = Lexed(token: Token, next: nat)

  /** A string literal whose opening quote is at `q`. */
  function ScanString(s: string, q: nat): Result<Lexed, LexError>
    requires Terminated(s) && q < |s| && s[q] == '"'
  {
    var e := Until(s, q + 1, EndsString);
    if e < |s| && s[e] == '"' then Success(Lexed(Token(s[q + 1..e], STRING), e + 1))
    else Failure(IllegalCharacterInString)
  }

  /** A number whose first digit is at `q`. */
  function ScanNumber(s: string, q: nat): Result<Lexed, LexError>
    requires Terminated(s) && q < |s| && IsDigit(s[q])
  {
    var d := Until(s, q + 1, NotDigit);
    if CharAt(s, d) == '.' then
      if IsDigit(CharAt(s, d + 1)) then
        var f := Until(s, d + 1, NotDigit);
        Success(Lexed(Token(s[q..f], NUMBER), f))
      else Failure(IllegalCharacterInNumber)
    else Success(Lexed(Token(s[q..d], NUMBER), d))
  }

  /** An identifier or keyword whose first letter is at `q`. */
  function ScanWord(s: string, q: nat): Result<Lexed, LexError>
    requires Terminated(s) && q < |s| && IsAlpha(s[q])
  {
    var w := Until(s, q + 1, NotAlnum);
    var text := s[q..w];
    Success(Lexed(Token(text, WordKindOf(text)), w))
  }

  /** A one- or two-character token starting with `c` at `q`, chosen by the character after it. */
  function ScanEquals(s: string, q: nat, one: TokenType, two: TokenType): Lexed {
    var c := CharAt(s, q);
    if CharAt(s, q + 1) == '=' then Lexed(Token([c, '='], two), q + 2)
    else Lexed(Token([c], one), q + 1)
  }

  /** The token whose first character is at `q`. */
  function ScanAt(s: string, q: nat): Result<Lexed, LexError>
    requires Terminated(s)
  {
    var c := CharAt(s, q);
    if c == '+' then Success(Lexed(Token("+", PLUS), q + 1))
    else if c == '-' then Success(Lexed(Token("-", MINUS), q + 1))
    else if c == '*' then Success(Lexed(Token("*", ASTERISK), q + 1))
    else if c == '/' then Success(Lexed(Token("/", SLASH), q + 1))
    else if c == '\n' then Success(Lexed(Token("\n", NEWLINE), q + 1))
    else if c == '\0' then Success(Lexed(Token("\0", EOF), q + 1))
    else if c == '=' then Success(ScanEquals(s, q, EQ, EQEQ))
    else if c == '>' then Success(ScanEquals(s, q, GT, GTEQ))
    else if c == '<' then Success(ScanEquals(s, q, LT, LTEQ))
    else if c == '!' then
      if CharAt(s, q + 1) == '=' then Success(Lexed(Token("!=", NOTEQ), q + 2))
      else Failure(BangWithoutEquals(CharAt(s, q + 1)))
    else if c == '"' then ScanString(s, q)
    else if IsDigit(c) then ScanNumber(s, q)
    else if IsAlpha(c) then ScanWord(s, q)
    else Failure(UnknownToken(c))
  }

  /** One call of the lexer with the cursor at `p`: skip blanks, skip a comment, classify. */
  function Scan(s: string, p: nat): Result<Lexed, LexError>
    requires Terminated(s)
  {
    ScanAt(s, TokenStart(s, p))
  }

  /** `ts` are the tokens successive calls produce when the cursor starts at `p`; it then stands at `q`. */
  ghost predicate LexesTo(s: string, p: nat, ts: seq<Token>, q: nat)
    requires Terminated(s)
    decreases |ts|, 1
  {
    if ts == [] then p == q else LexesFirst(s, p, ts, q)
  }

  /** A run of at least one call: the first call produces `ts[0]`, and the calls after it the rest. */
  ghost predicate LexesFirst(s: string, p: nat, ts: seq<Token>, q: nat)
    requires Terminated(s) && ts != []
    decreases |ts|, 0
  {
    Scan(s, p).Success? && Scan(s, p).value.token == ts[0] && LexesTo(s, Scan(s, p).value.next, ts[1..], q)
  }

  /** One more call extends a run of calls. */
  lemma {:induction false} LexesToSnoc(s: string, p: nat, ts: seq<Token>, q: nat)
    requires Terminated(s) && LexesTo(s, p, ts, q) && Scan(s, q).Success?
    ensures LexesTo(s, p, ts + [Scan(s, q).value.token], Scan(s, q).value.next)
    decreases |ts|
  {
    if ts != [] {
      LexesToSnoc(s, Scan(s, p).value.next, ts[1..], q);
      assert (ts + [Scan(s, q).value.token])[1..] == ts[1..] + [Scan(s, q).value.token];
    }
  }

  /** The cursor over the source text. */
  class Lexer {
    const source: string
    var curChar: char
    var curPos: int

    ghost predicate Valid()
      reads this
    {
      Terminated(source) && curPos >= 0 && curChar == CharAt(source, curPos)
    }

    /** The source is the input with a newline appended; the cursor is on its first character. */
    constructor (input: string)
      ensures Valid()
      ensures source == input + "\n" && curPos == 0
    {
      source := input + "\n";
      curChar := '\0';
      curPos := -1;
      new;
      NextChar();
    }

    /** Moves the cursor one position; past the end the current character is `'\0'`. */
    method NextChar()
      requires curPos >= -1
      modifies this`curPos, this`curChar
      ensures curPos == old(curPos) + 1
      ensures curChar == CharAt(source, curPos)
    {
      curPos := curPos + 1;
      if curPos >= |source| {
        curChar := '\0';
      } else {
        curChar := source[curPos];
      }
    }

    /** The character after the cursor, which the next `NextChar` makes current. */
    function Peek(): (c: char)
      requires curPos >= -1
      reads this
      ensures c == CharAt(source, curPos + 1)
    {
      if curPos + 1 >= |source| then '\0' else source[curPos + 1]
    }

    /** Skips spaces, tabs and carriage returns, but not newlines. */
    method SkipWhiteSpaces()
      requires Valid()
      modifies this`curPos, this`curChar
      ensures Valid()
      ensures curPos == SkipBlanks(source, old(curPos))
    {
      while IsBlank(curChar)
        invariant Valid() && old(curPos) <= curPos
        invariant old(curPos) < curPos ==> curPos <= |source|
        invariant SkipBlanks(source, curPos) == SkipBlanks(source, old(curPos))
        decreases |source| - curPos
      {
        NextChar();
      }
    }

    /** Skips a `#` comment up to, but not including, the newline that ends it. */
    method SkipComments()
      requires Valid()
      modifies this`curPos, this`curChar
      ensures Valid()
      ensures curPos == SkipComment(source, old(curPos))
    {
      if curChar == '#' {
        UntilAtMost(source, curPos, IsNewline, |source| - 1);
        while curChar != '\n'
          invariant Valid() && old(curPos) <= curPos < |source|
          invariant Until(source, curPos, IsNewline) == Until(source, old(curPos), IsNewline)
          decreases |source| - curPos
        {
          NextChar();
        }
      }
    }

    /** Returns the next token, or the reason lexing aborts; `Scan` says which. */
    method GetToken() returns (r: Result<Token, LexError>)
      requires Valid()
      modifies this`curPos, this`curChar
      ensures Valid()
      ensures match Scan(source, old(curPos))
        case Success(l) => r == Success(l.token) && curPos == l.next
        case Failure(e) => r == Failure(e)
    {
      SkipWhiteSpaces();
      SkipComments();
      assert curPos == TokenStart(source, old(curPos));
      ghost var q := curPos;
      var token: Token;
      if curChar == '+' {
        token := Token([curChar], PLUS);
      } else if curChar == '-' {
        token := Token([curChar], MINUS);
      } else if curChar == '*' {
        token := Token([curChar], ASTERISK);
      } else if curChar == '/' {
        token := Token([curChar], SLASH);
      } else if curChar == '\n' {
        token := Token([curChar], NEWLINE);
      } else if curChar == '\0' {
        token := Token([curChar], EOF);
      } else if curChar == '=' {
        if Peek() == '=' {
          var lastChar := curChar;
          NextChar();
          token := Token([lastChar, curChar], EQEQ);
        } else {
          token := Token([curChar], EQ);
        }
      } else if curChar == '>' {
        if Peek() == '=' {
          var lastChar := curChar;
          NextChar();
          token := Token([lastChar, curChar], GTEQ);
        } else {
          token := Token([curChar], GT);
        }
      } else if curChar == '<' {
        if Peek() == '=' {
          var lastChar := curChar;
          NextChar();
          token := Token([lastChar, curChar], LTEQ);
        } else {
          token := Token([curChar], LT);
        }
      } else if curChar == '!' {
        if Peek() == '=' {
          var lastChar := curChar;
          NextChar();
          token := Token([lastChar, curChar], NOTEQ);
        } else {
          return Failure(BangWithoutEquals(Peek()));
        }
      } else if curChar == '"' {
        r := LexString();
        if r.Failure? {
          return;
        }
        token := r.value;
      } else if IsDigit(curChar) {
        r := LexNumber();
        if r.Failure? {
          return;
        }
        token := r.value;
      } else if IsAlpha(curChar) {
        token := LexWord();
      } else {
        return Failure(UnknownToken(curChar));
      }
      NextChar();
      r := Success(token);
    }

    /** The string-literal branch of `GetToken`, up to its final `NextChar`. */
    method LexString() returns (r: Result<Token, LexError>)
      requires Valid() && curChar == '"'
      modifies this`curPos, this`curChar
      ensures Valid()
      ensures match ScanString(source, old(curPos))
        case Success(l) => r == Success(l.token) && curPos == l.next - 1
        case Failure(e) => r == Failure(e)
    {
      NextChar();
      var startPos := curPos;
      while curChar != '"'
        invariant Valid() && startPos <= curPos < |source|
        invariant Until(source, curPos, EndsString) == Until(source, startPos, EndsString)
        decreases |source| - curPos
      {
        if IllegalInString(curChar) {
          return Failure(IllegalCharacterInString);
        }
        NextChar();
      }
      // Do not need to track the end: the loop stops on the closing quote
      r := Success(Token(source[startPos..curPos], STRING));
    }

    /** Advances while the character after the cursor is a digit. */
    method SkipDigits()
      requires Valid() && curPos < |source|
      modifies this`curPos, this`curChar
      ensures Valid() && old(curPos) <= curPos < |source|
      ensures curPos + 1 == Until(source, old(curPos) + 1, NotDigit)
    {
      while IsDigit(Peek())
        invariant Valid() && old(curPos) <= curPos < |source|
        invariant Until(source, curPos + 1, NotDigit) == Until(source, old(curPos) + 1, NotDigit)
        decreases |source| - curPos
      {
        NextChar();
      }
    }

    /** The number branch of `GetToken`, up to its final `NextChar`. */
    method LexNumber() returns (r: Result<Token, LexError>)
      requires Valid() && IsDigit(curChar)
      modifies this`curPos, this`curChar
      ensures Valid()
      ensures match ScanNumber(source, old(curPos))
        case Success(l) => r == Success(l.token) && curPos == l.next - 1
        case Failure(e) => r == Failure(e)
    {
      var startPos := curPos;
      SkipDigits();
      if Peek() == '.' {
        NextChar();
        if !IsDigit(Peek()) {
          return Failure(IllegalCharacterInNumber);
        }
        SkipDigits();
      }
      r := Success(Token(source[startPos..curPos + 1], NUMBER));
    }

    /** The identifier-or-keyword branch of `GetToken`, up to its final `NextChar`. */
    method LexWord() returns (token: Token)
      requires Valid() && IsAlpha(curChar)
      modifies this`curPos, this`curChar
      ensures Valid()
      ensures ScanWord(source, old(curPos)) == Success(Lexed(token, curPos + 1))
    {
      var startPos := curPos;
      while IsAlnum(Peek())
        invariant Valid() && startPos <= curPos < |source|
        invariant Until(source, curPos + 1, NotAlnum) == Until(source, startPos + 1, NotAlnum)
        decreases |source| - curPos
      {
        NextChar();
      }
      var tokText := source[startPos..curPos + 1];
      var keyword := CheckIfKeyword(tokText);
      if keyword == None {
        token := Token(tokText, IDENT);
      } else {
        token := Token(tokText, keyword.value);
      }
    }
  }
}
