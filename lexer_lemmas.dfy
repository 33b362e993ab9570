/** What one call of the lexer produces, stated independently of how `Scan` computes it. */
module LexerProperties {
  import opened Wrappers
  import opened Tokens
  import opened Lexing

  /** A call at a character that is neither blank nor `#` classifies that very character. */
  lemma StartsHere(s: string, q: nat)
    requires Terminated(s) && !IsBlank(CharAt(s, q)) && CharAt(s, q) != '#'
    ensures TokenStart(s, q) == q
  {
  }

  /** Every call moves the cursor; a call that is not at end of input stays inside the source. */
  lemma ScanProgress(s: string, p: nat)
    requires Terminated(s) && Scan(s, p).Success?
    ensures p < Scan(s, p).value.next
    ensures Scan(s, p).value.token.kind != EOF ==> p < |s| && Scan(s, p).value.next <= |s|
    ensures p < |s| ==> Scan(s, p).value.next <= |s|
    ensures p >= |s| ==> Scan(s, p).value.next == p + 1
  {
    if p >= |s| {
      EofPastEnd(s, p);
    }
    var q := TokenStart(s, p);
    var c := CharAt(s, q);
    if c == '"' {
      var e := Until(s, q + 1, EndsString);
      assert e < |s|;
    } else if IsDigit(c) {
      var d := Until(s, q + 1, NotDigit);
      if CharAt(s, d) == '.' && IsDigit(CharAt(s, d + 1)) {
        assert d + 1 < |s|;
      }
    }
  }

  /** Spaces, tabs and carriage returns produce no token: a call just before one lexes as a call just after it. */
  lemma BlankIsSkipped(s: string, p: nat)
    requires Terminated(s) && p < |s| && IsBlank(s[p])
    ensures Scan(s, p) == Scan(s, p + 1)
  {
    assert SkipBlanks(s, p) == SkipBlanks(s, p + 1);
  }

  /** A `#` comment produces no token of its own: the newline that ends it is the next token. */
  lemma CommentYieldsItsNewline(s: string, p: nat)
    requires Terminated(s) && p < |s| && s[p] == '#'
    ensures Scan(s, p).Success?
    ensures Scan(s, p).value.token == Token("\n", NEWLINE)
    ensures var n := Scan(s, p).value.next;
      p < n <= |s| && s[n - 1] == '\n' && forall k | p <= k < n - 1 :: s[k] != '\n'
  {
    assert SkipBlanks(s, p) == p;
  }

  /** `=`, `>`, `<` and `!` look at the next character to decide between the one- and two-character forms. */
  lemma ComparisonOperators(s: string, q: nat)
    requires Terminated(s) && q < |s|
    ensures s[q] == '=' ==> (Scan(s, q) ==
      if CharAt(s, q + 1) == '=' then Success(Lexed(Token("==", EQEQ), q + 2)) else Success(Lexed(Token("=", EQ), q + 1)))
    ensures s[q] == '>' ==> (Scan(s, q) ==
      if CharAt(s, q + 1) == '=' then Success(Lexed(Token(">=", GTEQ), q + 2)) else Success(Lexed(Token(">", GT), q + 1)))
    ensures s[q] == '<' ==> (Scan(s, q) ==
      if CharAt(s, q + 1) == '=' then Success(Lexed(Token("<=", LTEQ), q + 2)) else Success(Lexed(Token("<", LT), q + 1)))
    ensures s[q] == '!' ==> (Scan(s, q) ==
      if CharAt(s, q + 1) == '=' then Success(Lexed(Token("!=", NOTEQ), q + 2)) else Failure(BangWithoutEquals(CharAt(s, q + 1))))
  {
  }

  /** Every character of `s[i..j]` satisfies `ok` exactly when every `s[k]`, `i <= k < j`, does. */
  lemma SliceAll(s: string, i: nat, j: nat, ok: char -> bool)
    requires i <= j <= |s|
    ensures (forall k | 0 <= k < j - i :: ok(s[i..j][k])) <==> (forall k | i <= k < j :: ok(s[k]))
  {
    if forall k | i <= k < j :: ok(s[k]) {
      forall k | 0 <= k < j - i ensures ok(s[i..j][k]) {
        assert s[i..j][k] == s[i + k];
      }
    }
    if forall k | 0 <= k < j - i :: ok(s[i..j][k]) {
      forall k | i <= k < j ensures ok(s[k]) {
        assert s[i..j][k - i] == s[k];
      }
    }
  }

  predicate StringChar(c: char) { c != '"' && !IllegalInString(c) }

  /** A string body is a slice whose characters neither close the literal nor are forbidden in it. */
  lemma StringBodySlice(s: string, i: nat, j: nat)
    requires i <= j <= |s|
    ensures IsStringBody(s[i..j]) <==> forall k | i <= k < j :: !EndsString(s[k])
  {
    SliceAll(s, i, j, StringChar);
  }

  /** A run of digits is a non-empty slice of digits. */
  lemma DigitsSlice(s: string, i: nat, j: nat)
    requires i <= j <= |s|
    ensures IsDigits(s[i..j]) <==> i < j && forall k | i <= k < j :: IsDigit(s[k])
  {
    SliceAll(s, i, j, IsDigit);
  }

  /**
   * A string literal lexes exactly when a closing quote follows with only permitted
   * characters before it; its text is what stands strictly between the quotes.
   */
  lemma StringLiteral(s: string, q: nat)
    requires Terminated(s) && q < |s| && s[q] == '"'
    ensures Scan(s, q).Success? <==> exists e | q < e < |s| :: s[e] == '"' && IsStringBody(s[q + 1..e])
    ensures Scan(s, q).Success? ==>
      var n := Scan(s, q).value.next;
      q + 2 <= n <= |s| && s[n - 1] == '"' && Scan(s, q).value.token == Token(s[q + 1..n - 1], STRING)
    ensures Scan(s, q).Failure? ==> Scan(s, q).error == IllegalCharacterInString
  {
    StartsHere(s, q);
    var e := Until(s, q + 1, EndsString);
    UntilAtMost(s, q + 1, EndsString, |s| - 1);
    StringBodySlice(s, q + 1, e);
    if Scan(s, q).Failure? {
      forall ex | q < ex < |s| && s[ex] == '"' ensures !IsStringBody(s[q + 1..ex]) {
        UntilAtMost(s, q + 1, EndsString, ex);
        StringBodySlice(s, q + 1, ex);
      }
    }
  }

  /** The digits read from `q` end at the first non-digit, so a `.` right after a run of digits is where they end. */
  lemma DigitRunEnd(s: string, q: nat, d: nat)
    requires q < d < |s| && IsDigits(s[q..d]) && !IsDigit(s[d])
    ensures Until(s, q + 1, NotDigit) == d
  {
    DigitsSlice(s, q, d);
    UntilUnique(s, q + 1, NotDigit, d);
  }

  /** A number aborts exactly when its leading digits are followed by a `.` that no digit follows. */
  lemma NumberFailure(s: string, q: nat)
    requires Terminated(s) && q < |s| && IsDigit(s[q])
    ensures Scan(s, q).Failure? <==>
      exists d | q < d < |s| :: IsDigits(s[q..d]) && s[d] == '.' && !IsDigit(CharAt(s, d + 1))
    ensures Scan(s, q).Failure? ==> Scan(s, q).error == IllegalCharacterInNumber
  {
    NumberScan(s, q);
    ScanNumberFailure(s, q);
  }

  lemma ScanNumberFailure(s: string, q: nat)
    requires Terminated(s) && q < |s| && IsDigit(s[q])
    ensures ScanNumber(s, q).Failure? <==>
      exists d | q < d < |s| :: IsDigits(s[q..d]) && s[d] == '.' && !IsDigit(CharAt(s, d + 1))
    ensures ScanNumber(s, q).Failure? ==> ScanNumber(s, q).error == IllegalCharacterInNumber
  {
    var d := Until(s, q + 1, NotDigit);
    DigitsSlice(s, q, d);
    if ScanNumber(s, q).Success? {
      forall dx | q < dx < |s| && IsDigits(s[q..dx]) && s[dx] == '.' ensures IsDigit(CharAt(s, dx + 1)) {
        DigitRunEnd(s, q, dx);
      }
    }
  }

  /** A call at a digit reads a number. */
  lemma NumberScan(s: string, q: nat)
    requires Terminated(s) && q < |s| && IsDigit(s[q])
    ensures Scan(s, q) == ScanNumber(s, q)
  {
    StartsHere(s, q);
  }

  lemma NumberText(s: string, q: nat)
    requires Terminated(s) && q < |s| && IsDigit(s[q]) && ScanNumber(s, q).Success?
    ensures var l := ScanNumber(s, q).value;
      q < l.next <= |s| && l.token == Token(s[q..l.next], NUMBER) && IsNumberText(l.token.text) &&
      !IsDigit(CharAt(s, l.next)) && (CharAt(s, l.next) == '.' ==> '.' in l.token.text)
  {
    var d := Until(s, q + 1, NotDigit);
    DigitsSlice(s, q, d);
    if CharAt(s, d) == '.' {
      var f := Until(s, d + 1, NotDigit);
      var t := s[q..f];
      DigitsSlice(s, d + 1, f);
      assert t[d - q] == '.';
      assert t[..d - q] == s[q..d];
      assert t[d - q + 1..] == s[d + 1..f];
    }
  }

  /** A number token is `digit+ ('.' digit+)?`, exactly the characters read, and read as far as it goes. */
  lemma NumberLiteral(s: string, q: nat)
    requires Terminated(s) && q < |s| && IsDigit(s[q]) && Scan(s, q).Success?
    ensures var l := Scan(s, q).value;
      q < l.next <= |s| && l.token == Token(s[q..l.next], NUMBER) && IsNumberText(l.token.text) &&
      !IsDigit(CharAt(s, l.next)) && (CharAt(s, l.next) == '.' ==> '.' in l.token.text)
  {
    NumberScan(s, q);
    NumberText(s, q);
  }

  /** A call at a letter reads a word. */
  lemma WordScan(s: string, q: nat)
    requires Terminated(s) && q < |s| && IsAlpha(s[q])
    ensures Scan(s, q) == ScanWord(s, q)
  {
    StartsHere(s, q);
    var c := CharAt(s, q);
    assert c == s[q];
    assert c !in {'+', '-', '*', '/', '\n', '\0', '=', '>', '<', '!', '"'} && !IsDigit(c);
  }

  lemma WordShape(s: string, q: nat)
    requires Terminated(s) && q < |s| && IsAlpha(s[q])
    ensures var l := ScanWord(s, q).value;
      q < l.next <= |s| && l.token.text == s[q..l.next] && IsWord(l.token.text) && !IsAlnum(CharAt(s, l.next))
  {
    var w := Until(s, q + 1, NotAlnum);
    forall i | 1 <= i < w - q ensures IsAlnum(s[q..w][i]) {
      assert s[q..w][i] == s[q + i];
    }
  }

  lemma WordText(s: string, q: nat)
    requires Terminated(s) && q < |s| && IsAlpha(s[q])
    ensures var l := ScanWord(s, q).value;
      q < l.next <= |s| && l.token.text == s[q..l.next] && IsWord(l.token.text) && !IsAlnum(CharAt(s, l.next)) &&
      (l.token.kind == IDENT <==> CheckIfKeyword(l.token.text) == None) &&
      (l.token.kind != IDENT ==> l.token.kind.IsKeyword() && l.token.kind.Name() == l.token.text)
  {
    WordShape(s, q);
  }

  /** A word is `alpha alnum*`, read as far as it goes; it is a keyword exactly when its text names one. */
  lemma WordLiteral(s: string, q: nat)
    requires Terminated(s) && q < |s| && IsAlpha(s[q])
    ensures Scan(s, q).Success?
    ensures var l := Scan(s, q).value;
      q < l.next <= |s| && l.token.text == s[q..l.next] && IsWord(l.token.text) && !IsAlnum(CharAt(s, l.next)) &&
      (l.token.kind == IDENT <==> CheckIfKeyword(l.token.text) == None) &&
      (l.token.kind != IDENT ==> l.token.kind.IsKeyword() && l.token.kind.Name() == l.token.text)
  {
    WordScan(s, q);
    WordText(s, q);
  }

  /** Any character that starts no token aborts the lexer, naming it. */
  lemma UnknownCharacter(s: string, q: nat)
    requires Terminated(s) && q < |s|
    requires s[q] !in {'+', '-', '*', '/', '\n', '\0', '=', '>', '<', '!', '"', '#', ' ', '\t', '\r'}
    requires !IsAlnum(s[q])
    ensures Scan(s, q) == Failure(UnknownToken(s[q]))
  {
    StartsHere(s, q);
  }

  lemma StringWellFormed(s: string, q: nat)
    requires Terminated(s) && q < |s| && s[q] == '"' && ScanString(s, q).Success?
    ensures WellFormed(ScanString(s, q).value.token)
  {
    var e := Until(s, q + 1, EndsString);
    StringBodySlice(s, q + 1, e);
  }

  lemma WordWellFormed(s: string, q: nat)
    requires Terminated(s) && q < |s| && IsAlpha(s[q])
    ensures WellFormed(ScanWord(s, q).value.token)
  {
    WordText(s, q);
    var l := ScanWord(s, q).value;
    if l.token.kind != IDENT {
      assert Spelling(l.token.kind) == Some(l.token.kind.Name());
    }
  }

  lemma OperatorWellFormed(s: string, q: nat)
    requires Terminated(s) && ScanAt(s, q).Success?
    requires var c := CharAt(s, q); c != '"' && !IsDigit(c) && !IsAlpha(c)
    ensures WellFormed(ScanAt(s, q).value.token)
  {
  }

  lemma ScanAtWellFormed(s: string, q: nat)
    requires Terminated(s) && ScanAt(s, q).Success?
    ensures WellFormed(ScanAt(s, q).value.token)
  {
    var c := CharAt(s, q);
    if c == '"' {
      assert ScanAt(s, q) == ScanString(s, q);
      StringWellFormed(s, q);
    } else if IsDigit(c) {
      assert ScanAt(s, q) == ScanNumber(s, q);
      NumberText(s, q);
    } else if IsAlpha(c) {
      assert ScanAt(s, q) == ScanWord(s, q);
      WordWellFormed(s, q);
    } else {
      OperatorWellFormed(s, q);
    }
  }

  /** Whatever a successful call returns satisfies the token-shape relation of its kind. */
  lemma ScanWellFormed(s: string, p: nat)
    requires Terminated(s) && Scan(s, p).Success?
    ensures WellFormed(Scan(s, p).value.token)
  {
    ScanAtWellFormed(s, TokenStart(s, p));
  }

  /** Past the end of the source every call returns EOF and moves one position on. */
  lemma EofPastEnd(s: string, p: nat)
    requires Terminated(s) && p >= |s|
    ensures Scan(s, p) == Success(Lexed(Token("\0", EOF), p + 1))
  {
  }

  /** Once the cursor is past the end, every further call keeps returning EOF. */
  lemma {:induction false} EofForever(s: string, p: nat, n: nat)
    requires Terminated(s) && p >= |s|
    ensures LexesTo(s, p, seq(n, _ => Token("\0", EOF)), p + n)
    decreases n
  {
    EofPastEnd(s, p);
    if n > 0 {
      EofForever(s, p + 1, n - 1);
      assert seq(n, _ => Token("\0", EOF))[1..] == seq(n - 1, _ => Token("\0", EOF));
    }
  }

  /** Every token of a run of calls is well-formed. */
  lemma {:induction false} LexesToWellFormed(s: string, p: nat, ts: seq<Token>, q: nat)
    requires Terminated(s) && LexesTo(s, p, ts, q)
    ensures forall i | 0 <= i < |ts| :: WellFormed(ts[i])
    decreases |ts|
  {
    if ts != [] {
      ScanWellFormed(s, p);
      LexesToWellFormed(s, Scan(s, p).value.next, ts[1..], q);
      forall i | 0 < i < |ts| ensures WellFormed(ts[i]) {
        assert ts[i] == ts[1..][i - 1];
      }
    }
  }
}
