/**
 * Properties of the tokenizer that relate several calls: which rule wins
 * where recognisers overlap, the exact tokens each family produces, and
 * the laws of the driver (progress, round trip, where it stops).
 */
module LexerProperties {
  import opened Wrappers
  import opened Chars
  import opened Tokens
  import opened Lexer

  // -------------------------------------------------- ordered choice

  /** Rule `k` of `Priority` runs the `k`-th recogniser in source order. */
  lemma ApplyPriority(s: seq<char>)
    ensures && Apply(Priority[0], s) == LexCommand(s) && Apply(Priority[1], s) == LexComment(s)
            && Apply(Priority[2], s) == LexEndline(s) && Apply(Priority[3], s) == LexMath(s)
            && Apply(Priority[4], s) == LexWhitespace(s) && Apply(Priority[5], s) == LexNewline(s)
            && Apply(Priority[6], s) == LexDelimiter(s) && Apply(Priority[7], s) == LexText(s)
  {
    hide LexCommand, LexComment, LexEndline, LexMath, LexWhitespace, LexNewline, LexDelimiter, LexText;
    assert Priority[0] == CommandRule;
    assert Priority[1] == CommentRule;
    assert Priority[2] == EndlineRule;
    assert Priority[3] == MathRule;
    assert Priority[4] == WhitespaceRule;
    assert Priority[5] == NewlineRule;
    assert Priority[6] == DelimiterRule;
    assert Priority[7] == TextRule;
  }

  /**
   * The ordered choice written out: the first token is the result of the
   * first recogniser, in source order, that matches.
   */
  lemma LexTokenChoice(s: seq<char>)
    ensures LexToken(s) ==
      if LexCommand(s).Some? then LexCommand(s)
      else if LexComment(s).Some? then LexComment(s)
      else if LexEndline(s).Some? then LexEndline(s)
      else if LexMath(s).Some? then LexMath(s)
      else if LexWhitespace(s).Some? then LexWhitespace(s)
      else if LexNewline(s).Some? then LexNewline(s)
      else if LexDelimiter(s).Some? then LexDelimiter(s)
      else LexText(s)
  {
    hide FirstMatch, Apply;
    hide LexCommand, LexComment, LexEndline, LexMath, LexWhitespace, LexNewline, LexDelimiter, LexText;
    ApplyPriority(s);
    if LexToken(s).Some? {
      var k :| FirstToMatch(Priority, s, k) && LexToken(s) == Apply(Priority[k], s);
      assert k > 0 ==> LexCommand(s).None?;
      assert k > 1 ==> LexComment(s).None?;
      assert k > 2 ==> LexEndline(s).None?;
      assert k > 3 ==> LexMath(s).None?;
      assert k > 4 ==> LexWhitespace(s).None?;
      assert k > 5 ==> LexNewline(s).None?;
      assert k > 6 ==> LexDelimiter(s).None?;
    }
  }

  /** A token is always produced by the rule for its own kind. */
  lemma LexTokenByRule(s: seq<char>)
    requires LexToken(s).Some?
    ensures LexToken(s) == Apply(RuleOf(LexToken(s).value.0), s)
  {
    hide FirstMatch, Apply;
    var k :| FirstToMatch(Priority, s, k) && LexToken(s) == Apply(Priority[k], s);
  }

  // -------------------------------------------- overlapping recognisers

  /** `\\` is a line break: the command rule sees it but fails, as no letter follows the backslash. */
  lemma BackslashPairIsEndline(s: seq<char>)
    requires |s| >= 2 && s[0] == '\\' && s[1] == '\\'
    ensures LexToken(s) == Some((Endline, s[2..]))
  {
    hide LexToken, LexCommand, LexComment, LexMath, LexWhitespace, LexNewline, LexDelimiter, LexText;
    LexTokenChoice(s);
  }

  /** `\[` and `\]` open and close display math; `[` and `]` are not escapes. */
  lemma DisplayMathBrackets(s: seq<char>)
    requires |s| >= 2 && s[0] == '\\' && s[1] in "[]"
    ensures s[1] == '[' ==> LexToken(s) == Some((BDisplayMath, s[2..]))
    ensures s[1] == ']' ==> LexToken(s) == Some((EDisplayMath, s[2..]))
  {
    hide LexToken, LexCommand, LexComment, LexEndline, LexWhitespace, LexNewline, LexDelimiter, LexText;
    LexTokenChoice(s);
  }

  /** `$$` is one display-math token, never two inline ones. */
  lemma DoubleDollar(s: seq<char>)
    requires |s| >= 2 && s[0] == '$' && s[1] == '$'
    ensures LexToken(s) == Some((TDisplayMath, s[2..]))
  {
    hide LexToken, LexCommand, LexComment, LexEndline, LexWhitespace, LexNewline, LexDelimiter, LexText;
    LexTokenChoice(s);
  }

  /** A `$` not followed by another `$` is inline math. */
  lemma SingleDollar(s: seq<char>)
    requires |s| >= 1 && s[0] == '$' && !(|s| >= 2 && s[1] == '$')
    ensures LexToken(s) == Some((InlineMath, s[1..]))
  {
    hide LexToken, LexCommand, LexComment, LexEndline, LexWhitespace, LexNewline, LexDelimiter, LexText;
    LexTokenChoice(s);
  }

  /**
   * A line ending is a newline token, even "\r\n" whose carriage return the
   * text rule would otherwise take.
   */
  lemma LineEndingIsNewline(s: seq<char>)
    requires s != [] && AtLineEnding(s)
    ensures s[0] == '\n' ==> LexToken(s) == Some((Newline, s[1..]))
    ensures s[0] == '\r' ==> LexToken(s) == Some((Newline, s[2..]))
  {
    hide LexToken, LexCommand, LexComment, LexEndline, LexMath, LexWhitespace, LexDelimiter, LexText;
    LexTokenChoice(s);
  }

  /** Braces and brackets are delimiters, even though text may hold brackets. */
  lemma DelimiterTokens(s: seq<char>)
    requires |s| >= 1 && s[0] in "{}[]"
    ensures s[0] == '{' ==> LexToken(s) == Some((LBrace, s[1..]))
    ensures s[0] == '}' ==> LexToken(s) == Some((RBrace, s[1..]))
    ensures s[0] == '[' ==> LexToken(s) == Some((LBracket, s[1..]))
    ensures s[0] == ']' ==> LexToken(s) == Some((RBracket, s[1..]))
  {
    hide LexToken, LexCommand, LexComment, LexEndline, LexMath, LexWhitespace, LexNewline, LexText;
    LexTokenChoice(s);
  }

  // ------------------------------------------------ exact token shapes

  /** The command recogniser reads a maximal run of letters after the backslash. */
  lemma LexCommandReads(name: seq<char>, rest: seq<char>)
    requires |name| > 0 && AllLetters(name) && (rest == [] || !IsAsciiLetter(rest[0]))
    ensures LexCommand("\\" + name + rest) == Some((Command(name), rest))
  {
    var s := "\\" + name + rest;
    assert s[1..] == name + rest;
    SpanLenUnique(s[1..], IsAsciiLetter, |name|);
    assert s[1..1 + |name|] == name && s[1 + |name|..] == rest;
  }

  /** `\name` lexes as the command `name` exactly when `name` is a maximal, non-empty run of letters. */
  lemma CommandToken(name: seq<char>, rest: seq<char>)
    ensures LexToken("\\" + name + rest) == Some((Command(name), rest)) <==>
      |name| > 0 && AllLetters(name) && (rest == [] || !IsAsciiLetter(rest[0]))
  {
    hide LexToken, LexCommand, LexComment, LexEndline, LexMath, LexWhitespace, LexNewline, LexDelimiter, LexText;
    var s := "\\" + name + rest;
    LexTokenChoice(s);
    if |name| > 0 && AllLetters(name) && (rest == [] || !IsAsciiLetter(rest[0])) {
      LexCommandReads(name, rest);
    }
  }

  /** The line scanner stops at the first line ending. */
  lemma LineLenStopsAtLineEnding(body: seq<char>, rest: seq<char>)
    requires IsLine(body) && AtLineEnding(rest)
    ensures LineLen(body + rest) == Some(|body|)
  {
    SpanLenUnique(body + rest, IsLineContent, |body|);
    assert (body + rest)[|body|..] == rest;
  }

  /** The comment recogniser reads up to the line ending. */
  lemma LexCommentReads(body: seq<char>, rest: seq<char>)
    requires IsLine(body) && AtLineEnding(rest)
    ensures LexComment("%" + body + rest) == Some((Comment(body), rest))
  {
    hide LineLen;
    var s := "%" + body + rest;
    assert s[1..] == body + rest;
    LineLenStopsAtLineEnding(body, rest);
    assert s[1..1 + |body|] == body && s[1 + |body|..] == rest;
  }

  /**
   * `%body` lexes as the comment `body` exactly when `body` holds no line
   * break and a line ending or the end of input follows it.
   */
  lemma CommentToken(body: seq<char>, rest: seq<char>)
    ensures LexToken("%" + body + rest) == Some((Comment(body), rest)) <==>
      IsLine(body) && AtLineEnding(rest)
  {
    hide LexToken, LexCommand, LexComment, LexEndline, LexMath, LexWhitespace, LexNewline, LexDelimiter, LexText;
    var s := "%" + body + rest;
    LexTokenChoice(s);
    if IsLine(body) && AtLineEnding(rest) {
      LexCommentReads(body, rest);
    }
  }

  /** The whitespace recogniser reads a maximal run of blanks. */
  lemma LexWhitespaceReads(w: seq<char>, rest: seq<char>)
    requires |w| > 0 && AllBlank(w) && (rest == [] || !IsBlank(rest[0]))
    ensures LexWhitespace(w + rest) == Some((Whitespace(w), rest))
  {
    var s := w + rest;
    SpanLenUnique(s, IsBlank, |w|);
    assert s[..|w|] == w && s[|w|..] == rest;
  }

  /** `w` lexes as one whitespace token exactly when it is a maximal, non-empty run of blanks. */
  lemma WhitespaceToken(w: seq<char>, rest: seq<char>)
    ensures LexToken(w + rest) == Some((Whitespace(w), rest)) <==>
      |w| > 0 && AllBlank(w) && (rest == [] || !IsBlank(rest[0]))
  {
    hide LexToken, LexCommand, LexComment, LexEndline, LexMath, LexWhitespace, LexNewline, LexDelimiter, LexText;
    var s := w + rest;
    LexTokenChoice(s);
    if |w| > 0 && AllBlank(w) && (rest == [] || !IsBlank(rest[0])) {
      LexWhitespaceReads(w, rest);
    }
  }

  /** Dropping the first Text unit of a Text run leaves a Text run. */
  lemma TextAlphabetDropUnit(w: seq<char>, u: nat)
    requires TextAlphabet(w) && 0 < |w|
    requires u == if w[0] == '\\' then 2 else 1
    requires u <= |w|
    ensures TextAlphabet(w[u..])
  {
    var v := w[u..];
    forall j | 0 <= j < |v|
      ensures TextPositionOk(v, j)
    {
      assert TextPositionOk(w, u + j);
      if u == 2 {
        assert TextPositionOk(w, 0) && w[1] != '\\';
      }
    }
  }

  /**
   * A Text run followed by input that cannot start a Text unit is read
   * whole: the run recogniser stops exactly at its end.
   */
  lemma {:induction false} TextRunMaximal(w: seq<char>, rest: seq<char>)
    requires TextAlphabet(w) && !StartsTextUnit(rest)
    ensures TextRunLen(w + rest) == |w|
    decreases |w|
  {
    if w != [] {
      var s := w + rest;
      assert TextPositionOk(w, 0);
      var u := if w[0] == '\\' then 2 else 1;
      assert s[..u] == w[..u];
      assert TextUnitLen(s) == u;
      TextAlphabetDropUnit(w, u);
      assert s[u..] == w[u..] + rest;
      TextRunMaximal(w[u..], rest);
    } else {
      assert w + rest == rest;
    }
  }

  /**
   * Input starting with a Text unit, other than a bracket or "\r\n", is
   * claimed by none of the rules tried before the text rule.
   */
  lemma TextHeadPassesEarlierRules(s: seq<char>)
    requires StartsTextUnit(s) && s[0] !in "[]"
    requires !(|s| >= 2 && s[0] == '\r' && s[1] == '\n')
    ensures && LexCommand(s).None? && LexComment(s).None? && LexEndline(s).None?
            && LexMath(s).None? && LexWhitespace(s).None? && LexNewline(s).None?
            && LexDelimiter(s).None?
  {
    hide LexCommand, LexComment, LexEndline, LexMath, LexWhitespace, LexNewline, LexDelimiter, LexText;
    assert s[0] != '%' && s[0] != '$' && !IsBlank(s[0]) && s[0] != '\n';
    assert s[0] == '\\' ==> |s| >= 2 && IsEscapable(s[1]);
  }

  /** The text recogniser reads a maximal Text run whole. */
  lemma LexTextReads(w: seq<char>, rest: seq<char>)
    requires |w| > 0 && TextAlphabet(w) && !StartsTextUnit(rest)
    ensures LexText(w + rest) == Some((Text(w), rest))
  {
    var s := w + rest;
    TextRunMaximal(w, rest);
    assert s[..|w|] == w && s[|w|..] == rest;
  }

  /** A Text run that no earlier rule claims is lexed as one Text token. */
  lemma TextRunWins(w: seq<char>, rest: seq<char>)
    requires |w| > 0 && TextAlphabet(w) && !StartsTextUnit(rest)
    requires w[0] !in "[]"
    requires !(w == "\r" && rest != [] && rest[0] == '\n')
    ensures LexToken(w + rest) == Some((Text(w), rest))
  {
    hide LexToken, LexCommand, LexComment, LexEndline, LexMath, LexWhitespace, LexNewline, LexDelimiter, LexText;
    var s := w + rest;
    LexTokenChoice(s);
    assert TextPositionOk(w, 0);
    if |w| >= 2 {
      assert TextPositionOk(w, 1);
    }
    TextHeadPassesEarlierRules(s);
    LexTextReads(w, rest);
  }

  /**
   * `w` lexes as one Text token exactly when it is a non-empty, maximal
   * Text run that no earlier rule claims: it does not start with a bracket
   * (a delimiter) and is not the carriage return of a "\r\n" (a newline).
   */
  lemma TextToken(w: seq<char>, rest: seq<char>)
    ensures LexToken(w + rest) == Some((Text(w), rest)) <==>
      && |w| > 0 && TextAlphabet(w) && !StartsTextUnit(rest)
      && w[0] !in "[]"
      && !(w == "\r" && rest != [] && rest[0] == '\n')
  {
    var s := w + rest;
    if |w| > 0 && TextAlphabet(w) && !StartsTextUnit(rest) {
      if w[0] in "[]" {
        DelimiterTokens(s);
      } else if w == "\r" && rest != [] && rest[0] == '\n' {
        LineEndingIsNewline(s);
      } else {
        TextRunWins(w, rest);
      }
    }
    if LexToken(s).Some? {
      hide LexToken, LexCommand, LexComment, LexEndline, LexMath, LexWhitespace, LexNewline, LexDelimiter, LexText;
      LexTokenChoice(s);
    }
  }

  // ------------------------------------------------------------ driver

  /** One step of the driver: a recognised token heads the output for the rest. */
  lemma LexTokensStep(s: seq<char>, t: Token, rest: seq<char>, ts: seq<Token>, stop: seq<char>)
    requires LexToken(s) == Some((t, rest))
    requires LexTokens(rest) == (ts, stop)
    ensures LexTokens(s) == ([t] + ts, stop)
  {
    hide LexToken;
  }

  /** The driver stops, consuming nothing more, where no rule matches. */
  lemma LexTokensStops(s: seq<char>)
    requires LexToken(s).None?
    ensures LexTokens(s) == ([], s)
  {
    hide LexToken;
  }

  /**
   * The driver stops only where it must: the remainder is stuck, so it is
   * empty or starts with a backslash or a percent sign that no rule accepts.
   */
  lemma RemainderIsStuck(s: seq<char>)
    ensures Stuck(LexTokens(s).1)
    ensures LexTokens(s).1 != [] ==> LexTokens(s).1[0] in "\\%"
  {
    LexTokenFails(LexTokens(s).1);
  }

  /** Every token consumes at least one character. */
  lemma {:induction false} TokenCountBound(s: seq<char>)
    ensures |LexTokens(s).0| <= |s| - |LexTokens(s).1|
    decreases |s|
  {
    hide LexToken, LexTokens;
    match LexToken(s)
    case None =>
      LexTokensStops(s);
    case Some((t, rest)) =>
      LexTokensStep(s, t, rest, LexTokens(rest).0, LexTokens(rest).1);
      TokenCountBound(rest);
  }

  /**
   * Without "\r\n" in the input, rendering the tokens and appending the
   * remainder gives the input back.
   */
  lemma {:induction false} RoundTrip(s: seq<char>)
    requires HasNoCrLf(s)
    ensures RenderAll(LexTokens(s).0) + LexTokens(s).1 == s
    decreases |s|
  {
    hide LexToken, LexTokens;
    match LexToken(s)
    case None =>
      LexTokensStops(s);
    case Some((t, rest)) =>
      LexTokensStep(s, t, rest, LexTokens(rest).0, LexTokens(rest).1);
      var k := |s| - |rest|;
      if |s| >= 2 {
        assert !CrLfAt(s, 0);
      }
      SpellsRender(t, s[..k]);
      NoCrLfSuffix(s, k);
      RoundTrip(rest);
      RenderAllCons(t, LexTokens(rest).0, LexTokens(rest).1);
      assert s == s[..k] + rest;
  }
}
