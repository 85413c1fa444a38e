/**
 * Rendering is a normal form: lexing the rendered tokens, followed by the
 * remainder, gives back exactly the same tokens and remainder, for every
 * input, "\r\n" included. A Newline spelled "\r\n" is rendered as "\n",
 * and no token's extent depends on which of the two follows it.
 */
module LexerNormalForm {
  import opened Wrappers
  import opened Chars
  import opened Tokens
  import opened Lexer
  import opened LexerProperties

  /**
   * What `y` must look like for the rendering of `t` followed by `y` to lex
   * as `t` with `y` left over: the lookahead each recogniser performs.
   */
  predicate LexesBefore(t: Token, y: seq<char>) {
    match t
    case Command(_) => y == [] || !IsAsciiLetter(y[0])
    case Comment(_) => AtLineEnding(y)
    case Whitespace(_) => y == [] || !IsBlank(y[0])
    case Text(w) =>
      && !StartsTextUnit(y)
      && |w| > 0 && w[0] !in "[]"
      && !(w == "\r" && y != [] && y[0] == '\n')
    case InlineMath => y == [] || y[0] != '$'
    case _ => true
  }

  /**
   * `b` looks to a recogniser of the token before it like `a` does: both are
   * empty, or `a` starts with "\r\n" and `b` with "\n", or they start with the
   * same character, and, where that character is a backslash or a carriage
   * return, also agree on the next one.
   */
  predicate SameLookahead(a: seq<char>, b: seq<char>) {
    if a == [] then b == []
    else if |a| >= 2 && a[0] == '\r' && a[1] == '\n' then b != [] && b[0] == '\n'
    else
      && b != [] && b[0] == a[0]
      && (a[0] in "\\\r" ==> (|a| >= 2 <==> |b| >= 2))
      && (a[0] in "\\\r" && |a| >= 2 ==> b[1] == a[1])
  }

  /** A Text token is produced by the text rule. */
  lemma LexTokenIsText(s: seq<char>)
    requires LexToken(s).Some? && LexToken(s).value.0.Text?
    ensures LexToken(s) == LexText(s)
  {
    hide LexToken, LexCommand, LexComment, LexEndline, LexMath, LexWhitespace, LexNewline, LexDelimiter, LexText;
    LexTokenByRule(s);
  }

  /** A Text token never starts with a bracket: the delimiter rule comes first. */
  lemma TextNotAtBracket(s: seq<char>)
    requires LexToken(s).Some? && LexToken(s).value.0.Text?
    ensures s != [] && s[0] !in "[]"
  {
    hide LexToken;
    if s[0] in "[]" {
      DelimiterTokens(s);
      assert false;
    }
  }

  /** A Text token never starts with "\r\n": the newline rule comes first. */
  lemma TextNotAtLineEnding(s: seq<char>)
    requires LexToken(s).Some? && LexToken(s).value.0.Text?
    ensures !(|s| >= 2 && s[0] == '\r' && s[1] == '\n')
  {
    hide LexToken;
    if |s| >= 2 && s[0] == '\r' && s[1] == '\n' {
      LineEndingIsNewline(s);
      assert false;
    }
  }

  /** A Text token is never a bracket or the carriage return of "\r\n", and cannot be extended. */
  lemma LexedTextLexesBefore(s: seq<char>)
    requires LexToken(s).Some? && LexToken(s).value.0.Text?
    ensures LexesBefore(LexToken(s).value.0, LexToken(s).value.1)
  {
    hide LexToken, LexCommand, LexComment, LexEndline, LexMath, LexWhitespace, LexNewline, LexDelimiter, LexText;
    hide WellFormed, TextAlphabet, StartsTextUnit;
    LexTokenIsText(s);
    var (t, r) := LexToken(s).value;
    TextNotAtBracket(s);
    TextNotAtLineEnding(s);
    assert s == t.span + r;
  }

  /** Every token the lexer produces fits what follows it. */
  lemma LexedLexesBefore(s: seq<char>)
    requires LexToken(s).Some?
    ensures LexesBefore(LexToken(s).value.0, LexToken(s).value.1)
  {
    hide LexToken;
    var (t, r) := LexToken(s).value;
    if t.Text? {
      LexedTextLexesBefore(s);
    } else {
      LexTokenByRule(s);
      if t == InlineMath {
        assert s == "$" + r;
      }
    }
  }

  /** The rendering of a fixed-spelling token always lexes back as that token. */
  lemma FixedTokenLexes(t: Token, y: seq<char>)
    requires !t.Command? && !t.Comment? && !t.Whitespace? && !t.Text?
    requires LexesBefore(t, y)
    ensures LexToken(Render(t) + y) == Some((t, y))
  {
    hide LexToken;
    var s := Render(t) + y;
    match t
    case Endline =>
      BackslashPairIsEndline(s);
      assert s[2..] == y;
    case BDisplayMath =>
      DisplayMathBrackets(s);
      assert s[2..] == y;
    case EDisplayMath =>
      DisplayMathBrackets(s);
      assert s[2..] == y;
    case TDisplayMath =>
      DoubleDollar(s);
      assert s[2..] == y;
    case InlineMath =>
      SingleDollar(s);
      assert s[1..] == y;
    case Newline =>
      LineEndingIsNewline(s);
      assert s[1..] == y;
    case LBrace =>
      DelimiterTokens(s);
      assert s[1..] == y;
    case RBrace =>
      DelimiterTokens(s);
      assert s[1..] == y;
    case LBracket =>
      DelimiterTokens(s);
      assert s[1..] == y;
    case RBracket =>
      DelimiterTokens(s);
      assert s[1..] == y;
  }

  /** A well-formed token rendered in front of input it fits lexes back as itself. */
  lemma RenderLexes(t: Token, y: seq<char>)
    requires WellFormed(t) && LexesBefore(t, y)
    ensures LexToken(Render(t) + y) == Some((t, y))
  {
    hide LexToken;
    match t
    case Command(name) =>
      CommandToken(name, y);
      assert Render(t) + y == "\\" + name + y;
    case Comment(body) =>
      CommentToken(body, y);
      assert Render(t) + y == "%" + body + y;
    case Whitespace(w) =>
      WhitespaceToken(w, y);
    case Text(w) =>
      TextToken(w, y);
    case _ =>
      FixedTokenLexes(t, y);
  }

  /** Whether a token fits what follows depends only on the lookahead. */
  lemma LexesBeforeTransfers(t: Token, a: seq<char>, b: seq<char>)
    requires LexesBefore(t, a) && SameLookahead(a, b)
    ensures LexesBefore(t, b)
  {
    if t.Text? && a != [] {
      assert !IsTextUnit(a[..1]);
      assert b[..1] == [a[0]] && a[..1] == [a[0]];
      if |a| >= 2 && a[0] == '\\' {
        assert b[..2] == a[..2];
      }
    }
  }

  /** A lone carriage return fits only where it neither starts a line ending nor another Text unit. */
  lemma CarriageReturnTextFollower(rest: seq<char>)
    requires LexesBefore(Text("\r"), rest) && rest != []
    ensures rest[0] != '\n' && rest[0] != '\r'
  {
    assert !IsTextUnit(rest[..1]);
  }

  /**
   * Rendering the token read off `s` in front of input that looks like what
   * followed it gives input that looks like `s`.
   */
  lemma LookaheadStep(s: seq<char>, t: Token, rest: seq<char>, y: seq<char>)
    requires Lexed(s, t, rest) && WellFormed(t) && LexesBefore(t, rest)
    requires SameLookahead(rest, y)
    ensures SameLookahead(s, Render(t) + y)
  {
    var w := s[..|s| - |rest|];
    assert s == w + rest;
    if t == Newline && w == "\r\n" {
    } else {
      assert w == Render(t);
      var b := w + y;
      if |w| >= 2 {
        assert !(w[0] == '\r' && w[1] == '\n') by {
          if t.Text? {
            assert TextPositionOk(w, 1);
          }
        }
        assert b[0] == s[0] && b[1] == s[1];
      } else {
        assert w[0] != '\\' by {
          if t.Text? {
            assert TextPositionOk(w, 0);
          }
        }
        if w[0] == '\r' {
          assert t == Text("\r");
          if rest != [] {
            CarriageReturnTextFollower(rest);
            assert b[1] == y[0] == rest[0] == s[1];
          }
        }
      }
    }
  }

  /**
   * Lexing the rendered tokens of `s`, followed by the remainder, gives the
   * same tokens and remainder, and that text looks like `s` to the token
   * before it.
   */
  lemma {:induction false} RenderedRelexes(s: seq<char>)
    ensures LexTokens(RenderAll(LexTokens(s).0) + LexTokens(s).1) == LexTokens(s)
    ensures SameLookahead(s, RenderAll(LexTokens(s).0) + LexTokens(s).1)
    decreases |s|
  {
    hide LexToken, LexTokens;
    match LexToken(s)
    case None =>
      LexTokensStops(s);
      LexTokenFails(s);
      assert RenderAll([]) + s == s;
    case Some((t, rest)) =>
      var (ts, stop) := LexTokens(rest);
      LexTokensStep(s, t, rest, ts, stop);
      RenderedRelexes(rest);
      var y := RenderAll(ts) + stop;
      LexedLexesBefore(s);
      LexesBeforeTransfers(t, rest, y);
      RenderLexes(t, y);
      LexTokensStep(Render(t) + y, t, y, ts, stop);
      RenderAllCons(t, ts, stop);
      LookaheadStep(s, t, rest, y);
  }

  /** Lexing the rendering of the tokens and the remainder gives the same tokens and remainder. */
  lemma RelexRendered(s: seq<char>)
    ensures LexTokens(RenderAll(LexTokens(s).0) + LexTokens(s).1) == LexTokens(s)
  {
    RenderedRelexes(s);
  }
}
