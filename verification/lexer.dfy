/**
 * The (La)TeX tokenizer: one recogniser per token kind, the ordered choice
 * among them that identifies the first token of an input, and the driver
 * that applies it until it stops matching.
 *
 * Every recogniser takes the input and either fails (`None`) or yields a
 * token together with the unconsumed remainder.
 */
module Lexer {
  import opened Wrappers
  import opened Chars
  import opened Tokens

  /** A recognised token and the input left after it. */
  type Lexeme = (Token, seq<char>)

  /**
   * `s` is `t` followed by `rest`: `rest` is a proper suffix of `s` and the
   * characters before it spell `t`.
   */
  predicate Lexed(s: seq<char>, t: Token, rest: seq<char>) {
    |rest| < |s| && s[|s| - |rest|..] == rest && Spells(t, s[..|s| - |rest|])
  }

  /** `s` is empty or begins with a line ending (`\n` or `\r\n`). */
  predicate AtLineEnding(s: seq<char>) {
    s == [] || s[0] == '\n' || (|s| >= 2 && s[0] == '\r' && s[1] == '\n')
  }

  /** The first line-break character of `s` is a carriage return not followed by a line feed. */
  predicate BareCarriageReturnAhead(s: seq<char>) {
    exists i :: 0 <= i < |s| && s[i] == '\r' && !(i + 1 < |s| && s[i + 1] == '\n') && IsLine(s[..i])
  }

  // ---------------------------------------------------------------- rules

  /** `\` followed by a maximal, non-empty run of ASCII letters; the payload is the letters. */
  function LexCommand(s: seq<char>): (r: Option<Lexeme>)
    ensures r.Some? <==> |s| >= 2 && s[0] == '\\' && IsAsciiLetter(s[1])
    ensures r.Some? ==> r.value.0.Command? && WellFormed(r.value.0) && Lexed(s, r.value.0, r.value.1)
    ensures r.Some? ==> r.value.1 == [] || !IsAsciiLetter(r.value.1[0])
  {
    if |s| > 0 && s[0] == '\\' then
      var n := SpanLen(s[1..], IsAsciiLetter);
      if n == 0 then None else Some((Command(s[1..1 + n]), s[1 + n..]))
    else
      None
  }

  /**
   * The length of the line ahead, up to but excluding its terminator or the
   * end of input; `None` when the terminator is a lone carriage return.
   */
  function LineLen(s: seq<char>): (r: Option<nat>)
    ensures r.None? <==> BareCarriageReturnAhead(s)
    ensures r.Some? ==> r.value <= |s| && AtLineEnding(s[r.value..])
    ensures r.Some? ==> IsLine(s[..r.value])
  {
    var n := SpanLen(s, IsLineContent);
    if AtLineEnding(s[n..]) then
      assert !BareCarriageReturnAhead(s) by {
        assert forall i :: 0 <= i < |s| && IsLine(s[..i]) ==> i <= n;
      }
      Some(n)
    else
      assert s[n] == '\r' && !(n + 1 < |s| && s[n + 1] == '\n') && IsLine(s[..n]);
      None
  }

  /** `%` followed by the rest of the line, not including the line ending. */
  function LexComment(s: seq<char>): (r: Option<Lexeme>)
    ensures r.Some? <==> |s| > 0 && s[0] == '%' && !BareCarriageReturnAhead(s[1..])
    ensures r.Some? ==> r.value.0.Comment? && WellFormed(r.value.0) && Lexed(s, r.value.0, r.value.1)
    ensures r.Some? ==> AtLineEnding(r.value.1)
  {
    if |s| > 0 && s[0] == '%' then
      match LineLen(s[1..])
      case None => None
      case Some(n) => Some((Comment(s[1..1 + n]), s[1 + n..]))
    else
      None
  }

  /** The math delimiters, tried in the order `\[`, `\]`, `$$`, `$`. */
  function LexMath(s: seq<char>): (r: Option<Lexeme>)
    ensures r.Some? <==> (|s| >= 2 && s[0] == '\\' && s[1] in "[]") || (|s| >= 1 && s[0] == '$')
    ensures r.Some? ==> r.value.0 in {BDisplayMath, EDisplayMath, TDisplayMath, InlineMath}
    ensures r.Some? ==> Lexed(s, r.value.0, r.value.1)
    ensures r.Some? && r.value.0 == InlineMath ==> !(|s| >= 2 && s[1] == '$')
  {
    if |s| >= 2 && s[0] == '\\' && s[1] == '[' then Some((BDisplayMath, s[2..]))
    else if |s| >= 2 && s[0] == '\\' && s[1] == ']' then Some((EDisplayMath, s[2..]))
    else if |s| >= 2 && s[0] == '$' && s[1] == '$' then Some((TDisplayMath, s[2..]))
    else if |s| >= 1 && s[0] == '$' then Some((InlineMath, s[1..]))
    else None
  }

  /** The two-character sequence `\\`. */
  function LexEndline(s: seq<char>): (r: Option<Lexeme>)
    ensures r.Some? <==> |s| >= 2 && s[0] == '\\' && s[1] == '\\'
    ensures r.Some? ==> r.value.0 == Endline && Lexed(s, r.value.0, r.value.1)
  {
    if |s| >= 2 && s[0] == '\\' && s[1] == '\\' then Some((Endline, s[2..])) else None
  }

  /** A maximal, non-empty run of spaces and tabs. */
  function LexWhitespace(s: seq<char>): (r: Option<Lexeme>)
    ensures r.Some? <==> |s| > 0 && IsBlank(s[0])
    ensures r.Some? ==> r.value.0.Whitespace? && WellFormed(r.value.0) && Lexed(s, r.value.0, r.value.1)
    ensures r.Some? ==> r.value.1 == [] || !IsBlank(r.value.1[0])
  {
    var n := SpanLen(s, IsBlank);
    if n == 0 then None else Some((Whitespace(s[..n]), s[n..]))
  }

  /** One line terminator, `\n` or `\r\n`. */
  function LexNewline(s: seq<char>): (r: Option<Lexeme>)
    ensures r.Some? <==> s != [] && AtLineEnding(s)
    ensures r.Some? ==> r.value.0 == Newline && Lexed(s, r.value.0, r.value.1)
    ensures r.Some? && s[0] == '\r' ==> r.value.1 == s[2..]
  {
    if |s| >= 1 && s[0] == '\n' then Some((Newline, s[1..]))
    else if |s| >= 2 && s[0] == '\r' && s[1] == '\n' then Some((Newline, s[2..]))
    else None
  }

  /** One of `{`, `}`, `[`, `]`. */
  function LexDelimiter(s: seq<char>): (r: Option<Lexeme>)
    ensures r.Some? <==> |s| > 0 && s[0] in "{}[]"
    ensures r.Some? ==> r.value.0 in {LBrace, RBrace, LBracket, RBracket}
    ensures r.Some? ==> Lexed(s, r.value.0, r.value.1)
  {
    if |s| == 0 then None
    else if s[0] == '{' then Some((LBrace, s[1..]))
    else if s[0] == '}' then Some((RBrace, s[1..]))
    else if s[0] == '[' then Some((LBracket, s[1..]))
    else if s[0] == ']' then Some((RBracket, s[1..]))
    else None
  }

  /** Width of the Text unit at the head of `s`: 1 for a plain character, 2 for an escape, 0 for none. */
  function TextUnitLen(s: seq<char>): (n: nat)
    ensures n <= |s|
    ensures n == 0 <==> !StartsTextUnit(s)
    ensures n > 0 ==> IsTextUnit(s[..n])
  {
    if |s| >= 1 && IsTextUnit(s[..1]) then 1
    else if |s| >= 2 && IsTextUnit(s[..2]) then 2
    else 0
  }

  /** Width of the longest run of Text units at the head of `s`. */
  function TextRunLen(s: seq<char>): (n: nat)
    decreases |s|
    ensures n <= |s|
    ensures TextAlphabet(s[..n])
    ensures !StartsTextUnit(s[n..])
    ensures n == 0 <==> !StartsTextUnit(s)
  {
    var u := TextUnitLen(s);
    if u == 0 then
      0
    else
      var m := TextRunLen(s[u..]);
      assert s[..u + m] == s[..u] + s[u..][..m];
      TextAlphabetPrepend(s[..u], s[u..][..m]);
      u + m
  }

  /** A maximal, non-empty run of Text units. */
  function LexText(s: seq<char>): (r: Option<Lexeme>)
    ensures r.Some? <==> StartsTextUnit(s)
    ensures r.Some? ==> r.value.0.Text? && WellFormed(r.value.0) && Lexed(s, r.value.0, r.value.1)
    ensures r.Some? ==> !StartsTextUnit(r.value.1)
  {
    var n := TextRunLen(s);
    if n == 0 then None else Some((Text(s[..n]), s[n..]))
  }

  // --------------------------------------------------------- one token

  /**
   * The inputs on which no rule matches: the empty input, a backslash that
   * starts neither a command, `\\`, `\[`, `\]` nor an escape, and a `%`
   * whose line ends in a lone carriage return.
   */
  predicate Stuck(s: seq<char>) {
    || s == []
    || (s[0] == '\\' && !(|s| >= 2 && (IsAsciiLetter(s[1]) || s[1] in "\\[]" || IsEscapable(s[1]))))
    || (s[0] == '%' && BareCarriageReturnAhead(s[1..]))
  }

  /** The recognisers, one per token family. */
  datatype Rule =
    | CommandRule | CommentRule | EndlineRule | MathRule
    | WhitespaceRule | NewlineRule | DelimiterRule | TextRule

  /** The order in which the rules are tried at each position. */
  const Priority: seq<Rule> :=
    [CommandRule, CommentRule, EndlineRule, MathRule, WhitespaceRule, NewlineRule, DelimiterRule, TextRule]

  /** The rule that recognises tokens of the kind of `t`. */
  function RuleOf(t: Token): Rule {
    match t
    case Command(_) => CommandRule
    case Comment(_) => CommentRule
    case Endline => EndlineRule
    case BDisplayMath | EDisplayMath | TDisplayMath | InlineMath => MathRule
    case Whitespace(_) => WhitespaceRule
    case Newline => NewlineRule
    case LBrace | RBrace | LBracket | RBracket => DelimiterRule
    case Text(_) => TextRule
  }

  /** Run one rule on `s`; each rule yields only tokens of its own kind. */
  function Apply(rule: Rule, s: seq<char>): (r: Option<Lexeme>)
    ensures r.Some? ==> WellFormed(r.value.0) && Lexed(s, r.value.0, r.value.1)
    ensures r.Some? ==> RuleOf(r.value.0) == rule
  {
    match rule
    case CommandRule => LexCommand(s)
    case CommentRule => LexComment(s)
    case EndlineRule => LexEndline(s)
    case MathRule => LexMath(s)
    case WhitespaceRule => LexWhitespace(s)
    case NewlineRule => LexNewline(s)
    case DelimiterRule => LexDelimiter(s)
    case TextRule => LexText(s)
  }

  /** Rule `rules[k]` matches `s` and no rule before it does. */
  ghost predicate FirstToMatch(rules: seq<Rule>, s: seq<char>, k: int) {
    && 0 <= k < |rules|
    && Apply(rules[k], s).Some?
    && forall j :: 0 <= j < k ==> Apply(rules[j], s).None?
  }

  /**
   * Ordered choice: the result of the first rule in `rules` that matches,
   * with no backtracking once one has matched.
   */
  function FirstMatch(rules: seq<Rule>, s: seq<char>): (r: Option<Lexeme>)
    ensures r.None? <==> forall k :: 0 <= k < |rules| ==> Apply(rules[k], s).None?
    ensures r.Some? ==> exists k :: FirstToMatch(rules, s, k) && r == Apply(rules[k], s)
  {
    if rules == [] then
      None
    else
      var r := Apply(rules[0], s).Or(FirstMatch(rules[1..], s));
      if Apply(rules[0], s).Some? then
        assert FirstToMatch(rules, s, 0);
        r
      else if r.Some? then
        assert exists k :: FirstToMatch(rules, s, k) && r == Apply(rules[k], s) by {
          var k :| FirstToMatch(rules[1..], s, k) && r == Apply(rules[1..][k], s);
          assert FirstToMatch(rules, s, k + 1);
        }
        r
      else
        r
  }

  /** Every rule of `Priority` fails exactly when each recogniser fails. */
  lemma PriorityCoversAllRules(s: seq<char>)
    ensures (forall k :: 0 <= k < |Priority| ==> Apply(Priority[k], s).None?) <==>
      && LexCommand(s).None? && LexComment(s).None? && LexEndline(s).None?
      && LexMath(s).None? && LexWhitespace(s).None? && LexNewline(s).None?
      && LexDelimiter(s).None? && LexText(s).None?
  {
    assert Priority[0] == CommandRule && Priority[1] == CommentRule;
    assert Priority[2] == EndlineRule && Priority[3] == MathRule;
    assert Priority[4] == WhitespaceRule && Priority[5] == NewlineRule;
    assert Priority[6] == DelimiterRule && Priority[7] == TextRule;
  }

  /** No recogniser matches exactly when the input is stuck. */
  lemma StuckIffNoRuleMatches(s: seq<char>)
    ensures Stuck(s) <==>
      && LexCommand(s).None? && LexComment(s).None? && LexEndline(s).None?
      && LexMath(s).None? && LexWhitespace(s).None? && LexNewline(s).None?
      && LexDelimiter(s).None? && LexText(s).None?
  {
    if s == [] {
    } else if s[0] == '\\' {
    } else if s[0] == '%' {
      assert !StartsTextUnit(s);
    } else if s[0] in "${}[] \t\n" {
    } else {
      assert IsTextUnit(s[..1]);
    }
  }

  /**
   * The first token of `s`: the rules tried in `Priority` order, the first
   * that matches wins.
   */
  function LexToken(s: seq<char>): (r: Option<Lexeme>)
    ensures r.Some? ==> WellFormed(r.value.0) && Lexed(s, r.value.0, r.value.1)
  {
    FirstMatch(Priority, s)
  }

  /** `LexToken` fails exactly on the stuck inputs. */
  lemma LexTokenFails(s: seq<char>)
    ensures LexToken(s).None? <==> Stuck(s)
  {
    PriorityCoversAllRules(s);
    StuckIffNoRuleMatches(s);
  }

  // ------------------------------------------------------------ driver

  /**
   * Tokenize `s`: apply `LexToken` until the input runs out or no rule
   * matches. Always succeeds; a failure shows up as a non-empty remainder.
   */
  function LexTokens(s: seq<char>): (r: (seq<Token>, seq<char>))
    decreases |s|
    ensures IsSuffix(r.1, s)
    ensures LexToken(r.1).None?
    ensures forall i :: 0 <= i < |r.0| ==> WellFormed(r.0[i])
  {
    hide LexToken;
    match LexToken(s)
    case None => ([], s)
    case Some((t, rest)) =>
      var (ts, rest') := LexTokens(rest);
      SuffixTransitive(rest', rest, s);
      ([t] + ts, rest')
  }

  /**
   * The exact slice of the input each token of `LexTokens(s)` covers. The
   * slices, in order and followed by the remainder, make up the input.
   */
  function Spans(s: seq<char>): (ws: seq<seq<char>>)
    decreases |s|
    ensures SpelledBy(LexTokens(s).0, ws)
    ensures Concat(ws) + LexTokens(s).1 == s
  {
    hide LexToken;
    match LexToken(s)
    case None => []
    case Some((t, rest)) =>
      assert LexTokens(s).0 == [t] + LexTokens(rest).0;
      assert ([t] + LexTokens(rest).0)[1..] == LexTokens(rest).0;
      ConcatCons(s[..|s| - |rest|], Spans(rest), LexTokens(rest).1);
      assert s == s[..|s| - |rest|] + rest;
      [s[..|s| - |rest|]] + Spans(rest)
  }

  /** The driver as a loop, the way the many0 combinator runs it. */
  method Tokenize(s: seq<char>) returns (tokens: seq<Token>, rest: seq<char>)
    ensures tokens == LexTokens(s).0 && rest == LexTokens(s).1
  {
    hide LexToken;
    tokens := [];
    rest := s;
    while true
      invariant LexTokens(s).0 == tokens + LexTokens(rest).0
      invariant LexTokens(s).1 == LexTokens(rest).1
      decreases |rest|
    {
      match LexToken(rest) {
        case None =>
          return;
        case Some((t, rest')) =>
          assert LexTokens(rest).0 == [t] + LexTokens(rest').0;
          tokens := tokens + [t];
          rest := rest';
      }
    }
  }
}
