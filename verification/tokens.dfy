/**
 * The lexer's token type, the text each token stands for, and the shape
 * each payload must have.
 */
module Tokens {
  import opened Chars

  /**
   * (La)TeX tokens. The four payload-carrying variants hold the slice of the
   * input they cover (`span`); the others are fixed delimiters.
   */
  datatype Token =
    | Command(span: seq<char>)     // `\name`; the span is the name without the backslash
    | Comment(span: seq<char>)     // `%...`; the span is the body without `%` and without the line ending
    | Text(span: seq<char>)        // ordinary text, escapes kept verbatim
    | Endline                      // `\\`
    | BDisplayMath                 // `\[`
    | EDisplayMath                 // `\]`
    | TDisplayMath                 // `$$`
    | InlineMath                   // `$`
    | Whitespace(span: seq<char>)  // a run of spaces and tabs
    | Newline                      // `\n` or `\r\n`
    | LBrace                       // `{`
    | RBrace                       // `}`
    | LBracket                     // `[`
    | RBracket                     // `]`

  /** The source text a token stands for; a Newline is rendered as a bare line feed. */
  function Render(t: Token): seq<char> {
    match t
    case Command(name) => "\\" + name
    case Comment(body) => "%" + body
    case Text(w) => w
    case Endline => "\\\\"
    case BDisplayMath => "\\["
    case EDisplayMath => "\\]"
    case TDisplayMath => "$$"
    case InlineMath => "$"
    case Whitespace(w) => w
    case Newline => "\n"
    case LBrace => "{"
    case RBrace => "}"
    case LBracket => "["
    case RBracket => "]"
  }

  /**
   * `w` is a spelling of `t`: its rendering, or, for a Newline, also the
   * two-character terminator `\r\n`, whose width the token does not record.
   */
  predicate Spells(t: Token, w: seq<char>) {
    w == Render(t) || (t == Newline && w == "\r\n")
  }

  /** Only a Newline has a second spelling, and that spelling starts with "\r\n". */
  lemma SpellsRender(t: Token, w: seq<char>)
    requires Spells(t, w) && !(|w| >= 2 && w[0] == '\r' && w[1] == '\n')
    ensures w == Render(t)
  {
  }

  /** `u` is one unit of a Text run: a non-structural character, or a backslash escape. */
  predicate IsTextUnit(u: seq<char>) {
    (|u| == 1 && !IsStructural(u[0]))
    || (|u| == 2 && u[0] == '\\' && IsEscapable(u[1]))
  }

  /** `s` begins with a unit of a Text run. */
  predicate StartsTextUnit(s: seq<char>) {
    (|s| >= 1 && IsTextUnit(s[..1])) || (|s| >= 2 && IsTextUnit(s[..2]))
  }

  /**
   * Position `i` of `w` may belong to a Text run: a backslash there is
   * followed by an escapable character, and any other structural character
   * there directly follows a backslash.
   */
  predicate TextPositionOk(w: seq<char>, i: int)
    requires 0 <= i < |w|
  {
    && (w[i] == '\\' ==> i + 1 < |w| && IsEscapable(w[i + 1]))
    && (IsStructural(w[i]) && w[i] != '\\' ==> 0 < i && w[i - 1] == '\\')
  }

  /** The alphabet of a Text run, stated per position rather than as a grammar. */
  predicate TextAlphabet(w: seq<char>) {
    forall i :: 0 <= i < |w| ==> TextPositionOk(w, i)
  }

  /** Putting one Text unit in front of a Text run gives a Text run. */
  lemma TextAlphabetPrepend(u: seq<char>, tail: seq<char>)
    requires IsTextUnit(u) && TextAlphabet(tail)
    ensures TextAlphabet(u + tail)
  {
    var w := u + tail;
    forall i | 0 <= i < |w|
      ensures TextPositionOk(w, i)
    {
      if i >= |u| {
        assert TextPositionOk(tail, i - |u|);
      }
    }
  }

  /** A string of non-structural characters is a Text run. */
  lemma PlainTextAlphabet(w: seq<char>)
    requires forall i :: 0 <= i < |w| ==> !IsStructural(w[i])
    ensures TextAlphabet(w)
  {
    forall i | 0 <= i < |w|
      ensures TextPositionOk(w, i)
    {
      assert !IsStructural(w[i]);
    }
  }

  /** The shape of each payload: what a token produced by the lexer may carry. */
  predicate WellFormed(t: Token) {
    match t
    case Command(name) => |name| > 0 && AllLetters(name)
    case Comment(body) => IsLine(body)
    case Text(w) => |w| > 0 && TextAlphabet(w)
    case Whitespace(w) => |w| > 0 && AllBlank(w)
    case _ => true
  }

  /** The concatenated renderings of a token sequence. */
  function RenderAll(ts: seq<Token>): seq<char> {
    if ts == [] then [] else Render(ts[0]) + RenderAll(ts[1..])
  }

  /** Each token of `ts` is spelled by the non-empty string at the same position of `ws`. */
  predicate SpelledBy(ts: seq<Token>, ws: seq<seq<char>>) {
    |ts| == |ws| && (ts == [] || (|ws[0]| > 0 && Spells(ts[0], ws[0]) && SpelledBy(ts[1..], ws[1..])))
  }

  /** The concatenation of a sequence of strings. */
  function Concat(ws: seq<seq<char>>): seq<char> {
    if ws == [] then [] else ws[0] + Concat(ws[1..])
  }

  /** Concatenating a string in front of a sequence of strings. */
  lemma ConcatCons(w: seq<char>, ws: seq<seq<char>>, tail: seq<char>)
    ensures Concat([w] + ws) + tail == w + (Concat(ws) + tail)
  {
    assert ([w] + ws)[1..] == ws;
  }

  /** Rendering a token in front of a token sequence. */
  lemma RenderAllCons(t: Token, ts: seq<Token>, tail: seq<char>)
    ensures RenderAll([t] + ts) + tail == Render(t) + (RenderAll(ts) + tail)
  {
    assert ([t] + ts)[1..] == ts;
  }
}
