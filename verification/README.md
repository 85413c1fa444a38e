# texfmt lexer, modelled in Dafny

This project models the (La)TeX tokenizer of texfmt (`src/lexer.rs`). The
tokenizer is a pure function. It takes the source text and returns a list of
tokens plus the part of the input it could not consume.

- `Tokens` (`tokens.dfy`) defines the 14 token kinds and `Render`, the text a
  token stands for. It also defines `WellFormed`, the shape each payload may
  have. A Text payload must be a run of plain characters and backslash escapes.
- `Lexer` (`lexer.dfy`) has one recogniser per `lex_*` function:
  `LexCommand`, `LexComment`, `LexMath`, `LexEndline`, `LexWhitespace`,
  `LexNewline`, `LexDelimiter` and `LexText`. Each takes a `seq<char>` and
  returns `Option<(Token, rest)>`.
  - `LexToken` is nom's ordered choice (`alt`). It tries the rules in the
    order of the `Priority` list and takes the first that matches.
  - `LexTokens` is the `many0` driver. `Tokenize` is the same driver written
    as a loop.
  - `Spans` gives the slice of the input that each token covers.
- `LexerProperties` (`properties.dfy`) states what the ordering decides where
  recognisers overlap, and the laws of the driver: progress, the round trip,
  and where it stops.
  - Command, Comment, Whitespace and Text are characterised as
    if-and-only-ifs: `CommandToken`, `CommentToken`, `WhitespaceToken` and
    `TextToken` say exactly when a string lexes as one such token.
  - The fixed-spelling tokens are characterised in one direction only. Their
    lemmas say that the spelling always lexes as the token: `BackslashPairIsEndline`,
    `DisplayMathBrackets`, `DoubleDollar`, `SingleDollar`, `LineEndingIsNewline`
    and `DelimiterTokens`. `LexTokenByRule` gives the converse for every kind: a
    token comes from its own recogniser.
- `LexerNormalForm` (`normal_form.dfy`) proves that rendering is a normal form
  for every input. Lexing the rendered tokens followed by the remainder gives
  the same tokens and remainder. `LexesBefore` states the lookahead each
  recogniser performs, and `SameLookahead` states when two texts look alike to
  the token before them.
- `LexerCases` (`cases.dfy`) restates the documented example and the source's
  unit tests as lemmas, plus a few edge cases. The expected tokens are derived
  one token at a time. Each step is an instance of `LexerNormalForm.RenderLexes`
  for the token and the input after it, and `LexTokensStep` chains the steps.
  `StructuralAhead` supplies the lookahead a Text step needs. The longer inputs
  are split at token boundaries by the `...Input` lemmas.
- `Chars` (`chars.dfy`) holds the character classes that nom's parsers accept.
  `Wrappers` (`wrappers.dfy`) holds `Option`.

Character classes, as in nom:
- `alpha1` accepts ASCII letters only.
- `space1` accepts spaces and tabs.
- `line_ending` accepts `\n` or `\r\n`.
- `not_line_ending` stops before `\n` or `\r\n`. It fails when the first
  line-break character it meets is a `\r` with no `\n` after it. The model
  keeps that failure: `BareCarriageReturnAhead` describes it and
  `LoneCarriageReturnInComment` exercises it.

Behaviour worth knowing, all of it proved:
- A `\r` is an ordinary Text character, except as the first character of a
  token that starts with `\r\n`: that pair is a Newline. So `"a\r\nb"` lexes
  as `[Text("a\r"), Newline, Text("b")]` (`CarriageReturnInText`). A `\r` not
  followed by `\n` is Text even at the start of a line: `"\n\rx"` lexes as
  `[Newline, Text("\rx")]` (`CarriageReturnStartsText`).
  Text can also contain `[` and `]` after its first character (`BracketsInText`).
- The round trip `RenderAll(tokens) + remainder == input` holds whenever the
  input has no `"\r\n"`. `Newline` does not record whether it was `\n` or
  `\r\n`, and `Render` writes it as `\n`.
- `Spans` gives the exact decomposition of every input, `"\r\n"` included.
- Re-lexing is exact for every input, `"\r\n"` included. Lexing
  `RenderAll(tokens) + remainder` gives back the same tokens and remainder
  (`RelexRendered`).
- Two backslashes followed by letters, as in `\\cmd`, lex as
  `[Endline, Text("cmd")]` and not as `[Endline, Command("cmd")]`. Once `\\`
  is consumed, nothing in `cmd` starts a command (`EndlineThenText`).
- A comment payload may be empty (`EmptyComment`).

## Model

| member | source | states |
|---|---|---|
| Lexer.LexCommand | src/lexer.rs:69-71 | matches exactly when `\` is followed by a letter. The payload is a non-empty run of ASCII letters that is maximal: the rest does not start with a letter. Token plus rest make up the input |
| Lexer.LineLen | src/lexer.rs:73-75 | `not_line_ending`: fails exactly when the first line break is a lone `\r`. Otherwise it returns a prefix free of line breaks, followed by a line ending or the end of input |
| Lexer.LexComment | src/lexer.rs:73-75 | matches exactly on `%` not followed by a line that ends in a lone `\r`. The payload holds no line break and the rest starts at a line ending or is empty |
| Lexer.LexMath | src/lexer.rs:77-84 | matches exactly on `\[`, `\]` or `$`. It yields one of the four math tokens spelled by the consumed prefix, and InlineMath never when `$$` is ahead |
| Lexer.LexEndline | src/lexer.rs:86-88 | matches exactly on `\\` and yields Endline for those two characters |
| Lexer.LexWhitespace | src/lexer.rs:92-94 | matches exactly when the input starts with a space or tab. The payload is the maximal non-empty blank run |
| Lexer.LexNewline | src/lexer.rs:96-98 | matches exactly at `\n` or `\r\n` and consumes the whole terminator |
| Lexer.LexDelimiter | src/lexer.rs:102-109 | matches exactly on `{`, `}`, `[`, `]` and yields the matching brace or bracket token |
| Lexer.TextUnitLen | src/lexer.rs:119-122 | the width of one `many1` item: a non-structural character, or `\` plus an escapable character. 0 when neither applies |
| Lexer.TextRunLen | src/lexer.rs:119-122 | the longest run of Text units: it is in the Text alphabet, what follows cannot extend it, and it is empty exactly when no unit starts the input |
| Lexer.LexText | src/lexer.rs:113-125 | matches exactly when a Text unit starts the input. The payload is a non-empty Text run that cannot be extended |
| Lexer.Apply | src/lexer.rs:128-139 | each alternative yields only well-formed tokens of its own kind that spell the consumed prefix |
| Lexer.FirstMatch | src/lexer.rs:128-139 | `alt`: fails exactly when every alternative fails. Otherwise it returns the result of the first alternative that matches |
| Lexer.PriorityCoversAllRules | src/lexer.rs:128-139 | the alternatives of `lex_token` are exactly the eight recognisers |
| Lexer.StuckIffNoRuleMatches | src/lexer.rs:69-125 | no recogniser matches exactly on the empty input, on a `\` that starts nothing, and on a `%` whose line ends in a lone `\r` |
| Lexer.LexToken | src/lexer.rs:128-139 | a recognised token is well-formed, spells a non-empty prefix of the input, and leaves the rest |
| Lexer.LexTokenFails | src/lexer.rs:128-139 | `lex_token` fails exactly on the stuck inputs |
| Lexer.LexTokens | src/lexer.rs:142-144 | `many0`: the remainder is a suffix of the input on which `lex_token` fails, and every token is well-formed |
| Lexer.Spans | src/lexer.rs:142-144 | each token spells its own non-empty slice of the input, and the slices followed by the remainder are exactly the input |
| Lexer.Tokenize | src/lexer.rs:142-144 | the loop form of the driver returns the same tokens and remainder as the recursive one |
| Tokens.SpellsRender | src/lexer.rs:53-54 | only a Newline has two spellings, and the second begins with `\r\n` |
| Tokens.TextAlphabetPrepend | src/lexer.rs:119-122 | a Text unit in front of a Text run is a Text run |
| Tokens.PlainTextAlphabet | src/lexer.rs:120 | characters outside `\ % { } $`, space, tab and `\n` always form a Text run |
| LexerProperties.ApplyPriority | src/lexer.rs:128-139 | the k-th alternative of `lex_token` is the k-th recogniser in source order |
| LexerProperties.LexTokenChoice | src/lexer.rs:128-139 | the first token is the result of the first recogniser, in source order, that matches |
| LexerProperties.LexTokenByRule | src/lexer.rs:128-139 | every token is produced by the recogniser for its own kind |
| LexerProperties.BackslashPairIsEndline | src/lexer.rs:128-139 | `\\` always lexes as Endline: Command comes first but needs a letter |
| LexerProperties.DisplayMathBrackets | src/lexer.rs:128-139 | `\[` and `\]` always lex as display math, never as an escape or a delimiter |
| LexerProperties.DoubleDollar | src/lexer.rs:77-84 | `$$` is one TDisplayMath, never two InlineMath |
| LexerProperties.SingleDollar | src/lexer.rs:77-84 | a `$` not followed by `$` is InlineMath and consumes one character |
| LexerProperties.LineEndingIsNewline | src/lexer.rs:128-139 | `\n` and `\r\n` always lex as one Newline, even though Text accepts `\r` |
| LexerProperties.DelimiterTokens | src/lexer.rs:128-139 | braces and brackets at a token start are delimiters, although Text may contain brackets |
| LexerProperties.LexCommandReads | src/lexer.rs:69-71 | `lex_command` reads a maximal letter run after the backslash as the payload |
| LexerProperties.CommandToken | src/lexer.rs:69-71 | `\name` lexes as Command(name) iff name is a non-empty, maximal run of letters |
| LexerProperties.LineLenStopsAtLineEnding | src/lexer.rs:74 | `not_line_ending` stops exactly at the first line ending |
| LexerProperties.LexCommentReads | src/lexer.rs:73-75 | `lex_comment` reads everything after `%` up to the line ending |
| LexerProperties.CommentToken | src/lexer.rs:73-75 | `%body` lexes as Comment(body) iff body has no line break and a line ending or the end of input follows |
| LexerProperties.LexWhitespaceReads | src/lexer.rs:92-94 | `lex_whitespace` reads a maximal blank run |
| LexerProperties.WhitespaceToken | src/lexer.rs:92-94 | a string lexes as one Whitespace token iff it is a non-empty, maximal run of spaces and tabs, so it never absorbs a line feed |
| LexerProperties.TextAlphabetDropUnit | src/lexer.rs:119-122 | removing the first unit of a Text run leaves a Text run |
| LexerProperties.TextRunMaximal | src/lexer.rs:119-122 | `many1` over Text units consumes a Text run whole when what follows cannot start a unit |
| LexerProperties.TextHeadPassesEarlierRules | src/lexer.rs:128-139 | a Text unit other than a bracket or the `\r` of `\r\n` is claimed by none of the seven earlier rules |
| LexerProperties.LexTextReads | src/lexer.rs:113-125 | `lex_text` reads a maximal Text run whole |
| LexerProperties.TextRunWins | src/lexer.rs:128-139 | a maximal Text run that no earlier rule claims is one Text token |
| LexerProperties.TextToken | src/lexer.rs:113-125 | w lexes as Text(w) iff w is a non-empty, maximal Text run that does not start with a bracket and is not the `\r` of a `\r\n` |
| LexerProperties.LexTokensStep | src/lexer.rs:142-144 | one driver step: a recognised token heads the output for the rest |
| LexerProperties.LexTokensStops | src/lexer.rs:142-144 | where `lex_token` fails the driver returns no tokens and the whole input as remainder |
| LexerProperties.RemainderIsStuck | src/lexer.rs:142-144 | the remainder is stuck: empty, or starting with a `\` or `%` that no rule accepts |
| LexerProperties.TokenCountBound | src/lexer.rs:142-144 | progress: there are no more tokens than consumed characters |
| LexerProperties.RoundTrip | src/lexer.rs:142-144 | without `\r\n` in the input, the rendered tokens followed by the remainder are the input |
| LexerNormalForm.LexTokenIsText | src/lexer.rs:128-139 | a Text token is exactly what `lex_text` returns on that input |
| LexerNormalForm.TextNotAtBracket | src/lexer.rs:128-139 | a Text token never starts with `[` or `]`, because `lex_delimiter` is tried first |
| LexerNormalForm.TextNotAtLineEnding | src/lexer.rs:128-139 | a Text token never starts with `\r\n`, because `lex_newline` is tried first |
| LexerNormalForm.LexedTextLexesBefore | src/lexer.rs:113-125 | what follows a Text token cannot start another Text unit, and the token is neither a bracket nor the `\r` of a `\r\n` |
| LexerNormalForm.LexedLexesBefore | src/lexer.rs:128-139 | every token `lex_token` returns fits what follows it: a command is not followed by a letter, whitespace not by a blank, a comment by a line ending or nothing, InlineMath not by `$` |
| LexerNormalForm.FixedTokenLexes | src/lexer.rs:77-109 | the spelling of Endline, each math token, Newline and each delimiter lexes back as that token in front of any input it fits |
| LexerNormalForm.RenderLexes | src/lexer.rs:128-139 | a well-formed token rendered in front of input it fits lexes back as itself, leaving that input |
| LexerNormalForm.LexesBeforeTransfers | src/lexer.rs:128-139 | whether a token fits what follows depends only on the lookahead its recogniser performs |
| LexerNormalForm.CarriageReturnTextFollower | src/lexer.rs:119-122 | a Text token that is a lone `\r` is never followed by `\n` or by another `\r` |
| LexerNormalForm.LookaheadStep | src/lexer.rs:142-144 | rendering a token in front of text that looks like what followed it gives text that looks like the original input |
| LexerNormalForm.RenderedRelexes | src/lexer.rs:142-144 | for every input, lexing the rendered tokens plus the remainder returns the same tokens and remainder, and that text looks like the input |
| LexerNormalForm.RelexRendered | src/lexer.rs:142-144 | for every input, `\r\n` included, lexing the rendered tokens followed by the remainder gives the same tokens and remainder |
| LexerCases.DocExample | src/lexer.rs:9-15 | `\cmd{arg}` lexes as Command("cmd"), LBrace, Text("arg"), RBrace with nothing left |
| LexerCases.CommandRecogniser | src/lexer.rs:151-164 | `lex_command` on `\cmd{arg}` gives Command("cmd") with rest `{arg}`, and fails on `\\cmd` |
| LexerCases.MathRecogniser | src/lexer.rs:167-172 | `lex_math` gives BDisplayMath, EDisplayMath, TDisplayMath and InlineMath on the four test inputs, with the stated rests |
| LexerCases.CommentRecogniser | src/lexer.rs:175-185 | `lex_comment` gives Comment(" hello world") with rest empty or `\n` |
| LexerCases.TextRecogniser | src/lexer.rs:188-189 | `lex_text` gives Text("asd") and Text("1+2"), each with rest `$` |
| LexerCases.EscapedTextRecogniser | src/lexer.rs:190-193 | `lex_text` keeps the escapes `\,` `\&` `\;` and stops before `\[` |
| LexerCases.Tokens0 | src/lexer.rs:197-205 | `\[1+2\]` lexes as BDisplayMath, Text("1+2"), EDisplayMath with nothing left |
| LexerCases.Tokens1 | src/lexer.rs:208-233 | the tokens_1 input lexes as exactly the sixteen expected tokens with nothing left |
| LexerCases.Tokens2 | src/lexer.rs:236-258 | the tokens_2 input lexes as exactly the fifteen expected tokens with nothing left |
| LexerCases.EndlineThenText | src/lexer.rs:128-139 | `\\cmd` lexes as Endline then Text("cmd") |
| LexerCases.CarriageReturnInText | src/lexer.rs:119-122 | in `a\r\nb` the `\r` stays in the Text run and the `\n` is the Newline |
| LexerCases.CarriageReturnStartsText | src/lexer.rs:119-122 | in `\n\rx` the `\r` starts a Text run after the Newline |
| LexerCases.TrailingBackslash | src/lexer.rs:121 | a lone `\` at the end stops the driver with the `\` as remainder |
| LexerCases.UnknownEscape | src/lexer.rs:121 | `\1` yields no token and is the whole remainder |
| LexerCases.LoneCarriageReturnInComment | src/lexer.rs:74 | a comment line ending in a lone `\r` stops the driver at the `%` |
| LexerCases.EmptyComment | src/lexer.rs:73-75 | `%` before a line feed is an empty Comment followed by Newline |
| LexerCases.BlanksAroundNewline | src/lexer.rs:92-98 | blanks on either side of a line feed stay separate: Whitespace(" \t"), Newline, Whitespace(" "), Command("end") |
| LexerCases.BracketsInText | src/lexer.rs:119-122 | `a[b]` is a single Text token |

## Left out

- `src/main.rs` is not part of this model. It is command-line parsing, logging and file or stdin I/O, and it never calls the tokenizer.
- `tests/src_01.rs` is not part of this model. Its expectations depend on a TeX file that is not part of this model.
- nom's error values (`nom::Err::Error`, `ErrorKind::Alpha`, the failing input) are modelled as `None`. The driver's result is always a success, so only the recognisers' failures matter, and only whether they happened.
- The guard in `many0` against a parser that succeeds without consuming is never reached, because every recogniser consumes at least one character (`Lexed`). It is not modelled.
- Payloads are copies (`seq<char>`), not borrowed slices of the input. `Spans` recovers where each token came from.
- `Newline` does not record whether it was `\n` or `\r\n`. `Render` writes `\n`.
- LexerProperties.RoundTrip: requires the input to have no `\r\n`, because rendering cannot recover the terminator width. `Spans` states the exact decomposition for every input, and `RelexRendered` states that re-lexing the rendering is exact for every input.
- Chars: nom's `alpha1` on `&str` is modelled as ASCII letters only, which matches `char::is_ascii_alphabetic`. Unicode categories play no role.
