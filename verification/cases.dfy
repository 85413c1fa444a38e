/**
 * The tokenizer's documented example and its unit tests, restated as lemmas
 * about the model. Each expected token stream is derived one `LexToken` step
 * at a time: every step is an instance of `RenderLexes`, and `LexTokensStep`
 * chains the steps.
 */
module LexerCases {
  import opened Wrappers
  import opened Chars
  import opened Tokens
  import opened Lexer
  import opened LexerProperties
  import opened LexerNormalForm

  /**
   * Input that starts with a structural character, and not with an escape,
   * cannot extend a Text run.
   */
  lemma StructuralAhead(y: seq<char>)
    requires y != [] && IsStructural(y[0])
    requires !(|y| >= 2 && y[0] == '\\' && IsEscapable(y[1]))
    ensures !StartsTextUnit(y)
  {
    assert y[..1] == [y[0]];
    if |y| >= 2 {
      assert y[..2] == [y[0], y[1]];
    }
  }

  /** Step 4 of DocExample, on any input split at the same token boundary. */
  lemma DocExampleFrom4(r3: seq<char>, r4: seq<char>, ts: seq<Token>)
    requires r3 == "}" + r4
    requires LexesBefore(RBrace, r4)
    requires LexTokens(r4) == (ts, "")
    ensures LexTokens(r3) == ([RBrace] + ts, "")
  {
    hide LexToken, LexTokens, IsSuffix, Lexed, TextAlphabet;
    RenderLexes(RBrace, r4);
    LexTokensStep(r3, RBrace, r4, ts, "");
  }

  /** Steps 1 to 3 of DocExample, on any input split at the same token boundaries. */
  lemma DocExampleFrom1(r0: seq<char>, r1: seq<char>, r2: seq<char>, r3: seq<char>, ts: seq<Token>)
    requires r0 == "\\cmd" + r1
    requires r1 == "{" + r2
    requires r2 == "arg" + r3
    requires LexesBefore(Text("arg"), r3)
    requires LexTokens(r3) == (ts, "")
    ensures LexTokens(r0) == ([Command("cmd"), LBrace, Text("arg")] + ts, "")
  {
    hide LexToken, LexTokens, IsSuffix, Lexed, TextAlphabet;
    PlainTextAlphabet("arg");
    RenderLexes(Text("arg"), r3);
    LexTokensStep(r2, Text("arg"), r3, ts, "");
    RenderLexes(LBrace, r2);
    LexTokensStep(r1, LBrace, r2, [Text("arg")] + ts, "");
    assert [LBrace] + ([Text("arg")] + ts) == [LBrace, Text("arg")] + ts;
    assert Render(Command("cmd")) == "\\cmd";
    assert r1[0] == '{';
    RenderLexes(Command("cmd"), r1);
    LexTokensStep(r0, Command("cmd"), r1, [LBrace, Text("arg")] + ts, "");
    assert [Command("cmd")] + ([LBrace, Text("arg")] + ts) ==
      [Command("cmd"), LBrace, Text("arg")] + ts;
  }

  /** The tokens of DocExample, for the input split at its token boundaries. */
  lemma DocExamplePieces(r0: seq<char>, r1: seq<char>, r2: seq<char>, r3: seq<char>, r4: seq<char>)
    requires r4 == ""
    requires r0 == "\\cmd" + r1
    requires r1 == "{" + r2
    requires r2 == "arg" + r3
    requires r3 == "}" + r4
    ensures LexTokens(r0) == ([Command("cmd"), LBrace, Text("arg"), RBrace], "")
  {
    hide LexToken, LexTokens, WellFormed, IsSuffix, Lexed;
    LexTokenFails(r4);
    LexTokensStops(r4);
    DocExampleFrom4(r3, r4, []);
    var ts3 := [RBrace] + [];
    assert r3[0] == '}';
    StructuralAhead(r3);
    DocExampleFrom1(r0, r1, r2, r3, ts3);
    var ts0 := [Command("cmd"), LBrace, Text("arg")] + ts3;
    assert ts0 == [Command("cmd"), LBrace, Text("arg"), RBrace];
  }

  /** The input of DocExample is the concatenation of its token spellings. */
  lemma DocExampleInput()
    ensures "\\cmd{arg}" ==
      "\\cmd" + ("{" + ("arg" + "}"))
  {
  }

  /** The example in the tokenizer's documentation: a command with a braced argument. */
  lemma DocExample()
    ensures LexTokens("\\cmd{arg}") == ([Command("cmd"), LBrace, Text("arg"), RBrace], "")
  {
    hide LexToken, LexTokens, WellFormed, IsSuffix, Lexed;
    DocExampleInput();
    var r4: seq<char> := "";
    var r3 := "}";
    var r2 := "arg" + r3;
    var r1 := "{" + r2;
    var r0 := "\\cmd" + r1;
    DocExamplePieces(r0, r1, r2, r3, r4);
  }

  /** Steps 1 to 3 of Tokens0, on any input split at the same token boundaries. */
  lemma Tokens0Steps(r0: seq<char>, r1: seq<char>, r2: seq<char>, r3: seq<char>, ts: seq<Token>)
    requires r0 == "\\[" + r1
    requires r1 == "1+2" + r2
    requires r2 == "\\]" + r3
    requires LexesBefore(EDisplayMath, r3)
    requires LexTokens(r3) == (ts, "")
    ensures LexTokens(r0) == ([BDisplayMath, Text("1+2"), EDisplayMath] + ts, "")
  {
    hide LexToken, LexTokens, IsSuffix, Lexed, TextAlphabet;
    RenderLexes(EDisplayMath, r3);
    LexTokensStep(r2, EDisplayMath, r3, ts, "");
    PlainTextAlphabet("1+2");
    assert r2[0] == '\\';
    StructuralAhead(r2);
    RenderLexes(Text("1+2"), r2);
    LexTokensStep(r1, Text("1+2"), r2, [EDisplayMath] + ts, "");
    assert [Text("1+2")] + ([EDisplayMath] + ts) == [Text("1+2"), EDisplayMath] + ts;
    RenderLexes(BDisplayMath, r1);
    LexTokensStep(r0, BDisplayMath, r1, [Text("1+2"), EDisplayMath] + ts, "");
    assert [BDisplayMath] + ([Text("1+2"), EDisplayMath] + ts) ==
      [BDisplayMath, Text("1+2"), EDisplayMath] + ts;
  }

  /** Display math around plain text lexes as three tokens. */
  lemma Tokens0()
    ensures LexTokens("\\[1+2\\]") == ([BDisplayMath, Text("1+2"), EDisplayMath], "")
  {
    hide LexToken, LexTokens, WellFormed, IsSuffix, Lexed;
    LexTokenFails("");
    LexTokensStops("");
    Tokens0Steps("\\[1+2\\]", "1+2\\]", "\\]", "", []);
    assert [BDisplayMath, Text("1+2"), EDisplayMath] + [] ==
      [BDisplayMath, Text("1+2"), EDisplayMath];
  }

  /** `\{\%\}` is a Text run: each backslash escapes the character after it. */
  lemma Tokens1Text10Alphabet()
    ensures TextAlphabet("\\{\\%\\}")
  {
    assert TextPositionOk("\\{\\%\\}", 0);
    assert TextPositionOk("\\{\\%\\}", 1);
    assert TextPositionOk("\\{\\%\\}", 2);
    assert TextPositionOk("\\{\\%\\}", 3);
    assert TextPositionOk("\\{\\%\\}", 4);
    assert TextPositionOk("\\{\\%\\}", 5);
  }

  /** Step 16 of Tokens1, on any input split at the same token boundary. */
  lemma Tokens1From16(r15: seq<char>, r16: seq<char>, ts: seq<Token>)
    requires r15 == "% comment" + r16
    requires LexesBefore(Comment(" comment"), r16)
    requires LexTokens(r16) == (ts, "")
    ensures LexTokens(r15) == ([Comment(" comment")] + ts, "")
  {
    hide LexToken, LexTokens, IsSuffix, Lexed, TextAlphabet;
    assert Render(Comment(" comment")) == "% comment";
    RenderLexes(Comment(" comment"), r16);
    LexTokensStep(r15, Comment(" comment"), r16, ts, "");
  }

  /** Steps 13 to 15 of Tokens1, on any input split at the same token boundaries. */
  lemma Tokens1From13(r12: seq<char>, r13: seq<char>, r14: seq<char>, r15: seq<char>,
    ts: seq<Token>)
    requires r12 == " " + r13
    requires r13 == "\\end" + r14
    requires r14 == " " + r15
    requires LexesBefore(Whitespace(" "), r15)
    requires LexTokens(r15) == (ts, "")
    ensures LexTokens(r12) == ([Whitespace(" "), Command("end"), Whitespace(" ")] + ts, "")
  {
    hide LexToken, LexTokens, IsSuffix, Lexed, TextAlphabet;
    RenderLexes(Whitespace(" "), r15);
    LexTokensStep(r14, Whitespace(" "), r15, ts, "");
    assert Render(Command("end")) == "\\end";
    assert r14[0] == ' ';
    RenderLexes(Command("end"), r14);
    LexTokensStep(r13, Command("end"), r14, [Whitespace(" ")] + ts, "");
    assert [Command("end")] + ([Whitespace(" ")] + ts) == [Command("end"), Whitespace(" ")] + ts;
    assert r13[0] == '\\';
    RenderLexes(Whitespace(" "), r13);
    LexTokensStep(r12, Whitespace(" "), r13, [Command("end"), Whitespace(" ")] + ts, "");
    assert [Whitespace(" ")] + ([Command("end"), Whitespace(" ")] + ts) ==
      [Whitespace(" "), Command("end"), Whitespace(" ")] + ts;
  }

  /** Steps 10 to 12 of Tokens1, on any input split at the same token boundaries. */
  lemma Tokens1From10(r9: seq<char>, r10: seq<char>, r11: seq<char>, r12: seq<char>, ts: seq<Token>)
    requires r9 == "\\{\\%\\}" + r10
    requires r10 == " \t" + r11
    requires r11 == "\n" + r12
    requires LexesBefore(Newline, r12)
    requires LexTokens(r12) == (ts, "")
    ensures LexTokens(r9) == ([Text("\\{\\%\\}"), Whitespace(" \t"), Newline] + ts, "")
  {
    hide LexToken, LexTokens, IsSuffix, Lexed, TextAlphabet;
    RenderLexes(Newline, r12);
    LexTokensStep(r11, Newline, r12, ts, "");
    assert r11[0] == '\n';
    RenderLexes(Whitespace(" \t"), r11);
    LexTokensStep(r10, Whitespace(" \t"), r11, [Newline] + ts, "");
    assert [Whitespace(" \t")] + ([Newline] + ts) == [Whitespace(" \t"), Newline] + ts;
    Tokens1Text10Alphabet();
    assert r10[0] == ' ';
    StructuralAhead(r10);
    RenderLexes(Text("\\{\\%\\}"), r10);
    LexTokensStep(r9, Text("\\{\\%\\}"), r10, [Whitespace(" \t"), Newline] + ts, "");
    assert [Text("\\{\\%\\}")] + ([Whitespace(" \t"), Newline] + ts) ==
      [Text("\\{\\%\\}"), Whitespace(" \t"), Newline] + ts;
  }

  /** Steps 7 to 9 of Tokens1, on any input split at the same token boundaries. */
  lemma Tokens1From7(r6: seq<char>, r7: seq<char>, r8: seq<char>, r9: seq<char>, ts: seq<Token>)
    requires r6 == "\t" + r7
    requires r7 == "text" + r8
    requires r8 == " " + r9
    requires LexesBefore(Whitespace(" "), r9)
    requires LexTokens(r9) == (ts, "")
    ensures LexTokens(r6) == ([Whitespace("\t"), Text("text"), Whitespace(" ")] + ts, "")
  {
    hide LexToken, LexTokens, IsSuffix, Lexed, TextAlphabet;
    RenderLexes(Whitespace(" "), r9);
    LexTokensStep(r8, Whitespace(" "), r9, ts, "");
    PlainTextAlphabet("text");
    assert r8[0] == ' ';
    StructuralAhead(r8);
    RenderLexes(Text("text"), r8);
    LexTokensStep(r7, Text("text"), r8, [Whitespace(" ")] + ts, "");
    assert [Text("text")] + ([Whitespace(" ")] + ts) == [Text("text"), Whitespace(" ")] + ts;
    assert r7[0] == 't';
    RenderLexes(Whitespace("\t"), r7);
    LexTokensStep(r6, Whitespace("\t"), r7, [Text("text"), Whitespace(" ")] + ts, "");
    assert [Whitespace("\t")] + ([Text("text"), Whitespace(" ")] + ts) ==
      [Whitespace("\t"), Text("text"), Whitespace(" ")] + ts;
  }

  /** Steps 4 to 6 of Tokens1, on any input split at the same token boundaries. */
  lemma Tokens1From4(r3: seq<char>, r4: seq<char>, r5: seq<char>, r6: seq<char>, ts: seq<Token>)
    requires r3 == "}" + r4
    requires r4 == " " + r5
    requires r5 == "some" + r6
    requires LexesBefore(Text("some"), r6)
    requires LexTokens(r6) == (ts, "")
    ensures LexTokens(r3) == ([RBrace, Whitespace(" "), Text("some")] + ts, "")
  {
    hide LexToken, LexTokens, IsSuffix, Lexed, TextAlphabet;
    PlainTextAlphabet("some");
    RenderLexes(Text("some"), r6);
    LexTokensStep(r5, Text("some"), r6, ts, "");
    assert r5[0] == 's';
    RenderLexes(Whitespace(" "), r5);
    LexTokensStep(r4, Whitespace(" "), r5, [Text("some")] + ts, "");
    assert [Whitespace(" ")] + ([Text("some")] + ts) == [Whitespace(" "), Text("some")] + ts;
    RenderLexes(RBrace, r4);
    LexTokensStep(r3, RBrace, r4, [Whitespace(" "), Text("some")] + ts, "");
    assert [RBrace] + ([Whitespace(" "), Text("some")] + ts) ==
      [RBrace, Whitespace(" "), Text("some")] + ts;
  }

  /** Steps 1 to 3 of Tokens1, on any input split at the same token boundaries. */
  lemma Tokens1From1(r0: seq<char>, r1: seq<char>, r2: seq<char>, r3: seq<char>, ts: seq<Token>)
    requires r0 == "\\cmd" + r1
    requires r1 == "{" + r2
    requires r2 == "arg" + r3
    requires LexesBefore(Text("arg"), r3)
    requires LexTokens(r3) == (ts, "")
    ensures LexTokens(r0) == ([Command("cmd"), LBrace, Text("arg")] + ts, "")
  {
    hide LexToken, LexTokens, IsSuffix, Lexed, TextAlphabet;
    PlainTextAlphabet("arg");
    RenderLexes(Text("arg"), r3);
    LexTokensStep(r2, Text("arg"), r3, ts, "");
    RenderLexes(LBrace, r2);
    LexTokensStep(r1, LBrace, r2, [Text("arg")] + ts, "");
    assert [LBrace] + ([Text("arg")] + ts) == [LBrace, Text("arg")] + ts;
    assert Render(Command("cmd")) == "\\cmd";
    assert r1[0] == '{';
    RenderLexes(Command("cmd"), r1);
    LexTokensStep(r0, Command("cmd"), r1, [LBrace, Text("arg")] + ts, "");
    assert [Command("cmd")] + ([LBrace, Text("arg")] + ts) ==
      [Command("cmd"), LBrace, Text("arg")] + ts;
  }

  /** The tokens of Tokens1, for the input split at its token boundaries. */
  lemma Tokens1Pieces(r0: seq<char>, r1: seq<char>, r2: seq<char>, r3: seq<char>, r4: seq<char>,
    r5: seq<char>, r6: seq<char>, r7: seq<char>, r8: seq<char>, r9: seq<char>,
    r10: seq<char>, r11: seq<char>, r12: seq<char>, r13: seq<char>,
    r14: seq<char>, r15: seq<char>, r16: seq<char>)
    requires r16 == ""
    requires r0 == "\\cmd" + r1
    requires r1 == "{" + r2
    requires r2 == "arg" + r3
    requires r3 == "}" + r4
    requires r4 == " " + r5
    requires r5 == "some" + r6
    requires r6 == "\t" + r7
    requires r7 == "text" + r8
    requires r8 == " " + r9
    requires r9 == "\\{\\%\\}" + r10
    requires r10 == " \t" + r11
    requires r11 == "\n" + r12
    requires r12 == " " + r13
    requires r13 == "\\end" + r14
    requires r14 == " " + r15
    requires r15 == "% comment" + r16
    ensures LexTokens(r0) ==
      ([Command("cmd"), LBrace, Text("arg"), RBrace, Whitespace(" "), Text("some"),
        Whitespace("\t"), Text("text"), Whitespace(" "), Text("\\{\\%\\}"), Whitespace(" \t"),
        Newline, Whitespace(" "), Command("end"), Whitespace(" "), Comment(" comment")], "")
  {
    hide LexToken, LexTokens, WellFormed, IsSuffix, Lexed;
    LexTokenFails(r16);
    LexTokensStops(r16);
    Tokens1From16(r15, r16, []);
    var ts15 := [Comment(" comment")] + [];
    Tokens1From13(r12, r13, r14, r15, ts15);
    var ts12 := [Whitespace(" "), Command("end"), Whitespace(" ")] + ts15;
    Tokens1From10(r9, r10, r11, r12, ts12);
    var ts9 := [Text("\\{\\%\\}"), Whitespace(" \t"), Newline] + ts12;
    Tokens1From7(r6, r7, r8, r9, ts9);
    var ts6 := [Whitespace("\t"), Text("text"), Whitespace(" ")] + ts9;
    assert r6[0] == '\t';
    StructuralAhead(r6);
    Tokens1From4(r3, r4, r5, r6, ts6);
    var ts3 := [RBrace, Whitespace(" "), Text("some")] + ts6;
    assert r3[0] == '}';
    StructuralAhead(r3);
    Tokens1From1(r0, r1, r2, r3, ts3);
    var ts0 := [Command("cmd"), LBrace, Text("arg")] + ts3;
    assert ts0 ==
      [Command("cmd"), LBrace, Text("arg"), RBrace, Whitespace(" "), Text("some"),
       Whitespace("\t"), Text("text"), Whitespace(" "), Text("\\{\\%\\}"), Whitespace(" \t"),
       Newline, Whitespace(" "), Command("end"), Whitespace(" "), Comment(" comment")];
  }

  /** The input of Tokens1 is the concatenation of its token spellings. */
  lemma Tokens1Input()
    ensures "\\cmd{arg} some\ttext \\{\\%\\} \t\n \\end % comment" ==
      "\\cmd" + ("{" + ("arg" + ("}" + (" " + ("some" + ("\t" + ("text" + (" " + ("\\{\\%\\}" + (
      " \t" + ("\n" + (" " + ("\\end" + (" " + "% comment"))))))))))))))
  {
  }

  /** A command, braces, text with escapes, blanks, a line break and a trailing comment. */
  lemma Tokens1()
    ensures LexTokens("\\cmd{arg} some\ttext \\{\\%\\} \t\n \\end % comment") ==
      ([Command("cmd"), LBrace, Text("arg"), RBrace, Whitespace(" "), Text("some"),
        Whitespace("\t"), Text("text"), Whitespace(" "), Text("\\{\\%\\}"), Whitespace(" \t"),
        Newline, Whitespace(" "), Command("end"), Whitespace(" "), Comment(" comment")], "")
  {
    hide LexToken, LexTokens, WellFormed, IsSuffix, Lexed;
    Tokens1Input();
    var r16: seq<char> := "";
    var r15 := "% comment";
    var r14 := " " + r15;
    var r13 := "\\end" + r14;
    var r12 := " " + r13;
    var r11 := "\n" + r12;
    var r10 := " \t" + r11;
    var r9 := "\\{\\%\\}" + r10;
    var r8 := " " + r9;
    var r7 := "text" + r8;
    var r6 := "\t" + r7;
    var r5 := "some" + r6;
    var r4 := " " + r5;
    var r3 := "}" + r4;
    var r2 := "arg" + r3;
    var r1 := "{" + r2;
    var r0 := "\\cmd" + r1;
    Tokens1Pieces(r0, r1, r2, r3, r4, r5, r6, r7, r8, r9, r10, r11, r12, r13, r14, r15, r16);
  }

  /** Steps 13 to 15 of Tokens2, on any input split at the same token boundaries. */
  lemma Tokens2From13(r12: seq<char>, r13: seq<char>, r14: seq<char>, r15: seq<char>,
    ts: seq<Token>)
    requires r12 == "\\[" + r13
    requires r13 == "1+2" + r14
    requires r14 == "\\]" + r15
    requires LexesBefore(EDisplayMath, r15)
    requires LexTokens(r15) == (ts, "")
    ensures LexTokens(r12) == ([BDisplayMath, Text("1+2"), EDisplayMath] + ts, "")
  {
    hide LexToken, LexTokens, IsSuffix, Lexed, TextAlphabet;
    RenderLexes(EDisplayMath, r15);
    LexTokensStep(r14, EDisplayMath, r15, ts, "");
    PlainTextAlphabet("1+2");
    assert r14[0] == '\\';
    StructuralAhead(r14);
    RenderLexes(Text("1+2"), r14);
    LexTokensStep(r13, Text("1+2"), r14, [EDisplayMath] + ts, "");
    assert [Text("1+2")] + ([EDisplayMath] + ts) == [Text("1+2"), EDisplayMath] + ts;
    RenderLexes(BDisplayMath, r13);
    LexTokensStep(r12, BDisplayMath, r13, [Text("1+2"), EDisplayMath] + ts, "");
    assert [BDisplayMath] + ([Text("1+2"), EDisplayMath] + ts) ==
      [BDisplayMath, Text("1+2"), EDisplayMath] + ts;
  }

  /** Steps 10 to 12 of Tokens2, on any input split at the same token boundaries. */
  lemma Tokens2From10(r9: seq<char>, r10: seq<char>, r11: seq<char>, r12: seq<char>, ts: seq<Token>)
    requires r9 == "1+2" + r10
    requires r10 == "$$" + r11
    requires r11 == " " + r12
    requires LexesBefore(Whitespace(" "), r12)
    requires LexTokens(r12) == (ts, "")
    ensures LexTokens(r9) == ([Text("1+2"), TDisplayMath, Whitespace(" ")] + ts, "")
  {
    hide LexToken, LexTokens, IsSuffix, Lexed, TextAlphabet;
    RenderLexes(Whitespace(" "), r12);
    LexTokensStep(r11, Whitespace(" "), r12, ts, "");
    RenderLexes(TDisplayMath, r11);
    LexTokensStep(r10, TDisplayMath, r11, [Whitespace(" ")] + ts, "");
    assert [TDisplayMath] + ([Whitespace(" ")] + ts) == [TDisplayMath, Whitespace(" ")] + ts;
    PlainTextAlphabet("1+2");
    assert r10[0] == '$';
    StructuralAhead(r10);
    RenderLexes(Text("1+2"), r10);
    LexTokensStep(r9, Text("1+2"), r10, [TDisplayMath, Whitespace(" ")] + ts, "");
    assert [Text("1+2")] + ([TDisplayMath, Whitespace(" ")] + ts) ==
      [Text("1+2"), TDisplayMath, Whitespace(" ")] + ts;
  }

  /** Steps 7 to 9 of Tokens2, on any input split at the same token boundaries. */
  lemma Tokens2From7(r6: seq<char>, r7: seq<char>, r8: seq<char>, r9: seq<char>, ts: seq<Token>)
    requires r6 == "$" + r7
    requires r7 == "\\\\" + r8
    requires r8 == "$$" + r9
    requires LexesBefore(TDisplayMath, r9)
    requires LexTokens(r9) == (ts, "")
    ensures LexTokens(r6) == ([InlineMath, Endline, TDisplayMath] + ts, "")
  {
    hide LexToken, LexTokens, IsSuffix, Lexed, TextAlphabet;
    RenderLexes(TDisplayMath, r9);
    LexTokensStep(r8, TDisplayMath, r9, ts, "");
    RenderLexes(Endline, r8);
    LexTokensStep(r7, Endline, r8, [TDisplayMath] + ts, "");
    assert [Endline] + ([TDisplayMath] + ts) == [Endline, TDisplayMath] + ts;
    assert r7[0] == '\\';
    RenderLexes(InlineMath, r7);
    LexTokensStep(r6, InlineMath, r7, [Endline, TDisplayMath] + ts, "");
    assert [InlineMath] + ([Endline, TDisplayMath] + ts) ==
      [InlineMath, Endline, TDisplayMath] + ts;
  }

  /** Steps 4 to 6 of Tokens2, on any input split at the same token boundaries. */
  lemma Tokens2From4(r3: seq<char>, r4: seq<char>, r5: seq<char>, r6: seq<char>, ts: seq<Token>)
    requires r3 == "}" + r4
    requires r4 == "$" + r5
    requires r5 == "1+2" + r6
    requires LexesBefore(Text("1+2"), r6)
    requires LexTokens(r6) == (ts, "")
    ensures LexTokens(r3) == ([RBrace, InlineMath, Text("1+2")] + ts, "")
  {
    hide LexToken, LexTokens, IsSuffix, Lexed, TextAlphabet;
    PlainTextAlphabet("1+2");
    RenderLexes(Text("1+2"), r6);
    LexTokensStep(r5, Text("1+2"), r6, ts, "");
    assert r5[0] == '1';
    RenderLexes(InlineMath, r5);
    LexTokensStep(r4, InlineMath, r5, [Text("1+2")] + ts, "");
    assert [InlineMath] + ([Text("1+2")] + ts) == [InlineMath, Text("1+2")] + ts;
    RenderLexes(RBrace, r4);
    LexTokensStep(r3, RBrace, r4, [InlineMath, Text("1+2")] + ts, "");
    assert [RBrace] + ([InlineMath, Text("1+2")] + ts) == [RBrace, InlineMath, Text("1+2")] + ts;
  }

  /** Steps 1 to 3 of Tokens2, on any input split at the same token boundaries. */
  lemma Tokens2From1(r0: seq<char>, r1: seq<char>, r2: seq<char>, r3: seq<char>, ts: seq<Token>)
    requires r0 == "\\cmd" + r1
    requires r1 == "{" + r2
    requires r2 == "arg" + r3
    requires LexesBefore(Text("arg"), r3)
    requires LexTokens(r3) == (ts, "")
    ensures LexTokens(r0) == ([Command("cmd"), LBrace, Text("arg")] + ts, "")
  {
    hide LexToken, LexTokens, IsSuffix, Lexed, TextAlphabet;
    PlainTextAlphabet("arg");
    RenderLexes(Text("arg"), r3);
    LexTokensStep(r2, Text("arg"), r3, ts, "");
    RenderLexes(LBrace, r2);
    LexTokensStep(r1, LBrace, r2, [Text("arg")] + ts, "");
    assert [LBrace] + ([Text("arg")] + ts) == [LBrace, Text("arg")] + ts;
    assert Render(Command("cmd")) == "\\cmd";
    assert r1[0] == '{';
    RenderLexes(Command("cmd"), r1);
    LexTokensStep(r0, Command("cmd"), r1, [LBrace, Text("arg")] + ts, "");
    assert [Command("cmd")] + ([LBrace, Text("arg")] + ts) ==
      [Command("cmd"), LBrace, Text("arg")] + ts;
  }

  /** The tokens of Tokens2, for the input split at its token boundaries. */
  lemma Tokens2Pieces(r0: seq<char>, r1: seq<char>, r2: seq<char>, r3: seq<char>, r4: seq<char>,
    r5: seq<char>, r6: seq<char>, r7: seq<char>, r8: seq<char>, r9: seq<char>,
    r10: seq<char>, r11: seq<char>, r12: seq<char>, r13: seq<char>,
    r14: seq<char>, r15: seq<char>)
    requires r15 == ""
    requires r0 == "\\cmd" + r1
    requires r1 == "{" + r2
    requires r2 == "arg" + r3
    requires r3 == "}" + r4
    requires r4 == "$" + r5
    requires r5 == "1+2" + r6
    requires r6 == "$" + r7
    requires r7 == "\\\\" + r8
    requires r8 == "$$" + r9
    requires r9 == "1+2" + r10
    requires r10 == "$$" + r11
    requires r11 == " " + r12
    requires r12 == "\\[" + r13
    requires r13 == "1+2" + r14
    requires r14 == "\\]" + r15
    ensures LexTokens(r0) ==
      ([Command("cmd"), LBrace, Text("arg"), RBrace, InlineMath, Text("1+2"), InlineMath, Endline,
        TDisplayMath, Text("1+2"), TDisplayMath, Whitespace(" "), BDisplayMath, Text("1+2"),
        EDisplayMath], "")
  {
    hide LexToken, LexTokens, WellFormed, IsSuffix, Lexed;
    LexTokenFails(r15);
    LexTokensStops(r15);
    Tokens2From13(r12, r13, r14, r15, []);
    var ts12 := [BDisplayMath, Text("1+2"), EDisplayMath] + [];
    Tokens2From10(r9, r10, r11, r12, ts12);
    var ts9 := [Text("1+2"), TDisplayMath, Whitespace(" ")] + ts12;
    Tokens2From7(r6, r7, r8, r9, ts9);
    var ts6 := [InlineMath, Endline, TDisplayMath] + ts9;
    assert r6[0] == '$';
    StructuralAhead(r6);
    Tokens2From4(r3, r4, r5, r6, ts6);
    var ts3 := [RBrace, InlineMath, Text("1+2")] + ts6;
    assert r3[0] == '}';
    StructuralAhead(r3);
    Tokens2From1(r0, r1, r2, r3, ts3);
    var ts0 := [Command("cmd"), LBrace, Text("arg")] + ts3;
    assert ts0 ==
      [Command("cmd"), LBrace, Text("arg"), RBrace, InlineMath, Text("1+2"), InlineMath, Endline,
       TDisplayMath, Text("1+2"), TDisplayMath, Whitespace(" "), BDisplayMath, Text("1+2"),
       EDisplayMath];
  }

  /** The input of Tokens2 is the concatenation of its token spellings. */
  lemma Tokens2Input()
    ensures "\\cmd{arg}$1+2$\\\\$$1+2$$ \\[1+2\\]" ==
      "\\cmd" + ("{" + ("arg" + ("}" + ("$" + ("1+2" + ("$" + ("\\\\" + ("$$" + ("1+2" + ("$$" + (
      " " + ("\\[" + ("1+2" + "\\]")))))))))))))
  {
  }

  /** Inline math, a line break, display math with `$$` and with brackets. */
  lemma Tokens2()
    ensures LexTokens("\\cmd{arg}$1+2$\\\\$$1+2$$ \\[1+2\\]") ==
      ([Command("cmd"), LBrace, Text("arg"), RBrace, InlineMath, Text("1+2"), InlineMath, Endline,
        TDisplayMath, Text("1+2"), TDisplayMath, Whitespace(" "), BDisplayMath, Text("1+2"),
        EDisplayMath], "")
  {
    hide LexToken, LexTokens, WellFormed, IsSuffix, Lexed;
    Tokens2Input();
    var r15: seq<char> := "";
    var r14 := "\\]";
    var r13 := "1+2" + r14;
    var r12 := "\\[" + r13;
    var r11 := " " + r12;
    var r10 := "$$" + r11;
    var r9 := "1+2" + r10;
    var r8 := "$$" + r9;
    var r7 := "\\\\" + r8;
    var r6 := "$" + r7;
    var r5 := "1+2" + r6;
    var r4 := "$" + r5;
    var r3 := "}" + r4;
    var r2 := "arg" + r3;
    var r1 := "{" + r2;
    var r0 := "\\cmd" + r1;
    Tokens2Pieces(r0, r1, r2, r3, r4, r5, r6, r7, r8, r9, r10, r11, r12, r13, r14, r15);
  }

  /** Steps 1 to 2 of EndlineThenText, on any input split at the same token boundaries. */
  lemma EndlineThenTextSteps(r0: seq<char>, r1: seq<char>, r2: seq<char>, ts: seq<Token>)
    requires r0 == "\\\\" + r1
    requires r1 == "cmd" + r2
    requires LexesBefore(Text("cmd"), r2)
    requires LexTokens(r2) == (ts, "")
    ensures LexTokens(r0) == ([Endline, Text("cmd")] + ts, "")
  {
    hide LexToken, LexTokens, IsSuffix, Lexed, TextAlphabet;
    PlainTextAlphabet("cmd");
    RenderLexes(Text("cmd"), r2);
    LexTokensStep(r1, Text("cmd"), r2, ts, "");
    RenderLexes(Endline, r1);
    LexTokensStep(r0, Endline, r1, [Text("cmd")] + ts, "");
    assert [Endline] + ([Text("cmd")] + ts) == [Endline, Text("cmd")] + ts;
  }

  /**
   * Two backslashes before letters are a line break; the letters after it are
   * plain text, not a command.
   */
  lemma EndlineThenText()
    ensures LexTokens("\\\\cmd") == ([Endline, Text("cmd")], "")
  {
    hide LexToken, LexTokens, WellFormed, IsSuffix, Lexed;
    LexTokenFails("");
    LexTokensStops("");
    EndlineThenTextSteps("\\\\cmd", "cmd", "", []);
    assert [Endline, Text("cmd")] + [] == [Endline, Text("cmd")];
  }

  /** Steps 1 to 3 of CarriageReturnInText, on any input split at the same token boundaries. */
  lemma CarriageReturnInTextSteps(r0: seq<char>, r1: seq<char>, r2: seq<char>, r3: seq<char>,
    ts: seq<Token>)
    requires r0 == "a\r" + r1
    requires r1 == "\n" + r2
    requires r2 == "b" + r3
    requires LexesBefore(Text("b"), r3)
    requires LexTokens(r3) == (ts, "")
    ensures LexTokens(r0) == ([Text("a\r"), Newline, Text("b")] + ts, "")
  {
    hide LexToken, LexTokens, IsSuffix, Lexed, TextAlphabet;
    PlainTextAlphabet("b");
    RenderLexes(Text("b"), r3);
    LexTokensStep(r2, Text("b"), r3, ts, "");
    RenderLexes(Newline, r2);
    LexTokensStep(r1, Newline, r2, [Text("b")] + ts, "");
    assert [Newline] + ([Text("b")] + ts) == [Newline, Text("b")] + ts;
    PlainTextAlphabet("a\r");
    assert r1[0] == '\n';
    StructuralAhead(r1);
    RenderLexes(Text("a\r"), r1);
    LexTokensStep(r0, Text("a\r"), r1, [Newline, Text("b")] + ts, "");
    assert [Text("a\r")] + ([Newline, Text("b")] + ts) == [Text("a\r"), Newline, Text("b")] + ts;
  }

  /**
   * The carriage return of `\r\n` that ends a text run stays in the text; the
   * line feed is the newline.
   */
  lemma CarriageReturnInText()
    ensures LexTokens("a\r\nb") == ([Text("a\r"), Newline, Text("b")], "")
  {
    hide LexToken, LexTokens, WellFormed, IsSuffix, Lexed;
    LexTokenFails("");
    LexTokensStops("");
    CarriageReturnInTextSteps("a\r\nb", "\nb", "b", "", []);
    assert [Text("a\r"), Newline, Text("b")] + [] == [Text("a\r"), Newline, Text("b")];
  }

  /** Steps 1 to 2 of CarriageReturnStartsText, on any input split at the same token boundaries. */
  lemma CarriageReturnStartsTextSteps(r0: seq<char>, r1: seq<char>, r2: seq<char>, ts: seq<Token>)
    requires r0 == "\n" + r1
    requires r1 == "\rx" + r2
    requires LexesBefore(Text("\rx"), r2)
    requires LexTokens(r2) == (ts, "")
    ensures LexTokens(r0) == ([Newline, Text("\rx")] + ts, "")
  {
    hide LexToken, LexTokens, IsSuffix, Lexed, TextAlphabet;
    PlainTextAlphabet("\rx");
    RenderLexes(Text("\rx"), r2);
    LexTokensStep(r1, Text("\rx"), r2, ts, "");
    RenderLexes(Newline, r1);
    LexTokensStep(r0, Newline, r1, [Text("\rx")] + ts, "");
    assert [Newline] + ([Text("\rx")] + ts) == [Newline, Text("\rx")] + ts;
  }

  /** A carriage return not followed by a line feed is Text, even at the start of a line. */
  lemma CarriageReturnStartsText()
    ensures LexTokens("\n\rx") == ([Newline, Text("\rx")], "")
  {
    hide LexToken, LexTokens, WellFormed, IsSuffix, Lexed;
    LexTokenFails("");
    LexTokensStops("");
    CarriageReturnStartsTextSteps("\n\rx", "\rx", "", []);
    assert [Newline, Text("\rx")] + [] == [Newline, Text("\rx")];
  }

  /** Step 1 of TrailingBackslash, on any input split at the same token boundary. */
  lemma TrailingBackslashSteps(r0: seq<char>, r1: seq<char>, ts: seq<Token>)
    requires r0 == "a" + r1
    requires LexesBefore(Text("a"), r1)
    requires LexTokens(r1) == (ts, "\\")
    ensures LexTokens(r0) == ([Text("a")] + ts, "\\")
  {
    hide LexToken, LexTokens, IsSuffix, Lexed, TextAlphabet;
    PlainTextAlphabet("a");
    RenderLexes(Text("a"), r1);
    LexTokensStep(r0, Text("a"), r1, ts, "\\");
  }

  /** A backslash at the end of input stops the lexer after the text before it. */
  lemma TrailingBackslash()
    ensures LexTokens("a\\") == ([Text("a")], "\\")
  {
    hide LexToken, LexTokens, WellFormed, IsSuffix, Lexed;
    LexTokenFails("\\");
    LexTokensStops("\\");
    TrailingBackslashSteps("a\\", "\\", []);
    assert [Text("a")] + [] == [Text("a")];
  }

  /** Steps 1 to 2 of EmptyComment, on any input split at the same token boundaries. */
  lemma EmptyCommentSteps(r0: seq<char>, r1: seq<char>, r2: seq<char>, ts: seq<Token>)
    requires r0 == "%" + r1
    requires r1 == "\n" + r2
    requires LexesBefore(Newline, r2)
    requires LexTokens(r2) == (ts, "")
    ensures LexTokens(r0) == ([Comment(""), Newline] + ts, "")
  {
    hide LexToken, LexTokens, IsSuffix, Lexed, TextAlphabet;
    RenderLexes(Newline, r2);
    LexTokensStep(r1, Newline, r2, ts, "");
    assert Render(Comment("")) == "%";
    RenderLexes(Comment(""), r1);
    LexTokensStep(r0, Comment(""), r1, [Newline] + ts, "");
    assert [Comment("")] + ([Newline] + ts) == [Comment(""), Newline] + ts;
  }

  /** A comment may be empty: `%` directly before a line feed. */
  lemma EmptyComment()
    ensures LexTokens("%\n") == ([Comment(""), Newline], "")
  {
    hide LexToken, LexTokens, WellFormed, IsSuffix, Lexed;
    LexTokenFails("");
    LexTokensStops("");
    EmptyCommentSteps("%\n", "\n", "", []);
    assert [Comment(""), Newline] + [] == [Comment(""), Newline];
  }

  /** Step 4 of BlanksAroundNewline, on any input split at the same token boundary. */
  lemma BlanksAroundNewlineFrom4(r3: seq<char>, r4: seq<char>, ts: seq<Token>)
    requires r3 == "\\end" + r4
    requires LexesBefore(Command("end"), r4)
    requires LexTokens(r4) == (ts, "")
    ensures LexTokens(r3) == ([Command("end")] + ts, "")
  {
    hide LexToken, LexTokens, IsSuffix, Lexed, TextAlphabet;
    assert Render(Command("end")) == "\\end";
    RenderLexes(Command("end"), r4);
    LexTokensStep(r3, Command("end"), r4, ts, "");
  }

  /** Steps 1 to 3 of BlanksAroundNewline, on any input split at the same token boundaries. */
  lemma BlanksAroundNewlineFrom1(r0: seq<char>, r1: seq<char>, r2: seq<char>, r3: seq<char>,
    ts: seq<Token>)
    requires r0 == " \t" + r1
    requires r1 == "\n" + r2
    requires r2 == " " + r3
    requires LexesBefore(Whitespace(" "), r3)
    requires LexTokens(r3) == (ts, "")
    ensures LexTokens(r0) == ([Whitespace(" \t"), Newline, Whitespace(" ")] + ts, "")
  {
    hide LexToken, LexTokens, IsSuffix, Lexed, TextAlphabet;
    RenderLexes(Whitespace(" "), r3);
    LexTokensStep(r2, Whitespace(" "), r3, ts, "");
    RenderLexes(Newline, r2);
    LexTokensStep(r1, Newline, r2, [Whitespace(" ")] + ts, "");
    assert [Newline] + ([Whitespace(" ")] + ts) == [Newline, Whitespace(" ")] + ts;
    assert r1[0] == '\n';
    RenderLexes(Whitespace(" \t"), r1);
    LexTokensStep(r0, Whitespace(" \t"), r1, [Newline, Whitespace(" ")] + ts, "");
    assert [Whitespace(" \t")] + ([Newline, Whitespace(" ")] + ts) ==
      [Whitespace(" \t"), Newline, Whitespace(" ")] + ts;
  }

  /** The tokens of BlanksAroundNewline, for the input split at its token boundaries. */
  lemma BlanksAroundNewlinePieces(r0: seq<char>, r1: seq<char>, r2: seq<char>, r3: seq<char>,
    r4: seq<char>)
    requires r4 == ""
    requires r0 == " \t" + r1
    requires r1 == "\n" + r2
    requires r2 == " " + r3
    requires r3 == "\\end" + r4
    ensures LexTokens(r0) == ([Whitespace(" \t"), Newline, Whitespace(" "), Command("end")], "")
  {
    hide LexToken, LexTokens, WellFormed, IsSuffix, Lexed;
    LexTokenFails(r4);
    LexTokensStops(r4);
    BlanksAroundNewlineFrom4(r3, r4, []);
    var ts3 := [Command("end")] + [];
    BlanksAroundNewlineFrom1(r0, r1, r2, r3, ts3);
    var ts0 := [Whitespace(" \t"), Newline, Whitespace(" ")] + ts3;
    assert ts0 == [Whitespace(" \t"), Newline, Whitespace(" "), Command("end")];
  }

  /** The input of BlanksAroundNewline is the concatenation of its token spellings. */
  lemma BlanksAroundNewlineInput()
    ensures " \t\n \\end" ==
      " \t" + ("\n" + (" " + "\\end"))
  {
  }

  /**
   * Blanks on either side of a line feed are separate tokens; the line feed is
   * never part of a whitespace run.
   */
  lemma BlanksAroundNewline()
    ensures LexTokens(" \t\n \\end") ==
      ([Whitespace(" \t"), Newline, Whitespace(" "), Command("end")], "")
  {
    hide LexToken, LexTokens, WellFormed, IsSuffix, Lexed;
    BlanksAroundNewlineInput();
    var r4: seq<char> := "";
    var r3 := "\\end";
    var r2 := " " + r3;
    var r1 := "\n" + r2;
    var r0 := " \t" + r1;
    BlanksAroundNewlinePieces(r0, r1, r2, r3, r4);
  }

  /** Step 1 of BracketsInText, on any input split at the same token boundary. */
  lemma BracketsInTextSteps(r0: seq<char>, r1: seq<char>, ts: seq<Token>)
    requires r0 == "a[b]" + r1
    requires LexesBefore(Text("a[b]"), r1)
    requires LexTokens(r1) == (ts, "")
    ensures LexTokens(r0) == ([Text("a[b]")] + ts, "")
  {
    hide LexToken, LexTokens, IsSuffix, Lexed, TextAlphabet;
    PlainTextAlphabet("a[b]");
    RenderLexes(Text("a[b]"), r1);
    LexTokensStep(r0, Text("a[b]"), r1, ts, "");
  }

  /** Brackets after the first character of a text run stay in the run. */
  lemma BracketsInText()
    ensures LexTokens("a[b]") == ([Text("a[b]")], "")
  {
    hide LexToken, LexTokens, WellFormed, IsSuffix, Lexed;
    LexTokenFails("");
    LexTokensStops("");
    BracketsInTextSteps("a[b]", "", []);
    assert [Text("a[b]")] + [] == [Text("a[b]")];
  }

  // ------------------------------------------------- single recognisers

  /** `lex_command` reads `\cmd` off `\cmd{arg}` and rejects `\\cmd`. */
  lemma CommandRecogniser()
    ensures LexCommand("\\cmd{arg}") == Some((Command("cmd"), "{arg}"))
    ensures LexCommand("\\\\cmd").None?
  {
    hide LexToken, LexTokens, WellFormed, IsSuffix;
    LexCommandReads("cmd", "{arg}");
    assert "\\cmd{arg}" == "\\" + "cmd" + "{arg}";
  }

  /** `lex_math` on each of the four math delimiters. */
  lemma MathRecogniser()
    ensures LexMath("\\[1+2\\]") == Some((BDisplayMath, "1+2\\]"))
    ensures LexMath("\\]asd") == Some((EDisplayMath, "asd"))
    ensures LexMath("$$1+2$$") == Some((TDisplayMath, "1+2$$"))
    ensures LexMath("$1+2$") == Some((InlineMath, "1+2$"))
  {
    hide LexToken, LexTokens, WellFormed, IsSuffix;
  }

  /** `lex_comment` stops at the end of input or before the line feed. */
  lemma CommentRecogniser()
    ensures LexComment("% hello world") == Some((Comment(" hello world"), ""))
    ensures LexComment("% hello world\n") == Some((Comment(" hello world"), "\n"))
  {
    hide LexToken, LexTokens, WellFormed, IsSuffix, LexComment, LineLen, Lexed, BareCarriageReturnAhead;
    LexCommentReads(" hello world", "");
    assert "% hello world" == "%" + " hello world" + "";
    LexCommentReads(" hello world", "\n");
    assert "% hello world\n" == "%" + " hello world" + "\n";
  }

  /** `lex_text` stops before `$`. */
  lemma TextRecogniser()
    ensures LexText("asd$") == Some((Text("asd"), "$"))
    ensures LexText("1+2$") == Some((Text("1+2"), "$"))
  {
    hide LexToken, LexTokens, WellFormed, IsSuffix, LexText, TextRunLen;
    PlainTextAlphabet("asd");
    LexTextReads("asd", "$");
    assert "asd$" == "asd" + "$";
    PlainTextAlphabet("1+2");
    LexTextReads("1+2", "$");
    assert "1+2$" == "1+2" + "$";
  }

  /** The escapes `\,`, `\&` and `\;` are text; an opening display bracket is not. */
  lemma EscapedTextRecogniser()
    ensures LexText("(\\,\\&\\;)\\[") == Some((Text("(\\,\\&\\;)"), "\\["))
  {
    hide LexToken, LexTokens, WellFormed, IsSuffix, LexText, TextRunLen;
    var w := "(\\,\\&\\;)";
    assert TextAlphabet(w) by {
      assert TextPositionOk(w, 0);
      assert TextPositionOk(w, 1);
      assert TextPositionOk(w, 2);
      assert TextPositionOk(w, 3);
      assert TextPositionOk(w, 4);
      assert TextPositionOk(w, 5);
      assert TextPositionOk(w, 6);
      assert TextPositionOk(w, 7);
    }
    LexTextReads(w, "\\[");
    assert "(\\,\\&\\;)\\[" == w + "\\[";
  }

  // ------------------------------------------------------- stuck inputs

  /** A backslash before a digit is no token at all: the lexer stops at once. */
  lemma UnknownEscape()
    ensures LexTokens("\\1") == ([], "\\1")
  {
    hide LexToken, LexTokens, WellFormed, IsSuffix;
    LexTokenFails("\\1");
    LexTokensStops("\\1");
  }

  /** A comment whose line ends in a lone carriage return is no token: the lexer stops at the `%`. */
  lemma LoneCarriageReturnInComment()
    ensures LexTokens("%a\rb") == ([], "%a\rb")
  {
    hide LexToken, LexTokens, WellFormed, IsSuffix;
    var s := "%a\rb";
    var line := s[1..];
    assert line == "a\rb";
    assert IsLine(line[..1]) by {
      assert line[..1] == "a";
    }
    assert line[1] == '\r' && line[2] != '\n';
    LexTokenFails(s);
    LexTokensStops(s);
  }
}
