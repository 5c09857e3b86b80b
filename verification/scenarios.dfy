/**
  The scenarios of the repository's tokenizer tests (code/test/tokenizer.cpp), stated on the
  model, and a few inputs that show behaviour worth knowing.

  Each scenario is an instance of the general lemmas, never an evaluation of `Initialize` on
  a literal. So the literals are written in the pieces those lemmas' conclusions are made of:
  a test's text is split where a lemma splits it (`"[" + "" + "/"`), and a list of lexemes
  or separators is built one element at a time (`[a] + [b] + ...`), the shape `Render` and
  `EmitAll` unfold into. The facts about the literal pieces, such as which texts are valid
  or what they concatenate to, sit in small lemmas of their own next to the scenario.
 */
module Scenarios {
  import opened Wrappers
  import opened Tokens
  import opened ScannerBase
  import opened Lexemes
  import opened Tokenizer
  import opened ScanLaws
  import opened RoundTrip
  import opened EndOfInput
  import opened ScanErrors
  import NumberScanner
  import TagScanner

  /** One more valid lexeme keeps a list of valid lexemes valid. */
  lemma ValidSnoc(ls: seq<Lexeme>, l: Lexeme)
    requires forall i :: 0 <= i < |ls| ==> Valid(ls[i])
    requires Valid(l)
    ensures forall i :: 0 <= i < |ls + [l]| ==> Valid((ls + [l])[i])
  {
  }

  /** One more whitespace separator keeps a list of separators well formed. */
  lemma SeparatorsSnoc(seps: seq<string>, sep: string)
    requires Separators(seps)
    requires |sep| > 0 && AllWhitespace(sep)
    ensures Separators(seps + [sep])
  {
  }

  /** The raw string of `check_valid_parsing`, split where its tokens and separators meet. */
  const ValidParsingInput: string :=
    "\n" + "[toy project test]" + "\n\t" + "[version]" + " " + "20211222" + "\n\t"
    + "[message]" + " " + ("`" + "hello, world!" + "`") + "\n"

  const ValidParsingLexemes: seq<Lexeme> :=
    [TagLexeme("[toy project test]")] + [TagLexeme("[version]")] + [NumberLexeme("20211222")]
    + [TagLexeme("[message]")] + [StringLexeme("hello, world!")]

  const ValidParsingSeparators: seq<string> := ["\n\t"] + [" "] + ["\n\t"] + [" "] + ["\n"]

  /** The input of `check_valid_parsing` is its five lexemes written out after a newline. */
  lemma ValidParsingLayout()
    ensures ValidParsingInput == Render("\n", ValidParsingLexemes, ValidParsingSeparators)
  {
    var lead := "\n";
    var l1, s1 := [TagLexeme("[toy project test]")], ["\n\t"];
    var l2, s2 := l1 + [TagLexeme("[version]")], s1 + [" "];
    var l3, s3 := l2 + [NumberLexeme("20211222")], s2 + ["\n\t"];
    var l4, s4 := l3 + [TagLexeme("[message]")], s3 + [" "];
    RenderOne(lead, TagLexeme("[toy project test]"), "\n\t");
    RenderSnoc(lead, l1, s1, TagLexeme("[version]"), " ");
    RenderSnoc(lead, l2, s2, NumberLexeme("20211222"), "\n\t");
    RenderSnoc(lead, l3, s3, TagLexeme("[message]"), " ");
    RenderSnoc(lead, l4, s4, StringLexeme("hello, world!"), "\n");
  }

  /** The texts of `check_valid_parsing` are ones the scanners produce. */
  lemma ValidParsingTexts()
    ensures ValidTag("[toy project test]") && ValidTag("[version]") && ValidTag("[message]")
    ensures ValidNumber("20211222") && ValidString("hello, world!")
  {
  }

  lemma ValidParsingLexemesValid()
    ensures Separators(ValidParsingSeparators)
    ensures forall i :: 0 <= i < |ValidParsingLexemes| ==> Valid(ValidParsingLexemes[i])
  {
    var l1 := [TagLexeme("[toy project test]")];
    var l2 := l1 + [TagLexeme("[version]")];
    var l3 := l2 + [NumberLexeme("20211222")];
    var l4 := l3 + [TagLexeme("[message]")];
    ValidParsingTexts();
    ValidSnoc(l1, TagLexeme("[version]"));
    ValidSnoc(l2, NumberLexeme("20211222"));
    ValidSnoc(l3, TagLexeme("[message]"));
    ValidSnoc(l4, StringLexeme("hello, world!"));
    SeparatorsSnoc(["\n\t"], " ");
    SeparatorsSnoc(["\n\t"] + [" "], "\n\t");
    SeparatorsSnoc(["\n\t"] + [" "] + ["\n\t"], " ");
    SeparatorsSnoc(["\n\t"] + [" "] + ["\n\t"] + [" "], "\n");
  }

  /** The script of `check_valid_parsing` scans cleanly back to its five lexemes. */
  lemma ValidParsingLexemesBack(input: string)
    requires input == ValidParsingInput
    ensures Initialize(input).error == None && KeptLexemes(Initialize(input), ValidParsingLexemes)
  {
    ValidParsingLayout();
    ValidParsingLexemesValid();
    Roundtrip("\n", ValidParsingLexemes, ValidParsingSeparators);
  }

  /** The test `check_valid_parsing`: exactly five tokens, read back through the accessors the test uses. */
  lemma ValidParsing(input: string)
    requires input == ValidParsingInput
    ensures var t := Initialize(input);
      && t.error == None
      && |t.tokens| == 5
      && GetTag(t.tokens[0], t.strings) == Success(Some("[toy project test]"))
      && GetTag(t.tokens[1], t.strings) == Success(Some("[version]"))
      && GetNumber(t.tokens[2]) == Some("20211222")
      && GetTag(t.tokens[3], t.strings) == Success(Some("[message]"))
      && GetString(t.tokens[4], t.strings) == Success(Some("hello, world!"))
  {
    ValidParsingLexemesBack(input);
    var t, ls := Initialize(input), ValidParsingLexemes;
    assert Resolve(t.tokens[0], t.strings) == Some(ls[0]);
    assert Resolve(t.tokens[1], t.strings) == Some(ls[1]);
    assert Resolve(t.tokens[2], t.strings) == Some(ls[2]);
    assert Resolve(t.tokens[3], t.strings) == Some(ls[3]);
    assert Resolve(t.tokens[4], t.strings) == Some(ls[4]);
  }

  /**
    The part shared by `err_num_dot_twice` and `err_str_not_end`, and the start of the fixture
    script: everything up to the value after `[version]`.
   */
  const TestObjHead: string :=
    "\n" + "[toy project test]" + "\n\t" + "[test obj]" + " " + "1.5" + " " + "-2" + " " + "0" + " " + "3" + "\n\t"
    + "[version]" + " "

  const TestObjLexemes: seq<Lexeme> :=
    [TagLexeme("[toy project test]")] + [TagLexeme("[test obj]")] + [NumberLexeme("1.5")] + [NumberLexeme("-2")]
    + [NumberLexeme("0")] + [NumberLexeme("3")] + [TagLexeme("[version]")]

  const TestObjSeparators: seq<string> := ["\n\t"] + [" "] + [" "] + [" "] + [" "] + ["\n\t"] + [" "]

  lemma TestObjLayout()
    ensures TestObjHead == Render("\n", TestObjLexemes, TestObjSeparators)
  {
    var lead := "\n";
    var l1, s1 := [TagLexeme("[toy project test]")], ["\n\t"];
    var l2, s2 := l1 + [TagLexeme("[test obj]")], s1 + [" "];
    var l3, s3 := l2 + [NumberLexeme("1.5")], s2 + [" "];
    var l4, s4 := l3 + [NumberLexeme("-2")], s3 + [" "];
    var l5, s5 := l4 + [NumberLexeme("0")], s4 + [" "];
    var l6, s6 := l5 + [NumberLexeme("3")], s5 + ["\n\t"];
    RenderOne(lead, TagLexeme("[toy project test]"), "\n\t");
    RenderSnoc(lead, l1, s1, TagLexeme("[test obj]"), " ");
    RenderSnoc(lead, l2, s2, NumberLexeme("1.5"), " ");
    RenderSnoc(lead, l3, s3, NumberLexeme("-2"), " ");
    RenderSnoc(lead, l4, s4, NumberLexeme("0"), " ");
    RenderSnoc(lead, l5, s5, NumberLexeme("3"), "\n\t");
    RenderSnoc(lead, l6, s6, TagLexeme("[version]"), " ");
  }

  /** The texts before `[version]`'s value are ones the scanners produce. */
  lemma TestObjTexts()
    ensures ValidTag("[toy project test]") && ValidTag("[test obj]") && ValidTag("[version]")
    ensures ValidNumber("1.5") && ValidNumber("-2") && ValidNumber("0") && ValidNumber("3")
  {
  }

  lemma TestObjLexemesValid()
    ensures Separators(TestObjSeparators)
    ensures forall i :: 0 <= i < |TestObjLexemes| ==> Valid(TestObjLexemes[i])
  {
    var l1 := [TagLexeme("[toy project test]")];
    var l2 := l1 + [TagLexeme("[test obj]")];
    var l3 := l2 + [NumberLexeme("1.5")];
    var l4 := l3 + [NumberLexeme("-2")];
    var l5 := l4 + [NumberLexeme("0")];
    var l6 := l5 + [NumberLexeme("3")];
    TestObjTexts();
    ValidSnoc(l1, TagLexeme("[test obj]"));
    ValidSnoc(l2, NumberLexeme("1.5"));
    ValidSnoc(l3, NumberLexeme("-2"));
    ValidSnoc(l4, NumberLexeme("0"));
    ValidSnoc(l5, NumberLexeme("3"));
    ValidSnoc(l6, TagLexeme("[version]"));
    var s1 := ["\n\t"];
    var s2 := s1 + [" "];
    var s3 := s2 + [" "];
    var s4 := s3 + [" "];
    var s5 := s4 + [" "];
    var s6 := s5 + ["\n\t"];
    SeparatorsSnoc(s1, " ");
    SeparatorsSnoc(s2, " ");
    SeparatorsSnoc(s3, " ");
    SeparatorsSnoc(s4, " ");
    SeparatorsSnoc(s5, "\n\t");
    SeparatorsSnoc(s6, " ");
  }

  lemma NumDotTwiceTexts()
    ensures ValidNumber("1.0") && '.' in "1.0"
    ensures EscapedBackticks("1.0.\n")
  {
  }

  /** The test `err_num_dot_twice`: `1.0.` fails on its second dot, after the seven tokens before it. */
  lemma ErrNumDotTwice(input: string)
    requires input == TestObjHead + "1.0" + "." + "\n"
    ensures var t := Initialize(input);
      && t.error == Some(DuplicateDot)
      && ErrorReason(t) != []
      && KeptLexemes(t, TestObjLexemes)
  {
    TestObjLayout();
    TestObjLexemesValid();
    NumDotTwiceTexts();
    SecondDotAfterLexemes("\n", TestObjLexemes, TestObjSeparators, "1.0", "\n");
  }

  /** The test `err_str_not_end`: a backtick never closed, so the scan ends Unterminated after seven tokens. */
  lemma ErrStrNotEnd(input: string)
    requires input == TestObjHead + "`" + "1.0.\n"
    ensures var t := Initialize(input);
      && t.error == Some(Unterminated)
      && ErrorReason(t) != []
      && KeptLexemes(t, TestObjLexemes)
  {
    TestObjLayout();
    TestObjLexemesValid();
    NumDotTwiceTexts();
    UnclosedStringAfterLexemes("\n", TestObjLexemes, TestObjSeparators, "1.0.\n");
  }

  /** The pieces of `err_invalid_tag_id`: a newline, a tag's allowed text, and the text the error carries. */
  lemma InvalidTagIdTexts()
    ensures Render("\n", [], []) == "\n"
    ensures TagBody("toy project tes")
  {
  }

  /** The text the `err_invalid_tag_id` error carries, from its pieces. */
  lemma InvalidTagIdMessage()
    ensures "[" + "toy project tes" + ")" == "[toy project tes)"
  {
  }

  /** The test `err_invalid_tag_id`: `)` is not allowed in a tag; the error carries the tag up to it; no tokens. */
  lemma ErrInvalidTagId(input: string)
    requires input == "\n" + "[" + "toy project tes" + ")" + "t]\n"
    ensures var t := Initialize(input);
      && t.error == Some(InvalidTagChar("[toy project tes)"))
      && ErrorReason(t) != []
      && t.tokens == []
  {
    InvalidTagIdTexts();
    BadTagCharAfterLexemes("\n", [], [], "toy project tes", ')', "t]\n");
    InvalidTagIdMessage();
  }

  /**
    The script of the `load` and `iterating` tests. Its closing tag `[/toy project block]` is
    not accepted: `/` is not a tag character, so the scan stops there with the twelve tokens
    before it, each of which reads back as the kind it was pushed as.
   */
  const RowScript: string :=
    TestObjHead + ("`" + "1.0.0" + "`") + "\n\t" + "[message]" + " " + ("`" + "hello, world!" + "`") + "\n\n"
    + "[toy project block]" + "\n\t" + "[simple tag]" + "\n"
    + "[" + "" + "/" + "toy project block]\n\n[line tag] 1\n[simple tag]\n"

  const RowLexemes: seq<Lexeme> :=
    TestObjLexemes + [StringLexeme("1.0.0")] + [TagLexeme("[message]")] + [StringLexeme("hello, world!")]
    + [TagLexeme("[toy project block]")] + [TagLexeme("[simple tag]")]

  const RowSeparators: seq<string> := TestObjSeparators + ["\n\t"] + [" "] + ["\n\n"] + ["\n\t"] + ["\n"]

  lemma RowLayout()
    ensures TestObjHead + ("`" + "1.0.0" + "`") + "\n\t" + "[message]" + " " + ("`" + "hello, world!" + "`") + "\n\n"
            + "[toy project block]" + "\n\t" + "[simple tag]" + "\n" == Render("\n", RowLexemes, RowSeparators)
  {
    var lead := "\n";
    TestObjLayout();
    var l7, s7 := TestObjLexemes, TestObjSeparators;
    var l8, s8 := l7 + [StringLexeme("1.0.0")], s7 + ["\n\t"];
    var l9, s9 := l8 + [TagLexeme("[message]")], s8 + [" "];
    var l10, s10 := l9 + [StringLexeme("hello, world!")], s9 + ["\n\n"];
    var l11, s11 := l10 + [TagLexeme("[toy project block]")], s10 + ["\n\t"];
    RenderSnoc(lead, l7, s7, StringLexeme("1.0.0"), "\n\t");
    RenderSnoc(lead, l8, s8, TagLexeme("[message]"), " ");
    RenderSnoc(lead, l9, s9, StringLexeme("hello, world!"), "\n\n");
    RenderSnoc(lead, l10, s10, TagLexeme("[toy project block]"), "\n\t");
    RenderSnoc(lead, l11, s11, TagLexeme("[simple tag]"), "\n");
  }

  /** The texts after `[version]` in the fixture are ones the scanners produce. */
  lemma RowTexts()
    ensures ValidString("1.0.0") && ValidString("hello, world!")
    ensures ValidTag("[message]") && ValidTag("[toy project block]") && ValidTag("[simple tag]")
  {
  }

  lemma RowLexemesValid()
    ensures Separators(RowSeparators)
    ensures forall i :: 0 <= i < |RowLexemes| ==> Valid(RowLexemes[i])
  {
    TestObjLexemesValid();
    var l7, s7 := TestObjLexemes, TestObjSeparators;
    var l8, s8 := l7 + [StringLexeme("1.0.0")], s7 + ["\n\t"];
    var l9, s9 := l8 + [TagLexeme("[message]")], s8 + [" "];
    var l10, s10 := l9 + [StringLexeme("hello, world!")], s9 + ["\n\n"];
    var l11, s11 := l10 + [TagLexeme("[toy project block]")], s10 + ["\n\t"];
    RowTexts();
    ValidSnoc(l7, StringLexeme("1.0.0"));
    ValidSnoc(l8, TagLexeme("[message]"));
    ValidSnoc(l9, StringLexeme("hello, world!"));
    ValidSnoc(l10, TagLexeme("[toy project block]"));
    ValidSnoc(l11, TagLexeme("[simple tag]"));
    SeparatorsSnoc(s7, "\n\t");
    SeparatorsSnoc(s8, " ");
    SeparatorsSnoc(s9, "\n\n");
    SeparatorsSnoc(s10, "\n\t");
    SeparatorsSnoc(s11, "\n");
  }

  /** The pieces of the failure at `[/`: an empty tag body, the text the error carries, and the count before it. */
  lemma RowStopTexts()
    ensures TagBody("")
    ensures "[" + "" + "/" == "[/"
    ensures |RowLexemes| == 12
  {
  }

  lemma RowScriptScan()
    ensures var t := Initialize(RowScript);
      && t.error == Some(InvalidTagChar("[/"))
      && KeptLexemes(t, RowLexemes)
      && |t.tokens| == 12
      && (forall i :: 0 <= i < |t.tokens| ==> Get(t.tokens[i], t.strings).Success?)
  {
    RowLayout();
    RowLexemesValid();
    RowStopTexts();
    BadTagCharAfterLexemes("\n", RowLexemes, RowSeparators, "", '/', "toy project block]\n\n[line tag] 1\n[simple tag]\n");
  }

  /**
    A number at the very end of the input is never pushed: a bare number such as `7` fails
    Unterminated, while the same text read as a file, which gets a NUL appended, scans to
    that one number.
   */
  lemma BareNumber(s: string)
    requires ValidNumber(s)
    ensures Initialize(s).error == Some(Unterminated) && Initialize(s).tokens == []
    ensures FromFile(s).error == None
    ensures |FromFile(s).tokens| == 1 && GetNumber(FromFile(s).tokens[0]) == Some(s)
  {
    assert Render([], [], []) + s == s;
    LastNumberAfterLexemes([], [], [], s);
    RenderSnoc([], [], [], NumberLexeme(s), "\0");
    assert Render([], [NumberLexeme(s)], ["\0"]) == s + ['\0'];
    Roundtrip([], [NumberLexeme(s)], ["\0"]);
  }

  /** Digits are not tag characters: `[v2]` fails at the `2`. */
  lemma DigitInTag()
    ensures Initialize("[v2]").error == Some(InvalidTagChar("[v2")) && Initialize("[v2]").tokens == []
  {
    assert Render([], [], []) + "[" + "v" + [('2')] + "]" == "[v2]";
    assert TagBody("v");
    BadTagCharAfterLexemes([], [], [], "v", '2', "]");
    assert "[" + "v" + ['2'] == "[v2";
  }

  /** A backtick after a backslash stays in the string, and so does the backslash. */
  lemma EscapedBacktickLayout()
    ensures ValidString("a\\`b")
    ensures Render([], [StringLexeme("a\\`b")], [" "]) == "`a\\`b` "
  {
  }

  lemma EscapedBacktick(input: string)
    requires input == "`a\\`b` "
    ensures var t := Initialize(input);
      t.error == None && |t.tokens| == 1 && GetString(t.tokens[0], t.strings) == Success(Some("a\\`b"))
  {
    EscapedBacktickLayout();
    Roundtrip([], [StringLexeme("a\\`b")], [" "]);
  }

  /** A number directly after a tag, ending the input: `[a]7` keeps the tag and fails Unterminated. */
  lemma NumberRightAfterTag()
    ensures var t := Initialize("[a]7");
      && t.error == Some(Unterminated)
      && |t.tokens| == 1
      && Resolve(t.tokens[0], t.strings) == Some(TagLexeme("[a]"))
  {
    assert ValidTag("[a]");
    ReadyAfterLexeme("", EmptySink, TagLexeme("[a]"), '7');
    assert "" + "[a]" == "[a]";
    LastNumberUnterminated("[a]", Emit(EmptySink, TagLexeme("[a]")), "7");
    assert "[a]" + "7" == "[a]7";
  }

  /** A stray character directly after a number: `1!` pushes the number, then fails on `!`. */
  lemma StrayRightAfterNumber()
    ensures var t := Initialize("1!");
      && t.error == Some(InvalidToken('!'))
      && |t.tokens| == 1
      && GetNumber(t.tokens[0]) == Some("1")
  {
    assert ValidNumber("1");
    ReadyAfterLexeme("", EmptySink, NumberLexeme("1"), '!');
    assert "" + "1" == "1";
    StrayCharFails("1", Emit(EmptySink, NumberLexeme("1")), '!', "");
    assert "1" + "!" + "" == "1!";
  }
}
