/**
  The errors thrown inside the loop, at any token boundary: a second `.` in a number, a
  character a tag may not hold, and a character no scanner starts on. Each ends the scan
  with the tokens and store entries pushed before it, and nothing after it is looked at.
 */
module ScanErrors {
  import opened Wrappers
  import opened Tokens
  import opened ScannerBase
  import opened Lexemes
  import opened Tokenizer
  import opened ScanLaws
  import opened RoundTrip
  import opened EndOfInput
  import NumberScanner
  import TagScanner

  /** A number that already holds a `.` meets another one: DuplicateDot, and the number is never pushed. */
  lemma SecondDotFails(p: string, sink: Sink, s: string, rest: string)
    requires ValidNumber(s) && '.' in s && ReadyFor(p, sink, s[0])
    ensures Initialize(p + s + ['.'] + rest) == Tokenized(sink.tokens, sink.strings, Some(DuplicateDot))
  {
    assert p + s + ['.'] + rest == p + (s + (['.'] + rest));
    AfterReady(p, sink, s + (['.'] + rest));
    RunAppend(Start(sink), s, ['.'] + rest);
    NumberSpell(sink, s);
    var lx := NumberActive(sink, NumberScanner.State(s, true));
    assert Step(lx, '.') == Halt(sink, DuplicateDot);
    RunCons(lx, '.', rest);
  }

  /** From idle, `[`, allowed characters, then a bad one: the scan halts with the sink untouched. */
  lemma TagHalts(sink: Sink, body: string, c: char, rest: string)
    requires TagBody(body)
    requires c != ']' && !TagScanner.Check(c)
    ensures Run(Start(sink), ['['] + (body + ([c] + rest))) == Halt(sink, InvalidTagChar(['['] + body + [c]))
  {
    RunCons(Start(sink), '[', body + ([c] + rest));
    assert Step(Start(sink), '[') == Next(TagActive(sink, TagScanner.State(['['], false)));
    RunAppend(TagActive(sink, TagScanner.State(['['], false)), body, [c] + rest);
    TagBodyRun(sink, ['['], body);
    var lx := TagActive(sink, TagScanner.State(['['] + body, false));
    assert Step(lx, c) == Halt(sink, InvalidTagChar(['['] + body + [c]));
    RunCons(lx, c, rest);
  }

  /**
    A tag whose next character is neither `]` nor allowed: InvalidTagChar carrying the tag's
    text so far with that character, and the tag is never pushed.
   */
  lemma BadTagCharFails(p: string, sink: Sink, body: string, c: char, rest: string)
    requires TagBody(body) && c != ']' && !TagScanner.Check(c) && ReadyFor(p, sink, '[')
    ensures Initialize(p + ['['] + body + [c] + rest)
         == Tokenized(sink.tokens, sink.strings, Some(InvalidTagChar(['['] + body + [c])))
  {
    assert p + ['['] + body + [c] + rest == p + (['['] + (body + ([c] + rest)));
    AfterReady(p, sink, ['['] + (body + ([c] + rest)));
    TagHalts(sink, body, c, rest);
  }

  /** At a token boundary, a character that is not whitespace and that no scanner starts on: InvalidToken. */
  lemma StrayCharFails(p: string, sink: Sink, c: char, rest: string)
    requires !NumberScanner.Starts(c) && c != '`' && c != '[' && !IsWhitespace(c) && ReadyFor(p, sink, c)
    ensures Initialize(p + [c] + rest) == Tokenized(sink.tokens, sink.strings, Some(InvalidToken(c)))
  {
    assert p + [c] + rest == p + ([c] + rest);
    AfterReady(p, sink, [c] + rest);
    RunCons(Start(sink), c, rest);
  }

  /** `SecondDotFails` after whitespace-separated valid lexemes. */
  lemma SecondDotAfterLexemes(lead: string, ls: seq<Lexeme>, seps: seq<string>, s: string, rest: string)
    requires AllWhitespace(lead)
    requires |seps| == |ls| && Separators(seps)
    requires forall i :: 0 <= i < |ls| ==> Valid(ls[i])
    requires ValidNumber(s) && '.' in s
    ensures var t := Initialize(Render(lead, ls, seps) + s + ['.'] + rest);
      t.error == Some(DuplicateDot) && KeptLexemes(t, ls)
  {
    RenderedReady(lead, ls, seps, s[0]);
    SecondDotFails(Render(lead, ls, seps), EmitAll(EmptySink, ls), s, rest);
    EmitAllResolves(EmptySink, ls);
  }

  /** `BadTagCharFails` after whitespace-separated valid lexemes. */
  lemma BadTagCharAfterLexemes(lead: string, ls: seq<Lexeme>, seps: seq<string>, body: string, c: char, rest: string)
    requires AllWhitespace(lead)
    requires |seps| == |ls| && Separators(seps)
    requires forall i :: 0 <= i < |ls| ==> Valid(ls[i])
    requires TagBody(body)
    requires c != ']' && !TagScanner.Check(c)
    ensures var t := Initialize(Render(lead, ls, seps) + ['['] + body + [c] + rest);
      t.error == Some(InvalidTagChar(['['] + body + [c])) && KeptLexemes(t, ls)
  {
    RenderedReady(lead, ls, seps, '[');
    BadTagCharFails(Render(lead, ls, seps), EmitAll(EmptySink, ls), body, c, rest);
    EmitAllResolves(EmptySink, ls);
  }

  /** `StrayCharFails` after whitespace-separated valid lexemes. */
  lemma StrayCharAfterLexemes(lead: string, ls: seq<Lexeme>, seps: seq<string>, c: char, rest: string)
    requires AllWhitespace(lead)
    requires |seps| == |ls| && Separators(seps)
    requires forall i :: 0 <= i < |ls| ==> Valid(ls[i])
    requires !NumberScanner.Starts(c) && c != '`' && c != '[' && !IsWhitespace(c)
    ensures var t := Initialize(Render(lead, ls, seps) + [c] + rest);
      t.error == Some(InvalidToken(c)) && KeptLexemes(t, ls)
  {
    RenderedReady(lead, ls, seps, c);
    StrayCharFails(Render(lead, ls, seps), EmitAll(EmptySink, ls), c, rest);
    EmitAllResolves(EmptySink, ls);
  }
}
