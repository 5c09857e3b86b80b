/**
  The check after the loop: input that ends while a scanner is current fails with
  Unterminated ("parser not end!"), keeping the tokens pushed so far.

  The failures are stated after any prefix `p` at a token boundary (`ReadyFor`): the loop is
  idle over some sink, or the next character ends the lexeme `p` finished with and is probed
  again from idle. `RenderedReady` and `ReadyAfterLexeme` say which prefixes are such.
 */
module EndOfInput {
  import opened Wrappers
  import opened Tokens
  import opened ScannerBase
  import opened Lexemes
  import opened Tokenizer
  import opened ScanLaws
  import opened RoundTrip
  import NumberScanner
  import StringScanner
  import TagScanner

  /**
    After scanning `p`, the character `c` is scanned as if from idle scanners over `sink`:
    the loop is idle over `sink` already, or `c` ends the current scanner and is probed again.
   */
  predicate ReadyFor(p: string, sink: Sink, c: char)
  {
    && Run(Fresh, p).Next?
    && (Run(Fresh, p).lexer == Start(sink) || Step(Run(Fresh, p).lexer, c) == Probe(Start(sink), c))
  }

  /** At a token boundary, the rest of the input scans as from idle scanners over the boundary's sink. */
  lemma AfterReady(p: string, sink: Sink, x: string)
    requires |x| > 0 && ReadyFor(p, sink, x[0])
    ensures Run(Fresh, p + x) == Run(Start(sink), x)
  {
    RunAppend(Fresh, p, x);
    if Run(Fresh, p).lexer != Start(sink) {
      ReprobeThen(Run(Fresh, p).lexer, sink, x);
    }
  }

  /** Valid lexemes written out with whitespace end at a token boundary, before any character. */
  lemma RenderedReady(lead: string, ls: seq<Lexeme>, seps: seq<string>, c: char)
    requires AllWhitespace(lead)
    requires |seps| == |ls| && Separators(seps)
    requires forall i :: 0 <= i < |ls| ==> Valid(ls[i])
    ensures ReadyFor(Render(lead, ls, seps), EmitAll(EmptySink, ls), c)
  {
    RenderScan(EmptySink, lead, ls, seps);
  }

  /**
    A valid lexeme written directly after a token boundary ends at another one, with its token
    pushed, before any character that does not extend a number.
   */
  lemma ReadyAfterLexeme(p: string, sink: Sink, l: Lexeme, c: char)
    requires Valid(l) && ReadyFor(p, sink, Spell(l)[0])
    requires l.NumberLexeme? ==> !NumberScanner.Check(c) && c != '.'
    ensures ReadyFor(p + Spell(l), Emit(sink, l), c)
  {
    AfterReady(p, sink, Spell(l));
    match l
    case NumberLexeme(s) =>
      NumberSpell(sink, s);
      NumberTerminated(sink, NumberScanner.State(s, '.' in s), c);
    case StringLexeme(t) =>
      StringSpell(sink, t);
      ClosedStringAbsorbs(Emit(sink, l), c);
    case TagLexeme(s) =>
      TagSpell(sink, s);
      ClosedTagAbsorbs(Emit(sink, l), c);
  }

  /** Input that ends while a scanner is current fails with Unterminated and keeps the sink as it is. */
  lemma EndsActive(p: string, sink: Sink, rest: string, lx: Lexer)
    requires |rest| > 0 && ReadyFor(p, sink, rest[0])
    requires Run(Start(sink), rest) == Next(lx) && lx.active != Idle
    ensures Initialize(p + rest) == Tokenized(lx.sink.tokens, lx.sink.strings, Some(Unterminated))
  {
    AfterReady(p, sink, rest);
  }

  /** A number as the very last thing in the input: Unterminated, and the number is never pushed. */
  lemma LastNumberUnterminated(p: string, sink: Sink, s: string)
    requires ValidNumber(s) && ReadyFor(p, sink, s[0])
    ensures Initialize(p + s) == Tokenized(sink.tokens, sink.strings, Some(Unterminated))
  {
    NumberSpell(sink, s);
    EndsActive(p, sink, s, NumberActive(sink, NumberScanner.State(s, '.' in s)));
  }

  /**
    A string whose closing backtick is the very last character: Unterminated, although the
    string has been pushed (its scanner only lets go on the call after the close).
   */
  lemma LastStringUnterminated(p: string, sink: Sink, text: string)
    requires ValidString(text) && ReadyFor(p, sink, '`')
    ensures var done := Emit(sink, StringLexeme(text));
      Initialize(p + Spell(StringLexeme(text))) == Tokenized(done.tokens, done.strings, Some(Unterminated))
  {
    StringSpell(sink, text);
    EndsActive(p, sink, Spell(StringLexeme(text)), StringActive(PushString(sink, text), StringScanner.State([], true)));
  }

  /** A tag whose `]` is the very last character: Unterminated, although the tag has been pushed. */
  lemma LastTagUnterminated(p: string, sink: Sink, s: string)
    requires ValidTag(s) && ReadyFor(p, sink, '[')
    ensures var done := Emit(sink, TagLexeme(s));
      Initialize(p + s) == Tokenized(done.tokens, done.strings, Some(Unterminated))
  {
    TagSpell(sink, s);
    EndsActive(p, sink, s, TagActive(PushTag(sink, s), TagScanner.State([], true)));
  }

  /** From idle, a backtick and text with escaped backticks leave the string scanner current, holding that text. */
  lemma OpenStringRun(sink: Sink, text: string)
    requires EscapedBackticks(text)
    ensures Run(Start(sink), ['`'] + text) == Next(StringActive(sink, StringScanner.State(text, false)))
  {
    RunCons(Start(sink), '`', text);
    assert Step(Start(sink), '`') == Next(StringActive(sink, StringScanner.State([], false)));
    assert [] + text == text;
    StringBody(sink, [], text);
  }

  /** A backtick that is never closed: the scan fails with Unterminated and the string is never pushed. */
  lemma UnclosedString(p: string, sink: Sink, text: string)
    requires EscapedBackticks(text) && ReadyFor(p, sink, '`')
    ensures Initialize(p + ['`'] + text) == Tokenized(sink.tokens, sink.strings, Some(Unterminated))
  {
    assert p + ['`'] + text == p + (['`'] + text);
    OpenStringRun(sink, text);
    EndsActive(p, sink, ['`'] + text, StringActive(sink, StringScanner.State(text, false)));
  }

  /** Each failure above, after whitespace-separated valid lexemes: the tokens kept resolve to those lexemes. */
  predicate KeptLexemes(t: Tokenized, ls: seq<Lexeme>)
  {
    && |t.tokens| == |ls|
    && forall i :: 0 <= i < |ls| ==> Resolve(t.tokens[i], t.strings) == Some(ls[i])
  }

  /** The sink of `ls` with one more lexeme pushed: its tokens resolve to `ls`, then to that lexeme. */
  lemma PushedLastKept(ls: seq<Lexeme>, l: Lexeme)
    ensures var done := Emit(EmitAll(EmptySink, ls), l);
      KeptLexemes(Tokenized(done.tokens, done.strings, Some(Unterminated)), ls + [l])
  {
    assert (ls + [l])[..|ls|] == ls;
    EmitAllResolves(EmptySink, ls + [l]);
  }

  /** `LastNumberUnterminated` after whitespace-separated valid lexemes. */
  lemma LastNumberAfterLexemes(lead: string, ls: seq<Lexeme>, seps: seq<string>, s: string)
    requires AllWhitespace(lead)
    requires |seps| == |ls| && Separators(seps)
    requires forall i :: 0 <= i < |ls| ==> Valid(ls[i])
    requires ValidNumber(s)
    ensures var t := Initialize(Render(lead, ls, seps) + s);
      t.error == Some(Unterminated) && KeptLexemes(t, ls)
  {
    RenderedReady(lead, ls, seps, s[0]);
    LastNumberUnterminated(Render(lead, ls, seps), EmitAll(EmptySink, ls), s);
    EmitAllResolves(EmptySink, ls);
  }

  /** `LastStringUnterminated` after whitespace-separated valid lexemes: the string's token comes last. */
  lemma LastStringAfterLexemes(lead: string, ls: seq<Lexeme>, seps: seq<string>, text: string)
    requires AllWhitespace(lead)
    requires |seps| == |ls| && Separators(seps)
    requires forall i :: 0 <= i < |ls| ==> Valid(ls[i])
    requires ValidString(text)
    ensures var t := Initialize(Render(lead, ls, seps) + Spell(StringLexeme(text)));
      t.error == Some(Unterminated) && KeptLexemes(t, ls + [StringLexeme(text)])
  {
    RenderedReady(lead, ls, seps, '`');
    LastStringUnterminated(Render(lead, ls, seps), EmitAll(EmptySink, ls), text);
    PushedLastKept(ls, StringLexeme(text));
  }

  /** `LastTagUnterminated` after whitespace-separated valid lexemes: the tag's token comes last. */
  lemma LastTagAfterLexemes(lead: string, ls: seq<Lexeme>, seps: seq<string>, s: string)
    requires AllWhitespace(lead)
    requires |seps| == |ls| && Separators(seps)
    requires forall i :: 0 <= i < |ls| ==> Valid(ls[i])
    requires ValidTag(s)
    ensures var t := Initialize(Render(lead, ls, seps) + s);
      t.error == Some(Unterminated) && KeptLexemes(t, ls + [TagLexeme(s)])
  {
    RenderedReady(lead, ls, seps, '[');
    LastTagUnterminated(Render(lead, ls, seps), EmitAll(EmptySink, ls), s);
    PushedLastKept(ls, TagLexeme(s));
  }

  /** `UnclosedString` after whitespace-separated valid lexemes. */
  lemma UnclosedStringAfterLexemes(lead: string, ls: seq<Lexeme>, seps: seq<string>, text: string)
    requires AllWhitespace(lead)
    requires |seps| == |ls| && Separators(seps)
    requires forall i :: 0 <= i < |ls| ==> Valid(ls[i])
    requires EscapedBackticks(text)
    ensures var t := Initialize(Render(lead, ls, seps) + ['`'] + text);
      t.error == Some(Unterminated) && KeptLexemes(t, ls)
  {
    RenderedReady(lead, ls, seps, '`');
    UnclosedString(Render(lead, ls, seps), EmitAll(EmptySink, ls), text);
    EmitAllResolves(EmptySink, ls);
  }
}
