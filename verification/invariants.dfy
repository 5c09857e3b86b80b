/**
  What holds at every point of a scan: idle scanners are cleared, an active scanner's buffer
  is a prefix of something it can emit, the k-th string-or-tag token holds store index k, and
  every token resolves to a lexeme the scanners can produce.
 */
module Invariants {
  import opened Wrappers
  import opened Tokens
  import opened ScannerBase
  import opened Lexemes
  import opened Tokenizer
  import StringManager
  import NumberScanner
  import StringScanner
  import TagScanner

  /** How many string and tag tokens `ts` holds (numbers do not use the store). */
  function TextCount(ts: seq<Token>): nat
  {
    if |ts| == 0 then 0
    else TextCount(ts[..|ts| - 1]) + (if IsText(ts[|ts| - 1]) then 1 else 0)
  }

  /** The store holds one entry per string or tag token, and the k-th such token holds index k. */
  predicate IndexedInOrder(sink: Sink)
  {
    && |sink.strings.entries| == TextCount(sink.tokens)
    && forall i :: 0 <= i < |sink.tokens| && IsText(sink.tokens[i]) ==> sink.tokens[i].index == TextCount(sink.tokens[..i])
  }

  /** Every token resolves, to a lexeme the scanners can produce. */
  predicate AllValid(sink: Sink)
  {
    forall i :: 0 <= i < |sink.tokens| ==>
      Resolve(sink.tokens[i], sink.strings).Some? && Valid(Resolve(sink.tokens[i], sink.strings).value)
  }

  predicate SinkInv(sink: Sink)
  {
    IndexedInOrder(sink) && AllValid(sink)
  }

  /** An active number scanner: its buffer is a valid number so far, and the dot flag says whether it has a `.`. */
  predicate NumberInv(n: NumberScanner.State)
  {
    ValidNumber(n.buffer) && (n.usingDot <==> '.' in n.buffer)
  }

  /** An active string scanner: just closed with nothing pending, or collecting text whose backticks are escaped. */
  predicate StringInv(s: StringScanner.State)
  {
    if s.parsingEnd then s.buffer == [] else EscapedBackticks(s.buffer)
  }

  /** An active tag scanner: just closed with nothing pending, or `[` followed by allowed characters. */
  predicate TagInv(t: TagScanner.State)
  {
    if t.parsingEnd then t.buffer == [] else |t.buffer| > 0 && t.buffer[0] == '[' && TagBody(t.buffer[1..])
  }

  /** Scanners that are not current are cleared; the current one satisfies its own invariant. */
  predicate ScannersInv(lx: Lexer)
  {
    match lx.active
    case Idle => lx.number == NumberScanner.Cleared && lx.str == StringScanner.Cleared && lx.tag == TagScanner.Cleared
    case InNumber => lx.str == StringScanner.Cleared && lx.tag == TagScanner.Cleared && NumberInv(lx.number)
    case InString => lx.number == NumberScanner.Cleared && lx.tag == TagScanner.Cleared && StringInv(lx.str)
    case InTag => lx.number == NumberScanner.Cleared && lx.str == StringScanner.Cleared && TagInv(lx.tag)
  }

  predicate Inv(lx: Lexer)
  {
    ScannersInv(lx) && SinkInv(lx.sink)
  }

  lemma TextCountAppend(ts: seq<Token>, t: Token)
    ensures TextCount(ts + [t]) == TextCount(ts) + (if IsText(t) then 1 else 0)
  {
  }

  /** Pushing a number with a valid lexeme keeps the sink invariant. */
  lemma PushNumberInv(sink: Sink, s: string)
    requires SinkInv(sink)
    requires ValidNumber(s)
    ensures SinkInv(PushNumber(sink, s))
  {
    var r := PushNumber(sink, s);
    TextCountAppend(sink.tokens, NumberToken(s));
    forall i | 0 <= i < |r.tokens| && IsText(r.tokens[i])
      ensures r.tokens[i].index == TextCount(r.tokens[..i])
    {
      assert r.tokens[..i] == sink.tokens[..i];
    }
  }

  /** Pushing a string or tag token whose text is valid for its kind keeps the sink invariant. */
  lemma PushTextInv(sink: Sink, r: Sink, l: Lexeme)
    requires SinkInv(sink)
    requires Valid(l) && !l.NumberLexeme?
    requires r.strings.entries == sink.strings.entries + [l.text]
    requires r.tokens == sink.tokens + [if l.StringLexeme? then StringToken(|sink.strings.entries|)
                                        else TagToken(|sink.strings.entries|)]
    ensures SinkInv(r)
    ensures Resolve(r.tokens[|sink.tokens|], r.strings) == Some(l)
  {
    var t := r.tokens[|sink.tokens|];
    TextCountAppend(sink.tokens, t);
    assert r.tokens[..|sink.tokens|] == sink.tokens;
    forall i | 0 <= i < |r.tokens| && IsText(r.tokens[i])
      ensures r.tokens[i].index == TextCount(r.tokens[..i])
    {
      if i < |sink.tokens| {
        assert r.tokens[..i] == sink.tokens[..i];
      }
    }
    forall i | 0 <= i < |r.tokens|
      ensures Resolve(r.tokens[i], r.strings).Some? && Valid(Resolve(r.tokens[i], r.strings).value)
    {
      if i < |sink.tokens| {
        ResolveStable(sink.tokens[i], sink.strings, r.strings);
      }
    }
  }

  /** The number scanner keeps its invariant on Continue: a second `.` never gets into the buffer. */
  lemma NumberStepInv(n: NumberScanner.State, sink: Sink, c: char)
    requires NumberInv(n)
    ensures NumberScanner.Parsing(n, sink, c).Continue? ==> NumberInv(NumberScanner.Parsing(n, sink, c).scanner)
  {
  }

  /** The string scanner keeps its invariant on Continue, and a string it closes is valid. */
  lemma StringStepInv(s: StringScanner.State, sink: Sink, c: char)
    requires StringInv(s)
    ensures var r := StringScanner.Parsing(s, sink, c);
      r.Continue? ==> StringInv(r.scanner)
    ensures !s.parsingEnd && Closes(s.buffer, c, '`') ==> ValidString(s.buffer)
  {
  }

  /** The tag scanner keeps its invariant on Continue, and a tag it closes is valid. */
  lemma TagStepInv(t: TagScanner.State, sink: Sink, c: char)
    requires TagInv(t)
    ensures var r := TagScanner.Parsing(t, sink, c);
      r.Continue? ==> TagInv(r.scanner)
    ensures !t.parsingEnd && Closes(t.buffer, c, ']') ==> ValidTag(t.buffer + [']'])
  {
  }

  /** Probing from a state satisfying the invariant keeps it. */
  lemma ProbeInv(lx: Lexer, c: char)
    requires Inv(lx) && lx.active == Idle
    ensures Probe(lx, c).Next? ==> Inv(Probe(lx, c).lexer)
    ensures SinkInv(SinkOf(Probe(lx, c)))
  {
  }

  /** One step of the loop keeps the invariant, and leaves a sink satisfying it even when it halts. */
  lemma StepInv(lx: Lexer, c: char)
    requires Inv(lx)
    ensures Step(lx, c).Next? ==> Inv(Step(lx, c).lexer)
    ensures SinkInv(SinkOf(Step(lx, c)))
  {
    match lx.active
    case Idle => ProbeInv(lx, c);
    case InNumber =>
      NumberStepInv(lx.number, lx.sink, c);
      var r := NumberScanner.Parsing(lx.number, lx.sink, c);
      if r.Done? {
        PushNumberInv(lx.sink, lx.number.buffer);
        ProbeInv(lx.(number := r.scanner, sink := r.sink, active := Idle), c);
      }
    case InString =>
      StringStepInv(lx.str, lx.sink, c);
      var r := StringScanner.Parsing(lx.str, lx.sink, c);
      if r.Done? {
        ProbeInv(lx.(str := r.scanner, sink := r.sink, active := Idle), c);
      } else if Closes(lx.str.buffer, c, '`') && !lx.str.parsingEnd {
        PushTextInv(lx.sink, r.sink, StringLexeme(lx.str.buffer));
      }
    case InTag =>
      TagStepInv(lx.tag, lx.sink, c);
      var r := TagScanner.Parsing(lx.tag, lx.sink, c);
      if r.Done? {
        ProbeInv(lx.(tag := r.scanner, sink := r.sink, active := Idle), c);
      } else if r.Continue? && Closes(lx.tag.buffer, c, ']') {
        PushTextInv(lx.sink, r.sink, TagLexeme(lx.tag.buffer + [']']));
      }
  }

  /** The whole loop keeps the invariant. */
  lemma {:induction false} RunInv(lx: Lexer, input: string)
    requires Inv(lx)
    ensures Run(lx, input).Next? ==> Inv(Run(lx, input).lexer)
    ensures SinkInv(SinkOf(Run(lx, input)))
    decreases |input|
  {
    if |input| > 0 {
      StepInv(lx, input[0]);
      match Step(lx, input[0])
      case Halt(_, _) =>
      case Next(lx') => RunInv(lx', input[1..]);
    }
  }

  lemma FreshInv()
    ensures Inv(Fresh)
  {
  }

  /**
    At any point of any scan, when no scanner is current every scanner is cleared, and
    when one is current the other two are cleared.
   */
  lemma ScannersResetWhenIdle(input: string)
    ensures Run(Fresh, input).Next? && Run(Fresh, input).lexer.active == Idle ==>
              && Run(Fresh, input).lexer.number == NumberScanner.Cleared
              && Run(Fresh, input).lexer.str == StringScanner.Cleared
              && Run(Fresh, input).lexer.tag == TagScanner.Cleared
    ensures Run(Fresh, input).Next? ==> ScannersInv(Run(Fresh, input).lexer)
  {
    RunInv(Fresh, input);
  }

  /**
    A finished scan, clean or not: the k-th string-or-tag token holds store index k, the store
    has exactly one entry per such token (so no accessor throws out_of_range), and every
    token's text is one the scanners can produce.
   */
  lemma ScanWellFormed(input: string)
    ensures var t := Initialize(input);
      && |t.strings.entries| == TextCount(t.tokens)
      && (forall i :: 0 <= i < |t.tokens| && IsText(t.tokens[i]) ==> t.tokens[i].index == TextCount(t.tokens[..i]))
      && (forall i :: 0 <= i < |t.tokens| ==> Get(t.tokens[i], t.strings).Success?)
      && (forall i :: 0 <= i < |t.tokens| ==> Valid(Resolve(t.tokens[i], t.strings).value))
  {
    RunInv(Fresh, input);
  }

  /**
    A backslash never enters a tag's buffer, so inside any scan an open tag is always closed
    by the next `]`: the tag, brackets included, is stored and pushed.
   */
  lemma BracketClosesTag(input: string)
    requires Run(Fresh, input).Next?
    requires Run(Fresh, input).lexer.active == InTag && !Run(Fresh, input).lexer.tag.parsingEnd
    ensures var lx := Run(Fresh, input).lexer;
      Step(lx, ']') == Next(lx.(tag := TagScanner.State([], true), sink := PushTag(lx.sink, lx.tag.buffer + [']'])))
  {
    var lx := Run(Fresh, input).lexer;
    ScannersResetWhenIdle(input);
    var b := lx.tag.buffer;
    if |b| > 1 {
      assert Last(b) == b[1..][|b| - 2];
    }
    assert Closes(b, ']', ']');
  }
}
