/**
  The dispatch loop `script::tokenizer::initialize` (code/common/script/tokenizer.cpp:287-342):
  each character goes to the active scanner; when that scanner reports done, the same
  character is probed against the number, string and tag scanners in that order; a
  character nothing starts is skipped if it is whitespace and is fatal otherwise. The
  first error ends the scan and the tokens pushed before it are kept.
 */
module Tokenizer {
  import opened Wrappers
  import opened Tokens
  import opened ScannerBase
  import StringManager
  import NumberScanner
  import StringScanner
  import TagScanner

  /** `current_parser`: null, or one of the three scanners. */
  datatype Active = Idle | InNumber | InString | InTag

  /** The three scanners' private state, which one is current, and the shared token sink. */
  datatype Lexer = Lexer(
    number: NumberScanner.State,
    str: StringScanner.State,
    tag: TagScanner.State,
    active: Active,
    sink: Sink)

  /** Idle, with every scanner freshly cleared, over the given sink. */
  function Start(sink: Sink): Lexer
  {
    Lexer(NumberScanner.Cleared, StringScanner.Cleared, TagScanner.Cleared, Idle, sink)
  }

  /** The state at the top of `initialize`: three freshly constructed scanners, no tokens. */
  const Fresh: Lexer := Start(EmptySink)

  /** The characters the loop skips between tokens: NUL, space, tab, CR and LF. */
  predicate IsWhitespace(c: char)
  {
    c == '\0' || c == ' ' || c == '\t' || c == '\r' || c == '\n'
  }

  /** After one character: the scan goes on, or it stopped with an error and the sink as it was when thrown. */
  datatype Outcome = Next(lexer: Lexer) | Halt(sink: Sink, error: ScanError)

  function SinkOf(o: Outcome): Sink
  {
    match o
    case Next(lx) => lx.sink
    case Halt(sink, _) => sink
  }

  /**
    The probe of an idle loop: the first of number, string, tag whose `check_begin` accepts
    `c` becomes current. The three start sets are disjoint. A character none accepts is
    skipped when it is whitespace and otherwise fails with InvalidToken. Probing emits nothing.
   */
  function Probe(lx: Lexer, c: char): (r: Outcome)
    requires lx.active == Idle
    ensures r.Next? ==> r.lexer.sink == lx.sink
    ensures NumberScanner.Starts(c) ==>
              r == Next(lx.(number := NumberScanner.State(lx.number.buffer + [c], lx.number.usingDot), active := InNumber))
    ensures c == '`' ==> r == Next(lx.(active := InString))
    ensures c == '[' ==> r == Next(lx.(tag := TagScanner.State(lx.tag.buffer + ['['], lx.tag.parsingEnd), active := InTag))
    ensures IsWhitespace(c) ==> r == Next(lx)
    ensures r.Halt? <==> !NumberScanner.Starts(c) && c != '`' && c != '[' && !IsWhitespace(c)
    ensures r.Halt? ==> r == Halt(lx.sink, InvalidToken(c))
  {
    match NumberScanner.CheckBegin(lx.number, c)
    case Some(n) => Next(lx.(number := n, active := InNumber))
    case None =>
      match StringScanner.CheckBegin(lx.str, c)
      case Some(s) => Next(lx.(str := s, active := InString))
      case None =>
        match TagScanner.CheckBegin(lx.tag, c)
        case Some(t) => Next(lx.(tag := t, active := InTag))
        case None =>
          if IsWhitespace(c) then Next(lx) else Halt(lx.sink, InvalidToken(c))
  }

  /**
    One iteration of the loop. The sink only grows, by at most one token; a scanner that
    throws leaves the sink as it was before this character.
   */
  function Step(lx: Lexer, c: char): (r: Outcome)
    ensures Extends(lx.sink, SinkOf(r))
    ensures |SinkOf(r).tokens| <= |lx.sink.tokens| + 1
    ensures |SinkOf(r).strings.entries| <= |lx.sink.strings.entries| + 1
  {
    match lx.active
    case Idle => Probe(lx, c)
    case InNumber =>
      (match NumberScanner.Parsing(lx.number, lx.sink, c)
       case Continue(n, sink) => Next(lx.(number := n, sink := sink))
       case Done(n, sink) => Probe(lx.(number := n, sink := sink, active := Idle), c)
       case Fail(e) => Halt(lx.sink, e))
    case InString =>
      (match StringScanner.Parsing(lx.str, lx.sink, c)
       case Continue(s, sink) => Next(lx.(str := s, sink := sink))
       case Done(s, sink) => Probe(lx.(str := s, sink := sink, active := Idle), c)
       case Fail(e) => Halt(lx.sink, e))
    case InTag =>
      match TagScanner.Parsing(lx.tag, lx.sink, c)
      case Continue(t, sink) => Next(lx.(tag := t, sink := sink))
      case Done(t, sink) => Probe(lx.(tag := t, sink := sink, active := Idle), c)
      case Fail(e) => Halt(lx.sink, e)
  }

  /** The `for` loop over `input`, stopping at the first error. */
  function Run(lx: Lexer, input: string): (r: Outcome)
    ensures Extends(lx.sink, SinkOf(r))
    ensures |SinkOf(r).tokens| <= |lx.sink.tokens| + |input|
    ensures |SinkOf(r).strings.entries| <= |lx.sink.strings.entries| + |input|
    decreases |input|
  {
    if |input| == 0 then Next(lx)
    else
      match Step(lx, input[0])
      case Halt(sink, e) => Halt(sink, e)
      case Next(lx') => Run(lx', input[1..])
  }

  /** What a constructed tokenizer exposes: `tokens_`, `string_manager_` and the error, if any. */
  datatype Tokenized = Tokenized(tokens: seq<Token>, strings: StringManager.Manager, error: Option<ScanError>)

  /**
    `initialize()` over already comment-stripped text: run the loop from fresh scanners; if the
    input ends while a scanner is current, fail with Unterminated. On failure the tokens pushed
    before it are kept. Each character contributes at most one token.
   */
  function Initialize(input: string): (t: Tokenized)
    ensures |t.tokens| <= |input|
    ensures |t.strings.entries| <= |input|
  {
    match Run(Fresh, input)
    case Halt(sink, e) => Tokenized(sink.tokens, sink.strings, Some(e))
    case Next(lx) =>
      Tokenized(lx.sink.tokens, lx.sink.strings, if lx.active == Idle then None else Some(Unterminated))
  }

  /** The file constructor reads the file and appends a NUL before scanning. */
  function FromFile(contents: string): Tokenized
  {
    Initialize(contents + ['\0'])
  }

  /** The `what()` text of each exception; the `(int)` code after an invalid character is not modelled. */
  function Message(e: ScanError): (m: string)
    ensures |m| > 0
  {
    match e
    case DuplicateDot => "number dot is only use once!"
    case InvalidTagChar(text) => "invalid tag string: `" + text + "`"
    case InvalidToken(c) => "invalid token found `" + [c] + "`"
    case Unterminated => "parser not end!"
  }

  /** `error_reason_`: empty after a clean scan, else the message of the one error followed by a newline. */
  function ErrorReason(t: Tokenized): (r: string)
    ensures r == [] <==> t.error.None?
    ensures t.error.Some? ==> r[..|r| - 1] == Message(t.error.value) && r[|r| - 1] == '\n'
  {
    match t.error
    case None => []
    case Some(e) => Message(e) + ['\n']
  }
}
