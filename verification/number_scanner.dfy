/** `token_parser::number` (code/common/script/tokenizer.cpp:31-102). */
module NumberScanner {
  import opened Wrappers
  import opened Tokens
  import opened ScannerBase

  /** `buffer_` and `is_using_dot_`. */
  datatype State = State(buffer: string, usingDot: bool)

  /** The state `clear()` leaves (also the constructed state). */
  const Cleared: State := State([], false)

  /** `check(c)`: an ASCII decimal digit. */
  predicate Check(c: char)
  {
    '0' <= c <= '9'
  }

  /** The characters `check_begin` accepts. */
  predicate Starts(c: char)
  {
    Check(c) || c == '-' || c == '+'
  }

  /** `check_begin(c)`: on a digit or sign, takes `c` into the buffer and starts; otherwise leaves the state alone. */
  function CheckBegin(s: State, c: char): (r: Option<State>)
    ensures r.Some? <==> Starts(c)
    ensures r.Some? ==> r.value.buffer == s.buffer + [c] && r.value.usingDot == s.usingDot
  {
    if Starts(c) then Some(State(s.buffer + [c], s.usingDot)) else None
  }

  /**
    `parsing(c)`: digits and the first `.` accumulate; a second `.` throws; any other
    character finishes the number: one number token carrying the buffer is pushed, the
    scanner is cleared, and `c` itself is not taken (the caller probes it again).
   */
  function Parsing(s: State, sink: Sink, c: char): (r: Feed<State>)
    ensures r.Fail? <==> c == '.' && s.usingDot
    ensures r.Fail? ==> r.error == DuplicateDot
    ensures r.Continue? <==> Check(c) || (c == '.' && !s.usingDot)
    ensures r.Continue? ==> r.sink == sink && r.scanner.buffer == s.buffer + [c]
    ensures r.Continue? ==> (r.scanner.usingDot <==> s.usingDot || c == '.')
    ensures r.Done? ==> r.scanner == Cleared
    ensures r.Done? ==> r.sink.tokens == sink.tokens + [NumberToken(s.buffer)] && r.sink.strings == sink.strings
  {
    if Check(c) then
      Continue(State(s.buffer + [c], s.usingDot), sink)
    else if c == '.' then
      if s.usingDot then Fail(DuplicateDot)
      else Continue(State(s.buffer + [c], true), sink)
    else
      Done(Cleared, PushNumber(sink, s.buffer))
  }
}
