/** `token_parser::tag` (code/common/script/tokenizer.cpp:159-234). */
module TagScanner {
  import opened Wrappers
  import opened Tokens
  import opened ScannerBase
  import StringManager

  /** `buffer_` and `is_parsing_end_`. */
  datatype State = State(buffer: string, parsingEnd: bool)

  /** The state `clear()` leaves (also the constructed state). */
  const Cleared: State := State([], false)

  /** `check(c)`: space, `_`, `-` or an ASCII letter. Digits are not allowed. */
  predicate Check(c: char)
  {
    c == ' ' || c == '_' || c == '-' || ('a' <= c <= 'z') || ('A' <= c <= 'Z')
  }

  /** `check_begin(c)`: starts on `[`, which is kept in the buffer. */
  function CheckBegin(s: State, c: char): (r: Option<State>)
    ensures r.Some? <==> c == '['
    ensures r.Some? ==> r.value.buffer == s.buffer + ['['] && r.value.parsingEnd == s.parsingEnd
  {
    if c == '[' then Some(State(s.buffer + [c], s.parsingEnd)) else None
  }

  /**
    `parsing(c)`: after a close, the next call only clears and reports done. Otherwise a `]`
    not preceded by `\` closes the tag: the buffer with the `]` appended is stored (both
    brackets included), one tag token pushed, and the scanner stays active until the next
    call. Any other character must pass `Check`, else the scan fails with the buffer and the
    offending character; a passing character is appended.
   */
  function Parsing(s: State, sink: Sink, c: char): (r: Feed<State>)
    ensures r.Done? <==> s.parsingEnd
    ensures r.Done? ==> r.scanner == Cleared && r.sink == sink
    ensures r.Fail? <==> !s.parsingEnd && !Closes(s.buffer, c, ']') && !Check(c)
    ensures r.Fail? ==> r.error == InvalidTagChar(s.buffer + [c])
    ensures r.Continue? ==> (r.scanner.parsingEnd <==> Closes(s.buffer, c, ']'))
    ensures r.Continue? && Closes(s.buffer, c, ']') ==>
              && r.sink.strings.entries == sink.strings.entries + [s.buffer + [']']]
              && r.sink.tokens == sink.tokens + [TagToken(StringManager.Size(sink.strings))]
              && r.scanner.buffer == []
    ensures r.Continue? && !Closes(s.buffer, c, ']') ==>
              r.sink == sink && r.scanner == State(s.buffer + [c], false)
  {
    if s.parsingEnd then
      Done(Cleared, sink)
    else if Closes(s.buffer, c, ']') then
      // the moved-from buffer is left empty
      Continue(State([], true), PushTag(sink, s.buffer + [c]))
    else if !Check(c) then
      Fail(InvalidTagChar(s.buffer + [c]))
    else
      Continue(State(s.buffer + [c], false), sink)
  }
}
