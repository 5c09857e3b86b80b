/** `token_parser::string` (code/common/script/tokenizer.cpp:104-157). */
module StringScanner {
  import opened Wrappers
  import opened Tokens
  import opened ScannerBase
  import StringManager

  /** `buffer_` and `is_parsing_end_`. */
  datatype State = State(buffer: string, parsingEnd: bool)

  /** The state `clear()` leaves (also the constructed state). */
  const Cleared: State := State([], false)

  /** `check_begin(c)`: starts on a backtick; the opening backtick is not stored. */
  function CheckBegin(s: State, c: char): (r: Option<State>)
    ensures r.Some? <==> c == '`'
    ensures r.Some? ==> r.value == s
  {
    if c == '`' then Some(s) else None
  }

  /**
    `parsing(c)`: after a close, the next call only clears and reports done. Otherwise a
    backtick not preceded by `\` in the buffer closes the string: the buffer (without either
    backtick) is stored, one string token pushed, and the scanner stays active until the next
    call. Every other character, a backslash included, is appended verbatim. Never throws.
   */
  function Parsing(s: State, sink: Sink, c: char): (r: Feed<State>)
    ensures !r.Fail?
    ensures r.Done? <==> s.parsingEnd
    ensures r.Done? ==> r.scanner == Cleared && r.sink == sink
    ensures r.Continue? ==> (r.scanner.parsingEnd <==> Closes(s.buffer, c, '`'))
    ensures r.Continue? && Closes(s.buffer, c, '`') ==>
              && r.sink.strings.entries == sink.strings.entries + [s.buffer]
              && r.sink.tokens == sink.tokens + [StringToken(StringManager.Size(sink.strings))]
              && r.scanner.buffer == []
    ensures r.Continue? && !Closes(s.buffer, c, '`') ==>
              r.sink == sink && r.scanner == State(s.buffer + [c], false)
  {
    if s.parsingEnd then
      Done(Cleared, sink)
    else if Closes(s.buffer, c, '`') then
      // the moved-from buffer is left empty
      Continue(State([], true), PushString(sink, s.buffer))
    else
      Continue(State(s.buffer + [c], false), sink)
  }
}
