/**
  What the three scanners share (`token_parser::base`, code/common/script/tokenizer.cpp:6-29):
  the token vector and string store they append to, the errors they raise, and the
  outcome of one `parsing(c)` call.
 */
module ScannerBase {
  import StringManager
  import opened Tokens

  /** The tokenizer's `tokens_` and `string_manager_`, which every scanner appends to. */
  datatype Sink = Sink(tokens: seq<Token>, strings: StringManager.Manager)

  const EmptySink: Sink := Sink([], StringManager.Empty)

  /** The exceptions the scan raises; the first one ends the scan. */
  datatype ScanError =
    | DuplicateDot              // a second `.` inside one number
    | InvalidTagChar(text: string)  // tag buffer followed by the offending character
    | InvalidToken(c: char)     // a character that starts no token and is not whitespace
    | Unterminated              // input ended while a scanner was still active

  /**
    One `parsing(c)` call: `true` (Continue), `false` (Done), or a throw (Fail).
    The scanner's new state and the sink travel with the two returns.
   */
  datatype Feed<S> = Continue(scanner: S, sink: Sink) | Done(scanner: S, sink: Sink) | Fail(error: ScanError)

  /** Only appends happen: `after` keeps every token and every stored string of `before`, in place. */
  predicate Extends(before: Sink, after: Sink)
  {
    before.tokens <= after.tokens && before.strings.entries <= after.strings.entries
  }

  /** `tokens_.push_back(make_number(...))` for a finished number. */
  function PushNumber(sink: Sink, lexeme: string): (r: Sink)
    ensures Extends(sink, r)
    ensures r.tokens == sink.tokens + [NumberToken(lexeme)] && r.strings == sink.strings
  {
    Sink(sink.tokens + [MakeNumber(lexeme)], sink.strings)
  }

  /** `idx = manager_.set(text); tokens_.push_back(make_string(idx))`. */
  function PushString(sink: Sink, text: string): (r: Sink)
    ensures Extends(sink, r)
    ensures r.strings.entries == sink.strings.entries + [text]
    ensures r.tokens == sink.tokens + [StringToken(StringManager.Size(sink.strings))]
  {
    var (strings, idx) := StringManager.Set(sink.strings, text);
    Sink(sink.tokens + [MakeString(idx)], strings)
  }

  /** `idx = manager_.set(text); tokens_.push_back(make_tag(idx))`. */
  function PushTag(sink: Sink, text: string): (r: Sink)
    ensures Extends(sink, r)
    ensures r.strings.entries == sink.strings.entries + [text]
    ensures r.tokens == sink.tokens + [TagToken(StringManager.Size(sink.strings))]
  {
    var (strings, idx) := StringManager.Set(sink.strings, text);
    Sink(sink.tokens + [MakeTag(idx)], strings)
  }

  function Last(s: string): char
    requires |s| > 0
  {
    s[|s| - 1]
  }

  /** The shared closing test of the string and tag scanners: `(buffer_.empty() || buffer_.back() != '\\') && c == close`. */
  predicate Closes(buffer: string, c: char, close: char)
  {
    (|buffer| == 0 || Last(buffer) != '\\') && c == close
  }
}
