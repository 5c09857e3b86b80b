/**
  Laws of the dispatch loop over whole inputs: scanning a concatenation is scanning its
  parts one after the other, the first error ends the scan, tokens pushed on a prefix of
  the input stay in place, and whitespace between tokens does nothing.
 */
module ScanLaws {
  import opened Wrappers
  import opened Tokens
  import opened ScannerBase
  import opened Tokenizer

  /** Continue a scan that stopped at `o` over `rest`; a halted scan stays halted. */
  function Then(o: Outcome, rest: string): Outcome
  {
    match o
    case Halt(sink, e) => Halt(sink, e)
    case Next(lx) => Run(lx, rest)
  }

  /** Scanning `a + b` is scanning `a`, then `b` from wherever `a` left off. */
  lemma {:induction false} RunAppend(lx: Lexer, a: string, b: string)
    ensures Run(lx, a + b) == Then(Run(lx, a), b)
    decreases |a|
  {
    if |a| == 0 {
      assert a + b == b;
    } else {
      assert (a + b)[0] == a[0];
      assert (a + b)[1..] == a[1..] + b;
      match Step(lx, a[0])
      case Halt(_, _) =>
      case Next(lx') => RunAppend(lx', a[1..], b);
    }
  }

  /** `Run` is the loop one character at a time: one step on `c`, then the rest. */
  lemma RunCons(lx: Lexer, c: char, rest: string)
    ensures Run(lx, [c] + rest) == Then(Step(lx, c), rest)
  {
  }

  /** The first error ends the scan: once a prefix fails, nothing after it is looked at. */
  lemma FirstErrorHalts(a: string, b: string)
    requires Run(Fresh, a).Halt?
    ensures Initialize(a + b) == Initialize(a)
    ensures Initialize(a).error == Some(Run(Fresh, a).error)
  {
    RunAppend(Fresh, a, b);
  }

  /**
    Tokens pushed while scanning a prefix of the input are kept, in the same order, however
    the scan of the whole input ends; so is the store.
   */
  lemma TokensKeptOnPrefix(a: string, b: string)
    ensures Initialize(a).tokens <= Initialize(a + b).tokens
    ensures Initialize(a).strings.entries <= Initialize(a + b).strings.entries
  {
    RunAppend(Fresh, a, b);
  }

  predicate AllWhitespace(s: string)
  {
    forall i :: 0 <= i < |s| ==> IsWhitespace(s[i])
  }

  /** An idle loop skips whitespace without emitting anything and stays idle. */
  lemma {:induction false} WhitespaceSkipped(lx: Lexer, ws: string)
    requires lx.active == Idle
    requires AllWhitespace(ws)
    ensures Run(lx, ws) == Next(lx)
    decreases |ws|
  {
    if |ws| > 0 {
      assert IsWhitespace(ws[0]);
      WhitespaceSkipped(lx, ws[1..]);
    }
  }

  /**
    A clean scan of a buffer gives the same result when the text comes from a file, which
    appends a NUL.
   */
  lemma FileSuffixHarmless(s: string)
    requires Initialize(s).error == None
    ensures FromFile(s) == Initialize(s)
  {
    RunAppend(Fresh, s, ['\0']);
    assert IsWhitespace('\0');
  }
}
