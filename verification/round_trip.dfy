/**
  Writing lexemes out and scanning them back. Scanning the spelling of one valid lexeme
  pushes exactly its token and returns the loop to idle with every scanner cleared, and the
  character after it is scanned as if nothing had come before. So any sequence of valid
  lexemes, written out with whitespace after each one, scans back to the same lexemes with
  no error.
 */
module RoundTrip {
  import opened Wrappers
  import opened Tokens
  import opened ScannerBase
  import opened Lexemes
  import opened Tokenizer
  import opened ScanLaws
  import Invariants
  import StringManager
  import NumberScanner
  import StringScanner
  import TagScanner

  /** The token a scanner pushes for `l`, in the order the scanner does it. */
  function Emit(sink: Sink, l: Lexeme): (r: Sink)
    ensures Extends(sink, r)
    ensures |r.tokens| == |sink.tokens| + 1
    ensures Resolve(r.tokens[|sink.tokens|], r.strings) == Some(l)
  {
    match l
    case NumberLexeme(s) => PushNumber(sink, s)
    case StringLexeme(s) => PushString(sink, s)
    case TagLexeme(s) => PushTag(sink, s)
  }

  /** Push the tokens of `ls` one after the other. */
  function EmitAll(sink: Sink, ls: seq<Lexeme>): Sink
    decreases |ls|
  {
    if |ls| == 0 then sink else Emit(EmitAll(sink, ls[..|ls| - 1]), ls[|ls| - 1])
  }

  /** After pushing `ls`, the old tokens and store are untouched and the new tokens resolve to `ls`, in order. */
  lemma {:induction false} EmitAllResolves(sink: Sink, ls: seq<Lexeme>)
    ensures Extends(sink, EmitAll(sink, ls))
    ensures |EmitAll(sink, ls).tokens| == |sink.tokens| + |ls|
    ensures forall i :: 0 <= i < |ls| ==>
              Resolve(EmitAll(sink, ls).tokens[|sink.tokens| + i], EmitAll(sink, ls).strings) == Some(ls[i])
    decreases |ls|
  {
    if |ls| > 0 {
      var init := ls[..|ls| - 1];
      var s1 := EmitAll(sink, init);
      var r := EmitAll(sink, ls);
      EmitAllResolves(sink, init);
      assert r == Emit(s1, ls[|ls| - 1]);
      forall i | 0 <= i < |ls|
        ensures Resolve(r.tokens[|sink.tokens| + i], r.strings) == Some(ls[i])
      {
        if i < |init| {
          assert r.tokens[|sink.tokens| + i] == s1.tokens[|sink.tokens| + i];
          assert init[i] == ls[i];
          ResolveStable(s1.tokens[|sink.tokens| + i], s1.strings, r.strings);
        }
      }
    }
  }

  function NumberActive(sink: Sink, n: NumberScanner.State): Lexer
  {
    Start(sink).(number := n, active := Tokenizer.InNumber)
  }

  function StringActive(sink: Sink, s: StringScanner.State): Lexer
  {
    Start(sink).(str := s, active := Tokenizer.InString)
  }

  function TagActive(sink: Sink, t: TagScanner.State): Lexer
  {
    Start(sink).(tag := t, active := Tokenizer.InTag)
  }

  /** Inside a number, digits and a first `.` accumulate without emitting anything. */
  lemma {:induction false} NumberBody(sink: Sink, n: NumberScanner.State, rest: string)
    requires forall i :: 0 <= i < |rest| ==> NumberScanner.Check(rest[i]) || rest[i] == '.'
    requires n.usingDot ==> '.' !in rest
    requires AtMostOneDot(rest)
    ensures Run(NumberActive(sink, n), rest) ==
            Next(NumberActive(sink, NumberScanner.State(n.buffer + rest, n.usingDot || '.' in rest)))
    decreases |rest|
  {
    if |rest| > 0 {
      var c := rest[0];
      var n' := NumberScanner.State(n.buffer + [c], n.usingDot || c == '.');
      assert Step(NumberActive(sink, n), c) == Next(NumberActive(sink, n'));
      if c == '.' {
        forall j | 0 <= j < |rest[1..]|
          ensures rest[1..][j] != '.'
        {
          assert rest[1..][j] == rest[j + 1];
        }
      }
      assert '.' in rest[1..] ==> '.' in rest;
      NumberBody(sink, n', rest[1..]);
      assert n'.buffer + rest[1..] == n.buffer + rest;
      assert ('.' in rest) <==> (c == '.' || '.' in rest[1..]);
    }
  }

  /** Inside a string, characters accumulate without closing it while every backtick is escaped. */
  lemma {:induction false} StringBody(sink: Sink, buf: string, rest: string)
    requires EscapedBackticks(buf + rest)
    ensures Run(StringActive(sink, StringScanner.State(buf, false)), rest) ==
            Next(StringActive(sink, StringScanner.State(buf + rest, false)))
    decreases |rest|
  {
    if |rest| > 0 {
      var c := rest[0];
      assert (buf + rest)[|buf|] == c;
      if c == '`' {
        assert (buf + rest)[|buf| - 1] == Last(buf);
      }
      assert !Closes(buf, c, '`');
      assert (buf + [c]) + rest[1..] == buf + rest;
      StringBody(sink, buf + [c], rest[1..]);
    }
  }

  /** Inside a tag, allowed characters accumulate without closing it. */
  lemma {:induction false} TagBodyRun(sink: Sink, buf: string, rest: string)
    requires TagBody(rest)
    ensures Run(TagActive(sink, TagScanner.State(buf, false)), rest) ==
            Next(TagActive(sink, TagScanner.State(buf + rest, false)))
    decreases |rest|
  {
    if |rest| > 0 {
      var c := rest[0];
      assert TagScanner.Check(c);
      assert TagBody(rest[1..]) by {
        forall i | 0 <= i < |rest[1..]| ensures TagScanner.Check(rest[1..][i]) {
          assert rest[1..][i] == rest[i + 1];
        }
      }
      assert (buf + [c]) + rest[1..] == buf + rest;
      TagBodyRun(sink, buf + [c], rest[1..]);
    }
  }

  /** A valid number lexeme, scanned from idle: the number scanner is current and holds the whole lexeme. */
  lemma NumberSpell(sink: Sink, s: string)
    requires ValidNumber(s)
    ensures Run(Start(sink), s) == Next(NumberActive(sink, NumberScanner.State(s, '.' in s)))
  {
    var tail := s[1..];
    assert s == [s[0]] + tail;
    RunCons(Start(sink), s[0], tail);
    assert Step(Start(sink), s[0]) == Next(NumberActive(sink, NumberScanner.State([s[0]], false)));
    forall i, j | 0 <= i < j < |tail| ensures !(tail[i] == '.' && tail[j] == '.') {
      assert tail[i] == s[i + 1] && tail[j] == s[j + 1];
    }
    NumberBody(sink, NumberScanner.State([s[0]], false), tail);
    assert ('.' in s) <==> ('.' in tail);
  }

  /** A valid string, written with its backticks and scanned from idle: the token is pushed, the scanner is still current. */
  lemma StringSpell(sink: Sink, t: string)
    requires ValidString(t)
    ensures Run(Start(sink), Spell(StringLexeme(t))) == Next(StringActive(PushString(sink, t), StringScanner.State([], true)))
  {
    assert Spell(StringLexeme(t)) == ['`'] + (t + ['`']);
    RunCons(Start(sink), '`', t + ['`']);
    assert Step(Start(sink), '`') == Next(StringActive(sink, StringScanner.State([], false)));
    RunAppend(StringActive(sink, StringScanner.State([], false)), t, ['`']);
    assert [] + t == t;
    StringBody(sink, [], t);
    assert Closes(t, '`', '`');
    var lx := StringActive(sink, StringScanner.State(t, false));
    assert Step(lx, '`') == Next(StringActive(PushString(sink, t), StringScanner.State([], true)));
    RunCons(lx, '`', []);
    assert ['`'] + [] == ['`'];
  }

  /** A valid tag scanned from idle: the token is pushed, the scanner is still current. */
  lemma TagSpell(sink: Sink, s: string)
    requires ValidTag(s)
    ensures Run(Start(sink), s) == Next(TagActive(PushTag(sink, s), TagScanner.State([], true)))
  {
    var body := s[1..|s| - 1];
    assert s == ['['] + (body + [']']);
    RunCons(Start(sink), '[', body + [']']);
    assert Step(Start(sink), '[') == Next(TagActive(sink, TagScanner.State(['['], false)));
    RunAppend(TagActive(sink, TagScanner.State(['['], false)), body, [']']);
    TagBodyRun(sink, ['['], body);
    var buf := ['['] + body;
    assert Last(buf) == '[' || TagScanner.Check(Last(buf));
    assert Closes(buf, ']', ']');
    assert buf + [']'] == s;
    var lx := TagActive(sink, TagScanner.State(buf, false));
    assert Step(lx, ']') == Next(TagActive(PushTag(sink, s), TagScanner.State([], true)));
    RunCons(lx, ']', []);
    assert [']'] + [] == [']'];
  }

  /** A number ends at the first character that is neither a digit nor `.`; that character is probed again from idle. */
  lemma NumberTerminated(sink: Sink, n: NumberScanner.State, c: char)
    requires !NumberScanner.Check(c) && c != '.'
    ensures Step(NumberActive(sink, n), c) == Probe(Start(PushNumber(sink, n.buffer)), c)
  {
  }

  /** The call after a string closed only clears the scanner; the character is probed again from idle. */
  lemma ClosedStringAbsorbs(sink: Sink, c: char)
    ensures Step(StringActive(sink, StringScanner.State([], true)), c) == Probe(Start(sink), c)
  {
  }

  /** The call after a tag closed only clears the scanner; the character is probed again from idle. */
  lemma ClosedTagAbsorbs(sink: Sink, c: char)
    ensures Step(TagActive(sink, TagScanner.State([], true)), c) == Probe(Start(sink), c)
  {
  }

  /** From a current scanner, if the first character makes `Step` probe it again from idle, the rest scans from idle. */
  lemma ReprobeThen(lx: Lexer, sink: Sink, rest: string)
    requires |rest| > 0
    requires Step(lx, rest[0]) == Probe(Start(sink), rest[0])
    ensures Run(lx, rest) == Run(Start(sink), rest)
  {
  }

  /**
    After a valid lexeme, the next character is scanned as if the loop had just started over
    idle scanners with the lexeme's token pushed: a number's terminator is probed again, and
    the extra call a closed string or tag absorbs has no other effect.
   */
  lemma LexemeThen(sink: Sink, l: Lexeme, rest: string)
    requires Valid(l)
    requires |rest| > 0
    requires l.NumberLexeme? ==> !NumberScanner.Check(rest[0]) && rest[0] != '.'
    ensures Run(Start(sink), Spell(l) + rest) == Run(Start(Emit(sink, l)), rest)
  {
    RunAppend(Start(sink), Spell(l), rest);
    match l
    case NumberLexeme(s) =>
      NumberSpell(sink, s);
      var n := NumberScanner.State(s, '.' in s);
      NumberTerminated(sink, n, rest[0]);
      ReprobeThen(NumberActive(sink, n), Emit(sink, l), rest);
    case StringLexeme(t) =>
      StringSpell(sink, t);
      ClosedStringAbsorbs(Emit(sink, l), rest[0]);
      ReprobeThen(StringActive(Emit(sink, l), StringScanner.State([], true)), Emit(sink, l), rest);
    case TagLexeme(s) =>
      TagSpell(sink, s);
      ClosedTagAbsorbs(Emit(sink, l), rest[0]);
      ReprobeThen(TagActive(Emit(sink, l), TagScanner.State([], true)), Emit(sink, l), rest);
  }

  /** A script: leading text `lead`, then each lexeme written out followed by its separator. */
  function Render(lead: string, ls: seq<Lexeme>, seps: seq<string>): string
    requires |seps| == |ls|
    decreases |ls|
  {
    if |ls| == 0 then lead
    else Render(lead, ls[..|ls| - 1], seps[..|ls| - 1]) + Spell(ls[|ls| - 1]) + seps[|ls| - 1]
  }

  /** Separators the loop skips: non-empty runs of whitespace. */
  predicate Separators(seps: seq<string>)
  {
    forall i :: 0 <= i < |seps| ==> |seps[i]| > 0 && AllWhitespace(seps[i])
  }

  lemma SeparatorsPrefix(seps: seq<string>, n: nat)
    requires Separators(seps) && n <= |seps|
    ensures Separators(seps[..n])
  {
  }

  /** A script of one lexeme: the leading text, the lexeme, its separator. */
  lemma RenderOne(lead: string, l: Lexeme, sep: string)
    ensures Render(lead, [l], [sep]) == lead + Spell(l) + sep
  {
  }

  /** Rendering one more lexeme appends its spelling and separator. */
  lemma RenderSnoc(lead: string, ls: seq<Lexeme>, seps: seq<string>, l: Lexeme, sep: string)
    requires |seps| == |ls|
    ensures Render(lead, ls + [l], seps + [sep]) == Render(lead, ls, seps) + Spell(l) + sep
  {
  }

  /** One valid lexeme and a whitespace separator, scanned from idle, push its token and return to idle. */
  lemma LexemeAndSeparator(sink: Sink, l: Lexeme, sep: string)
    requires Valid(l)
    requires |sep| > 0 && AllWhitespace(sep)
    ensures Run(Start(sink), Spell(l) + sep) == Next(Start(Emit(sink, l)))
  {
    assert IsWhitespace(sep[0]);
    LexemeThen(sink, l, sep);
    WhitespaceSkipped(Start(Emit(sink, l)), sep);
  }

  /** A script splits into all but its last lexeme, then that lexeme and its separator. */
  lemma RenderLast(lead: string, ls: seq<Lexeme>, seps: seq<string>)
    requires |seps| == |ls| > 0
    ensures Render(lead, ls, seps) ==
            Render(lead, ls[..|ls| - 1], seps[..|ls| - 1]) + (Spell(ls[|ls| - 1]) + seps[|ls| - 1])
  {
  }

  /** A scan that ends idle over `mid`, followed by a valid lexeme and whitespace, ends idle with its token pushed. */
  lemma ScanThenLexeme(sink: Sink, pre: string, mid: Sink, l: Lexeme, sep: string)
    requires Run(Start(sink), pre) == Next(Start(mid))
    requires Valid(l)
    requires |sep| > 0 && AllWhitespace(sep)
    ensures Run(Start(sink), pre + (Spell(l) + sep)) == Next(Start(Emit(mid, l)))
  {
    RunAppend(Start(sink), pre, Spell(l) + sep);
    LexemeAndSeparator(mid, l, sep);
  }

  /** Scanning a script of valid lexemes pushes exactly their tokens and ends idle with every scanner cleared. */
  lemma {:induction false} RenderScan(sink: Sink, lead: string, ls: seq<Lexeme>, seps: seq<string>)
    requires AllWhitespace(lead)
    requires |seps| == |ls| && Separators(seps)
    requires forall i :: 0 <= i < |ls| ==> Valid(ls[i])
    ensures Run(Start(sink), Render(lead, ls, seps)) == Next(Start(EmitAll(sink, ls)))
    decreases |ls|
  {
    if |ls| == 0 {
      WhitespaceSkipped(Start(sink), lead);
    } else {
      var n := |ls| - 1;
      SeparatorsPrefix(seps, n);
      assert forall i :: 0 <= i < n ==> ls[..n][i] == ls[i];
      RenderScan(sink, lead, ls[..n], seps[..n]);
      RenderLast(lead, ls, seps);
      ScanThenLexeme(sink, Render(lead, ls[..n], seps[..n]), EmitAll(sink, ls[..n]), ls[n], seps[n]);
    }
  }

  /**
    Any valid lexemes, written out after leading whitespace with a whitespace separator after
    each, scan back without error to exactly those lexemes, in order.
   */
  lemma Roundtrip(lead: string, ls: seq<Lexeme>, seps: seq<string>)
    requires AllWhitespace(lead)
    requires |seps| == |ls| && Separators(seps)
    requires forall i :: 0 <= i < |ls| ==> Valid(ls[i])
    ensures var t := Initialize(Render(lead, ls, seps));
      && t.error == None
      && |t.tokens| == |ls|
      && forall i :: 0 <= i < |ls| ==> Resolve(t.tokens[i], t.strings) == Some(ls[i])
  {
    RenderScan(EmptySink, lead, ls, seps);
    EmitAllResolves(EmptySink, ls);
  }

  function Spaces(n: nat): (r: seq<string>)
    ensures |r| == n && Separators(r)
  {
    seq(n, _ => " ")
  }

  /** The lexemes of a scan; every token of a finished scan resolves. */
  function LexemesOf(t: Tokenized): seq<Lexeme>
    requires forall i :: 0 <= i < |t.tokens| ==> Resolve(t.tokens[i], t.strings).Some?
  {
    seq(|t.tokens|, i requires 0 <= i < |t.tokens| => Resolve(t.tokens[i], t.strings).value)
  }

  /**
    Whatever a clean scan produces can be written back out, one space after each token, and
    scans again to the same lexemes.
   */
  lemma Rescan(input: string)
    requires Initialize(input).error == None
    ensures var t := Initialize(input);
      && (forall i :: 0 <= i < |t.tokens| ==> Resolve(t.tokens[i], t.strings).Some?)
      && var ls := LexemesOf(t);
      var t' := Initialize(Render([], ls, Spaces(|ls|)));
      && t'.error == None
      && |t'.tokens| == |t.tokens|
      && forall i :: 0 <= i < |t.tokens| ==> Resolve(t'.tokens[i], t'.strings) == Resolve(t.tokens[i], t.strings)
  {
    var t := Initialize(input);
    Invariants.ScanWellFormed(input);
    var ls := LexemesOf(t);
    Roundtrip([], ls, Spaces(|ls|));
  }
}
