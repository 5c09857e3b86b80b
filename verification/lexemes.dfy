/**
  The source spelling of the three token kinds, and which spellings the scanners can produce.
  A token together with the string store resolves to one of these.
 */
module Lexemes {
  import opened Wrappers
  import opened Tokens
  import opened ScannerBase
  import StringManager
  import NumberScanner
  import TagScanner

  /** A token with its text looked up: a number's lexeme, a string's text, a tag's text with brackets. */
  datatype Lexeme = NumberLexeme(text: string) | StringLexeme(text: string) | TagLexeme(text: string)

  /** No two `.` in `s`. */
  predicate AtMostOneDot(s: string)
  {
    forall i, j :: 0 <= i < j < |s| ==> !(s[i] == '.' && s[j] == '.')
  }

  /** What the number scanner accumulates: a digit or sign, then digits and at most one `.`. */
  predicate ValidNumber(s: string)
  {
    && |s| > 0
    && NumberScanner.Starts(s[0])
    && (forall i :: 0 < i < |s| ==> NumberScanner.Check(s[i]) || s[i] == '.')
    && AtMostOneDot(s)
  }

  /** Every backtick in `s` directly follows a backslash. */
  predicate EscapedBackticks(s: string)
  {
    forall i :: 0 <= i < |s| && s[i] == '`' ==> 0 < i && s[i - 1] == '\\'
  }

  /** What the string scanner stores: backticks only when escaped, and no trailing backslash. */
  predicate ValidString(s: string)
  {
    EscapedBackticks(s) && (|s| == 0 || Last(s) != '\\')
  }

  /** Every character of `s` is allowed inside a tag. */
  predicate TagBody(s: string)
  {
    forall i :: 0 <= i < |s| ==> TagScanner.Check(s[i])
  }

  /** What the tag scanner stores: `[`, allowed characters, `]`. */
  predicate ValidTag(s: string)
  {
    |s| >= 2 && s[0] == '[' && s[|s| - 1] == ']' && TagBody(s[1..|s| - 1])
  }

  predicate Valid(l: Lexeme)
  {
    match l
    case NumberLexeme(s) => ValidNumber(s)
    case StringLexeme(s) => ValidString(s)
    case TagLexeme(s) => ValidTag(s)
  }

  /** How the lexeme is written in a script: strings get their backticks back, tags already carry their brackets. */
  function Spell(l: Lexeme): string
  {
    match l
    case NumberLexeme(s) => s
    case StringLexeme(s) => ['`'] + s + ['`']
    case TagLexeme(s) => s
  }

  /** The token's lexeme, looked up in the store; None when its index is out of range. */
  function Resolve(t: Token, m: StringManager.Manager): (r: Option<Lexeme>)
    ensures r.Some? <==> Get(t, m).Success?
    ensures r.Some? && t.NumberToken? ==> r.value == NumberLexeme(t.lexeme)
    ensures r.Some? && t.StringToken? ==> GetString(t, m) == Success(Some(r.value.text)) && r.value.StringLexeme?
    ensures r.Some? && t.TagToken? ==> GetTag(t, m) == Success(Some(r.value.text)) && r.value.TagLexeme?
  {
    match t
    case NumberToken(s) => Some(NumberLexeme(s))
    case StringToken(i) => if i < |m.entries| then Some(StringLexeme(m.entries[i])) else None
    case TagToken(i) => if i < |m.entries| then Some(TagLexeme(m.entries[i])) else None
  }

  /** Appending to the store never changes what an already resolvable token resolves to. */
  lemma ResolveStable(t: Token, m: StringManager.Manager, m': StringManager.Manager)
    requires m.entries <= m'.entries
    requires Resolve(t, m).Some?
    ensures Resolve(t, m') == Resolve(t, m)
  {
  }
}
