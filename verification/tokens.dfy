/**
  The token value `token` (code/common/script/tokenizer.h:15-139). The C++ raw union plus
  `type_` discriminant becomes a sum type; the `const string_manager&` back-reference
  becomes an explicit store argument to the accessors.
 */
module Tokens {
  import opened Wrappers
  import StringManager

  /** `token::type` restricted to the kinds a token can be constructed with. */
  datatype Kind = NumberKind | StringKind | TagKind

  /**
    A number token keeps the characters the number scanner accumulated (its lexeme)
    in place of the `double` that `std::atof` makes of them; string and tag tokens
    keep an index into the string store.
   */
  datatype Token = NumberToken(lexeme: string) | StringToken(index: nat) | TagToken(index: nat)

  /** The payload of `token::get()`: `std::variant<double, std::string_view>`. */
  datatype Value = Number(lexeme: string) | Text(text: string)

  function KindOf(t: Token): Kind
  {
    match t
    case NumberToken(_) => NumberKind
    case StringToken(_) => StringKind
    case TagToken(_) => TagKind
  }

  /** `make_number`: a number-kind token whose number accessor yields `lexeme`. */
  function MakeNumber(lexeme: string): (t: Token)
    ensures KindOf(t) == NumberKind
    ensures GetNumber(t) == Some(lexeme)
  {
    NumberToken(lexeme)
  }

  /** `make_string`: a string-kind token reading entry `index` of the store. */
  function MakeString(index: nat): (t: Token)
    ensures KindOf(t) == StringKind
    ensures forall m :: GetString(t, m) == (if index < StringManager.Size(m)
                                             then Success(Some(m.entries[index]))
                                             else Failure(StringManager.OutOfRange(index)))
  {
    StringToken(index)
  }

  /** `make_tag`: a tag-kind token reading entry `index` of the store. */
  function MakeTag(index: nat): (t: Token)
    ensures KindOf(t) == TagKind
    ensures forall m :: GetTag(t, m) == (if index < StringManager.Size(m)
                                          then Success(Some(m.entries[index]))
                                          else Failure(StringManager.OutOfRange(index)))
  {
    TagToken(index)
  }

  /**
    `get()`: the number for a number token, the stored text for a string or tag token;
    the lookup throws out_of_range when the index is not in the store.
   */
  function Get(t: Token, m: StringManager.Manager): (r: Result<Value, StringManager.OutOfRange>)
    ensures KindOf(t) == NumberKind ==> r == Success(Number(t.lexeme))
    ensures KindOf(t) != NumberKind ==> (r.Success? <==> t.index < StringManager.Size(m))
    ensures KindOf(t) != NumberKind && r.Success? ==> r.value == Text(m.entries[t.index])
  {
    match t
    case NumberToken(l) => Success(Number(l))
    case StringToken(i) => TextAt(m, i)
    case TagToken(i) => TextAt(m, i)
  }

  function TextAt(m: StringManager.Manager, i: nat): Result<Value, StringManager.OutOfRange>
  {
    match StringManager.Get(m, i)
    case Success(s) => Success(Text(s))
    case Failure(e) => Failure(e)
  }

  /** `get_number()`: present exactly for number tokens. */
  function GetNumber(t: Token): (r: Option<string>)
    ensures r.Some? <==> KindOf(t) == NumberKind
    ensures r.Some? ==> r.value == t.lexeme
  {
    if t.NumberToken? then Some(t.lexeme) else None
  }

  /** `get_string()`: empty unless the token is a string; then the stored text, or out_of_range. */
  function GetString(t: Token, m: StringManager.Manager): (r: Result<Option<string>, StringManager.OutOfRange>)
    ensures KindOf(t) != StringKind ==> r == Success(None)
    ensures r.Failure? <==> KindOf(t) == StringKind && t.index >= StringManager.Size(m)
    ensures r.Success? && r.value.Some? ==> KindOf(t) == StringKind && r.value.value == m.entries[t.index]
    ensures KindOf(t) == StringKind && r.Success? ==> r.value.Some?
  {
    if t.StringToken? then Present(m, t.index) else Success(None)
  }

  /** `get_tag()`: empty unless the token is a tag; then the stored text, or out_of_range. */
  function GetTag(t: Token, m: StringManager.Manager): (r: Result<Option<string>, StringManager.OutOfRange>)
    ensures KindOf(t) != TagKind ==> r == Success(None)
    ensures r.Failure? <==> KindOf(t) == TagKind && t.index >= StringManager.Size(m)
    ensures r.Success? && r.value.Some? ==> KindOf(t) == TagKind && r.value.value == m.entries[t.index]
    ensures KindOf(t) == TagKind && r.Success? ==> r.value.Some?
  {
    if t.TagToken? then Present(m, t.index) else Success(None)
  }

  function Present(m: StringManager.Manager, i: nat): Result<Option<string>, StringManager.OutOfRange>
  {
    match StringManager.Get(m, i)
    case Success(s) => Success(Some(s))
    case Failure(e) => Failure(e)
  }

  predicate IsText(t: Token)
  {
    t.StringToken? || t.TagToken?
  }
}
