# A Dafny model of the toy script tokenizer

The toy engine reads its scripts with `script::tokenizer`. The tokenizer walks the
(comment-stripped) text one character at a time. Three scanners turn it into tokens:

- `token_parser::number`: a digit or sign, then digits and at most one `.`;
- `token_parser::string`: text between backticks, where a backtick after `\` does not close;
- `token_parser::tag`: `[`, then letters, space, `_` or `-`, then `]`.

String and tag texts go into an append-only store (`token::string_manager`). The token keeps
the store index. A number token keeps its value.

The dispatch loop `initialize` works like this:

- It hands every character to the current scanner.
- When that scanner reports it is done, the loop probes the same character against the
  number, string and tag scanners, in that order.
- Between tokens it skips NUL, space, tab, CR and LF.
- It fails on any other character.
- If the input ends while a scanner is still current, the scan fails with "parser not end!".
- The first failure ends the scan. Its message and a newline become the error reason. The
  tokens pushed before the failure are kept.

The model is functional:

- Each scanner's `parsing(c)` is a pure function from its state, the shared token sink and
  `c` to `Continue` (returned true), `Done` (returned false) or `Fail` (threw).
- One loop iteration is `Tokenizer.Step`.
- The loop is `Tokenizer.Run`, a fold of `Step` over the input.
- `Tokenizer.Initialize` adds the end-of-input check and collects the tokens, the store and
  the error.

The proved properties are these:

- The store's laws.
- The accessors of a token.
- Every scanner's step, case by case.
- The invariant that scanners which are not current are cleared, and that the k-th string or
  tag token holds store index k.
- The laws of the loop: the first error halts it, tokens on a prefix are kept, and
  whitespace is skipped.
- A round trip: any valid lexemes, written out with whitespace between them, scan back to
  exactly those lexemes. Whatever a clean scan yields can be written out and scanned again to
  the same thing.
- The end-of-input failures.
- The repository's tokenizer tests, stated on the model.

Some behaviour follows from the code and is worth knowing:

- A number or a closed string or tag that ends the input makes the scan fail with
  Unterminated. A number is only pushed when a character after it ends it. A closed string or
  tag leaves its scanner current for one more call.
- The file constructor appends a NUL, so a file whose text scans cleanly scans the same way
  (`ScanLaws.FileSuffixHarmless`). A bare number such as `7` fails when scanned from a buffer,
  while the same text read from a file scans to one number (`Scenarios.BareNumber`).
- The script shared by the `load` and `iterating` tests contains `[/toy project block]`. The
  tag check rejects `/`, so that scan stops at `[/` with the twelve tokens before it
  (`Scenarios.RowScriptScan`). Those two tests do not look at the error.
- Digits are not tag characters (`Scenarios.DigitInTag`).

Modules, one per file:

- `Wrappers`: Option and Result.
- `StringManager`: the store.
- `Tokens`: the token and its accessors.
- `ScannerBase`: the shared sink, the errors and the result of one `parsing` call.
- `NumberScanner`, `StringScanner`, `TagScanner`: the three scanners.
- `Tokenizer`: the loop, `initialize` and the error text.
- `Lexemes`: what each token spells in a script, and which spellings are valid.
- `Invariants`: what holds at every point of a scan.
- `ScanLaws`: the laws of the loop over whole inputs.
- `RoundTrip`: writing lexemes out and scanning them back.
- `EndOfInput`: the check after the loop.
- `ScanErrors`: the failures inside the loop.
- `Scenarios`: the repository's tests.

## Model

| member | source | states |
|---|---|---|
| StringManager.Get | code/common/script/tokenizer.h:30-33 | `get(idx)` fails with out-of-range exactly when `idx` is at least the store's size |
| StringManager.Set | code/common/script/tokenizer.h:35-40 | `set` returns the size before the append and grows the store by one; `get` of the returned index gives the stored text; every earlier index reads as before |
| StringManager.SetAllIndices | code/common/script/tokenizer.h:35-43 | a run of `set` calls hands out consecutive indices from the old size, each reading back its text, with earlier entries unchanged |
| Tokens.MakeNumber | code/common/script/tokenizer.h:47-50 | the token has number kind and its number accessor yields the given number (its lexeme) |
| Tokens.MakeString | code/common/script/tokenizer.h:52-55 | the token has string kind and `get_string` reads the given store index, for every store |
| Tokens.MakeTag | code/common/script/tokenizer.h:57-60 | the token has tag kind and `get_tag` reads the given store index, for every store |
| Tokens.Get | code/common/script/tokenizer.h:65-79 | `get()` gives the number for a number token; for a string or tag token it gives the stored text, failing exactly when the index is out of range |
| Tokens.GetNumber | code/common/script/tokenizer.h:81-91 | present exactly for number tokens, and then equal to the token's number |
| Tokens.GetString | code/common/script/tokenizer.h:93-103 | empty for other kinds; for a string token it gives the stored text, failing exactly when the index is out of range |
| Tokens.GetTag | code/common/script/tokenizer.h:105-115 | empty for other kinds; for a tag token it gives the stored text, failing exactly when the index is out of range |
| ScannerBase.PushNumber | code/common/script/tokenizer.cpp:79-80 | finishing a number appends one number token and leaves the store alone |
| ScannerBase.PushString | code/common/script/tokenizer.cpp:143-144 | closing a string appends its text to the store and one string token holding the new entry's index |
| ScannerBase.PushTag | code/common/script/tokenizer.cpp:199-202 | closing a tag appends its text to the store and one tag token holding the new entry's index |
| NumberScanner.CheckBegin | code/common/script/tokenizer.cpp:37-45 | a number starts exactly on a digit (`NumberScanner.Check`, the `check` of tokenizer.cpp:87-97), `-` or `+`, which is taken into the buffer |
| NumberScanner.Parsing | code/common/script/tokenizer.cpp:61-85 | digits and a first `.` are appended; a `.` when a dot is already used throws; any other character pushes exactly one number token with the buffer and clears the scanner without taking the character |
| StringScanner.CheckBegin | code/common/script/tokenizer.cpp:110-117 | a string starts exactly on a backtick, which is not stored |
| StringScanner.Parsing | code/common/script/tokenizer.cpp:133-152 | never throws; after a close it only clears and reports done; a backtick not after `\` stores the buffer and pushes a string token; anything else is appended, backslash included |
| TagScanner.CheckBegin | code/common/script/tokenizer.cpp:165-173 | a tag starts exactly on `[`, which is kept in the buffer |
| TagScanner.Parsing | code/common/script/tokenizer.cpp:189-213 | after a close it only clears and reports done; `]` not after `\` stores the buffer with the `]` and pushes a tag token; a character failing the tag check (`TagScanner.Check`, the `check` of tokenizer.cpp:215-230: space, `_`, `-` and ASCII letters) throws with the buffer and that character; otherwise it is appended |
| Tokenizer.Probe | code/common/script/tokenizer.cpp:314-331 | probing order number, string, tag; whitespace is skipped; the loop fails on a character nothing starts and that is not whitespace, and only then |
| Tokenizer.Step | code/common/script/tokenizer.cpp:304-331 | one loop iteration only appends to the tokens and the store, by at most one each |
| Tokenizer.Run | code/common/script/tokenizer.cpp:302-332 | the loop only appends, at most one token and one store entry per character |
| Tokenizer.Initialize | code/common/script/tokenizer.cpp:287-342 | a scan yields no more tokens or store entries than there are characters |
| Tokenizer.Message | code/common/script/tokenizer.cpp:331-335 | every error carries a non-empty message |
| Tokenizer.ErrorReason | code/common/script/tokenizer.cpp:337-341 | the error reason is empty exactly after a clean scan, and otherwise the message followed by a newline |
| Lexemes.Resolve | code/common/script/tokenizer.h:93-115 | a token resolves exactly when `get()` succeeds, to its number or to the text `get_string`/`get_tag` return |
| Lexemes.ResolveStable | code/common/script/tokenizer.h:35-40 | appending to the store never changes what an earlier token resolves to |
| Invariants.NumberStepInv | code/common/script/tokenizer.cpp:61-85 | an open number stays a valid number whose dot flag says whether it holds a `.`, so the number it pushes is valid |
| Invariants.StringStepInv | code/common/script/tokenizer.cpp:133-152 | an open string's backticks are all escaped, and a closed one is a valid string |
| Invariants.TagStepInv | code/common/script/tokenizer.cpp:189-213 | an open tag is `[` and allowed characters, and a closed one is a valid tag |
| Invariants.ProbeInv | code/common/script/tokenizer.cpp:314-325 | a probe from cleared scanners keeps the scan invariant |
| Invariants.StepInv | code/common/script/tokenizer.cpp:304-331 | one iteration keeps the scan invariant, on success and on failure |
| Invariants.RunInv | code/common/script/tokenizer.cpp:302-332 | the whole loop keeps the scan invariant |
| Invariants.FreshInv | code/common/script/tokenizer.cpp:289-291 | freshly constructed scanners satisfy the scan invariant |
| Invariants.ScannersResetWhenIdle | code/common/script/tokenizer.cpp:306-321 | at every point of every scan, with no scanner current every buffer is empty and every flag is reset; with one current, the other two are |
| Invariants.ScanWellFormed | code/common/script/tokenizer.cpp:141-205 | after any scan, the k-th string-or-tag token holds store index k, the store has one entry per such token, every accessor succeeds, and every token is a valid lexeme |
| Invariants.BracketClosesTag | code/common/script/tokenizer.cpp:197-213 | within a scan a `\` never enters a tag, so the next `]` always closes an open tag and pushes it, brackets included |
| ScanLaws.RunAppend | code/common/script/tokenizer.cpp:304-332 | scanning `a + b` is scanning `a`, then `b` from where `a` left off |
| ScanLaws.RunCons | code/common/script/tokenizer.cpp:304-332 | the loop is one step on the first character followed by the rest |
| ScanLaws.FirstErrorHalts | code/common/script/tokenizer.cpp:302-341 | once a prefix fails, nothing after it changes the result, and the error is the prefix's |
| ScanLaws.TokensKeptOnPrefix | code/common/script/tokenizer.cpp:302-341 | the tokens and store entries pushed on a prefix stay in place, however the whole scan ends |
| ScanLaws.WhitespaceSkipped | code/common/script/tokenizer.cpp:327-329 | between tokens, whitespace changes nothing |
| ScanLaws.FileSuffixHarmless | code/common/script/tokenizer.cpp:274-277 | text that scans cleanly scans to the same result with the NUL the file reader appends (`Tokenizer.FromFile`) |
| RoundTrip.NumberBody | code/common/script/tokenizer.cpp:61-77 | inside a number, digits and at most one `.` accumulate without pushing anything |
| RoundTrip.StringBody | code/common/script/tokenizer.cpp:141-151 | inside a string, text whose backticks are escaped accumulates without closing |
| RoundTrip.TagBodyRun | code/common/script/tokenizer.cpp:208-212 | inside a tag, allowed characters accumulate without closing |
| RoundTrip.NumberSpell | code/common/script/tokenizer.cpp:37-77 | a valid number scanned from idle leaves the number scanner current, holding it |
| RoundTrip.StringSpell | code/common/script/tokenizer.cpp:110-148 | a valid string with its backticks pushes its text without the backticks; the scanner stays current |
| RoundTrip.TagSpell | code/common/script/tokenizer.cpp:165-206 | a valid tag pushes its text with both brackets; the scanner stays current |
| RoundTrip.NumberTerminated | code/common/script/tokenizer.cpp:79-84 | the character ending a number is not consumed: it is probed again after the number is pushed |
| RoundTrip.ClosedStringAbsorbs | code/common/script/tokenizer.cpp:135-139 | the call after a string closes only clears it; the character is probed again |
| RoundTrip.ClosedTagAbsorbs | code/common/script/tokenizer.cpp:191-195 | the call after a tag closes only clears it; the character is probed again |
| RoundTrip.ReprobeThen | code/common/script/tokenizer.cpp:306-321 | a character the finished scanner hands back is scanned as from idle |
| RoundTrip.LexemeThen | code/common/script/tokenizer.cpp:306-321 | after any valid lexeme, the scan continues from idle with exactly its token pushed |
| RoundTrip.LexemeAndSeparator | code/common/script/tokenizer.cpp:306-329 | a valid lexeme and whitespace push exactly its token and return to idle |
| RoundTrip.RenderScan | code/common/script/tokenizer.cpp:302-332 | valid lexemes written out with whitespace push exactly their tokens and end idle |
| RoundTrip.Roundtrip | code/common/script/tokenizer.cpp:287-342 | valid lexemes written out with whitespace scan cleanly back to exactly those lexemes, in order |
| RoundTrip.Rescan | code/common/script/tokenizer.cpp:287-342 | the tokens of any clean scan, written out again, scan to the same lexemes |
| EndOfInput.AfterReady | code/common/script/tokenizer.cpp:306-321 | at a token boundary, where the loop is idle or the next character ends the current scanner and is probed again, the rest of the input scans as from idle scanners over the tokens pushed so far |
| EndOfInput.RenderedReady | code/common/script/tokenizer.cpp:302-332 | valid lexemes written out with whitespace end at a token boundary holding exactly their tokens |
| EndOfInput.ReadyAfterLexeme | code/common/script/tokenizer.cpp:306-321 | a valid lexeme written directly after a token boundary, with no whitespace, ends at another one with its token pushed, before any character that does not extend a number |
| EndOfInput.EndsActive | code/common/script/tokenizer.cpp:334-335 | input that ends while a scanner is current fails with "parser not end!", keeping every token and store entry pushed so far |
| EndOfInput.LastNumberUnterminated | code/common/script/tokenizer.cpp:334-335 | after any token boundary, a number ending the input fails with "parser not end!" and is never pushed; the tokens and store are those of the boundary |
| EndOfInput.LastStringUnterminated | code/common/script/tokenizer.cpp:334-335 | after any token boundary, a string closed by the last character is pushed, yet the scan fails with "parser not end!" |
| EndOfInput.LastTagUnterminated | code/common/script/tokenizer.cpp:334-335 | after any token boundary, a tag closed by the last character is pushed, yet the scan fails with "parser not end!" |
| EndOfInput.OpenStringRun | code/common/script/tokenizer.cpp:110-151 | from idle, a backtick and text whose backticks are escaped leave the string scanner current, holding exactly that text, with nothing pushed |
| EndOfInput.UnclosedString | code/common/script/tokenizer.cpp:334-335 | after any token boundary, a string never closed fails with "parser not end!" and is never pushed; the tokens and store are those of the boundary |
| EndOfInput.LastNumberAfterLexemes | code/common/script/tokenizer.cpp:334-335 | after whitespace-separated valid lexemes, a trailing number fails with "parser not end!" and the kept tokens resolve to those lexemes |
| EndOfInput.LastStringAfterLexemes | code/common/script/tokenizer.cpp:334-335 | after whitespace-separated valid lexemes, a string closed last fails with "parser not end!" and the kept tokens resolve to those lexemes and the string |
| EndOfInput.LastTagAfterLexemes | code/common/script/tokenizer.cpp:334-335 | after whitespace-separated valid lexemes, a tag closed last fails with "parser not end!" and the kept tokens resolve to those lexemes and the tag |
| EndOfInput.UnclosedStringAfterLexemes | code/common/script/tokenizer.cpp:334-335 | after whitespace-separated valid lexemes, an unclosed string fails with "parser not end!" and the kept tokens resolve to those lexemes |
| ScanErrors.SecondDotFails | code/common/script/tokenizer.cpp:69-72 | after any token boundary, a second `.` in one number fails the scan, keeping exactly the tokens and store of the boundary |
| ScanErrors.TagHalts | code/common/script/tokenizer.cpp:208-209 | a tag meeting a character it may not hold throws with its text so far and that character |
| ScanErrors.BadTagCharFails | code/common/script/tokenizer.cpp:208-209 | after any token boundary, that failure ends the whole scan, keeping exactly the tokens and store of the boundary |
| ScanErrors.StrayCharFails | code/common/script/tokenizer.cpp:327-331 | after any token boundary, a character that starts nothing and is not whitespace fails the scan, keeping exactly the tokens and store of the boundary |
| ScanErrors.SecondDotAfterLexemes | code/common/script/tokenizer.cpp:69-72 | after whitespace-separated valid lexemes, a second `.` fails and the kept tokens resolve to those lexemes |
| ScanErrors.BadTagCharAfterLexemes | code/common/script/tokenizer.cpp:208-209 | after whitespace-separated valid lexemes, a bad tag character fails and the kept tokens resolve to those lexemes |
| ScanErrors.StrayCharAfterLexemes | code/common/script/tokenizer.cpp:327-331 | after whitespace-separated valid lexemes, a stray character fails and the kept tokens resolve to those lexemes |
| Scenarios.ValidParsing | code/test/tokenizer.cpp:114-131 | the test's script scans cleanly to the five tokens the test reads back |
| Scenarios.ErrNumDotTwice | code/test/tokenizer.cpp:84-98 | `1.0.` fails on the second dot with a non-empty reason, after seven tokens |
| Scenarios.ErrStrNotEnd | code/test/tokenizer.cpp:68-82 | an unclosed string fails with "parser not end!" and a non-empty reason, after seven tokens |
| Scenarios.ErrInvalidTagId | code/test/tokenizer.cpp:100-112 | `)` in a tag fails with the text `[toy project tes)` and no tokens |
| Scenarios.RowScriptScan | code/test/tokenizer.cpp:15-30 | the shared test script yields twelve readable tokens, then fails at `[/` |
| Scenarios.BareNumber | code/common/script/tokenizer.cpp:274-277 | a bare number such as `7` fails unterminated from a buffer, but scans to that one number when read as a file (`Tokenizer.FromFile`, which appends the NUL) |
| Scenarios.DigitInTag | code/common/script/tokenizer.cpp:215-230 | digits are not tag characters: `[v2]` fails at the `2` |
| Scenarios.NumberRightAfterTag | code/common/script/tokenizer.cpp:189-195 | `[a]7`: the tag is pushed and the `7` directly after it is a number that ends the input, so the scan fails with "parser not end!" |
| Scenarios.StrayRightAfterNumber | code/common/script/tokenizer.cpp:79-84 | `1!`: the `!` ends the number, which is pushed, and then fails as a stray character |
| Scenarios.EscapedBacktick | code/common/script/tokenizer.cpp:141-151 | a backtick after `\` stays in the string, and so does the backslash |

## Left out

- Reading the script file (`copy_script`) is I/O. Input is a character sequence. File mode is `Tokenizer.FromFile`, which appends the NUL the reader writes after the contents.
- Comment stripping with `std::regex_replace` happens in both constructors before the scan. It is library regex behaviour, so the scanned text is taken as already stripped.
- `std::atof` and the `double` payload are floating point. A number token keeps the characters the scanner accumulated. The tests' number checks are stated on that text, e.g. `20211222`.
- Exceptions are modelled as a `ScanError` value. `Tokenizer.Message` gives each `what()` text, without the `: (int)N` suffix that `fmt::format` adds after an invalid character.
- `token::type::kUnknown` and `kMax` are left out. No token is built with them.
- The `const string_manager&` inside a token is replaced by a store argument to each accessor.
- The scanner and `tokenizer` classes in `code/common/script/tokenizer.h` after line 140 are an older draft that behaves differently. The model follows `code/common/script/tokenizer.cpp`.
- `code/client/main.cpp` only prints tokens.
- `code/common/common.h` only includes headers.
- The buffer that `std::move` hands to `set` is taken as empty afterwards. It is never read again before the next `clear`.
- Tokenizer.FromFile: models the file constructor as the stripped text followed by a NUL. The source appends the NUL before it strips comments (tokenizer.cpp:275-283), and `//.*` also deletes that NUL when the file ends in a `//` comment with no newline after it. So a file `[a] 7// c` scans as `[a] 7` and fails Unterminated, while `FromFile("[a] 7")` scans cleanly. Comment stripping is left out, so this case is not modelled.
- Tokenizer.Initialize: bounds the counts by the input length, the part of its behaviour that holds for every input. What it returns in each case is stated by the `ScanLaws`, `RoundTrip`, `EndOfInput` and `ScanErrors` lemmas.
- Tokenizer.Message: states only that each text is non-empty. The wording is given by its body and is not a property.
