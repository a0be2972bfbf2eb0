# A verified model of a hand-written JSON reader

The repository exports one function, `jsonParse(str)`, written as a closure
over the input string and a cursor `i`. A recursive-descent reader walks the
string one UTF-16 code unit at a time. It has one function per production:
`parseValue`, `parseString`, `parseNumber`, `parseObject`, `parseArray` and
`parseKeyword`. It also has small helpers that skip whitespace, eat a comma
or a colon, and throw a `SyntaxError` named after what they expected. This
project models that reader in Dafny and proves what it accepts, what it
builds and where it fails.

The model has three layers.

- **Module `Grammar`** states each production as a pure function of the
  whole input `s` and a starting cursor `i`. Each function returns the
  production's outcome together with the cursor it leaves behind. There are
  three outcomes:
  - `Absent`: the source's `undefined` return, meaning "not this production";
  - `Ok(value)`;
  - `Fail(error)`: the exception, together with where the cursor stood when
    it was thrown.
- **Module `Reader`** is the reader itself. The class `Parser` holds the
  text and the cursor `i`, and its methods move the cursor with the same
  loops and branches as the source. A thrown exception becomes an early
  `Fail` return, which every caller passes on. Each method is proved to
  leave the cursor and return the value that its `Grammar` function
  prescribes, from wherever it was called. The method `Reader.Parse` is the
  exported function.
- **Modules `Strings`, `Numbers` and `Values`** prove what the grammar
  means:
  - A string literal decodes piece by piece. Escaping a text and reading it
    back gives the text again.
  - The number lexemes accepted are exactly the sign/integer/fraction/exponent
    forms of `Numbers.ValidForm`. The digit scanning is greedy. Each
    `Expecting a digit` case is stated.
  - A printer `Values.Render` is defined, and the reader gives every
    well-formed value back from its printed text. This holds inside arrays
    and objects, and at the top level with any whitespace around it.
  - Arrays keep their order.
  - The last occurrence of a repeated object key wins. The keys are listed
    in the order of their first occurrence.
  - Each error the reader throws is stated with the input that provokes it.
    Each error thrown inside a production is also stated with the cursor
    where it is thrown. `Expected End of Input` is thrown only by the
    exported function, and `Grammar.ReadDocument` reports it without a
    cursor.
- **Module `Examples`** restates the repository's test suite as lemmas
  about `Grammar.ReadDocument`, and adds the reader's departures from JSON.

Input and decoded strings are sequences of UTF-16 code units (`Json.Unit`).
A `\uXXXX` escape can yield a lone surrogate, which a Dafny `char` cannot
hold. Number values are kept as their lexeme, the slice of input that
`Number(...)` would convert.

The reader's departures from JSON are kept as written:

- A simple escape decodes to the escaped unit itself, so `\n` gives `n`.
- A number may start with `.` or `e`, so `.5` and `e5` are read as numbers.
- An empty or all-blank input reads as `undefined`.
- An array or object member with no value holds `undefined`, so `[1,]`
  gives `[1, undefined]` and `[,]` gives `[undefined, undefined]`.

A `\u` escape cut short by the end of input needs special care. If all its
present units are hexadecimal, `isHexadecimal` receives `undefined` and
calls `toLowerCase` on it. That throws a `TypeError`, not the
`Expecting an escape unicode` syntax error. The model follows the code:

- `Json.Error` has a `TypeError` case.
- `Grammar.ReadQuad` tells the missing unit (`PastEnd`) apart from a
  present non-hexadecimal one (`NotHex`).
- `Strings.TruncatedUnicodeEscape` and `Examples.TruncatedUnicode` state
  the outcome.

## Model

| member | source | states |
|---|---|---|
| Reader.Parse | src/json-parse-implementation.ts:4-10 | the exported function returns exactly `ReadDocument(text)`: a value, or the error the reader throws |
| Reader.Parser.constructor | src/json-parse-implementation.ts:4-5 | the reader starts on the given text with the cursor at 0 |
| Reader.Parser.ParseValue | src/json-parse-implementation.ts:14-29 | skips whitespace, reads one production, skips whitespace; the outcome and the new cursor are `ReadValue(s, old(i))`, and the cursor stays within the input |
| Reader.Parser.ParseAlternatives | src/json-parse-implementation.ts:17-24 | tries string, number, object, array, `true`, `false`, `null` in turn; it agrees with `Production` and stops at the first alternative that matches or throws |
| Reader.Parser.ParseString | src/json-parse-implementation.ts:31-84 | the loop keeps `ReadString(s, old(i)) == StringChars(s, i, result)`; the outcome and cursor are `ReadString`'s, including the escape errors, the `TypeError` and `Unexpected EOF` |
| Reader.Parser.ParseNumber | src/json-parse-implementation.ts:86-130 | agrees with `ReadNumber`: the consumed slice on success, `Expecting a digit` where a digit is required, `Absent` when nothing was consumed |
| Reader.Parser.SkipInteger | src/json-parse-implementation.ts:94-102 | moves the cursor to `IntegerEnd`: past a lone `0`, or past a nonzero digit and all digits after it |
| Reader.Parser.SkipFraction | src/json-parse-implementation.ts:104-111 | agrees with `FractionScan`; `complete` is false exactly where `expectDigit` throws after `.` |
| Reader.Parser.SkipExponent | src/json-parse-implementation.ts:113-125 | agrees with `ExponentScan`; `complete` is false exactly where `expectDigit` throws after the marker and optional sign |
| Reader.Parser.SkipDigits | src/json-parse-implementation.ts:99-101 | the digit loop stops at `DigitEnd`, the first non-digit |
| Reader.Parser.ParseObject | src/json-parse-implementation.ts:132-171 | the loop keeps `ReadObject(s, old(i)) == ObjectMembers(s, i, initial, result)`; members are stored with `Put`; a missing `}` is `Unexpected EOF` |
| Reader.Parser.ParseMember | src/json-parse-implementation.ts:146-164 | one turn of the object loop: the comma and whitespace unless `initial`, then the member, as `ReadMember` says |
| Reader.Parser.ParseKeyValue | src/json-parse-implementation.ts:152-162 | a missing key is `Expecting JSON Key`; otherwise whitespace, the colon and the value, as `KeyValue` says |
| Reader.Parser.ParseArray | src/json-parse-implementation.ts:173-197 | the loop keeps `ReadArray(s, old(i)) == ArrayElements(s, i, initial, result)`; elements are appended in order; a missing `]` is `Unexpected EOF` |
| Reader.Parser.ParseElement | src/json-parse-implementation.ts:184-191 | one turn of the array loop: the comma unless `initial`, then the value, as `ReadElement` says |
| Reader.Parser.ParseKeyword | src/json-parse-implementation.ts:199-204 | agrees with `ReadKeyword`: on a match the cursor moves past the name, otherwise nothing is consumed |
| Reader.Parser.SkipWhitespace | src/json-parse-implementation.ts:208-212 | moves the cursor to `WhitespaceEnd`, the first unit that is not space, newline, tab or carriage return |
| Reader.Parser.Eat | src/json-parse-implementation.ts:216-224 | at the end of input: `Unexpected EOF`, cursor unchanged; on another unit: `Unexpected token`, cursor unchanged; on the expected unit: no error, cursor one further |
| Grammar.IsDigit | src/json-parse-implementation.ts:262 | no contract of its own: the comparison `>= "0" && <= "9"` on a present unit, as in `expectDigit` and the digit loops |
| Grammar.At | src/json-parse-implementation.ts:253-259 | no contract of its own: `str[k] === c`, false past the end where `str[k]` is `undefined`; `expectCharacter` and every other unit check use it |
| Grammar.DigitAt | src/json-parse-implementation.ts:261-265 | no contract of its own: the test of `expectDigit` and of the digit loops, false past the end |
| Grammar.HexDigitValue | src/json-parse-implementation.ts:62-64 | the base-16 value of one hexadecimal unit, as `parseInt(..., 16)` takes it: below 16, and below 10 exactly for a decimal digit |
| Grammar.IsWhitespace | src/json-parse-implementation.ts:209 | no contract of its own: the four units `skipWhitespace` passes, space, newline, tab and carriage return |
| Grammar.IsSimpleEscape | src/json-parse-implementation.ts:44-51 | no contract of its own: the eight units a backslash may precede to stand for themselves |
| Grammar.IsHexadecimal | src/json-parse-implementation.ts:228-233 | no contract of its own: a decimal digit or a letter `a` to `f` in either case, which is what `isHexadecimal` accepts of a present unit |
| Grammar.HexValue | src/json-parse-implementation.ts:62-64 | `parseInt(..., 16)` of four hexadecimal units: the units are the result's four base-16 digits, most significant first |
| Grammar.ReadQuad | src/json-parse-implementation.ts:56-60 | the four checks in order: `Hex` exactly when four hexadecimal units are present, with their value; `PastEnd` exactly when the input ends before the fourth and every present unit is hexadecimal; `NotHex` otherwise |
| Grammar.FractionScan | src/json-parse-implementation.ts:104-111 | without `.` nothing is consumed; the digit check fails exactly when `.` is not followed by a digit, just after the `.`; otherwise the scan ends after a digit, at a non-digit or the end |
| Grammar.ExponentScan | src/json-parse-implementation.ts:113-125 | without `e` or `E` nothing is consumed; a failed digit check stops past the marker at a non-digit or the end; otherwise the scan ends after a digit, at a non-digit or the end |
| Grammar.WhitespaceEnd | src/json-parse-implementation.ts:208-212 | the skip ends within the input, passes only whitespace, and stops at the first non-whitespace unit or the end |
| Grammar.DigitEnd | src/json-parse-implementation.ts:99-101 | the digit loop ends within the input, passes only digits, and stops at a non-digit or the end |
| Grammar.IntegerEnd | src/json-parse-implementation.ts:94-102 | the integer part consumes something exactly when it starts at a digit |
| Grammar.NextStringStep | src/json-parse-implementation.ts:41-77 | one turn of the string loop stays within the input and moves forward when it appends; it closes only on a quote |
| Grammar.StringChars | src/json-parse-implementation.ts:40-83 | the rest of a string literal never reports absence, and the cursor stays within the input |
| Grammar.ReadString | src/json-parse-implementation.ts:31-84 | absent exactly when the cursor is not on `"`, and then nothing is consumed; the cursor stays within bounds |
| Grammar.ReadNumber | src/json-parse-implementation.ts:86-130 | absent consumes nothing; success returns exactly the consumed slice, which is not empty; the only error is `Expecting a digit` |
| Grammar.ReadKeyword | src/json-parse-implementation.ts:199-204 | never throws; matches exactly when the name is a prefix of the rest of the input; a match moves past the name, a miss consumes nothing |
| Grammar.Production | src/json-parse-implementation.ts:17-24 | when no alternative matches, nothing is consumed |
| Grammar.Keywords | src/json-parse-implementation.ts:22-24 | the keyword alternatives never throw; a miss consumes nothing, a match consumes something |
| Grammar.ReadValue | src/json-parse-implementation.ts:14-29 | never absent (a missing value is `undefined`); a value read ends at the end of input or at a non-whitespace unit |
| Grammar.ReadObject | src/json-parse-implementation.ts:132-171 | absent exactly when the cursor is not on `{`, and then nothing is consumed |
| Grammar.ObjectMembers | src/json-parse-implementation.ts:146-170 | the member loop never reports absence and stays within the input |
| Grammar.ReadMember | src/json-parse-implementation.ts:146-164 | one turn of the member loop consumes something when it succeeds |
| Grammar.KeyValue | src/json-parse-implementation.ts:152-162 | a member read consumes something when it succeeds |
| Grammar.ColonValue | src/json-parse-implementation.ts:159-162 | after a key, the colon check and the value consume something when they succeed |
| Grammar.ReadArray | src/json-parse-implementation.ts:173-197 | absent exactly when the cursor is not on `[`, and then nothing is consumed |
| Grammar.ArrayElements | src/json-parse-implementation.ts:184-196 | the element loop never reports absence and stays within the input |
| Grammar.ReadElement | src/json-parse-implementation.ts:184-191 | after the first element, every turn of the loop consumes at least the comma |
| Grammar.ReadDocument | src/json-parse-implementation.ts:4-10 | the exported function always returns a value or throws |
| Json.Lookup | src/json-parse-implementation.ts:162 | a key has a value in an object exactly when it is one of its keys |
| Json.PutLookup | src/json-parse-implementation.ts:162 | after `result[key] = value`, the key maps to the value and every other key keeps its value |
| Json.Put | src/json-parse-implementation.ts:162 | no contract of its own: the assignment `result[key] = value` on an insertion-ordered object; `PutKeys`, `PutLookup`, `PutDistinct`, `PutKeeps` and `PutFresh` state what it does |
| Json.PutKeys | src/json-parse-implementation.ts:162 | after `result[key] = value` the keys are the old keys in their old order, with the key appended last when it was new; an existing key keeps its position |
| Json.PutDistinct | src/json-parse-implementation.ts:162 | storing a member keeps the keys distinct |
| Json.PutKeeps | src/json-parse-implementation.ts:162 | storing under one key leaves another key absent if it was absent |
| Json.PutFresh | src/json-parse-implementation.ts:162 | a new key is added after all existing ones (insertion order) |
| Json.Latest | src/json-parse-implementation.ts:146-164 | the last value written for a key is defined exactly when the key was written |
| Json.PutAllLookup | src/json-parse-implementation.ts:146-164 | after a run of stores, a key maps to its last stored value, or keeps its old value if it was never stored |
| Json.PutAll | src/json-parse-implementation.ts:146-164 | no contract of its own: the object after the loop's stores, in order; `PutAllLookup`, `PutAllKeys` and `PutAllFresh` state what it does |
| Json.FirstOccurrencesOnce | src/json-parse-implementation.ts:146-164 | the first-occurrence listing of a run of keys holds every key of the run and no key twice |
| Json.PutAllKeys | src/json-parse-implementation.ts:146-164 | after a run of stores, the keys are listed in the order of their first store, each once |
| Json.PutAllFresh | src/json-parse-implementation.ts:146-164 | stores of distinct new keys append the members in order |
| Strings.StepPiece | src/json-parse-implementation.ts:41-77 | a plain unit, a simple escape or a `\u` escape in the input is one turn of the loop that appends the unit it stands for |
| Strings.ReadPieces | src/json-parse-implementation.ts:40-78 | the loop reads a run of valid pieces into their decoding, and moves the cursor past their spelling |
| Strings.DecodeString | src/json-parse-implementation.ts:31-84 | a quote, valid pieces and a closing quote read as the decoded pieces, with the cursor after the closing quote |
| Strings.StringShape | src/json-parse-implementation.ts:31-84 | conversely, every successful string read is such a literal, decoded piece by piece |
| Strings.CharsShape | src/json-parse-implementation.ts:40-83 | every successful run of the loop is a run of valid pieces ending at a quote |
| Strings.UnterminatedString | src/json-parse-implementation.ts:80 | a string that reaches the end of input without a closing quote is `Unexpected EOF` at the end |
| Strings.BadEscape | src/json-parse-implementation.ts:70-72 | a backslash followed by a unit that is not a simple escape or `u` (or by nothing) is `Expecting an escape character`, with the cursor on the backslash |
| Strings.BadUnicodeEscape | src/json-parse-implementation.ts:56-68 | a `\u` whose first non-hexadecimal unit among the next four is present is `Expecting an escape unicode`, with the cursor two units on |
| Strings.TruncatedUnicodeEscape | src/json-parse-implementation.ts:56-62 | a `\u` cut short by the end of input, all its present units hexadecimal, is the `TypeError`, with the cursor on the backslash |
| Strings.QuadNotHex | src/json-parse-implementation.ts:56-60 | the four-digit check fails, without running past the input, at the first non-hexadecimal unit |
| Strings.VerbatimString | src/json-parse-implementation.ts:31-84 | such a text between quotes reads as itself |
| Strings.EscapeRoundTrip | src/json-parse-implementation.ts:31-84 | reading the quoted escaped form of any text gives the text back |
| Numbers.DigitRun | src/json-parse-implementation.ts:99-101 | a digit loop stops at the first non-digit |
| Numbers.IntegerRun | src/json-parse-implementation.ts:94-102 | a valid integer part followed by a non-digit is consumed exactly; a lone `0` is consumed exactly whatever follows it |
| Numbers.FractionRun | src/json-parse-implementation.ts:104-111 | a valid fraction part, or none before a unit that is not `.`, is consumed exactly |
| Numbers.ExponentRun | src/json-parse-implementation.ts:113-125 | a valid exponent part, or none before a unit that is not `e`/`E`, is consumed exactly |
| Numbers.NumberRoundTrip | src/json-parse-implementation.ts:86-130 | a valid number form followed by a unit that `parseNumber` does not take into it reads as exactly its lexeme. That unit is described by `Numbers.Ends`: after an exponent, any non-digit; after a fraction, also not `e` or `E`; after the integer part alone, also not `.`, and a digit only after a lone `0` |
| Numbers.NumberShape | src/json-parse-implementation.ts:86-130 | conversely, every successful number read is the lexeme of a valid form |
| Numbers.Accepted | src/json-parse-implementation.ts:86-130 | when the sign check and the three parts succeed, the result is the consumed slice |
| Numbers.FormOf | src/json-parse-implementation.ts:86-125 | the slice consumed by a successful scan is the lexeme of a valid form |
| Numbers.DanglingMinus | src/json-parse-implementation.ts:89-92 | a minus sign not followed by a digit is `Expecting a digit` just after the sign |
| Numbers.DanglingPoint | src/json-parse-implementation.ts:104-107 | a `.` not followed by a digit is `Expecting a digit` just after the `.` |
| Numbers.DanglingExponent | src/json-parse-implementation.ts:113-121 | an exponent marker and optional sign not followed by a digit is `Expecting a digit` where the digit should be |
| Numbers.Rejected | src/json-parse-implementation.ts:113-121 | a failed exponent fails the whole number where the digit was missing |
| Numbers.NumberAbsent | src/json-parse-implementation.ts:86-130 | the number reports absence exactly when the cursor is not on `-`, a digit, `.`, `e` or `E` |
| Values.WhitespaceRun | src/json-parse-implementation.ts:208-212 | whitespace skipping stops exactly at the first non-whitespace unit |
| Values.KeywordMiss | src/json-parse-implementation.ts:199-204 | a keyword whose first letter differs does not match |
| Values.AbsentValue | src/json-parse-implementation.ts:17-24 | at a closer, whitespace or the end, no alternative matches and nothing is consumed |
| Values.StringValue | src/json-parse-implementation.ts:18 | a string read is the production's result |
| Values.NumberValue | src/json-parse-implementation.ts:19 | a number read is the production's result |
| Values.ObjectValue | src/json-parse-implementation.ts:20 | an object read is the production's result |
| Values.ArrayValue | src/json-parse-implementation.ts:21 | an array read is the production's result |
| Values.KeywordsAnswer | src/json-parse-implementation.ts:17-24 | on `t`, `f` or `n`, the production answers what the keyword alternatives answer |
| Values.KeywordValue | src/json-parse-implementation.ts:22-24 | `true`, `false` and `null` read as themselves |
| Values.ValueAround | src/json-parse-implementation.ts:14-29 | a production between non-whitespace units is the value read there, and a missing one is `undefined` |
| Values.ValueRoundTrip | src/json-parse-implementation.ts:14-29 | every well-formed value reads back from its printed text when a closer or the end follows |
| Values.ProductionRoundTrip | src/json-parse-implementation.ts:17-24 | every well-formed value other than `undefined` is the production read from its text |
| Values.ArrayRoundTrip | src/json-parse-implementation.ts:173-197 | an array's printed elements read back as the same elements in the same order, including `undefined` holes |
| Values.ItemsLoop | src/json-parse-implementation.ts:184-191 | the element loop appends the remaining elements in order |
| Values.ElementStep | src/json-parse-implementation.ts:184-191 | one turn of the element loop appends the value it read |
| Values.MemberRoundTrip | src/json-parse-implementation.ts:152-162 | a printed member reads back as the same key and value |
| Values.KeyValueStep | src/json-parse-implementation.ts:152-162 | a key, a colon and a value make a member |
| Values.ColonValueStep | src/json-parse-implementation.ts:160-162 | a colon followed by a value found makes the member of the key and that value |
| Values.MembersLoop | src/json-parse-implementation.ts:146-164 | the member loop stores the remaining members one after another with `Put` |
| Values.ObjectRoundTrip | src/json-parse-implementation.ts:132-171 | an object's printed members read back as the stores of those members in order |
| Values.LastKeyWins | src/json-parse-implementation.ts:146-164 | in a read object, every key maps to the last value written for it in the text, and the keys are listed in the order of their first occurrence in the text |
| Values.UnclosedArray | src/json-parse-implementation.ts:193 | an array whose elements run to the end of input is `Unexpected EOF` |
| Values.ArrayMissingComma | src/json-parse-implementation.ts:185-187 | elements closed by `}` instead of `]`: the comma check is `Unexpected token` at the `}` |
| Values.UnclosedObject | src/json-parse-implementation.ts:166 | an object whose members run to the end of input is `Unexpected EOF` |
| Values.ObjectMissingComma | src/json-parse-implementation.ts:147-149 | members closed by `]` instead of `}`: the comma check is `Unexpected token` at the `]` |
| Values.ObjectTrailingComma | src/json-parse-implementation.ts:152-156 | a comma not followed by a key is `Expecting JSON Key` |
| Values.MemberFails | src/json-parse-implementation.ts:146-157 | a member that throws aborts the object with the same error |
| Values.ColonMissing | src/json-parse-implementation.ts:159-160 | wherever a key is read, a unit other than `:` after it and its whitespace is `Unexpected token`, and the end of input `Unexpected EOF`, at that unit |
| Values.MemberColonMissing | src/json-parse-implementation.ts:146-160 | any turn of the object loop, the first or a later one, whose key has no colon after it ends the object with that error |
| Values.KeyMissing | src/json-parse-implementation.ts:146-157 | any turn of the object loop, the first or a later one, where no string starts the member is `Expecting JSON Key` at that cursor |
| Values.ObjectSeparatorMissing | src/json-parse-implementation.ts:146-166 | after a member, at any cursor and with any members read so far, a unit other than `,` or `}` is `Unexpected token` and the end of input `Unexpected EOF` |
| Values.ArraySeparatorMissing | src/json-parse-implementation.ts:184-193 | after an element, at any cursor and with any elements read so far, a unit other than `,` or `]` is `Unexpected token` and the end of input `Unexpected EOF` |
| Values.MissingColon | src/json-parse-implementation.ts:159-160 | in an object's first member, a key not followed by `:` is `Unexpected token`, or `Unexpected EOF` at the end of input |
| Values.DocumentRoundTrip | src/json-parse-implementation.ts:4-10 | every well-formed value, with any whitespace before and after its text, is read back by the exported function |
| Values.DocumentEnd | src/json-parse-implementation.ts:7-10 | a top-level value succeeds exactly when only whitespace follows it; otherwise it is `Expected End of Input` |
| Values.BlankDocument | src/json-parse-implementation.ts:4-10 | an empty or all-whitespace input reads as `undefined` |
| Examples.Number | test/test.ts:24 | `1` reads as the number 1 |
| Examples.EmptyObject | test/test.ts:25 | `{}` reads as the empty object |
| Examples.OneMember | test/test.ts:26 | `{"key": "value"}` reads as one member |
| Examples.NullKeyword | test/test.ts:27 | `null` reads as null |
| Examples.PlainString | test/test.ts:28 | `"mystring"` reads as the string |
| Examples.MissingColon | test/test.ts:30 | `{"a"b}` is `Unexpected token` |
| Examples.LoneMinus | test/test.ts:32 | `-` is `Expecting a digit` |
| Examples.EmptyFraction | test/test.ts:33 | `-1.` is `Expecting a digit` |
| Examples.EmptyExponent | test/test.ts:34 | `1e` is `Expecting a digit` |
| Examples.SecondFraction | test/test.ts:35 | `-1e-2.2` is `Expected End of Input`: the number stops greedily at `-1e-2` |
| Examples.UnclosedObject | test/test.ts:36 | `{` is `Unexpected EOF` |
| Examples.TwoObjects | test/test.ts:37 | `{}{` is `Expected End of Input` |
| Examples.KeyOnly | test/test.ts:38 | `{"a"` is `Unexpected EOF` |
| Examples.TrailingComma | test/test.ts:39 | `{"a": "b",` is `Expecting JSON Key` |
| Examples.MissingComma | test/test.ts:40 | `{"a":"b""c"` is `Unexpected token` |
| Examples.BadEscape | test/test.ts:41 | `{"a":"foo\}` is `Expecting an escape character` |
| Examples.BadUnicodeEscape | test/test.ts:42-45 | `{"a":"foo\u"}` is `Expecting an escape unicode` |
| Examples.UnclosedArray | test/test.ts:46 | `[` is `Unexpected EOF` |
| Examples.TwoArrays | test/test.ts:47 | `[][` is `Expected End of Input` |
| Examples.UnclosedOuterArray | test/test.ts:48 | `[[]` is `Unexpected EOF` |
| Examples.UnclosedString | test/test.ts:49 | `["]` is `Unexpected EOF` |
| Examples.TrailingHole | src/json-parse-implementation.ts:184-191 | `[1,]` reads as `[1, undefined]` |
| Examples.TwoHoles | src/json-parse-implementation.ts:184-191 | `[,]` reads as `[undefined, undefined]` |
| Examples.NumberKey | src/json-parse-implementation.ts:152-156 | `{1:2}` is `Expecting JSON Key` |
| Examples.SpaceSeparated | src/json-parse-implementation.ts:184-187 | `[1 2]` is `Unexpected token` |
| Examples.RepeatedKey | src/json-parse-implementation.ts:162 | `{"a":1,"a":2}` reads as one member `a` holding 2 |
| Examples.NewlineEscape | src/json-parse-implementation.ts:43-54 | `"\n"` reads as the one-letter string `n` |
| Examples.LeadingPoint | src/json-parse-implementation.ts:104-111 | `.5` reads as a number |
| Examples.BareExponent | src/json-parse-implementation.ts:113-125 | `e5` reads as a number |
| Examples.LeadingZero | src/json-parse-implementation.ts:94-97 | in `01` the lone `0` is the whole number, so the document is `Expected End of Input` |
| Examples.EmptyDocument | src/json-parse-implementation.ts:4-10 | the empty input reads as `undefined` |
| Examples.TruncatedUnicode | src/json-parse-implementation.ts:56-60 | `"\u12` throws the `TypeError` |

## Left out

- `Number(str.slice(start, i))` is not modelled. A number is kept as its lexeme, because the model has no floating point. NaN and rounding do not arise in it.
- JavaScript property semantics are left out. In the source, integer-like keys are enumerated first, and `__proto__` goes through the prototype setter. The model keeps an object as its members in insertion order, with a store replacing the value in place.
- `isHexadecimal` calls `toLowerCase` on its argument. It is modelled as ASCII `0-9`, `a-f` and `A-F`, because Dafny has no Unicode case mapping. A missing unit makes `toLowerCase` throw. That case is modelled as the `TypeError`.
- The message strings of the exceptions are not modelled. Each `SyntaxError` is identified by its `Json.ErrorKind`.
- Exhausting the JavaScript call stack on deeply nested input (a `RangeError`) is not modelled. The model's recursion is unbounded.
- The Deno test harness is not modelled. Its cases are restated as the lemmas of module `Examples`.
- Values.ValueRoundTrip: the printer writes no whitespace inside arrays and objects. Whitespace is covered only around the top-level value (Values.DocumentRoundTrip) and by the error and example lemmas.
- Values.ValueRoundTrip: it holds for well-formed values only. Objects have distinct keys, numbers are accepted lexemes, and no array is a lone `undefined` hole. `[]` reads back as the empty array, never as `[undefined]`.
