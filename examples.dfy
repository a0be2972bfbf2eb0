/** The cases of the repository's test suite, and a few more, each stated
    about the exported function's specification `ReadDocument`. */
module Examples {
  import opened Json
  import opened Grammar
  import opened Strings
  import opened Numbers
  import opened Values
  import opened Spans

  const Letter_a: Unit := 'a' as int
  const Letter_e: Unit := 'e' as int
  const Letter_k: Unit := 'k' as int
  const Letter_l: Unit := 'l' as int
  const Letter_n: Unit := 'n' as int
  const Letter_u: Unit := 'u' as int
  const Letter_v: Unit := 'v' as int
  const Letter_y: Unit := 'y' as int
  const Letter_5: Unit := '5' as int
  const Foo: Text := ['f' as int, 'o' as int, 'o' as int]

  /** The outcome of a `SyntaxError` of the given kind. */
  function Thrown(kind: ErrorKind): Outcome<Value>
  {
    Fail(SyntaxError(kind))
  }

  /** A document that is one production from its first unit to its end. */
  lemma Whole(s: Text, v: Value)
    requires 0 < |s| && !IsWhitespace(s[0]) && Production(s, 0) == Parsed(Ok(v), |s|)
    ensures ReadDocument(s) == Ok(v)
  {
  }

  /** A document whose first production fails. */
  lemma Failing(s: Text, error: Error, at: nat)
    requires 0 < |s| && !IsWhitespace(s[0]) && Production(s, 0) == Parsed(Fail(error), at)
    ensures ReadDocument(s) == Fail(error)
  {
  }

  /** An object that fails fails the production. */
  lemma ObjectFails(s: Text, error: Error, at: nat)
    requires At(s, 0, LeftBrace) && ReadObject(s, 0) == Parsed(Fail(error), at)
    ensures Production(s, 0) == Parsed(Fail(error), at)
  {
    NumberAbsent(s, 0);
  }

  /** An array that fails fails the production. */
  lemma ArrayFails(s: Text, error: Error, at: nat)
    requires At(s, 0, LeftBracket) && ReadArray(s, 0) == Parsed(Fail(error), at)
    ensures Production(s, 0) == Parsed(Fail(error), at)
  {
    NumberAbsent(s, 0);
  }

  /** A string that fails fails the value. */
  lemma StringFails(s: Text, i: nat, error: Error, at: nat)
    requires i < |s| && !IsWhitespace(s[i]) && ReadString(s, i) == Parsed(Fail(error), at)
    ensures ReadValue(s, i) == Parsed(Fail(error), at)
  {
  }

  lemma Number()
    ensures ReadDocument(Units("1")) == Ok(Num(Units("1")))
  {
    var s := Units("1");
    var f := NumberForm(false, s, None, None);
    assert Lexeme(f) == s;
    NumberRoundTrip(s, 0, f);
    NumberValue(s, 0, s, 1);
    Whole(s, Num(s));
  }

  lemma EmptyObject()
    ensures ReadDocument(Units("{}")) == Ok(Obj([]))
  {
  }

  lemma OneMember()
    ensures ReadDocument(Units("{\"key\": \"value\"}")) == Ok(Obj([Member(Units("key"), Str(Units("value")))]))
  {
    var s, key, value := Units("{\"key\": \"value\"}"), Units("key"), Units("value");
    assert key == [Letter_k, Letter_e, Letter_y];
    assert value == [Letter_v, Letter_a, Letter_l, Letter_u, Letter_e];
    OneMemberStrings(s, key, value);
    OneMemberRead(s, key, value);
  }

  lemma OneMemberRead(s: Text, key: Text, value: Text)
    requires |s| == 16 && s[0] == LeftBrace && s[6] == Colon && s[7] == ' ' as int && s[15] == RightBrace
    requires ReadString(s, 1) == Parsed(Ok(key), 6) && ReadString(s, 8) == Parsed(Ok(value), 15)
    ensures ReadDocument(s) == Ok(Obj([Member(key, Str(value))]))
  {
    StringValue(s, 8, value, 15);
    assert WhitespaceEnd(s, 7) == 8;
    assert ReadValue(s, 7) == Parsed(Ok(Str(value)), 15);
    KeyValueStep(s, 1, key, 6, Str(value), 15);
    assert WhitespaceEnd(s, 1) == 1;
    assert ObjectMembers(s, 15, false, [Member(key, Str(value))]) == Parsed(Ok([Member(key, Str(value))]), 16);
    assert ObjectMembers(s, 1, true, []) == ObjectMembers(s, 15, false, [Member(key, Str(value))]);
    ObjectValue(s, 0, [Member(key, Str(value))], 16);
    Whole(s, Obj([Member(key, Str(value))]));
  }

  lemma OneMemberStrings(s: Text, key: Text, value: Text)
    requires key == [Letter_k, Letter_e, Letter_y] && value == [Letter_v, Letter_a, Letter_l, Letter_u, Letter_e]
    requires |s| == 16 && s[1] == Quote && s[5] == Quote && s[8] == Quote && s[14] == Quote
    requires s[2] == Letter_k && s[3] == Letter_e && s[4] == Letter_y
    requires s[9] == Letter_v && s[10] == Letter_a && s[11] == Letter_l && s[12] == Letter_u && s[13] == Letter_e
    ensures ReadString(s, 1) == Parsed(Ok(key), 6) && ReadString(s, 8) == Parsed(Ok(value), 15)
  {
    assert Holds(s, 2, key);
    VerbatimString(s, 1, key);
    assert Holds(s, 9, value);
    VerbatimString(s, 8, value);
  }

  lemma NullKeyword()
    ensures ReadDocument(Units("null")) == Ok(Null)
  {
  }

  lemma PlainString()
    ensures ReadDocument(Units("\"mystring\"")) == Ok(Str(Units("mystring")))
  {
    var s, t := Units("\"mystring\""), Units("mystring");
    PlainStringRead(s, t);
    StringValue(s, 0, t, 10);
    Whole(s, Str(t));
  }

  lemma PlainStringRead(s: Text, t: Text)
    requires s == Units("\"mystring\"") && t == Units("mystring")
    ensures ReadString(s, 0) == Parsed(Ok(t), 10)
  {
    assert Holds(s, 1, t);
    VerbatimString(s, 0, t);
  }

  lemma MissingColon()
    ensures ReadDocument(Units("{\"a\"b}")) == Thrown(UnexpectedToken)
  {
    var s, key := Units("{\"a\"b}"), Units("a");
    PlainEscape(key);
    assert Holds(s, 0, [LeftBrace] + Quoted(key));
    Values.MissingColon(s, 0, key, 4);
    ObjectFails(s, SyntaxError(UnexpectedToken), 4);
    Failing(s, SyntaxError(UnexpectedToken), 4);
  }

  lemma LoneMinus()
    ensures ReadDocument(Units("-")) == Thrown(ExpectingADigit)
  {
  }

  lemma EmptyFraction()
    ensures ReadDocument(Units("-1.")) == Thrown(ExpectingADigit)
  {
  }

  lemma EmptyExponent()
    ensures ReadDocument(Units("1e")) == Thrown(ExpectingADigit)
  {
  }

  lemma SecondFraction()
    ensures ReadDocument(Units("-1e-2.2")) == Thrown(ExpectedEndOfInput)
  {
    SecondFractionRead(Units("-1e-2.2"));
  }

  lemma SecondFractionRead(s: Text)
    requires |s| == 7 && s[0] == Minus && s[1] == '1' as int && s[2] == LowerE && s[3] == Minus
    requires s[4] == '2' as int && s[5] == Point && s[6] == '2' as int
    ensures ReadDocument(s) == Thrown(ExpectedEndOfInput)
  {
    var f := NumberForm(true, [s[1]], None, Some(Exponent(LowerE, [Minus], [s[4]])));
    assert Lexeme(f) == s[..5];
    SliceHolds(s, 0, 5);
    NumberRoundTrip(s, 0, f);
    NumberValue(s, 0, s[..5], 5);
    assert WhitespaceEnd(s, 0) == 0 && WhitespaceEnd(s, 5) == 5;
    assert ReadValue(s, 0) == Parsed(Ok(Num(s[..5])), 5);
  }

  lemma UnclosedObject()
    ensures ReadDocument(Units("{")) == Thrown(UnexpectedEOF)
  {
  }

  lemma TwoObjects()
    ensures ReadDocument(Units("{}{")) == Thrown(ExpectedEndOfInput)
  {
  }

  lemma KeyOnly()
    ensures ReadDocument(Units("{\"a\"")) == Thrown(UnexpectedEOF)
  {
    var s := Units("{\"a\"");
    Letter(s, 1, Units("a"));
    KeyOnlyRead(s, Units("a"));
  }

  lemma KeyOnlyRead(s: Text, a: Text)
    requires |s| == 4 && s[0] == LeftBrace && ReadString(s, 1) == Parsed(Ok(a), 4)
    ensures ReadDocument(s) == Thrown(UnexpectedEOF)
  {
    assert WhitespaceEnd(s, 1) == 1 && WhitespaceEnd(s, 4) == 4;
    assert KeyValue(s, 1) == Parsed(Fail(SyntaxError(UnexpectedEOF)), 4);
    MemberFails(s, 1, true, [], 1, SyntaxError(UnexpectedEOF), 4);
    ObjectFails(s, SyntaxError(UnexpectedEOF), 4);
    Failing(s, SyntaxError(UnexpectedEOF), 4);
  }

  lemma TrailingComma()
    ensures ReadDocument(Units("{\"a\": \"b\",")) == Thrown(ExpectingJSONKey)
  {
    var s, a, b := Units("{\"a\": \"b\","), Units("a"), Units("b");
    Letter(s, 1, a);
    Letter(s, 6, b);
    TrailingCommaRead(s, a, b);
  }

  lemma TrailingCommaRead(s: Text, a: Text, b: Text)
    requires |s| == 10 && s[0] == LeftBrace && s[4] == Colon && s[5] == ' ' as int && s[9] == Comma
    requires ReadString(s, 1) == Parsed(Ok(a), 4) && ReadString(s, 6) == Parsed(Ok(b), 9)
    ensures ReadDocument(s) == Thrown(ExpectingJSONKey)
  {
    StringValue(s, 6, b, 9);
    assert WhitespaceEnd(s, 5) == 6;
    assert ReadValue(s, 5) == Parsed(Ok(Str(b)), 9);
    KeyValueStep(s, 1, a, 4, Str(b), 9);
    assert WhitespaceEnd(s, 1) == 1;
    assert ObjectMembers(s, 1, true, []) == ObjectMembers(s, 9, false, [Member(a, Str(b))]);
    assert WhitespaceEnd(s, 10) == 10;
    MemberFails(s, 9, false, [Member(a, Str(b))], 10, SyntaxError(ExpectingJSONKey), 10);
    ObjectFails(s, SyntaxError(ExpectingJSONKey), 10);
    Failing(s, SyntaxError(ExpectingJSONKey), 10);
  }

  lemma MissingComma()
    ensures ReadDocument(Units("{\"a\":\"b\"\"c\"")) == Thrown(UnexpectedToken)
  {
    var s, a, b := Units("{\"a\":\"b\"\"c\""), Units("a"), Units("b");
    Letter(s, 1, a);
    Letter(s, 5, b);
    MissingCommaRead(s, a, b);
  }

  lemma MissingCommaRead(s: Text, a: Text, b: Text)
    requires |s| == 11 && s[0] == LeftBrace && s[4] == Colon && s[8] == Quote
    requires ReadString(s, 1) == Parsed(Ok(a), 4) && ReadString(s, 5) == Parsed(Ok(b), 8)
    ensures ReadDocument(s) == Thrown(UnexpectedToken)
  {
    StringValue(s, 5, b, 8);
    assert ReadValue(s, 5) == Parsed(Ok(Str(b)), 8);
    KeyValueStep(s, 1, a, 4, Str(b), 8);
    assert WhitespaceEnd(s, 1) == 1;
    assert ObjectMembers(s, 1, true, []) == ObjectMembers(s, 8, false, [Member(a, Str(b))]);
    assert ReadMember(s, 8, false) == Parsed(Fail(SyntaxError(UnexpectedToken)), 8);
    ObjectFails(s, SyntaxError(UnexpectedToken), 8);
    Failing(s, SyntaxError(UnexpectedToken), 8);
  }

  lemma BadEscape()
    ensures ReadDocument(Units("{\"a\":\"foo\\}")) == Thrown(ExpectingEscapeCharacter)
  {
    var s, a := Units("{\"a\":\"foo\\}"), Units("a");
    Letter(s, 1, a);
    FooEscape(s);
    Strings.BadEscape(s, 5, EscapePieces(Foo), 9);
    FailingValue(s, a, SyntaxError(ExpectingEscapeCharacter), 9);
  }

  lemma BadUnicodeEscape()
    ensures ReadDocument(Units("{\"a\":\"foo\\u\"}")) == Thrown(ExpectingEscapeUnicode)
  {
    BadUnicodeEscapeRead(Units("{\"a\":\"foo\\u\"}"), Units("a"));
  }

  lemma BadUnicodeEscapeRead(s: Text, a: Text)
    requires a == [Letter_a] && |s| == 13 && s[0] == LeftBrace && s[1] == Quote && s[2] == Letter_a
    requires s[3] == Quote && s[4] == Colon && s[5] == Quote
    requires s[6] == Foo[0] && s[7] == Foo[1] && s[8] == Foo[2]
    requires s[9] == Backslash && s[10] == LowerU && s[11] == Quote
    ensures ReadDocument(s) == Thrown(ExpectingEscapeUnicode)
  {
    Letter(s, 1, a);
    FooEscape(s);
    assert !IsHexadecimal(s[11]);
    Strings.BadUnicodeEscape(s, 5, EscapePieces(Foo), 9, 0);
    FailingValue(s, a, SyntaxError(ExpectingEscapeUnicode), 11);
  }

  /** The string value of both escape cases starts with `"foo\`. */
  lemma FooEscape(s: Text)
    requires 9 < |s| && s[5] == Quote && s[6] == Foo[0] && s[7] == Foo[1] && s[8] == Foo[2]
    requires s[9] == Backslash
    ensures var ps := EscapePieces(Foo);
      At(s, 5, Quote) && AllValid(ps) && Holds(s, 6, Spell(ps)) && 9 == 6 + |Spell(ps)|
      && At(s, 9, Backslash)
  {
    EscapeSpelling(Foo);
    PlainEscape(Foo);
    assert Holds(s, 6, Foo);
  }

  /** A one-letter string. */
  lemma Letter(s: Text, i: nat, t: Text)
    requires |t| == 1 && t[0] != Quote && t[0] != Backslash
    requires i + 2 < |s| && s[i] == Quote && s[i + 1] == t[0] && s[i + 2] == Quote
    ensures ReadString(s, i) == Parsed(Ok(t), i + 3)
  {
    VerbatimString(s, i, t);
  }

  /** `{"a":` and then a string that fails. */
  lemma FailingValue(s: Text, a: Text, error: Error, at: nat)
    requires |s| > 5 && s[0] == LeftBrace && s[4] == Colon
    requires ReadString(s, 1) == Parsed(Ok(a), 4) && ReadString(s, 5) == Parsed(Fail(error), at)
    ensures ReadDocument(s) == Fail(error)
  {
    StringFails(s, 5, error, at);
    assert WhitespaceEnd(s, 1) == 1;
    MemberFails(s, 1, true, [], 1, error, at);
    ObjectFails(s, error, at);
    Failing(s, error, at);
  }

  lemma UnclosedArray()
    ensures ReadDocument(Units("[")) == Thrown(UnexpectedEOF)
  {
  }

  lemma TwoArrays()
    ensures ReadDocument(Units("[][")) == Thrown(ExpectedEndOfInput)
  {
  }

  lemma UnclosedOuterArray()
    ensures ReadDocument(Units("[[]")) == Thrown(UnexpectedEOF)
  {
    UnclosedOuterArrayRead(Units("[[]"));
  }

  lemma UnclosedOuterArrayRead(s: Text)
    requires |s| == 3 && s[0] == LeftBracket && s[1] == LeftBracket && s[2] == RightBracket
    ensures ReadDocument(s) == Thrown(UnexpectedEOF)
  {
    assert WhitespaceEnd(s, 2) == 2;
    assert ReadArray(s, 1) == Parsed(Ok([]), 3);
    ArrayValue(s, 1, [], 3);
    assert WhitespaceEnd(s, 1) == 1 && WhitespaceEnd(s, 3) == 3;
    assert ReadValue(s, 1) == Parsed(Ok(Arr([])), 3);
    assert ReadElement(s, 1, true) == Parsed(Ok(Arr([])), 3);
    assert ArrayElements(s, 1, true, []) == ArrayElements(s, 3, false, [Arr([])]);
    assert ArrayElements(s, 3, false, [Arr([])]) == Parsed(Fail(SyntaxError(UnexpectedEOF)), 3);
    ArrayFails(s, SyntaxError(UnexpectedEOF), 3);
    Failing(s, SyntaxError(UnexpectedEOF), 3);
  }

  lemma UnclosedString()
    ensures ReadDocument(Units("[\"]")) == Thrown(UnexpectedEOF)
  {
    UnclosedStringRead(Units("[\"]"));
  }

  lemma UnclosedStringRead(s: Text)
    requires |s| == 3 && s[0] == LeftBracket && s[1] == Quote && s[2] == RightBracket
    ensures ReadDocument(s) == Thrown(UnexpectedEOF)
  {
    assert StringChars(s, 2, []) == Parsed(Fail(SyntaxError(UnexpectedEOF)), 3);
    assert ReadValue(s, 1) == Parsed(Fail(SyntaxError(UnexpectedEOF)), 3);
    assert WhitespaceEnd(s, 1) == 1;
    assert ReadElement(s, 1, true) == Parsed(Fail(SyntaxError(UnexpectedEOF)), 3);
    assert ArrayElements(s, 1, true, []) == Parsed(Fail(SyntaxError(UnexpectedEOF)), 3);
    ArrayFails(s, SyntaxError(UnexpectedEOF), 3);
    Failing(s, SyntaxError(UnexpectedEOF), 3);
  }

  lemma TrailingHole()
    ensures ReadDocument(Units("[1,]")) == Ok(Arr([Num(Units("1")), Undefined]))
  {
    var one := Units("1");
    var items := [Num(one), Undefined];
    Digit(one);
    TrailingHoleText(items);
    DocumentRoundTrip(Arr(items), [], []);
    assert [] + Units("[1,]") + [] == Units("[1,]");
  }

  lemma TrailingHoleText(items: seq<Value>)
    requires items == [Num(Units("1")), Undefined]
    ensures Render(Arr(items)) == Units("[1,]")
  {
    assert items[1..] == [Undefined];
    assert MoreItems([Undefined]) == [Comma];
    assert Items(items) == Units("1") + [Comma];
  }

  /** A lone comma stands between two absent elements. */
  lemma TwoHoles()
    ensures ReadDocument(Units("[,]")) == Ok(Arr([Undefined, Undefined]))
  {
    var items := [Undefined, Undefined];
    assert Render(Arr(items)) == Units("[,]");
    DocumentRoundTrip(Arr(items), [], []);
    assert [] + Units("[,]") + [] == Units("[,]");
  }

  /** A key must be a string. */
  lemma NumberKey()
    ensures ReadDocument(Units("{1:2}")) == Thrown(ExpectingJSONKey)
  {
    NumberKeyRead(Units("{1:2}"));
  }

  lemma NumberKeyRead(s: Text)
    requires |s| == 5 && s[0] == LeftBrace && IsDigit(s[1])
    ensures ReadDocument(s) == Thrown(ExpectingJSONKey)
  {
    assert WhitespaceEnd(s, 1) == 1;
    KeyMissing(s, 1, true, [], 1);
    ObjectFails(s, SyntaxError(ExpectingJSONKey), 1);
    Failing(s, SyntaxError(ExpectingJSONKey), 1);
  }

  /** Whitespace does not separate elements. */
  lemma SpaceSeparated()
    ensures ReadDocument(Units("[1 2]")) == Thrown(UnexpectedToken)
  {
    SpaceSeparatedRead(Units("[1 2]"));
  }

  lemma SpaceSeparatedRead(s: Text)
    requires |s| == 5 && s[0] == LeftBracket && IsDigit(s[1]) && IsWhitespace(s[2]) && IsDigit(s[3])
    ensures ReadDocument(s) == Thrown(UnexpectedToken)
  {
    var one := [s[1]];
    var f := NumberForm(false, one, None, None);
    assert Lexeme(f) == one;
    NumberRoundTrip(s, 1, f);
    NumberValue(s, 1, one, 2);
    assert WhitespaceEnd(s, 1) == 1 && WhitespaceEnd(s, 2) == 3;
    assert ReadElement(s, 1, true) == Parsed(Ok(Num(one)), 3);
    assert [] + [Num(one)] == [Num(one)];
    assert ArrayElements(s, 1, true, []) == ArrayElements(s, 3, false, [Num(one)]);
    ArraySeparatorMissing(s, 3, [Num(one)]);
    assert ReadArray(s, 0) == Parsed(Fail(SyntaxError(UnexpectedToken)), 3);
    ArrayFails(s, SyntaxError(UnexpectedToken), 3);
    Failing(s, SyntaxError(UnexpectedToken), 3);
  }

  /** A repeated key keeps its last value. */
  lemma RepeatedKey()
    ensures ReadDocument(Units("{\"a\":1,\"a\":2}")) == Ok(Obj([Member(Units("a"), Num(Units("2")))]))
  {
    var s, a, one, two := Units("{\"a\":1,\"a\":2}"), Units("a"), Units("1"), Units("2");
    var ms := [Member(a, Num(one)), Member(a, Num(two))];
    Digit(one);
    Digit(two);
    RepeatedKeyText(s, ms);
    ObjectDocument(s, ms);
    PutTwice(a, Num(one), Num(two));
  }

  lemma PutTwice(key: Text, first: Value, second: Value)
    ensures PutAll([], [Member(key, first), Member(key, second)]) == [Member(key, second)]
  {
    var ms := [Member(key, first), Member(key, second)];
    assert ms[1..] == [Member(key, second)] && ms[1..][1..] == [];
    assert Put([], key, first) == [Member(key, first)];
    assert Put([Member(key, first)], key, second) == [Member(key, second)];
    assert PutAll([], ms) == PutAll([Member(key, first)], ms[1..]);
    assert PutAll([Member(key, first)], ms[1..]) == PutAll([Member(key, second)], []);
  }

  /** A document that is one rendered object, repeated keys allowed. */
  lemma ObjectDocument(s: Text, ms: seq<Member>)
    requires forall k :: 0 <= k < |ms| ==> WellFormed(ms[k].value)
    requires Holds(s, 0, [LeftBrace] + Members(ms) + [RightBrace]) && |s| == |Members(ms)| + 2
    ensures ReadDocument(s) == Ok(Obj(PutAll([], ms)))
  {
    ObjectRoundTrip(s, 0, ms);
    HoldsIndex(s, 0, [LeftBrace] + Members(ms) + [RightBrace], 0);
    ObjectValue(s, 0, PutAll([], ms), |s|);
    Whole(s, Obj(PutAll([], ms)));
  }

  lemma RepeatedKeyText(s: Text, ms: seq<Member>)
    requires s == Units("{\"a\":1,\"a\":2}")
    requires ms == [Member(Units("a"), Num(Units("1"))), Member(Units("a"), Num(Units("2")))]
    ensures Holds(s, 0, [LeftBrace] + Members(ms) + [RightBrace]) && |s| == |Members(ms)| + 2
  {
    var a := Units("a");
    PlainEscape(a);
    var m1, m2 := RenderMember(ms[0]), RenderMember(ms[1]);
    assert m1 == [Quote, a[0], Quote, Colon, '1' as int];
    assert m2 == [Quote, a[0], Quote, Colon, '2' as int];
    assert ms[1..] == [ms[1]] && ms[1..][1..] == [];
    assert MoreMembers(ms[1..]) == [Comma] + m2;
    assert Members(ms) == m1 + [Comma] + m2;
    assert [LeftBrace] + Members(ms) + [RightBrace] == s;
  }

  /** A one-digit number is well formed. */
  lemma Digit(t: Text)
    requires |t| == 1 && IsDigit(t[0])
    ensures WellFormed(Num(t))
  {
    var f := NumberForm(false, t, None, None);
    assert Lexeme(f) == t;
  }

  // The reader's departures from JSON, each as the reader has them.

  /** A simple escape stands for the unit after the backslash. */
  lemma NewlineEscape()
    ensures ReadDocument(Units("\"\\n\"")) == Ok(Str(Units("n")))
  {
    var s, p, t := Units("\"\\n\""), Escaped(Letter_n), [Letter_n];
    assert [p][1..] == [];
    assert Spell([p]) == [Backslash, Letter_n];
    assert Decode([p]) == t;
    assert Units("n") == t;
    DecodeString(s, 0, [p]);
    StringValue(s, 0, t, 4);
    Whole(s, Str(t));
  }

  /** A number may start at its fraction. */
  lemma LeadingPoint()
    ensures ReadDocument(Units(".5")) == Ok(Num(Units(".5")))
  {
    var s := Units(".5");
    var f := NumberForm(false, [], Some([Letter_5]), None);
    assert Lexeme(f) == s;
    NumberRoundTrip(s, 0, f);
    NumberValue(s, 0, s, 2);
    Whole(s, Num(s));
  }

  /** A number may start at its exponent. */
  lemma BareExponent()
    ensures ReadDocument(Units("e5")) == Ok(Num(Units("e5")))
  {
    var s := Units("e5");
    var f := NumberForm(false, [], None, Some(Exponent(LowerE, [], [Letter_5])));
    assert Lexeme(f) == s;
    NumberRoundTrip(s, 0, f);
    NumberValue(s, 0, s, 2);
    Whole(s, Num(s));
  }

  /** A lone `0` is a whole integer part, so in `01` the number ends before
      the `1`. */
  lemma LeadingZero()
    ensures ReadDocument(Units("01")) == Thrown(ExpectedEndOfInput)
  {
    var s, zero := Units("01"), [Zero];
    var f := NumberForm(false, zero, None, None);
    assert Lexeme(f) == zero;
    NumberRoundTrip(s, 0, f);
    NumberValue(s, 0, zero, 1);
    assert WhitespaceEnd(s, 0) == 0 && WhitespaceEnd(s, 1) == 1;
    assert ReadValue(s, 0) == Parsed(Ok(Num(zero)), 1);
  }

  /** An empty document reads as `undefined`. */
  lemma EmptyDocument()
    ensures ReadDocument([]) == Ok(Undefined)
  {
    BlankDocument([]);
  }

  /** A `\u` escape cut short by the end of input, its present units all
      hexadecimal, throws the `TypeError`. */
  lemma TruncatedUnicode()
    ensures ReadDocument(Units("\"\\u12")) == Fail(TypeError)
  {
    TruncatedUnicodeRead(Units("\"\\u12"));
  }

  lemma TruncatedUnicodeRead(s: Text)
    requires |s| == 5 && s[0] == Quote && s[1] == Backslash && s[2] == LowerU
    requires s[3] == '1' as int && s[4] == '2' as int
    ensures ReadDocument(s) == Fail(TypeError)
  {
    assert IsHexadecimal(s[3]) && IsHexadecimal(s[4]);
    TruncatedUnicodeEscape(s, 0, [], 1);
    Failing(s, TypeError, 1);
  }
}
