/** The reader itself: one cursor over the input, moved forward by one
    method per production.

    `Parser` holds the text and the cursor that the exported function keeps
    in its closure.  Every method reads and advances the cursor as its
    namesake does, and a thrown exception becomes an early `Fail` return
    that every caller passes on.  Each method is proved to do what the
    matching function of module Grammar says, from wherever the cursor stood
    when it was called. */
module Reader {
  import opened Json
  import opened Grammar

  class Parser {
    const s: Text
    var i: nat

    /** The cursor never passes the end of input. */
    ghost predicate Valid()
      reads this
    {
      i <= |s|
    }

    constructor (text: Text)
      ensures Valid()
      ensures s == text && i == 0
    {
      s := text;
      i := 0;
    }

    /** `parseValue`. */
    method ParseValue() returns (r: Outcome<Value>)
      requires Valid()
      modifies this
      ensures Valid() && old(i) <= i
      ensures ReadValue(s, old(i)) == Parsed(r, i)
      decreases |s| - i, 3
    {
      SkipWhitespace();
      var value := ParseAlternatives();
      if value.Fail? {
        return value;
      }
      SkipWhitespace();
      return if value.Ok? then value else Ok(Undefined);
    }

    /** The `??` chain of `parseValue`. */
    method ParseAlternatives() returns (r: Outcome<Value>)
      requires Valid()
      modifies this
      ensures Valid() && old(i) <= i
      ensures Production(s, old(i)) == Parsed(r, i)
      decreases |s| - i, 2
    {
      var str := ParseString();
      if !str.Absent? {
        return if str.Ok? then Ok(Str(str.value)) else Fail(str.error);
      }
      var num := ParseNumber();
      if !num.Absent? {
        return if num.Ok? then Ok(Num(num.value)) else Fail(num.error);
      }
      var obj := ParseObject();
      if !obj.Absent? {
        return if obj.Ok? then Ok(Obj(obj.value)) else Fail(obj.error);
      }
      var arr := ParseArray();
      if !arr.Absent? {
        return if arr.Ok? then Ok(Arr(arr.value)) else Fail(arr.error);
      }
      r := ParseKeyword(Units("true"), Bool(true));
      if r.Ok? {
        return;
      }
      r := ParseKeyword(Units("false"), Bool(false));
      if r.Ok? {
        return;
      }
      r := ParseKeyword(Units("null"), Null);
    }

    /** `parseString`. */
    method ParseString() returns (r: Outcome<Text>)
      requires Valid()
      modifies this
      ensures Valid() && old(i) <= i
      ensures ReadString(s, old(i)) == Parsed(r, i)
    {
      if i == |s| || s[i] != Quote {
        return Absent;
      }
      i := i + 1;
      var result: Text := [];
      while i < |s| && s[i] != Quote
        invariant old(i) < i <= |s|
        invariant ReadString(s, old(i)) == StringChars(s, i, result)
      {
        if s[i] == Backslash {
          if i + 1 < |s| && IsSimpleEscape(s[i + 1]) {
            result := result + [s[i + 1]];
            i := i + 1;
          } else if i + 1 < |s| && s[i + 1] == LowerU {
            match ReadQuad(s, i + 2)
            case Hex(u) =>
              result := result + [u];
              i := i + 5;
            case NotHex =>
              i := i + 2;
              return Fail(SyntaxError(ExpectingEscapeUnicode));
            case PastEnd =>
              return Fail(TypeError);
          } else {
            return Fail(SyntaxError(ExpectingEscapeCharacter));
          }
        } else {
          result := result + [s[i]];
        }
        i := i + 1;
      }
      if i == |s| {
        return Fail(SyntaxError(UnexpectedEOF));
      }
      i := i + 1;
      return Ok(result);
    }

    /** `parseNumber`: an optional minus sign that must be followed by a
        digit, then the integer, fraction and exponent parts. */
    method ParseNumber() returns (r: Outcome<Text>)
      requires Valid()
      modifies this
      ensures Valid() && old(i) <= i
      ensures ReadNumber(s, old(i)) == Parsed(r, i)
    {
      var start := i;
      if i < |s| && s[i] == Minus {
        i := i + 1;
        if !(i < |s| && IsDigit(s[i])) {
          return Fail(SyntaxError(ExpectingADigit));
        }
      }
      SkipInteger();
      var complete := SkipFraction();
      if !complete {
        return Fail(SyntaxError(ExpectingADigit));
      }
      complete := SkipExponent();
      if !complete {
        return Fail(SyntaxError(ExpectingADigit));
      }
      if i > start {
        return Ok(s[start..i]);
      }
      return Absent;
    }

    /** The integer part of `parseNumber`: a lone `0`, or a digit and all
        the digits after it. */
    method SkipInteger()
      requires Valid()
      modifies this
      ensures Valid()
      ensures i == IntegerEnd(s, old(i))
    {
      if i < |s| && s[i] == '0' as int {
        i := i + 1;
      } else if i < |s| && IsDigit(s[i]) {
        i := i + 1;
        SkipDigits();
      }
    }

    /** The fraction part of `parseNumber`; `complete` is false where
        `expectDigit` throws. */
    method SkipFraction() returns (complete: bool)
      requires Valid()
      modifies this
      ensures Valid()
      ensures FractionScan(s, old(i)) == if complete then Reached(i) else Missing(i)
    {
      if i < |s| && s[i] == Point {
        i := i + 1;
        if !(i < |s| && IsDigit(s[i])) {
          return false;
        }
        SkipDigits();
      }
      return true;
    }

    /** The exponent part of `parseNumber`; `complete` is false where
        `expectDigit` throws. */
    method SkipExponent() returns (complete: bool)
      requires Valid()
      modifies this
      ensures Valid()
      ensures ExponentScan(s, old(i)) == if complete then Reached(i) else Missing(i)
    {
      if i < |s| && (s[i] == LowerE || s[i] == UpperE) {
        i := i + 1;
        if i < |s| && (s[i] == Minus || s[i] == Plus) {
          i := i + 1;
        }
        if !(i < |s| && IsDigit(s[i])) {
          return false;
        }
        SkipDigits();
      }
      return true;
    }

    /** One of the digit loops of `parseNumber`. */
    method SkipDigits()
      requires Valid()
      modifies this
      ensures Valid()
      ensures i == DigitEnd(s, old(i))
    {
      while i < |s| && IsDigit(s[i])
        invariant old(i) <= i <= |s|
        invariant DigitEnd(s, old(i)) == DigitEnd(s, i)
      {
        i := i + 1;
      }
    }

    /** `parseObject`. */
    method ParseObject() returns (r: Outcome<seq<Member>>)
      requires Valid()
      modifies this
      ensures Valid() && old(i) <= i
      ensures ReadObject(s, old(i)) == Parsed(r, i)
      decreases |s| - i, 1
    {
      if i == |s| || s[i] != LeftBrace {
        return Absent;
      }
      i := i + 1;
      SkipWhitespace();
      var result: seq<Member> := [];
      var initial := true;
      while i < |s| && s[i] != RightBrace
        invariant old(i) < i <= |s|
        invariant ReadObject(s, old(i)) == ObjectMembers(s, i, initial, result)
      {
        var member := ParseMember(initial);
        if member.Fail? {
          return Fail(member.error);
        }
        result := Put(result, member.value.key, member.value.value);
        initial := false;
      }
      if i == |s| {
        return Fail(SyntaxError(UnexpectedEOF));
      }
      i := i + 1;
      return Ok(result);
    }

    /** The body of `parseObject`'s loop: the comma and the whitespace after
        it unless `initial`, then the member. */
    method ParseMember(initial: bool) returns (r: Outcome<Member>)
      requires Valid() && i < |s|
      modifies this
      ensures Valid() && old(i) <= i
      ensures ReadMember(s, old(i), initial) == Parsed(r, i)
      decreases |s| - i, 1
    {
      if !initial {
        var failure := Eat(Comma);
        if failure.Some? {
          return Fail(failure.value);
        }
        SkipWhitespace();
      }
      r := ParseKeyValue();
    }

    /** The key, the colon and the value of a member. */
    method ParseKeyValue() returns (r: Outcome<Member>)
      requires Valid()
      modifies this
      ensures Valid() && old(i) <= i
      ensures KeyValue(s, old(i)) == Parsed(r, i)
      decreases |s| - i, 0
    {
      var key := ParseString();
      if key.Absent? {
        return Fail(SyntaxError(ExpectingJSONKey));
      }
      if key.Fail? {
        return Fail(key.error);
      }
      SkipWhitespace();
      var failure := Eat(Colon);
      if failure.Some? {
        return Fail(failure.value);
      }
      var value := ParseValue();
      if value.Fail? {
        return Fail(value.error);
      }
      return Ok(Member(key.value, value.value));
    }

    /** `parseArray`. */
    method ParseArray() returns (r: Outcome<seq<Value>>)
      requires Valid()
      modifies this
      ensures Valid() && old(i) <= i
      ensures ReadArray(s, old(i)) == Parsed(r, i)
      decreases |s| - i, 1
    {
      if i == |s| || s[i] != LeftBracket {
        return Absent;
      }
      i := i + 1;
      SkipWhitespace();
      var result: seq<Value> := [];
      var initial := true;
      while i < |s| && s[i] != RightBracket
        invariant old(i) < i <= |s|
        invariant ReadArray(s, old(i)) == ArrayElements(s, i, initial, result)
        decreases |s| - i, if initial then 1 else 0
      {
        var element := ParseElement(initial);
        if element.Fail? {
          return Fail(element.error);
        }
        result := result + [element.value];
        initial := false;
      }
      if i == |s| {
        return Fail(SyntaxError(UnexpectedEOF));
      }
      i := i + 1;
      return Ok(result);
    }

    /** The body of `parseArray`'s loop: the comma unless `initial`, then
        the element. */
    method ParseElement(initial: bool) returns (r: Outcome<Value>)
      requires Valid() && i < |s|
      modifies this
      ensures Valid() && old(i) <= i
      ensures ReadElement(s, old(i), initial) == Parsed(r, i)
      decreases |s| - i, 4
    {
      if !initial {
        var failure := Eat(Comma);
        if failure.Some? {
          return Fail(failure.value);
        }
      }
      r := ParseValue();
    }

    /** `parseKeyword(name, value)`. */
    method ParseKeyword(name: Text, value: Value) returns (r: Outcome<Value>)
      requires Valid()
      modifies this
      ensures Valid() && old(i) <= i
      ensures ReadKeyword(s, old(i), name, value) == Parsed(r, i)
    {
      if i + |name| <= |s| && s[i..i + |name|] == name {
        i := i + |name|;
        return Ok(value);
      }
      return Absent;
    }

    /** `skipWhitespace`. */
    method SkipWhitespace()
      requires Valid()
      modifies this
      ensures Valid() && old(i) <= i
      ensures i == WhitespaceEnd(s, old(i))
    {
      while i < |s| && IsWhitespace(s[i])
        invariant old(i) <= i <= |s|
        invariant WhitespaceEnd(s, old(i)) == WhitespaceEnd(s, i)
      {
        i := i + 1;
      }
    }

    /** `eatComma` and `eatColon`: `expectCharacter(c)`, then step over it. */
    method Eat(c: Unit) returns (failure: Option<Error>)
      requires Valid()
      modifies this
      ensures Valid()
      ensures old(i) == |s| ==> failure == Some(SyntaxError(UnexpectedEOF)) && i == old(i)
      ensures old(i) < |s| && s[old(i)] != c ==> failure == Some(SyntaxError(UnexpectedToken)) && i == old(i)
      ensures old(i) < |s| && s[old(i)] == c ==> failure == None && i == old(i) + 1
    {
      if i == |s| {
        return Some(SyntaxError(UnexpectedEOF));
      }
      if s[i] != c {
        return Some(SyntaxError(UnexpectedToken));
      }
      i := i + 1;
      return None;
    }
  }

  /** The exported function: read one value, then `expectEndOfInput`. */
  method Parse(text: Text) returns (r: Outcome<Value>)
    ensures r == ReadDocument(text)
  {
    var parser := new Parser(text);
    r := parser.ParseValue();
    if r.Fail? {
      return;
    }
    if parser.i < |parser.s| {
      return Fail(SyntaxError(ExpectedEndOfInput));
    }
  }
}
