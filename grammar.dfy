/** What each production of the reader does, stated as a function of the
    whole input `s` and the cursor `i` it starts from.

    Each function answers with the production's outcome and the cursor it
    leaves behind (`at`), on failure too: that is where the cursor stood when
    the exception was thrown.  The reader's methods in module Reader are
    proved to agree with these functions, and the lemmas of the other
    modules are proved about them. */
module Grammar {
  import opened Json

  /** A production's outcome together with the cursor it leaves. */
  datatype Parsed<+T> = Parsed(out: Outcome<T>, at: nat)

  /** A failure of one production, passed on unchanged by an enclosing one. */
  function Failed<T, U>(r: Parsed<T>): Parsed<U>
    requires r.out.Fail?
  {
    Parsed(Fail(r.out.error), r.at)
  }

  // Character classes.  A position past the end of input holds `undefined`
  // in the source, which equals no unit and compares false with all of them.

  predicate IsWhitespace(c: Unit)
  {
    c == ' ' as int || c == '\n' as int || c == '\t' as int || c == '\r' as int
  }

  predicate IsDigit(c: Unit)
  {
    '0' as int <= c <= '9' as int
  }

  /** `isHexadecimal`, on a unit that is present. */
  predicate IsHexadecimal(c: Unit)
  {
    IsDigit(c) || 'a' as int <= c <= 'f' as int || 'A' as int <= c <= 'F' as int
  }

  /** The units that may follow a backslash and stand for themselves. */
  predicate IsSimpleEscape(c: Unit)
  {
    c == Quote || c == Backslash || c == '/' as int || c == 'b' as int
    || c == 'f' as int || c == 'n' as int || c == 'r' as int || c == 't' as int
  }

  /** `str[k] === c`, with `str[k]` undefined past the end. */
  predicate At(s: Text, k: nat, c: Unit)
  {
    k < |s| && s[k] == c
  }

  /** `str[k] >= "0" && str[k] <= "9"`, false past the end. */
  predicate DigitAt(s: Text, k: nat)
  {
    k < |s| && IsDigit(s[k])
  }

  /** The input holds `t` from position `i` on. */
  predicate Holds(s: Text, i: nat, t: Text)
  {
    i + |t| <= |s| && forall k :: 0 <= k < |t| ==> s[i + k] == t[k]
  }

  /** `skipWhitespace` from `i`: the first position that holds no whitespace. */
  function WhitespaceEnd(s: Text, i: nat): (j: nat)
    requires i <= |s|
    ensures i <= j <= |s|
    ensures forall k :: i <= k < j ==> IsWhitespace(s[k])
    ensures j < |s| ==> !IsWhitespace(s[j])
    decreases |s| - i
  {
    if i < |s| && IsWhitespace(s[i]) then WhitespaceEnd(s, i + 1) else i
  }

  /** One of `parseNumber`'s digit loops from `i`: the first non-digit. */
  function DigitEnd(s: Text, i: nat): (j: nat)
    requires i <= |s|
    ensures i <= j <= |s|
    ensures forall k :: i <= k < j ==> IsDigit(s[k])
    ensures j < |s| ==> !IsDigit(s[j])
    decreases |s| - i
  {
    if i < |s| && IsDigit(s[i]) then DigitEnd(s, i + 1) else i
  }

  // ---------------------------------------------------------------- strings

  function HexDigitValue(c: Unit): (d: nat)
    requires IsHexadecimal(c)
    ensures d < 16
    ensures d < 10 <==> IsDigit(c)
  {
    if IsDigit(c) then c - '0' as int
    else if 'a' as int <= c <= 'f' as int then c - 'a' as int + 10
    else c - 'A' as int + 10
  }

  /** `parseInt(digits, 16)` on the four hexadecimal digits `a b c d`. */
  function HexValue(a: Unit, b: Unit, c: Unit, d: Unit): (u: Unit)
    requires IsHexadecimal(a) && IsHexadecimal(b) && IsHexadecimal(c) && IsHexadecimal(d)
    ensures u % 16 == HexDigitValue(d) && u / 16 % 16 == HexDigitValue(c)
    ensures u / 16 / 16 % 16 == HexDigitValue(b) && u / 16 / 16 / 16 == HexDigitValue(a)
  {
    var high := HexDigitValue(a);
    var two := 16 * high + HexDigitValue(b);
    var three := 16 * two + HexDigitValue(c);
    Place(high, HexDigitValue(b));
    Place(two, HexDigitValue(c));
    Place(three, HexDigitValue(d));
    16 * three + HexDigitValue(d)
  }

  /** Appending a hexadecimal digit `r` to the number `q`. */
  lemma Place(q: nat, r: nat)
    requires r < 16
    ensures (16 * q + r) / 16 == q && (16 * q + r) % 16 == r
  {
  }

  /** What the four `isHexadecimal` tests after `\u` find: four digits, a
      unit that is not one, or (all units present being digits) the end of
      input, where `isHexadecimal(undefined)` throws. */
  datatype Quad = Hex(unit: Unit) | NotHex | PastEnd

  /** The test `isHexadecimal(str[k]) && ... && isHexadecimal(str[k + 3])`,
      evaluated left to right. */
  function ReadQuad(s: Text, k: nat): (r: Quad)
    ensures r.Hex? <==> k + 4 <= |s| && forall m :: k <= m < k + 4 ==> IsHexadecimal(s[m])
    ensures r.Hex? ==> r.unit == HexValue(s[k], s[k + 1], s[k + 2], s[k + 3])
    ensures r.PastEnd? <==> |s| < k + 4 && forall m :: k <= m < |s| ==> IsHexadecimal(s[m])
  {
    if |s| <= k then PastEnd
    else if !IsHexadecimal(s[k]) then NotHex
    else if |s| <= k + 1 then PastEnd
    else if !IsHexadecimal(s[k + 1]) then NotHex
    else if |s| <= k + 2 then PastEnd
    else if !IsHexadecimal(s[k + 2]) then NotHex
    else if |s| <= k + 3 then PastEnd
    else if !IsHexadecimal(s[k + 3]) then NotHex
    else Hex(HexValue(s[k], s[k + 1], s[k + 2], s[k + 3]))
  }

  /** What one turn of `parseString`'s loop does: append a unit and move
      `width` units on, stop at the closing quote, or throw with the cursor
      moved `width` units on. */
  datatype StringStep = Append(unit: Unit, width: nat) | Close | Throw(error: Error, width: nat)

  /** The turn of `parseString`'s loop taken with the cursor at `i`. */
  function NextStringStep(s: Text, i: nat): (st: StringStep)
    requires i <= |s|
    ensures st.Append? ==> 0 < st.width && i + st.width <= |s|
    ensures st.Close? ==> At(s, i, Quote)
    ensures st.Throw? ==> i + st.width <= |s|
  {
    if i == |s| then Throw(SyntaxError(UnexpectedEOF), 0)
    else if s[i] == Quote then Close
    else if s[i] == Backslash then
      if i + 1 < |s| && IsSimpleEscape(s[i + 1]) then Append(s[i + 1], 2)
      else if i + 1 < |s| && s[i + 1] == LowerU then
        match ReadQuad(s, i + 2)
        case Hex(u) => Append(u, 6)
        case NotHex => Throw(SyntaxError(ExpectingEscapeUnicode), 2)
        case PastEnd => Throw(TypeError, 0)
      else Throw(SyntaxError(ExpectingEscapeCharacter), 0)
    else Append(s[i], 1)
  }

  /** The loop of `parseString` from cursor `i`, `acc` being what the units
      before `i` decoded to. */
  function StringChars(s: Text, i: nat, acc: Text): (r: Parsed<Text>)
    requires i <= |s|
    ensures i <= r.at <= |s|
    ensures !r.out.Absent?
    decreases |s| - i
  {
    match NextStringStep(s, i)
    case Append(u, w) => StringChars(s, i + w, acc + [u])
    case Close => Parsed(Ok(acc), i + 1)
    case Throw(e, w) => Parsed(Fail(e), i + w)
  }

  /** `parseString`. */
  function ReadString(s: Text, i: nat): (r: Parsed<Text>)
    requires i <= |s|
    ensures i <= r.at <= |s|
    ensures r.out.Absent? <==> !At(s, i, Quote)
    ensures r.out.Absent? ==> r.at == i
  {
    if !At(s, i, Quote) then Parsed(Absent, i)
    else StringChars(s, i + 1, [])
  }

  // ---------------------------------------------------------------- numbers

  /** Where `parseNumber`'s integer part, begun at `k`, ends. */
  function IntegerEnd(s: Text, k: nat): (e: nat)
    requires k <= |s|
    ensures k <= e <= |s|
    ensures k < e <==> DigitAt(s, k)
  {
    if At(s, k, '0' as int) then k + 1
    else if DigitAt(s, k) then DigitEnd(s, k + 1)
    else k
  }

  /** Where a fraction or exponent part ends, or where the digit it needs
      is missing (and `expectDigit` throws). */
  datatype Scan = Reached(at: nat) | Missing(at: nat)

  /** `parseNumber`'s fraction part, begun at `b`. */
  function FractionScan(s: Text, b: nat): (r: Scan)
    requires b <= |s|
    ensures b <= r.at <= |s|
    ensures !At(s, b, Point) ==> r == Reached(b)
    ensures r.Missing? <==> At(s, b, Point) && !DigitAt(s, b + 1)
    ensures r.Missing? ==> r.at == b + 1
    ensures r.Reached? && r.at != b ==> DigitAt(s, r.at - 1) && !DigitAt(s, r.at)
  {
    if !At(s, b, Point) then Reached(b)
    else if !DigitAt(s, b + 1) then Missing(b + 1)
    else Reached(DigitEnd(s, b + 1))
  }

  /** `parseNumber`'s exponent part, begun at `c`. */
  function ExponentScan(s: Text, c: nat): (r: Scan)
    requires c <= |s|
    ensures c <= r.at <= |s|
    ensures !(At(s, c, LowerE) || At(s, c, UpperE)) ==> r == Reached(c)
    ensures r.Missing? ==> c < r.at && !DigitAt(s, r.at)
    ensures r.Reached? && r.at != c ==> DigitAt(s, r.at - 1) && !DigitAt(s, r.at)
  {
    if !(At(s, c, LowerE) || At(s, c, UpperE)) then Reached(c)
    else
      var d := if At(s, c + 1, Minus) || At(s, c + 1, Plus) then c + 2 else c + 1;
      if !DigitAt(s, d) then Missing(d)
      else Reached(DigitEnd(s, d))
  }

  /** `parseNumber`: the lexeme it consumed, kept as text. */
  function ReadNumber(s: Text, i: nat): (r: Parsed<Text>)
    requires i <= |s|
    ensures i <= r.at <= |s|
    ensures r.out.Absent? ==> r.at == i
    ensures r.out.Ok? ==> i < r.at && r.out.value == s[i..r.at]
    ensures r.out.Fail? ==> r.out.error == SyntaxError(ExpectingADigit)
  {
    if At(s, i, Minus) && !DigitAt(s, i + 1) then Parsed(Fail(SyntaxError(ExpectingADigit)), i + 1)
    else
      match FractionScan(s, IntegerEnd(s, if At(s, i, Minus) then i + 1 else i))
      case Missing(k) => Parsed(Fail(SyntaxError(ExpectingADigit)), k)
      case Reached(c) =>
        match ExponentScan(s, c)
        case Missing(k) => Parsed(Fail(SyntaxError(ExpectingADigit)), k)
        case Reached(e) => if e > i then Parsed(Ok(s[i..e]), e) else Parsed(Absent, i)
  }

  // --------------------------------------------------------------- keywords

  /** `parseKeyword(name, value)`. */
  function ReadKeyword(s: Text, i: nat, name: Text, value: Value): (r: Parsed<Value>)
    requires i <= |s|
    ensures !r.out.Fail?
    ensures r.out.Ok? <==> name <= s[i..]
    ensures r.out.Ok? ==> r == Parsed(Ok(value), i + |name|)
    ensures r.out.Absent? ==> r.at == i
  {
    if i + |name| <= |s| && s[i..i + |name|] == name then Parsed(Ok(value), i + |name|)
    else Parsed(Absent, i)
  }

  // ---------------------------------------- values, objects and arrays
  //
  // These call one another.  Each call either moves the cursor forward or
  // goes down in the second component of `decreases`: a value dispatches to
  // an object or an array at the same place, an object's loop reads its
  // member there, and an array's first element is read where its loop
  // begins.

  /** `parseValue`: skip whitespace, try the productions, skip whitespace.
      A value that no production matched is `Undefined`. */
  function ReadValue(s: Text, i: nat): (r: Parsed<Value>)
    requires i <= |s|
    ensures i <= r.at <= |s|
    ensures !r.out.Absent?
    ensures r.out.Ok? ==> r.at == |s| || !IsWhitespace(s[r.at])
    decreases |s| - i, 3
  {
    var p := Production(s, WhitespaceEnd(s, i));
    if p.out.Fail? then p
    else
      var v := if p.out.Ok? then p.out.value else Undefined;
      Parsed(Ok(v), WhitespaceEnd(s, p.at))
  }

  /** `parseString() ?? parseNumber() ?? parseObject() ?? parseArray()
      ?? parseKeyword("true", true) ?? parseKeyword("false", false)
      ?? parseKeyword("null", null)`: the first production that does not
      report absence decides. */
  function Production(s: Text, i: nat): (r: Parsed<Value>)
    requires i <= |s|
    ensures i <= r.at <= |s|
    ensures r.out.Absent? ==> r.at == i
    decreases |s| - i, 2
  {
    var str := ReadString(s, i);
    if str.out.Ok? then Parsed(Ok(Str(str.out.value)), str.at)
    else if str.out.Fail? then Failed(str)
    else
      var num := ReadNumber(s, i);
      if num.out.Ok? then Parsed(Ok(Num(num.out.value)), num.at)
      else if num.out.Fail? then Failed(num)
      else
        var obj := ReadObject(s, i);
        if obj.out.Ok? then Parsed(Ok(Obj(obj.out.value)), obj.at)
        else if obj.out.Fail? then Failed(obj)
        else
          var arr := ReadArray(s, i);
          if arr.out.Ok? then Parsed(Ok(Arr(arr.out.value)), arr.at)
          else if arr.out.Fail? then Failed(arr)
          else Keywords(s, i)
  }

  /** The three keyword alternatives, in the source's order. */
  function Keywords(s: Text, i: nat): (r: Parsed<Value>)
    requires i <= |s|
    ensures !r.out.Fail?
    ensures r.out.Absent? ==> r.at == i
    ensures r.out.Ok? ==> i < r.at <= |s|
  {
    var yes := ReadKeyword(s, i, Units("true"), Bool(true));
    if yes.out.Ok? then yes
    else
      var no := ReadKeyword(s, i, Units("false"), Bool(false));
      if no.out.Ok? then no
      else ReadKeyword(s, i, Units("null"), Null)
  }

  /** `parseObject`. */
  function ReadObject(s: Text, i: nat): (r: Parsed<seq<Member>>)
    requires i <= |s|
    ensures i <= r.at <= |s|
    ensures r.out.Absent? <==> !At(s, i, LeftBrace)
    ensures r.out.Absent? ==> r.at == i
    decreases |s| - i, 1
  {
    if !At(s, i, LeftBrace) then Parsed(Absent, i)
    else ObjectMembers(s, WhitespaceEnd(s, i + 1), true, [])
  }

  /** The loop of `parseObject` from cursor `i`: `initial` is true until a
      member has been read, `acc` holds the members read so far. */
  function ObjectMembers(s: Text, i: nat, initial: bool, acc: seq<Member>): (r: Parsed<seq<Member>>)
    requires i <= |s|
    ensures i <= r.at <= |s|
    ensures !r.out.Absent?
    decreases |s| - i, 3
  {
    if i == |s| then Parsed(Fail(SyntaxError(UnexpectedEOF)), i)
    else if s[i] == RightBrace then Parsed(Ok(acc), i + 1)
    else
      var m := ReadMember(s, i, initial);
      if m.out.Fail? then Failed(m)
      else ObjectMembers(s, m.at, false, Put(acc, m.out.value.key, m.out.value.value))
  }

  /** One turn of `parseObject`'s loop, with the cursor on a unit other than
      `}`: the comma and the whitespace after it unless `initial`, then the
      member. */
  function ReadMember(s: Text, i: nat, initial: bool): (r: Parsed<Member>)
    requires i < |s|
    ensures i <= r.at <= |s|
    ensures !r.out.Absent?
    ensures r.out.Ok? ==> i < r.at
    decreases |s| - i, 2
  {
    if !initial && s[i] != Comma then Parsed(Fail(SyntaxError(UnexpectedToken)), i)
    else KeyValue(s, if initial then i else WhitespaceEnd(s, i + 1))
  }

  /** The key, the colon and the value of a member, from cursor `c`. */
  function KeyValue(s: Text, c: nat): (r: Parsed<Member>)
    requires c <= |s|
    ensures c <= r.at <= |s|
    ensures !r.out.Absent?
    ensures r.out.Ok? ==> c < r.at
    decreases |s| - c, 1
  {
    var key := ReadString(s, c);
    if key.out.Absent? then Parsed(Fail(SyntaxError(ExpectingJSONKey)), c)
    else if key.out.Fail? then Failed(key)
    else ColonValue(s, key.out.value, WhitespaceEnd(s, key.at))
  }

  /** The colon and the value of a member whose key has been read, from
      cursor `b` after the whitespace that follows the key. */
  function ColonValue(s: Text, key: Text, b: nat): (r: Parsed<Member>)
    requires b <= |s|
    ensures b <= r.at <= |s|
    ensures !r.out.Absent?
    ensures r.out.Ok? ==> b < r.at
    decreases |s| - b, 0
  {
    if b == |s| then Parsed(Fail(SyntaxError(UnexpectedEOF)), b)
    else if s[b] != Colon then Parsed(Fail(SyntaxError(UnexpectedToken)), b)
    else
      var v := ReadValue(s, b + 1);
      if v.out.Fail? then Failed(v)
      else Parsed(Ok(Member(key, v.out.value)), v.at)
  }

  /** `parseArray`. */
  function ReadArray(s: Text, i: nat): (r: Parsed<seq<Value>>)
    requires i <= |s|
    ensures i <= r.at <= |s|
    ensures r.out.Absent? <==> !At(s, i, LeftBracket)
    ensures r.out.Absent? ==> r.at == i
    decreases |s| - i, 1
  {
    if !At(s, i, LeftBracket) then Parsed(Absent, i)
    else ArrayElements(s, WhitespaceEnd(s, i + 1), true, [])
  }

  /** The loop of `parseArray` from cursor `i`: `initial` is true until an
      element has been read, `acc` holds the elements read so far. */
  function ArrayElements(s: Text, i: nat, initial: bool, acc: seq<Value>): (r: Parsed<seq<Value>>)
    requires i <= |s|
    ensures i <= r.at <= |s|
    ensures !r.out.Absent?
    decreases |s| - i, if initial then 5 else 1
  {
    if i == |s| then Parsed(Fail(SyntaxError(UnexpectedEOF)), i)
    else if s[i] == RightBracket then Parsed(Ok(acc), i + 1)
    else
      var e := ReadElement(s, i, initial);
      if e.out.Fail? then Failed(e)
      else ArrayElements(s, e.at, false, acc + [e.out.value])
  }

  /** The body of `parseArray`'s loop: the comma unless `initial`, then the
      element. */
  function ReadElement(s: Text, i: nat, initial: bool): (r: Parsed<Value>)
    requires i < |s|
    ensures i <= r.at <= |s|
    ensures !r.out.Absent?
    ensures !initial && r.out.Ok? ==> i < r.at
    decreases |s| - i, if initial then 4 else 0
  {
    if !initial && s[i] != Comma then Parsed(Fail(SyntaxError(UnexpectedToken)), i)
    else ReadValue(s, if initial then i else i + 1)
  }

  /** The exported function: one value, then nothing but the end of input. */
  function ReadDocument(s: Text): (r: Outcome<Value>)
    ensures !r.Absent?
  {
    var v := ReadValue(s, 0);
    if v.out.Fail? then v.out
    else if v.at < |s| then Fail(SyntaxError(ExpectedEndOfInput))
    else v.out
  }
}
