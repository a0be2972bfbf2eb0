/** The reader against a printer.  `Render` writes a value the way JSON
    text spells it, with no whitespace; the theorems below show that the
    reader gives back every well-formed value from its own text, inside
    arrays and objects and at the top level between any whitespace, and
    that a repeated object key keeps its last value. */
module Values {
  import opened Json
  import opened Grammar
  import opened Spans
  import opened Strings
  import opened Numbers

  // ------------------------------------------------------------ printing

  /** A number lexeme the reader accepts. */
  ghost predicate IsLexeme(t: Text)
  {
    exists f :: ValidForm(f) && Lexeme(f) == t
  }

  /** A string literal: the escaped units between quotes. */
  function Quoted(t: Text): Text
  {
    [Quote] + Escape(t) + [Quote]
  }

  /** The text of a value.  `Undefined` is spelled by writing nothing, which
      is how the reader comes to produce it inside arrays and objects. */
  function Render(v: Value): Text
    decreases v, 1
  {
    match v
    case Undefined => []
    case Null => Units("null")
    case Bool(b) => if b then Units("true") else Units("false")
    case Num(t) => t
    case Str(t) => Quoted(t)
    case Arr(items) => [LeftBracket] + Items(items) + [RightBracket]
    case Obj(ms) => [LeftBrace] + Members(ms) + [RightBrace]
  }

  /** Array elements separated by commas. */
  function Items(items: seq<Value>): Text
    decreases items, 0
  {
    if items == [] then [] else Render(items[0]) + MoreItems(items[1..])
  }

  /** The elements after the first, each with its comma. */
  function MoreItems(items: seq<Value>): Text
    decreases items, 0
  {
    if items == [] then [] else [Comma] + Render(items[0]) + MoreItems(items[1..])
  }

  function RenderMember(m: Member): Text
    decreases m, 0
  {
    Quoted(m.key) + [Colon] + Render(m.value)
  }

  /** Object members separated by commas. */
  function Members(ms: seq<Member>): Text
    decreases ms, 1
  {
    if ms == [] then [] else RenderMember(ms[0]) + MoreMembers(ms[1..])
  }

  /** The members after the first, each with its comma. */
  function MoreMembers(ms: seq<Member>): Text
    decreases ms, 1
  {
    if ms == [] then [] else [Comma] + RenderMember(ms[0]) + MoreMembers(ms[1..])
  }

  /** An array whose only element is `Undefined`: its text is `[]`. */
  predicate LoneHole(items: seq<Value>)
  {
    |items| == 1 && items[0] == Undefined
  }

  /** The values the reader gives back from their own text: numbers are
      valid lexemes, objects have distinct keys, and no array is a lone
      hole. */
  ghost predicate WellFormed(v: Value)
    decreases v
  {
    match v
    case Num(t) => IsLexeme(t)
    case Arr(items) =>
      !LoneHole(items) && forall k :: 0 <= k < |items| ==> WellFormed(items[k])
    case Obj(ms) => DistinctKeys(ms) && forall k :: 0 <= k < |ms| ==> WellFormed(ms[k].value)
    case _ => true
  }

  /** A unit that ends an element or a member: `,`, `]` or `}`. */
  predicate Closer(c: Unit)
  {
    c == Comma || c == RightBracket || c == RightBrace
  }

  /** Position `k` ends the input or holds a closer. */
  predicate Closes(s: Text, k: nat)
  {
    k >= |s| || Closer(s[k])
  }

  /** Position `k` ends the input or holds a closer or whitespace. */
  predicate Follows(s: Text, k: nat)
  {
    Closes(s, k) || IsWhitespace(s[k])
  }

  // ------------------------------------------------------- small facts

  /** The text of a value other than `Undefined` starts with a unit that is
      neither whitespace nor a closer. */
  lemma RenderStart(v: Value)
    requires WellFormed(v) && v != Undefined
    ensures |Render(v)| > 0 && !IsWhitespace(Render(v)[0]) && !Closer(Render(v)[0])
  {
    match v
    case Num(t) =>
      var f :| ValidForm(f) && Lexeme(f) == t;
      LexemeStart(f);
    case Str(t) =>
    case Arr(items) =>
    case Obj(ms) =>
    case Null =>
    case Bool(b) =>
  }

  /** The three pieces of a held text. */
  lemma HoldsThree(s: Text, i: nat, a: Text, b: Text, c: Text)
    requires Holds(s, i, a + b + c)
    ensures Holds(s, i, a) && Holds(s, i + |a|, b) && Holds(s, i + |a| + |b|, c)
  {
    HoldsConcat(s, i, a + b, c);
    HoldsConcat(s, i, a, b);
  }

  /** A text between two single units. */
  lemma Bracketed(s: Text, i: nat, open: Unit, body: Text, close: Unit)
    requires Holds(s, i, [open] + body + [close])
    ensures At(s, i, open) && Holds(s, i + 1, body) && At(s, i + 1 + |body|, close)
  {
    HoldsThree(s, i, [open], body, [close]);
    HoldsIndex(s, i, [open], 0);
    HoldsIndex(s, i + 1 + |body|, [close], 0);
  }

  /** A text after a single unit. */
  lemma Led(s: Text, i: nat, lead: Unit, head: Text, rest: Text)
    requires Holds(s, i, [lead] + head + rest)
    ensures At(s, i, lead) && Holds(s, i + 1, head) && Holds(s, i + 1 + |head|, rest)
  {
    HoldsThree(s, i, [lead], head, rest);
    HoldsIndex(s, i, [lead], 0);
  }

  lemma MoreItemsParts(s: Text, k: nat, items: seq<Value>)
    requires items != [] && Holds(s, k, MoreItems(items))
    ensures var m := k + 1 + |Render(items[0])|;
      && At(s, k, Comma) && Holds(s, k + 1, Render(items[0]))
      && Holds(s, m, MoreItems(items[1..]))
      && k + |MoreItems(items)| == m + |MoreItems(items[1..])|
  {
    Led(s, k, Comma, Render(items[0]), MoreItems(items[1..]));
  }

  lemma MoreMembersParts(s: Text, k: nat, ms: seq<Member>)
    requires ms != [] && Holds(s, k, MoreMembers(ms))
    ensures At(s, k, Comma) && Holds(s, k + 1, RenderMember(ms[0]))
    ensures Holds(s, k + 1 + |RenderMember(ms[0])|, MoreMembers(ms[1..]))
    ensures |MoreMembers(ms)| == 1 + |RenderMember(ms[0])| + |MoreMembers(ms[1..])|
  {
    LedText(s, k, MoreMembers(ms), Comma, RenderMember(ms[0]), MoreMembers(ms[1..]));
  }

  /** `Led` for a text given by name. */
  lemma LedText(s: Text, i: nat, t: Text, lead: Unit, head: Text, rest: Text)
    requires t == [lead] + head + rest && Holds(s, i, t)
    ensures At(s, i, lead) && Holds(s, i + 1, head) && Holds(s, i + 1 + |head|, rest)
    ensures |t| == 1 + |head| + |rest|
  {
    Led(s, i, lead, head, rest);
  }

  /** What follows a run of rendered elements or members is the closer after
      them, or the comma of the next one. */
  lemma MoreClose(s: Text, m: nat, more: Text, e: nat)
    requires Holds(s, m, more) && e == m + |more| && Closes(s, e)
    requires more != [] ==> more[0] == Comma
    ensures Closes(s, m)
  {
    if more != [] {
      HoldsIndex(s, m, more, 0);
    }
  }

  lemma MemberParts(s: Text, c: nat, m: Member)
    requires Holds(s, c, RenderMember(m))
    ensures var b := c + |Quoted(m.key)|;
      && Holds(s, c, Quoted(m.key)) && At(s, b, Colon) && Holds(s, b + 1, Render(m.value))
      && c + |RenderMember(m)| == b + 1 + |Render(m.value)|
  {
    HoldsThree(s, c, Quoted(m.key), [Colon], Render(m.value));
    HoldsIndex(s, c + |Quoted(m.key)|, [Colon], 0);
  }

  /** A whitespace run from `a` up to `e`, which holds none, is skipped. */
  lemma {:induction false} WhitespaceRun(s: Text, a: nat, e: nat)
    requires a <= e <= |s|
    requires forall k :: a <= k < e ==> IsWhitespace(s[k])
    requires e < |s| ==> !IsWhitespace(s[e])
    ensures WhitespaceEnd(s, a) == e
    decreases e - a
  {
    if a < e {
      WhitespaceRun(s, a + 1, e);
    }
  }

  // --------------------------------------- which production answers

  /** A keyword that is not there leaves no trace. */
  lemma KeywordMiss(s: Text, i: nat, name: Text, value: Value)
    requires i < |s| && |name| > 0 && s[i] != name[0]
    ensures ReadKeyword(s, i, name, value) == Parsed(Absent, i)
  {
    if i + |name| <= |s| {
      assert s[i..i + |name|][0] == s[i];
    }
  }

  /** No production starts at the end of input, at whitespace or at a
      closer: that is where a value is absent. */
  lemma AbsentValue(s: Text, i: nat)
    requires i <= |s| && Follows(s, i)
    ensures Production(s, i) == Parsed(Absent, i)
  {
    NumberAbsent(s, i);
    if i < |s| {
      KeywordMiss(s, i, Units("true"), Bool(true));
      KeywordMiss(s, i, Units("false"), Bool(false));
      KeywordMiss(s, i, Units("null"), Null);
    }
  }

  lemma StringValue(s: Text, i: nat, t: Text, e: nat)
    requires i <= |s| && ReadString(s, i) == Parsed(Ok(t), e)
    ensures Production(s, i) == Parsed(Ok(Str(t)), e)
  {
  }

  lemma NumberValue(s: Text, i: nat, t: Text, e: nat)
    requires i <= |s| && ReadNumber(s, i) == Parsed(Ok(t), e)
    ensures Production(s, i) == Parsed(Ok(Num(t)), e)
  {
    NumberAbsent(s, i);
  }

  lemma ObjectValue(s: Text, i: nat, ms: seq<Member>, e: nat)
    requires i <= |s| && ReadObject(s, i) == Parsed(Ok(ms), e)
    ensures Production(s, i) == Parsed(Ok(Obj(ms)), e)
  {
    NumberAbsent(s, i);
  }

  lemma ArrayValue(s: Text, i: nat, items: seq<Value>, e: nat)
    requires i <= |s| && ReadArray(s, i) == Parsed(Ok(items), e)
    ensures Production(s, i) == Parsed(Ok(Arr(items)), e)
  {
    NumberAbsent(s, i);
  }

  /** At the letters `t`, `f` and `n` only the keywords can answer. */
  lemma KeywordsAnswer(s: Text, i: nat)
    requires i < |s| && (s[i] == 't' as int || s[i] == 'f' as int || s[i] == 'n' as int)
    ensures Production(s, i) == Keywords(s, i)
  {
    NumberAbsent(s, i);
  }

  lemma KeywordValue(s: Text, i: nat, v: Value)
    requires v == Null || v.Bool?
    requires Holds(s, i, Render(v))
    ensures Production(s, i) == Parsed(Ok(v), i + |Render(v)|)
  {
    var t := Render(v);
    HoldsIndex(s, i, t, 0);
    HoldsSlice(s, i, t);
    KeywordsAnswer(s, i);
    if v != Bool(true) {
      KeywordMiss(s, i, Units("true"), Bool(true));
    }
    if v == Null {
      KeywordMiss(s, i, Units("false"), Bool(false));
    }
  }

  /** `parseValue` around a production that matched, or found nothing. */
  lemma ValueAround(s: Text, i: nat, v: Value, e: nat)
    requires i <= e <= |s|
    requires i < |s| ==> !IsWhitespace(s[i])
    requires e < |s| ==> !IsWhitespace(s[e])
    requires Production(s, i) == Parsed(Ok(v), e) || (v == Undefined && e == i && Production(s, i) == Parsed(Absent, i))
    ensures ReadValue(s, i) == Parsed(Ok(v), e)
  {
  }
  // ------------------------------------------------------ the round trip

  /** Every well-formed value is read back from its own text when a closer
      or the end of input follows it, and the cursor stops right after it. */
  lemma ValueRoundTrip(s: Text, i: nat, v: Value)
    requires WellFormed(v) && Holds(s, i, Render(v)) && Closes(s, i + |Render(v)|)
    ensures ReadValue(s, i) == Parsed(Ok(v), i + |Render(v)|)
    decreases v, 1
  {
    var e := i + |Render(v)|;
    if v == Undefined {
      AbsentValue(s, i);
      ValueAround(s, i, v, e);
    } else {
      ProductionRoundTrip(s, i, v, e);
      PresentAround(s, i, v, e);
    }
  }

  /** A value's text starts with neither whitespace nor a closer. */
  lemma PresentAround(s: Text, i: nat, v: Value, e: nat)
    requires WellFormed(v) && v != Undefined && Holds(s, i, Render(v))
    requires e == i + |Render(v)| && Closes(s, e) && Production(s, i) == Parsed(Ok(v), e)
    ensures ReadValue(s, i) == Parsed(Ok(v), e)
  {
    RenderStart(v);
    HoldsIndex(s, i, Render(v), 0);
    ValueAround(s, i, v, e);
  }

  /** The production that reads a value other than `Undefined`, when a
      closer, whitespace or the end of input follows its text. */
  lemma ProductionRoundTrip(s: Text, i: nat, v: Value, e: nat)
    requires WellFormed(v) && v != Undefined
    requires Holds(s, i, Render(v)) && e == i + |Render(v)| && Follows(s, e)
    ensures Production(s, i) == Parsed(Ok(v), e)
    decreases v, 0
  {
    match v
    case Null => KeywordValue(s, i, v);
    case Bool(_) => KeywordValue(s, i, v);
    case Num(t) => NumberProduction(s, i, t);
    case Str(t) => StringProduction(s, i, t);
    case Arr(items) => ArrayProduction(s, i, items);
    case Obj(ms) => ObjectProduction(s, i, ms);
  }

  lemma NumberProduction(s: Text, i: nat, t: Text)
    requires IsLexeme(t) && Holds(s, i, t) && Follows(s, i + |t|)
    ensures Production(s, i) == Parsed(Ok(Num(t)), i + |t|)
  {
    var f :| ValidForm(f) && Lexeme(f) == t;
    EndsAnywhere(f, s, i + |t|);
    NumberRoundTrip(s, i, f);
    NumberValue(s, i, t, i + |t|);
  }

  lemma StringProduction(s: Text, i: nat, t: Text)
    requires Holds(s, i, Quoted(t))
    ensures Production(s, i) == Parsed(Ok(Str(t)), i + |Quoted(t)|)
  {
    Bracketed(s, i, Quote, Escape(t), Quote);
    EscapeRoundTrip(s, i, t);
    StringValue(s, i, t, i + |Quoted(t)|);
  }

  lemma ArrayProduction(s: Text, i: nat, items: seq<Value>)
    requires WellFormed(Arr(items)) && Holds(s, i, Render(Arr(items)))
    ensures Production(s, i) == Parsed(Ok(Arr(items)), i + |Render(Arr(items))|)
    decreases items, 4
  {
    ArrayRoundTrip(s, i, items);
    ArrayValue(s, i, items, i + |Render(Arr(items))|);
  }

  lemma ObjectProduction(s: Text, i: nat, ms: seq<Member>)
    requires WellFormed(Obj(ms)) && Holds(s, i, Render(Obj(ms)))
    ensures Production(s, i) == Parsed(Ok(Obj(ms)), i + |Render(Obj(ms))|)
    decreases ms, 4
  {
    ObjectRoundTrip(s, i, ms);
    assert [] + ms == ms;
    PutAllFresh([], ms);
    ObjectValue(s, i, ms, i + |Render(Obj(ms))|);
  }

  /** An array's text is read as its elements, in order. */
  lemma ArrayRoundTrip(s: Text, i: nat, items: seq<Value>)
    requires !LoneHole(items) && forall k :: 0 <= k < |items| ==> WellFormed(items[k])
    requires Holds(s, i, [LeftBracket] + Items(items) + [RightBracket])
    ensures ReadArray(s, i) == Parsed(Ok(items), i + |Items(items)| + 2)
    decreases items, 3
  {
    Bracketed(s, i, LeftBracket, Items(items), RightBracket);
    if items != [] {
      HoldsConcat(s, i, [LeftBracket] + Items(items), [RightBracket]);
      ArrayBody(s, i, items, i + 1 + |Items(items)|);
    }
  }

  /** `parseArray` over a bracket and rendered elements, up to the closer
      that follows them. */
  lemma ArrayBody(s: Text, i: nat, items: seq<Value>, e: nat)
    requires items != [] && !LoneHole(items)
    requires forall k :: 0 <= k < |items| ==> WellFormed(items[k])
    requires Holds(s, i, [LeftBracket] + Items(items)) && e == i + 1 + |Items(items)| && Closes(s, e)
    ensures ReadArray(s, i) == ArrayElements(s, e, false, items)
    decreases items, 2
  {
    var m := i + 1 + |Render(items[0])|;
    ArrayParts(s, i, items, m, e);
    AfterFirst(s, m, items, e);
    FirstElement(s, i + 1, items[0], m);
    ItemsLoop(s, m, items[1..], [items[0]], e);
    assert [items[0]] + items[1..] == items;
  }

  /** Where the first element and the rest lie in a rendered array. */
  lemma ArrayParts(s: Text, i: nat, items: seq<Value>, m: nat, e: nat)
    requires items != [] && m == i + 1 + |Render(items[0])|
    requires Holds(s, i, [LeftBracket] + Items(items)) && e == i + 1 + |Items(items)|
    ensures At(s, i, LeftBracket) && Holds(s, i + 1, Render(items[0]))
    ensures Holds(s, m, MoreItems(items[1..])) && e == m + |MoreItems(items[1..])|
  {
    HoldsConcat(s, i, [LeftBracket], Items(items));
    HoldsIndex(s, i, [LeftBracket], 0);
    ItemsParts(s, i + 1, items);
  }

  lemma AfterFirst(s: Text, m: nat, items: seq<Value>, e: nat)
    requires items != [] && !LoneHole(items)
    requires Holds(s, m, MoreItems(items[1..])) && e == m + |MoreItems(items[1..])| && Closes(s, e)
    ensures Closes(s, m) && (items[0] != Undefined || At(s, m, Comma))
  {
    var more := MoreItems(items[1..]);
    MoreItemsStart(items[1..]);
    MoreClose(s, m, more, e);
    if |items| > 1 {
      HoldsIndex(s, m, more, 0);
    }
  }

  /** The elements after the first start with a comma, if there are any. */
  lemma MoreItemsStart(items: seq<Value>)
    ensures items == [] <==> MoreItems(items) == []
    ensures items != [] ==> MoreItems(items)[0] == Comma
  {
  }

  /** The members after the first start with a comma, if there are any. */
  lemma MoreMembersStart(ms: seq<Member>)
    ensures ms == [] <==> MoreMembers(ms) == []
    ensures ms != [] ==> MoreMembers(ms)[0] == Comma
  {
  }

  lemma ItemsParts(s: Text, j: nat, items: seq<Value>)
    requires items != [] && Holds(s, j, Items(items))
    ensures Holds(s, j, Render(items[0]))
    ensures Holds(s, j + |Render(items[0])|, MoreItems(items[1..]))
    ensures |Items(items)| == |Render(items[0])| + |MoreItems(items[1..])|
  {
    HoldsConcat(s, j, Render(items[0]), MoreItems(items[1..]));
  }


  /** The first turn of `parseArray`'s loop over a rendered element. */
  lemma FirstElement(s: Text, j: nat, v: Value, m: nat)
    requires WellFormed(v) && Holds(s, j, Render(v)) && m == j + |Render(v)| && Closes(s, m)
    requires v != Undefined || At(s, m, Comma)
    ensures j < |s| && !IsWhitespace(s[j])
    ensures ArrayElements(s, j, true, []) == ArrayElements(s, m, false, [v])
    decreases v, 2
  {
    ElementStart(s, j, v, m);
    ValueRoundTrip(s, j, v);
    ElementStep(s, j, true, v, m, []);
    assert [] + [v] == [v];
  }

  /** A rendered element, or the comma after a missing one, starts with a
      unit that is neither whitespace nor `]`. */
  lemma ElementStart(s: Text, j: nat, v: Value, m: nat)
    requires WellFormed(v) && Holds(s, j, Render(v)) && m == j + |Render(v)|
    requires v != Undefined || At(s, m, Comma)
    ensures j < |s| && !IsWhitespace(s[j]) && s[j] != RightBracket
  {
    if v != Undefined {
      RenderStart(v);
      HoldsIndex(s, j, Render(v), 0);
    }
  }

  /** One turn of `parseArray`'s loop that finds an element. */
  lemma ElementStep(s: Text, j: nat, initial: bool, v: Value, m: nat, acc: seq<Value>)
    requires j < |s| && s[j] != RightBracket && (initial || s[j] == Comma)
    requires ReadValue(s, if initial then j else j + 1) == Parsed(Ok(v), m)
    ensures ArrayElements(s, j, initial, acc) == ArrayElements(s, m, false, acc + [v])
  {
  }

  /** A later turn of `parseArray`'s loop: a comma and a rendered element. */
  lemma NextElement(s: Text, k: nat, v: Value, acc: seq<Value>, m: nat)
    requires WellFormed(v) && At(s, k, Comma) && Holds(s, k + 1, Render(v))
    requires m == k + 1 + |Render(v)| && Closes(s, m)
    ensures ArrayElements(s, k, false, acc) == ArrayElements(s, m, false, acc + [v])
    decreases v, 2
  {
    ValueRoundTrip(s, k + 1, v);
    ElementStep(s, k, false, v, m, acc);
  }

  /** `parseArray`'s loop over the elements after the first appends them in
      order. */
  lemma {:induction false} ItemsLoop(s: Text, k: nat, items: seq<Value>, acc: seq<Value>, e: nat)
    requires forall n :: 0 <= n < |items| ==> WellFormed(items[n])
    requires Holds(s, k, MoreItems(items)) && e == k + |MoreItems(items)| && Closes(s, e)
    ensures ArrayElements(s, k, false, acc) == ArrayElements(s, e, false, acc + items)
    decreases items, 1
  {
    if items == [] {
      assert acc + items == acc;
    } else {
      var m := k + 1 + |Render(items[0])|;
      MoreItemsParts(s, k, items);
      MoreClose(s, m, MoreItems(items[1..]), e);
      NextElement(s, k, items[0], acc, m);
      ItemsLoop(s, m, items[1..], acc + [items[0]], e);
      Shift(acc, items);
    }
  }

  lemma Shift<T>(acc: seq<T>, items: seq<T>)
    requires items != []
    ensures acc + [items[0]] + items[1..] == acc + items
  {
    assert [items[0]] + items[1..] == items;
  }

  /** A rendered member is read back by the key, colon and value step. */
  lemma MemberRoundTrip(s: Text, c: nat, m: Member, e: nat)
    requires WellFormed(m.value) && Holds(s, c, RenderMember(m))
    requires e == c + |RenderMember(m)| && Closes(s, e)
    ensures KeyValue(s, c) == Parsed(Ok(m), e)
    decreases m, 2
  {
    var b := c + |Quoted(m.key)|;
    MemberParts(s, c, m);
    KeyRead(s, c, m.key);
    ValueRoundTrip(s, b + 1, m.value);
    KeyValueStep(s, c, m.key, b, m.value, e);
  }

  /** A rendered key is read back. */
  lemma KeyRead(s: Text, c: nat, key: Text)
    requires Holds(s, c, Quoted(key))
    ensures At(s, c, Quote)
    ensures ReadString(s, c) == Parsed(Ok(key), c + |Quoted(key)|)
  {
    Bracketed(s, c, Quote, Escape(key), Quote);
    EscapeRoundTrip(s, c, key);
  }

  /** The key-colon-value step when each of its parts is found. */
  lemma KeyValueStep(s: Text, c: nat, key: Text, b: nat, v: Value, e: nat)
    requires c <= |s| && ReadString(s, c) == Parsed(Ok(key), b)
    requires At(s, b, Colon) && ReadValue(s, b + 1) == Parsed(Ok(v), e)
    ensures KeyValue(s, c) == Parsed(Ok(Member(key, v)), e)
  {
    WhitespaceRun(s, b, b);
    ColonValueStep(s, key, b, v, e);
  }

  /** The colon, then a value that is found. */
  lemma ColonValueStep(s: Text, key: Text, b: nat, v: Value, e: nat)
    requires At(s, b, Colon) && ReadValue(s, b + 1) == Parsed(Ok(v), e)
    ensures ColonValue(s, key, b) == Parsed(Ok(Member(key, v)), e)
  {
  }

  /** The first turn of `parseObject`'s loop over a rendered member. */
  lemma FirstMember(s: Text, j: nat, m: Member, e: nat)
    requires WellFormed(m.value) && Holds(s, j, RenderMember(m))
    requires e == j + |RenderMember(m)| && Closes(s, e)
    ensures j < |s| && !IsWhitespace(s[j])
    ensures ObjectMembers(s, j, true, []) == ObjectMembers(s, e, false, [m])
    decreases m, 3
  {
    MemberRoundTrip(s, j, m, e);
    MemberParts(s, j, m);
    KeyRead(s, j, m.key);
  }

  /** A later turn of `parseObject`'s loop: a comma and a rendered member,
      assigned to the object read so far. */
  lemma NextMember(s: Text, k: nat, m: Member, acc: seq<Member>, e: nat)
    requires WellFormed(m.value) && At(s, k, Comma) && Holds(s, k + 1, RenderMember(m))
    requires e == k + 1 + |RenderMember(m)| && Closes(s, e)
    ensures ObjectMembers(s, k, false, acc) == ObjectMembers(s, e, false, Put(acc, m.key, m.value))
    decreases m, 3
  {
    MemberRoundTrip(s, k + 1, m, e);
    MemberParts(s, k + 1, m);
    KeyRead(s, k + 1, m.key);
  }

  /** `parseObject`'s loop over the members after the first assigns them in
      order. */
  lemma {:induction false} MembersLoop(s: Text, k: nat, ms: seq<Member>, acc: seq<Member>, e: nat)
    requires forall n :: 0 <= n < |ms| ==> WellFormed(ms[n].value)
    requires Holds(s, k, MoreMembers(ms)) && e == k + |MoreMembers(ms)| && Closes(s, e)
    ensures ObjectMembers(s, k, false, acc) == ObjectMembers(s, e, false, PutAll(acc, ms))
    decreases ms, 1
  {
    if ms != [] {
      var m := k + 1 + |RenderMember(ms[0])|;
      MoreMembersParts(s, k, ms);
      MoreClose(s, m, MoreMembers(ms[1..]), e);
      NextMember(s, k, ms[0], acc, m);
      MembersLoop(s, m, ms[1..], Put(acc, ms[0].key, ms[0].value), e);
    }
  }

  /** An object's text is read as the object that assigns its members in
      order, so a repeated key keeps its last value (`LastKeyWins`). */
  lemma ObjectRoundTrip(s: Text, i: nat, ms: seq<Member>)
    requires forall k :: 0 <= k < |ms| ==> WellFormed(ms[k].value)
    requires Holds(s, i, [LeftBrace] + Members(ms) + [RightBrace])
    ensures ReadObject(s, i) == Parsed(Ok(PutAll([], ms)), i + |Members(ms)| + 2)
    decreases ms, 3
  {
    Bracketed(s, i, LeftBrace, Members(ms), RightBrace);
    if ms != [] {
      HoldsConcat(s, i, [LeftBrace] + Members(ms), [RightBrace]);
      ObjectBody(s, i, ms, i + 1 + |Members(ms)|);
    }
  }

  /** `parseObject` over a brace and rendered members, up to the closer
      that follows them. */
  lemma ObjectBody(s: Text, i: nat, ms: seq<Member>, e: nat)
    requires ms != [] && forall k :: 0 <= k < |ms| ==> WellFormed(ms[k].value)
    requires Holds(s, i, [LeftBrace] + Members(ms)) && e == i + 1 + |Members(ms)| && Closes(s, e)
    ensures ReadObject(s, i) == ObjectMembers(s, e, false, PutAll([], ms))
    decreases ms, 2
  {
    var j := i + 1;
    var m := j + |RenderMember(ms[0])|;
    assert [LeftBrace] + Members(ms) == [LeftBrace] + RenderMember(ms[0]) + MoreMembers(ms[1..]);
    Led(s, i, LeftBrace, RenderMember(ms[0]), MoreMembers(ms[1..]));
    MoreClose(s, m, MoreMembers(ms[1..]), e);
    FirstMember(s, j, ms[0], m);
    MembersLoop(s, m, ms[1..], [ms[0]], e);
  }
  /** A repeated key keeps the value of its last occurrence, and the keys
      are listed in the order of their first occurrence. */
  lemma LastKeyWins(s: Text, i: nat, ms: seq<Member>, key: Text)
    requires forall k :: 0 <= k < |ms| ==> WellFormed(ms[k].value)
    requires Holds(s, i, [LeftBrace] + Members(ms) + [RightBrace])
    ensures ReadObject(s, i).out.Ok?
    ensures Lookup(ReadObject(s, i).out.value, key) == Latest(ms, key)
    ensures Keys(ReadObject(s, i).out.value) == FirstOccurrences(Keys(ms))
  {
    ObjectRoundTrip(s, i, ms);
    PutAllLookup([], ms, key);
    assert [] + Keys(ms) == Keys(ms);
    PutAllKeys([], ms, []);
  }

  // ------------------------------------------------- errors in a container

  /** An array cut short by the end of input is `UnexpectedEOF`. */
  lemma UnclosedArray(s: Text, i: nat, items: seq<Value>)
    requires forall k :: 0 <= k < |items| ==> WellFormed(items[k])
    requires Holds(s, i, [LeftBracket] + Items(items)) && i + 1 + |Items(items)| == |s|
    ensures ReadArray(s, i) == Parsed(Fail(SyntaxError(UnexpectedEOF)), |s|)
  {
    if items == [] || LoneHole(items) {
      HoldsIndex(s, i, [LeftBracket] + Items(items), 0);
    } else {
      ArrayBody(s, i, items, |s|);
    }
  }

  /** In an array, a `}` where a comma or `]` belongs is `UnexpectedToken`. */
  lemma ArrayMissingComma(s: Text, i: nat, items: seq<Value>)
    requires items != [] && !LoneHole(items)
    requires forall k :: 0 <= k < |items| ==> WellFormed(items[k])
    requires Holds(s, i, [LeftBracket] + Items(items))
    requires At(s, i + 1 + |Items(items)|, RightBrace)
    ensures ReadArray(s, i) == Parsed(Fail(SyntaxError(UnexpectedToken)), i + 1 + |Items(items)|)
  {
    ArrayBody(s, i, items, i + 1 + |Items(items)|);
  }

  /** An object cut short by the end of input is `UnexpectedEOF`. */
  lemma UnclosedObject(s: Text, i: nat, ms: seq<Member>)
    requires forall k :: 0 <= k < |ms| ==> WellFormed(ms[k].value)
    requires Holds(s, i, [LeftBrace] + Members(ms)) && i + 1 + |Members(ms)| == |s|
    ensures ReadObject(s, i) == Parsed(Fail(SyntaxError(UnexpectedEOF)), |s|)
  {
    if ms == [] {
      HoldsIndex(s, i, [LeftBrace] + Members(ms), 0);
    } else {
      ObjectBody(s, i, ms, |s|);
    }
  }

  /** In an object, a `]` where a comma or `}` belongs is `UnexpectedToken`. */
  lemma ObjectMissingComma(s: Text, i: nat, ms: seq<Member>)
    requires ms != [] && forall k :: 0 <= k < |ms| ==> WellFormed(ms[k].value)
    requires Holds(s, i, [LeftBrace] + Members(ms))
    requires At(s, i + 1 + |Members(ms)|, RightBracket)
    ensures ReadObject(s, i) == Parsed(Fail(SyntaxError(UnexpectedToken)), i + 1 + |Members(ms)|)
  {
    ObjectBody(s, i, ms, i + 1 + |Members(ms)|);
  }

  /** After a comma in an object only a key may come: anything else,
      the end of input included, is `ExpectingJSONKey`. */
  lemma ObjectTrailingComma(s: Text, i: nat, ms: seq<Member>, c: nat)
    requires ms != [] && forall k :: 0 <= k < |ms| ==> WellFormed(ms[k].value)
    requires Holds(s, i, [LeftBrace] + Members(ms) + [Comma]) && c == i + 2 + |Members(ms)|
    requires !At(s, c, Quote) && (c < |s| ==> !IsWhitespace(s[c]))
    ensures ReadObject(s, i) == Parsed(Fail(SyntaxError(ExpectingJSONKey)), c)
  {
    HoldsConcat(s, i, [LeftBrace] + Members(ms), [Comma]);
    HoldsIndex(s, c - 1, [Comma], 0);
    ObjectBody(s, i, ms, c - 1);
    assert WhitespaceEnd(s, c) == c;
    MemberFails(s, c - 1, false, PutAll([], ms), c, SyntaxError(ExpectingJSONKey), c);
  }

  /** A turn of `parseObject`'s loop whose member fails ends the object with
      that failure. */
  lemma MemberFails(s: Text, k: nat, initial: bool, acc: seq<Member>, c: nat, error: Error, at: nat)
    requires k < |s| && s[k] != RightBrace && (initial || s[k] == Comma)
    requires c == (if initial then k else WhitespaceEnd(s, k + 1))
    requires KeyValue(s, c) == Parsed(Fail(error), at)
    ensures ObjectMembers(s, k, initial, acc) == Parsed(Fail(error), at)
  {
  }

  /** A key must be followed by a colon: the end of input is
      `UnexpectedEOF` and any other unit `UnexpectedToken`. */
  lemma MissingColon(s: Text, i: nat, key: Text, b: nat)
    requires Holds(s, i, [LeftBrace] + Quoted(key)) && b == i + 1 + |Quoted(key)|
    requires !At(s, b, Colon) && (b < |s| ==> !IsWhitespace(s[b]))
    ensures ReadObject(s, i) ==
      Parsed(Fail(SyntaxError(if b == |s| then UnexpectedEOF else UnexpectedToken)), b)
  {
    var error := SyntaxError(if b == |s| then UnexpectedEOF else UnexpectedToken);
    HoldsConcat(s, i, [LeftBrace], Quoted(key));
    HoldsIndex(s, i, [LeftBrace], 0);
    KeyRead(s, i + 1, key);
    assert WhitespaceEnd(s, b) == b;
    assert KeyValue(s, i + 1) == Parsed(Fail(error), b);
    MemberFails(s, i + 1, true, [], i + 1, error, b);
  }

  /** Wherever a key is read, a unit other than `:` after it and any
      whitespace is `UnexpectedToken`, and the end of input `UnexpectedEOF`. */
  lemma ColonMissing(s: Text, c: nat, key: Text, a: nat, b: nat)
    requires c <= |s| && ReadString(s, c) == Parsed(Ok(key), a)
    requires b == WhitespaceEnd(s, a) && !At(s, b, Colon)
    ensures KeyValue(s, c) ==
      Parsed(Fail(SyntaxError(if b == |s| then UnexpectedEOF else UnexpectedToken)), b)
  {
  }

  /** A turn of `parseObject`'s loop, the first or a later one, whose key
      has no colon after it fails there. */
  lemma MemberColonMissing(s: Text, k: nat, initial: bool, acc: seq<Member>, c: nat, key: Text, a: nat, b: nat)
    requires k < |s| && s[k] != RightBrace && (initial || s[k] == Comma)
    requires c == (if initial then k else WhitespaceEnd(s, k + 1))
    requires ReadString(s, c) == Parsed(Ok(key), a)
    requires b == WhitespaceEnd(s, a) && !At(s, b, Colon)
    ensures ObjectMembers(s, k, initial, acc) ==
      Parsed(Fail(SyntaxError(if b == |s| then UnexpectedEOF else UnexpectedToken)), b)
  {
    ColonMissing(s, c, key, a, b);
    MemberFails(s, k, initial, acc, c, SyntaxError(if b == |s| then UnexpectedEOF else UnexpectedToken), b);
  }

  /** A turn of `parseObject`'s loop, the first or a later one, where no
      string starts the member is `ExpectingJSONKey` (so `{1:2}` fails). */
  lemma KeyMissing(s: Text, k: nat, initial: bool, acc: seq<Member>, c: nat)
    requires k < |s| && s[k] != RightBrace && (initial || s[k] == Comma)
    requires c == (if initial then k else WhitespaceEnd(s, k + 1))
    requires !At(s, c, Quote)
    ensures ObjectMembers(s, k, initial, acc) == Parsed(Fail(SyntaxError(ExpectingJSONKey)), c)
  {
    MemberFails(s, k, initial, acc, c, SyntaxError(ExpectingJSONKey), c);
  }

  /** After a member, anything but `,` or `}` ends the object with
      `UnexpectedToken`, or `UnexpectedEOF` at the end of input. */
  lemma ObjectSeparatorMissing(s: Text, k: nat, acc: seq<Member>)
    requires k <= |s| && !At(s, k, Comma) && !At(s, k, RightBrace)
    ensures ObjectMembers(s, k, false, acc) ==
      Parsed(Fail(SyntaxError(if k == |s| then UnexpectedEOF else UnexpectedToken)), k)
  {
  }

  /** After an element, anything but `,` or `]` ends the array with
      `UnexpectedToken` (so `[1 2]` fails), or `UnexpectedEOF` at the end of
      input. */
  lemma ArraySeparatorMissing(s: Text, k: nat, acc: seq<Value>)
    requires k <= |s| && !At(s, k, Comma) && !At(s, k, RightBracket)
    ensures ArrayElements(s, k, false, acc) ==
      Parsed(Fail(SyntaxError(if k == |s| then UnexpectedEOF else UnexpectedToken)), k)
  {
  }

  // ------------------------------------------------------------ documents

  predicate AllWhitespace(w: Text)
  {
    forall k :: 0 <= k < |w| ==> IsWhitespace(w[k])
  }

  /** The exported function reads every well-formed value back from its
      text, whatever whitespace surrounds it. */
  lemma DocumentRoundTrip(v: Value, w1: Text, w2: Text)
    requires WellFormed(v) && AllWhitespace(w1) && AllWhitespace(w2)
    ensures ReadDocument(w1 + Render(v) + w2) == Ok(v)
  {
    var t := Render(v);
    var s := w1 + t + w2;
    var a, e := |w1|, |w1| + |t|;
    Padded(w1, t, w2);
    if v == Undefined {
      WhitespaceRun(s, 0, |s|);
      AbsentValue(s, |s|);
    } else {
      RenderStart(v);
      HoldsIndex(s, a, t, 0);
      WhitespaceRun(s, 0, a);
      ProductionRoundTrip(s, a, v, e);
      WhitespaceRun(s, e, |s|);
    }
  }

  lemma Padded(w1: Text, t: Text, w2: Text)
    requires AllWhitespace(w1) && AllWhitespace(w2)
    ensures var s := w1 + t + w2;
      && Holds(s, |w1|, t)
      && (forall k :: 0 <= k < |w1| ==> IsWhitespace(s[k]))
      && (forall k :: |w1| + |t| <= k < |s| ==> IsWhitespace(s[k]))
      && (t == [] ==> forall k :: 0 <= k < |s| ==> IsWhitespace(s[k]))
  {
    var s := w1 + t + w2;
    forall k | 0 <= k < |w1|
      ensures s[k] == w1[k]
    {
    }
    forall k | |w1| + |t| <= k < |s|
      ensures s[k] == w2[k - |w1| - |t|]
    {
    }
    forall k | 0 <= k < |t|
      ensures s[|w1| + k] == t[k]
    {
    }
  }

  /** At the top level a value must be followed by nothing but whitespace:
      anything else is `ExpectedEndOfInput`. */
  lemma DocumentEnd(s: Text)
    requires !Production(s, WhitespaceEnd(s, 0)).out.Fail?
    ensures var p := Production(s, WhitespaceEnd(s, 0));
      var v := if p.out.Ok? then p.out.value else Undefined;
      ReadDocument(s) ==
        if forall k :: p.at <= k < |s| ==> IsWhitespace(s[k]) then Ok(v)
        else Fail(SyntaxError(ExpectedEndOfInput))
  {
    var p := Production(s, WhitespaceEnd(s, 0));
    var j := WhitespaceEnd(s, p.at);
    if j < |s| {
      assert !IsWhitespace(s[j]);
    }
  }

  /** Input made of whitespace only, the empty input included, reads as
      `undefined`. */
  lemma BlankDocument(s: Text)
    requires AllWhitespace(s)
    ensures ReadDocument(s) == Ok(Undefined)
  {
    DocumentRoundTrip(Undefined, s, []);
    assert s + Render(Undefined) + [] == s;
  }
}
