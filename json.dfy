/** The values the reader builds and the outcomes its productions report.

    The reader works on a JavaScript string, that is, on a sequence of UTF-16
    code units, and `str[i]` reads one code unit.  Decoded strings are built
    from code units too: a `\uXXXX` escape may yield any unit, a lone surrogate
    included, which a Dafny `char` cannot hold.  So both the input and every
    decoded string are sequences of `Unit`. */
module Json {

  /** One UTF-16 code unit. */
  type Unit = x: int | 0 <= x < 0x1_0000

  /** A sequence of code units: the input, a decoded string or a number lexeme. */
  type Text = seq<Unit>

  // The code units the reader dispatches on.
  const Quote: Unit := '"' as int
  const Backslash: Unit := '\\' as int
  const LeftBrace: Unit := '{' as int
  const RightBrace: Unit := '}' as int
  const LeftBracket: Unit := '[' as int
  const RightBracket: Unit := ']' as int
  const Comma: Unit := ',' as int
  const Colon: Unit := ':' as int
  const Minus: Unit := '-' as int
  const Plus: Unit := '+' as int
  const Point: Unit := '.' as int
  const LowerE: Unit := 'e' as int
  const UpperE: Unit := 'E' as int
  const LowerU: Unit := 'u' as int

  /** The spelling of a code-unit text whose characters all lie in the Basic
      Multilingual Plane, one unit per character. */
  function Units(t: string): (u: Text)
    requires forall k :: 0 <= k < |t| ==> t[k] as int < 0x1_0000
    ensures |u| == |t|
    ensures forall k :: 0 <= k < |t| ==> u[k] == t[k] as int
  {
    seq(|t|, k requires 0 <= k < |t| => t[k] as int)
  }

  /** The seven kinds of `SyntaxError` the reader throws. */
  datatype ErrorKind =
    | UnexpectedEOF
    | ExpectedEndOfInput
    | ExpectingJSONKey
    | UnexpectedToken
    | ExpectingADigit
    | ExpectingEscapeCharacter
    | ExpectingEscapeUnicode

  /** An exception that aborts the whole parse.  Besides its own syntax errors
      the reader can throw a `TypeError`: on a `\u` escape cut short by the end
      of input it asks for the lower-case form of a unit that is not there. */
  datatype Error = SyntaxError(kind: ErrorKind) | TypeError

  /** What one production reports: it did not match (`Absent`, the source's
      `undefined` return), it matched and built a value, or it threw. */
  datatype Outcome<+T> = Absent | Ok(value: T) | Fail(error: Error)

  datatype Option<+T> = None | Some(value: T)

  /** A parsed value.  `Undefined` is what a missing value leaves behind: the
      result of an empty document, and what an object member or an array
      element holds when no value was found for it. */
  datatype Value =
    | Undefined
    | Null
    | Bool(b: bool)
    | Num(lexeme: Text)
    | Str(chars: Text)
    | Arr(items: seq<Value>)
    | Obj(members: seq<Member>)

  /** One property of an object, in insertion order. */
  datatype Member = Member(key: Text, value: Value)

  /** The keys of an object, in insertion order. */
  function Keys(ms: seq<Member>): (ks: seq<Text>)
    ensures |ks| == |ms|
    ensures forall j :: 0 <= j < |ms| ==> ks[j] == ms[j].key
  {
    if ms == [] then [] else [ms[0].key] + Keys(ms[1..])
  }

  /** No key occurs twice: what a JavaScript object always satisfies. */
  predicate DistinctKeys(ms: seq<Member>)
  {
    forall j, k :: 0 <= j < k < |ms| ==> ms[j].key != ms[k].key
  }

  /** Reading `obj[key]`: the value stored under `key`, if any. */
  function Lookup(ms: seq<Member>, key: Text): (r: Option<Value>)
    ensures r.Some? <==> key in Keys(ms)
  {
    if ms == [] then None
    else if ms[0].key == key then Some(ms[0].value)
    else Lookup(ms[1..], key)
  }

  /** No member of `ms` is named `key`. */
  predicate Fresh(ms: seq<Member>, key: Text)
  {
    forall j :: 0 <= j < |ms| ==> ms[j].key != key
  }

  /** The assignment `obj[key] = value`: an existing property keeps its place
      and takes the new value, a new one goes last. */
  function Put(ms: seq<Member>, key: Text, value: Value): seq<Member>
  {
    if ms == [] then [Member(key, value)]
    else if ms[0].key == key then [Member(key, value)] + ms[1..]
    else [ms[0]] + Put(ms[1..], key, value)
  }

  /** Assignment never duplicates a key. */
  lemma {:induction false} PutDistinct(ms: seq<Member>, key: Text, value: Value)
    requires DistinctKeys(ms)
    ensures DistinctKeys(Put(ms, key, value))
  {
    if ms != [] && ms[0].key != key {
      var rest := Put(ms[1..], key, value);
      PutDistinct(ms[1..], key, value);
      PutKeeps(ms[1..], key, value, ms[0].key);
      assert Put(ms, key, value) == [ms[0]] + rest;
    } else if ms != [] {
      assert Put(ms, key, value)[1..] == ms[1..];
    }
  }

  /** Assignment adds no key other than its own. */
  lemma {:induction false} PutKeeps(ms: seq<Member>, key: Text, value: Value, other: Text)
    requires Fresh(ms, other) && other != key
    ensures Fresh(Put(ms, key, value), other)
  {
    if ms != [] && ms[0].key != key {
      PutKeeps(ms[1..], key, value, other);
      assert Put(ms, key, value) == [ms[0]] + Put(ms[1..], key, value);
    } else if ms != [] {
      assert Put(ms, key, value)[1..] == ms[1..];
    }
  }

  /** After `obj[key] = value`, reading `key` gives `value` and reading any
      other key gives what it gave before. */
  lemma {:induction false} PutLookup(ms: seq<Member>, key: Text, value: Value, other: Text)
    ensures Lookup(Put(ms, key, value), other) == if other == key then Some(value) else Lookup(ms, other)
  {
    if ms != [] && ms[0].key != key {
      var r := Put(ms, key, value);
      assert r[1..] == Put(ms[1..], key, value);
      PutLookup(ms[1..], key, value, other);
    } else if ms != [] {
      assert Put(ms, key, value)[1..] == ms[1..];
    }
  }
  /** Assignment keeps the keys and their order, and a key the object did
      not have goes last. */
  lemma {:induction false} PutKeys(ms: seq<Member>, key: Text, value: Value)
    ensures Keys(Put(ms, key, value)) == if key in Keys(ms) then Keys(ms) else Keys(ms) + [key]
  {
    if ms != [] && ms[0].key != key {
      var r := Put(ms, key, value);
      assert r[1..] == Put(ms[1..], key, value);
      PutKeys(ms[1..], key, value);
      assert Keys(ms) == [ms[0].key] + Keys(ms[1..]);
      assert Keys(r) == [ms[0].key] + Keys(r[1..]);
    } else if ms != [] {
      assert Put(ms, key, value)[1..] == ms[1..];
    }
  }

  /** Assigning a key the object does not have appends it. */
  lemma {:induction false} PutFresh(ms: seq<Member>, key: Text, value: Value)
    requires Fresh(ms, key)
    ensures Put(ms, key, value) == ms + [Member(key, value)]
  {
    if ms != [] {
      PutFresh(ms[1..], key, value);
      assert ms == [ms[0]] + ms[1..];
    }
  }

  /** The object after assigning the members `ps` in turn. */
  function PutAll(ms: seq<Member>, ps: seq<Member>): seq<Member>
    decreases |ps|
  {
    if ps == [] then ms else PutAll(Put(ms, ps[0].key, ps[0].value), ps[1..])
  }

  /** The keys `ks` in the order of their first occurrence, each once. */
  function FirstOccurrences(ks: seq<Text>): seq<Text>
  {
    if ks == [] then []
    else
      var earlier := FirstOccurrences(ks[..|ks| - 1]);
      if ks[|ks| - 1] in earlier then earlier else earlier + [ks[|ks| - 1]]
  }

  /** `FirstOccurrences` lists every key of `ks`, and no key twice. */
  lemma {:induction false} FirstOccurrencesOnce(ks: seq<Text>)
    ensures forall k :: k in FirstOccurrences(ks) <==> k in ks
    ensures forall j, k :: 0 <= j < k < |FirstOccurrences(ks)| ==>
      FirstOccurrences(ks)[j] != FirstOccurrences(ks)[k]
  {
    if ks != [] {
      var init := ks[..|ks| - 1];
      FirstOccurrencesOnce(init);
      assert ks == init + [ks[|ks| - 1]];
    }
  }

  /** Assigning members in turn lists the keys in the order each was first
      assigned. */
  lemma {:induction false} PutAllKeys(ms: seq<Member>, ps: seq<Member>, ks: seq<Text>)
    requires Keys(ms) == FirstOccurrences(ks)
    ensures Keys(PutAll(ms, ps)) == FirstOccurrences(ks + Keys(ps))
    decreases |ps|
  {
    if ps == [] {
      assert ks + Keys(ps) == ks;
    } else {
      PutKeysStep(ms, ps, ks);
      PutAllKeys(Put(ms, ps[0].key, ps[0].value), ps[1..], ks + [ps[0].key]);
    }
  }

  /** The first assignment of `PutAllKeys`'s run. */
  lemma PutKeysStep(ms: seq<Member>, ps: seq<Member>, ks: seq<Text>)
    requires ps != [] && Keys(ms) == FirstOccurrences(ks)
    ensures Keys(Put(ms, ps[0].key, ps[0].value)) == FirstOccurrences(ks + [ps[0].key])
    ensures ks + Keys(ps) == (ks + [ps[0].key]) + Keys(ps[1..])
  {
    var k := ps[0].key;
    PutKeys(ms, k, ps[0].value);
    FirstOccurrencesStep(ks, k);
    KeysJoin(ks, ps);
  }

  lemma KeysJoin(ks: seq<Text>, ps: seq<Member>)
    requires ps != []
    ensures ks + Keys(ps) == (ks + [ps[0].key]) + Keys(ps[1..])
  {
    assert Keys(ps) == [ps[0].key] + Keys(ps[1..]);
  }

  lemma FirstOccurrencesStep(ks: seq<Text>, k: Text)
    ensures FirstOccurrences(ks + [k]) ==
      if k in FirstOccurrences(ks) then FirstOccurrences(ks) else FirstOccurrences(ks) + [k]
  {
    assert (ks + [k])[..|ks|] == ks;
  }

  /** The value of the last member of `ps` named `key`, if any. */
  function Latest(ps: seq<Member>, key: Text): (r: Option<Value>)
    ensures r.Some? <==> key in Keys(ps)
  {
    if ps == [] then None
    else
      var later := Latest(ps[1..], key);
      if later.Some? then later
      else if ps[0].key == key then Some(ps[0].value)
      else None
  }

  /** When a key is assigned several times, the last assignment wins. */
  lemma {:induction false} PutAllLookup(ms: seq<Member>, ps: seq<Member>, key: Text)
    ensures Lookup(PutAll(ms, ps), key) ==
      if Latest(ps, key).Some? then Latest(ps, key) else Lookup(ms, key)
    decreases |ps|
  {
    if ps != [] {
      PutAllLookup(Put(ms, ps[0].key, ps[0].value), ps[1..], key);
      PutLookup(ms, ps[0].key, ps[0].value, key);
    }
  }

  /** Assigning members whose keys are all new appends them in order. */
  lemma {:induction false} PutAllFresh(ms: seq<Member>, ps: seq<Member>)
    requires DistinctKeys(ms + ps)
    ensures PutAll(ms, ps) == ms + ps
    decreases |ps|
  {
    if ps != [] {
      FreshStep(ms, ps);
      PutAllFresh(ms + [ps[0]], ps[1..]);
    }
  }

  lemma FreshStep(ms: seq<Member>, ps: seq<Member>)
    requires ps != [] && DistinctKeys(ms + ps)
    ensures Put(ms, ps[0].key, ps[0].value) == ms + [ps[0]]
    ensures (ms + [ps[0]]) + ps[1..] == ms + ps
  {
    FirstFresh(ms, ps);
    PutFresh(ms, ps[0].key, ps[0].value);
    assert (ms + [ps[0]]) + ps[1..] == ms + ps;
  }

  lemma FirstFresh(ms: seq<Member>, ps: seq<Member>)
    requires ps != [] && DistinctKeys(ms + ps)
    ensures Fresh(ms, ps[0].key)
  {
    var both := ms + ps;
    forall j | 0 <= j < |ms|
      ensures ms[j].key != ps[0].key
    {
      assert both[j] == ms[j] && both[|ms|] == ps[0];
    }
  }

}
