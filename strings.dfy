/** What `parseString` decodes, and the errors it reports.

    A string's body is read as a sequence of pieces: a unit standing for
    itself, a backslash and a unit standing for that unit, or a backslash,
    `u` and four hexadecimal digits standing for the unit they spell. */
module Strings {
  import opened Json
  import opened Grammar
  import opened Spans

  datatype Piece =
    | Plain(unit: Unit)
    | Escaped(unit: Unit)
    | Unicode(h0: Unit, h1: Unit, h2: Unit, h3: Unit)

  predicate ValidPiece(p: Piece)
  {
    match p
    case Plain(u) => u != Quote && u != Backslash
    case Escaped(u) => IsSimpleEscape(u)
    case Unicode(h0, h1, h2, h3) =>
      IsHexadecimal(h0) && IsHexadecimal(h1) && IsHexadecimal(h2) && IsHexadecimal(h3)
  }

  predicate AllValid(ps: seq<Piece>)
  {
    forall k :: 0 <= k < |ps| ==> ValidPiece(ps[k])
  }

  /** How a piece is written in the input. */
  function Spelling(p: Piece): Text
  {
    match p
    case Plain(u) => [u]
    case Escaped(u) => [Backslash, u]
    case Unicode(h0, h1, h2, h3) => [Backslash, LowerU, h0, h1, h2, h3]
  }

  /** The unit a piece decodes to.  A simple escape stands for the escaped
      unit itself: `\n` decodes to `n`. */
  function Meaning(p: Piece): Unit
    requires ValidPiece(p)
  {
    match p
    case Plain(u) => u
    case Escaped(u) => u
    case Unicode(h0, h1, h2, h3) => HexValue(h0, h1, h2, h3)
  }

  function Spell(ps: seq<Piece>): Text
  {
    if ps == [] then [] else Spelling(ps[0]) + Spell(ps[1..])
  }

  function Decode(ps: seq<Piece>): (t: Text)
    requires AllValid(ps)
    ensures |t| == |ps|
  {
    if ps == [] then [] else [Meaning(ps[0])] + Decode(ps[1..])
  }

  /** A valid piece in the input is one turn of `parseString`'s loop that
      appends its meaning and steps over its spelling. */
  lemma {:induction false} StepPiece(s: Text, i: nat, p: Piece)
    requires ValidPiece(p) && Holds(s, i, Spelling(p))
    ensures NextStringStep(s, i) == Append(Meaning(p), |Spelling(p)|)
  {
    var t := Spelling(p);
    HoldsIndex(s, i, t, 0);
    match p
    case Plain(u) =>
    case Escaped(u) =>
      HoldsIndex(s, i, t, 1);
    case Unicode(h0, h1, h2, h3) =>
      HoldsIndex(s, i, t, 1);
      HoldsIndex(s, i, t, 2);
      HoldsIndex(s, i, t, 3);
      HoldsIndex(s, i, t, 4);
      HoldsIndex(s, i, t, 5);
      assert ReadQuad(s, i + 2) == Hex(HexValue(h0, h1, h2, h3));
  }

  /** The first piece and the rest, each in the input in turn. */
  lemma SplitPieces(s: Text, i: nat, ps: seq<Piece>)
    requires ps != [] && AllValid(ps) && Holds(s, i, Spell(ps))
    ensures ValidPiece(ps[0]) && AllValid(ps[1..])
    ensures Holds(s, i, Spelling(ps[0])) && Holds(s, i + |Spelling(ps[0])|, Spell(ps[1..]))
  {
    assert forall k :: 0 <= k < |ps[1..]| ==> ps[1..][k] == ps[k + 1];
    HoldsConcat(s, i, Spelling(ps[0]), Spell(ps[1..]));
  }

  /** The step of `ReadPieces`: the first piece is one turn of the loop. */
  lemma PieceStep(s: Text, i: nat, ps: seq<Piece>, acc: Text, j: nat, e: nat)
    requires ps != [] && AllValid(ps) && Holds(s, i, Spelling(ps[0]))
    requires j == i + |Spelling(ps[0])| && e == j + |Spell(ps[1..])| && e <= |s|
    requires AllValid(ps[1..])
    requires StringChars(s, j, acc + [Meaning(ps[0])]) == StringChars(s, e, acc + [Meaning(ps[0])] + Decode(ps[1..]))
    ensures StringChars(s, i, acc) == StringChars(s, e, acc + Decode(ps))
  {
    PieceChars(s, i, ps[0], acc, j);
    Unroll(ps, acc);
  }

  /** A valid piece in the input, read by one turn of the loop. */
  lemma PieceChars(s: Text, i: nat, p: Piece, acc: Text, j: nat)
    requires ValidPiece(p) && Holds(s, i, Spelling(p)) && j == i + |Spelling(p)|
    ensures j <= |s| && StringChars(s, i, acc) == StringChars(s, j, acc + [Meaning(p)])
  {
    StepPiece(s, i, p);
    StepChars(s, i, acc, Meaning(p), |Spelling(p)|);
  }

  lemma Unroll(ps: seq<Piece>, acc: Text)
    requires ps != [] && AllValid(ps)
    ensures |Spell(ps)| == |Spelling(ps[0])| + |Spell(ps[1..])|
    ensures acc + [Meaning(ps[0])] + Decode(ps[1..]) == acc + Decode(ps)
  {
    assert acc + [Meaning(ps[0])] + Decode(ps[1..]) == acc + ([Meaning(ps[0])] + Decode(ps[1..]));
  }

  /** One appending turn of `parseString`'s loop. */
  lemma StepChars(s: Text, i: nat, acc: Text, u: Unit, w: nat)
    requires i <= |s| && NextStringStep(s, i) == Append(u, w)
    ensures i + w <= |s| && StringChars(s, i, acc) == StringChars(s, i + w, acc + [u])
  {
  }

  /** `parseString`'s loop steps over a run of valid pieces, appending what
      they decode to. */
  lemma {:induction false} ReadPieces(s: Text, i: nat, ps: seq<Piece>, acc: Text)
    requires AllValid(ps) && Holds(s, i, Spell(ps))
    ensures StringChars(s, i, acc) == StringChars(s, i + |Spell(ps)|, acc + Decode(ps))
    decreases ps
  {
    if ps != [] {
      SplitPieces(s, i, ps);
      var j := i + |Spelling(ps[0])|;
      ReadPieces(s, j, ps[1..], acc + [Meaning(ps[0])]);
      PieceStep(s, i, ps, acc, j, j + |Spell(ps[1..])|);
      Unroll(ps, acc);
    } else {
      assert acc + Decode(ps) == acc;
    }
  }

  /** After the opening quote and a run of valid pieces, `parseString` is
      at the same point as its loop started there with their meanings. */
  lemma OpenString(s: Text, i: nat, ps: seq<Piece>, j: nat)
    requires At(s, i, Quote) && AllValid(ps) && Holds(s, i + 1, Spell(ps)) && j == i + 1 + |Spell(ps)|
    ensures j <= |s| && ReadString(s, i) == StringChars(s, j, Decode(ps))
  {
    ReadPieces(s, i + 1, ps, []);
    assert [] + Decode(ps) == Decode(ps);
  }

  /** A quoted run of valid pieces decodes to their meanings, and the cursor
      ends just past the closing quote. */
  lemma DecodeString(s: Text, i: nat, ps: seq<Piece>)
    requires At(s, i, Quote) && AllValid(ps) && Holds(s, i + 1, Spell(ps))
    requires At(s, i + 1 + |Spell(ps)|, Quote)
    ensures ReadString(s, i) == Parsed(Ok(Decode(ps)), i + |Spell(ps)| + 2)
  {
    OpenString(s, i, ps, i + 1 + |Spell(ps)|);
  }

  /** Valid pieces running into the end of input: `Unexpected EOF`. */
  lemma UnterminatedString(s: Text, i: nat, ps: seq<Piece>)
    requires At(s, i, Quote) && AllValid(ps) && Holds(s, i + 1, Spell(ps))
    requires i + 1 + |Spell(ps)| == |s|
    ensures ReadString(s, i) == Parsed(Fail(SyntaxError(UnexpectedEOF)), |s|)
  {
    OpenString(s, i, ps, i + 1 + |Spell(ps)|);
  }

  /** A backslash followed by neither a simple escape nor `u` (nor by
      anything): `Expecting an escape character`, with the cursor on the
      backslash. */
  lemma BadEscape(s: Text, i: nat, ps: seq<Piece>, j: nat)
    requires At(s, i, Quote) && AllValid(ps) && Holds(s, i + 1, Spell(ps)) && j == i + 1 + |Spell(ps)|
    requires At(s, j, Backslash) && !(j + 1 < |s| && (IsSimpleEscape(s[j + 1]) || s[j + 1] == LowerU))
    ensures ReadString(s, i) == Parsed(Fail(SyntaxError(ExpectingEscapeCharacter)), j)
  {
    OpenString(s, i, ps, j);
  }

  /** `\u` followed by fewer than four hexadecimal digits and then a unit
      that is not one: `Expecting an escape unicode`, with the cursor just
      past the `u`. */
  lemma BadUnicodeEscape(s: Text, i: nat, ps: seq<Piece>, j: nat, n: nat)
    requires At(s, i, Quote) && AllValid(ps) && Holds(s, i + 1, Spell(ps)) && j == i + 1 + |Spell(ps)|
    requires At(s, j, Backslash) && At(s, j + 1, LowerU)
    requires n < 4 && j + 2 + n < |s| && !IsHexadecimal(s[j + 2 + n])
    requires forall m :: j + 2 <= m < j + 2 + n ==> IsHexadecimal(s[m])
    ensures ReadString(s, i) == Parsed(Fail(SyntaxError(ExpectingEscapeUnicode)), j + 2)
  {
    OpenString(s, i, ps, j);
    UnicodeMiss(s, j, Decode(ps), n);
  }

  /** The turn of `parseString`'s loop that meets such a `\u`. */
  lemma UnicodeMiss(s: Text, j: nat, acc: Text, n: nat)
    requires At(s, j, Backslash) && At(s, j + 1, LowerU)
    requires n < 4 && j + 2 + n < |s| && !IsHexadecimal(s[j + 2 + n])
    requires forall m :: j + 2 <= m < j + 2 + n ==> IsHexadecimal(s[m])
    ensures StringChars(s, j, acc) == Parsed(Fail(SyntaxError(ExpectingEscapeUnicode)), j + 2)
  {
    QuadNotHex(s, j + 2, n);
  }

  /** `\u` followed by fewer than four hexadecimal digits and then the end
      of input: `isHexadecimal(undefined)` throws a `TypeError`, with the
      cursor on the backslash. */
  lemma TruncatedUnicodeEscape(s: Text, i: nat, ps: seq<Piece>, j: nat)
    requires At(s, i, Quote) && AllValid(ps) && Holds(s, i + 1, Spell(ps)) && j == i + 1 + |Spell(ps)|
    requires At(s, j, Backslash) && At(s, j + 1, LowerU)
    requires j + 6 > |s| && forall m :: j + 2 <= m < |s| ==> IsHexadecimal(s[m])
    ensures ReadString(s, i) == Parsed(Fail(TypeError), j)
  {
    OpenString(s, i, ps, j);
    UnicodeCut(s, j, Decode(ps));
  }

  /** The turn of `parseString`'s loop that meets such a `\u`. */
  lemma UnicodeCut(s: Text, j: nat, acc: Text)
    requires At(s, j, Backslash) && At(s, j + 1, LowerU)
    requires j + 6 > |s| && forall m :: j + 2 <= m < |s| ==> IsHexadecimal(s[m])
    ensures StringChars(s, j, acc) == Parsed(Fail(TypeError), j)
  {
    assert ReadQuad(s, j + 2) == PastEnd;
  }

  /** Every string `parseString` returns is a quoted run of valid pieces,
      decoded: together with `DecodeString`, the decoded strings are exactly
      these. */
  lemma StringShape(s: Text, i: nat)
    requires i <= |s| && ReadString(s, i).out.Ok?
    ensures exists ps ::
      && At(s, i, Quote) && AllValid(ps) && Holds(s, i + 1, Spell(ps))
      && At(s, i + 1 + |Spell(ps)|, Quote)
      && ReadString(s, i) == Parsed(Ok(Decode(ps)), i + |Spell(ps)| + 2)
  {
    var ps := CharsShape(s, i + 1, []);
    assert [] + Decode(ps) == Decode(ps);
  }

  /** The pieces `parseString`'s loop read from `i` up to the closing quote. */
  lemma {:induction false} CharsShape(s: Text, i: nat, acc: Text) returns (ps: seq<Piece>)
    requires i <= |s| && StringChars(s, i, acc).out.Ok?
    ensures AllValid(ps) && Holds(s, i, Spell(ps)) && At(s, i + |Spell(ps)|, Quote)
    ensures StringChars(s, i, acc) == Parsed(Ok(acc + Decode(ps)), i + |Spell(ps)| + 1)
    decreases |s| - i, 1
  {
    match NextStringStep(s, i)
    case Close =>
      ps := [];
      assert acc + Decode(ps) == acc;
    case Append(u, w) =>
      ps := CharsStep(s, i, acc, u, w);
  }

  lemma {:induction false} CharsStep(s: Text, i: nat, acc: Text, u: Unit, w: nat) returns (ps: seq<Piece>)
    requires i <= |s| && StringChars(s, i, acc).out.Ok?
    requires NextStringStep(s, i) == Append(u, w)
    ensures AllValid(ps) && Holds(s, i, Spell(ps)) && At(s, i + |Spell(ps)|, Quote)
    ensures StringChars(s, i, acc) == Parsed(Ok(acc + Decode(ps)), i + |Spell(ps)| + 1)
    decreases |s| - i, 0
  {
    var p := StepShape(s, i);
    StepChars(s, i, acc, u, w);
    var rest := CharsShape(s, i + w, acc + [u]);
    CharsJoin(s, i, acc, p, rest, i + w + |Spell(rest)|);
    ps := [p] + rest;
  }

  /** The step of `CharsShape`: the piece read first, then the rest. */
  lemma CharsJoin(s: Text, i: nat, acc: Text, p: Piece, rest: seq<Piece>, e: nat)
    requires ValidPiece(p) && AllValid(rest)
    requires Holds(s, i, Spelling(p)) && Holds(s, i + |Spelling(p)|, Spell(rest))
    requires e == i + |Spelling(p)| + |Spell(rest)| && At(s, e, Quote)
    requires StringChars(s, i, acc) == Parsed(Ok(acc + [Meaning(p)] + Decode(rest)), e + 1)
    ensures var ps := [p] + rest;
      && AllValid(ps) && Holds(s, i, Spell(ps)) && At(s, i + |Spell(ps)|, Quote)
      && StringChars(s, i, acc) == Parsed(Ok(acc + Decode(ps)), i + |Spell(ps)| + 1)
  {
    var ps := [p] + rest;
    assert ps[0] == p && ps[1..] == rest;
    JoinPieces(s, i, p, rest);
    Unroll(ps, acc);
  }

  /** A piece followed by a run of pieces, each in the input in turn. */
  lemma JoinPieces(s: Text, i: nat, p: Piece, rest: seq<Piece>)
    requires ValidPiece(p) && AllValid(rest)
    requires Holds(s, i, Spelling(p)) && Holds(s, i + |Spelling(p)|, Spell(rest))
    ensures AllValid([p] + rest) && Holds(s, i, Spell([p] + rest))
  {
    var ps := [p] + rest;
    assert ps[1..] == rest;
    assert forall k :: 1 <= k < |ps| ==> ps[k] == rest[k - 1];
    HoldsJoin(s, i, Spelling(p), Spell(rest));
  }

  /** The piece that one appending turn of `parseString`'s loop read. */
  lemma StepShape(s: Text, i: nat) returns (p: Piece)
    requires i <= |s| && NextStringStep(s, i).Append?
    ensures ValidPiece(p) && Holds(s, i, Spelling(p))
    ensures Meaning(p) == NextStringStep(s, i).unit && |Spelling(p)| == NextStringStep(s, i).width
  {
    if s[i] != Backslash {
      p := Plain(s[i]);
    } else if IsSimpleEscape(s[i + 1]) {
      p := Escaped(s[i + 1]);
    } else {
      p := Unicode(s[i + 2], s[i + 3], s[i + 4], s[i + 5]);
    }
  }

  /** Fewer than four hexadecimal digits and then a unit that is not one. */
  lemma QuadNotHex(s: Text, k: nat, n: nat)
    requires n < 4 && k + n < |s| && !IsHexadecimal(s[k + n])
    requires forall m :: k <= m < k + n ==> IsHexadecimal(s[m])
    ensures ReadQuad(s, k) == NotHex
  {
    if n > 0 {
      assert IsHexadecimal(s[k]);
    }
    if n > 1 {
      assert IsHexadecimal(s[k + 1]);
    }
    if n > 2 {
      assert IsHexadecimal(s[k + 2]);
    }
  }


  /** `esc`: a backslash before every `"` and `\`, nothing else changed. */
  function Escape(t: Text): Text
  {
    if t == [] then []
    else (if t[0] == Quote || t[0] == Backslash then [Backslash, t[0]] else [t[0]]) + Escape(t[1..])
  }

  /** The pieces `Escape(t)` consists of. */
  function EscapePieces(t: Text): (ps: seq<Piece>)
    ensures AllValid(ps)
  {
    if t == [] then []
    else [if t[0] == Quote || t[0] == Backslash then Escaped(t[0]) else Plain(t[0])] + EscapePieces(t[1..])
  }

  lemma {:induction false} EscapeSpelling(t: Text)
    ensures Spell(EscapePieces(t)) == Escape(t)
    ensures Decode(EscapePieces(t)) == t
  {
    if t != [] {
      EscapeSpelling(t[1..]);
      var ps := EscapePieces(t);
      assert ps[1..] == EscapePieces(t[1..]);
      assert t == [t[0]] + t[1..];
    }
  }

  /** `esc` leaves a text with no `"` and no `\` as it is. */
  lemma {:induction false} PlainEscape(t: Text)
    requires forall k :: 0 <= k < |t| ==> t[k] != Quote && t[k] != Backslash
    ensures Escape(t) == t
  {
    if t != [] {
      assert forall k :: 0 <= k < |t[1..]| ==> t[1..][k] == t[k + 1];
      PlainEscape(t[1..]);
      assert t == [t[0]] + t[1..];
    }
  }

  /** A quoted text with no `"` and no `\` in it reads back as itself. */
  lemma VerbatimString(s: Text, i: nat, t: Text)
    requires forall k :: 0 <= k < |t| ==> t[k] != Quote && t[k] != Backslash
    requires At(s, i, Quote) && Holds(s, i + 1, t) && At(s, i + 1 + |t|, Quote)
    ensures ReadString(s, i) == Parsed(Ok(t), i + |t| + 2)
  {
    PlainEscape(t);
    EscapeRoundTrip(s, i, t);
  }

  /** The round trip: any text, escaped and quoted, reads back as itself,
      and the cursor ends just past the closing quote. */
  lemma EscapeRoundTrip(s: Text, i: nat, t: Text)
    requires At(s, i, Quote) && Holds(s, i + 1, Escape(t)) && At(s, i + 1 + |Escape(t)|, Quote)
    ensures ReadString(s, i) == Parsed(Ok(t), i + |Escape(t)| + 2)
  {
    EscapeSpelling(t);
    DecodeString(s, i, EscapePieces(t));
  }
}
