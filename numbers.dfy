/** What `parseNumber` accepts, where it stops, and where it fails.

    A number is written as an optional minus sign, an integer part, an
    optional fraction and an optional exponent.  The integer part is empty,
    a lone `0`, or a run of digits that does not start with `0`; it may be
    empty only when no minus sign precedes it, so `.5` and `e5` are numbers
    here although JSON has neither. */
module Numbers {
  import opened Json
  import opened Grammar
  import opened Spans

  const Zero: Unit := '0' as int

  predicate AllDigits(t: Text)
  {
    forall k :: 0 <= k < |t| ==> IsDigit(t[k])
  }

  /** The exponent part: `e` or `E`, an optional sign, and its digits. */
  datatype Exponent = Exponent(marker: Unit, sign: Text, digits: Text)

  datatype NumberForm = NumberForm(
    negative: bool,
    integer: Text,
    fraction: Option<Text>,
    exponent: Option<Exponent>)

  /** An integer part `parseNumber` reads whole: empty, `0`, or digits that
      do not start with `0`. */
  predicate ValidInteger(t: Text)
  {
    AllDigits(t) && (|t| <= 1 || t[0] != Zero)
  }

  /** The sign and integer part: a minus sign needs a digit after it. */
  predicate ValidHead(negative: bool, integer: Text)
  {
    ValidInteger(integer) && (negative ==> integer != [])
  }

  predicate ValidFraction(fraction: Option<Text>)
  {
    fraction.Some? ==> fraction.value != [] && AllDigits(fraction.value)
  }

  predicate ValidSign(sign: Text)
  {
    sign == [] || sign == [Minus] || sign == [Plus]
  }

  predicate ValidExponent(exponent: Option<Exponent>)
  {
    exponent.Some? ==>
      var x := exponent.value;
      (x.marker == LowerE || x.marker == UpperE) && ValidSign(x.sign)
      && x.digits != [] && AllDigits(x.digits)
  }

  /** A number `parseNumber` accepts: not empty, and every part valid. */
  predicate ValidForm(f: NumberForm)
  {
    && ValidHead(f.negative, f.integer)
    && ValidFraction(f.fraction)
    && ValidExponent(f.exponent)
    && (f.integer != [] || f.fraction.Some? || f.exponent.Some?)
  }

  function SignText(negative: bool): Text
  {
    if negative then [Minus] else []
  }

  function FractionText(fraction: Option<Text>): Text
  {
    match fraction
    case None => []
    case Some(digits) => [Point] + digits
  }

  function ExponentText(exponent: Option<Exponent>): Text
  {
    match exponent
    case None => []
    case Some(x) => [x.marker] + x.sign + x.digits
  }

  /** How a number is written. */
  function Lexeme(f: NumberForm): Text
  {
    SignText(f.negative) + f.integer + FractionText(f.fraction) + ExponentText(f.exponent)
  }

  /** The units other than `-` that a number may start with: a digit, `.`,
      `e` or `E`. */
  predicate Continues(c: Unit)
  {
    IsDigit(c) || c == Point || c == LowerE || c == UpperE
  }

  /** Position `k`, right after the lexeme of `f`, ends the input or holds
      a unit that `parseNumber` does not take into `f`: after an exponent
      any non-digit; after a fraction also not `e` or `E`; after the integer
      part alone also not `.`, and a digit only after a lone `0`. */
  predicate Ends(f: NumberForm, s: Text, k: nat)
  {
    k >= |s| ||
    if f.exponent.Some? then !IsDigit(s[k])
    else if f.fraction.Some? then !IsDigit(s[k]) && s[k] != LowerE && s[k] != UpperE
    else (!IsDigit(s[k]) || f.integer == [Zero]) && s[k] != Point && s[k] != LowerE && s[k] != UpperE
  }

  // ------------------------------------------------------------ digit runs

  /** A digit loop started at `a` stops at the first non-digit `e`. */
  lemma {:induction false} DigitRun(s: Text, a: nat, e: nat)
    requires a <= e <= |s|
    requires forall k :: a <= k < e ==> IsDigit(s[k])
    requires !DigitAt(s, e)
    ensures DigitEnd(s, a) == e
    decreases e - a
  {
    if a < e {
      DigitRun(s, a + 1, e);
    }
  }

  /** The units of a held run of digits are digits. */
  lemma HoldsDigits(s: Text, a: nat, t: Text)
    requires Holds(s, a, t) && AllDigits(t)
    ensures forall k :: a <= k < a + |t| ==> IsDigit(s[k])
  {
    forall k | a <= k < a + |t|
      ensures IsDigit(s[k])
    {
      HoldsIndex(s, a, t, k - a);
    }
  }

  /** A held run of digits followed by a non-digit is read whole. */
  lemma DigitsRun(s: Text, a: nat, t: Text)
    requires Holds(s, a, t) && AllDigits(t) && !DigitAt(s, a + |t|)
    ensures DigitEnd(s, a) == a + |t|
  {
    HoldsDigits(s, a, t);
    DigitRun(s, a, a + |t|);
  }

  // --------------------------------------------- each part, read by itself

  /** The integer part is read whole when a non-digit follows it; a lone
      `0` is read whole whatever follows it. */
  lemma IntegerRun(s: Text, a: nat, t: Text)
    requires ValidInteger(t) && Holds(s, a, t)
    requires t != [Zero] ==> !DigitAt(s, a + |t|)
    ensures IntegerEnd(s, a) == a + |t|
  {
    if t != [] {
      HoldsIndex(s, a, t, 0);
      if |t| > 1 {
        HoldsConcat(s, a, [t[0]], t[1..]);
        assert [t[0]] + t[1..] == t;
        assert AllDigits(t[1..]) by {
          assert forall k :: 0 <= k < |t[1..]| ==> t[1..][k] == t[k + 1];
        }
        DigitsRun(s, a + 1, t[1..]);
      }
    }
  }

  /** The fraction is read whole when a non-digit follows it, and is
      skipped when no `.` stands where it would begin. */
  lemma FractionRun(s: Text, b: nat, fraction: Option<Text>)
    requires ValidFraction(fraction) && Holds(s, b, FractionText(fraction))
    requires fraction.None? ==> !At(s, b, Point)
    requires fraction.Some? ==> !DigitAt(s, b + |FractionText(fraction)|)
    ensures FractionScan(s, b) == Reached(b + |FractionText(fraction)|)
  {
    if fraction.Some? {
      var t := FractionText(fraction);
      HoldsConcat(s, b, [Point], fraction.value);
      HoldsIndex(s, b, [Point], 0);
      HoldsIndex(s, b + 1, fraction.value, 0);
      DigitsRun(s, b + 1, fraction.value);
    }
  }

  /** The exponent is read whole when a non-digit follows it, and is
      skipped when no `e` or `E` stands where it would begin. */
  lemma ExponentRun(s: Text, c: nat, exponent: Option<Exponent>, e: nat)
    requires ValidExponent(exponent) && Holds(s, c, ExponentText(exponent))
    requires e == c + |ExponentText(exponent)|
    requires exponent.None? ==> !(At(s, c, LowerE) || At(s, c, UpperE))
    requires exponent.Some? ==> !DigitAt(s, e)
    ensures ExponentScan(s, c) == Reached(e)
  {
    if exponent.Some? {
      var x := exponent.value;
      var d := c + 1 + |x.sign|;
      HoldsConcat(s, c, [x.marker] + x.sign, x.digits);
      HoldsConcat(s, c, [x.marker], x.sign);
      HoldsIndex(s, c, [x.marker], 0);
      HoldsIndex(s, d, x.digits, 0);
      if x.sign != [] {
        HoldsIndex(s, c + 1, x.sign, 0);
      }
      assert e == d + |x.digits|;
      DigitsRun(s, d, x.digits);
    }
  }

  // ------------------------------------------------------ whole numbers

  /** The first unit of a number that has no minus sign is not one. */
  lemma UnsignedStart(f: NumberForm)
    requires ValidForm(f) && !f.negative
    ensures |Lexeme(f)| > 0 && Lexeme(f)[0] != Minus && Continues(Lexeme(f)[0])
  {
    var t := f.integer + FractionText(f.fraction) + ExponentText(f.exponent);
    assert Lexeme(f) == t;
    if f.integer != [] {
      assert t[0] == f.integer[0];
    } else if f.fraction.Some? {
      assert t[0] == Point;
    } else {
      assert t[0] == f.exponent.value.marker;
    }
  }

  /** A number starts with a minus sign or a unit that would extend one. */
  lemma LexemeStart(f: NumberForm)
    requires ValidForm(f)
    ensures |Lexeme(f)| > 0 && (Lexeme(f)[0] == Minus || Continues(Lexeme(f)[0]))
  {
    if !f.negative {
      UnsignedStart(f);
    }
  }

  /** What stands right after each part of a held number that ends at `e`:
      the start of the next part present, or the unit at `e`. */
  lemma Followers(s: Text, i: nat, f: NumberForm, a: nat, b: nat, c: nat, e: nat)
    requires ValidForm(f) && Holds(s, i, Lexeme(f)) && e == i + |Lexeme(f)| && Ends(f, s, e)
    requires a == i + |SignText(f.negative)| && b == a + |f.integer| && c == b + |FractionText(f.fraction)|
    ensures Holds(s, i, SignText(f.negative)) && Holds(s, a, f.integer)
    ensures Holds(s, b, FractionText(f.fraction)) && Holds(s, c, ExponentText(f.exponent))
    ensures e == c + |ExponentText(f.exponent)| && i < e
    ensures At(s, i, Minus) <==> f.negative
    ensures f.negative ==> DigitAt(s, i + 1)
    ensures f.integer != [Zero] ==> !DigitAt(s, b)
    ensures f.fraction.None? ==> !At(s, b, Point)
    ensures f.fraction.Some? ==> !DigitAt(s, c)
    ensures f.exponent.None? ==> !(At(s, c, LowerE) || At(s, c, UpperE))
    ensures f.exponent.Some? ==> !DigitAt(s, e)
  {
    var sign, frac, exp := SignText(f.negative), FractionText(f.fraction), ExponentText(f.exponent);
    LexemeParts(s, i, f, a, b, c, e);
    if f.negative {
      HoldsIndex(s, i, sign, 0);
      HoldsIndex(s, a, f.integer, 0);
    } else {
      UnsignedStart(f);
      HoldsIndex(s, i, Lexeme(f), 0);
    }
    if f.fraction.Some? {
      HoldsIndex(s, b, frac, 0);
    }
    if f.exponent.Some? {
      HoldsIndex(s, c, exp, 0);
    }
  }

  /** Where the four parts of a lexeme lie. */
  lemma LexemeParts(s: Text, i: nat, f: NumberForm, a: nat, b: nat, c: nat, e: nat)
    requires Holds(s, i, Lexeme(f)) && e == i + |Lexeme(f)|
    requires a == i + |SignText(f.negative)| && b == a + |f.integer| && c == b + |FractionText(f.fraction)|
    ensures Holds(s, i, SignText(f.negative)) && Holds(s, a, f.integer)
    ensures Holds(s, b, FractionText(f.fraction)) && Holds(s, c, ExponentText(f.exponent))
    ensures e == c + |ExponentText(f.exponent)|
  {
    var sign, frac, exp := SignText(f.negative), FractionText(f.fraction), ExponentText(f.exponent);
    HoldsConcat(s, i, sign + f.integer + frac, exp);
    HoldsConcat(s, i, sign + f.integer, frac);
    HoldsConcat(s, i, sign, f.integer);
  }

  /** The round trip: a valid number, followed by a unit that cannot extend
      it, is read back as its own lexeme and the cursor ends right after it. */
  lemma NumberRoundTrip(s: Text, i: nat, f: NumberForm)
    requires ValidForm(f) && Holds(s, i, Lexeme(f)) && Ends(f, s, i + |Lexeme(f)|)
    ensures ReadNumber(s, i) == Parsed(Ok(Lexeme(f)), i + |Lexeme(f)|)
  {
    var e := i + |Lexeme(f)|;
    var b, c := Scanned(s, i, f, e);
    ReadSpan(s, i, Lexeme(f), b, c, e);
  }

  /** A unit that extends no number ends every number. */
  lemma EndsAnywhere(f: NumberForm, s: Text, k: nat)
    requires k >= |s| || !Continues(s[k])
    ensures Ends(f, s, k)
  {
  }

  /** `parseNumber` over scans that span a held text accepts that text. */
  lemma ReadSpan(s: Text, i: nat, t: Text, b: nat, c: nat, e: nat)
    requires Holds(s, i, t) && e == i + |t| && i < e <= |s|
    requires At(s, i, Minus) ==> DigitAt(s, i + 1)
    requires IntegerEnd(s, if At(s, i, Minus) then i + 1 else i) == b <= |s|
    requires FractionScan(s, b) == Reached(c) && c <= |s|
    requires ExponentScan(s, c) == Reached(e)
    ensures ReadNumber(s, i) == Parsed(Ok(t), e)
  {
    Accepted(s, i, b, c, e);
    HoldsSlice(s, i, t);
  }

  /** Where each of `parseNumber`'s scans stops on a held number that ends
      at `e`. */
  lemma Scanned(s: Text, i: nat, f: NumberForm, e: nat) returns (b: nat, c: nat)
    requires ValidForm(f) && Holds(s, i, Lexeme(f)) && e == i + |Lexeme(f)| && Ends(f, s, e)
    ensures i < e <= |s|
    ensures At(s, i, Minus) ==> DigitAt(s, i + 1)
    ensures IntegerEnd(s, if At(s, i, Minus) then i + 1 else i) == b <= |s|
    ensures FractionScan(s, b) == Reached(c) && c <= |s|
    ensures ExponentScan(s, c) == Reached(e)
  {
    var a := i + |SignText(f.negative)|;
    b := a + |f.integer|;
    c := b + |FractionText(f.fraction)|;
    Followers(s, i, f, a, b, c, e);
    assert a == if At(s, i, Minus) then i + 1 else i;
    IntegerRun(s, a, f.integer);
    FractionRun(s, b, f.fraction);
    ExponentRun(s, c, f.exponent, e);
  }

  /** `parseNumber` once its three parts have been scanned: it accepts what
      they span, if anything. */
  lemma Accepted(s: Text, i: nat, b: nat, c: nat, e: nat)
    requires i < e <= |s|
    requires At(s, i, Minus) ==> DigitAt(s, i + 1)
    requires IntegerEnd(s, if At(s, i, Minus) then i + 1 else i) == b <= |s|
    requires FractionScan(s, b) == Reached(c) && c <= |s|
    requires ExponentScan(s, c) == Reached(e)
    ensures ReadNumber(s, i) == Parsed(Ok(s[i..e]), e)
  {
  }

  // ------------------------------------------------------------ converse

  /** Every number `parseNumber` accepts is the lexeme of a valid form held
      where it started: together with `NumberRoundTrip`, the accepted
      lexemes are exactly the valid forms. */
  lemma NumberShape(s: Text, i: nat) returns (f: NumberForm)
    requires i <= |s| && ReadNumber(s, i).out.Ok?
    ensures ValidForm(f) && Holds(s, i, Lexeme(f))
    ensures ReadNumber(s, i) == Parsed(Ok(Lexeme(f)), i + |Lexeme(f)|)
  {
    var b, c := AcceptedParts(s, i);
    var e := ReadNumber(s, i).at;
    f := FormOf(s, i, b, c, e);
    Accepted(s, i, b, c, e);
  }

  /** What `parseNumber` found when it accepted: each scan complete, and
      something consumed. */
  lemma AcceptedParts(s: Text, i: nat) returns (b: nat, c: nat)
    requires i <= |s| && ReadNumber(s, i).out.Ok?
    ensures At(s, i, Minus) ==> DigitAt(s, i + 1)
    ensures IntegerEnd(s, if At(s, i, Minus) then i + 1 else i) == b <= |s|
    ensures FractionScan(s, b) == Reached(c) && c <= |s|
    ensures ExponentScan(s, c) == Reached(ReadNumber(s, i).at) && i < ReadNumber(s, i).at
  {
    b := IntegerEnd(s, if At(s, i, Minus) then i + 1 else i);
    c := FractionScan(s, b).at;
  }

  /** The form whose parts `parseNumber`'s scans spanned. */
  lemma FormOf(s: Text, i: nat, b: nat, c: nat, e: nat) returns (f: NumberForm)
    requires i < e <= |s|
    requires At(s, i, Minus) ==> DigitAt(s, i + 1)
    requires IntegerEnd(s, if At(s, i, Minus) then i + 1 else i) == b <= |s|
    requires FractionScan(s, b) == Reached(c) && c <= |s|
    requires ExponentScan(s, c) == Reached(e)
    ensures ValidForm(f) && Holds(s, i, Lexeme(f)) && i + |Lexeme(f)| == e
    ensures s[i..e] == Lexeme(f)
  {
    var a, integer, fraction, exponent := Shapes(s, i, b, c, e);
    f := Assemble(s, i, a, b, c, e, NumberForm(At(s, i, Minus), integer, fraction, exponent));
  }

  /** Valid parts held one after the other make a valid form whose lexeme
      spans them. */
  lemma Assemble(s: Text, i: nat, a: nat, b: nat, c: nat, e: nat, parts: NumberForm) returns (f: NumberForm)
    requires i < e <= |s|
    requires Holds(s, i, SignText(parts.negative)) && a == i + |SignText(parts.negative)|
    requires ValidHead(parts.negative, parts.integer) && Holds(s, a, parts.integer) && b == a + |parts.integer|
    requires ValidFraction(parts.fraction) && Holds(s, b, FractionText(parts.fraction))
    requires c == b + |FractionText(parts.fraction)|
    requires ValidExponent(parts.exponent) && Holds(s, c, ExponentText(parts.exponent))
    requires e == c + |ExponentText(parts.exponent)|
    ensures f == parts
    ensures ValidForm(f) && Holds(s, i, Lexeme(f)) && i + |Lexeme(f)| == e
    ensures s[i..e] == Lexeme(f)
  {
    f := parts;
    JoinForm(s, i, a, b, c, e, f);
    HoldsSlice(s, i, Lexeme(f));
  }

  /** The sign, integer, fraction and exponent parts `parseNumber`'s scans
      spanned, each held where the one before ends. */
  lemma Shapes(s: Text, i: nat, b: nat, c: nat, e: nat)
    returns (a: nat, integer: Text, fraction: Option<Text>, exponent: Option<Exponent>)
    requires i < e <= |s|
    requires At(s, i, Minus) ==> DigitAt(s, i + 1)
    requires IntegerEnd(s, if At(s, i, Minus) then i + 1 else i) == b <= |s|
    requires FractionScan(s, b) == Reached(c) && c <= |s|
    requires ExponentScan(s, c) == Reached(e)
    ensures Holds(s, i, SignText(At(s, i, Minus))) && a == i + |SignText(At(s, i, Minus))|
    ensures ValidHead(At(s, i, Minus), integer) && Holds(s, a, integer) && b == a + |integer|
    ensures ValidFraction(fraction) && Holds(s, b, FractionText(fraction))
    ensures c == b + |FractionText(fraction)|
    ensures ValidExponent(exponent) && Holds(s, c, ExponentText(exponent))
    ensures e == c + |ExponentText(exponent)|
  {
    a := SignShape(s, i);
    integer := IntegerShape(s, a);
    fraction := FractionShape(s, b);
    exponent := ExponentShape(s, c);
  }

  /** The minus sign `parseNumber` may read at `i`, and where the integer
      part begins. */
  lemma SignShape(s: Text, i: nat) returns (a: nat)
    requires i <= |s|
    ensures a == (if At(s, i, Minus) then i + 1 else i)
    ensures Holds(s, i, SignText(At(s, i, Minus))) && a == i + |SignText(At(s, i, Minus))|
  {
    a := if At(s, i, Minus) then i + 1 else i;
  }

  /** The four parts of a form, each held right after the one before, make
      its lexeme. */
  lemma JoinForm(s: Text, i: nat, a: nat, b: nat, c: nat, e: nat, f: NumberForm)
    requires Holds(s, i, SignText(f.negative)) && a == i + |SignText(f.negative)|
    requires Holds(s, a, f.integer) && b == a + |f.integer|
    requires Holds(s, b, FractionText(f.fraction)) && c == b + |FractionText(f.fraction)|
    requires Holds(s, c, ExponentText(f.exponent)) && e == c + |ExponentText(f.exponent)|
    ensures Holds(s, i, Lexeme(f)) && i + |Lexeme(f)| == e
  {
    var sign, frac, exp := SignText(f.negative), FractionText(f.fraction), ExponentText(f.exponent);
    HoldsJoin(s, i, sign, f.integer);
    HoldsJoin(s, i, sign + f.integer, frac);
    HoldsJoin(s, i, sign + f.integer + frac, exp);
  }

  /** The integer part `parseNumber` reads from `a`. */
  lemma IntegerShape(s: Text, a: nat) returns (t: Text)
    requires a <= |s|
    ensures ValidInteger(t) && Holds(s, a, t) && IntegerEnd(s, a) == a + |t|
  {
    t := s[a..IntegerEnd(s, a)];
    SliceHolds(s, a, IntegerEnd(s, a));
    assert forall k :: 0 <= k < |t| ==> t[k] == s[a + k];
  }

  /** The fraction part `parseNumber` reads from `b`, when it is complete. */
  lemma FractionShape(s: Text, b: nat) returns (fraction: Option<Text>)
    requires b <= |s| && FractionScan(s, b).Reached?
    ensures ValidFraction(fraction) && Holds(s, b, FractionText(fraction))
    ensures FractionScan(s, b) == Reached(b + |FractionText(fraction)|)
  {
    if At(s, b, Point) {
      var e := DigitEnd(s, b + 1);
      var digits := s[b + 1..e];
      assert forall k :: 0 <= k < |digits| ==> digits[k] == s[b + 1 + k];
      fraction := Some(digits);
      SliceHolds(s, b + 1, e);
      HoldsJoin(s, b, [Point], digits);
    } else {
      fraction := None;
    }
  }

  /** The exponent part `parseNumber` reads from `c`, when it is complete. */
  lemma ExponentShape(s: Text, c: nat) returns (exponent: Option<Exponent>)
    requires c <= |s| && ExponentScan(s, c).Reached?
    ensures ValidExponent(exponent) && Holds(s, c, ExponentText(exponent))
    ensures ExponentScan(s, c) == Reached(c + |ExponentText(exponent)|)
  {
    if At(s, c, LowerE) || At(s, c, UpperE) {
      var d := if At(s, c + 1, Minus) || At(s, c + 1, Plus) then c + 2 else c + 1;
      var e := DigitEnd(s, d);
      var sign, digits := s[c + 1..d], s[d..e];
      assert forall k :: 0 <= k < |digits| ==> digits[k] == s[d + k];
      exponent := Some(Exponent(s[c], sign, digits));
      SliceHolds(s, c + 1, d);
      SliceHolds(s, d, e);
      HoldsJoin(s, c, [s[c]], sign);
      HoldsJoin(s, c, [s[c]] + sign, digits);
    } else {
      exponent := None;
    }
  }

  // --------------------------------------------------------------- errors

  /** A held sign and integer part followed by a unit that is not a digit
      and not `-`: the minus check passes and the integer part is read
      whole. */
  lemma HeadRun(s: Text, i: nat, negative: bool, integer: Text)
    requires ValidHead(negative, integer) && Holds(s, i, SignText(negative) + integer)
    requires var j := i + |SignText(negative)| + |integer|;
      j < |s| && !IsDigit(s[j]) && s[j] != Minus
    ensures At(s, i, Minus) <==> negative
    ensures negative ==> DigitAt(s, i + 1)
    ensures IntegerEnd(s, if negative then i + 1 else i) == i + |SignText(negative)| + |integer|
  {
    var sign := SignText(negative);
    HoldsConcat(s, i, sign, integer);
    if negative {
      HoldsIndex(s, i, sign, 0);
      HoldsIndex(s, i + 1, integer, 0);
    } else if integer != [] {
      HoldsIndex(s, i, integer, 0);
    }
    IntegerRun(s, i + |sign|, integer);
  }

  /** A minus sign not followed by a digit: `Expecting a digit`, with the
      cursor right after the sign. */
  lemma DanglingMinus(s: Text, i: nat)
    requires At(s, i, Minus) && !DigitAt(s, i + 1)
    ensures ReadNumber(s, i) == Parsed(Fail(SyntaxError(ExpectingADigit)), i + 1)
  {
  }

  /** A `.` not followed by a digit: `Expecting a digit`, with the cursor
      right after the `.`. */
  lemma DanglingPoint(s: Text, i: nat, negative: bool, integer: Text)
    requires ValidHead(negative, integer) && Holds(s, i, SignText(negative) + integer)
    requires var j := i + |SignText(negative)| + |integer|;
      At(s, j, Point) && !DigitAt(s, j + 1)
    ensures ReadNumber(s, i) ==
      Parsed(Fail(SyntaxError(ExpectingADigit)), i + |SignText(negative)| + |integer| + 1)
  {
    HeadRun(s, i, negative, integer);
  }

  /** An `e` or `E`, and an optional sign, not followed by a digit:
      `Expecting a digit`, with the cursor where the digit should be. */
  lemma DanglingExponent(s: Text, i: nat, negative: bool, integer: Text,
                         fraction: Option<Text>, marker: Unit, sign: Text)
    requires ValidHead(negative, integer) && ValidFraction(fraction)
    requires (marker == LowerE || marker == UpperE) && ValidSign(sign)
    requires Holds(s, i, SignText(negative) + integer + FractionText(fraction) + [marker] + sign)
    requires var d := i + |SignText(negative)| + |integer| + |FractionText(fraction)| + 1 + |sign|;
      !DigitAt(s, d) && (sign == [] ==> !(At(s, d, Minus) || At(s, d, Plus)))
    ensures ReadNumber(s, i) == Parsed(Fail(SyntaxError(ExpectingADigit)),
      i + |SignText(negative)| + |integer| + |FractionText(fraction)| + 1 + |sign|)
  {
    var head := SignText(negative) + integer;
    var b := i + |head|;
    var c := b + |FractionText(fraction)|;
    ExponentParts(s, i, head, FractionText(fraction), marker, sign, b, c);
    ExponentMissing(s, c, marker, sign);
    if fraction.Some? {
      HoldsIndex(s, b, FractionText(fraction), 0);
    }
    HeadRun(s, i, negative, integer);
    FractionRun(s, b, fraction);
    Rejected(s, i, b, c);
  }

  /** The head, the fraction, the marker and the sign, each in the input
      in turn. */
  lemma ExponentParts(s: Text, i: nat, head: Text, fraction: Text, marker: Unit, sign: Text, b: nat, c: nat)
    requires Holds(s, i, head + fraction + [marker] + sign)
    requires b == i + |head| && c == b + |fraction|
    ensures Holds(s, i, head) && Holds(s, b, fraction) && At(s, c, marker) && Holds(s, c + 1, sign)
  {
    HoldsConcat(s, i, head + fraction + [marker], sign);
    HoldsConcat(s, i, head + fraction, [marker]);
    HoldsConcat(s, i, head, fraction);
    HoldsIndex(s, c, [marker], 0);
  }

  /** An exponent marker and sign with no digit after them. */
  lemma ExponentMissing(s: Text, c: nat, marker: Unit, sign: Text)
    requires (marker == LowerE || marker == UpperE) && ValidSign(sign)
    requires At(s, c, marker) && Holds(s, c + 1, sign) && !DigitAt(s, c + 1 + |sign|)
    requires sign == [] ==> !(At(s, c + 1, Minus) || At(s, c + 1, Plus))
    ensures ExponentScan(s, c) == Missing(c + 1 + |sign|)
  {
    if sign != [] {
      HoldsIndex(s, c + 1, sign, 0);
    }
  }

  /** `parseNumber` when its exponent misses its digit. */
  lemma Rejected(s: Text, i: nat, b: nat, c: nat)
    requires i <= |s|
    requires At(s, i, Minus) ==> DigitAt(s, i + 1)
    requires IntegerEnd(s, if At(s, i, Minus) then i + 1 else i) == b <= |s|
    requires FractionScan(s, b) == Reached(c) && c <= |s|
    requires ExponentScan(s, c).Missing?
    ensures ReadNumber(s, i) == Parsed(Fail(SyntaxError(ExpectingADigit)), ExponentScan(s, c).at)
  {
  }

  /** `parseNumber` reports absence exactly when the cursor is not on a
      minus sign, a digit, `.`, `e` or `E`; then it consumes nothing. */
  lemma NumberAbsent(s: Text, i: nat)
    requires i <= |s|
    ensures ReadNumber(s, i).out.Absent? <==> !(At(s, i, Minus) || (i < |s| && Continues(s[i])))
  {
    if i < |s| && (s[i] == LowerE || s[i] == UpperE) {
      assert IntegerEnd(s, i) == i;
      assert FractionScan(s, i) == Reached(i);
    }
  }
}
