/** The numeric conversions of the C library as both loaders use them:
    `std::strtod` (and `std::stod`, which calls it), and the `is_number`
    test of read-centerline.cpp built on top of it. Only the decimal
    forms of `strtod` are modelled. */
module CNumber {
  import opened Wrappers
  import opened Sequences

  /** `std::isspace` in the "C" locale. */
  predicate IsSpace(c: char) {
    c == ' ' || c == '\t' || c == '\n' || c == '\U{0B}' || c == '\U{0C}' || c == '\r'
  }

  predicate IsDigit(c: char) {
    '0' <= c <= '9'
  }

  predicate AllDigits(s: string) {
    forall k :: 0 <= k < |s| ==> IsDigit(s[k])
  }

  /** The position of the first NUL in `s`, or its length when there is none. */
  function NulIndex(s: string): nat {
    IndexOf(s, '\0', 0)
  }

  /** What `strtod` sees of `s.c_str()`: the characters before the first NUL. */
  function CStr(s: string): string {
    s[..NulIndex(s)]
  }

  /** The first index at or after `i` that does not hold a white-space character. */
  function SpacesEnd(s: string, i: nat): (j: nat)
    requires i <= |s|
    ensures i <= j <= |s|
    ensures forall k :: i <= k < j ==> IsSpace(s[k])
    ensures j < |s| ==> !IsSpace(s[j])
    decreases |s| - i
  {
    if i < |s| && IsSpace(s[i]) then SpacesEnd(s, i + 1) else i
  }

  /** The first index at or after `i` that does not hold a decimal digit. */
  function DigitsEnd(s: string, i: nat): (j: nat)
    requires i <= |s|
    ensures i <= j <= |s|
    ensures forall k :: i <= k < j ==> IsDigit(s[k])
    ensures j < |s| ==> !IsDigit(s[j])
    decreases |s| - i
  {
    if i < |s| && IsDigit(s[i]) then DigitsEnd(s, i + 1) else i
  }

  /** The number written by a string of decimal digits (0 for the empty string). */
  function DigitsValue(d: string): nat
    requires AllDigits(d)
  {
    if d == [] then 0 else 10 * DigitsValue(d[..|d| - 1]) + (d[|d| - 1] as int - '0' as int)
  }

  function Pow10(n: nat): (p: nat)
    ensures p >= 1
  {
    if n == 0 then 1 else 10 * Pow10(n - 1)
  }

  /** 10 raised to an integer power, as a real. */
  function Scale(e: int): real {
    if e >= 0 then Pow10(e) as real else 1.0 / Pow10(-e) as real
  }

  /** What `strtod(nptr, &end)` reports when it converts something:
      the offset of `end` from `nptr`, and the converted value. */
  datatype Conversion = Conversion(end: nat, value: real)

  /** The optional exponent part `[eE][+-]?digits` starting at `i`:
      its end and its signed value; (i, 0) when there is no complete exponent. */
  datatype Exponent = Exponent(end: nat, power: int)

  function ScanExponent(c: string, i: nat): (e: Exponent)
    requires i <= |c|
    ensures i <= e.end <= |c|
  {
    if i < |c| && (c[i] == 'e' || c[i] == 'E') then
      var signed := i + 1 < |c| && (c[i + 1] == '+' || c[i + 1] == '-');
      var j := if signed then i + 2 else i + 1;
      var k := DigitsEnd(c, j);
      if k == j then Exponent(i, 0)
      else
        var n := DigitsValue(c[j..k]);
        Exponent(k, if signed && c[i + 1] == '-' then -(n as int) else n)
    else Exponent(i, 0)
  }

  /** The digits of a mantissa: where they end, the integer they spell
      with the point removed, and how many of them follow the point. */
  datatype Mantissa = Mantissa(end: nat, digits: nat, fractionLength: nat)

  /** `digits[.digits]` starting at `i`, with at least one digit in all. */
  function ScanMantissa(c: string, i: nat): (r: Option<Mantissa>)
    requires i <= |c|
    ensures r.Some? ==> i < r.value.end <= |c|
  {
    var d1 := DigitsEnd(c, i);
    var dot := d1 < |c| && c[d1] == '.';
    var f0 := if dot then d1 + 1 else d1;
    var d2 := DigitsEnd(c, f0);
    if d1 == i && d2 == f0 then None
    else Some(Mantissa(d2, DigitsValue(c[i..d1] + c[f0..d2]), d2 - f0))
  }

  /** The longest prefix of `c` (a NUL-free string) that `strtod` reads as a decimal
      number: white space, an optional sign, a mantissa, then an optional exponent.
      None when nothing is converted. */
  function ScanDecimal(c: string): (r: Option<Conversion>)
    ensures r.Some? ==> 0 < r.value.end <= |c|
  {
    var i0 := SpacesEnd(c, 0);
    var signed := i0 < |c| && (c[i0] == '+' || c[i0] == '-');
    var i1 := if signed then i0 + 1 else i0;
    match ScanMantissa(c, i1)
    case None => None
    case Some(m) =>
      var e := ScanExponent(c, m.end);
      Some(Conversion(e.end, DecimalValue(signed && c[i0] == '-', m.digits, e.power - m.fractionLength)))
  }

  /** The number `[-]digits * 10^power`. */
  function DecimalValue(negative: bool, digits: nat, power: int): real {
    var magnitude := digits as real * Scale(power);
    if negative then -magnitude else magnitude
  }

  /** `strtod(s.c_str(), &end)`: None when no conversion is performed. */
  function StrToD(s: string): (r: Option<Conversion>)
    ensures r.Some? ==> 0 < r.value.end <= |CStr(s)|
  {
    ScanDecimal(CStr(s))
  }

  /** Where `strtod` leaves its end pointer: just after the converted prefix,
      or at the start of the string when nothing is converted. */
  function EndPtr(s: string): nat {
    match StrToD(s)
    case Some(conv) => conv.end
    case None => 0
  }

  /** Every character of the C string from `i` on is white space. */
  predicate BlankFrom(s: string, i: nat) {
    forall k :: i <= k < |CStr(s)| ==> IsSpace(s[k])
  }

  /** `is_number` exactly as read-centerline.cpp writes it: the string is non-empty and
      only white space lies between strtod's end pointer and the terminator.
      It does not ask whether anything was converted. */
  predicate IsNumberAsWritten(s: string) {
    |s| > 0 && BlankFrom(s, EndPtr(s))
  }

  /** `is_number` as intended: strtod converts a prefix and only white space follows it. */
  predicate IsNumber(s: string) {
    StrToD(s).Some? && BlankFrom(s, StrToD(s).value.end)
  }

  /** The value `std::stod` returns for a token that `IsNumber` accepts. */
  function NumberValue(s: string): real
    requires IsNumber(s)
  {
    StrToD(s).value.value
  }

  /** `std::stod(s)`: the converted value, or None where it throws
      `std::invalid_argument` because nothing could be converted. */
  function Stod(s: string): (r: Option<real>)
    ensures r.None? <==> StrToD(s).None?
    ensures IsNumber(s) ==> r == Some(NumberValue(s))
  {
    match StrToD(s)
    case Some(conv) => Some(conv.value)
    case None => None
  }

  /** `is_number` with the missing "was anything converted" test added: call strtod,
      then advance the end pointer over white space and ask whether it reached the
      terminating NUL. */
  method CheckNumber(s: string) returns (b: bool)
    ensures b == IsNumber(s)
  {
    if |s| == 0 {
      return false;
    }
    var conv := StrToD(s);
    if conv.None? {
      return false;
    }
    var end := conv.value.end;
    while end < |s| && IsSpace(s[end])
      invariant conv.value.end <= end <= |CStr(s)|
      invariant forall k :: conv.value.end <= k < end ==> IsSpace(s[k])
    {
      end := end + 1;
    }
    StopsAtTerminator(s, conv.value.end, end);
    b := end == |s| || s[end] == '\0';
  }

  /** Where a scan over white space from `from` stops tells whether only white space
      lies between `from` and the terminator. */
  lemma {:induction false} StopsAtTerminator(s: string, from: nat, end: nat)
    requires from <= end <= |CStr(s)|
    requires forall k :: from <= k < end ==> IsSpace(s[k])
    requires end == |s| || !IsSpace(s[end])
    ensures (end == |s| || s[end] == '\0') <==> BlankFrom(s, from)
  {
    var n := NulIndex(s);
    if end < n {
      assert !IsSpace(s[end]) && s[end] != '\0';
    }
  }

  /** The correction changes nothing when something was converted... */
  lemma {:induction false} IsNumberRefinesAsWritten(s: string)
    ensures IsNumber(s) <==> IsNumberAsWritten(s) && StrToD(s).Some?
  {
  }

  /** ...nor on a token that starts neither with white space nor with NUL,
      which is every token `tokenize_relaxed` can produce except one led by NUL. */
  lemma {:induction false} IsNumberAgreesOnTokens(s: string)
    requires |s| > 0 && !IsSpace(s[0]) && s[0] != '\0'
    ensures IsNumber(s) == IsNumberAsWritten(s)
  {
    if StrToD(s).None? {
      assert CStr(s)[0] == s[0];
    }
  }

  /** As written, `is_number` accepts strings from which strtod converts nothing:
      a blank string, and a token whose first character is NUL. For the latter,
      parse_xyzr_from_line then calls `std::stod`, which throws. */
  lemma {:induction false} AsWrittenAcceptsNonNumbers()
    ensures IsNumberAsWritten(" ") && StrToD(" ").None?
    ensures IsNumberAsWritten("\0") && StrToD("\0").None?
    ensures !IsNumber(" ") && !IsNumber("\0")
  {
    assert CStr(" ") == " ";
    assert CStr("\0") == [];
    assert SpacesEnd(" ", 0) == 1;
  }


  /** A string whose first character cannot begin a numeral (a letter of a header
      word, or the `#` of a comment) converts to nothing and is not a number. */
  lemma {:induction false} NoNumeralStart(s: string)
    requires |s| > 0 && !IsSpace(s[0]) && s[0] != '\0'
    requires !IsDigit(s[0]) && s[0] != '.' && s[0] != '+' && s[0] != '-'
    ensures StrToD(s).None? && !IsNumber(s)
  {
    var c := CStr(s);
    assert c[0] == s[0];
    assert SpacesEnd(c, 0) == 0;
    assert DigitsEnd(c, 0) == 0;
  }

  /** A string without NUL characters is its own C string. */
  lemma {:induction false} CStrOfNulFree(s: string)
    requires forall k :: 0 <= k < |s| ==> s[k] != '\0'
    ensures CStr(s) == s
  {
  }

  /** `DigitsEnd` is determined by its contract: a run of digits ended by a non-digit. */
  lemma {:induction false} DigitsEndAt(s: string, i: nat, j: nat)
    requires i <= j <= |s| && AllDigits(s[i..j]) && (j < |s| ==> !IsDigit(s[j]))
    ensures DigitsEnd(s, i) == j
  {
  }

  /** A decimal numeral in the plain form a CSV writer produces:
      an optional minus sign, the digits before the point, and those after it. */
  datatype Decimal = Decimal(negative: bool, whole: string, fraction: string)
  {
    ghost predicate Valid() {
      AllDigits(whole) && AllDigits(fraction) && |whole| + |fraction| > 0
    }

    function Render(): string {
      SignText(negative) + BodyText(whole, fraction)
    }

    /** The value the numeral denotes: its digits read as one integer, scaled down
        by one power of ten per digit after the point (see ValueIsQuotient). */
    function Value(): real
      requires Valid()
    {
      DecimalValue(negative, DigitsValue(whole + fraction), 0 - |fraction|)
    }
  }

  function SignText(negative: bool): string {
    if negative then "-" else ""
  }

  /** The digits, with the point before the fraction if there is one. */
  function BodyText(whole: string, fraction: string): string {
    whole + (if fraction == [] then "" else "." + fraction)
  }

  /** A character that cannot continue a decimal numeral, and cannot turn a
      leading `0` into the `0x` prefix of a hexadecimal one. */
  predicate EndsNumeral(c: char) {
    !IsDigit(c) && c != '.' && c != 'e' && c != 'E' && c != 'x' && c != 'X' && c != '\0'
  }

  /** The mantissa scanner reads exactly the digits and point of a rendered numeral. */
  lemma {:induction false} MantissaOfBody(c: string, pre: string, whole: string, fraction: string, tail: string)
    requires AllDigits(whole) && AllDigits(fraction) && |whole| + |fraction| > 0
    requires tail == [] || EndsNumeral(tail[0])
    requires c == pre + BodyText(whole, fraction) + tail
    ensures ScanMantissa(c, |pre|)
      == Some(Mantissa(|pre| + |BodyText(whole, fraction)|, DigitsValue(whole + fraction), |fraction|))
  {
    var body := BodyText(whole, fraction);
    var p := |pre|;
    var w := p + |whole|;
    var n := p + |body|;
    assert c[p..w] == whole;
    if fraction != [] {
      assert c[w] == '.';
      assert c[w + 1..n] == fraction;
      assert n < |c| ==> c[n] == tail[0];
      DigitsEndAt(c, p, w);
      DigitsEndAt(c, w + 1, n);
      assert c[p..w] + c[w + 1..n] == whole + fraction;
    } else {
      assert w == n;
      assert w < |c| ==> c[w] == tail[0];
      DigitsEndAt(c, p, w);
      assert c[w..n] == [];
      assert c[p..w] + c[w..n] == whole + fraction;
    }
  }

  /** A rendered numeral starts with its sign, or with a digit or the point. */
  lemma {:induction false} SignOfRendered(c: string, negative: bool, whole: string, fraction: string, tail: string)
    requires AllDigits(whole) && AllDigits(fraction) && |whole| + |fraction| > 0
    requires c == SignText(negative) + BodyText(whole, fraction) + tail
    ensures |c| > 0 && !IsSpace(c[0]) && ((c[0] == '+' || c[0] == '-') <==> negative) && (negative ==> c[0] == '-')
  {
    assert !IsSpace(c[0]) by {
      if negative {
        assert c[0] == '-';
      } else if whole != [] {
        assert c[0] == whole[0];
      } else {
        assert c[0] == '.';
      }
    }
  }

  /** No exponent is read when the character after the numeral cannot start one. */
  lemma {:induction false} NoExponentAfter(c: string, pre: string, tail: string)
    requires tail == [] || EndsNumeral(tail[0])
    requires c == pre + tail
    ensures ScanExponent(c, |pre|) == Exponent(|pre|, 0)
  {
    assert |pre| < |c| ==> c[|pre|] == tail[0];
  }

  /** `ScanDecimal` assembled from its parts: a sign (or none) at the start,
      a mantissa after it and no exponent after that. */
  lemma {:induction false} ScanDecimalFromParts(c: string, negative: bool, start: nat, end: nat, digits: nat, f: nat, v: real)
    requires |c| > 0 && !IsSpace(c[0])
    requires (c[0] == '+' || c[0] == '-') <==> negative
    requires negative ==> c[0] == '-'
    requires start == if negative then 1 else 0
    requires ScanMantissa(c, start) == Some(Mantissa(end, digits, f))
    requires ScanExponent(c, end) == Exponent(end, 0)
    requires v == DecimalValue(negative, digits, 0 - f)
    ensures ScanDecimal(c) == Some(Conversion(end, v))
  {
    assert SpacesEnd(c, 0) == 0;
  }

  /** The value of a numeral is its digits divided by ten once per digit after the point. */
  lemma {:induction false} ValueIsQuotient(d: Decimal)
    requires d.Valid()
    ensures var q := DigitsValue(d.whole + d.fraction) as real / Pow10(|d.fraction|) as real;
      d.Value() == if d.negative then -q else q
  {
    var n := DigitsValue(d.whole + d.fraction) as real;
    var p := Pow10(|d.fraction|) as real;
    assert Scale(0 - |d.fraction|) == 1.0 / p;
    TimesReciprocal(n, p);
  }

  lemma TimesReciprocal(n: real, p: real)
    requires p > 0.0
    ensures n * (1.0 / p) == n / p
  {
  }

  /** A rendered numeral holds only a minus sign, digits and a point. */
  lemma {:induction false} RenderedCharacters(d: Decimal)
    requires d.Valid()
    ensures forall k :: 0 <= k < |d.Render()| ==>
      d.Render()[k] == '-' || d.Render()[k] == '.' || IsDigit(d.Render()[k])
  {
    var sign := SignText(d.negative);
    var point := if d.fraction == [] then "" else "." + d.fraction;
    assert d.Render() == sign + d.whole + point;
    forall k | 0 <= k < |d.Render()|
      ensures d.Render()[k] == '-' || d.Render()[k] == '.' || IsDigit(d.Render()[k])
    {
      if k < |sign| {
        assert d.Render()[k] == '-';
      } else if k < |sign| + |d.whole| {
        assert d.Render()[k] == d.whole[k - |sign|];
      } else {
        assert d.Render()[k] == point[k - |sign| - |d.whole|];
      }
    }
  }

  lemma {:induction false} RenderedNulFree(d: Decimal)
    requires d.Valid()
    ensures forall k :: 0 <= k < |d.Render()| ==> d.Render()[k] != '\0'
  {
    RenderedCharacters(d);
  }

  lemma {:induction false} ScanOfRendered(d: Decimal, tail: string)
    requires d.Valid()
    requires tail == [] || EndsNumeral(tail[0])
    ensures ScanDecimal(d.Render() + tail) == Some(Conversion(|d.Render()|, d.Value()))
  {
    var c := d.Render() + tail;
    var sign := SignText(d.negative);
    SignOfRendered(c, d.negative, d.whole, d.fraction, tail);
    MantissaOfBody(c, sign, d.whole, d.fraction, tail);
    NoExponentAfter(c, d.Render(), tail);
    ScanDecimalFromParts(c, d.negative, |sign|, |d.Render()|, DigitsValue(d.whole + d.fraction), |d.fraction|, d.Value());
  }

  /** strtod sees the whole of a rendered numeral and a NUL-free tail. */
  lemma {:induction false} CStrOfRendered(d: Decimal, tail: string)
    requires d.Valid()
    requires forall k :: 0 <= k < |tail| ==> tail[k] != '\0'
    ensures CStr(d.Render() + tail) == d.Render() + tail
  {
    var c := d.Render() + tail;
    RenderedNulFree(d);
    forall k | 0 <= k < |c| ensures c[k] != '\0' {
      if k >= |d.Render()| {
        assert c[k] == tail[k - |d.Render()|];
      } else {
        assert c[k] == d.Render()[k];
      }
    }
    CStrOfNulFree(c);
  }

  /** Round trip: strtod reads back exactly the rendered numeral and its value,
      whatever follows it, so long as the next character cannot continue it. */
  lemma {:induction false} ScanRendered(d: Decimal, tail: string)
    requires d.Valid()
    requires forall k :: 0 <= k < |tail| ==> tail[k] != '\0'
    requires tail == [] || EndsNumeral(tail[0])
    ensures StrToD(d.Render() + tail) == Some(Conversion(|d.Render()|, d.Value()))
  {
    CStrOfRendered(d, tail);
    ScanOfRendered(d, tail);
  }

  /** What `is_number` needs: a conversion, and only white space after it. */
  lemma {:induction false} IsNumberFromParts(s: string, n: nat, v: real)
    requires StrToD(s) == Some(Conversion(n, v))
    requires BlankFrom(s, n)
    ensures IsNumber(s) && NumberValue(s) == v
  {
  }

  lemma {:induction false} BlanksAfter(r: string, blanks: string)
    requires forall k :: 0 <= k < |blanks| ==> IsSpace(blanks[k])
    ensures BlankFrom(r + blanks, |r|)
  {
    var s := r + blanks;
    forall k | |r| <= k < |CStr(s)| ensures IsSpace(s[k]) {
      assert s[k] == blanks[k - |r|];
    }
  }

  /** `is_number` accepts a numeral followed by white space, and `std::stod` reads its value. */
  lemma {:induction false} NumeralThenBlanksIsNumber(d: Decimal, blanks: string)
    requires d.Valid()
    requires forall k :: 0 <= k < |blanks| ==> IsSpace(blanks[k])
    ensures IsNumber(d.Render() + blanks) && NumberValue(d.Render() + blanks) == d.Value()
  {
    assert forall k :: 0 <= k < |blanks| ==> blanks[k] != '\0';
    assert blanks == [] || EndsNumeral(blanks[0]);
    ScanRendered(d, blanks);
    BlanksAfter(d.Render(), blanks);
    IsNumberFromParts(d.Render() + blanks, |d.Render()|, d.Value());
  }

  /** `is_number` rejects a numeral followed by anything that is not white space,
      although strtod converts the numeral. */
  lemma {:induction false} NumeralThenGarbageIsNotNumber(d: Decimal, tail: string)
    requires d.Valid()
    requires forall k :: 0 <= k < |tail| ==> tail[k] != '\0'
    requires tail != [] && EndsNumeral(tail[0]) && !IsSpace(tail[0])
    ensures !IsNumber(d.Render() + tail)
    ensures StrToD(d.Render() + tail) == Some(Conversion(|d.Render()|, d.Value()))
  {
    var s := d.Render() + tail;
    assert StrToD(s) == Some(Conversion(|d.Render()|, d.Value())) by {
      ScanRendered(d, tail);
    }
    assert CStr(s) == s by {
      CStrOfRendered(d, tail);
    }
    assert s[|d.Render()|] == tail[0];
  }

  /** A numeral with one digit on each side of the point. */
  lemma {:induction false} OneDigitEachSide(w: char, f: char)
    requires IsDigit(w) && IsDigit(f)
    ensures var d := Decimal(false, [w], [f]);
      d.Valid() && d.Render() == [w, '.', f]
      && d.Value() == (10 * (w as int - '0' as int) + (f as int - '0' as int)) as real / 10.0
  {
    var d := Decimal(false, [w], [f]);
    assert d.Render() == [w, '.', f];
    assert DigitsValue([w] + [f]) == 10 * (w as int - '0' as int) + (f as int - '0' as int) by {
      assert [w] + [f] == [w, f];
      assert [w, f][..1] == [w];
      assert [w][..0] == [];
      assert DigitsValue([w]) == w as int - '0' as int;
    }
    ValueIsQuotient(d);
  }

  /** The numerals "3.5" and "1.5" and their values. */
  lemma {:induction false} SmallNumerals()
    ensures Decimal(false, "3", "5").Valid() && Decimal(false, "3", "5").Render() == "3.5"
    ensures Decimal(false, "3", "5").Value() == 3.5
    ensures Decimal(false, "1", "5").Valid() && Decimal(false, "1", "5").Render() == "1.5"
    ensures Decimal(false, "1", "5").Value() == 1.5
  {
    OneDigitEachSide('3', '5');
    OneDigitEachSide('1', '5');
  }

  /** `is_number` accepts "3.5 " (trailing white space) and reads 3.5 from it. */
  lemma {:induction false} IsNumberAcceptsTrailingBlank()
    ensures IsNumber("3.5 ") && NumberValue("3.5 ") == 3.5
  {
    var d := Decimal(false, "3", "5");
    assert d.Valid() && d.Render() + " " == "3.5 " && d.Value() == 3.5 by {
      SmallNumerals();
    }
    NumeralThenBlanksIsNumber(d, " ");
  }

  /** `is_number` rejects "3.5abc" (trailing garbage). */
  lemma {:induction false} IsNumberRejectsTrailingGarbage()
    ensures !IsNumber("3.5abc")
  {
    var d := Decimal(false, "3", "5");
    assert d.Valid() && d.Render() + "abc" == "3.5abc" by {
      SmallNumerals();
    }
    NumeralThenGarbageIsNotNumber(d, "abc");
  }

  /** `std::stod` reads the numeric prefix of a field: "1.5abc" converts to 1.5. */
  lemma {:induction false} StodPrefixExample()
    ensures StrToD("1.5abc") == Some(Conversion(3, 1.5))
  {
    var d := Decimal(false, "1", "5");
    assert d.Valid() && d.Render() + "abc" == "1.5abc" && d.Value() == 1.5 by {
      SmallNumerals();
    }
    ScanRendered(d, "abc");
  }

  /** A field with no numeric prefix, such as a header label, converts nothing. */
  lemma {:induction false} StodRejectsLabel()
    ensures StrToD("x").None? && !IsNumber("x") && !IsNumber("")
  {
    assert CStr("x") == "x" by {
      CStrOfNulFree("x");
    }
  }
}
