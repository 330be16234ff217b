/** `parse_xyzr_from_line` of read-centerline.cpp: one line of a centerline file
    becomes a point (x, y, z) with an optional radius, or is rejected. */
module CenterlineRow {
  import opened Wrappers
  import opened CNumber
  import opened Tokenize

  /** `Point3D`. A missing radius (NaN with `has_radius == false` in the source) is None. */
  datatype CenterlinePoint = CenterlinePoint(x: real, y: real, z: real, radius: Option<real>)

  /** The index just past the last character of `s` that is not white space (0 if none). */
  function TrailingStart(s: string): (j: nat)
    ensures j <= |s|
    ensures forall k :: j <= k < |s| ==> IsSpace(s[k])
    ensures j > 0 ==> !IsSpace(s[j - 1])
    decreases |s|
  {
    if s != [] && IsSpace(s[|s| - 1]) then TrailingStart(s[..|s| - 1]) else |s|
  }

  /** The line with leading, then trailing, white space erased. */
  function Trimmed(s: string): string {
    var rest := s[SpacesEnd(s, 0)..];
    rest[..TrailingStart(rest)]
  }

  /** What `parse_xyzr_from_line(line, out)` does: None where it returns false,
      otherwise the point it stores into `out`. */
  function ParseLine(line: string): Option<CenterlinePoint> {
    var trimmed := Trimmed(line);
    if trimmed == [] || trimmed[0] == '#' then None
    else
      var toks := RelaxedTokens(trimmed);
      if |toks| < 3 then None
      else if IsNumber(toks[0]) && IsNumber(toks[1]) && IsNumber(toks[2]) then
        var radius := if |toks| >= 4 && IsNumber(toks[3]) then Some(NumberValue(toks[3])) else None;
        Some(CenterlinePoint(NumberValue(toks[0]), NumberValue(toks[1]), NumberValue(toks[2]), radius))
      else None
  }

  lemma {:induction false} SpacesEndAt(s: string, i: nat)
    requires i <= |s|
    requires forall k :: 0 <= k < i ==> IsSpace(s[k])
    requires i < |s| ==> !IsSpace(s[i])
    ensures SpacesEnd(s, 0) == i
  {
    SpacesEndFrom(s, 0, i);
  }

  lemma {:induction false} SpacesEndFrom(s: string, m: nat, i: nat)
    requires m <= i <= |s|
    requires forall k :: m <= k < i ==> IsSpace(s[k])
    requires i < |s| ==> !IsSpace(s[i])
    ensures SpacesEnd(s, m) == i
    decreases i - m
  {
    if m < i {
      SpacesEndFrom(s, m + 1, i);
    }
  }

  lemma {:induction false} TrailingStartAt(s: string, j: nat)
    requires j <= |s|
    requires forall k :: j <= k < |s| ==> IsSpace(s[k])
    requires j > 0 ==> !IsSpace(s[j - 1])
    ensures TrailingStart(s) == j
    decreases |s|
  {
    if j < |s| {
      TrailingStartAt(s[..|s| - 1], j);
    }
  }

  /** The two `erase` calls of the source: drop the leading white space,
      then the trailing white space of what is left. */
  method TrimLine(line: string) returns (trimmed: string)
    ensures trimmed == Trimmed(line)
  {
    trimmed := line;
    var i := 0;
    while i < |trimmed| && IsSpace(trimmed[i])
      invariant i <= |trimmed|
      invariant forall k :: 0 <= k < i ==> IsSpace(trimmed[k])
    {
      i := i + 1;
    }
    SpacesEndAt(line, i);
    trimmed := trimmed[i..];
    var j := |trimmed|;
    while j > 0 && IsSpace(trimmed[j - 1])
      invariant 0 <= j <= |trimmed|
      invariant forall k :: j <= k < |trimmed| ==> IsSpace(trimmed[k])
    {
      j := j - 1;
    }
    TrailingStartAt(trimmed, j);
    trimmed := trimmed[..j];
  }

  /** Trimming keeps a contiguous piece of the line that neither starts nor ends with
      white space, and erases only white space around it. */
  lemma {:induction false} TrimmedShape(s: string)
    ensures var i := SpacesEnd(s, 0); var r := Trimmed(s);
      && i + |r| <= |s| && r == s[i..i + |r|]
      && (forall k :: 0 <= k < i ==> IsSpace(s[k]))
      && (forall k :: i + |r| <= k < |s| ==> IsSpace(s[k]))
      && (r != [] ==> !IsSpace(r[0]) && !IsSpace(r[|r| - 1]))
  {
    var i := SpacesEnd(s, 0);
    var rest := s[i..];
    var j := TrailingStart(rest);
    var r := Trimmed(s);
    assert r == rest[..j];
    forall k | i + |r| <= k < |s| ensures IsSpace(s[k]) {
      assert s[k] == rest[k - i];
    }
    if r != [] {
      assert r[0] == rest[0];
    }
  }

  /** Trimming does not change the relaxed tokens of a line. */
  lemma {:induction false} TrimmedKeepsTokens(s: string)
    ensures RelaxedTokens(Trimmed(s)) == RelaxedTokens(s)
  {
    TrimmedShape(s);
    var i := SpacesEnd(s, 0);
    var r := Trimmed(s);
    var a := s[..i];
    var b := s[i + |r|..];
    assert s == a + r + b;
    OuterSeparatorsIgnored(a, r, b);
  }

  /** `parse_xyzr_from_line` as the source runs it. `out` is the caller's point; it is
      overwritten only when the line is accepted. */
  method ParseXyzrFromLine(line: string, out: CenterlinePoint) returns (ok: bool, p: CenterlinePoint)
    ensures ok <==> ParseLine(line).Some?
    ensures p == if ok then ParseLine(line).value else out
  {
    p := out;
    var trimmed := TrimLine(line);
    if |trimmed| == 0 || trimmed[0] == '#' {
      return false, p;
    }
    var toks := TokenizeRelaxed(trimmed);
    if |toks| < 3 {
      return false, p;
    }
    var numeric := CheckNumber(toks[0]);
    if numeric {
      numeric := CheckNumber(toks[1]);
    }
    if numeric {
      numeric := CheckNumber(toks[2]);
    }
    if !numeric {
      return false, p;
    }
    var x := Stod(toks[0]).value;
    var y := Stod(toks[1]).value;
    var z := Stod(toks[2]).value;
    var hasRadius := false;
    if |toks| >= 4 {
      hasRadius := CheckNumber(toks[3]);
    }
    var radius := if hasRadius then Some(Stod(toks[3]).value) else None;
    p := CenterlinePoint(x, y, z, radius);
    return true, p;
  }

  /** A line that is blank, or whose first non-blank character is `#`, is rejected. */
  lemma {:induction false} BlankAndCommentLinesRejected(blank: string, rest: string)
    requires forall k :: 0 <= k < |blank| ==> IsSpace(blank[k])
    ensures ParseLine(blank).None?
    ensures ParseLine(blank + "#" + rest).None?
  {
    TrimmedShape(blank);
    var s := blank + "#" + rest;
    TrimmedShape(s);
    SpacesEndAt(s, |blank|);
    assert s[|blank|] == '#';
  }

  /** The whole behaviour in terms of the relaxed tokens of the untrimmed line: a point
      exactly when there are three tokens or more and the first three are numbers; then
      x, y, z are their values, and the radius is present exactly when a fourth token
      exists and is a number, and then it is that number. */
  lemma {:induction false} ParseLineByTokens(line: string)
    ensures var toks := RelaxedTokens(line);
      ParseLine(line).Some? <==> |toks| >= 3 && IsNumber(toks[0]) && IsNumber(toks[1]) && IsNumber(toks[2])
    ensures var toks := RelaxedTokens(line);
      ParseLine(line).Some? ==>
        var p := ParseLine(line).value;
        && p.x == NumberValue(toks[0]) && p.y == NumberValue(toks[1]) && p.z == NumberValue(toks[2])
        && (p.radius.Some? <==> |toks| >= 4 && IsNumber(toks[3]))
        && (p.radius.Some? ==> p.radius.value == NumberValue(toks[3]))
  {
    var r := Trimmed(line);
    TrimmedKeepsTokens(line);
    if r == [] {
      assert RelaxedTokens(r) == [];
    } else if r[0] == '#' {
      TrimmedShape(line);
      FirstTokenStart(r);
      NoNumeralStart(RelaxedTokens(r)[0]);
    }
  }

  /** Tokens after the fourth never affect the result. */
  lemma {:induction false} ExtraTokensIgnored(a: string, b: string)
    requires |RelaxedTokens(a)| >= 4 && |RelaxedTokens(b)| >= 4
    requires RelaxedTokens(a)[..4] == RelaxedTokens(b)[..4]
    ensures ParseLine(a) == ParseLine(b)
  {
    var ta := RelaxedTokens(a);
    var tb := RelaxedTokens(b);
    assert ta[0] == tb[0] && ta[1] == tb[1] && ta[2] == tb[2] && ta[3] == tb[3] by {
      assert ta[0] == ta[..4][0] && ta[1] == ta[..4][1] && ta[2] == ta[..4][2] && ta[3] == ta[..4][3];
      assert tb[0] == tb[..4][0] && tb[1] == tb[..4][1] && tb[2] == tb[..4][2] && tb[3] == tb[..4][3];
    }
    ParseLineByTokens(a);
    ParseLineByTokens(b);
  }

  /** Which delimiter separates the fields (comma, semicolon, tab, space, or a run of
      them) makes no difference to the parsed point. */
  lemma {:induction false} DelimiterChoiceKeepsPoint(a: string, b: string)
    requires |a| == |b|
    requires forall k :: 0 <= k < |a| ==> a[k] == b[k] || (IsSeparator(a[k]) && IsSeparator(b[k]))
    ensures ParseLine(a) == ParseLine(b)
  {
    DelimiterChoiceIrrelevant(a, b);
    ParseLineByTokens(a);
    ParseLineByTokens(b);
  }

  /** A rendered numeral is a separator-free field. */
  lemma {:induction false} RenderedIsField(d: Decimal)
    requires d.Valid()
    ensures IsField(d.Render())
  {
    RenderedCharacters(d);
  }

  /** The rendered numerals of a row, one per field. */
  function Fields(ds: seq<Decimal>): (fs: seq<string>)
    ensures |fs| == |ds|
  {
    seq(|ds|, i requires 0 <= i < |ds| => ds[i].Render())
  }

  /** Round trip: three or more numerals written with any one separator between
      them parse back to their values, the fourth (if any) becoming the radius. */
  lemma {:induction false} RowRoundTrip(ds: seq<Decimal>, sep: char)
    requires 3 <= |ds|
    requires forall i :: 0 <= i < |ds| ==> ds[i].Valid()
    requires IsSeparator(sep)
    ensures ParseLine(Join(Fields(ds), sep)) == Some(CenterlinePoint(ds[0].Value(), ds[1].Value(), ds[2].Value(),
      if |ds| >= 4 then Some(ds[3].Value()) else None))
  {
    var fs := Fields(ds);
    var line := Join(fs, sep);
    forall i | 0 <= i < |fs| ensures IsField(fs[i]) && IsNumber(fs[i]) && NumberValue(fs[i]) == ds[i].Value() {
      RenderedIsField(ds[i]);
      NumeralThenBlanksIsNumber(ds[i], []);
      assert ds[i].Render() + [] == fs[i];
    }
    JoinedFieldsSplitBack(fs, sep);
    ParseLineByTokens(line);
  }

  /** A rendered numeral is a field and a number with the numeral's value. */
  lemma {:induction false} NumeralToken(d: Decimal)
    requires d.Valid()
    ensures IsField(d.Render()) && IsNumber(d.Render()) && NumberValue(d.Render()) == d.Value()
  {
    RenderedIsField(d);
    NumeralThenBlanksIsNumber(d, []);
    assert d.Render() + [] == d.Render();
  }

  /** A 4th token that is a lone NUL: the as-written `is_number` accepts it, so the
      program goes on to `std::stod` of it, which throws; the model reads the line
      as a point without a radius. */
  lemma {:induction false} NulFourthTokenNoRadius(line: string, d0: Decimal, d1: Decimal, d2: Decimal)
    requires d0.Valid() && d1.Valid() && d2.Valid()
    requires RelaxedTokens(line) == [d0.Render(), d1.Render(), d2.Render(), "\0"]
    ensures IsNumberAsWritten("\0") && !IsNumber("\0")
    ensures ParseLine(line) == Some(CenterlinePoint(d0.Value(), d1.Value(), d2.Value(), None))
  {
    NumeralToken(d0);
    NumeralToken(d1);
    NumeralToken(d2);
    AsWrittenAcceptsNonNumbers();
    ParseLineByTokens(line);
  }
}
