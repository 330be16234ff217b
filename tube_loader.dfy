/** `LoadCenterlineFromCsv` of TubeFromCenterline/TubeFromCenterline.cpp: a
    comma-only reader that takes the first three fields of every non-empty line
    through `std::stod` and appends the point to a caller-owned point list. */
module TubeLoader {
  import opened Wrappers
  import opened CNumber
  import opened Sequences

  datatype Vec3 = Vec3(x: real, y: real, z: real)

  /** The `vtkPoints` object the caller passes in. */
  class PointBuffer {
    var points: seq<Vec3>

    constructor()
      ensures points == []
    {
      points := [];
    }

    /** `vtkPoints::InsertNextPoint`. */
    method InsertNextPoint(x: real, y: real, z: real)
      modifies this
      ensures points == old(points) + [Vec3(x, y, z)]
    {
      points := points + [Vec3(x, y, z)];
    }
  }

  /** One `std::getline(ss, field, ',')`: the field read and what remains unread. */
  datatype Split = Split(field: string, rest: string)

  /** `std::getline(ss, field, ',')` on the unread part `rest` of the stream: it fails
      only when nothing is left; otherwise it reads up to the next comma, which it
      consumes, or to the end. */
  function NextField(rest: string): (r: Option<Split>)
    ensures r.None? <==> rest == []
    ensures r.Some? ==> forall k :: 0 <= k < |r.value.field| ==> r.value.field[k] != ','
    ensures r.Some? ==> rest == r.value.field + [','] + r.value.rest
                        || (rest == r.value.field && r.value.rest == [])
  {
    if rest == [] then None
    else
      var j := IndexOf(rest, ',', 0);
      if j == |rest| then Some(Split(rest, []))
      else
        assert rest == rest[..j] + [','] + rest[j + 1..];
        Some(Split(rest[..j], rest[j + 1..]))
  }

  /** The first three fields of a line, as three successful extractions read them. */
  function ThreeFields(line: string): Option<(string, string, string)> {
    match NextField(line)
    case None => None
    case Some(a) =>
      match NextField(a.rest)
      case None => None
      case Some(b) =>
        match NextField(b.rest)
        case None => None
        case Some(c) => Some((a.field, b.field, c.field))
  }

  /** The point a line contributes, or None when the line is empty, has fewer than
      three fields, or one of its first three fields has no numeric prefix. */
  function RowPoint(line: string): Option<Vec3> {
    if line == [] then None
    else
      match ThreeFields(line)
      case None => None
      case Some((a, b, c)) =>
        match (Stod(a), Stod(b), Stod(c))
        case (Some(x), Some(y), Some(z)) => Some(Vec3(x, y, z))
        case _ => None
  }

  /** The points of all accepted lines, in line order. */
  function RowPoints(lines: seq<string>): seq<Vec3> {
    Present(Apply(RowPoint, lines))
  }

  /** `std::getline(ss, field, ',')` on the string stream over `line`, whose read
      position is `pos`: extracts characters until a comma, which is dropped. */
  method ReadField(line: string, pos: nat) returns (ok: bool, field: string, next: nat)
    requires pos <= |line|
    ensures next <= |line|
    ensures ok <==> NextField(line[pos..]).Some?
    ensures ok ==> NextField(line[pos..]).value == Split(field, line[next..])
  {
    if pos == |line| {
      return false, [], pos;
    }
    var j := pos;
    while j < |line| && line[j] != ','
      invariant pos <= j <= |line|
      invariant forall k :: pos <= k < j ==> line[k] != ','
    {
      j := j + 1;
    }
    ghost var rest := line[pos..];
    IndexOfAt(rest, ',', 0, j - pos);
    field := line[pos..j];
    assert rest[..j - pos] == field;
    if j == |line| {
      assert line[j..] == [];
      return true, field, j;
    }
    assert rest[j - pos + 1..] == line[j + 1..];
    return true, field, j + 1;
  }

  /** The three extractions of one line; None where one of them fails. */
  method ReadThreeFields(line: string) returns (r: Option<(string, string, string)>)
    ensures r == ThreeFields(line)
  {
    var ok, sx, pos := ReadField(line, 0);
    assert line[0..] == line;
    if !ok {
      return None;
    }
    var sy, sz;
    ok, sy, pos := ReadField(line, pos);
    if !ok {
      return None;
    }
    ok, sz, pos := ReadField(line, pos);
    if !ok {
      return None;
    }
    return Some((sx, sy, sz));
  }

  /** The body of the read loop for one line: the emptiness test, the three
      extractions and the three conversions inside the `try` block. None stands
      for every `continue`. */
  method ReadRow(line: string) returns (r: Option<Vec3>)
    ensures r == RowPoint(line)
  {
    if |line| == 0 {
      return None;
    }
    var fields := ReadThreeFields(line);
    if fields.None? {
      return None;
    }
    var (sx, sy, sz) := fields.value;
    var x := Stod(sx);
    if x.None? {
      return None;
    }
    var y := Stod(sy);
    if y.None? {
      return None;
    }
    var z := Stod(sz);
    if z.None? {
      return None;
    }
    return Some(Vec3(x.value, y.value, z.value));
  }

  /** `LoadCenterlineFromCsv`, with the file already read into lines. */
  method LoadCenterlineFromCsv(file: TextFile, buffer: PointBuffer) returns (ok: bool)
    modifies buffer
    ensures file.CannotOpen? ==> !ok && buffer.points == old(buffer.points)
    ensures file.Opened? ==> buffer.points == old(buffer.points) + RowPoints(file.lines)
    ensures file.Opened? ==> (ok <==> |buffer.points| >= 2)
  {
    if file.CannotOpen? {
      return false;
    }
    var lines := file.lines;
    ghost var rs := Apply(RowPoint, lines);
    for i := 0 to |lines|
      invariant buffer.points == old(buffer.points) + Present(rs[..i])
    {
      PresentStep(rs, i);
      var row := ReadRow(lines[i]);
      if row.Some? {
        buffer.InsertNextPoint(row.value.x, row.value.y, row.value.z);
      } else {
        assert Present(rs[..i]) + [] == Present(rs[..i]);
      }
    }
    assert rs[..|lines|] == rs;
    return |buffer.points| >= 2;
  }

  /** Rows are read independently: the points of a file are the points of its
      pieces, in order. */
  lemma {:induction false} RowPointsConcat(a: seq<string>, b: seq<string>)
    ensures RowPoints(a + b) == RowPoints(a) + RowPoints(b)
  {
    ApplyConcat(RowPoint, a, b);
    PresentConcat(Apply(RowPoint, a), Apply(RowPoint, b));
  }

  /** Every point appended comes from a line that yields it, and every line that
      yields a point has it appended; as many points as such lines. */
  lemma {:induction false} RowPointsExactly(lines: seq<string>, v: Vec3)
    ensures v in RowPoints(lines) <==> exists i :: 0 <= i < |lines| && RowPoint(lines[i]) == Some(v)
    ensures |RowPoints(lines)| == |set i | 0 <= i < |lines| && RowPoint(lines[i]).Some?|
  {
    var rs := Apply(RowPoint, lines);
    PresentExactly(rs, v);
    PresentCount(rs);
    assert forall i :: 0 <= i < |lines| ==> rs[i] == RowPoint(lines[i]);
    assert (set i | 0 <= i < |rs| && rs[i].Some?) == set i | 0 <= i < |lines| && RowPoint(lines[i]).Some?;
  }

  /** A comma-free field followed by a comma and more text. */
  lemma {:induction false} FieldThenComma(f: string, rest: string)
    requires forall k :: 0 <= k < |f| ==> f[k] != ','
    ensures NextField(f + "," + rest) == Some(Split(f, rest))
  {
    var s := f + "," + rest;
    IndexOfAt(s, ',', 0, |f|);
    assert s[..|f|] == f;
    assert s[|f| + 1..] == rest;
  }

  /** A comma-free field that ends the line, or is followed by a comma. */
  lemma {:induction false} LastField(f: string, tail: string)
    requires f != [] || tail != []
    requires forall k :: 0 <= k < |f| ==> f[k] != ','
    requires tail == [] || tail[0] == ','
    ensures NextField(f + tail).Some? && NextField(f + tail).value.field == f
  {
    if tail == [] {
      IndexOfAt(f + tail, ',', 0, |f|);
      assert f + tail == f;
    } else {
      assert f + tail == f + "," + tail[1..];
      FieldThenComma(f, tail[1..]);
    }
  }

  /** Only the first three comma-separated fields count, and a row is all or nothing:
      the point is there exactly when all three fields have a numeric prefix, and is
      then made of their values; what follows a third comma is ignored. */
  lemma {:induction false} RowUsesFirstThreeFields(a: string, b: string, c: string, tail: string)
    requires CommaFree(a) && CommaFree(b) && CommaFree(c)
    requires tail == [] || tail[0] == ','
    requires c != [] || tail != []
    ensures RowPoint(a + "," + b + "," + c + tail) ==
      if Stod(a).Some? && Stod(b).Some? && Stod(c).Some?
      then Some(Vec3(Stod(a).value, Stod(b).value, Stod(c).value))
      else None
  {
    var line := a + "," + b + "," + c + tail;
    assert ThreeFields(line) == Some((a, b, c)) by {
      FirstThreeFields(a, b, c, tail);
    }
  }

  lemma {:induction false} FirstThreeFields(a: string, b: string, c: string, tail: string)
    requires CommaFree(a) && CommaFree(b) && CommaFree(c)
    requires tail == [] || tail[0] == ','
    requires c != [] || tail != []
    ensures ThreeFields(a + "," + b + "," + c + tail) == Some((a, b, c))
  {
    var third := c + tail;
    var second := b + "," + third;
    assert a + "," + b + "," + c + tail == a + "," + second;
    FieldThenComma(a, second);
    FieldThenComma(b, third);
    LastField(c, tail);
    ThreeFieldsOf(a + "," + second, a, second, b, third, c);
  }

  /** Three extractions in a row that each succeed. */
  lemma {:induction false} ThreeFieldsOf(line: string, a: string, r1: string, b: string, r2: string, c: string)
    requires NextField(line) == Some(Split(a, r1))
    requires NextField(r1) == Some(Split(b, r2))
    requires NextField(r2).Some? && NextField(r2).value.field == c
    ensures ThreeFields(line) == Some((a, b, c))
  {
  }

  /** A line without two commas in it, such as "1;2;3" or "1,2", yields no point. */
  lemma {:induction false} FewerThanTwoCommasNoPoint(line: string)
    requires forall i, j :: 0 <= i < j < |line| ==> !(line[i] == ',' && line[j] == ',')
    ensures RowPoint(line).None?
  {
    if line != [] {
      var a := NextField(line).value;
      if a.rest != [] {
        assert line == a.field + [','] + a.rest;
        var n := |a.field|;
        assert line[n] == ',';
        forall k | 0 <= k < |a.rest| ensures a.rest[k] != ',' {
          assert a.rest[k] == line[n + 1 + k];
        }
        IndexOfAt(a.rest, ',', 0, |a.rest|);
        assert NextField(a.rest) == Some(Split(a.rest, []));
      }
    }
  }

  /** Round trip, with `std::stod` reading numeric prefixes: three numerals, each
      possibly followed by text that cannot continue it (a unit, a stray letter),
      written with commas between them and anything after a further comma, yield
      exactly the three values. */
  lemma {:induction false} RowRoundTrip(d0: Decimal, d1: Decimal, d2: Decimal,
                                        j0: string, j1: string, j2: string, tail: string)
    requires d0.Valid() && d1.Valid() && d2.Valid()
    requires Junk(j0) && Junk(j1) && Junk(j2)
    requires tail == [] || tail[0] == ','
    ensures RowPoint((d0.Render() + j0) + "," + (d1.Render() + j1) + "," + (d2.Render() + j2) + tail)
      == Some(Vec3(d0.Value(), d1.Value(), d2.Value()))
  {
    assert Stod(d0.Render() + j0) == Some(d0.Value()) && CommaFree(d0.Render() + j0) by {
      NumeralField(d0, j0);
    }
    assert Stod(d1.Render() + j1) == Some(d1.Value()) && CommaFree(d1.Render() + j1) by {
      NumeralField(d1, j1);
    }
    assert Stod(d2.Render() + j2) == Some(d2.Value()) && CommaFree(d2.Render() + j2) by {
      NumeralField(d2, j2);
    }
    assert d2.Render() + j2 != [] by {
      RenderedCharacters(d2);
    }
    RowUsesFirstThreeFields(d0.Render() + j0, d1.Render() + j1, d2.Render() + j2, tail);
  }

  predicate CommaFree(s: string) {
    forall k :: 0 <= k < |s| ==> s[k] != ','
  }

  /** Text after a numeral that `std::stod` stops at and that stays in the field. */
  predicate Junk(j: string) {
    CommaFree(j) && (forall k :: 0 <= k < |j| ==> j[k] != '\0') && (j == [] || EndsNumeral(j[0]))
  }

  /** A field made of a numeral and junk: comma-free, and `std::stod` reads the numeral. */
  lemma {:induction false} NumeralField(d: Decimal, j: string)
    requires d.Valid() && Junk(j)
    ensures Stod(d.Render() + j) == Some(d.Value())
    ensures CommaFree(d.Render() + j)
  {
    assert StrToD(d.Render() + j) == Some(Conversion(|d.Render()|, d.Value())) by {
      ScanRendered(d, j);
    }
    var r := d.Render();
    assert CommaFree(r) by {
      RenderedCharacters(d);
    }
    forall k | 0 <= k < |r + j| ensures (r + j)[k] != ',' {
      if k < |r| {
        assert (r + j)[k] == r[k];
      } else {
        assert (r + j)[k] == j[k - |r|];
      }
    }
  }

  /** A header row, whose first field starts with a letter (or anything else that
      cannot begin a number), yields no point. */
  lemma {:induction false} HeaderRowSkipped(a: string, b: string, c: string, tail: string)
    requires CommaFree(a) && CommaFree(b) && CommaFree(c)
    requires tail == [] || tail[0] == ','
    requires c != [] || tail != []
    requires a != [] && !IsSpace(a[0]) && a[0] != '\0'
    requires !IsDigit(a[0]) && a[0] != '.' && a[0] != '+' && a[0] != '-'
    ensures RowPoint(a + "," + b + "," + c + tail).None?
  {
    NoNumeralStart(a);
    RowUsesFirstThreeFields(a, b, c, tail);
  }

  /** A row that ends right after its second comma, such as "1,2,", yields no point:
      the third extraction finds nothing left to read. */
  lemma {:induction false} TrailingSecondCommaNoPoint(a: string, b: string)
    requires CommaFree(a) && CommaFree(b)
    ensures RowPoint(a + "," + b + ",").None?
  {
    var line := a + "," + b + ",";
    var second := b + "," + [];
    assert NextField(line) == Some(Split(a, second)) by {
      assert line == a + "," + second;
      FieldThenComma(a, second);
    }
    assert NextField(second) == Some(Split(b, [])) by {
      FieldThenComma(b, []);
    }
    assert ThreeFields(line).None?;
  }
}
