/** `load_centerline_csv` of read-centerline.cpp: every line that
    `parse_xyzr_from_line` accepts becomes a point, in file order, and the first
    line alone decides whether the file is reported as having a header. */
module CenterlineLoader {
  import opened Wrappers
  import opened CNumber
  import opened Tokenize
  import opened CenterlineRow
  import opened Sequences

  /** The outcome of a load: the `std::runtime_error` thrown when the file cannot be
      opened, or the points and the `had_header` out-parameter. */
  datatype Load = OpenError | Loaded(points: seq<CenterlinePoint>, hadHeader: bool)

  /** The parse result of every line, in order. */
  function Parsed(lines: seq<string>): seq<Option<CenterlinePoint>> {
    Apply(ParseLine, lines)
  }

  /** The points of the accepted lines, in line order. */
  function AcceptedPoints(lines: seq<string>): seq<CenterlinePoint> {
    Present(Parsed(lines))
  }

  /** Whether the first line, looked at before any other, sets `had_header`: it is
      rejected, has three tokens or more, and one of the first three is not a number. */
  predicate FirstLineSetsHeader(line: string) {
    var toks := RelaxedTokens(line);
    ParseLine(line).None? && |toks| >= 3 && (!IsNumber(toks[0]) || !IsNumber(toks[1]) || !IsNumber(toks[2]))
  }

  /** `had_header` after the whole file: only the first line is ever examined. */
  predicate HeaderFlag(lines: seq<string>) {
    lines != [] && FirstLineSetsHeader(lines[0])
  }

  /** The loop of `load_centerline_csv`, with the file already read into lines. */
  method LoadCenterlineCsv(file: TextFile) returns (r: Load)
    ensures file.CannotOpen? <==> r.OpenError?
    ensures file.Opened? ==> r == Loaded(AcceptedPoints(file.lines), HeaderFlag(file.lines))
  {
    if file.CannotOpen? {
      return OpenError;
    }
    var lines := file.lines;
    var pts: seq<CenterlinePoint> := [];
    var hadHeader := false;
    var firstMeaningfulSeen := false;
    ghost var rs := Parsed(lines);
    var i := 0;
    while i < |lines|
      invariant 0 <= i <= |lines|
      invariant firstMeaningfulSeen <==> i > 0
      invariant pts == Present(rs[..i])
      invariant hadHeader == (i > 0 && FirstLineSetsHeader(lines[0]))
    {
      var line := lines[i];
      PresentStep(rs, i);
      assert rs[i] == ParseLine(line);
      // A fresh `Point3D p`; its contents only matter once the line is accepted.
      var ok, p := ParseXyzrFromLine(line, CenterlinePoint(0.0, 0.0, 0.0, None));
      if !firstMeaningfulSeen {
        var toks := TokenizeRelaxed(line);
        if !ok && |toks| >= 3 {
          var n0 := CheckNumber(toks[0]);
          var n1 := CheckNumber(toks[1]);
          var n2 := CheckNumber(toks[2]);
          if !n0 || !n1 || !n2 {
            hadHeader := true;
          }
        }
        if !ok {
          firstMeaningfulSeen := true;
          i := i + 1;
          continue;
        }
        firstMeaningfulSeen := true;
      }
      if ok {
        pts := pts + [p];
      }
      i := i + 1;
    }
    assert rs[..i] == rs;
    return Loaded(pts, hadHeader);
  }

  /** Loading two pieces of a file one after the other gives the points of the whole:
      the points keep the order of their lines. */
  lemma {:induction false} AcceptedPointsConcat(a: seq<string>, b: seq<string>)
    ensures AcceptedPoints(a + b) == AcceptedPoints(a) + AcceptedPoints(b)
  {
    ApplyConcat(ParseLine, a, b);
    PresentConcat(Parsed(a), Parsed(b));
  }

  /** A rejected line is skipped without disturbing the lines around it. */
  lemma {:induction false} RejectedLineSkipped(a: seq<string>, line: string, b: seq<string>)
    requires ParseLine(line).None?
    ensures AcceptedPoints(a + [line] + b) == AcceptedPoints(a + b)
  {
    AcceptedPointsConcat(a + [line], b);
    AcceptedPointsConcat(a, [line]);
    AcceptedPointsConcat(a, b);
    assert Present(Parsed([line])) == [] by {
      assert Parsed([line]) == [None];
      assert Parsed([line])[..0] == [];
    }
  }

  /** The points are exactly the points of the accepted lines: every point comes from
      some line, and every accepted line's point is there. */
  lemma {:induction false} AcceptedPointsExactly(lines: seq<string>, p: CenterlinePoint)
    ensures p in AcceptedPoints(lines) <==> exists i :: 0 <= i < |lines| && ParseLine(lines[i]) == Some(p)
  {
    var rs := Parsed(lines);
    PresentExactly(rs, p);
    assert forall i :: 0 <= i < |lines| ==> rs[i] == ParseLine(lines[i]);
  }

  /** The number of points is the number of accepted lines. */
  lemma {:induction false} AcceptedPointsCount(lines: seq<string>)
    ensures |AcceptedPoints(lines)| == |set i | 0 <= i < |lines| && ParseLine(lines[i]).Some?|
  {
    var rs := Parsed(lines);
    PresentCount(rs);
    assert (set i | 0 <= i < |rs| && rs[i].Some?) == set i | 0 <= i < |lines| && ParseLine(lines[i]).Some?;
  }

  /** Whether a header is reported depends on the first line alone: it is when that
      line is rejected yet has three relaxed tokens or more. The explicit "not all
      numeric" test never decides anything, because a rejected line with three or more
      tokens always has a non-numeric one among the first three. */
  lemma {:induction false} HeaderIsDecidedByFirstLine(lines: seq<string>)
    ensures HeaderFlag(lines) <==>
      lines != [] && ParseLine(lines[0]).None? && |RelaxedTokens(lines[0])| >= 3
  {
    if lines != [] {
      ParseLineByTokens(lines[0]);
    }
  }

  /** Lines after the first never change the header flag. */
  lemma {:induction false} LaterLinesKeepHeader(lines: seq<string>, more: seq<string>)
    requires lines != []
    ensures HeaderFlag(lines + more) == HeaderFlag(lines)
  {
    assert (lines + more)[0] == lines[0];
  }

  /** A comment as first line, such as "# x y z", counts as a header as soon as it has
      three relaxed tokens; a blank first line never does. */
  lemma {:induction false} FirstLineCommentIsHeader(blank: string, rest: string, more: seq<string>)
    requires forall k :: 0 <= k < |blank| ==> IsSpace(blank[k])
    requires |RelaxedTokens(blank + "#" + rest)| >= 3
    ensures HeaderFlag([blank + "#" + rest] + more)
    ensures !HeaderFlag([blank] + more)
  {
    BlankAndCommentLinesRejected(blank, rest);
    HeaderIsDecidedByFirstLine([blank + "#" + rest] + more);
    assert ([blank] + more)[0] == blank;
    assert RelaxedTokens(blank) == [] by {
      OuterSeparatorsIgnored(blank, [], []);
      assert blank + [] + [] == blank;
    }
  }
}
