/** The diagnostic fold of `main` in read-centerline.cpp: the axis-aligned bounding
    box of the loaded points, and the count, minimum, maximum and mean of the radius
    over the points that carry one. */
module CenterlineStats {
  import opened Wrappers
  import opened CenterlineRow
  import opened Sequences

  /** A double that may be infinite; the accumulators start at plus or minus infinity. */
  datatype ExtReal = NegInf | Finite(v: real) | PosInf

  /** `a < b` on doubles that are not NaN. */
  predicate Below(a: ExtReal, b: ExtReal) {
    match (a, b)
    case (NegInf, NegInf) => false
    case (NegInf, _) => true
    case (Finite(x), Finite(y)) => x < y
    case (Finite(_), PosInf) => true
    case (_, _) => false
  }

  /** `std::min(a, b)`: `b` if `b < a`, otherwise `a`. */
  function StdMin(a: ExtReal, b: ExtReal): ExtReal {
    if Below(b, a) then b else a
  }

  /** `std::max(a, b)`: `b` if `a < b`, otherwise `a`. */
  function StdMax(a: ExtReal, b: ExtReal): ExtReal {
    if Below(a, b) then b else a
  }

  /** The running `std::min` from +infinity over `vals`. */
  function Lowest(vals: seq<real>): ExtReal {
    if vals == [] then PosInf else StdMin(Lowest(vals[..|vals| - 1]), Finite(vals[|vals| - 1]))
  }

  /** The running `std::max` from -infinity over `vals`. */
  function Highest(vals: seq<real>): ExtReal {
    if vals == [] then NegInf else StdMax(Highest(vals[..|vals| - 1]), Finite(vals[|vals| - 1]))
  }

  function Sum(vals: seq<real>): real {
    if vals == [] then 0.0 else Sum(vals[..|vals| - 1]) + vals[|vals| - 1]
  }

  datatype Axis = X | Y | Z

  function Coord(p: CenterlinePoint, a: Axis): real {
    match a
    case X => p.x
    case Y => p.y
    case Z => p.z
  }

  /** One coordinate of every point, in order. */
  function Coords(pts: seq<CenterlinePoint>, a: Axis): seq<real> {
    seq(|pts|, i requires 0 <= i < |pts| => Coord(pts[i], a))
  }

  function RadiusOf(p: CenterlinePoint): Option<real> {
    p.radius
  }

  /** The radii of the points that have one, in order. */
  function Radii(pts: seq<CenterlinePoint>): seq<real> {
    Present(Apply(RadiusOf, pts))
  }

  /** `lo` and `hi` are the least and the greatest of `vals`. */
  predicate Extremes(vals: seq<real>, lo: real, hi: real) {
    && (forall i :: 0 <= i < |vals| ==> lo <= vals[i] <= hi)
    && (exists i :: 0 <= i < |vals| && vals[i] == lo)
    && (exists i :: 0 <= i < |vals| && vals[i] == hi)
  }

  datatype Corner = Corner(x: real, y: real, z: real)

  datatype Box = Box(lo: Corner, hi: Corner)

  function CornerCoord(c: Corner, a: Axis): real {
    match a
    case X => c.x
    case Y => c.y
    case Z => c.z
  }

  /** The radius figures `main` reports. */
  datatype RadiusStats = RadiusStats(count: nat, min: real, max: real, mean: real)

  /** Everything `main` reports about a non-empty set of points. */
  datatype Diagnostics = Diagnostics(box: Box, radius: Option<RadiusStats>)

  /** The running minimum over a non-empty sequence is its least element. */
  lemma {:induction false} LowestIsLeast(vals: seq<real>)
    ensures vals == [] <==> Lowest(vals) == PosInf
    ensures vals != [] ==> Lowest(vals).Finite?
    ensures Lowest(vals).Finite? ==>
      (forall i :: 0 <= i < |vals| ==> Lowest(vals).v <= vals[i])
      && (exists i :: 0 <= i < |vals| && vals[i] == Lowest(vals).v)
    decreases |vals|
  {
    if vals != [] {
      var n := |vals| - 1;
      var front := vals[..n];
      LowestIsLeast(front);
      assert forall i :: 0 <= i < n ==> vals[i] == front[i];
      if Lowest(front).Finite? && Lowest(vals) == Lowest(front) {
        var i :| 0 <= i < |front| && front[i] == Lowest(front).v;
        assert vals[i] == Lowest(vals).v;
      }
    }
  }

  /** The running maximum over a non-empty sequence is its greatest element. */
  lemma {:induction false} HighestIsGreatest(vals: seq<real>)
    ensures vals == [] <==> Highest(vals) == NegInf
    ensures vals != [] ==> Highest(vals).Finite?
    ensures Highest(vals).Finite? ==>
      (forall i :: 0 <= i < |vals| ==> vals[i] <= Highest(vals).v)
      && (exists i :: 0 <= i < |vals| && vals[i] == Highest(vals).v)
    decreases |vals|
  {
    if vals != [] {
      var n := |vals| - 1;
      var front := vals[..n];
      HighestIsGreatest(front);
      assert forall i :: 0 <= i < n ==> vals[i] == front[i];
      if Highest(front).Finite? && Highest(vals) == Highest(front) {
        var i :| 0 <= i < |front| && front[i] == Highest(front).v;
        assert vals[i] == Highest(vals).v;
      }
    }
  }

  /** Both running extremes together. */
  lemma {:induction false} RunningExtremes(vals: seq<real>)
    requires vals != []
    ensures Lowest(vals).Finite? && Highest(vals).Finite?
    ensures Extremes(vals, Lowest(vals).v, Highest(vals).v)
  {
    LowestIsLeast(vals);
    HighestIsGreatest(vals);
  }

  lemma {:induction false} CoordsStep(pts: seq<CenterlinePoint>, i: nat, a: Axis)
    requires i < |pts|
    ensures Coords(pts[..i + 1], a) == Coords(pts[..i], a) + [Coord(pts[i], a)]
    ensures Coords(pts[..i + 1], a)[..i] == Coords(pts[..i], a)
  {
  }

  /** Each running figure takes one more value into account. */
  lemma {:induction false} FoldStep(vals: seq<real>, v: real)
    ensures Lowest(vals + [v]) == StdMin(Lowest(vals), Finite(v))
    ensures Highest(vals + [v]) == StdMax(Highest(vals), Finite(v))
    ensures Sum(vals + [v]) == Sum(vals) + v
    ensures |vals + [v]| == |vals| + 1
  {
    assert (vals + [v])[..|vals|] == vals;
  }

  /** The bounding-box loop: six running extremes updated point by point. */
  method BoundingBox(pts: seq<CenterlinePoint>) returns (xmin: ExtReal, ymin: ExtReal, zmin: ExtReal,
                                                      xmax: ExtReal, ymax: ExtReal, zmax: ExtReal)
    ensures xmin == Lowest(Coords(pts, X)) && xmax == Highest(Coords(pts, X))
    ensures ymin == Lowest(Coords(pts, Y)) && ymax == Highest(Coords(pts, Y))
    ensures zmin == Lowest(Coords(pts, Z)) && zmax == Highest(Coords(pts, Z))
  {
    xmin, ymin, zmin := PosInf, PosInf, PosInf;
    xmax, ymax, zmax := NegInf, NegInf, NegInf;
    for i := 0 to |pts|
      invariant xmin == Lowest(Coords(pts[..i], X)) && xmax == Highest(Coords(pts[..i], X))
      invariant ymin == Lowest(Coords(pts[..i], Y)) && ymax == Highest(Coords(pts[..i], Y))
      invariant zmin == Lowest(Coords(pts[..i], Z)) && zmax == Highest(Coords(pts[..i], Z))
    {
      CoordsStep(pts, i, X);
      CoordsStep(pts, i, Y);
      CoordsStep(pts, i, Z);
      var p := pts[i];
      xmin := StdMin(xmin, Finite(p.x));
      xmax := StdMax(xmax, Finite(p.x));
      ymin := StdMin(ymin, Finite(p.y));
      ymax := StdMax(ymax, Finite(p.y));
      zmin := StdMin(zmin, Finite(p.z));
      zmax := StdMax(zmax, Finite(p.z));
    }
    assert pts[..|pts|] == pts;
  }

  /** The radius loop: extremes, sum and count over the points that have a radius. */
  method RadiusFold(pts: seq<CenterlinePoint>) returns (rmin: ExtReal, rmax: ExtReal, rsum: real, rcount: nat)
    ensures rmin == Lowest(Radii(pts)) && rmax == Highest(Radii(pts))
    ensures rsum == Sum(Radii(pts)) && rcount == |Radii(pts)|
  {
    rmin, rmax := PosInf, NegInf;
    rsum, rcount := 0.0, 0;
    ghost var rs := Apply(RadiusOf, pts);
    for i := 0 to |pts|
      invariant rmin == Lowest(Present(rs[..i])) && rmax == Highest(Present(rs[..i]))
      invariant rsum == Sum(Present(rs[..i])) && rcount == |Present(rs[..i])|
    {
      PresentStep(rs, i);
      var p := pts[i];
      assert rs[i] == p.radius;
      if p.radius.Some? {
        FoldStep(Present(rs[..i]), p.radius.value);
        rmin := StdMin(rmin, Finite(p.radius.value));
        rmax := StdMax(rmax, Finite(p.radius.value));
        rsum := rsum + p.radius.value;
        rcount := rcount + 1;
      } else {
        assert Present(rs[..i]) + [] == Present(rs[..i]);
      }
    }
    assert rs[..|pts|] == rs;
  }

  /** The box the running extremes leave behind touches the points on every face. */
  lemma {:induction false} BoxIsTight(pts: seq<CenterlinePoint>)
    requires pts != []
    ensures forall a: Axis :: Lowest(Coords(pts, a)).Finite? && Highest(Coords(pts, a)).Finite?
    ensures var box := Box(Corner(Lowest(Coords(pts, X)).v, Lowest(Coords(pts, Y)).v, Lowest(Coords(pts, Z)).v),
                           Corner(Highest(Coords(pts, X)).v, Highest(Coords(pts, Y)).v, Highest(Coords(pts, Z)).v));
      forall a: Axis :: Extremes(Coords(pts, a), CornerCoord(box.lo, a), CornerCoord(box.hi, a))
  {
    forall a: Axis ensures Lowest(Coords(pts, a)).Finite? && Highest(Coords(pts, a)).Finite?
      && Extremes(Coords(pts, a), Lowest(Coords(pts, a)).v, Highest(Coords(pts, a)).v)
    {
      RunningExtremes(Coords(pts, a));
    }
  }

  /** What `main` reports after loading: nothing for an empty file; otherwise the
      bounding box, whose faces touch the points and which contains them all, and
      radius figures exactly when some point has a radius. */
  method Diagnose(pts: seq<CenterlinePoint>) returns (d: Option<Diagnostics>)
    ensures d.None? <==> pts == []
    ensures d.Some? ==> forall a: Axis ::
      Extremes(Coords(pts, a), CornerCoord(d.value.box.lo, a), CornerCoord(d.value.box.hi, a))
    ensures d.Some? ==> (d.value.radius.Some? <==> Radii(pts) != [])
    ensures d.Some? && d.value.radius.Some? ==>
      var r := d.value.radius.value;
      && r.count == |Radii(pts)|
      && Extremes(Radii(pts), r.min, r.max)
      && r.mean == Sum(Radii(pts)) / r.count as real
  {
    if pts == [] {
      return None;
    }
    var xmin, ymin, zmin, xmax, ymax, zmax := BoundingBox(pts);
    BoxIsTight(pts);
    var box := Box(Corner(xmin.v, ymin.v, zmin.v), Corner(xmax.v, ymax.v, zmax.v));
    var rmin, rmax, rsum, rcount := RadiusFold(pts);
    if rcount > 0 {
      RunningExtremes(Radii(pts));
      var mean := rsum / rcount as real;
      return Some(Diagnostics(box, Some(RadiusStats(rcount, rmin.v, rmax.v, mean))));
    }
    return Some(Diagnostics(box, None));
  }

  /** One radius is counted per point that carries one. */
  lemma {:induction false} RadiiCount(pts: seq<CenterlinePoint>)
    ensures |Radii(pts)| == |set i | 0 <= i < |pts| && pts[i].radius.Some?|
  {
    var rs := Apply(RadiusOf, pts);
    PresentCount(rs);
    assert forall i :: 0 <= i < |pts| ==> rs[i] == pts[i].radius;
    assert (set i | 0 <= i < |rs| && rs[i].Some?) == set i | 0 <= i < |pts| && pts[i].radius.Some?;
  }

  /** The radii folded over are exactly the radii the points carry: `rmin` and `rmax`
      range over nothing else. */
  lemma {:induction false} RadiiArePresentRadii(pts: seq<CenterlinePoint>, r: real)
    ensures r in Radii(pts) <==> exists i :: 0 <= i < |pts| && pts[i].radius == Some(r)
  {
    var rs := Apply(RadiusOf, pts);
    PresentExactly(rs, r);
    assert forall i :: 0 <= i < |pts| ==> rs[i] == pts[i].radius;
  }
}
