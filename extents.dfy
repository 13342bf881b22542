/**
 * The bounding-box helpers of GL/a.js that the viewer runs on the parser's
 * output: `getExtents`, a stride-3 min/max scan over one flat position array,
 * and `getGeometriesExtents`, which folds the boxes of all geometries into
 * the box of the scene.
 */
module Extents {
  import opened Wrappers
  import opened JsNumber
  import opened ObjModel

  /** `{min, max}`: one bound per axis. */
  datatype Box = Box(min: seq<Num>, max: seq<Num>)

  /** `positions[k]` as `Math.min`/`Math.max` see it: past the end it is `undefined`, which they turn into NaN. */
  function At(p: seq<Num>, k: nat): Num {
    if k < |p| then p[k] else NaN
  }

  /** Coordinate `j` of vertex `v` of a flat position array. */
  function Coord(p: seq<Num>, v: nat, j: nat): Num
    requires 3 * v + j < |p|
  {
    p[3 * v + j]
  }

  /** No coordinate is NaN. */
  predicate NaNFree(p: seq<Num>) {
    forall k :: 0 <= k < |p| ==> !p[k].NaN?
  }

  /** A non-empty array of whole vertices, none of whose coordinates is NaN. */
  predicate WholeVertices(p: seq<Num>) {
    |p| >= 3 && |p| % 3 == 0 && NaNFree(p)
  }

  /** `x` is at most coordinate `j` of every vertex of `p`. */
  ghost predicate LowerBound(x: Num, p: seq<Num>, j: nat) {
    forall v: nat :: 3 * v + j < |p| ==> Le(x, Coord(p, v, j))
  }

  /** `x` is at least coordinate `j` of every vertex of `p`. */
  ghost predicate UpperBound(x: Num, p: seq<Num>, j: nat) {
    forall v: nat :: 3 * v + j < |p| ==> Le(Coord(p, v, j), x)
  }

  /** `x` is coordinate `j` of some vertex of `p`. */
  ghost predicate Attains(x: Num, p: seq<Num>, j: nat) {
    exists v: nat :: 3 * v + j < |p| && Coord(p, v, j) == x
  }

  // ---------------------------------------------------------------------------
  // getExtents

  /** How often the outer loop of `getExtents` runs: once per vertex after the first, a trailing partial one included. */
  function Rounds(p: seq<Num>): (n: nat)
    ensures |p| <= 3 ==> n == 0
    ensures |p| > 3 ==> 3 * n < |p| <= 3 * n + 3
  {
    if |p| <= 3 then 0 else (|p| + 2) / 3 - 1
  }

  /** `min[j]` after `v` rounds of the outer loop. */
  function ScanMin(p: seq<Num>, j: nat, v: nat): Num
    requires j < |p|
  {
    if v == 0 then p[j] else JsMin(At(p, 3 * v + j), ScanMin(p, j, v - 1))
  }

  /** `max[j]` after `v` rounds of the outer loop. */
  function ScanMax(p: seq<Num>, j: nat, v: nat): Num
    requires j < |p|
  {
    if v == 0 then p[j] else JsMax(At(p, 3 * v + j), ScanMax(p, j, v - 1))
  }

  /**
   * The scan starts from the first vertex: a NaN there stays to the end, and
   * a bound that is not NaN is at most (for `min`) or at least (for `max`)
   * that first coordinate.
   */
  lemma {:induction false} ScanFirst(p: seq<Num>, j: nat, v: nat)
    requires j < |p|
    ensures p[j].NaN? ==> ScanMin(p, j, v).NaN? && ScanMax(p, j, v).NaN?
    ensures !ScanMin(p, j, v).NaN? ==> Le(ScanMin(p, j, v), p[j])
    ensures !ScanMax(p, j, v).NaN? ==> Le(p[j], ScanMax(p, j, v))
    decreases v
  {
    if v > 0 {
      ScanFirst(p, j, v - 1);
      var lo, hi := ScanMin(p, j, v), ScanMax(p, j, v);
      if !lo.NaN? {
        LeTotalOrder(lo, ScanMin(p, j, v - 1), p[j]);
      }
      if !hi.NaN? {
        LeTotalOrder(p[j], ScanMax(p, j, v - 1), hi);
      }
    }
  }

  /** How many bounds `positions.slice(0, 3)` starts with. */
  function Axes(p: seq<Num>): nat {
    if |p| < 3 then |p| else 3
  }

  /** What `getExtents(positions)` returns. */
  function Extents(p: seq<Num>): (b: Box)
    ensures |b.min| == |b.max| == (if |p| < 3 then |p| else 3)
    ensures forall j :: 0 <= j < |b.min| ==> (p[j].NaN? ==> b.min[j].NaN? && b.max[j].NaN?)
    ensures forall j :: 0 <= j < |b.min| ==> (!b.min[j].NaN? ==> Le(b.min[j], p[j]))
    ensures forall j :: 0 <= j < |b.max| ==> (!b.max[j].NaN? ==> Le(p[j], b.max[j]))
  {
    assert forall j :: 0 <= j < Axes(p) ==>
      && (p[j].NaN? ==> ScanMin(p, j, Rounds(p)).NaN? && ScanMax(p, j, Rounds(p)).NaN?)
      && (!ScanMin(p, j, Rounds(p)).NaN? ==> Le(ScanMin(p, j, Rounds(p)), p[j]))
      && (!ScanMax(p, j, Rounds(p)).NaN? ==> Le(p[j], ScanMax(p, j, Rounds(p))))
    by {
      forall j | 0 <= j < Axes(p) {
        ScanFirst(p, j, Rounds(p));
      }
    }
    Box(seq(Axes(p), j requires 0 <= j < Axes(p) => ScanMin(p, j, Rounds(p))),
        seq(Axes(p), j requires 0 <= j < Axes(p) => ScanMax(p, j, Rounds(p))))
  }

  /** `getExtents(positions)`: the nested loops update `min` and `max` in place. */
  method GetExtents(positions: seq<Num>) returns (r: Box)
    ensures r == Extents(positions)
  {
    var n := if |positions| < 3 then |positions| else 3;
    var min := new Num[n](j requires 0 <= j < n => positions[j]);
    var max := new Num[n](j requires 0 <= j < n => positions[j]);
    var i := 3;
    ghost var v := 0;
    while i < |positions|
      invariant i == 3 * v + 3 && (v == 0 || 3 * v < |positions|)
      invariant v > 0 ==> n == 3
      invariant forall j :: 0 <= j < n ==> min[j] == ScanMin(positions, j, v)
      invariant forall j :: 0 <= j < n ==> max[j] == ScanMax(positions, j, v)
    {
      UpdateBounds(positions, min, max, i, v + 1);
      i := i + 3;
      v := v + 1;
    }
    assert |positions| > 3 ==> (|positions| + 2) / 3 == v + 1;
    r := Box(min[..], max[..]);
  }

  /** The inner loop of `getExtents`: fold the vertex starting at `i`, round `v` of the scan, into the three bounds. */
  method UpdateBounds(positions: seq<Num>, min: array<Num>, max: array<Num>, i: nat, ghost v: nat)
    requires min.Length == 3 && max.Length == 3 && min != max
    requires 3 <= |positions| && i == 3 * v && v > 0
    requires forall j :: 0 <= j < 3 ==> min[j] == ScanMin(positions, j, v - 1) && max[j] == ScanMax(positions, j, v - 1)
    modifies min, max
    ensures forall j :: 0 <= j < 3 ==> min[j] == ScanMin(positions, j, v) && max[j] == ScanMax(positions, j, v)
  {
    for j := 0 to 3
      invariant forall k :: 0 <= k < j ==> min[k] == ScanMin(positions, k, v) && max[k] == ScanMax(positions, k, v)
      invariant forall k :: j <= k < 3 ==> min[k] == ScanMin(positions, k, v - 1) && max[k] == ScanMax(positions, k, v - 1)
    {
      var x := At(positions, i + j);
      min[j] := JsMin(x, min[j]);
      max[j] := JsMax(x, max[j]);
    }
  }

  /** Up to three numbers are returned as they are, as both bounds. */
  lemma ShortPositions(p: seq<Num>)
    requires |p| <= 3
    ensures Extents(p) == Box(p, p)
  {
  }

  lemma {:induction false} ScanBounds(p: seq<Num>, j: nat, v: nat)
    requires j < 3 && 3 * v + 2 < |p| && NaNFree(p)
    ensures !ScanMin(p, j, v).NaN? && !ScanMax(p, j, v).NaN?
    ensures forall w: nat :: w <= v ==> Le(ScanMin(p, j, v), Coord(p, w, j)) && Le(Coord(p, w, j), ScanMax(p, j, v))
    ensures exists w: nat :: w <= v && Coord(p, w, j) == ScanMin(p, j, v)
    ensures exists w: nat :: w <= v && Coord(p, w, j) == ScanMax(p, j, v)
  {
    if v == 0 {
      assert Coord(p, 0, j) == p[j];
      LeTotalOrder(p[j], p[j], p[j]);
    } else {
      ScanBounds(p, j, v - 1);
      var lo, hi := ScanMin(p, j, v - 1), ScanMax(p, j, v - 1);
      var c := Coord(p, v, j);
      assert At(p, 3 * v + j) == c;
      var lo', hi' := ScanMin(p, j, v), ScanMax(p, j, v);
      forall w: nat | w <= v
        ensures Le(lo', Coord(p, w, j)) && Le(Coord(p, w, j), hi')
      {
        if w < v {
          LeTotalOrder(lo', lo, Coord(p, w, j));
          LeTotalOrder(Coord(p, w, j), hi, hi');
        }
      }
      if lo' != c {
        var w: nat :| w <= v - 1 && Coord(p, w, j) == lo;
      }
      if hi' != c {
        var w: nat :| w <= v - 1 && Coord(p, w, j) == hi;
      }
    }
  }

  /**
   * On whole vertices without NaN, `getExtents` returns three bounds per
   * side: `min[j]` is at most and `max[j]` at least coordinate `j` of every
   * vertex, and each is the coordinate of some vertex.
   */
  lemma ExtentsBounds(p: seq<Num>)
    requires WholeVertices(p)
    ensures |Extents(p).min| == 3 && |Extents(p).max| == 3
    ensures forall j :: 0 <= j < 3 ==> !Extents(p).min[j].NaN? && !Extents(p).max[j].NaN?
    ensures forall j :: 0 <= j < 3 ==> LowerBound(Extents(p).min[j], p, j) && UpperBound(Extents(p).max[j], p, j)
    ensures forall j :: 0 <= j < 3 ==> Attains(Extents(p).min[j], p, j) && Attains(Extents(p).max[j], p, j)
  {
    var e, m := Extents(p), Rounds(p);
    assert 3 * m + 2 < |p| && |p| == 3 * (m + 1);
    forall j | 0 <= j < 3
      ensures !e.min[j].NaN? && !e.max[j].NaN?
      ensures LowerBound(e.min[j], p, j) && UpperBound(e.max[j], p, j)
      ensures Attains(e.min[j], p, j) && Attains(e.max[j], p, j)
    {
      ScanBounds(p, j, m);
      forall v: nat | 3 * v + j < |p|
        ensures Le(e.min[j], Coord(p, v, j)) && Le(Coord(p, v, j), e.max[j])
      {
        assert v <= m;
      }
    }
  }

  /**
   * A trailing partial vertex makes the missing coordinates `undefined`, so
   * the bounds of those axes come out NaN.
   */
  lemma PartialVertex(p: seq<Num>)
    requires |p| > 3 && |p| % 3 != 0
    ensures |Extents(p).min| == 3 && |Extents(p).max| == 3
    ensures Extents(p).min[2].NaN? && Extents(p).max[2].NaN?
    ensures |p| % 3 == 1 ==> Extents(p).min[1].NaN? && Extents(p).max[1].NaN?
  {
    var m := Rounds(p);
    assert |p| < 3 * m + 3;
    assert |p| % 3 == 1 ==> |p| == 3 * m + 1;
  }

  // ---------------------------------------------------------------------------
  // getGeometriesExtents

  /** `data.position`: the first array named "position", if any. */
  function PositionData(data: seq<Attribute>): Option<seq<Num>>
    decreases |data|
  {
    if data == [] then None
    else if data[0].name == "position" then Some(data[0].values)
    else PositionData(data[1..])
  }

  /** `data.position` is found exactly when some array is named "position", and it is one of them. */
  lemma {:induction false} PositionDataFound(data: seq<Attribute>)
    ensures PositionData(data).Some? <==> exists k :: 0 <= k < |data| && data[k].name == "position"
    ensures PositionData(data).Some? ==> exists k :: 0 <= k < |data| && data[k] == Attribute("position", PositionData(data).value)
    decreases |data|
  {
    if data != [] && data[0].name != "position" {
      PositionDataFound(data[1..]);
      assert forall k :: 1 <= k < |data| ==> data[k] == data[1..][k - 1];
    }
  }

  /**
   * After the clean-up at the end of `parseOBJ`, a geometry has a position
   * array exactly when its position buffer received something, and it is
   * that buffer; so `getGeometriesExtents` throws on a parse result exactly
   * when some geometry was opened by a face that emitted no vertex.
   */
  lemma CleanedPositions(g: Geometry)
    requires Shaped(g.data)
    ensures PositionData(NonEmpty(g.data)) == if g.data[0].values == [] then None else Some(g.data[0].values)
  {
    var d := g.data;
    assert d[0].name == "position";
    if d[0].values == [] {
      var r := NonEmpty(d[1..]);
      assert NonEmpty(d) == r;
      forall k | 0 <= k < |r| ensures r[k].name != "position" {
        assert r[k] in d[1..];
        var m :| 0 <= m < |d[1..]| && d[1..][m] == r[k];
        assert d[1..][m] == d[m + 1] && d[m + 1].name == AttributeNames[m + 1];
      }
      PositionDataFound(r);
    }
  }

  /** The position array of a geometry, empty if it has none. */
  function Positions(g: Geometry): seq<Num> {
    match PositionData(g.data)
    case None => []
    case Some(p) => p
  }

  /** The initial value of the `reduce`: every lower bound +∞, every upper bound -∞. */
  const Unbounded: Box := Box([PosInf, PosInf, PosInf], [NegInf, NegInf, NegInf])

  /** The `reduce` callback: each bound of `acc` is combined with the matching bound of `b`. */
  function Combine(acc: Box, b: Box): (r: Box)
    ensures |r.min| == |acc.min| && |r.max| == |acc.max|
    ensures forall k :: 0 <= k < |r.min| ==> (r.min[k].NaN? <==> acc.min[k].NaN? || At(b.min, k).NaN?)
    ensures forall k :: 0 <= k < |r.max| ==> (r.max[k].NaN? <==> acc.max[k].NaN? || At(b.max, k).NaN?)
    ensures forall k :: 0 <= k < |r.min| && !r.min[k].NaN? ==> Le(r.min[k], acc.min[k]) && Le(r.min[k], At(b.min, k))
    ensures forall k :: 0 <= k < |r.max| && !r.max[k].NaN? ==> Le(acc.max[k], r.max[k]) && Le(At(b.max, k), r.max[k])
  {
    Box(seq(|acc.min|, ndx requires 0 <= ndx < |acc.min| => JsMin(At(b.min, ndx), acc.min[ndx])),
        seq(|acc.max|, ndx requires 0 <= ndx < |acc.max| => JsMax(At(b.max, ndx), acc.max[ndx])))
  }

  /** The `reduce` over `geometries`, from `acc`; a geometry without positions makes `getExtents` throw. */
  function ReduceExtents(acc: Box, gs: seq<Geometry>): (r: Option<Box>)
    ensures r.Some? ==> |r.value.min| == |acc.min| && |r.value.max| == |acc.max|
    ensures gs == [] ==> r == Some(acc)
    decreases |gs|
  {
    if gs == [] then Some(acc)
    else match PositionData(gs[0].data)
      case None => None
      case Some(p) => ReduceExtents(Combine(acc, Extents(p)), gs[1..])
  }

  /** `getGeometriesExtents(geometries)`. */
  function GeometriesExtents(gs: seq<Geometry>): (r: Option<Box>)
    ensures r.Some? ==> |r.value.min| == 3 && |r.value.max| == 3
  {
    ReduceExtents(Unbounded, gs)
  }

  /** With no geometries the result is the initial value, an inverted box (min > max on every axis). */
  lemma EmptyScene()
    ensures GeometriesExtents([]) == Some(Unbounded)
    ensures forall j :: 0 <= j < 3 ==> Lt(Unbounded.max[j], Unbounded.min[j])
  {
  }

  /** The reduce throws exactly when some geometry has no position array. */
  lemma {:induction false} ReduceThrows(acc: Box, gs: seq<Geometry>)
    ensures ReduceExtents(acc, gs).None? <==> exists k :: 0 <= k < |gs| && PositionData(gs[k].data).None?
    decreases |gs|
  {
    if gs != [] && PositionData(gs[0].data).Some? {
      ReduceThrows(Combine(acc, Extents(PositionData(gs[0].data).value)), gs[1..]);
      assert forall k :: 1 <= k < |gs| ==> gs[k] == gs[1..][k - 1];
      if exists k :: 0 <= k < |gs[1..]| && PositionData(gs[1..][k].data).None? {
        var k :| 0 <= k < |gs[1..]| && PositionData(gs[1..][k].data).None?;
        assert PositionData(gs[k + 1].data).None?;
      }
    }
  }

  /** Every geometry has a position array of whole vertices without NaN. */
  predicate WellFormedScene(gs: seq<Geometry>) {
    forall k :: 0 <= k < |gs| ==> PositionData(gs[k].data).Some? && WholeVertices(Positions(gs[k]))
  }

  /** Three bounds per side, none NaN. */
  predicate Proper(b: Box) {
    |b.min| == 3 && |b.max| == 3 && forall j :: 0 <= j < 3 ==> !b.min[j].NaN? && !b.max[j].NaN?
  }

  lemma LowerBoundTrans(x: Num, y: Num, p: seq<Num>, j: nat)
    requires !x.NaN? && Le(x, y) && LowerBound(y, p, j)
    ensures LowerBound(x, p, j)
  {
    forall v: nat | 3 * v + j < |p| ensures Le(x, Coord(p, v, j)) {
      LeTotalOrder(x, y, Coord(p, v, j));
    }
  }

  lemma UpperBoundTrans(x: Num, y: Num, p: seq<Num>, j: nat)
    requires !x.NaN? && Le(y, x) && UpperBound(y, p, j)
    ensures UpperBound(x, p, j)
  {
    forall v: nat | 3 * v + j < |p| ensures Le(Coord(p, v, j), x) {
      LeTotalOrder(Coord(p, v, j), y, x);
    }
  }

  /** `x` is at most coordinate `j` of every vertex of every geometry. */
  ghost predicate SceneLower(x: Num, gs: seq<Geometry>, j: nat) {
    forall k :: 0 <= k < |gs| ==> LowerBound(x, Positions(gs[k]), j)
  }

  /** `x` is at least coordinate `j` of every vertex of every geometry. */
  ghost predicate SceneUpper(x: Num, gs: seq<Geometry>, j: nat) {
    forall k :: 0 <= k < |gs| ==> UpperBound(x, Positions(gs[k]), j)
  }

  /** `x` is coordinate `j` of some vertex of some geometry. */
  ghost predicate SceneAttains(x: Num, gs: seq<Geometry>, j: nat) {
    exists k :: 0 <= k < |gs| && Attains(x, Positions(gs[k]), j)
  }

  /** The scene bounds on `gs` are those of its first geometry and of the rest. */
  lemma SceneBoundsCons(gs: seq<Geometry>, lo: Num, hi: Num, j: nat)
    requires gs != []
    ensures SceneLower(lo, gs, j) <==> LowerBound(lo, Positions(gs[0]), j) && SceneLower(lo, gs[1..], j)
    ensures SceneUpper(hi, gs, j) <==> UpperBound(hi, Positions(gs[0]), j) && SceneUpper(hi, gs[1..], j)
  {
    assert forall k :: 1 <= k < |gs| ==> gs[k] == gs[1..][k - 1];
  }

  /** A coordinate is attained in `gs` exactly when it is in the first geometry or in the rest. */
  lemma SceneAttainsCons(gs: seq<Geometry>, x: Num, j: nat)
    requires gs != []
    ensures SceneAttains(x, gs, j) <==> Attains(x, Positions(gs[0]), j) || SceneAttains(x, gs[1..], j)
  {
    assert SceneAttains(x, gs[1..], j) ==> SceneAttains(x, gs, j) by {
      if SceneAttains(x, gs[1..], j) {
        var k :| 0 <= k < |gs[1..]| && Attains(x, Positions(gs[1..][k]), j);
        assert gs[1..][k] == gs[k + 1];
      }
    }
    assert SceneAttains(x, gs, j) && !Attains(x, Positions(gs[0]), j) ==> SceneAttains(x, gs[1..], j) by {
      if SceneAttains(x, gs, j) && !Attains(x, Positions(gs[0]), j) {
        var k :| 0 <= k < |gs| && Attains(x, Positions(gs[k]), j);
        assert k > 0 && gs[1..][k - 1] == gs[k];
      }
    }
  }

  /** One step of the reduce on a proper box and a geometry of whole vertices. */
  lemma CombineStep(acc: Box, p: seq<Num>)
    requires Proper(acc) && WholeVertices(p)
    ensures Proper(Combine(acc, Extents(p)))
    ensures forall j :: 0 <= j < 3 ==>
      var c, e := Combine(acc, Extents(p)), Extents(p);
      && Le(c.min[j], acc.min[j]) && Le(c.min[j], e.min[j]) && (c.min[j] == acc.min[j] || c.min[j] == e.min[j])
      && Le(acc.max[j], c.max[j]) && Le(e.max[j], c.max[j]) && (c.max[j] == acc.max[j] || c.max[j] == e.max[j])
  {
    ExtentsBounds(p);
  }

  /**
   * Folding from a proper box over geometries of whole vertices gives a
   * proper box whose bounds on axis `j` enclose every vertex of every
   * geometry and the starting box, each bound being either the starting one
   * or a coordinate of some vertex.
   */
  lemma {:induction false} ReduceBounds(acc: Box, gs: seq<Geometry>, r: Box, j: nat)
    requires Proper(acc) && WellFormedScene(gs) && ReduceExtents(acc, gs) == Some(r) && j < 3
    ensures Proper(r)
    ensures Le(r.min[j], acc.min[j]) && Le(acc.max[j], r.max[j])
    ensures SceneLower(r.min[j], gs, j) && SceneUpper(r.max[j], gs, j)
    ensures r.min[j] == acc.min[j] || SceneAttains(r.min[j], gs, j)
    ensures r.max[j] == acc.max[j] || SceneAttains(r.max[j], gs, j)
    decreases |gs|
  {
    if gs == [] {
      LeTotalOrder(r.min[j], r.min[j], r.min[j]);
      LeTotalOrder(r.max[j], r.max[j], r.max[j]);
    } else {
      var p := Positions(gs[0]);
      var e := Extents(p);
      var c := Combine(acc, e);
      var rest := gs[1..];
      assert forall k :: 1 <= k < |gs| ==> gs[k] == rest[k - 1];
      assert WellFormedScene(rest);
      assert ReduceExtents(acc, gs) == ReduceExtents(c, rest);
      ExtentsBounds(p);
      CombineStep(acc, p);
      ReduceBounds(c, rest, r, j);
      LeTotalOrder(r.min[j], c.min[j], acc.min[j]);
      LeTotalOrder(acc.max[j], c.max[j], r.max[j]);
      LeTotalOrder(r.min[j], c.min[j], e.min[j]);
      LeTotalOrder(e.max[j], c.max[j], r.max[j]);
      LowerBoundTrans(r.min[j], e.min[j], p, j);
      UpperBoundTrans(r.max[j], e.max[j], p, j);
      SceneBoundsCons(gs, r.min[j], r.max[j], j);
      SceneAttainsCons(gs, r.min[j], j);
      SceneAttainsCons(gs, r.max[j], j);
    }
  }

  /**
   * For a non-empty scene whose geometries all hold whole vertices without
   * NaN, `getGeometriesExtents` succeeds, `min[j]` is at most and `max[j]` at
   * least coordinate `j` of every vertex of every geometry, and each bound is
   * the coordinate of some vertex of some geometry.
   */
  lemma SceneBounds(gs: seq<Geometry>)
    requires gs != [] && WellFormedScene(gs)
    ensures GeometriesExtents(gs).Some?
    ensures Proper(GeometriesExtents(gs).value)
    ensures forall j :: 0 <= j < 3 ==>
      var r := GeometriesExtents(gs).value;
      && SceneLower(r.min[j], gs, j) && SceneUpper(r.max[j], gs, j)
      && SceneAttains(r.min[j], gs, j) && SceneAttains(r.max[j], gs, j)
  {
    ReduceThrows(Unbounded, gs);
    var r := GeometriesExtents(gs).value;
    ReduceBounds(Unbounded, gs, r, 0);
    forall j | 0 <= j < 3
      ensures SceneLower(r.min[j], gs, j) && SceneUpper(r.max[j], gs, j)
      ensures SceneAttains(r.min[j], gs, j) && SceneAttains(r.max[j], gs, j)
    {
      SceneAxis(gs, r, j);
    }
  }

  /** `SceneBounds` on one axis. */
  lemma SceneAxis(gs: seq<Geometry>, r: Box, j: nat)
    requires gs != [] && WellFormedScene(gs) && GeometriesExtents(gs) == Some(r) && j < 3
    ensures Proper(r)
    ensures SceneLower(r.min[j], gs, j) && SceneUpper(r.max[j], gs, j)
    ensures SceneAttains(r.min[j], gs, j) && SceneAttains(r.max[j], gs, j)
  {
    ReduceBounds(Unbounded, gs, r, j);
    var p := Positions(gs[0]);
    if r.min[j] == PosInf || r.max[j] == NegInf {
      assert LowerBound(r.min[j], p, j) && UpperBound(r.max[j], p, j);
      InfinityAttained(p, j);
      if r.min[j] == PosInf {
        assert Attains(r.min[j], Positions(gs[0]), j);
      }
      if r.max[j] == NegInf {
        assert Attains(r.max[j], Positions(gs[0]), j);
      }
    }
  }

  /** If +∞ is a lower bound of an axis, some vertex has +∞ there; likewise -∞ as an upper bound. */
  lemma InfinityAttained(p: seq<Num>, j: nat)
    requires WholeVertices(p) && j < 3
    ensures LowerBound(PosInf, p, j) ==> Attains(PosInf, p, j)
    ensures UpperBound(NegInf, p, j) ==> Attains(NegInf, p, j)
  {
    assert Coord(p, 0, j) == p[j];
    if LowerBound(PosInf, p, j) {
      assert Le(PosInf, Coord(p, 0, j));
    }
    if UpperBound(NegInf, p, j) {
      assert Le(Coord(p, 0, j), NegInf);
    }
  }

  // ---------------------------------------------------------------------------
  // The scene box is the box of all positions together

  /** The position arrays of all geometries, one after the other. */
  function AllPositions(gs: seq<Geometry>): seq<Num>
    decreases |gs|
  {
    if gs == [] then [] else Positions(gs[0]) + AllPositions(gs[1..])
  }

  /** Vertex `v` of `a + b`, for `a` of whole vertices, is vertex `v` of `a` or vertex `v - |a|/3` of `b`. */
  lemma CoordAppend(a: seq<Num>, b: seq<Num>, v: nat, j: nat)
    requires |a| % 3 == 0 && j < 3 && 3 * v + j < |a + b|
    ensures v < |a| / 3 ==> Coord(a + b, v, j) == Coord(a, v, j)
    ensures v >= |a| / 3 ==> 3 * (v - |a| / 3) + j < |b| && Coord(a + b, v, j) == Coord(b, v - |a| / 3, j)
  {
  }

  /** The bounds of `a + b` are those of `a` and of `b`. */
  lemma BoundsAppend(a: seq<Num>, b: seq<Num>, x: Num, j: nat)
    requires |a| % 3 == 0 && j < 3
    ensures LowerBound(x, a + b, j) <==> LowerBound(x, a, j) && LowerBound(x, b, j)
    ensures UpperBound(x, a + b, j) <==> UpperBound(x, a, j) && UpperBound(x, b, j)
  {
    var n := |a| / 3;
    forall v: nat | 3 * v + j < |a + b| ensures Coord(a + b, v, j) == if v < n then Coord(a, v, j) else Coord(b, v - n, j) {
      CoordAppend(a, b, v, j);
    }
    forall v: nat | 3 * v + j < |a| ensures Coord(a, v, j) == Coord(a + b, v, j) {
      CoordAppend(a, b, v, j);
    }
    forall v: nat | 3 * v + j < |b| ensures Coord(b, v, j) == Coord(a + b, v + n, j) {
      CoordAppend(a, b, v + n, j);
    }
  }

  /** The coordinates attained in `a + b` are those attained in `a` or in `b`. */
  lemma AttainsAppend(a: seq<Num>, b: seq<Num>, x: Num, j: nat)
    requires |a| % 3 == 0 && j < 3
    ensures Attains(x, a + b, j) <==> Attains(x, a, j) || Attains(x, b, j)
  {
    var n := |a| / 3;
    if Attains(x, a + b, j) {
      var v: nat :| 3 * v + j < |a + b| && Coord(a + b, v, j) == x;
      CoordAppend(a, b, v, j);
    }
    if Attains(x, a, j) {
      var v: nat :| 3 * v + j < |a| && Coord(a, v, j) == x;
      CoordAppend(a, b, v, j);
    }
    if Attains(x, b, j) {
      var v: nat :| 3 * v + j < |b| && Coord(b, v, j) == x;
      CoordAppend(a, b, v + n, j);
    }
  }

  /** The concatenated positions of a non-empty well-formed scene are whole vertices without NaN. */
  lemma {:induction false} AllPositionsShape(gs: seq<Geometry>)
    requires WellFormedScene(gs)
    ensures |AllPositions(gs)| % 3 == 0 && NaNFree(AllPositions(gs))
    ensures gs != [] ==> |AllPositions(gs)| >= 3
    decreases |gs|
  {
    if gs != [] {
      var p, rest := Positions(gs[0]), gs[1..];
      assert forall k :: 1 <= k < |gs| ==> gs[k] == rest[k - 1];
      AllPositionsShape(rest);
      var all := AllPositions(gs);
      assert all == p + AllPositions(rest);
      forall k | 0 <= k < |all| ensures !all[k].NaN? {
        if k >= |p| {
          assert all[k] == AllPositions(rest)[k - |p|];
        }
      }
    }
  }

  /** Bounds and attained values of the concatenated positions are those of the scene. */
  lemma {:induction false} AllPositionsBounds(gs: seq<Geometry>, x: Num, j: nat)
    requires WellFormedScene(gs) && j < 3
    ensures LowerBound(x, AllPositions(gs), j) <==> SceneLower(x, gs, j)
    ensures UpperBound(x, AllPositions(gs), j) <==> SceneUpper(x, gs, j)
    ensures Attains(x, AllPositions(gs), j) <==> SceneAttains(x, gs, j)
    decreases |gs|
  {
    if gs != [] {
      var p, rest := Positions(gs[0]), gs[1..];
      assert forall k :: 1 <= k < |gs| ==> gs[k] == rest[k - 1];
      AllPositionsBounds(rest, x, j);
      BoundsAppend(p, AllPositions(rest), x, j);
      AttainsAppend(p, AllPositions(rest), x, j);
      SceneBoundsCons(gs, x, x, j);
      SceneAttainsCons(gs, x, j);
    }
  }

  /** A non-NaN lower bound that is attained is unique; so is an attained upper bound. */
  lemma AttainedBoundUnique(p: seq<Num>, j: nat, x: Num, y: Num)
    requires !x.NaN? && !y.NaN?
    ensures LowerBound(x, p, j) && Attains(x, p, j) && LowerBound(y, p, j) && Attains(y, p, j) ==> x == y
    ensures UpperBound(x, p, j) && Attains(x, p, j) && UpperBound(y, p, j) && Attains(y, p, j) ==> x == y
  {
    if Attains(x, p, j) && Attains(y, p, j) {
      var v: nat :| 3 * v + j < |p| && Coord(p, v, j) == x;
      var w: nat :| 3 * w + j < |p| && Coord(p, w, j) == y;
      LeTotalOrder(x, y, x);
    }
  }

  /**
   * Folding the per-geometry boxes gives the box `getExtents` would compute
   * over the positions of all geometries taken together, when every
   * geometry holds whole vertices without NaN.
   */
  lemma SceneIsExtentsOfAll(gs: seq<Geometry>)
    requires gs != [] && WellFormedScene(gs)
    ensures GeometriesExtents(gs) == Some(Extents(AllPositions(gs)))
  {
    SceneBounds(gs);
    AllPositionsShape(gs);
    var r, all := GeometriesExtents(gs).value, AllPositions(gs);
    ExtentsBounds(all);
    forall j | 0 <= j < 3 ensures r.min[j] == Extents(all).min[j] && r.max[j] == Extents(all).max[j] {
      AxisAgrees(gs, r, j);
    }
    assert r.min == Extents(all).min && r.max == Extents(all).max;
  }

  /** `SceneIsExtentsOfAll` on one axis. */
  lemma AxisAgrees(gs: seq<Geometry>, r: Box, j: nat)
    requires gs != [] && WellFormedScene(gs) && GeometriesExtents(gs) == Some(r) && j < 3
    ensures Proper(r) && WholeVertices(AllPositions(gs)) && |Extents(AllPositions(gs)).min| == 3
    ensures r.min[j] == Extents(AllPositions(gs)).min[j] && r.max[j] == Extents(AllPositions(gs)).max[j]
  {
    SceneBounds(gs);
    AllPositionsShape(gs);
    var all := AllPositions(gs);
    ExtentsBounds(all);
    var e := Extents(all);
    AllPositionsBounds(gs, r.min[j], j);
    AllPositionsBounds(gs, r.max[j], j);
    AttainedBoundUnique(all, j, r.min[j], e.min[j]);
    AttainedBoundUnique(all, j, r.max[j], e.max[j]);
  }
}
