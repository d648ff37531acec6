/**
 * The discrete part of a textured UV-sphere source: how many points, normals,
 * texture coordinates and triangles it emits, where each grid sample lands in
 * the point buffer, and which point indices each triangle connects.
 *
 * The floating-point values (sine/cosine coordinates, normalised normals, the
 * two texture coordinates) are kept abstract: every emitted point, normal and
 * texture coordinate is represented by the grid sample (theta step, phi step)
 * it is computed from.
 */
module TexturedSphere {

  /** The grid sample at theta step `thetaStep` and phi step `phiStep`. */
  datatype GridSample = GridSample(thetaStep: nat, phiStep: nat)

  /** One triangle cell: three point ids, as passed to InsertNextCell(3, pts). */
  datatype Triangle = Triangle(a: int, b: int, c: int)

  datatype PointsPrecision = SinglePrecision | DoublePrecision

  /** The generated poly data: points with their normals and texture coordinates, and the triangles. */
  datatype PolyData = PolyData(
    points: seq<GridSample>,
    normals: seq<GridSample>,
    tcoords: seq<GridSample>,
    polys: seq<Triangle>)

  // ---------------------------------------------------------------------------
  // Specification of the point layout
  // ---------------------------------------------------------------------------

  /** Number of points of a sphere with the given resolutions. */
  function NumPoints(phiRes: nat, thetaRes: nat): nat {
    (phiRes + 1) * (thetaRes + 1)
  }

  /** Number of triangles of a sphere with the given resolutions. */
  function NumPolys(phiRes: nat, thetaRes: nat): nat {
    phiRes * 2 * thetaRes
  }

  /** Index in the point buffer of the sample at theta step i and phi step j (theta-major). */
  function PointIndex(phiRes: nat, i: nat, j: nat): nat {
    (phiRes + 1) * i + j
  }

  /** The first n samples of theta row i, in increasing phi order. */
  function Row(i: nat, n: nat): seq<GridSample> {
    if n == 0 then [] else Row(i, n - 1) + [GridSample(i, n - 1)]
  }

  /** The first `rows` theta rows of the grid, each holding phiRes + 1 samples. */
  function Grid(phiRes: nat, rows: nat): seq<GridSample> {
    if rows == 0 then [] else Grid(phiRes, rows - 1) + Row(rows - 1, phiRes + 1)
  }

  /** The points emitted for a sphere: theta steps 0..thetaRes, each with phi steps 0..phiRes. */
  function SphereSamples(phiRes: nat, thetaRes: nat): seq<GridSample> {
    Grid(phiRes, thetaRes + 1)
  }

  lemma {:induction false} RowAt(i: nat, n: nat, j: nat)
    requires j < n
    ensures |Row(i, n)| == n && Row(i, n)[j] == GridSample(i, j)
  {
    RowLength(i, n);
    if j < n - 1 {
      RowAt(i, n - 1, j);
    }
  }

  /** The inner point loop's step: appending sample (i, j) extends row i by one sample. */
  lemma RowStep(prefix: seq<GridSample>, i: nat, j: nat)
    ensures prefix + Row(i, j + 1) == prefix + Row(i, j) + [GridSample(i, j)]
  {
  }

  lemma {:induction false} RowLength(i: nat, n: nat)
    ensures |Row(i, n)| == n
  {
    if n > 0 {
      RowLength(i, n - 1);
    }
  }

  lemma {:induction false} GridLength(phiRes: nat, rows: nat)
    ensures |Grid(phiRes, rows)| == (phiRes + 1) * rows
  {
    if rows > 0 {
      GridLength(phiRes, rows - 1);
      RowLength(rows - 1, phiRes + 1);
      assert (phiRes + 1) * rows == (phiRes + 1) * (rows - 1) + (phiRes + 1);
    }
  }

  /** The sample at theta step i and phi step j sits at PointIndex(phiRes, i, j). */
  lemma {:induction false} GridAt(phiRes: nat, rows: nat, i: nat, j: nat)
    requires i < rows && j <= phiRes
    ensures PointIndex(phiRes, i, j) < |Grid(phiRes, rows)|
    ensures Grid(phiRes, rows)[PointIndex(phiRes, i, j)] == GridSample(i, j)
  {
    GridLength(phiRes, rows);
    GridLength(phiRes, rows - 1);
    var prefix := Grid(phiRes, rows - 1);
    if i < rows - 1 {
      GridAt(phiRes, rows - 1, i, j);
      assert Grid(phiRes, rows)[PointIndex(phiRes, i, j)] == prefix[PointIndex(phiRes, i, j)];
    } else {
      RowAt(rows - 1, phiRes + 1, j);
      assert PointIndex(phiRes, i, j) == |prefix| + j;
    }
  }

  /** The point buffer of a sphere has NumPoints entries, and sample (i, j) is at PointIndex(P, i, j). */
  lemma SphereLayout(phiRes: nat, thetaRes: nat, i: nat, j: nat)
    requires i <= thetaRes && j <= phiRes
    ensures |SphereSamples(phiRes, thetaRes)| == NumPoints(phiRes, thetaRes)
    ensures SphereSamples(phiRes, thetaRes)[PointIndex(phiRes, i, j)] == GridSample(i, j)
  {
    GridLength(phiRes, thetaRes + 1);
    GridAt(phiRes, thetaRes + 1, i, j);
  }

  /** Conversely, the entry at any index k of the point buffer is the sample (k / (P+1), k % (P+1)). */
  lemma SphereSampleAt(phiRes: nat, thetaRes: nat, k: nat)
    requires k < NumPoints(phiRes, thetaRes)
    ensures |SphereSamples(phiRes, thetaRes)| == NumPoints(phiRes, thetaRes)
    ensures PointIndex(phiRes, k / (phiRes + 1), k % (phiRes + 1)) == k
    ensures SphereSamples(phiRes, thetaRes)[k] == GridSample(k / (phiRes + 1), k % (phiRes + 1))
  {
    GridLength(phiRes, thetaRes + 1);
    SampleCell(phiRes, thetaRes, k);
    GridAt(phiRes, thetaRes + 1, k / (phiRes + 1), k % (phiRes + 1));
  }

  /** Arithmetic behind SphereSampleAt: index k lies in theta row k / (P+1), at phi step k % (P+1). */
  lemma SampleCell(phiRes: nat, thetaRes: nat, k: nat)
    requires k < NumPoints(phiRes, thetaRes)
    ensures k / (phiRes + 1) < thetaRes + 1 && k % (phiRes + 1) <= phiRes
    ensures PointIndex(phiRes, k / (phiRes + 1), k % (phiRes + 1)) == k
  {
    DivBelow(k, phiRes + 1, thetaRes + 1);
  }

  /** k < m * n implies k / m < n. */
  lemma DivBelow(k: nat, m: nat, n: nat)
    requires m > 0 && k < m * n
    ensures k / m < n
  {
  }

  lemma MulMonotone(m: nat, a: nat, b: nat)
    requires a <= b
    ensures m * a <= m * b
  {
  }

  // ---------------------------------------------------------------------------
  // Specification of the connectivity
  // ---------------------------------------------------------------------------

  /**
   * The two triangles of grid cell (i, j): the quad with corners (i, j), (i, j+1),
   * (i+1, j+1), (i+1, j), split along the diagonal from (i, j) to (i+1, j+1).
   */
  function CellTriangles(phiRes: nat, i: nat, j: nat): (r: seq<Triangle>)
    ensures |r| == 2
    // both triangles share the diagonal edge
    ensures r[0].a == r[1].a && r[0].c == r[1].b
    ensures Distinct(r[0]) && Distinct(r[1])
  {
    [Triangle(PointIndex(phiRes, i, j), PointIndex(phiRes, i, j + 1), PointIndex(phiRes, i + 1, j + 1)),
     Triangle(PointIndex(phiRes, i, j), PointIndex(phiRes, i + 1, j + 1), PointIndex(phiRes, i + 1, j))]
  }

  predicate Distinct(t: Triangle) {
    t.a != t.b && t.b != t.c && t.a != t.c
  }

  /** Every vertex of t is a valid index into a point buffer of n points. */
  predicate InRange(t: Triangle, n: int) {
    0 <= t.a < n && 0 <= t.b < n && 0 <= t.c < n
  }

  /** The triangles of the first n cells of theta band i. */
  function Band(phiRes: nat, i: nat, n: nat): seq<Triangle> {
    if n == 0 then [] else Band(phiRes, i, n - 1) + CellTriangles(phiRes, i, n - 1)
  }

  /** The triangles of the first `bands` theta bands, each of phiRes cells. */
  function Connectivity(phiRes: nat, bands: nat): seq<Triangle> {
    if bands == 0 then [] else Connectivity(phiRes, bands - 1) + Band(phiRes, bands - 1, phiRes)
  }

  /** In terms of the source's buffer arithmetic: base, base+1, base+P+2 and base, base+P+2, base+P+1. */
  lemma CellFormula(phiRes: nat, i: nat, j: nat)
    ensures var base := (phiRes + 1) * i + j;
      CellTriangles(phiRes, i, j)
      == [Triangle(base, base + 1, base + phiRes + 2), Triangle(base, base + phiRes + 2, base + phiRes + 1)]
  {
  }

  lemma {:induction false} BandLength(phiRes: nat, i: nat, n: nat)
    ensures |Band(phiRes, i, n)| == 2 * n
  {
    if n > 0 {
      BandLength(phiRes, i, n - 1);
    }
  }

  lemma {:induction false} ConnectivityLength(phiRes: nat, bands: nat)
    ensures |Connectivity(phiRes, bands)| == NumPolys(phiRes, bands)
  {
    if bands > 0 {
      ConnectivityLength(phiRes, bands - 1);
      BandLength(phiRes, bands - 1, phiRes);
      NumPolysStep(phiRes, bands - 1);
    }
  }

  /** One more theta band adds 2 * P triangles. */
  lemma NumPolysStep(phiRes: nat, bands: nat)
    ensures NumPolys(phiRes, bands + 1) == NumPolys(phiRes, bands) + 2 * phiRes
  {
    var p2 := phiRes * 2;
    assert p2 * (bands + 1) == p2 * bands + p2;
  }

  /** The inner connectivity loop's step: appending the two triangles of cell j extends the band by one cell. */
  lemma BandStep(phiRes: nat, i: nat, j: nat, prefix: seq<Triangle>, before: seq<Triangle>, after: seq<Triangle>)
    requires before == prefix + Band(phiRes, i, j)
    requires after == before + [CellTriangles(phiRes, i, j)[0]] + [CellTriangles(phiRes, i, j)[1]]
    ensures after == prefix + Band(phiRes, i, j + 1)
  {
    var cell := CellTriangles(phiRes, i, j);
    assert cell == [cell[0]] + [cell[1]];
    assert Band(phiRes, i, j + 1) == Band(phiRes, i, j) + cell;
  }

  lemma {:induction false} BandAt(phiRes: nat, i: nat, n: nat, j: nat)
    requires j < n
    ensures |Band(phiRes, i, n)| == 2 * n
    ensures Band(phiRes, i, n)[2 * j] == CellTriangles(phiRes, i, j)[0]
    ensures Band(phiRes, i, n)[2 * j + 1] == CellTriangles(phiRes, i, j)[1]
  {
    BandLength(phiRes, i, n);
    BandLength(phiRes, i, n - 1);
    if j < n - 1 {
      BandAt(phiRes, i, n - 1, j);
    }
  }

  /** Cell (i, j) contributes triangles 2*(P*i+j) and 2*(P*i+j)+1, in that order. */
  lemma {:induction false} ConnectivityAt(phiRes: nat, bands: nat, i: nat, j: nat)
    requires i < bands && j < phiRes
    ensures |Connectivity(phiRes, bands)| == NumPolys(phiRes, bands)
    ensures 2 * (phiRes * i + j) + 1 < NumPolys(phiRes, bands)
    ensures Connectivity(phiRes, bands)[2 * (phiRes * i + j)] == CellTriangles(phiRes, i, j)[0]
    ensures Connectivity(phiRes, bands)[2 * (phiRes * i + j) + 1] == CellTriangles(phiRes, i, j)[1]
  {
    ConnectivityLength(phiRes, bands);
    ConnectivityLength(phiRes, bands - 1);
    var prefix := Connectivity(phiRes, bands - 1);
    var band := Band(phiRes, bands - 1, phiRes);
    assert Connectivity(phiRes, bands) == prefix + band;
    var k := 2 * (phiRes * i + j);
    CellOffset(phiRes, i, j, bands - 1);
    if i < bands - 1 {
      ConnectivityAt(phiRes, bands - 1, i, j);
    } else {
      BandAt(phiRes, i, phiRes, j);
      assert k == |prefix| + 2 * j;
    }
  }

  /** Arithmetic behind ConnectivityAt: where cell (i, j) falls relative to the first `before` bands. */
  lemma CellOffset(phiRes: nat, i: nat, j: nat, before: nat)
    requires i <= before && j < phiRes
    ensures NumPolys(phiRes, before + 1) == NumPolys(phiRes, before) + 2 * phiRes
    ensures i < before ==> 2 * (phiRes * i + j) + 1 < NumPolys(phiRes, before)
    ensures i == before ==> 2 * (phiRes * i + j) == NumPolys(phiRes, before) + 2 * j
  {
    var p2 := phiRes * 2;
    assert NumPolys(phiRes, before + 1) == p2 * before + p2;
    assert NumPolys(phiRes, before) == p2 * before;
    assert 2 * (phiRes * i + j) == p2 * i + 2 * j;
    if i < before {
      MulMonotone(p2, i + 1, before);
      assert p2 * (i + 1) == p2 * i + p2;
    }
  }

  /** Both triangles of a cell in band i < bands index into a buffer of NumPoints(P, bands) points. */
  lemma CellInRange(phiRes: nat, i: nat, j: nat, bands: nat)
    requires i < bands && j < phiRes
    ensures InRange(CellTriangles(phiRes, i, j)[0], NumPoints(phiRes, bands))
    ensures InRange(CellTriangles(phiRes, i, j)[1], NumPoints(phiRes, bands))
  {
    var m := phiRes + 1;
    // the largest index of the cell is PointIndex(P, i+1, j+1) < m * (i+1) + m <= m * (bands+1)
    MulMonotone(m, i + 2, bands + 1);
    assert m * (i + 2) == m * (i + 1) + m;
    assert m * (i + 1) == m * i + m;
  }

  lemma {:induction false} BandInRange(phiRes: nat, i: nat, cells: nat, bands: nat)
    requires i < bands && cells <= phiRes
    ensures forall t :: t in Band(phiRes, i, cells) ==> InRange(t, NumPoints(phiRes, bands))
  {
    if cells > 0 {
      BandInRange(phiRes, i, cells - 1, bands);
      CellInRange(phiRes, i, cells - 1, bands);
    }
  }

  /** Every vertex index of every emitted triangle lies in [0, numPts). */
  lemma {:induction false} ConnectivityInRange(phiRes: nat, bands: nat, thetaRes: nat)
    requires bands <= thetaRes
    ensures forall t :: t in Connectivity(phiRes, bands) ==> InRange(t, NumPoints(phiRes, thetaRes))
  {
    if bands > 0 {
      var prefix, band := Connectivity(phiRes, bands - 1), Band(phiRes, bands - 1, phiRes);
      ConnectivityInRange(phiRes, bands - 1, thetaRes);
      BandInRange(phiRes, bands - 1, phiRes, thetaRes);
      forall t | t in prefix + band
        ensures InRange(t, NumPoints(phiRes, thetaRes))
      {
        if t !in prefix {
          assert t in band;
        }
      }
    }
  }

  /** No emitted triangle repeats a vertex: the three ids of every triangle of a band are pairwise distinct. */
  lemma {:induction false} BandDistinct(phiRes: nat, i: nat, cells: nat)
    ensures forall t :: t in Band(phiRes, i, cells) ==> Distinct(t)
  {
    if cells > 0 {
      BandDistinct(phiRes, i, cells - 1);
    }
  }

  /** The three vertex ids of every emitted triangle are pairwise distinct. */
  lemma {:induction false} ConnectivityDistinct(phiRes: nat, bands: nat)
    ensures forall t :: t in Connectivity(phiRes, bands) ==> Distinct(t)
  {
    if bands > 0 {
      var prefix, band := Connectivity(phiRes, bands - 1), Band(phiRes, bands - 1, phiRes);
      ConnectivityDistinct(phiRes, bands - 1);
      BandDistinct(phiRes, bands - 1, phiRes);
      forall t | t in prefix + band
        ensures Distinct(t)
      {
        if t !in prefix {
          assert t in band;
        }
      }
    }
  }

  /**
   * Conversely, entry k of the connectivity is triangle k % 2 of cell
   * ((k / 2) / P, (k / 2) % P): the cells are emitted theta-major, two triangles each.
   */
  lemma ConnectivityEntry(phiRes: nat, thetaRes: nat, k: nat)
    requires k < NumPolys(phiRes, thetaRes)
    ensures phiRes > 0 && |Connectivity(phiRes, thetaRes)| == NumPolys(phiRes, thetaRes)
    ensures (k / 2) / phiRes < thetaRes
    ensures Connectivity(phiRes, thetaRes)[k] == CellTriangles(phiRes, (k / 2) / phiRes, (k / 2) % phiRes)[k % 2]
  {
    EntryCell(phiRes, thetaRes, k);
    var i, j := (k / 2) / phiRes, (k / 2) % phiRes;
    ConnectivityAt(phiRes, thetaRes, i, j);
  }

  /** Arithmetic behind ConnectivityEntry: entry k lies in cell (c / P, c % P) with c = k / 2. */
  lemma EntryCell(phiRes: nat, thetaRes: nat, k: nat)
    requires k < NumPolys(phiRes, thetaRes)
    ensures phiRes > 0 && (k / 2) / phiRes < thetaRes && (k / 2) % phiRes < phiRes
    ensures k == 2 * (phiRes * ((k / 2) / phiRes) + (k / 2) % phiRes) + k % 2
  {
    var c := k / 2;
    var p2 := phiRes * 2;
    assert p2 * thetaRes == 2 * (phiRes * thetaRes);
    assert c < phiRes * thetaRes;
    assert c == phiRes * (c / phiRes) + c % phiRes;
    DivBelow(c, phiRes, thetaRes);
  }

  /** The counts of the generated sphere and the validity of all its triangle indices, together. */
  lemma SphereWellFormed(phiRes: nat, thetaRes: nat)
    ensures |SphereSamples(phiRes, thetaRes)| == NumPoints(phiRes, thetaRes)
    ensures |Connectivity(phiRes, thetaRes)| == NumPolys(phiRes, thetaRes)
    ensures forall k :: 0 <= k < |Connectivity(phiRes, thetaRes)| ==>
              InRange(Connectivity(phiRes, thetaRes)[k], NumPoints(phiRes, thetaRes))
    ensures forall k :: 0 <= k < |Connectivity(phiRes, thetaRes)| ==> Distinct(Connectivity(phiRes, thetaRes)[k])
  {
    GridLength(phiRes, thetaRes + 1);
    ConnectivityLength(phiRes, thetaRes);
    ConnectivityInRange(phiRes, thetaRes, thetaRes);
    ConnectivityDistinct(phiRes, thetaRes);
    var polys := Connectivity(phiRes, thetaRes);
    assert forall k :: 0 <= k < |polys| ==> polys[k] in polys;
  }

  // ---------------------------------------------------------------------------
  // The two generation loops of RequestData
  // ---------------------------------------------------------------------------

  /**
   * The point loops: for each theta step 0..T and each phi step 0..P, in that
   * order, one point, one normal and one texture coordinate of that sample.
   */
  method GeneratePoints(P: nat, T: nat) returns (newPoints: seq<GridSample>, newNormals: seq<GridSample>,
                                                 newTCoords: seq<GridSample>)
    ensures newPoints == SphereSamples(P, T)
    ensures newNormals == newPoints && newTCoords == newPoints
  {
    newPoints, newNormals, newTCoords := [], [], [];
    var i := 0;
    while i <= T
      invariant 0 <= i <= T + 1
      invariant newPoints == Grid(P, i)
      invariant newNormals == newPoints && newTCoords == newPoints
    {
      var j := 0;
      while j <= P
        invariant 0 <= j <= P + 1
        invariant newPoints == Grid(P, i) + Row(i, j)
        invariant newNormals == newPoints && newTCoords == newPoints
      {
        var x := GridSample(i, j);
        RowStep(Grid(P, i), i, j);
        newPoints := newPoints + [x];
        newNormals := newNormals + [x];
        newTCoords := newTCoords + [x];
        j := j + 1;
      }
      i := i + 1;
    }
  }

  /**
   * The connectivity loops: for each theta band and each phi step, the two
   * triangles of that cell, written through a three-slot id buffer.
   */
  method GenerateConnectivity(P: nat, T: nat) returns (newPolys: seq<Triangle>)
    ensures newPolys == Connectivity(P, T)
  {
    newPolys := [];
    var pts := new int[3];
    var i := 0;
    while i < T
      invariant 0 <= i <= T
      invariant newPolys == Connectivity(P, i)
    {
      var j := 0;
      while j < P
        invariant 0 <= j <= P
        invariant newPolys == Connectivity(P, i) + Band(P, i, j)
      {
        ghost var before, cell := newPolys, CellTriangles(P, i, j);
        pts[0] := (P + 1) * i + j;
        pts[1] := pts[0] + 1;
        pts[2] := ((P + 1) * (i + 1) + j) + 1;
        ghost var first := Triangle(pts[0], pts[1], pts[2]);
        newPolys := newPolys + [Triangle(pts[0], pts[1], pts[2])];

        pts[1] := pts[2];
        pts[2] := pts[1] - 1;
        ghost var second := Triangle(pts[0], pts[1], pts[2]);
        newPolys := newPolys + [Triangle(pts[0], pts[1], pts[2])];
        assert first == cell[0] && second == cell[1];
        BandStep(P, i, j, Connectivity(P, i), before, newPolys);
        j := j + 1;
      }
      i := i + 1;
    }
  }

  // ---------------------------------------------------------------------------
  // The source object
  // ---------------------------------------------------------------------------

  /** A source built with the default resolution has resolution 8 in both directions. */
  method NewDefaultSource() returns (source: TexturedSphereSource)
    ensures fresh(source)
    ensures source.thetaResolution == 8 && source.phiResolution == 8 && source.radius == 0.5
  {
    source := new TexturedSphereSource();
  }

  class TexturedSphereSource {
    var radius: real
    var thetaResolution: nat
    var phiResolution: nat
    var theta: real
    var phi: real
    var outputPointsPrecision: PointsPrecision

    /** Sphere with radius 0.5 and both resolutions set to `res` (8 by default), raised to at least 4. */
    constructor (res: int := 8)
      ensures thetaResolution == phiResolution == (if res < 4 then 4 else res)
      ensures thetaResolution >= 4
      ensures radius == 0.5 && theta == 0.0 && phi == 0.0
      ensures outputPointsPrecision == SinglePrecision
    {
      var r := if res < 4 then 4 else res;
      radius := 0.5;
      thetaResolution := r;
      phiResolution := r;
      theta := 0.0;
      phi := 0.0;
      outputPointsPrecision := SinglePrecision;
    }

    /**
     * Generates the sphere: one point, normal and texture coordinate per grid
     * sample in theta-major order, then two triangles per grid cell.
     */
    method RequestData() returns (output: PolyData)
      ensures output.points == SphereSamples(phiResolution, thetaResolution)
      ensures |output.points| == NumPoints(phiResolution, thetaResolution)
      ensures |output.normals| == |output.points| && |output.tcoords| == |output.points|
      ensures forall k :: 0 <= k < |output.points| ==>
                output.normals[k] == output.points[k] && output.tcoords[k] == output.points[k]
      ensures output.polys == Connectivity(phiResolution, thetaResolution)
      ensures |output.polys| == NumPolys(phiResolution, thetaResolution)
      ensures forall k :: 0 <= k < |output.polys| ==> InRange(output.polys[k], |output.points|)
      ensures forall k :: 0 <= k < |output.polys| ==> Distinct(output.polys[k])
    {
      var P, T := phiResolution, thetaResolution;
      var newPoints, newNormals, newTCoords := GeneratePoints(P, T);
      var newPolys := GenerateConnectivity(P, T);
      output := PolyData(newPoints, newNormals, newTCoords, newPolys);
      SphereWellFormed(P, T);
    }
  }
}
