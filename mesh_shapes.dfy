/** What each generator of MeshCreator.cpp builds, as values: the vertex list
    and the triangle list of the cuboid, cylinder, sphere, cone, ruled grid
    surface and swept tube. Triangle indices are exact integers; vertex
    coordinates are exact reals, with the circle samples' cosines and sines
    supplied by a `Trig` value. The generator methods in MeshCreator are
    proved to build exactly these lists. */
module MeshShapes {
  import opened Geometry
  import opened HelpDefine
  import opened HelpFunc
  import opened Meshes

  /** Number of samples a loop `for (i = 0; i < radSamp; i++)` performs. */
  function Samples(radSamp: int): (n: nat)
    ensures radSamp >= 0 ==> n == radSamp
    ensures radSamp < 0 ==> n == 0
  {
    if radSamp < 0 then 0 else radSamp
  }

  /** A face containing vertex `v` at one of its corners. */
  predicate HasCorner(f: Face, v: int) {
    f.v0 == v || f.v1 == v || f.v2 == v
  }

  /** A triangle whose three corners are three different vertices. */
  predicate NonDegenerate(f: Face) {
    f.v0 != f.v1 && f.v1 != f.v2 && f.v2 != f.v0
  }

  /* ---------------------------------------------------------------- cuboid */

  /** The eight corners of CreateCuboid(sizeVec), centred at the origin:
      corners 0-3 are the top (z = +size.z/2) and 4-7 the bottom, and in each
      group of four the x coordinate is the larger one at positions 1 and 2
      and the y coordinate at positions 2 and 3. */
  function CuboidVertices(sizeVec: Vec3): (r: seq<Vec3>)
    ensures |r| == 8
    ensures forall i :: 0 <= i < 8 ==>
      && r[i].x == (if i % 4 == 1 || i % 4 == 2 then 0.5 else -0.5) * sizeVec.x
      && r[i].y == (if i % 4 == 2 || i % 4 == 3 then 0.5 else -0.5) * sizeVec.y
      && r[i].z == (if i < 4 then 0.5 else -0.5) * sizeVec.z
  {
    var minX, minY, minZ := -0.5 * sizeVec.x, -0.5 * sizeVec.y, -0.5 * sizeVec.z;
    var maxX, maxY, maxZ := 0.5 * sizeVec.x, 0.5 * sizeVec.y, 0.5 * sizeVec.z;
    [Vec3(minX, minY, maxZ), Vec3(maxX, minY, maxZ), Vec3(maxX, maxY, maxZ), Vec3(minX, maxY, maxZ),
     Vec3(minX, minY, minZ), Vec3(maxX, minY, minZ), Vec3(maxX, maxY, minZ), Vec3(minX, maxY, minZ)]
  }

  /** The twelve triangles of the cuboid, two per side, every index a corner. */
  function CuboidFaces(): (r: seq<Face>)
    ensures |r| == 12 && ValidFaces(r, 8)
    ensures forall k :: 0 <= k < 12 ==> NonDegenerate(r[k])
  {
    [Face(5, 4, 7), Face(5, 7, 6), Face(7, 2, 6), Face(7, 3, 2),
     Face(1, 0, 4), Face(1, 3, 0), Face(5, 6, 2), Face(5, 2, 1),
     Face(4, 5, 1), Face(1, 2, 3), Face(0, 3, 4), Face(4, 3, 7)]
  }

  /** Corner i of the box from -h to h, numbered as CuboidVertices numbers
      them. */
  function Corner(h: Vec3, i: int): Vec3 {
    Vec3(if i % 4 == 1 || i % 4 == 2 then h.x else -h.x,
         if i % 4 == 2 || i % 4 == 3 then h.y else -h.y,
         if i < 4 then h.z else -h.z)
  }

  /** Every triangle of the cuboid contributes sx * sy * sz / 2 to
      ComputeVolume's sum: it covers half a side of area 4 * h1 * h2 at
      distance h3 from the centre, where h is half the size. */
  lemma {:induction false} CuboidFaceTerm(sizeVec: Vec3, k: int)
    requires 0 <= k < 12
    ensures FaceTerm(CuboidVertices(sizeVec), CuboidFaces()[k]) == 0.5 * (sizeVec.x * sizeVec.y * sizeVec.z)
  {
    var h, v, f := Scale(0.5, sizeVec), CuboidVertices(sizeVec), CuboidFaces()[k];
    CuboidCorners(sizeVec);
    CornerTerms(h, k);
    HalfSizeProduct(sizeVec);
    assert FaceTerm(v, f) == SignedTerm(Corner(h, f.v0), Corner(h, f.v1), Corner(h, f.v2));
  }

  /** CuboidVertices lists the corners of the box from -size/2 to size/2. */
  lemma CuboidCorners(sizeVec: Vec3)
    ensures forall i :: 0 <= i < 8 ==> CuboidVertices(sizeVec)[i] == Corner(Scale(0.5, sizeVec), i)
  {
  }

  /** The summand of triangle k over the box with half sizes h. */
  lemma {:induction false} CornerTerms(h: Vec3, k: int)
    requires 0 <= k < 12
    ensures var f := CuboidFaces()[k];
      SignedTerm(Corner(h, f.v0), Corner(h, f.v1), Corner(h, f.v2)) == 4.0 * (h.x * h.y * h.z)
  {
    if k < 4 {
      CornerTermsA(h, k);
    } else if k < 8 {
      CornerTermsB(h, k);
    } else {
      CornerTermsC(h, k);
    }
  }

  /** The summands of triangles 0 to 3 over the box with half sizes h. */
  lemma {:induction false} CornerTermsA(h: Vec3, k: int)
    requires 0 <= k < 4
    ensures var f := CuboidFaces()[k];
      SignedTerm(Corner(h, f.v0), Corner(h, f.v1), Corner(h, f.v2)) == 4.0 * (h.x * h.y * h.z)
  {
    OutwardTermsA(h.x, h.y, h.z);
  }

  /** The summands of triangles 0 to 3, over corners (+-hx, +-hy, +-hz). */
  lemma {:induction false} OutwardTermsA(hx: real, hy: real, hz: real)
    ensures SignedTerm(Vec3(hx, -hy, -hz), Vec3(-hx, -hy, -hz), Vec3(-hx, hy, -hz)) == 4.0 * (hx * hy * hz)
    ensures SignedTerm(Vec3(hx, -hy, -hz), Vec3(-hx, hy, -hz), Vec3(hx, hy, -hz)) == 4.0 * (hx * hy * hz)
    ensures SignedTerm(Vec3(-hx, hy, -hz), Vec3(hx, hy, hz), Vec3(hx, hy, -hz)) == 4.0 * (hx * hy * hz)
    ensures SignedTerm(Vec3(-hx, hy, -hz), Vec3(-hx, hy, hz), Vec3(hx, hy, hz)) == 4.0 * (hx * hy * hz)
  {
    SignedTermIsTripleProduct(Vec3(hx, -hy, -hz), Vec3(-hx, -hy, -hz), Vec3(-hx, hy, -hz));
    SignedTermIsTripleProduct(Vec3(hx, -hy, -hz), Vec3(-hx, hy, -hz), Vec3(hx, hy, -hz));
    SignedTermIsTripleProduct(Vec3(-hx, hy, -hz), Vec3(hx, hy, hz), Vec3(hx, hy, -hz));
    SignedTermIsTripleProduct(Vec3(-hx, hy, -hz), Vec3(-hx, hy, hz), Vec3(hx, hy, hz));
  }

  /** The summands of triangles 4 to 7 over the box with half sizes h. */
  lemma {:induction false} CornerTermsB(h: Vec3, k: int)
    requires 4 <= k < 8
    ensures var f := CuboidFaces()[k];
      SignedTerm(Corner(h, f.v0), Corner(h, f.v1), Corner(h, f.v2)) == 4.0 * (h.x * h.y * h.z)
  {
    OutwardTermsB(h.x, h.y, h.z);
  }

  /** The summands of triangles 4 to 7, over corners (+-hx, +-hy, +-hz). */
  lemma {:induction false} OutwardTermsB(hx: real, hy: real, hz: real)
    ensures SignedTerm(Vec3(hx, -hy, hz), Vec3(-hx, -hy, hz), Vec3(-hx, -hy, -hz)) == 4.0 * (hx * hy * hz)
    ensures SignedTerm(Vec3(hx, -hy, hz), Vec3(-hx, hy, hz), Vec3(-hx, -hy, hz)) == 4.0 * (hx * hy * hz)
    ensures SignedTerm(Vec3(hx, -hy, -hz), Vec3(hx, hy, -hz), Vec3(hx, hy, hz)) == 4.0 * (hx * hy * hz)
    ensures SignedTerm(Vec3(hx, -hy, -hz), Vec3(hx, hy, hz), Vec3(hx, -hy, hz)) == 4.0 * (hx * hy * hz)
  {
    SignedTermIsTripleProduct(Vec3(hx, -hy, hz), Vec3(-hx, -hy, hz), Vec3(-hx, -hy, -hz));
    SignedTermIsTripleProduct(Vec3(hx, -hy, hz), Vec3(-hx, hy, hz), Vec3(-hx, -hy, hz));
    SignedTermIsTripleProduct(Vec3(hx, -hy, -hz), Vec3(hx, hy, -hz), Vec3(hx, hy, hz));
    SignedTermIsTripleProduct(Vec3(hx, -hy, -hz), Vec3(hx, hy, hz), Vec3(hx, -hy, hz));
  }

  /** The summands of triangles 8 to 11 over the box with half sizes h. */
  lemma {:induction false} CornerTermsC(h: Vec3, k: int)
    requires 8 <= k < 12
    ensures var f := CuboidFaces()[k];
      SignedTerm(Corner(h, f.v0), Corner(h, f.v1), Corner(h, f.v2)) == 4.0 * (h.x * h.y * h.z)
  {
    OutwardTermsC(h.x, h.y, h.z);
  }

  /** The summands of triangles 8 to 11, over corners (+-hx, +-hy, +-hz). */
  lemma {:induction false} OutwardTermsC(hx: real, hy: real, hz: real)
    ensures SignedTerm(Vec3(-hx, -hy, -hz), Vec3(hx, -hy, -hz), Vec3(hx, -hy, hz)) == 4.0 * (hx * hy * hz)
    ensures SignedTerm(Vec3(hx, -hy, hz), Vec3(hx, hy, hz), Vec3(-hx, hy, hz)) == 4.0 * (hx * hy * hz)
    ensures SignedTerm(Vec3(-hx, -hy, hz), Vec3(-hx, hy, hz), Vec3(-hx, -hy, -hz)) == 4.0 * (hx * hy * hz)
    ensures SignedTerm(Vec3(-hx, -hy, -hz), Vec3(-hx, hy, hz), Vec3(-hx, hy, -hz)) == 4.0 * (hx * hy * hz)
  {
    SignedTermIsTripleProduct(Vec3(-hx, -hy, -hz), Vec3(hx, -hy, -hz), Vec3(hx, -hy, hz));
    SignedTermIsTripleProduct(Vec3(hx, -hy, hz), Vec3(hx, hy, hz), Vec3(-hx, hy, hz));
    SignedTermIsTripleProduct(Vec3(-hx, -hy, hz), Vec3(-hx, hy, hz), Vec3(-hx, -hy, -hz));
    SignedTermIsTripleProduct(Vec3(-hx, -hy, -hz), Vec3(-hx, hy, hz), Vec3(-hx, hy, -hz));
  }

  /** Four times the product of the half sizes is half the product of the sizes. */
  lemma HalfSizeProduct(sizeVec: Vec3)
    ensures var h := Scale(0.5, sizeVec); 4.0 * (h.x * h.y * h.z) == 0.5 * (sizeVec.x * sizeVec.y * sizeVec.z)
  {
  }

  /** When every triangle contributes the same summand t, the sum is the
      number of triangles times t. */
  lemma {:induction false} VolumeSumConstant(ver: seq<Vec3>, faces: seq<Face>, t: real)
    requires ValidFaces(faces, |ver|)
    requires forall k :: 0 <= k < |faces| ==> FaceTerm(ver, faces[k]) == t
    ensures VolumeSum(ver, faces) == |faces| as real * t
  {
    if |faces| > 0 {
      var init, last := faces[..|faces| - 1], faces[|faces| - 1];
      assert forall k :: 0 <= k < |init| ==> init[k] == faces[k];
      VolumeSumConstant(ver, init, t);
      assert VolumeSum(ver, faces) == VolumeSum(ver, init) + FaceTerm(ver, last);
      MultipleStep(|init|, t);
    }
  }

  /** n copies of t and one more are n + 1 copies. */
  lemma MultipleStep(n: nat, t: real)
    ensures n as real * t + t == (n + 1) as real * t
  {
  }

  /** The cuboid's signed volume is sx * sy * sz, so a cuboid of positive
      size, whose triangles all wind outwards, has positive volume. */
  lemma {:induction false} CuboidVolume(sizeVec: Vec3)
    ensures Volume(CuboidVertices(sizeVec), CuboidFaces()) == sizeVec.x * sizeVec.y * sizeVec.z
    ensures sizeVec.x > 0.0 && sizeVec.y > 0.0 && sizeVec.z > 0.0 ==> Volume(CuboidVertices(sizeVec), CuboidFaces()) > 0.0
  {
    var p := sizeVec.x * sizeVec.y * sizeVec.z;
    forall k | 0 <= k < 12
      ensures FaceTerm(CuboidVertices(sizeVec), CuboidFaces()[k]) == 0.5 * p
    {
      CuboidFaceTerm(sizeVec, k);
    }
    VolumeSumConstant(CuboidVertices(sizeVec), CuboidFaces(), 0.5 * p);
    if sizeVec.x > 0.0 && sizeVec.y > 0.0 && sizeVec.z > 0.0 {
      assert sizeVec.x * sizeVec.y > 0.0;
    }
  }

  /* -------------------------------------------------------- circle samples */

  /** The angle of sample i of n around a circle: i * 2 * M_PI / n. */
  function RingAngle(i: int, n: int): real
    requires n > 0
  {
    (i as real) * 2.0 * Pi / (n as real)
  }

  /** Sample i of n on the circle of radius `radius` around the x axis, in
      the plane at abscissa `x`. */
  function RingPoint(x: real, radius: real, i: int, n: int, trig: Trig): Vec3
    requires n > 0
  {
    var beta := RingAngle(i, n);
    Vec3(x, radius * trig.cos(beta), radius * trig.sin(beta))
  }

  /** The n samples of one circle, in sampling order. */
  function Ring(x: real, radius: real, n: nat, trig: Trig): (r: seq<Vec3>)
    ensures |r| == n
    ensures forall i :: 0 <= i < n ==> r[i].x == x
  {
    seq(n, i requires 0 <= i < n => RingPoint(x, radius, i, n, trig))
  }

  /** Where the cosine and sine agree with the unit circle, a sample lies at
      distance `radius` from the x axis. */
  lemma {:induction false} RingPointOnCircle(x: real, radius: real, i: int, n: int, trig: Trig)
    requires n > 0 && UnitCircleAt(trig, RingAngle(i, n))
    ensures var p := RingPoint(x, radius, i, n, trig);
      p.y * p.y + p.z * p.z == radius * radius
  {
    var c, s := trig.cos(RingAngle(i, n)), trig.sin(RingAngle(i, n));
    assert (radius * c) * (radius * c) + (radius * s) * (radius * s) == radius * radius * (c * c + s * s);
  }

  lemma ModOfSmall(x: int, m: int)
    requires 0 <= x < m
    ensures x % m == x
  {
  }

  lemma ModOfSelf(m: int)
    requires m > 0
    ensures m % m == 0
  {
  }

  lemma ModOfShifted(x: int, m: int)
    requires m <= x < 2 * m
    ensures x % m == x - m
  {
  }

  /** i + 1 modulo n, for a sample index i of n: the next sample around. */
  lemma NextSample(i: int, n: int)
    requires 0 <= i < n
    ensures (i + 1) % n == if i + 1 < n then i + 1 else 0
  {
  }

  /* -------------------------------------------------------------- cylinder */

  /** CreateCylinder(length, radius, radSamp): the right rim (x = +length/2),
      the left rim (x = -length/2), then the right and the left cap centre. */
  function CylinderVertices(length: real, radius: real, n: nat, trig: Trig): (r: seq<Vec3>)
    ensures |r| == 2 * n + 2
    ensures r[2 * n] == Vec3(0.5 * length, 0.0, 0.0)
    ensures r[2 * n + 1] == Vec3(-0.5 * length, 0.0, 0.0)
    ensures forall i :: 0 <= i < n ==> r[i].x == 0.5 * length
    ensures forall i :: n <= i < 2 * n ==> r[i].x == -0.5 * length
  {
    var h := 0.5 * length;
    Ring(h, radius, n, trig) + Ring(-h, radius, n, trig) + [Vec3(h, 0.0, 0.0), Vec3(-h, 0.0, 0.0)]
  }

  /** The left rim is the right rim shifted along the axis: vertex n+i has
      the y and z of vertex i. */
  lemma {:induction false} CylinderRimsMirror(length: real, radius: real, n: nat, trig: Trig, i: int)
    requires 0 <= i < n
    ensures var v := CylinderVertices(length, radius, n, trig);
      v[n + i].y == v[i].y && v[n + i].z == v[i].z
  {
    var h := 0.5 * length;
    var v := CylinderVertices(length, radius, n, trig);
    assert v[i] == RingPoint(h, radius, i, n, trig);
    assert v[n + i] == RingPoint(-h, radius, i, n, trig);
  }

  /** Every rim vertex of the cylinder is at distance `radius` from its axis,
      wherever the cosine and sine agree with the unit circle. */
  lemma {:induction false} CylinderRimOnCircle(length: real, radius: real, n: nat, trig: Trig, k: int)
    requires 0 <= k < 2 * n
    requires UnitCircleAt(trig, RingAngle(k % n, n))
    ensures var p := CylinderVertices(length, radius, n, trig)[k];
      p.y * p.y + p.z * p.z == radius * radius
  {
    var h := 0.5 * length;
    var v := CylinderVertices(length, radius, n, trig);
    if k < n {
      ModOfSmall(k, n);
      assert v[k] == RingPoint(h, radius, k, n, trig);
      RingPointOnCircle(h, radius, k, n, trig);
    } else {
      ModOfShifted(k, n);
      assert v[k] == RingPoint(-h, radius, k - n, n, trig);
      RingPointOnCircle(-h, radius, k - n, n, trig);
    }
  }

  /** The four triangles of iteration i of the cylinder's face loop: the two
      halves of the side quad between samples i and i+1, the right cap's fan
      triangle and the left cap's. */
  function CylinderFace(n: int, i: int, t: int): Face
    requires n > 0
  {
    var i1 := i;
    var j1 := (i + 1) % n;
    var i2 := i + n;
    var j2 := j1 + n;
    if t == 0 then Face(i1, j2, j1)
    else if t == 1 then Face(i2, j2, i1)
    else if t == 2 then Face(i1, j1, 2 * n)
    else Face(j2, i2, 2 * n + 1)
  }

  /** The triangles of iterations 0 .. m-1 of the cylinder's face loop. */
  function CylinderFacesUpTo(n: nat, m: int): (r: seq<Face>)
    requires n > 0
    ensures |r| == (if m <= 0 then 0 else 4 * m)
    decreases m
  {
    if m <= 0 then []
    else CylinderFacesUpTo(n, m - 1) + [CylinderFace(n, m - 1, 0), CylinderFace(n, m - 1, 1),
                                        CylinderFace(n, m - 1, 2), CylinderFace(n, m - 1, 3)]
  }

  /** Triangle k of the loop is triangle k % 4 of iteration k / 4. */
  lemma {:induction false} CylinderFaceAt(n: nat, m: int, k: int)
    requires n > 0 && 0 <= k < 4 * m
    ensures CylinderFacesUpTo(n, m)[k] == CylinderFace(n, k / 4, k % 4)
    decreases m
  {
    if k < 4 * (m - 1) {
      CylinderFaceAt(n, m - 1, k);
    }
  }

  /** The 4n triangles of the cylinder, in the order the loop emits them. */
  function CylinderFaces(n: nat): (r: seq<Face>)
    ensures |r| == 4 * n
    ensures ValidFaces(r, 2 * n + 2)
  {
    if n == 0 then []
    else
      var r := CylinderFacesUpTo(n, n);
      assert forall k :: 0 <= k < 4 * n ==> FaceIn(r[k], 2 * n + 2) by {
        forall k | 0 <= k < 4 * n
          ensures FaceIn(r[k], 2 * n + 2)
        {
          CylinderFaceAt(n, n, k);
          NextSample(k / 4, n);
        }
      }
      r
  }

  /** Every triangle of the cylinder has three different corners once there
      are at least two samples, and exactly the cap triangles use a centre. */
  lemma {:induction false} CylinderFacesShape(n: nat)
    requires n >= 2
    ensures forall k :: 0 <= k < 4 * n ==> NonDegenerate(CylinderFaces(n)[k])
    ensures forall k :: 0 <= k < 4 * n ==>
      (HasCorner(CylinderFaces(n)[k], 2 * n) <==> k % 4 == 2) &&
      (HasCorner(CylinderFaces(n)[k], 2 * n + 1) <==> k % 4 == 3)
  {
    forall k | 0 <= k < 4 * n
      ensures NonDegenerate(CylinderFaces(n)[k])
      ensures HasCorner(CylinderFaces(n)[k], 2 * n) <==> k % 4 == 2
      ensures HasCorner(CylinderFaces(n)[k], 2 * n + 1) <==> k % 4 == 3
    {
      NextSample(k / 4, n);
      CylinderFaceAt(n, n, k);
    }
  }

  /* ---------------------------------------------------------------- sphere */

  /** polarSamp = radSamp / 2 (a non-negative count, so truncation and floor
      agree). */
  function PolarSamples(n: nat): nat {
    n / 2
  }

  /** midNum = (polarSamp - 1) * azimuSamp: the index of the north pole. */
  function MidNum(n: nat): int {
    (PolarSamples(n) - 1) * n
  }

  /** Sample j of ring i (1 <= i < polarSamp) of the sphere: polar angle
      M_PI_2 - M_PI * i / polarSamp, azimuth j * 2 * M_PI / n. */
  function SpherePoint(radius: real, n: nat, i: int, j: int, trig: Trig): Vec3
    requires n >= 2
  {
    var alpha := Pi / 2.0 - Pi * (i as real) / (PolarSamples(n) as real);
    var beta := RingAngle(j, n);
    Vec3(radius * trig.cos(alpha) * trig.cos(beta),
         radius * trig.cos(alpha) * trig.sin(beta),
         radius * trig.sin(alpha))
  }

  /** Rings 1 .. m of the sphere, n samples each. */
  function SphereRings(radius: real, n: nat, m: int, trig: Trig): (r: seq<Vec3>)
    requires n >= 2
    ensures |r| == (if m <= 0 then 0 else m * n)
    decreases m
  {
    if m <= 0 then []
    else SphereRings(radius, n, m - 1, trig) + seq(n, j requires 0 <= j < n => SpherePoint(radius, n, m, j, trig))
  }

  /** CreateSphere(radius, radSamp): the rings, then the north and the south
      pole. */
  function SphereVertices(radius: real, n: nat, trig: Trig): (r: seq<Vec3>)
    ensures n >= 2 ==> |r| == MidNum(n) + 2
    ensures n < 2 ==> |r| == 2
    ensures r[|r| - 2] == Vec3(0.0, 0.0, radius) && r[|r| - 1] == Vec3(0.0, 0.0, -radius)
  {
    var poles := [Vec3(0.0, 0.0, radius), Vec3(0.0, 0.0, -radius)];
    if n < 2 then poles else SphereRings(radius, n, PolarSamples(n) - 1, trig) + poles
  }

  /** Where the cosine and sine agree with the unit circle at its two angles, a
      ring sample lies at distance `radius` from the centre. */
  lemma {:induction false} SpherePointOnSphere(radius: real, n: nat, i: int, j: int, trig: Trig)
    requires n >= 2
    requires UnitCircleAt(trig, Pi / 2.0 - Pi * (i as real) / (PolarSamples(n) as real))
    requires UnitCircleAt(trig, RingAngle(j, n))
    ensures NormSq(SpherePoint(radius, n, i, j, trig)) == radius * radius
  {
    var ca, sa := trig.cos(Pi / 2.0 - Pi * (i as real) / (PolarSamples(n) as real)),
                  trig.sin(Pi / 2.0 - Pi * (i as real) / (PolarSamples(n) as real));
    var cb, sb := trig.cos(RingAngle(j, n)), trig.sin(RingAngle(j, n));
    var rc := radius * ca;
    assert (rc * cb) * (rc * cb) + (rc * sb) * (rc * sb) == rc * rc * (cb * cb + sb * sb);
    assert rc * rc == radius * radius * (ca * ca);
    assert radius * radius * (ca * ca) + (radius * sa) * (radius * sa) == radius * radius * (ca * ca + sa * sa);
  }

  /** The top fan: pole midNum with consecutive samples of the first ring. */
  function SphereTop(n: nat): (r: seq<Face>)
    ensures |r| == n
  {
    seq(n, j requires 0 <= j < n => Face(MidNum(n), j, (j + 1) % n))
  }

  /** Triangle t of the quad j of the band between rings i and i+1. */
  function SphereBandFace(n: nat, i: int, j: int, t: int): Face
    requires n > 0
  {
    var i1 := (i - 1) * n + j;
    var j1 := (i - 1) * n + (j + 1) % n;
    var i2 := i * n + j;
    var j2 := i * n + (j + 1) % n;
    if t == 0 then Face(i1, i2, j1) else Face(i2, j2, j1)
  }

  /** The triangles of quads 0 .. m-1 of band i. */
  function SphereBandUpTo(n: nat, i: int, m: int): (r: seq<Face>)
    requires n > 0
    ensures |r| == (if m <= 0 then 0 else 2 * m)
    decreases m
  {
    if m <= 0 then []
    else SphereBandUpTo(n, i, m - 1) + [SphereBandFace(n, i, m - 1, 0), SphereBandFace(n, i, m - 1, 1)]
  }

  /** Triangle k of the band is triangle k % 2 of quad k / 2. */
  lemma {:induction false} SphereBandFaceAt(n: nat, i: int, m: int, k: int)
    requires n > 0 && 0 <= k < 2 * m
    ensures SphereBandUpTo(n, i, m)[k] == SphereBandFace(n, i, k / 2, k % 2)
    decreases m
  {
    if k < 2 * (m - 1) {
      SphereBandFaceAt(n, i, m - 1, k);
    }
  }

  /** The 2n triangles of band i, in loop order. */
  function SphereBand(n: nat, i: int): (r: seq<Face>)
    ensures |r| == 2 * n
  {
    if n == 0 then [] else SphereBandUpTo(n, i, n)
  }

  /** Bands 1 .. m-1 (the middle loop runs i = 1 .. polarSamp-2). */
  function SphereMiddle(n: nat, m: int): (r: seq<Face>)
    ensures |r| == (if m <= 1 then 0 else 2 * n * (m - 1))
    decreases m
  {
    if m <= 1 then [] else SphereMiddle(n, m - 1) + SphereBand(n, m - 1)
  }

  /** The bottom fan: pole midNum+1 with the last ring, wound the other way. */
  function SphereBottom(n: nat): (r: seq<Face>)
    ensures |r| == n
  {
    var mid := MidNum(n);
    seq(n, j requires 0 <= j < n => Face(mid + 1, mid - n + (j + 1) % n, mid - n + j))
  }

  function SphereFaces(n: nat): seq<Face> {
    SphereTop(n) + SphereMiddle(n, PolarSamples(n) - 1) + SphereBottom(n)
  }

  lemma MulMono(a: int, b: int, n: int)
    requires a <= b && 0 <= n
    ensures a * n <= b * n
  {
  }

  /** Every face of band i (1 <= i <= polarSamp-2) indexes a ring vertex. */
  lemma {:induction false} SphereBandValid(n: nat, i: int)
    requires n >= 4 && 1 <= i <= PolarSamples(n) - 2
    ensures ValidFaces(SphereBand(n, i), MidNum(n))
  {
    var b := SphereBand(n, i);
    MulMono(i + 1, PolarSamples(n) - 1, n);
    MulMono(0, i - 1, n);
    assert (i - 1) * n + n == i * n;
    assert i * n + n == (i + 1) * n;
    forall k | 0 <= k < 2 * n
      ensures FaceIn(b[k], MidNum(n))
    {
      SphereBandFaceAt(n, i, n, k);
      NextSample(k / 2, n);
    }
  }

  lemma {:induction false} SphereMiddleValid(n: nat, m: int)
    requires n >= 4 && m <= PolarSamples(n) - 1
    ensures ValidFaces(SphereMiddle(n, m), MidNum(n))
    decreases m
  {
    if m > 1 {
      SphereMiddleValid(n, m - 1);
      SphereBandValid(n, m - 1);
    }
  }

  lemma {:induction false} SphereFaceCount(n: nat)
    requires n >= 4
    ensures |SphereFaces(n)| == 2 * n * (PolarSamples(n) - 1)
  {
    var p := PolarSamples(n);
    if p - 1 > 1 {
      assert 2 * n * (p - 2) + 2 * n == 2 * n * (p - 1);
    }
  }

  lemma {:induction false} SphereFacesValid(n: nat)
    requires n >= 4
    ensures ValidFaces(SphereFaces(n), MidNum(n) + 2)
  {
    var p := PolarSamples(n);
    var mid := MidNum(n);
    MulMono(1, p - 1, n);
    assert mid >= n;
    SphereMiddleValid(n, p - 1);
    var top, middle, bottom := SphereTop(n), SphereMiddle(n, p - 1), SphereBottom(n);
    forall k | 0 <= k < n
      ensures FaceIn(top[k], mid + 2) && FaceIn(bottom[k], mid + 2)
    {
      NextSample(k, n);
    }
    var all := SphereFaces(n);
    forall k | 0 <= k < |all|
      ensures FaceIn(all[k], mid + 2)
    {
      if k < n {
        assert all[k] == top[k];
      } else if k < n + |middle| {
        assert all[k] == middle[k - n];
        assert FaceIn(middle[k - n], mid);
      } else {
        assert all[k] == bottom[k - n - |middle|];
      }
    }
  }

  /** For at least four samples (two polar samples), the sphere has
      (polarSamp-1)*n + 2 vertices and 2n(polarSamp-1) triangles, and every
      triangle indexes an existing vertex; the two poles are the last two
      vertices, at indices midNum and midNum+1. */
  lemma {:induction false} SphereTopology(radius: real, n: nat, trig: Trig)
    requires n >= 4
    ensures |SphereVertices(radius, n, trig)| == MidNum(n) + 2
    ensures |SphereFaces(n)| == 2 * n * (PolarSamples(n) - 1)
    ensures ValidFaces(SphereFaces(n), MidNum(n) + 2)
    ensures SphereVertices(radius, n, trig)[MidNum(n)] == Vec3(0.0, 0.0, radius)
    ensures SphereVertices(radius, n, trig)[MidNum(n) + 1] == Vec3(0.0, 0.0, -radius)
  {
    SphereFaceCount(n);
    SphereFacesValid(n);
  }

  /** Below four samples there is no ring (polarSamp <= 1) and only the two
      poles are built, but both fans are still emitted: the bottom fan's first
      triangle names vertex midNum - n, which is negative, and with three
      samples the top fan's triangle (0, 1, 2) names a third vertex that does
      not exist. */
  lemma SmallSphereFacesInvalid(radius: real, n: nat, trig: Trig)
    requires 1 <= n <= 3
    ensures |SphereVertices(radius, n, trig)| == 2
    ensures SphereBottom(n)[0].v2 < 0
    ensures n == 3 ==> SphereTop(n)[1] == Face(0, 1, 2)
    ensures !ValidFaces(SphereFaces(n), 2)
  {
    var faces := SphereFaces(n);
    assert SphereMiddle(n, PolarSamples(n) - 1) == [];
    assert faces[n] == SphereBottom(n)[0];
  }

  /* ------------------------------------------------------------------ cone */

  /** CreateCone(length, radius, radSamp): the base rim in the plane x = 0,
      then the base centre and the apex. */
  function ConeVertices(length: real, radius: real, n: nat, trig: Trig): (r: seq<Vec3>)
    ensures |r| == n + 2
    ensures r[n] == Zero && r[n + 1] == Vec3(length, 0.0, 0.0)
    ensures forall i :: 0 <= i < n ==> r[i].x == 0.0
  {
    Ring(0.0, radius, n, trig) + [Vec3(0.0, 0.0, 0.0), Vec3(length, 0.0, 0.0)]
  }

  /** The two triangles of iteration j: one of the base fan around vertex n and
      one of the side fan around the apex n+1. */
  function ConeFace(n: int, j: int, t: int): Face
    requires n > 0
  {
    if t == 0 then Face(n, (j + 1) % n, j) else Face(n + 1, j, (j + 1) % n)
  }

  /** The 2n triangles of the cone; each contains exactly one of the base
      centre n and the apex n+1. */
  function ConeFaces(n: nat): (r: seq<Face>)
    ensures |r| == 2 * n
    ensures ValidFaces(r, n + 2)
    ensures forall k :: 0 <= k < 2 * n ==> (HasCorner(r[k], n) <==> !HasCorner(r[k], n + 1))
  {
    var r := seq(2 * n, k requires 0 <= k < 2 * n => ConeFace(n, k / 2, k % 2));
    assert forall k :: 0 <= k < 2 * n ==> FaceIn(r[k], n + 2) && (HasCorner(r[k], n) <==> !HasCorner(r[k], n + 1)) by {
      forall k | 0 <= k < 2 * n
        ensures FaceIn(r[k], n + 2) && (HasCorner(r[k], n) <==> !HasCorner(r[k], n + 1))
      {
        NextSample(k / 2, n);
      }
    }
    r
  }

  /* ------------------------------------------------- rectangular surface */

  /** The two triangles of grid cell (i, j), id = i * cols + j. */
  function GridCell(cols: int, i: int, j: int): seq<Face> {
    var id := i * cols + j;
    [Face(id, id + cols, id + 1), Face(id + 1, id + cols, id + cols + 1)]
  }

  /** Cells (i, 0) .. (i, m-1) of row i. */
  function GridCells(cols: int, i: int, m: int): (r: seq<Face>)
    ensures |r| == (if m <= 0 then 0 else 2 * m)
    decreases m
  {
    if m <= 0 then [] else GridCells(cols, i, m - 1) + GridCell(cols, i, m - 1)
  }

  /** Rows 0 .. m-1 of cells, each cols-1 cells long. */
  function GridRows(cols: int, m: int): (r: seq<Face>)
    ensures |r| == (if m <= 0 || cols <= 1 then 0 else 2 * m * (cols - 1))
    decreases m
  {
    if m <= 0 then []
    else
      var r := GridRows(cols, m - 1) + GridCells(cols, m - 1, cols - 1);
      assert m - 1 > 0 && cols > 1 ==> 2 * (m - 1) * (cols - 1) + 2 * (cols - 1) == 2 * m * (cols - 1);
      r
  }

  /** CreateRectangularSurface's triangles: rows-1 by cols-1 cells, each split
      along the diagonal from id+cols to id+1. */
  function GridFaces(rows: int, cols: int): seq<Face> {
    GridRows(cols, rows - 1)
  }

  /** The indices of row i's cells lie between i*cols and (i+1)*cols + m. */
  lemma {:induction false} GridCellsBounds(cols: int, i: int, m: int)
    requires cols >= 2 && i >= 0 && 0 <= m <= cols - 1
    ensures forall k :: 0 <= k < |GridCells(cols, i, m)| ==>
      var f := GridCells(cols, i, m)[k];
      && i * cols <= f.v0 <= (i + 1) * cols + m && i * cols <= f.v1 <= (i + 1) * cols + m
      && i * cols <= f.v2 <= (i + 1) * cols + m
    decreases m
  {
    if m > 0 {
      GridCellsBounds(cols, i, m - 1);
      assert (i + 1) * cols == i * cols + cols;
    }
  }

  lemma {:induction false} GridRowsBounds(cols: int, m: int)
    requires cols >= 2 && m >= 0
    ensures forall k :: 0 <= k < |GridRows(cols, m)| ==>
      var f := GridRows(cols, m)[k];
      0 <= f.v0 < (m + 1) * cols && 0 <= f.v1 < (m + 1) * cols && 0 <= f.v2 < (m + 1) * cols
    decreases m
  {
    if m > 0 {
      GridRowsBounds(cols, m - 1);
      GridCellsBounds(cols, m - 1, cols - 1);
      MulMono(0, m - 1, cols);
      MulMono(m, m + 1, cols);
      assert m * cols + cols - 1 < (m + 1) * cols;
    }
  }

  /** The last triangle of the last row uses vertex rows*cols - 1. */
  lemma {:induction false} GridLastIndex(rows: int, cols: int)
    requires rows >= 2 && cols >= 2
    ensures |GridFaces(rows, cols)| > 0
    ensures GridFaces(rows, cols)[|GridFaces(rows, cols)| - 1].v2 == rows * cols - 1
  {
    var last := GridCells(cols, rows - 2, cols - 1);
    assert GridFaces(rows, cols) == GridRows(cols, rows - 2) + last;
    assert last[|last| - 1] == GridCell(cols, rows - 2, cols - 2)[1];
    assert (rows - 2) * cols + cols - 2 + cols + 1 == rows * cols - 1;
  }

  /** For rows, cols >= 2 the grid has 2(rows-1)(cols-1) triangles with
      indices in [0, rows*cols - 1], so they all index the vertex list
      exactly when it holds at least rows*cols vertices; otherwise there are
      no triangles at all. */
  lemma {:induction false} GridTopology(rows: int, cols: int, verCount: int)
    ensures rows >= 2 && cols >= 2 ==> |GridFaces(rows, cols)| == 2 * (rows - 1) * (cols - 1)
    ensures rows < 2 || cols < 2 ==> |GridFaces(rows, cols)| == 0
    ensures rows >= 2 && cols >= 2 ==> (ValidFaces(GridFaces(rows, cols), verCount) <==> verCount >= rows * cols)
  {
    if rows >= 2 && cols >= 2 {
      var faces := GridFaces(rows, cols);
      GridRowsBounds(cols, rows - 1);
      GridLastIndex(rows, cols);
      if verCount >= rows * cols {
        assert ValidFaces(faces, verCount);
      }
      if ValidFaces(faces, verCount) {
        assert FaceIn(faces[|faces| - 1], verCount);
      }
    }
  }

  /* ------------------------------------------------------------ swept tube */

  /** How many bands of side triangles Create3DCurve emits for a curve of
      ptNum points: all ptNum for "closed" (the last joins ring ptNum-1 to
      ring 0), ptNum-1 for "open", and -1, so none, for any other type. */
  function MaxFaceNum(curveType: string, ptNum: int): int {
    if curveType == "closed" then ptNum
    else if curveType == "open" then ptNum - 1
    else -1
  }

  /** Rings 0 .. m-1 of the tube, `r` points each, where `envelope(i, j)` is
      point j of ring i. */
  function TubeRings(envelope: (int, int) -> Vec3, r: nat, m: int): (res: seq<Vec3>)
    ensures |res| == (if m <= 0 then 0 else m * r)
    decreases m
  {
    if m <= 0 then []
    else TubeRings(envelope, r, m - 1) + seq(r, j requires 0 <= j < r => envelope(m - 1, j))
  }

  /** The tube's vertices: ptNum rings, then for "open" the first and the last
      curve point. */
  function TubeVertices(ptList: seq<Vec3>, r: nat, curveType: string, envelope: (int, int) -> Vec3): (res: seq<Vec3>)
    requires |ptList| >= 2
    ensures |res| == |ptList| * r + (if curveType == "open" then 2 else 0)
  {
    var rings := TubeRings(envelope, r, |ptList|);
    if curveType == "open" then rings + [ptList[0], ptList[|ptList| - 1]] else rings
  }

  /** Triangle t of quad j of band i, between ring i and the ring after it
      (ring 0 after the last one). */
  function TubeBandFace(ptNum: int, r: int, i: int, j: int, t: int): Face
    requires r > 0 && ptNum > 0
  {
    var i1 := i * r;
    var i2 := (i1 + r) % (ptNum * r);
    var j1 := j;
    var j2 := (j + 1) % r;
    if t == 0 then Face(i1 + j1, i2 + j2, i2 + j1) else Face(i1 + j1, i1 + j2, i2 + j2)
  }

  /** The triangles of quads 0 .. m-1 of band i. */
  function TubeBandUpTo(ptNum: int, r: nat, i: int, m: int): (res: seq<Face>)
    requires ptNum > 0 && r > 0
    ensures |res| == (if m <= 0 then 0 else 2 * m)
    decreases m
  {
    if m <= 0 then []
    else TubeBandUpTo(ptNum, r, i, m - 1) + [TubeBandFace(ptNum, r, i, m - 1, 0), TubeBandFace(ptNum, r, i, m - 1, 1)]
  }

  /** Triangle k of band i is triangle k % 2 of quad k / 2. */
  lemma {:induction false} TubeBandFaceAt(ptNum: int, r: nat, i: int, m: int, k: int)
    requires ptNum > 0 && r > 0 && 0 <= k < 2 * m
    ensures TubeBandUpTo(ptNum, r, i, m)[k] == TubeBandFace(ptNum, r, i, k / 2, k % 2)
    decreases m
  {
    if k < 2 * (m - 1) {
      TubeBandFaceAt(ptNum, r, i, m - 1, k);
    }
  }

  /** The 2r triangles joining ring i to the ring after it. */
  function TubeBand(ptNum: int, r: nat, i: int): (res: seq<Face>)
    requires ptNum > 0
    ensures |res| == 2 * r
  {
    if r == 0 then [] else TubeBandUpTo(ptNum, r, i, r)
  }

  /** Bands 0 .. m-1. */
  function TubeBands(ptNum: int, r: nat, m: int): (res: seq<Face>)
    requires ptNum > 0
    ensures |res| == (if m <= 0 then 0 else 2 * m * r)
    decreases m
  {
    if m <= 0 then [] else TubeBands(ptNum, r, m - 1) + TubeBand(ptNum, r, m - 1)
  }

  /** The open tube's end caps as written: iteration j emits the start cap's
      triangle around vertex ptNum*r and then a triangle that fans from ring
      vertex (ptNum-1)*r. */
  function TubeCapFace(ptNum: int, r: int, j: int, t: int): Face
    requires r > 0
  {
    var j1 := j;
    var j2 := (j + 1) % r;
    if t == 0 then Face(ptNum * r, j2, j1)
    else
      var i := (ptNum - 1) * r;
      Face(i, i + j1, i + j2)
  }

  /** The cap triangles of iterations 0 .. m-1. */
  function TubeCapsUpTo(ptNum: int, r: nat, m: int): (res: seq<Face>)
    requires r > 0
    ensures |res| == (if m <= 0 then 0 else 2 * m)
    decreases m
  {
    if m <= 0 then []
    else TubeCapsUpTo(ptNum, r, m - 1) + [TubeCapFace(ptNum, r, m - 1, 0), TubeCapFace(ptNum, r, m - 1, 1)]
  }

  /** Cap triangle k is triangle k % 2 of iteration k / 2. */
  lemma {:induction false} TubeCapFaceAt(ptNum: int, r: nat, m: int, k: int)
    requires r > 0 && 0 <= k < 2 * m
    ensures TubeCapsUpTo(ptNum, r, m)[k] == TubeCapFace(ptNum, r, k / 2, k % 2)
    decreases m
  {
    if k < 2 * (m - 1) {
      TubeCapFaceAt(ptNum, r, m - 1, k);
    }
  }

  /** The 2r triangles of the open tube's cap loop. */
  function TubeCaps(ptNum: int, r: nat): (res: seq<Face>)
    ensures |res| == 2 * r
  {
    if r == 0 then [] else TubeCapsUpTo(ptNum, r, r)
  }

  /** Create3DCurve's triangles: the side bands, then for "open" the caps. */
  function TubeFaces(ptNum: int, r: nat, curveType: string): seq<Face>
    requires ptNum > 0
  {
    TubeBands(ptNum, r, MaxFaceNum(curveType, ptNum)) + (if curveType == "open" then TubeCaps(ptNum, r) else [])
  }

  /** The ring after ring i: ((i+1)*r) mod (ptNum*r) is (i+1)*r, or 0 after
      the last ring. */
  lemma {:induction false} NextRing(ptNum: int, r: int, i: int)
    requires r > 0 && 0 <= i < ptNum
    ensures (i * r + r) % (ptNum * r) == if i + 1 < ptNum then (i + 1) * r else 0
  {
    assert i * r + r == (i + 1) * r;
    if i + 1 < ptNum {
      MulMono(i + 2, ptNum, r);
      assert (i + 1) * r < ptNum * r;
      MulMono(0, i + 1, r);
      ModOfSmall((i + 1) * r, ptNum * r);
    } else {
      ModOfSelf(ptNum * r);
    }
  }

  /** Ring i and the ring after it both start at least r below ptNum*r. */
  lemma {:induction false} TubeRingStarts(ptNum: int, r: nat, i: int)
    requires ptNum > 0 && r > 0 && 0 <= i < ptNum
    ensures 0 <= i * r && i * r + r <= ptNum * r
    ensures 0 <= (i * r + r) % (ptNum * r) && (i * r + r) % (ptNum * r) + r <= ptNum * r
  {
    NextRing(ptNum, r, i);
    MulMono(0, i, r);
    MulMono(i + 1, ptNum, r);
    if i + 1 < ptNum {
      MulMono(i + 2, ptNum, r);
      MulMono(0, i + 1, r);
      assert (i + 1) * r + r == (i + 2) * r;
    }
  }

  /** Band i's indices stay below ptNum*r: the modulo joins the last ring to
      ring 0 rather than to a ring past the end. */
  lemma {:induction false} TubeBandValid(ptNum: int, r: nat, i: int)
    requires ptNum > 0 && r > 0 && 0 <= i < ptNum
    ensures ValidFaces(TubeBand(ptNum, r, i), ptNum * r)
  {
    TubeRingStarts(ptNum, r, i);
    forall k | 0 <= k < 2 * r
      ensures FaceIn(TubeBand(ptNum, r, i)[k], ptNum * r)
    {
      TubeBandFaceAt(ptNum, r, i, r, k);
      NextSample(k / 2, r);
    }
  }

  lemma {:induction false} TubeBandsValid(ptNum: int, r: nat, m: int)
    requires ptNum > 0 && r > 0 && m <= ptNum
    ensures ValidFaces(TubeBands(ptNum, r, m), ptNum * r)
    decreases m
  {
    if m > 0 {
      TubeBandsValid(ptNum, r, m - 1);
      TubeBandValid(ptNum, r, m - 1);
    }
  }

  /** As written, the end cap's first triangle has a repeated corner: with
      j = 0 it is (i, i + 0, i + 1) for i = (ptNum-1)*r, and the end point's
      index ptNum*r + 1 never appears (see TubeTopology). */
  lemma {:induction false} TubeEndCapDegenerate(ptNum: int, r: nat)
    requires r > 0
    ensures TubeCaps(ptNum, r)[1] == Face((ptNum - 1) * r, (ptNum - 1) * r, (ptNum - 1) * r + 1 % r)
    ensures !NonDegenerate(TubeCaps(ptNum, r)[1])
  {
    TubeCapFaceAt(ptNum, r, r, 1);
  }

  /** The end cap as the start cap is built: a fan around the end point's
      vertex ptNum*r + 1 over the last ring, wound the other way. */
  function CorrectedTubeCapFace(ptNum: int, r: int, j: int, t: int): Face
    requires r > 0
  {
    var j1 := j;
    var j2 := (j + 1) % r;
    if t == 0 then Face(ptNum * r, j2, j1)
    else
      var i := (ptNum - 1) * r;
      Face(ptNum * r + 1, i + j1, i + j2)
  }

  function CorrectedTubeCaps(ptNum: int, r: nat): (res: seq<Face>)
    ensures |res| == 2 * r
  {
    seq(2 * r, k requires 0 <= k < 2 * r => if r > 0 then CorrectedTubeCapFace(ptNum, r, k / 2, k % 2) else Face(0, 0, 0))
  }

  /** The open tube's triangles with the corrected end cap. */
  function CorrectedTubeFaces(ptNum: int, r: nat, curveType: string): seq<Face>
    requires ptNum > 0
  {
    TubeBands(ptNum, r, MaxFaceNum(curveType, ptNum)) + (if curveType == "open" then CorrectedTubeCaps(ptNum, r) else [])
  }

  /** With the corrected end cap every cap triangle has three different
      corners once a ring has two samples, even triangles fan around the
      start point and odd ones around the end point, and all of them index
      the ptNum*r + 2 vertices of the open tube. */
  lemma {:induction false} CorrectedTubeCapsShape(ptNum: int, r: nat)
    requires ptNum >= 2 && r >= 2
    ensures ValidFaces(CorrectedTubeCaps(ptNum, r), ptNum * r + 2)
    ensures forall k :: 0 <= k < 2 * r ==> NonDegenerate(CorrectedTubeCaps(ptNum, r)[k])
    ensures forall k :: 0 <= k < 2 * r ==>
      (HasCorner(CorrectedTubeCaps(ptNum, r)[k], ptNum * r) <==> k % 2 == 0) &&
      (HasCorner(CorrectedTubeCaps(ptNum, r)[k], ptNum * r + 1) <==> k % 2 == 1)
  {
    var caps := CorrectedTubeCaps(ptNum, r);
    MulMono(0, ptNum - 1, r);
    assert (ptNum - 1) * r + r == ptNum * r;
    forall k | 0 <= k < 2 * r
      ensures FaceIn(caps[k], ptNum * r + 2) && NonDegenerate(caps[k])
      ensures (HasCorner(caps[k], ptNum * r) <==> k % 2 == 0) &&
              (HasCorner(caps[k], ptNum * r + 1) <==> k % 2 == 1)
    {
      NextSample(k / 2, r);
    }
  }

  /** The corrected open tube indexes exactly its vertex list: every index
      is below ptNum*r + 2, and both end points are used. */
  lemma {:induction false} CorrectedTubeOpenValid(ptList: seq<Vec3>, r: nat, envelope: (int, int) -> Vec3)
    requires |ptList| >= 2 && r >= 2
    ensures ValidFaces(CorrectedTubeFaces(|ptList|, r, "open"), |TubeVertices(ptList, r, "open", envelope)|)
    ensures exists k :: (0 <= k < |CorrectedTubeFaces(|ptList|, r, "open")| &&
                         HasCorner(CorrectedTubeFaces(|ptList|, r, "open")[k], |ptList| * r + 1))
  {
    var ptNum := |ptList|;
    var bands := TubeBands(ptNum, r, ptNum - 1);
    var caps := CorrectedTubeCaps(ptNum, r);
    TubeBandsValid(ptNum, r, ptNum - 1);
    ValidFacesMono(bands, ptNum * r, ptNum * r + 2);
    CorrectedTubeCapsShape(ptNum, r);
    ValidFacesConcat(bands, caps, ptNum * r + 2);
    assert (bands + caps)[|bands| + 1] == caps[1];
  }

  /** 2*ptNum*r triangles for "closed" and for "open" alike (the open tube
      has one band fewer and the caps instead), none for any other type. */
  lemma {:induction false} TubeFaceCount(ptNum: int, r: nat, curveType: string)
    requires ptNum >= 2
    ensures curveType == "closed" || curveType == "open" ==> |TubeFaces(ptNum, r, curveType)| == 2 * ptNum * r
    ensures curveType != "closed" && curveType != "open" ==> |TubeFaces(ptNum, r, curveType)| == 0
  {
    if curveType == "open" {
      assert 2 * (ptNum - 1) * r + 2 * r == 2 * ptNum * r;
    }
  }

  /** Every cap triangle indexes ring 0, the last ring or the start point. */
  lemma {:induction false} TubeCapsValid(ptNum: int, r: nat)
    requires ptNum >= 2
    ensures ValidFaces(TubeCaps(ptNum, r), ptNum * r + 1)
  {
    if r > 0 {
      var caps := TubeCaps(ptNum, r);
      MulMono(0, ptNum - 1, r);
      assert (ptNum - 1) * r + r == ptNum * r;
      forall k | 0 <= k < |caps|
        ensures FaceIn(caps[k], ptNum * r + 1)
      {
        TubeCapFaceAt(ptNum, r, r, k);
        NextSample(k / 2, r);
      }
    }
  }

  /** The open tube's triangles index the rings and the start point only:
      every index stays below ptNum*r + 1. */
  lemma {:induction false} TubeOpenValid(ptNum: int, r: nat)
    requires ptNum >= 2
    ensures ValidFaces(TubeFaces(ptNum, r, "open"), ptNum * r + 1)
  {
    if r > 0 {
      var bands := TubeBands(ptNum, r, ptNum - 1);
      TubeBandsValid(ptNum, r, ptNum - 1);
      assert ValidFaces(bands, ptNum * r + 1);
      TubeCapsValid(ptNum, r);
      ValidFacesConcat(bands, TubeCaps(ptNum, r), ptNum * r + 1);
    }
  }

  /** The tube has ptNum*r vertices, plus 2 when open, and 2*ptNum*r triangles
      for "closed" and for "open" alike, but none for any other type. Closed,
      every index stays below ptNum*r; open, every index stays below
      ptNum*r + 1, so the end point at index ptNum*r + 1 is never used. */
  lemma {:induction false} TubeTopology(ptNum: int, r: nat, curveType: string)
    requires ptNum >= 2
    ensures curveType == "closed" || curveType == "open" ==> |TubeFaces(ptNum, r, curveType)| == 2 * ptNum * r
    ensures curveType != "closed" && curveType != "open" ==> |TubeFaces(ptNum, r, curveType)| == 0
    ensures curveType == "closed" ==> ValidFaces(TubeFaces(ptNum, r, curveType), ptNum * r)
    ensures curveType == "open" ==> ValidFaces(TubeFaces(ptNum, r, curveType), ptNum * r + 1)
    ensures forall k :: 0 <= k < |TubeFaces(ptNum, r, curveType)| ==> !HasCorner(TubeFaces(ptNum, r, curveType)[k], ptNum * r + 1)
  {
    TubeFaceCount(ptNum, r, curveType);
    var faces := TubeFaces(ptNum, r, curveType);
    if curveType == "closed" {
      if r > 0 {
        TubeBandsValid(ptNum, r, ptNum);
        assert faces == TubeBands(ptNum, r, ptNum) + [];
      }
    } else if curveType == "open" {
      TubeOpenValid(ptNum, r);
    } else {
      assert |faces| == 0;
    }
    forall k | 0 <= k < |faces|
      ensures !HasCorner(faces[k], ptNum * r + 1)
    {
      assert FaceIn(faces[k], ptNum * r + 1);
    }
  }
}
