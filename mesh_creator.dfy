/** The generators of MeshCreator.cpp. Each one appends vertices and triangles
    to two growing lists in the same loops as the C++ code and then builds a
    Mesh from them; each is proved to build exactly the lists that MeshShapes
    describes. The placed overloads build the canonical shape and then move it
    with Mesh.Transform. A generator whose `reserve` is given a negative size
    throws instead, and returns nothing. */
module MeshCreator {
  import opened Geometry
  import opened HelpDefine
  import opened HelpFunc
  import opened Meshes
  import opened MeshShapes

  /** What a generator gives back: what it built, or the std::length_error
      that one of its `reserve` calls throws, which ends the call. */
  datatype Outcome<T> = Built(value: T) | LengthError

  /** `std::vector::reserve` takes a size_t, so a negative int argument
      becomes a size above max_size() and reserve throws std::length_error.
      Any other argument only sets the capacity, which no list shows. */
  predicate ReserveThrows(n: int) {
    n < 0
  }

  /** A product is negative exactly when its factors have opposite signs. */
  lemma ProductNegative(a: int, b: int)
    ensures a * b < 0 <==> (a < 0 && b > 0) || (a > 0 && b < 0)
  {
  }

  /** Appending two elements one at a time appends the pair. */
  lemma AppendTwo<T>(a: seq<T>, x: T, y: T)
    ensures a + [x] + [y] == a + [x, y]
  {
  }

  /** Appending four elements one at a time appends the four. */
  lemma AppendFour<T>(a: seq<T>, x: T, y: T, z: T, w: T)
    ensures a + [x] + [y] + [z] + [w] == a + [x, y, z, w]
  {
  }

  /** CreateCuboid(sizeVec): eight corners at +-size/2 and the fixed table of
      twelve triangles. */
  method CreateCuboid(sizeVec: Vec3) returns (mesh: Mesh)
    ensures fresh(mesh)
    ensures mesh.VerM == CuboidVertices(sizeVec) && mesh.FaceM == CuboidFaces()
  {
    var minX, minY, minZ := -0.5 * sizeVec.x, -0.5 * sizeVec.y, -0.5 * sizeVec.z;
    var maxX, maxY, maxZ := 0.5 * sizeVec.x, 0.5 * sizeVec.y, 0.5 * sizeVec.z;
    var verList: seq<Vec3> := [];
    verList := verList + [Vec3(minX, minY, maxZ)];
    verList := verList + [Vec3(maxX, minY, maxZ)];
    verList := verList + [Vec3(maxX, maxY, maxZ)];
    verList := verList + [Vec3(minX, maxY, maxZ)];
    verList := verList + [Vec3(minX, minY, minZ)];
    verList := verList + [Vec3(maxX, minY, minZ)];
    verList := verList + [Vec3(maxX, maxY, minZ)];
    verList := verList + [Vec3(minX, maxY, minZ)];

    var faceList: seq<Face> := [];
    faceList := faceList + [Face(5, 4, 7)];
    faceList := faceList + [Face(5, 7, 6)];
    faceList := faceList + [Face(7, 2, 6)];
    faceList := faceList + [Face(7, 3, 2)];
    faceList := faceList + [Face(1, 0, 4)];
    faceList := faceList + [Face(1, 3, 0)];
    faceList := faceList + [Face(5, 6, 2)];
    faceList := faceList + [Face(5, 2, 1)];
    faceList := faceList + [Face(4, 5, 1)];
    faceList := faceList + [Face(1, 2, 3)];
    faceList := faceList + [Face(0, 3, 4)];
    faceList := faceList + [Face(4, 3, 7)];

    mesh := new Mesh.FromLists(verList, faceList);
  }

  /** The translation CreateCuboid(minPt, maxPt) applies: to the box centre
      (minPt + maxPt) / 2. */
  function CuboidPlacement(minPt: Vec3, maxPt: Vec3): Affine {
    GetTranslationMatrix(Scale(0.5, Add(minPt, maxPt)))
  }

  /** CreateCuboid(minPt, maxPt): the cuboid of size maxPt - minPt, moved to
      the centre of the two points. */
  method CreateCuboidFromCorners(minPt: Vec3, maxPt: Vec3) returns (mesh: Mesh)
    ensures fresh(mesh)
    ensures mesh.VerM == Transformed(CuboidPlacement(minPt, maxPt), CuboidVertices(Sub(maxPt, minPt)))
    ensures mesh.FaceM == CuboidFaces()
  {
    var sizeVec := Sub(maxPt, minPt);
    mesh := CreateCuboid(sizeVec);
    var center := Scale(0.5, Add(minPt, maxPt));
    var transMat := GetTranslationMatrix(center);
    mesh.Transform(transMat);
  }

  /** The placed cuboid spans exactly the box between the two corners: every
      coordinate of every corner is the matching coordinate of minPt or of
      maxPt, with corner 4 at minPt and corner 2 at maxPt. */
  lemma {:induction false} PlacedCuboidCorners(minPt: Vec3, maxPt: Vec3)
    ensures var v := Transformed(CuboidPlacement(minPt, maxPt), CuboidVertices(Sub(maxPt, minPt)));
      forall i :: 0 <= i < 8 ==>
        v[i] == Vec3(if i % 4 == 1 || i % 4 == 2 then maxPt.x else minPt.x,
                     if i % 4 == 2 || i % 4 == 3 then maxPt.y else minPt.y,
                     if i < 4 then maxPt.z else minPt.z)
  {
    var c := CuboidVertices(Sub(maxPt, minPt));
    forall i | 0 <= i < 8
      ensures MultiplyPoint(CuboidPlacement(minPt, maxPt), c[i])
        == Vec3(if i % 4 == 1 || i % 4 == 2 then maxPt.x else minPt.x,
                if i % 4 == 2 || i % 4 == 3 then maxPt.y else minPt.y,
                if i < 4 then maxPt.z else minPt.z)
    {
      MatVecIdentity(c[i]);
    }
  }

  /** One sampling loop over a circle: appends sample i = 0 .. radSamp-1 at
      angle i * 2 * M_PI / radSamp, in the plane at abscissa x. */
  method AppendRing(verList: seq<Vec3>, x: real, radius: real, radSamp: int, trig: Trig)
    returns (out: seq<Vec3>)
    ensures out == verList + Ring(x, radius, Samples(radSamp), trig)
  {
    ghost var ring := Ring(x, radius, Samples(radSamp), trig);
    out := verList;
    var i := 0;
    while i < radSamp
      invariant 0 <= i <= |ring|
      invariant out == verList + ring[..i]
    {
      var beta := (i as real) * 2.0 * Pi / (radSamp as real);
      var y := radius * trig.cos(beta);
      var z := radius * trig.sin(beta);
      assert ring[i] == Vec3(x, y, z);
      assert ring[..i + 1] == ring[..i] + [ring[i]];
      out := out + [Vec3(x, y, z)];
      i := i + 1;
    }
    assert ring[..i] == ring;
  }

  /** The cylinder's face loop, after `reserve(radSamp * 4)`: four triangles
      per sample. */
  method CylinderFaceLoop(radSamp: int) returns (r: Outcome<seq<Face>>)
    ensures r.LengthError? <==> radSamp < 0
    ensures r.Built? ==> r.value == CylinderFaces(Samples(radSamp))
  {
    if ReserveThrows(radSamp * 4) {
      return LengthError;
    }
    var faceList: seq<Face> := [];
    var i := 0;
    while i < radSamp
      invariant 0 <= i <= Samples(radSamp)
      invariant faceList == if radSamp > 0 then CylinderFacesUpTo(radSamp, i) else []
    {
      var i1 := i;
      var j1 := (i + 1) % radSamp;
      var i2 := i + radSamp;
      var j2 := j1 + radSamp;
      ghost var prev := faceList;
      faceList := faceList + [Face(i1, j2, j1)];
      faceList := faceList + [Face(i2, j2, i1)];
      faceList := faceList + [Face(i1, j1, 2 * radSamp)];
      faceList := faceList + [Face(j2, i2, 2 * radSamp + 1)];
      assert faceList == CylinderFacesUpTo(radSamp, i + 1) by {
        AppendFour(prev, Face(i1, j2, j1), Face(i2, j2, i1), Face(i1, j1, 2 * radSamp), Face(j2, i2, 2 * radSamp + 1));
      }
      i := i + 1;
    }
    assert radSamp > 0 ==> CylinderFaces(radSamp) == CylinderFacesUpTo(radSamp, radSamp);
    r := Built(faceList);
  }

  /** CreateCylinder(length, radius, radSamp): the right rim, the left rim
      sampled in the same order, the two cap centres, then four triangles per
      sample. Both `reserve` calls throw exactly when radSamp is negative. */
  method CreateCylinder(length: real, radius: real, radSamp: int, trig: Trig) returns (r: Outcome<Mesh>)
    ensures r.LengthError? <==> radSamp < 0
    ensures r.Built? ==> fresh(r.value)
    ensures r.Built? ==> r.value.VerM == CylinderVertices(length, radius, Samples(radSamp), trig)
    ensures r.Built? ==> r.value.FaceM == CylinderFaces(Samples(radSamp))
  {
    var halfLength := 0.5 * length;
    if ReserveThrows(2 * radSamp + 2) {
      return LengthError;
    }
    var verList: seq<Vec3> := [];
    verList := AppendRing(verList, halfLength, radius, radSamp, trig);
    verList := AppendRing(verList, -halfLength, radius, radSamp, trig);
    AppendTwo(verList, Vec3(halfLength, 0.0, 0.0), Vec3(-halfLength, 0.0, 0.0));
    verList := verList + [Vec3(halfLength, 0.0, 0.0)];
    verList := verList + [Vec3(-halfLength, 0.0, 0.0)];
    var faceList := CylinderFaceLoop(radSamp);
    if faceList.LengthError? {
      return LengthError;
    }
    var mesh := new Mesh.FromLists(verList, faceList.value);
    r := Built(mesh);
  }

  /** The map CreateCylinder(capCenterA, capCenterB, radius, radSamp) applies:
      the rotation `rotMat`, then the translation to the midpoint of A and B. */
  function CylinderPlacement(capCenterA: Vec3, capCenterB: Vec3, rotMat: Affine): Affine {
    Compose(GetTranslationMatrix(Scale(0.5, Add(capCenterA, capCenterB))), rotMat)
  }

  /** The rotation CreateCylinder(capCenterA, capCenterB, ...) and
      CreateCone(baseCenter, apexPoint, ...) build: the x axis turned onto the
      normalised direction from `from` to `to`. */
  function AxisRotation(from: Vec3, to: Vec3, normalized: Vec3 -> Vec3,
                        acos: real -> real, angleAxis: (Vec3, real) -> Mat3): Affine {
    GetRotationMatrixBetween(Vec3(1.0, 0.0, 0.0), normalized(Sub(to, from)), normalized, acos, angleAxis)
  }

  /** CreateCylinder(capCenterA, capCenterB, radius, radSamp): the canonical
      cylinder of length |A - B| (`norm` is Eigen's norm), then placed. */
  method CreateCylinderBetween(capCenterA: Vec3, capCenterB: Vec3, radius: real, radSamp: int, trig: Trig,
                               norm: Vec3 -> real, normalized: Vec3 -> Vec3,
                               acos: real -> real, angleAxis: (Vec3, real) -> Mat3) returns (r: Outcome<Mesh>)
    ensures r.LengthError? <==> radSamp < 0
    ensures r.Built? ==> fresh(r.value)
    ensures r.Built? ==> r.value.VerM == Transformed(CylinderPlacement(capCenterA, capCenterB,
                                                       AxisRotation(capCenterA, capCenterB, normalized, acos, angleAxis)),
                                     CylinderVertices(norm(Sub(capCenterA, capCenterB)), radius, Samples(radSamp), trig))
    ensures r.Built? ==> r.value.FaceM == CylinderFaces(Samples(radSamp))
  {
    var length := norm(Sub(capCenterA, capCenterB));
    var rotMat := AxisRotation(capCenterA, capCenterB, normalized, acos, angleAxis);
    r := CreatePlacedCylinder(length, radius, radSamp, trig, CylinderPlacement(capCenterA, capCenterB, rotMat));
  }

  /** The canonical cylinder, then moved by `place` with Transform; a throw
      in CreateCylinder leaves nothing to move. */
  method CreatePlacedCylinder(length: real, radius: real, radSamp: int, trig: Trig, place: Affine) returns (r: Outcome<Mesh>)
    ensures r.LengthError? <==> radSamp < 0
    ensures r.Built? ==> fresh(r.value)
    ensures r.Built? ==> r.value.VerM == Transformed(place, CylinderVertices(length, radius, Samples(radSamp), trig))
    ensures r.Built? ==> r.value.FaceM == CylinderFaces(Samples(radSamp))
  {
    r := CreateCylinder(length, radius, radSamp, trig);
    if r.Built? {
      r.value.Transform(place);
    }
  }

  /** For any rotation without translation that carries the x axis, scaled
      by `length`, onto B - A (as AxisRotation(A, B) does when `length` is
      |A - B|), the placed cylinder's cap centres land on B (vertex 2n) and on
      A (vertex 2n+1). */
  lemma {:induction false} PlacedCylinderCaps(capCenterA: Vec3, capCenterB: Vec3, length: real, radius: real,
                                              n: nat, trig: Trig, rotMat: Affine)
    requires rotMat.translation == Zero
    requires Scale(length, MatVec(rotMat.linear, Vec3(1.0, 0.0, 0.0))) == Sub(capCenterB, capCenterA)
    ensures var v := Transformed(CylinderPlacement(capCenterA, capCenterB, rotMat), CylinderVertices(length, radius, n, trig));
      v[2 * n] == capCenterB && v[2 * n + 1] == capCenterA
  {
    PlacedCapB(capCenterA, capCenterB, length, radius, n, trig, rotMat);
    PlacedCapA(capCenterA, capCenterB, length, radius, n, trig, rotMat);
  }

  /** The right cap centre, vertex 2n, lands on B. */
  lemma {:induction false} PlacedCapB(capCenterA: Vec3, capCenterB: Vec3, length: real, radius: real,
                                      n: nat, trig: Trig, rotMat: Affine)
    requires rotMat.translation == Zero
    requires Scale(length, MatVec(rotMat.linear, Vec3(1.0, 0.0, 0.0))) == Sub(capCenterB, capCenterA)
    ensures Transformed(CylinderPlacement(capCenterA, capCenterB, rotMat), CylinderVertices(length, radius, n, trig))[2 * n]
            == capCenterB
  {
    CylinderCapEntries(length, radius, n, trig);
    MidpointOffsets(capCenterA, capCenterB, MatVec(rotMat.linear, Vec3(1.0, 0.0, 0.0)), length);
    CapCentreImage(rotMat, capCenterA, capCenterB, 0.5 * length, capCenterB);
    PlacedVertex(CylinderPlacement(capCenterA, capCenterB, rotMat), CylinderVertices(length, radius, n, trig), 2 * n,
                 Vec3(0.5 * length, 0.0, 0.0), capCenterB);
  }

  /** The left cap centre, vertex 2n+1, lands on A. */
  lemma {:induction false} PlacedCapA(capCenterA: Vec3, capCenterB: Vec3, length: real, radius: real,
                                      n: nat, trig: Trig, rotMat: Affine)
    requires rotMat.translation == Zero
    requires Scale(length, MatVec(rotMat.linear, Vec3(1.0, 0.0, 0.0))) == Sub(capCenterB, capCenterA)
    ensures Transformed(CylinderPlacement(capCenterA, capCenterB, rotMat), CylinderVertices(length, radius, n, trig))[2 * n + 1]
            == capCenterA
  {
    CylinderCapEntries(length, radius, n, trig);
    MidpointOffsets(capCenterA, capCenterB, MatVec(rotMat.linear, Vec3(1.0, 0.0, 0.0)), length);
    CapCentreImage(rotMat, capCenterA, capCenterB, -0.5 * length, capCenterA);
    PlacedVertex(CylinderPlacement(capCenterA, capCenterB, rotMat), CylinderVertices(length, radius, n, trig), 2 * n + 1,
                 Vec3(-0.5 * length, 0.0, 0.0), capCenterA);
  }

  /** The canonical cylinder's cap centres, vertices 2n and 2n+1. */
  lemma CylinderCapEntries(length: real, radius: real, n: nat, trig: Trig)
    ensures var c := CylinderVertices(length, radius, n, trig);
      |c| == 2 * n + 2 && c[2 * n] == Vec3(0.5 * length, 0.0, 0.0) && c[2 * n + 1] == Vec3(-0.5 * length, 0.0, 0.0)
  {
  }

  /** One point (h, 0, 0) of the x axis under the cylinder's placement. */
  lemma {:induction false} CapCentreImage(rot: Affine, a: Vec3, b: Vec3, h: real, target: Vec3)
    requires rot.translation == Zero
    requires Scale(h, MatVec(rot.linear, Vec3(1.0, 0.0, 0.0))) == Sub(target, Scale(0.5, Add(a, b)))
    ensures MultiplyPoint(CylinderPlacement(a, b, rot), Vec3(h, 0.0, 0.0)) == target
  {
    AxisPointImage(rot, Scale(0.5, Add(a, b)), h, target);
  }

  /** When length times u leads from A to B, half of it leads from the
      midpoint of A and B to B, and minus half of it to A. */
  lemma {:induction false} MidpointOffsets(a: Vec3, b: Vec3, u: Vec3, length: real)
    requires Scale(length, u) == Sub(b, a)
    ensures Scale(0.5 * length, u) == Sub(b, Scale(0.5, Add(a, b)))
    ensures Scale(-0.5 * length, u) == Sub(a, Scale(0.5, Add(a, b)))
  {
    assert Scale(0.5 * length, u) == Scale(0.5, Scale(length, u));
    assert Scale(-0.5 * length, u) == Scale(-0.5, Scale(length, u));
  }

  /** polarSamp = radSamp / 2 with C's division, which truncates toward zero. */
  function CDivTwo(a: int): (q: int)
    ensures a >= 0 ==> q == a / 2
    ensures a < 0 ==> q <= 0
  {
    if a >= 0 then a / 2 else -((-a) / 2)
  }

  /** CreateSphere's two `reserve` sizes, midNum + 2 and
      polarSamp * azimuSamp * 2, are never negative, so the sphere has no
      error path: for a negative radSamp both factors are at most zero. */
  lemma SphereReserves(radSamp: int)
    ensures !ReserveThrows((CDivTwo(radSamp) - 1) * radSamp + 2)
    ensures !ReserveThrows(CDivTwo(radSamp) * radSamp * 2)
  {
    ProductNegative(CDivTwo(radSamp) - 1, radSamp);
    ProductNegative(CDivTwo(radSamp), radSamp);
  }

  /** One ring of the sphere's vertex loop: sample j of ring i for every j. */
  method AppendSphereRing(verList: seq<Vec3>, radius: real, radSamp: int, polarSamp: int, i: int, trig: Trig)
    returns (out: seq<Vec3>)
    requires radSamp >= 2 && polarSamp == PolarSamples(radSamp)
    ensures out == verList + seq(radSamp, j requires 0 <= j < radSamp => SpherePoint(radius, radSamp, i, j, trig))
  {
    ghost var ring := seq(radSamp, j requires 0 <= j < radSamp => SpherePoint(radius, radSamp, i, j, trig));
    out := verList;
    var alpha := Pi / 2.0 - Pi * (i as real) / (polarSamp as real);
    var j := 0;
    while j < radSamp
      invariant 0 <= j <= radSamp
      invariant out == verList + ring[..j]
    {
      var beta := (j as real) * 2.0 * Pi / (radSamp as real);
      var x := radius * trig.cos(alpha) * trig.cos(beta);
      var y := radius * trig.cos(alpha) * trig.sin(beta);
      var z := radius * trig.sin(alpha);
      assert ring[j] == Vec3(x, y, z);
      assert ring[..j + 1] == ring[..j] + [ring[j]];
      out := out + [Vec3(x, y, z)];
      j := j + 1;
    }
    assert ring[..j] == ring;
  }

  /** The sphere's vertex loop: rings 1 .. polarSamp-1, then the two poles. */
  method SphereVertexLoop(radius: real, radSamp: int, trig: Trig) returns (verList: seq<Vec3>)
    ensures verList == SphereVertices(radius, Samples(radSamp), trig)
  {
    ghost var n := Samples(radSamp);
    var polarSamp := CDivTwo(radSamp);
    verList := [];
    var i := 1;
    while i < polarSamp
      invariant 1 <= i && (i <= polarSamp || i == 1)
      invariant verList == (if n >= 2 then SphereRings(radius, n, i - 1, trig) else [])
    {
      verList := AppendSphereRing(verList, radius, radSamp, polarSamp, i, trig);
      i := i + 1;
    }
    assert n >= 2 ==> SphereRings(radius, n, i - 1, trig) == SphereRings(radius, n, PolarSamples(n) - 1, trig);
    verList := verList + [Vec3(0.0, 0.0, radius)];
    verList := verList + [Vec3(0.0, 0.0, -radius)];
  }

  /** The top fan of the sphere. */
  method SphereTopLoop(radSamp: int, midNum: int) returns (faceList: seq<Face>)
    requires midNum == MidNum(Samples(radSamp))
    ensures faceList == SphereTop(Samples(radSamp))
  {
    ghost var top := SphereTop(Samples(radSamp));
    faceList := [];
    var j := 0;
    while j < radSamp
      invariant 0 <= j <= Samples(radSamp)
      invariant faceList == top[..j]
    {
      assert top[..j + 1] == top[..j] + [Face(midNum, j, (j + 1) % radSamp)];
      faceList := faceList + [Face(midNum, j, (j + 1) % radSamp)];
      j := j + 1;
    }
    assert top[..j] == top;
  }

  /** The two triangles of every quad between rings i and i+1. */
  method SphereBandLoop(faceList: seq<Face>, radSamp: int, i: int) returns (out: seq<Face>)
    ensures out == faceList + SphereBand(Samples(radSamp), i)
  {
    out := faceList;
    var j := 0;
    while j < radSamp
      invariant 0 <= j <= Samples(radSamp)
      invariant out == faceList + if radSamp > 0 then SphereBandUpTo(radSamp, i, j) else []
    {
      var i1 := (i - 1) * radSamp + j;
      var j1 := (i - 1) * radSamp + (j + 1) % radSamp;
      var i2 := i * radSamp + j;
      var j2 := i * radSamp + (j + 1) % radSamp;
      out := out + [Face(i1, i2, j1)];
      out := out + [Face(i2, j2, j1)];
      j := j + 1;
    }
  }

  /** The bottom fan of the sphere, appended to the faces so far. */
  method SphereBottomLoop(faceList: seq<Face>, radSamp: int, midNum: int) returns (out: seq<Face>)
    requires midNum == MidNum(Samples(radSamp))
    ensures out == faceList + SphereBottom(Samples(radSamp))
  {
    ghost var bottom := SphereBottom(Samples(radSamp));
    out := faceList;
    var j := 0;
    while j < radSamp
      invariant 0 <= j <= Samples(radSamp)
      invariant out == faceList + bottom[..j]
    {
      var f := Face(midNum + 1, midNum - radSamp + (j + 1) % radSamp, midNum - radSamp + j);
      assert bottom[..j + 1] == bottom[..j] + [f];
      out := out + [f];
      j := j + 1;
    }
    assert bottom[..j] == bottom;
  }

  /** The counts the sphere's loops compute agree with PolarSamples and MidNum. */
  lemma SphereCounts(radSamp: int, polarSamp: int, midNum: int)
    requires radSamp >= 0 && polarSamp == CDivTwo(radSamp) && midNum == (polarSamp - 1) * radSamp
    ensures polarSamp == PolarSamples(Samples(radSamp))
    ensures midNum == MidNum(Samples(radSamp))
  {
  }

  /** The sphere's face loops: the top fan, the bands between consecutive
      rings, then the bottom fan. */
  method SphereFaceLoop(radSamp: int) returns (faceList: seq<Face>)
    ensures faceList == SphereFaces(Samples(radSamp))
  {
    ghost var n := Samples(radSamp);
    var polarSamp := CDivTwo(radSamp);
    var azimuSamp := radSamp;
    var midNum := (polarSamp - 1) * azimuSamp;
    if radSamp >= 0 {
      SphereCounts(radSamp, polarSamp, midNum);
      faceList := SphereTopLoop(radSamp, midNum);
    } else {
      faceList := [];
    }
    var i := 1;
    while i < polarSamp - 1
      invariant 1 <= i && (i <= polarSamp - 1 || i == 1)
      invariant faceList == SphereTop(n) + SphereMiddle(n, i)
    {
      ghost var prev := faceList;
      faceList := SphereBandLoop(faceList, radSamp, i);
      assert faceList == SphereTop(n) + SphereMiddle(n, i + 1) by {
        assert SphereMiddle(n, i + 1) == SphereMiddle(n, i) + SphereBand(n, i);
      }
      i := i + 1;
    }
    assert SphereMiddle(n, i) == SphereMiddle(n, PolarSamples(n) - 1);
    if radSamp >= 0 {
      faceList := SphereBottomLoop(faceList, radSamp, midNum);
    }
  }

  /** CreateSphere(radius, radSamp): polarSamp-1 rings of radSamp samples and
      the two poles; a fan at each pole and two triangles per quad between
      consecutive rings. */
  method CreateSphere(radius: real, radSamp: int, trig: Trig) returns (mesh: Mesh)
    ensures fresh(mesh)
    ensures mesh.VerM == SphereVertices(radius, Samples(radSamp), trig)
    ensures mesh.FaceM == SphereFaces(Samples(radSamp))
  {
    var verList := SphereVertexLoop(radius, radSamp, trig);
    var faceList := SphereFaceLoop(radSamp);
    mesh := new Mesh.FromLists(verList, faceList);
  }

  /** CreateSphere(center, radius, radSamp): the canonical sphere translated
      to `center`. */
  method CreateSphereAt(center: Vec3, radius: real, radSamp: int, trig: Trig) returns (mesh: Mesh)
    ensures fresh(mesh)
    ensures mesh.VerM == Transformed(GetTranslationMatrix(center), SphereVertices(radius, Samples(radSamp), trig))
    ensures mesh.FaceM == SphereFaces(Samples(radSamp))
  {
    mesh := CreateSphere(radius, radSamp, trig);
    mesh.Transform(GetTranslationMatrix(center));
  }

  /** The placed sphere's poles sit `radius` above and below its centre. */
  lemma {:induction false} PlacedSpherePoles(center: Vec3, radius: real, n: nat, trig: Trig)
    ensures var v := Transformed(GetTranslationMatrix(center), SphereVertices(radius, n, trig));
      v[|v| - 2] == Add(center, Vec3(0.0, 0.0, radius)) && v[|v| - 1] == Add(center, Vec3(0.0, 0.0, -radius))
  {
    var s := SphereVertices(radius, n, trig);
    MatVecIdentity(s[|s| - 2]);
    MatVecIdentity(s[|s| - 1]);
  }

  /** The cone's face loop, after `reserve(2 * radSamp)`: a base triangle and
      a side triangle per sample. */
  method ConeFaceLoop(radSamp: int) returns (r: Outcome<seq<Face>>)
    ensures r.LengthError? <==> radSamp < 0
    ensures r.Built? ==> r.value == ConeFaces(Samples(radSamp))
  {
    if ReserveThrows(2 * radSamp) {
      return LengthError;
    }
    ghost var faces := ConeFaces(Samples(radSamp));
    var faceList: seq<Face> := [];
    var j := 0;
    while j < radSamp
      invariant 0 <= j <= Samples(radSamp)
      invariant faceList == faces[..2 * j]
    {
      assert faces[..2 * j + 2] == faces[..2 * j] + [Face(radSamp, (j + 1) % radSamp, j), Face(radSamp + 1, j, (j + 1) % radSamp)] by {
        assert faces[2 * j] == Face(radSamp, (j + 1) % radSamp, j);
        assert faces[2 * j + 1] == Face(radSamp + 1, j, (j + 1) % radSamp);
      }
      faceList := faceList + [Face(radSamp, (j + 1) % radSamp, j)];
      faceList := faceList + [Face(radSamp + 1, j, (j + 1) % radSamp)];
      j := j + 1;
    }
    assert faces[..2 * j] == faces;
    r := Built(faceList);
  }

  /** CreateCone(length, radius, radSamp): the base rim in the plane x = 0, the
      base centre and the apex on the +x axis; a base fan and a side fan.
      `reserve(radSamp + 2)` throws for radSamp below -2 and
      `reserve(2 * radSamp)` for any negative radSamp. */
  method CreateCone(length: real, radius: real, radSamp: int, trig: Trig) returns (r: Outcome<Mesh>)
    ensures r.LengthError? <==> radSamp < 0
    ensures r.Built? ==> fresh(r.value)
    ensures r.Built? ==> r.value.VerM == ConeVertices(length, radius, Samples(radSamp), trig)
    ensures r.Built? ==> r.value.FaceM == ConeFaces(Samples(radSamp))
  {
    if ReserveThrows(radSamp + 2) {
      return LengthError;
    }
    var verList: seq<Vec3> := [];
    verList := AppendRing(verList, 0.0, radius, radSamp, trig);
    verList := verList + [Vec3(0.0, 0.0, 0.0)];
    verList := verList + [Vec3(length, 0.0, 0.0)];
    var faceList := ConeFaceLoop(radSamp);
    if faceList.LengthError? {
      return LengthError;
    }
    var mesh := new Mesh.FromLists(verList, faceList.value);
    r := Built(mesh);
  }

  /** The map CreateCone(baseCenter, apexPoint, radius, radSamp) applies: the
      rotation `rotMat`, then the translation to the base centre. */
  function ConePlacement(baseCenter: Vec3, rotMat: Affine): Affine {
    Compose(GetTranslationMatrix(baseCenter), rotMat)
  }

  /** CreateCone(baseCenter, apexPoint, radius, radSamp): the canonical cone of
      length |apex - base|, then placed. */
  method CreateConeBetween(baseCenter: Vec3, apexPoint: Vec3, radius: real, radSamp: int, trig: Trig,
                           norm: Vec3 -> real, normalized: Vec3 -> Vec3,
                           acos: real -> real, angleAxis: (Vec3, real) -> Mat3) returns (r: Outcome<Mesh>)
    ensures r.LengthError? <==> radSamp < 0
    ensures r.Built? ==> fresh(r.value)
    ensures r.Built? ==> r.value.VerM == Transformed(ConePlacement(baseCenter, AxisRotation(baseCenter, apexPoint, normalized, acos, angleAxis)),
                                     ConeVertices(norm(Sub(apexPoint, baseCenter)), radius, Samples(radSamp), trig))
    ensures r.Built? ==> r.value.FaceM == ConeFaces(Samples(radSamp))
  {
    var length := norm(Sub(apexPoint, baseCenter));
    var rotMat := AxisRotation(baseCenter, apexPoint, normalized, acos, angleAxis);
    r := CreatePlacedCone(length, radius, radSamp, trig, ConePlacement(baseCenter, rotMat));
  }

  /** The canonical cone, then moved by `place` with Transform; a throw in
      CreateCone leaves nothing to move. */
  method CreatePlacedCone(length: real, radius: real, radSamp: int, trig: Trig, place: Affine) returns (r: Outcome<Mesh>)
    ensures r.LengthError? <==> radSamp < 0
    ensures r.Built? ==> fresh(r.value)
    ensures r.Built? ==> r.value.VerM == Transformed(place, ConeVertices(length, radius, Samples(radSamp), trig))
    ensures r.Built? ==> r.value.FaceM == ConeFaces(Samples(radSamp))
  {
    r := CreateCone(length, radius, radSamp, trig);
    if r.Built? {
      r.value.Transform(place);
    }
  }

  /** A rotation about the origin followed by a translation to `origin` takes
      the point a on the x axis to `target` when a times the image of the x
      axis is the offset of `target` from `origin`. */
  lemma {:induction false} AxisPointImage(rot: Affine, origin: Vec3, a: real, target: Vec3)
    requires rot.translation == Zero
    requires Scale(a, MatVec(rot.linear, Vec3(1.0, 0.0, 0.0))) == Sub(target, origin)
    ensures MultiplyPoint(Compose(GetTranslationMatrix(origin), rot), Vec3(a, 0.0, 0.0)) == target
  {
    var x, q := Vec3(a, 0.0, 0.0), Sub(target, origin);
    MultiplyPointCompose(GetTranslationMatrix(origin), rot, x);
    LinearAction(rot, x);
    MatVecAxis(rot.linear, a);
    AddSubCancel(target, origin);
  }

  /** For any rotation without translation that carries the x axis, scaled
      by `length`, onto apexPoint - baseCenter (as AxisRotation does when
      `length` is |apexPoint - baseCenter|), the placed cone's base centre
      (vertex n) lands on baseCenter and its apex (vertex n+1) on apexPoint. */
  lemma {:induction false} PlacedConeEnds(baseCenter: Vec3, apexPoint: Vec3, length: real, radius: real,
                                          n: nat, trig: Trig, rotMat: Affine)
    requires rotMat.translation == Zero
    requires Scale(length, MatVec(rotMat.linear, Vec3(1.0, 0.0, 0.0))) == Sub(apexPoint, baseCenter)
    ensures var v := Transformed(ConePlacement(baseCenter, rotMat), ConeVertices(length, radius, n, trig));
      v[n] == baseCenter && v[n + 1] == apexPoint
  {
    PlacedConeBase(baseCenter, length, radius, n, trig, rotMat);
    PlacedConeApex(baseCenter, apexPoint, length, radius, n, trig, rotMat);
  }

  /** The base centre, vertex n, stays on baseCenter. */
  lemma {:induction false} PlacedConeBase(baseCenter: Vec3, length: real, radius: real, n: nat, trig: Trig, rotMat: Affine)
    requires rotMat.translation == Zero
    ensures Transformed(ConePlacement(baseCenter, rotMat), ConeVertices(length, radius, n, trig))[n] == baseCenter
  {
    ConeEndEntries(length, radius, n, trig);
    assert Scale(0.0, MatVec(rotMat.linear, Vec3(1.0, 0.0, 0.0))) == Sub(baseCenter, baseCenter);
    ConeAxisImage(rotMat, baseCenter, 0.0, baseCenter);
    PlacedVertex(ConePlacement(baseCenter, rotMat), ConeVertices(length, radius, n, trig), n,
                 Vec3(0.0, 0.0, 0.0), baseCenter);
  }

  /** The apex, vertex n+1, lands on apexPoint. */
  lemma {:induction false} PlacedConeApex(baseCenter: Vec3, apexPoint: Vec3, length: real, radius: real,
                                          n: nat, trig: Trig, rotMat: Affine)
    requires rotMat.translation == Zero
    requires Scale(length, MatVec(rotMat.linear, Vec3(1.0, 0.0, 0.0))) == Sub(apexPoint, baseCenter)
    ensures Transformed(ConePlacement(baseCenter, rotMat), ConeVertices(length, radius, n, trig))[n + 1] == apexPoint
  {
    ConeEndEntries(length, radius, n, trig);
    ConeAxisImage(rotMat, baseCenter, length, apexPoint);
    PlacedVertex(ConePlacement(baseCenter, rotMat), ConeVertices(length, radius, n, trig), n + 1,
                 Vec3(length, 0.0, 0.0), apexPoint);
  }

  /** The canonical cone's base centre and apex, vertices n and n+1. */
  lemma ConeEndEntries(length: real, radius: real, n: nat, trig: Trig)
    ensures var c := ConeVertices(length, radius, n, trig);
      |c| == n + 2 && c[n] == Vec3(0.0, 0.0, 0.0) && c[n + 1] == Vec3(length, 0.0, 0.0)
  {
  }

  /** One point (h, 0, 0) of the x axis under the cone's placement. */
  lemma {:induction false} ConeAxisImage(rot: Affine, base: Vec3, h: real, target: Vec3)
    requires rot.translation == Zero
    requires Scale(h, MatVec(rot.linear, Vec3(1.0, 0.0, 0.0))) == Sub(target, base)
    ensures MultiplyPoint(ConePlacement(base, rot), Vec3(h, 0.0, 0.0)) == target
  {
    AxisPointImage(rot, base, h, target);
  }

  /** Vertex k of a transformed list is the image of vertex k. */
  lemma {:induction false} PlacedVertex(place: Affine, ver: seq<Vec3>, k: nat, p: Vec3, q: Vec3)
    requires k < |ver| && ver[k] == p && MultiplyPoint(place, p) == q
    ensures Transformed(place, ver)[k] == q
  {
  }

  /** The inner loop of CreateRectangularSurface: the two triangles of every
      cell of grid row i. */
  method GridRowLoop(faceList: seq<Face>, cols: int, i: int) returns (out: seq<Face>)
    ensures out == faceList + GridCells(cols, i, cols - 1)
  {
    out := faceList;
    var j := 0;
    while j < cols - 1
      invariant 0 <= j && (j <= cols - 1 || j == 0)
      invariant out == faceList + GridCells(cols, i, j)
    {
      var id := i * cols + j;
      out := out + [Face(id, id + cols, id + 1)];
      out := out + [Face(id + 1, id + cols, id + cols + 1)];
      j := j + 1;
    }
  }

  /** CreateRectangularSurface(verList, rows, cols): the given vertices and
      two triangles per grid cell. A size mismatch is only reported, so the
      triangles are built whatever the list's length; but when one of rows
      and cols is below 1 and the other above 1, `reserve((rows - 1) *
      (cols - 1))` is given a negative size and throws. */
  method CreateRectangularSurface(verList: seq<Vec3>, rows: int, cols: int) returns (r: Outcome<Mesh>)
    ensures r.LengthError? <==> (rows < 1 && cols > 1) || (rows > 1 && cols < 1)
    ensures r.Built? ==> fresh(r.value)
    ensures r.Built? ==> r.value.VerM == verList && r.value.FaceM == GridFaces(rows, cols)
  {
    ProductNegative(rows - 1, cols - 1);
    if ReserveThrows((rows - 1) * (cols - 1)) {
      return LengthError;
    }
    var faceList: seq<Face> := [];
    var i := 0;
    while i < rows - 1
      invariant 0 <= i && (i <= rows - 1 || i == 0)
      invariant faceList == GridRows(cols, i)
    {
      faceList := GridRowLoop(faceList, cols, i);
      i := i + 1;
    }
    var mesh := new Mesh.FromLists(verList, faceList);
    r := Built(mesh);
  }

  /** One ring of the tube's vertex loop: the r samples around curve point i. */
  method AppendTubeRing(verList: seq<Vec3>, radSamp: int, i: int, envelope: (int, int) -> Vec3)
    returns (out: seq<Vec3>)
    ensures out == verList + seq(Samples(radSamp), j requires 0 <= j < Samples(radSamp) => envelope(i, j))
  {
    ghost var ring := seq(Samples(radSamp), j requires 0 <= j < Samples(radSamp) => envelope(i, j));
    out := verList;
    var j := 0;
    while j < radSamp
      invariant 0 <= j <= Samples(radSamp)
      invariant out == verList + ring[..j]
    {
      assert ring[..j + 1] == ring[..j] + [envelope(i, j)];
      out := out + [envelope(i, j)];
      j := j + 1;
    }
    assert ring[..j] == ring;
  }

  /** The two triangles of every quad between ring i and the ring after it. */
  method TubeBandLoop(faceList: seq<Face>, ptNum: int, radSamp: int, i: int) returns (out: seq<Face>)
    requires ptNum > 0
    ensures out == faceList + TubeBand(ptNum, Samples(radSamp), i)
  {
    out := faceList;
    var j := 0;
    while j < radSamp
      invariant 0 <= j <= Samples(radSamp)
      invariant out == faceList + if radSamp > 0 then TubeBandUpTo(ptNum, radSamp, i, j) else []
    {
      var i1 := i * radSamp;
      var i2 := (i1 + radSamp) % (ptNum * radSamp);
      var j1 := j;
      var j2 := (j + 1) % radSamp;
      out := out + [Face(i1 + j1, i2 + j2, i2 + j1)];
      out := out + [Face(i1 + j1, i1 + j2, i2 + j2)];
      j := j + 1;
    }
  }

  /** The open tube's cap loop, appended to the side bands. */
  method TubeCapLoop(faceList: seq<Face>, ptNum: int, radSamp: int) returns (out: seq<Face>)
    ensures out == faceList + TubeCaps(ptNum, Samples(radSamp))
  {
    out := faceList;
    var j := 0;
    while j < radSamp
      invariant 0 <= j <= Samples(radSamp)
      invariant out == faceList + if radSamp > 0 then TubeCapsUpTo(ptNum, radSamp, j) else []
    {
      var c := ptNum * radSamp;
      var j1 := j;
      var j2 := (j + 1) % radSamp;
      out := out + [Face(c, j2, j1)];
      c := (ptNum - 1) * radSamp;
      out := out + [Face(c, c + j1, c + j2)];
      j := j + 1;
    }
  }

  /** The tube's vertex loop: a ring around every curve point, then for
      "open" the first and the last curve point. */
  method TubeVertexLoop(ptList: seq<Vec3>, radSamp: int, curveType: string, envelope: (int, int) -> Vec3)
    returns (verList: seq<Vec3>)
    requires |ptList| >= 2
    ensures verList == TubeVertices(ptList, Samples(radSamp), curveType, envelope)
  {
    ghost var r := Samples(radSamp);
    var ptNum := |ptList|;
    verList := [];
    var i := 0;
    while i < ptNum
      invariant 0 <= i <= ptNum
      invariant verList == TubeRings(envelope, r, i)
    {
      verList := AppendTubeRing(verList, radSamp, i, envelope);
      i := i + 1;
    }
    if curveType == "open" {
      verList := verList + [ptList[0]];
      verList := verList + [ptList[ptNum - 1]];
    }
  }

  /** The tube's face loops: maxFaceNum side bands, then for "open" the caps.
      Before them, `reserve(maxFaceNum * radSamp + radSamp)` throws when
      radSamp is negative and the type is known, as maxFaceNum + 1 is then
      positive; for an unknown type maxFaceNum + 1 is 0. */
  method TubeFaceLoop(ptNum: int, radSamp: int, curveType: string) returns (r: Outcome<seq<Face>>)
    requires ptNum >= 2
    ensures r.LengthError? <==> radSamp < 0 && (curveType == "closed" || curveType == "open")
    ensures r.Built? ==> r.value == TubeFaces(ptNum, Samples(radSamp), curveType)
  {
    ghost var n := Samples(radSamp);
    var maxFaceNum;
    if curveType == "closed" {
      maxFaceNum := ptNum;
    } else if curveType == "open" {
      maxFaceNum := ptNum - 1;
    } else {
      maxFaceNum := -1;
    }
    assert maxFaceNum == MaxFaceNum(curveType, ptNum);

    ProductNegative(maxFaceNum + 1, radSamp);
    if ReserveThrows(maxFaceNum * radSamp + radSamp) {
      return LengthError;
    }
    var faceList: seq<Face> := [];
    var i := 0;
    while i < maxFaceNum
      invariant 0 <= i && (i <= maxFaceNum || i == 0)
      invariant faceList == TubeBands(ptNum, n, i)
    {
      faceList := TubeBandLoop(faceList, ptNum, radSamp, i);
      i := i + 1;
    }
    assert TubeBands(ptNum, n, i) == TubeBands(ptNum, n, maxFaceNum);

    if curveType == "open" {
      faceList := TubeCapLoop(faceList, ptNum, radSamp);
    }
    r := Built(faceList);
  }

  /** `reserve(ptNum * radSamp + 2)` of the tube's vertex list, for ptNum >= 2,
      throws when radSamp is -2 or less, or -1 with three points or more. */
  lemma CurveVertexReserve(ptNum: int, radSamp: int)
    requires ptNum >= 2
    ensures ReserveThrows(ptNum * radSamp + 2) <==> radSamp <= -2 || (radSamp == -1 && ptNum >= 3)
  {
    if radSamp <= -2 {
      assert ptNum * radSamp <= 2 * radSamp by {
        assert (ptNum - 2) * radSamp <= 0 by {
          ProductNegative(ptNum - 2, radSamp);
        }
      }
    } else if radSamp >= 0 {
      assert ptNum * radSamp >= 0 by {
        ProductNegative(ptNum, radSamp);
      }
    }
  }

  /** Create3DCurve(ptList, radius, radSamp, type): the vertex and triangle
      lists of a tube swept along the polyline. `envelope(i, j)` is sample j
      of the circle around point i, which the C++ code computes from a
      normalised frame with cosines and sines. The C++ function builds these
      two lists and returns no mesh. The frame needs two points at least.
      A negative radSamp makes the vertex list's `reserve` throw (see
      CurveVertexReserve) or, for a known type, the face list's. */
  method Create3DCurve(ptList: seq<Vec3>, radSamp: int, curveType: string, envelope: (int, int) -> Vec3)
    returns (r: Outcome<(seq<Vec3>, seq<Face>)>)
    requires |ptList| >= 2
    ensures r.LengthError? <==>
      radSamp < 0 && (curveType == "closed" || curveType == "open" || radSamp <= -2 || |ptList| >= 3)
    ensures r.Built? ==> r.value.0 == TubeVertices(ptList, Samples(radSamp), curveType, envelope)
    ensures r.Built? ==> r.value.1 == TubeFaces(|ptList|, Samples(radSamp), curveType)
  {
    CurveVertexReserve(|ptList|, radSamp);
    if ReserveThrows(|ptList| * radSamp + 2) {
      return LengthError;
    }
    var verList := TubeVertexLoop(ptList, radSamp, curveType, envelope);
    var faceList := TubeFaceLoop(|ptList|, radSamp, curveType);
    if faceList.LengthError? {
      return LengthError;
    }
    r := Built((verList, faceList.value));
  }
}
