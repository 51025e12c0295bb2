/** The mesh entity of Mesh.h / Mesh.cpp: an n x 3 vertex matrix `VerM` and an
    m x 3 triangle index matrix `FaceM`, with the conversions between those
    matrices and vertex/face lists, winding reversal, affine transforms and the
    signed volume. A matrix is a sequence of its rows. */
module Meshes {
  import opened Geometry
  import opened HelpFunc

  /** One row of `FaceM` (Eigen::Vector3i): the indices of a triangle's corners. */
  datatype Face = Face(v0: int, v1: int, v2: int)

  /** A triangle whose three indices name rows of a vertex matrix with `n` rows. */
  predicate FaceIn(f: Face, n: int) {
    0 <= f.v0 < n && 0 <= f.v1 < n && 0 <= f.v2 < n
  }

  /** Every triangle of `faces` indexes into `n` vertices. */
  predicate ValidFaces(faces: seq<Face>, n: int) {
    forall i :: 0 <= i < |faces| ==> FaceIn(faces[i], n)
  }

  /** Face lists placed one after the other are valid exactly when each is. */
  lemma ValidFacesConcat(a: seq<Face>, b: seq<Face>, n: int)
    ensures ValidFaces(a + b, n) <==> ValidFaces(a, n) && ValidFaces(b, n)
  {
    if ValidFaces(a + b, n) {
      forall i | 0 <= i < |a|
        ensures FaceIn(a[i], n)
      {
        assert (a + b)[i] == a[i];
      }
      forall i | 0 <= i < |b|
        ensures FaceIn(b[i], n)
      {
        assert (a + b)[|a| + i] == b[i];
      }
    }
    if ValidFaces(a, n) && ValidFaces(b, n) {
      forall i | 0 <= i < |a + b|
        ensures FaceIn((a + b)[i], n)
      {
        if i >= |a| {
          assert (a + b)[i] == b[i - |a|];
        }
      }
    }
  }

  /** A face list valid for n vertices stays valid for more. */
  lemma ValidFacesMono(faces: seq<Face>, n: int, m: int)
    requires ValidFaces(faces, n) && n <= m
    ensures ValidFaces(faces, m)
  {
  }

  /** A vertex and a face matrix taken together as a value. */
  datatype MeshData = MeshData(ver: seq<Vec3>, face: seq<Face>)

  predicate WellFormed(m: MeshData) {
    ValidFaces(m.face, |m.ver|)
  }

  /** A triangle with its second and third corners swapped: the same triangle
      with the opposite orientation. */
  function Flip(f: Face): Face {
    Face(f.v0, f.v2, f.v1)
  }

  /** Every row of a face matrix flipped. */
  function Flipped(faces: seq<Face>): (r: seq<Face>)
    ensures |r| == |faces|
  {
    seq(|faces|, i requires 0 <= i < |faces| => Flip(faces[i]))
  }

  /** Reversing the winding twice gives back the original faces, and it never
      moves an index out of range or changes which vertex comes first. */
  lemma {:induction false} FlippedInvolution(faces: seq<Face>, n: int)
    ensures Flipped(Flipped(faces)) == faces
    ensures ValidFaces(Flipped(faces), n) <==> ValidFaces(faces, n)
    ensures forall i :: 0 <= i < |faces| ==> Flipped(faces)[i].v0 == faces[i].v0
  {
    var ff := Flipped(Flipped(faces));
    forall i | 0 <= i < |faces|
      ensures ff[i] == faces[i]
    {
      assert Flipped(faces)[i] == Flip(faces[i]);
    }
    if ValidFaces(faces, n) {
      forall i | 0 <= i < |faces|
        ensures FaceIn(Flipped(faces)[i], n)
      {
        assert FaceIn(faces[i], n);
      }
    }
    if ValidFaces(Flipped(faces), n) {
      forall i | 0 <= i < |faces|
        ensures FaceIn(faces[i], n)
      {
        assert FaceIn(Flipped(faces)[i], n);
      }
    }
  }

  /** Every vertex moved by `MultiplyPoint(aff, .)`. */
  function Transformed(aff: Affine, ver: seq<Vec3>): (r: seq<Vec3>)
    ensures |r| == |ver|
  {
    seq(|ver|, i requires 0 <= i < |ver| => MultiplyPoint(aff, ver[i]))
  }

  /** Transforming by `b` and then by `a` is transforming by the product a * b. */
  lemma {:induction false} TransformedCompose(a: Affine, b: Affine, ver: seq<Vec3>)
    ensures Transformed(a, Transformed(b, ver)) == Transformed(Compose(a, b), ver)
  {
    forall i | 0 <= i < |ver|
      ensures Transformed(a, Transformed(b, ver))[i] == Transformed(Compose(a, b), ver)[i]
    {
      MultiplyPointCompose(a, b, ver[i]);
    }
  }

  /** Translating every vertex by `t` and then by `-t` restores every vertex. */
  lemma {:induction false} TranslateRoundTrip(t: Vec3, ver: seq<Vec3>)
    ensures Transformed(GetTranslationMatrix(Neg(t)), Transformed(GetTranslationMatrix(t), ver)) == ver
  {
    var back := Transformed(GetTranslationMatrix(Neg(t)), Transformed(GetTranslationMatrix(t), ver));
    forall i | 0 <= i < |ver|
      ensures back[i] == ver[i]
    {
      TranslationRoundTrip(t, ver[i]);
    }
  }

  /** The summand of ComputeVolume for a triangle with corners a, b, c:
      (origin - c) . ((b - c) x (a - c)), six times the signed volume of the
      tetrahedron spanned by the origin and the triangle. */
  function SignedTerm(a: Vec3, b: Vec3, c: Vec3): real {
    Dot(Sub(Zero, c), Cross(Sub(b, c), Sub(a, c)))
  }

  /** The summand is the triple product a . (b x c). */
  lemma {:induction false} SignedTermIsTripleProduct(a: Vec3, b: Vec3, c: Vec3)
    ensures SignedTerm(a, b, c) == Dot(a, Cross(b, c))
  {
  }

  /** Swapping the last two corners negates the summand. */
  lemma {:induction false} SignedTermSwap(a: Vec3, b: Vec3, c: Vec3)
    ensures SignedTerm(a, c, b) == -SignedTerm(a, b, c)
  {
    SignedTermIsTripleProduct(a, b, c);
    SignedTermIsTripleProduct(a, c, b);
  }

  function FaceTerm(ver: seq<Vec3>, f: Face): real
    requires FaceIn(f, |ver|)
  {
    SignedTerm(ver[f.v0], ver[f.v1], ver[f.v2])
  }

  /** The sum of the per-face summands, accumulated in face order. */
  function VolumeSum(ver: seq<Vec3>, faces: seq<Face>): real
    requires ValidFaces(faces, |ver|)
  {
    if |faces| == 0 then 0.0
    else VolumeSum(ver, faces[..|faces| - 1]) + FaceTerm(ver, faces[|faces| - 1])
  }

  /** The signed volume ComputeVolume returns: the summands' total over six.
      A mesh without faces has volume 0. */
  function Volume(ver: seq<Vec3>, faces: seq<Face>): (r: real)
    requires ValidFaces(faces, |ver|)
    ensures |faces| == 0 ==> r == 0.0
  {
    VolumeSum(ver, faces) / 6.0
  }

  /** Reversing every triangle's winding negates the signed volume. */
  lemma {:induction false} FlippedNegatesVolumeSum(ver: seq<Vec3>, faces: seq<Face>)
    requires ValidFaces(faces, |ver|)
    ensures ValidFaces(Flipped(faces), |ver|)
    ensures VolumeSum(ver, Flipped(faces)) == -VolumeSum(ver, faces)
    decreases |faces|
  {
    FlippedInvolution(faces, |ver|);
    if |faces| > 0 {
      var k := |faces| - 1;
      assert Flipped(faces)[..k] == Flipped(faces[..k]);
      FlippedNegatesVolumeSum(ver, faces[..k]);
      var f := faces[k];
      assert FaceIn(f, |ver|);
      SignedTermSwap(ver[f.v0], ver[f.v1], ver[f.v2]);
    }
  }

  lemma {:induction false} FlippedNegatesVolume(ver: seq<Vec3>, faces: seq<Face>)
    requires ValidFaces(faces, |ver|)
    ensures ValidFaces(Flipped(faces), |ver|)
    ensures Volume(ver, Flipped(faces)) == -Volume(ver, faces)
  {
    FlippedNegatesVolumeSum(ver, faces);
  }

  /** Mesh: the vertex matrix and the face matrix, each row of which the
      operations below rewrite in place. */
  class Mesh {
    var VerM: seq<Vec3>
    var FaceM: seq<Face>

    function Data(): MeshData
      reads this
    {
      MeshData(VerM, FaceM)
    }

    /** Mesh(verM, triM): copies the two matrices. */
    constructor FromMatrices(verM: seq<Vec3>, faceM: seq<Face>)
      ensures VerM == verM && FaceM == faceM
    {
      VerM := verM;
      FaceM := faceM;
    }

    /** Mesh(verList, faceList): fills the matrices from the lists row by row. */
    constructor FromLists(verList: seq<Vec3>, faceList: seq<Face>)
      ensures VerM == verList && FaceM == faceList
    {
      VerM := [];
      FaceM := [];
      new;
      VerList2VerMat(verList);
      FaceList2FaceMat(faceList);
    }

    /** Resizes `VerM` to the list's length and copies the list into it. */
    method VerList2VerMat(verList: seq<Vec3>)
      modifies this
      ensures VerM == verList && FaceM == old(FaceM)
    {
      VerM := seq(|verList|, _ => Zero);
      var i := 0;
      while i < |verList|
        invariant 0 <= i <= |verList| == |VerM|
        invariant VerM[..i] == verList[..i]
        invariant FaceM == old(FaceM)
      {
        VerM := VerM[i := Vec3(verList[i].x, verList[i].y, verList[i].z)];
        i := i + 1;
      }
      assert VerM == VerM[..i];
      assert verList == verList[..i];
    }

    /** Resizes `FaceM` to the list's length and copies the list into it. */
    method FaceList2FaceMat(faceList: seq<Face>)
      modifies this
      ensures FaceM == faceList && VerM == old(VerM)
    {
      FaceM := seq(|faceList|, _ => Face(0, 0, 0));
      var i := 0;
      while i < |faceList|
        invariant 0 <= i <= |faceList| == |FaceM|
        invariant FaceM[..i] == faceList[..i]
        invariant VerM == old(VerM)
      {
        FaceM := FaceM[i := Face(faceList[i].v0, faceList[i].v1, faceList[i].v2)];
        i := i + 1;
      }
      assert FaceM == FaceM[..i];
      assert faceList == faceList[..i];
    }

    /** Reads the face matrix out into a list, row by row. */
    method FaceMat2FaceList() returns (faceList: seq<Face>)
      ensures faceList == FaceM
    {
      faceList := seq(|FaceM|, _ => Face(0, 0, 0));
      var i := 0;
      while i < |FaceM|
        invariant 0 <= i <= |FaceM| == |faceList|
        invariant faceList[..i] == FaceM[..i]
      {
        faceList := faceList[i := Face(FaceM[i].v0, FaceM[i].v1, FaceM[i].v2)];
        i := i + 1;
      }
      assert faceList == faceList[..i];
      assert FaceM == FaceM[..i];
    }

    /** Reads the vertex matrix out into a list, row by row. */
    method VerMat2VerList() returns (verList: seq<Vec3>)
      ensures verList == VerM
    {
      verList := seq(|VerM|, _ => Zero);
      var i := 0;
      while i < |VerM|
        invariant 0 <= i <= |VerM| == |verList|
        invariant verList[..i] == VerM[..i]
      {
        verList := verList[i := Vec3(VerM[i].x, VerM[i].y, VerM[i].z)];
        i := i + 1;
      }
      assert verList == verList[..i];
      assert VerM == VerM[..i];
    }

    /** Swaps columns 1 and 2 of every face row; the vertices are untouched. */
    method ReverseNormal()
      modifies this
      ensures FaceM == Flipped(old(FaceM))
      ensures VerM == old(VerM)
    {
      var i := 0;
      while i < |FaceM|
        invariant 0 <= i <= |FaceM| == |old(FaceM)|
        invariant forall k :: 0 <= k < i ==> FaceM[k] == Flip(old(FaceM)[k])
        invariant forall k :: i <= k < |FaceM| ==> FaceM[k] == old(FaceM)[k]
        invariant VerM == old(VerM)
      {
        var y := FaceM[i].v1;
        var z := FaceM[i].v2;
        FaceM := FaceM[i := FaceM[i].(v1 := z)];
        FaceM := FaceM[i := FaceM[i].(v2 := y)];
        i := i + 1;
      }
    }

    /** Transform(affineMat): replaces every vertex row by its image; the
        faces are untouched. */
    method Transform(aff: Affine)
      modifies this
      ensures VerM == Transformed(aff, old(VerM))
      ensures FaceM == old(FaceM)
    {
      var i := 0;
      while i < |VerM|
        invariant 0 <= i <= |VerM| == |old(VerM)|
        invariant forall k :: 0 <= k < i ==> VerM[k] == MultiplyPoint(aff, old(VerM)[k])
        invariant forall k :: i <= k < |VerM| ==> VerM[k] == old(VerM)[k]
        invariant FaceM == old(FaceM)
      {
        VerM := VerM[i := MultiplyPoint(aff, VerM[i])];
        i := i + 1;
      }
    }

    /** Transform(affineMat, newVerM): writes the images of the vertices into a
        new matrix and leaves the mesh as it is. */
    method TransformInto(aff: Affine) returns (newVerM: seq<Vec3>)
      ensures newVerM == Transformed(aff, VerM)
    {
      newVerM := VerM;
      var i := 0;
      while i < |VerM|
        invariant 0 <= i <= |VerM| == |newVerM|
        invariant forall k :: 0 <= k < i ==> newVerM[k] == MultiplyPoint(aff, VerM[k])
      {
        newVerM := newVerM[i := MultiplyPoint(aff, VerM[i])];
        i := i + 1;
      }
    }

    /** ComputeVolume(): accumulates the per-face summands in face order and
        divides by six. Every face must index existing vertex rows. */
    method ComputeVolume() returns (volume: real)
      requires ValidFaces(FaceM, |VerM|)
      ensures volume == Volume(VerM, FaceM)
    {
      volume := 0.0;
      var i := 0;
      while i < |FaceM|
        invariant 0 <= i <= |FaceM|
        invariant volume == VolumeSum(VerM, FaceM[..i])
      {
        var f := FaceM[i];
        assert FaceIn(f, |VerM|);
        var v0, v1, v2 := VerM[f.v0], VerM[f.v1], VerM[f.v2];
        volume := volume + Dot(Sub(Zero, v2), Cross(Sub(v1, v2), Sub(v0, v2)));
        assert FaceM[..i + 1][..i] == FaceM[..i];
        i := i + 1;
      }
      assert FaceM[..i] == FaceM;
      volume := volume / 6.0;
    }
  }

  /** Filling a mesh from lists and reading its matrices back out returns the
      lists unchanged. */
  method ListsRoundTrip(verList: seq<Vec3>, faceList: seq<Face>) returns (verOut: seq<Vec3>, faceOut: seq<Face>)
    ensures verOut == verList && faceOut == faceList
  {
    var mesh := new Mesh.FromLists(verList, faceList);
    verOut := mesh.VerMat2VerList();
    faceOut := mesh.FaceMat2FaceList();
  }

  /** Reversing the normals of a mesh twice restores its faces, and each
      reversal negates its volume. */
  method ReverseNormalTwice(mesh: Mesh) returns (v0: real, v1: real, v2: real)
    requires ValidFaces(mesh.FaceM, |mesh.VerM|)
    modifies mesh
    ensures mesh.FaceM == old(mesh.FaceM) && mesh.VerM == old(mesh.VerM)
    ensures v1 == -v0 && v2 == v0
  {
    v0 := mesh.ComputeVolume();
    FlippedNegatesVolume(mesh.VerM, mesh.FaceM);
    mesh.ReverseNormal();
    v1 := mesh.ComputeVolume();
    FlippedNegatesVolume(mesh.VerM, mesh.FaceM);
    FlippedInvolution(old(mesh.FaceM), |mesh.VerM|);
    mesh.ReverseNormal();
    v2 := mesh.ComputeVolume();
  }
}
