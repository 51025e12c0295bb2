/** MeshConnect of MeshBoolean.cpp: two meshes placed side by side in one
    vertex and one face matrix, without welding any vertex, and its fold over
    a list of meshes. */
module MeshBoolean {
  import opened Geometry
  import opened Meshes

  /** A face row with every index increased by `d` (`FaceM.array() + d`). */
  function OffsetFace(f: Face, d: int): Face {
    Face(f.v0 + d, f.v1 + d, f.v2 + d)
  }

  function OffsetFaces(faces: seq<Face>, d: int): (r: seq<Face>)
    ensures |r| == |faces|
  {
    seq(|faces|, k requires 0 <= k < |faces| => OffsetFace(faces[k], d))
  }

  /** The value MeshConnect(A, B) builds: A's rows, then B's vertex rows and
      B's face rows shifted past A's vertices. */
  function Connect(a: MeshData, b: MeshData): (r: MeshData)
    ensures |r.ver| == |a.ver| + |b.ver| && |r.face| == |a.face| + |b.face|
    ensures r.ver[..|a.ver|] == a.ver && r.ver[|a.ver|..] == b.ver
    ensures r.face[..|a.face|] == a.face
  {
    MeshData(a.ver + b.ver, a.face + OffsetFaces(b.face, |a.ver|))
  }

  /** Face row |FA| + k of the result is B's row k with |VA| added to every
      index. */
  lemma {:induction false} ConnectShiftedRows(a: MeshData, b: MeshData)
    ensures forall k :: 0 <= k < |b.face| ==> Connect(a, b).face[|a.face| + k] == OffsetFace(b.face[k], |a.ver|)
  {
    var r := Connect(a, b);
    forall k | 0 <= k < |b.face|
      ensures r.face[|a.face| + k] == OffsetFace(b.face[k], |a.ver|)
    {
      assert r.face[|a.face| + k] == OffsetFaces(b.face, |a.ver|)[k];
    }
  }

  /** A face valid for B's vertices is, once shifted, valid for the connected
      vertices and names the same point. */
  lemma {:induction false} ConnectPreservesValidity(a: MeshData, b: MeshData)
    requires WellFormed(a) && WellFormed(b)
    ensures WellFormed(Connect(a, b))
  {
    var r := Connect(a, b);
    ConnectShiftedRows(a, b);
    forall k | 0 <= k < |r.face|
      ensures FaceIn(r.face[k], |r.ver|)
    {
      if k < |a.face| {
        assert r.face[k] == r.face[..|a.face|][k];
      } else {
        assert r.face[k] == OffsetFace(b.face[k - |a.face|], |a.ver|);
      }
    }
  }

  /** Shifting by x and then by y is shifting by x + y. */
  lemma {:induction false} OffsetFacesTwice(faces: seq<Face>, x: int, y: int)
    ensures OffsetFaces(OffsetFaces(faces, x), y) == OffsetFaces(faces, x + y)
  {
    var lhs, rhs := OffsetFaces(OffsetFaces(faces, x), y), OffsetFaces(faces, x + y);
    forall k | 0 <= k < |faces|
      ensures lhs[k] == rhs[k]
    {
    }
  }

  /** Shifting distributes over concatenation. */
  lemma {:induction false} OffsetFacesConcat(f: seq<Face>, g: seq<Face>, d: int)
    ensures OffsetFaces(f + g, d) == OffsetFaces(f, d) + OffsetFaces(g, d)
  {
    var lhs, rhs := OffsetFaces(f + g, d), OffsetFaces(f, d) + OffsetFaces(g, d);
    forall k | 0 <= k < |f| + |g|
      ensures lhs[k] == rhs[k]
    {
      if k >= |f| {
        assert (f + g)[k] == g[k - |f|];
      }
    }
  }

  /** Connecting is associative, so a fold over a list of meshes does not
      depend on how the pairs are grouped. */
  lemma {:induction false} ConnectAssociative(a: MeshData, b: MeshData, c: MeshData)
    ensures Connect(Connect(a, b), c) == Connect(a, Connect(b, c))
  {
    var ab, bc := Connect(a, b), Connect(b, c);
    var offB, offC := OffsetFaces(b.face, |a.ver|), OffsetFaces(c.face, |b.ver|);
    var offAC := OffsetFaces(c.face, |a.ver| + |b.ver|);
    assert ab == MeshData(a.ver + b.ver, a.face + offB);
    assert bc == MeshData(b.ver + c.ver, b.face + offC);
    assert Connect(ab, c).ver == Connect(a, bc).ver by {
      assert (a.ver + b.ver) + c.ver == a.ver + (b.ver + c.ver);
    }
    assert Connect(ab, c).face == Connect(a, bc).face by {
      OffsetFacesTwice(c.face, |b.ver|, |a.ver|);
      OffsetFacesConcat(b.face, offC, |a.ver|);
      assert OffsetFaces(b.face + offC, |a.ver|) == offB + offAC;
      assert Connect(ab, c).face == (a.face + offB) + offAC;
      assert Connect(a, bc).face == a.face + (offB + offAC);
    }
  }

  /** The volume sum only reads the vertices the faces name, so appending
      vertices does not change it. */
  lemma {:induction false} VolumeSumExtend(ver: seq<Vec3>, more: seq<Vec3>, faces: seq<Face>)
    requires ValidFaces(faces, |ver|)
    ensures ValidFaces(faces, |ver + more|)
    ensures VolumeSum(ver + more, faces) == VolumeSum(ver, faces)
    decreases |faces|
  {
    if |faces| > 0 {
      var k := |faces| - 1;
      assert FaceIn(faces[k], |ver|);
      VolumeSumExtend(ver, more, faces[..k]);
    }
  }

  /** Shifted faces over vertices placed after `pre` read the same points as
      the original faces over the original vertices. */
  lemma {:induction false} VolumeSumShift(pre: seq<Vec3>, ver: seq<Vec3>, faces: seq<Face>)
    requires ValidFaces(faces, |ver|)
    ensures ValidFaces(OffsetFaces(faces, |pre|), |pre + ver|)
    ensures VolumeSum(pre + ver, OffsetFaces(faces, |pre|)) == VolumeSum(ver, faces)
    decreases |faces|
  {
    var shifted := OffsetFaces(faces, |pre|);
    assert forall k :: 0 <= k < |faces| ==> FaceIn(shifted[k], |pre + ver|) by {
      forall k | 0 <= k < |faces|
        ensures FaceIn(shifted[k], |pre + ver|)
      {
        assert FaceIn(faces[k], |ver|);
      }
    }
    if |faces| > 0 {
      var k := |faces| - 1;
      assert shifted[..k] == OffsetFaces(faces[..k], |pre|);
      VolumeSumShift(pre, ver, faces[..k]);
      var f := faces[k];
      assert FaceIn(f, |ver|);
      assert (pre + ver)[f.v0 + |pre|] == ver[f.v0];
      assert (pre + ver)[f.v1 + |pre|] == ver[f.v1];
      assert (pre + ver)[f.v2 + |pre|] == ver[f.v2];
    }
  }

  /** The volume sum of a concatenation of face lists is the sum of theirs. */
  lemma {:induction false} VolumeSumConcat(ver: seq<Vec3>, f: seq<Face>, g: seq<Face>)
    requires ValidFaces(f, |ver|) && ValidFaces(g, |ver|)
    ensures ValidFaces(f + g, |ver|)
    ensures VolumeSum(ver, f + g) == VolumeSum(ver, f) + VolumeSum(ver, g)
    decreases |g|
  {
    ValidFacesConcat(f, g, |ver|);
    if |g| > 0 {
      var k := |g| - 1;
      assert (f + g)[..|f| + k] == f + g[..k];
      assert (f + g)[|f| + k] == g[k];
      ValidFacesConcat(f, g[..k], |ver|);
      VolumeSumConcat(ver, f, g[..k]);
      assert VolumeSum(ver, g) == VolumeSum(ver, g[..k]) + FaceTerm(ver, g[k]);
      assert VolumeSum(ver, f + g) == VolumeSum(ver, f + g[..k]) + FaceTerm(ver, g[k]);
    } else {
      assert f + g == f;
    }
  }

  /** MeshConnect adds volumes: the connected mesh encloses the signed volume
      of A plus that of B. */
  lemma {:induction false} ConnectVolume(a: MeshData, b: MeshData)
    requires WellFormed(a) && WellFormed(b)
    ensures WellFormed(Connect(a, b))
    ensures Volume(Connect(a, b).ver, Connect(a, b).face) == Volume(a.ver, a.face) + Volume(b.ver, b.face)
  {
    ConnectPreservesValidity(a, b);
    var ver := a.ver + b.ver;
    var shifted := OffsetFaces(b.face, |a.ver|);
    VolumeSumExtend(a.ver, b.ver, a.face);
    VolumeSumShift(a.ver, b.ver, b.face);
    VolumeSumConcat(ver, a.face, shifted);
  }

  /** MeshConnect(meshA, meshB): resizes V and F to the combined sizes and
      copies A's rows, then B's vertex rows and B's face rows plus |VA|. The
      two inputs are left as they were. */
  method MeshConnect(meshA: Mesh, meshB: Mesh) returns (mesh: Mesh)
    ensures fresh(mesh)
    ensures mesh.Data() == Connect(meshA.Data(), meshB.Data())
  {
    var numVerA, numVerB := |meshA.VerM|, |meshB.VerM|;
    var numFaceA, numFaceB := |meshA.FaceM|, |meshB.FaceM|;
    var V: seq<Vec3> := seq(numVerA + numVerB, _ => Zero);
    var F: seq<Face> := seq(numFaceA + numFaceB, _ => Face(0, 0, 0));
    V := CopyVertexBlock(V, 0, meshA.VerM);
    F := CopyFaceBlock(F, 0, meshA.FaceM, 0);
    V := CopyVertexBlock(V, numVerA, meshB.VerM);
    F := CopyFaceBlock(F, numFaceA, meshB.FaceM, numVerA);
    assert V == meshA.VerM + meshB.VerM;
    assert F == meshA.FaceM + OffsetFaces(meshB.FaceM, numVerA);
    mesh := new Mesh.FromMatrices(V, F);
  }

  /** `V.block(start, 0, |rows|, 3) = rows`. */
  method CopyVertexBlock(V: seq<Vec3>, start: nat, rows: seq<Vec3>) returns (out: seq<Vec3>)
    requires start + |rows| <= |V|
    ensures |out| == |V|
    ensures out[..start] == V[..start] && out[start + |rows|..] == V[start + |rows|..]
    ensures out[start..start + |rows|] == rows
  {
    out := V;
    var i := 0;
    while i < |rows|
      invariant 0 <= i <= |rows| && |out| == |V|
      invariant forall k :: 0 <= k < |V| ==> out[k] == if start <= k < start + i then rows[k - start] else V[k]
    {
      out := out[start + i := rows[i]];
      i := i + 1;
    }
    assert out[start..start + |rows|] == rows by {
      forall k | 0 <= k < |rows| ensures out[start..start + |rows|][k] == rows[k] {
        assert out[start + k] == rows[k];
      }
    }
  }

  /** `F.block(start, 0, |rows|, 3) = rows.array() + d`. */
  method CopyFaceBlock(F: seq<Face>, start: nat, rows: seq<Face>, d: int) returns (out: seq<Face>)
    requires start + |rows| <= |F|
    ensures |out| == |F|
    ensures out[..start] == F[..start] && out[start + |rows|..] == F[start + |rows|..]
    ensures out[start..start + |rows|] == OffsetFaces(rows, d)
  {
    out := F;
    var i := 0;
    while i < |rows|
      invariant 0 <= i <= |rows| && |out| == |F|
      invariant forall k :: 0 <= k < |F| ==> out[k] == if start <= k < start + i then OffsetFace(rows[k - start], d) else F[k]
    {
      out := out[start + i := OffsetFace(rows[i], d)];
      i := i + 1;
    }
    assert out[start..start + |rows|] == OffsetFaces(rows, d) by {
      forall k | 0 <= k < |rows| ensures out[start..start + |rows|][k] == OffsetFaces(rows, d)[k] {
        assert out[start + k] == OffsetFace(rows[k], d);
      }
    }
  }

  /** The values of a list of meshes. */
  function Datas(meshlist: seq<Mesh>): (r: seq<MeshData>)
    reads set m | m in meshlist
    ensures |r| == |meshlist|
  {
    seq(|meshlist|, i reads meshlist requires 0 <= i < |meshlist| => meshlist[i].Data())
  }

  /** `acc` connected with every mesh of `ds` in turn. */
  function ConnectAll(acc: MeshData, ds: seq<MeshData>): MeshData
    decreases |ds|
  {
    if |ds| == 0 then acc else Connect(ConnectAll(acc, ds[..|ds| - 1]), ds[|ds| - 1])
  }

  /** The total number of vertex rows of a list of meshes. */
  function TotalVer(ds: seq<MeshData>): nat
    decreases |ds|
  {
    if |ds| == 0 then 0 else TotalVer(ds[..|ds| - 1]) + |ds[|ds| - 1].ver|
  }

  /** The total number of face rows of a list of meshes. */
  function TotalFace(ds: seq<MeshData>): nat
    decreases |ds|
  {
    if |ds| == 0 then 0 else TotalFace(ds[..|ds| - 1]) + |ds[|ds| - 1].face|
  }

  /** Folding adds up the sizes and keeps every face valid. */
  lemma {:induction false} ConnectAllShape(acc: MeshData, ds: seq<MeshData>)
    ensures |ConnectAll(acc, ds).ver| == |acc.ver| + TotalVer(ds)
    ensures |ConnectAll(acc, ds).face| == |acc.face| + TotalFace(ds)
    ensures WellFormed(acc) && (forall i :: 0 <= i < |ds| ==> WellFormed(ds[i])) ==> WellFormed(ConnectAll(acc, ds))
    decreases |ds|
  {
    if |ds| > 0 {
      var k := |ds| - 1;
      ConnectAllShape(acc, ds[..k]);
      if WellFormed(acc) && (forall i :: 0 <= i < |ds| ==> WellFormed(ds[i])) {
        assert forall i :: 0 <= i < k ==> ds[..k][i] == ds[i];
        ConnectPreservesValidity(ConnectAll(acc, ds[..k]), ds[k]);
      }
    }
  }

  /** MeshConnect(meshlist) as written: starts from meshlist[0] and then
      connects every mesh of the list, meshlist[0] included. The C++ code
      prints a message for an empty list and goes on to read meshlist[0]
      anyway, so the list must not be empty. */
  method MeshConnectList(meshlist: seq<Mesh>) returns (mesh: Mesh)
    requires |meshlist| > 0
    ensures mesh.Data() == ConnectAll(meshlist[0].Data(), Datas(meshlist))
  {
    ghost var ds := Datas(meshlist);
    mesh := meshlist[0];
    var i := 0;
    while i < |meshlist|
      invariant 0 <= i <= |meshlist|
      invariant mesh.Data() == ConnectAll(ds[0], ds[..i])
      invariant Datas(meshlist) == ds
    {
      assert ds[..i + 1][..i] == ds[..i];
      mesh := MeshConnect(mesh, meshlist[i]);
      i := i + 1;
    }
    assert ds[..i] == ds;
  }

  /** As written, the first mesh appears twice: the result has |V0| vertex
      rows more than all meshes together, and a one-mesh list gives that mesh
      doubled rather than the mesh itself. */
  lemma {:induction false} MeshConnectListDuplicatesFirst(ds: seq<MeshData>)
    requires |ds| > 0
    ensures |ConnectAll(ds[0], ds).ver| == |ds[0].ver| + TotalVer(ds)
    ensures |ConnectAll(ds[0], ds).face| == |ds[0].face| + TotalFace(ds)
    ensures |ds| == 1 ==> ConnectAll(ds[0], ds) == Connect(ds[0], ds[0])
  {
    ConnectAllShape(ds[0], ds);
    if |ds| == 1 {
      assert ds[..0] == [];
    }
  }

  /** The evidently intended fold: meshlist[0] connected with the rest. */
  function ConnectList(ds: seq<MeshData>): MeshData
    requires |ds| > 0
  {
    ConnectAll(ds[0], ds[1..])
  }

  /** TotalVer and TotalFace split off the first mesh. */
  lemma {:induction false} TotalsFirst(ds: seq<MeshData>)
    requires |ds| > 0
    ensures TotalVer(ds) == |ds[0].ver| + TotalVer(ds[1..])
    ensures TotalFace(ds) == |ds[0].face| + TotalFace(ds[1..])
    decreases |ds|
  {
    if |ds| > 1 {
      var k := |ds| - 1;
      TotalsFirst(ds[..k]);
      assert ds[..k][1..] == ds[1..][..k - 1];
      assert ds[..k][0] == ds[0];
      assert ds[1..][k - 1] == ds[k];
    }
  }

  /** With the corrected fold every mesh is counted once, a one-mesh list
      gives that mesh back, and well-formed meshes connect to a well-formed
      mesh. */
  lemma {:induction false} ConnectListShape(ds: seq<MeshData>)
    requires |ds| > 0
    ensures |ConnectList(ds).ver| == TotalVer(ds) && |ConnectList(ds).face| == TotalFace(ds)
    ensures |ds| == 1 ==> ConnectList(ds) == ds[0]
    ensures (forall i :: 0 <= i < |ds| ==> WellFormed(ds[i])) ==> WellFormed(ConnectList(ds))
  {
    ConnectAllShape(ds[0], ds[1..]);
    TotalsFirst(ds);
    if forall i :: 0 <= i < |ds| ==> WellFormed(ds[i]) {
      assert forall i :: 0 <= i < |ds| - 1 ==> ds[1..][i] == ds[i + 1];
    }
  }
}
