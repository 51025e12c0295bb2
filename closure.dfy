/** Closedness of the generated triangle lists: every directed edge of the
    cuboid's and of the cylinder's triangles occurs once, and so does its
    reverse, so the surface has no boundary and all of its triangles are wound
    the same way. An edge is located by its slot 3k + s: side s of triangle k. */
module Closure {
  import opened Meshes
  import opened MeshShapes

  /** Side s of a triangle, from corner s to the next corner. */
  function Edge(f: Face, s: int): (int, int) {
    if s == 0 then (f.v0, f.v1) else if s == 1 then (f.v1, f.v2) else (f.v2, f.v0)
  }

  function Reverse(e: (int, int)): (int, int) {
    (e.1, e.0)
  }

  /** No directed edge is the side of two triangles, or twice the side of one. */
  predicate EdgesDistinct(faces: seq<Face>) {
    forall k1, s1, k2, s2 ::
      (0 <= k1 < |faces| && 0 <= s1 < 3 && 0 <= k2 < |faces| && 0 <= s2 < 3 &&
       Edge(faces[k1], s1) == Edge(faces[k2], s2)) ==> k1 == k2 && s1 == s2
  }

  /** The directed edge e is a side of some triangle. */
  predicate IsSide(faces: seq<Face>, e: (int, int)) {
    exists k, s :: 0 <= k < |faces| && 0 <= s < 3 && Edge(faces[k], s) == e
  }

  /** Every directed edge is matched by the reversed edge of some triangle. */
  predicate EdgesPaired(faces: seq<Face>) {
    forall k, s :: 0 <= k < |faces| && 0 <= s < 3 ==> IsSide(faces, Reverse(Edge(faces[k], s)))
  }

  /** A closed, consistently wound triangle list. */
  predicate Closed(faces: seq<Face>) {
    EdgesDistinct(faces) && EdgesPaired(faces)
  }

  /** A decoding of edges to slots that finds every side at its own slot
      shows that the sides are distinct. */
  lemma {:induction false} DistinctByDecoding(faces: seq<Face>, slot: ((int, int)) -> int)
    requires forall k, s :: 0 <= k < |faces| && 0 <= s < 3 ==> slot(Edge(faces[k], s)) == 3 * k + s
    ensures EdgesDistinct(faces)
  {
    forall k1, s1, k2, s2 |
      0 <= k1 < |faces| && 0 <= s1 < 3 && 0 <= k2 < |faces| && 0 <= s2 < 3 &&
      Edge(faces[k1], s1) == Edge(faces[k2], s2)
      ensures k1 == k2 && s1 == s2
    {
      assert 3 * k1 + s1 == 3 * k2 + s2 by {
        assert slot(Edge(faces[k1], s1)) == 3 * k1 + s1;
        assert slot(Edge(faces[k2], s2)) == 3 * k2 + s2;
      }
    }
  }

  /** A decoding that sends every reversed side to a slot holding it shows
      that the sides are paired. */
  lemma {:induction false} PairedByDecoding(faces: seq<Face>, slot: ((int, int)) -> int)
    requires forall k, s :: 0 <= k < |faces| && 0 <= s < 3 ==>
      0 <= slot(Reverse(Edge(faces[k], s))) < 3 * |faces| &&
      Edge(faces[slot(Reverse(Edge(faces[k], s))) / 3], slot(Reverse(Edge(faces[k], s))) % 3) == Reverse(Edge(faces[k], s))
    ensures EdgesPaired(faces)
  {
    forall k, s | 0 <= k < |faces| && 0 <= s < 3
      ensures IsSide(faces, Reverse(Edge(faces[k], s)))
    {
      var p := slot(Reverse(Edge(faces[k], s)));
      assert 0 <= p < 3 * |faces|;
      var k2, s2 := p / 3, p % 3;
      assert 0 <= k2 < |faces| && 0 <= s2 < 3;
      assert Edge(faces[k2], s2) == Reverse(Edge(faces[k], s));
    }
  }

  /* ---------------------------------------------------------------- cuboid */

  /** The slot of a directed edge of the cuboid, or -1 for a pair of
      corners that is not one. */
  function CuboidSlot(e: (int, int)): int {
    match e
    case (0, 1) => 17
    case (0, 3) => 30
    case (0, 4) => 13
    case (1, 0) => 12
    case (1, 2) => 27
    case (1, 3) => 15
    case (1, 4) => 26
    case (1, 5) => 23
    case (2, 1) => 22
    case (2, 3) => 28
    case (2, 5) => 20
    case (2, 6) => 7
    case (2, 7) => 11
    case (3, 0) => 16
    case (3, 1) => 29
    case (3, 2) => 10
    case (3, 4) => 31
    case (3, 7) => 34
    case (4, 0) => 32
    case (4, 1) => 14
    case (4, 3) => 33
    case (4, 5) => 24
    case (4, 7) => 1
    case (5, 1) => 25
    case (5, 2) => 21
    case (5, 4) => 0
    case (5, 6) => 18
    case (5, 7) => 3
    case (6, 2) => 19
    case (6, 5) => 5
    case (6, 7) => 8
    case (7, 2) => 6
    case (7, 3) => 9
    case (7, 4) => 35
    case (7, 5) => 2
    case (7, 6) => 4
    case _ => -1
  }

  /** Side s of cuboid triangle k sits at its own slot, and its reverse is
      decoded to a slot holding that reversed side. */
  predicate CuboidSideOk(k: int, s: int)
    requires 0 <= k < 12
  {
    var faces := CuboidFaces();
    CuboidSlot(Edge(faces[k], s)) == 3 * k + s &&
    var p := CuboidSlot(Reverse(Edge(faces[k], s)));
    0 <= p < 36 && Edge(faces[p / 3], p % 3) == Reverse(Edge(faces[k], s))
  }

  /** Triangles 0-3: the z = min and y = max sides of the box. */
  lemma {:induction false} CuboidSidesZ(k: int, s: int)
    requires 0 <= k < 4 && 0 <= s < 3
    ensures CuboidSideOk(k, s)
  {
    var faces := CuboidFaces();
    if k == 0 {
      assert faces[k] == Face(5, 4, 7);
    } else if k == 1 {
      assert faces[k] == Face(5, 7, 6);
    } else if k == 2 {
      assert faces[k] == Face(7, 2, 6);
    } else {
      assert faces[k] == Face(7, 3, 2);
    }
  }

  /** Triangles 4-7: halves of the y = min and z = max sides and the x = max side. */
  lemma {:induction false} CuboidSidesY(k: int, s: int)
    requires 4 <= k < 8 && 0 <= s < 3
    ensures CuboidSideOk(k, s)
  {
    var faces := CuboidFaces();
    if k == 4 {
      assert faces[k] == Face(1, 0, 4);
    } else if k == 5 {
      assert faces[k] == Face(1, 3, 0);
    } else if k == 6 {
      assert faces[k] == Face(5, 6, 2);
    } else {
      assert faces[k] == Face(5, 2, 1);
    }
  }

  /** Triangles 8-11: the other halves of y = min and z = max, and the x = min side. */
  lemma {:induction false} CuboidSidesX(k: int, s: int)
    requires 8 <= k < 12 && 0 <= s < 3
    ensures CuboidSideOk(k, s)
  {
    var faces := CuboidFaces();
    if k == 8 {
      assert faces[k] == Face(4, 5, 1);
    } else if k == 9 {
      assert faces[k] == Face(1, 2, 3);
    } else if k == 10 {
      assert faces[k] == Face(0, 3, 4);
    } else {
      assert faces[k] == Face(4, 3, 7);
    }
  }

  /** The cuboid's 36 directed edges are distinct and each is matched by its
      reverse: the box is closed and consistently wound. */
  lemma {:induction false} CuboidClosed()
    ensures Closed(CuboidFaces())
  {
    var faces := CuboidFaces();
    forall k, s | 0 <= k < 12 && 0 <= s < 3
      ensures CuboidSlot(Edge(faces[k], s)) == 3 * k + s
      ensures 0 <= CuboidSlot(Reverse(Edge(faces[k], s))) < 36
      ensures Edge(faces[CuboidSlot(Reverse(Edge(faces[k], s))) / 3], CuboidSlot(Reverse(Edge(faces[k], s))) % 3)
              == Reverse(Edge(faces[k], s))
    {
      if k < 4 {
        CuboidSidesZ(k, s);
      } else if k < 8 {
        CuboidSidesY(k, s);
      } else {
        CuboidSidesX(k, s);
      }
    }
    DistinctByDecoding(faces, CuboidSlot);
    PairedByDecoding(faces, CuboidSlot);
  }

  /* -------------------------------------------------------------- cylinder */

  function Slot(i: int, t: int, s: int): int {
    3 * (4 * i + t) + s
  }

  /** The next and the previous of n samples around a ring. */
  function Next(i: int, n: int): int {
    if i + 1 < n then i + 1 else 0
  }

  function Prev(i: int, n: int): int {
    if i == 0 then n - 1 else i - 1
  }

  /** The slot of an edge of the n-sample cylinder, from the classes of its
      ends: right rim [0, n), left rim [n, 2n), right centre 2n, left
      centre 2n + 1; -1 for a pair that is not an edge. */
  function CylinderSlot(n: int, e: (int, int)): int {
    var a, b := e.0, e.1;
    if 0 <= a < n && 0 <= b < n then
      if a == Next(b, n) then Slot(b, 0, 2) else Slot(a, 2, 0)
    else if 0 <= a < n && n <= b < 2 * n then
      if b - n == a then Slot(a, 1, 2) else Slot(a, 0, 0)
    else if n <= a < 2 * n && 0 <= b < n then
      if a - n == b then Slot(Prev(b, n), 0, 1) else Slot(b, 1, 1)
    else if n <= a < 2 * n && n <= b < 2 * n then
      if b - n == Next(a - n, n) then Slot(a - n, 1, 0) else Slot(b - n, 3, 0)
    else if 0 <= a < n && b == 2 * n then Slot(Prev(a, n), 2, 1)
    else if a == 2 * n && 0 <= b < n then Slot(b, 2, 2)
    else if n <= a < 2 * n && b == 2 * n + 1 then Slot(a - n, 3, 1)
    else if a == 2 * n + 1 && n <= b < 2 * n then Slot(Prev(b - n, n), 3, 2)
    else -1
  }

  /** Slot 3(4i + t) + s names side s of triangle t of iteration i. */
  lemma SlotParts(n: int, i: int, t: int, s: int)
    requires 0 <= i < n && 0 <= t < 4 && 0 <= s < 3
    ensures 0 <= Slot(i, t, s) < 12 * n
    ensures Slot(i, t, s) / 3 / 4 == i && Slot(i, t, s) / 3 % 4 == t && Slot(i, t, s) % 3 == s
  {
    assert Slot(i, t, s) / 3 == 4 * i + t;
  }

  /** Triangle t of iteration i with the successor sample written without
      a remainder. */
  lemma CylinderFaceNext(n: int, i: int, t: int)
    requires 0 <= i < n
    ensures CylinderFace(n, i, t) ==
      var j := Next(i, n);
      if t == 0 then Face(i, j + n, j)
      else if t == 1 then Face(i + n, j + n, i)
      else if t == 2 then Face(i, j, 2 * n)
      else Face(j + n, i + n, 2 * n + 1)
  {
    NextSample(i, n);
  }

  /** Side s of triangle t of iteration i sits at its own slot, and its
      reverse is decoded to a slot holding that reversed side. */
  predicate SideOk(n: int, i: int, t: int, s: int)
    requires n > 0
  {
    CylinderSlot(n, Edge(CylinderFace(n, i, t), s)) == Slot(i, t, s) &&
    var p := CylinderSlot(n, Reverse(Edge(CylinderFace(n, i, t), s)));
    0 <= p < 12 * n && Edge(CylinderFace(n, p / 3 / 4, p / 3 % 4), p % 3) == Reverse(Edge(CylinderFace(n, i, t), s))
  }

  /** Triangle 0 of iteration i, (i, j+n, j) with j the next sample: its
      sides reverse into side 1 of triangle 1, side 2 of triangle 1 of
      iteration j and side 0 of triangle 2. */
  lemma {:induction false} CylinderSide00(n: int, i: int)
    requires 3 <= n && 0 <= i < n
    ensures SideOk(n, i, 0, 0)
  {
    CylinderFaceNext(n, i, 0);
    SlotParts(n, i, 1, 1);
    CylinderFaceNext(n, i, 1);
  }

  lemma {:induction false} CylinderSide01(n: int, i: int)
    requires 3 <= n && 0 <= i < n
    ensures SideOk(n, i, 0, 1)
  {
    var j := Next(i, n);
    CylinderFaceNext(n, i, 0);
    SlotParts(n, j, 1, 2);
    CylinderFaceNext(n, j, 1);
  }

  lemma {:induction false} CylinderSide02(n: int, i: int)
    requires 3 <= n && 0 <= i < n
    ensures SideOk(n, i, 0, 2)
  {
    CylinderFaceNext(n, i, 0);
    SlotParts(n, i, 2, 0);
    CylinderFaceNext(n, i, 2);
  }

  /** Triangle 1 of iteration i, (i+n, j+n, i): its sides reverse into
      side 0 of triangle 3, side 0 of triangle 0 and side 1 of triangle 0 of
      the iteration before. */
  lemma {:induction false} CylinderSide10(n: int, i: int)
    requires 3 <= n && 0 <= i < n
    ensures SideOk(n, i, 1, 0)
  {
    CylinderFaceNext(n, i, 1);
    SlotParts(n, i, 3, 0);
    CylinderFaceNext(n, i, 3);
  }

  lemma {:induction false} CylinderSide11(n: int, i: int)
    requires 3 <= n && 0 <= i < n
    ensures SideOk(n, i, 1, 1)
  {
    CylinderFaceNext(n, i, 1);
    SlotParts(n, i, 0, 0);
    CylinderFaceNext(n, i, 0);
  }

  lemma {:induction false} CylinderSide12(n: int, i: int)
    requires 3 <= n && 0 <= i < n
    ensures SideOk(n, i, 1, 2)
  {
    var h := Prev(i, n);
    CylinderFaceNext(n, i, 1);
    SlotParts(n, h, 0, 1);
    CylinderFaceNext(n, h, 0);
  }

  /** Triangle 2 of iteration i, (i, j, 2n): its sides reverse into side 2
      of triangle 0, side 2 of triangle 2 of iteration j and side 1 of
      triangle 2 of the iteration before. */
  lemma {:induction false} CylinderSide20(n: int, i: int)
    requires 3 <= n && 0 <= i < n
    ensures SideOk(n, i, 2, 0)
  {
    CylinderFaceNext(n, i, 2);
    SlotParts(n, i, 0, 2);
    CylinderFaceNext(n, i, 0);
  }

  lemma {:induction false} CylinderSide21(n: int, i: int)
    requires 3 <= n && 0 <= i < n
    ensures SideOk(n, i, 2, 1)
  {
    var j := Next(i, n);
    CylinderFaceNext(n, i, 2);
    SlotParts(n, j, 2, 2);
    CylinderFaceNext(n, j, 2);
  }

  lemma {:induction false} CylinderSide22(n: int, i: int)
    requires 3 <= n && 0 <= i < n
    ensures SideOk(n, i, 2, 2)
  {
    var h := Prev(i, n);
    CylinderFaceNext(n, i, 2);
    SlotParts(n, h, 2, 1);
    CylinderFaceNext(n, h, 2);
  }

  /** Triangle 3 of iteration i, (j+n, i+n, 2n+1): its sides reverse into
      side 0 of triangle 1, side 2 of triangle 3 of the iteration before and
      side 1 of triangle 3 of iteration j. */
  lemma {:induction false} CylinderSide30(n: int, i: int)
    requires 3 <= n && 0 <= i < n
    ensures SideOk(n, i, 3, 0)
  {
    CylinderFaceNext(n, i, 3);
    SlotParts(n, i, 1, 0);
    CylinderFaceNext(n, i, 1);
  }

  lemma {:induction false} CylinderSide31(n: int, i: int)
    requires 3 <= n && 0 <= i < n
    ensures SideOk(n, i, 3, 1)
  {
    var h := Prev(i, n);
    CylinderFaceNext(n, i, 3);
    SlotParts(n, h, 3, 2);
    CylinderFaceNext(n, h, 3);
  }

  lemma {:induction false} CylinderSide32(n: int, i: int)
    requires 3 <= n && 0 <= i < n
    ensures SideOk(n, i, 3, 2)
  {
    var j := Next(i, n);
    CylinderFaceNext(n, i, 3);
    SlotParts(n, j, 3, 1);
    CylinderFaceNext(n, j, 3);
  }

  /** Every side of every triangle of the cylinder decodes correctly. */
  lemma {:induction false} CylinderSides(n: int, i: int, t: int, s: int)
    requires 3 <= n && 0 <= i < n && 0 <= t < 4 && 0 <= s < 3
    ensures SideOk(n, i, t, s)
  {
    if t == 0 && s == 0 {
      CylinderSide00(n, i);
    } else if t == 0 && s == 1 {
      CylinderSide01(n, i);
    } else if t == 0 && s == 2 {
      CylinderSide02(n, i);
    } else if t == 1 && s == 0 {
      CylinderSide10(n, i);
    } else if t == 1 && s == 1 {
      CylinderSide11(n, i);
    } else if t == 1 && s == 2 {
      CylinderSide12(n, i);
    } else if t == 2 && s == 0 {
      CylinderSide20(n, i);
    } else if t == 2 && s == 1 {
      CylinderSide21(n, i);
    } else if t == 2 && s == 2 {
      CylinderSide22(n, i);
    } else if t == 3 && s == 0 {
      CylinderSide30(n, i);
    } else if t == 3 && s == 1 {
      CylinderSide31(n, i);
    } else {
      CylinderSide32(n, i);
    }
  }

  /** For three samples or more the cylinder's 12n directed edges are
      distinct and each is matched by its reverse: the two rims, the side and
      the two cap fans close up into a consistently wound surface. */
  lemma {:induction false} CylinderClosed(n: nat)
    requires n >= 3
    ensures Closed(CylinderFaces(n))
  {
    var faces := CylinderFaces(n);
    var slot := (e: (int, int)) => CylinderSlot(n, e);
    forall k, s | 0 <= k < 4 * n && 0 <= s < 3
      ensures slot(Edge(faces[k], s)) == 3 * k + s
      ensures 0 <= slot(Reverse(Edge(faces[k], s))) < 3 * |faces|
      ensures Edge(faces[slot(Reverse(Edge(faces[k], s))) / 3], slot(Reverse(Edge(faces[k], s))) % 3)
              == Reverse(Edge(faces[k], s))
    {
      var i, t := k / 4, k % 4;
      CylinderFaceAt(n, n, k);
      CylinderSides(n, i, t, s);
      var p := slot(Reverse(Edge(faces[k], s)));
      CylinderFaceAt(n, n, p / 3);
    }
    DistinctByDecoding(faces, slot);
    PairedByDecoding(faces, slot);
  }
}
