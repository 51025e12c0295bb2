# Mesh-construction kernel of Libigl-Example, in Dafny

This project models the part of Libigl-Example that builds triangle meshes:

- **Primitive generators** (`MeshCreator`). These build the cuboid, cylinder, sphere, cone, ruled grid surface and swept tube.
- **Mesh entity** (`Mesh`). It holds a vertex matrix `VerM` and a triangle index matrix `FaceM`. Its operations are the list/matrix conversions, winding reversal (`ReverseNormal`), the two `Transform` overloads and the signed volume (`ComputeVolume`).
- **Mesh merge** (`MeshBoolean::MeshConnect`) and its fold over a list of meshes.
- **Affine helpers** (`HelpFunc`) and the arithmetic macros (`HelpDefine.h`).

Modules follow the source files:

| module | file | source |
|---|---|---|
| `Geometry` | `geometry.dfy` | the Eigen algebra the code relies on (`Vector3d`, `Matrix3d`, `Affine3d`), over exact reals |
| `HelpDefine` | `help_define.dfy` | `src/Utility/HelpDefine.h` |
| `HelpFunc` | `help_func.dfy` | `src/Utility/HelpFunc.cpp` |
| `Meshes` | `meshes.dfy` | `src/Mesh/Mesh.h`, `src/Mesh/Mesh.cpp` |
| `MeshShapes` | `mesh_shapes.dfy` | what each generator builds, as values |
| `MeshCreator` | `mesh_creator.dfy` | `src/Mesh/MeshCreator.cpp` |
| `MeshBoolean` | `mesh_boolean.dfy` | `MeshConnect` in `src/Mesh/MeshBoolean.cpp` |
| `Closure` | `closure.dfy` | the cuboid and cylinder triangle lists are closed and consistently wound |

How the model is built:

- The mesh is a `class Mesh` with fields `VerM: seq<Vec3>` and `FaceM: seq<Face>`. Its methods rewrite these fields row by row, in the same loops as the C++ code.
- Each generator is a `method` that grows `verList` and `faceList` loop by loop. Its postcondition says the mesh holds exactly the lists described by a function in `MeshShapes`. The properties of those lists (counts, index ranges, pole and centre positions, degenerate or closed triangles) are lemmas about the functions. A generator whose `reserve` call throws `std::length_error` returns the outcome `LengthError` instead of a mesh, under exactly the inputs that make the C++ throw.
- Index arithmetic is exact integer arithmetic, with the source's `%` on non-negative operands.
- Coordinates are exact reals.
- Cosine and sine are a parameter `trig: Trig`. Angle-axis conversion, `acos`, `normalized()` and `norm()` are function parameters. The tube's ring points are a parameter `envelope(i, j)`.

## Model

| member | source | states |
|---|---|---|
| HelpDefine.Max | src/Utility/HelpDefine.h:23-25 | MAX(a, b) is at least both arguments and equals one of them |
| HelpDefine.Min | src/Utility/HelpDefine.h:27-29 | MIN(a, b) is at most both arguments, equals one of them, and MIN + MAX = a + b |
| HelpDefine.ToRadian | src/Utility/HelpDefine.h:15-17 | the radian value r of an operand satisfies r * 180 = angle * M_PI |
| HelpDefine.ToDegree | src/Utility/HelpDefine.h:19-21 | the degree value r of an operand satisfies r * M_PI = angle * 180 |
| HelpDefine.AngleRoundTrip | src/Utility/HelpDefine.h:15-21 | ToDegree(ToRadian(x)) = x and ToRadian(ToDegree(x)) = x; ToRadian(180) = M_PI and ToRadian(0) = 0 |
| HelpDefine.MacroExpansionOfSum | src/Utility/HelpDefine.h:16-20 | the textual expansion is the intended conversion for a single operand; for an unparenthesised sum `l + r` it is the intended conversion exactly when l = 0 |
| HelpFunc.MultiplyPoint | src/Utility/HelpFunc.cpp:81-83 | `mat * point` sends the origin to the transform's translation part |
| HelpFunc.MultiplyVector | src/Utility/HelpFunc.cpp:85-87 | applying only the linear part equals the image of the vector's head minus the image of the origin |
| HelpFunc.MultiplyPointCompose | src/Utility/HelpFunc.cpp:81-83 | `(a * b) * p` = `a * (b * p)`: a product of transforms applies its right factor first |
| HelpFunc.GetTranslationMatrix | src/Utility/HelpFunc.cpp:27-31 | T(t) moves every point p to p + t and leaves every direction v unchanged |
| HelpFunc.GetTranslationMatrixXYZ | src/Utility/HelpFunc.cpp:21-25 | the (x, y, z) overload equals the vector overload on (x, y, z) |
| HelpFunc.TranslationComposition | src/Utility/HelpFunc.cpp:27-31 | T(a) * T(b) = T(a + b) |
| HelpFunc.TranslationInverse | src/Utility/HelpFunc.cpp:27-31 | T(t) * T(-t) is the identity transform |
| HelpFunc.TranslationRoundTrip | src/Utility/HelpFunc.cpp:27-31 | moving a point by t and then by -t restores it |
| HelpFunc.GetScalingMatrix | src/Utility/HelpFunc.cpp:71-75 | GetScalingMatrix(s) sends every point p to (s.x p.x, s.y p.y, s.z p.z): each coordinate times the factor of its axis, with no translation |
| HelpFunc.GetUniformScalingMatrix | src/Utility/HelpFunc.cpp:77-79 | the scalar overload equals the vector overload on (s, s, s) and scales every point by s |
| HelpFunc.GetRotationMatrix | src/Utility/HelpFunc.cpp:33-39 | every point p goes to R p, where R is the angle-axis matrix of (rotAxis, rotAngle): there is no translation, so the origin stays fixed |
| HelpFunc.GetRotationMatrixAbout | src/Utility/HelpFunc.cpp:41-44 | T(c) * R * T(-c) keeps the rotation centre c fixed, for any linear part R |
| HelpFunc.RotationAboutAction | src/Utility/HelpFunc.cpp:41-44 | T(c) * R * T(-c) sends every point p to c + R(p - c) |
| HelpFunc.HalfTurnAxisProperties | src/Utility/HelpFunc.cpp:57-60 | the fallback axis (0,-1,0) x s, or (0,0,1) x s when the first is shorter than FLT_MIN, is orthogonal to s, and non-zero for a unit s |
| HelpFunc.GetRotationMatrixBetween | src/Utility/HelpFunc.cpp:46-68 | the result is a rotation about the origin: its translation is zero |
| HelpFunc.RotationBetweenBranches | src/Utility/HelpFunc.cpp:46-68 | the branches, in terms of the normalised directions s and e: a cross product shorter than FLT_MIN with a positive dot product gives the identity; one with a non-positive dot product gives a turn by M_PI about HalfTurnAxis(s), which is orthogonal to s; otherwise the result is a turn about s x e by acos(s . e) |
| HelpFunc.RotationBetweenSameDirection | src/Utility/HelpFunc.cpp:52-54 | the rotation from a direction to itself is the identity |
| HelpFunc.GetRGB | src/Utility/HelpFunc.cpp:89-122 | a listed name gives its table entry and any other name gives (0,0,0); every result is a colour in [0,1]^3 |
| HelpFunc.ColorTableEntries | src/Utility/HelpFunc.cpp:91-120 | "light gray" is (0.8,0.8,0.8), "black" is (0.3,0.4,0.7), "red" is (0.9,0.4,0.4), "gray" is (0.6,0.6,0.6), "dark blue" and "dark cyan" are (0,0,0), and the unlisted "brown" is (0,0,0) |
| Meshes.Mesh.FromMatrices | src/Mesh/Mesh.cpp:16-19 | `Mesh(verM, triM)` stores the two matrices unchanged |
| Meshes.Mesh.FromLists | src/Mesh/Mesh.cpp:21-24 | `Mesh(verList, faceList)` stores the two lists as its matrices, unchanged |
| Meshes.Mesh.VerList2VerMat | src/Mesh/Mesh.cpp:30-37 | VerM becomes the list, row for row, and FaceM is unchanged |
| Meshes.Mesh.FaceList2FaceMat | src/Mesh/Mesh.cpp:39-46 | FaceM becomes the list, row for row, and VerM is unchanged |
| Meshes.Mesh.FaceMat2FaceList | src/Mesh/Mesh.cpp:48-53 | the list read out equals FaceM |
| Meshes.Mesh.VerMat2VerList | src/Mesh/Mesh.cpp:55-60 | the list read out equals VerM |
| Meshes.ListsRoundTrip | src/Mesh/Mesh.cpp:21-60 | filling a mesh from lists and reading both matrices back returns the original lists |
| Meshes.Mesh.ReverseNormal | src/Mesh/Mesh.cpp:72-80 | every face row has columns 1 and 2 swapped; the row count, column 0 and VerM are unchanged |
| Meshes.FlippedInvolution | src/Mesh/Mesh.cpp:72-80 | swapping twice restores the faces; the swap keeps column 0 and keeps every index in range exactly when the original was |
| Meshes.ReverseNormalTwice | src/Mesh/Mesh.cpp:72-80 | reversing a mesh's normals twice restores FaceM, and each reversal negates ComputeVolume |
| Meshes.Mesh.Transform | src/Mesh/Mesh.cpp:86-90 | row i of VerM becomes MultiplyPoint(affine, old row i); the row count and FaceM are unchanged |
| Meshes.Mesh.TransformInto | src/Mesh/Mesh.cpp:92-97 | newVerM row i is MultiplyPoint(affine, VerM row i); the mesh is unchanged |
| Meshes.TransformedCompose | src/Mesh/Mesh.cpp:86-90 | transforming by b and then by a equals transforming by a * b |
| Meshes.TranslateRoundTrip | src/Mesh/Mesh.cpp:86-90 | transforming by T(t) and then by T(-t) restores every vertex |
| Meshes.SignedTermSwap | src/Mesh/Mesh.cpp:119 | swapping v1 and v2 negates the per-face summand (-v2) . ((v1 - v2) x (v0 - v2)), which equals the triple product v0 . (v1 x v2) |
| Meshes.Volume | src/Mesh/Mesh.cpp:111-123 | the signed volume is 0 for a mesh without faces |
| Meshes.FlippedNegatesVolume | src/Mesh/Mesh.cpp:72-80 | reversing every triangle's winding negates the signed volume |
| Meshes.Mesh.ComputeVolume | src/Mesh/Mesh.cpp:111-123 | the loop returns the sum of the per-face summands in face order, divided by six |
| MeshShapes.Samples | src/Mesh/MeshCreator.cpp:106 | a loop `for (i = 0; i < radSamp; i++)` runs radSamp times, and not at all when radSamp is negative |
| MeshShapes.CuboidVertices | src/Mesh/MeshCreator.cpp:34-51 | 8 corners; 0-3 are at z = +size.z/2 and 4-7 at z = -size.z/2; every coordinate is plus or minus half the size |
| MeshShapes.CuboidFaces | src/Mesh/MeshCreator.cpp:54-68 | 12 triangles, every index in [0, 8), no repeated corner |
| MeshShapes.CuboidFaceTerm | src/Mesh/Mesh.cpp:119 | each of the cuboid's 12 triangles contributes sx*sy*sz/2 to ComputeVolume's sum: all twelve wind outwards |
| MeshShapes.VolumeSumConstant | src/Mesh/Mesh.cpp:111-123 | when every triangle's summand is t, the summands' total is the triangle count times t |
| MeshShapes.CuboidVolume | src/Mesh/MeshCreator.cpp:29-73 | the signed volume of the cuboid of size s is s.x*s.y*s.z, and it is positive when every size is positive |
| MeshShapes.RingPointOnCircle | src/Mesh/MeshCreator.cpp:107-111 | a circle sample lies at distance `radius` from the x axis wherever cos and sin agree with the unit circle |
| MeshShapes.CylinderVertices | src/Mesh/MeshCreator.cpp:103-128 | 2n+2 vertices; vertex 2n is (L/2,0,0) and 2n+1 is (-L/2,0,0); the right rim is at x = L/2 and the left rim at x = -L/2 |
| MeshShapes.CylinderRimsMirror | src/Mesh/MeshCreator.cpp:106-124 | left-rim vertex n+i has the y and z of right-rim vertex i |
| MeshShapes.CylinderRimOnCircle | src/Mesh/MeshCreator.cpp:106-124 | every rim vertex is at distance `radius` from the axis |
| MeshShapes.CylinderFaces | src/Mesh/MeshCreator.cpp:131-141 | 4n triangles, every index below 2n+2 |
| MeshShapes.CylinderFacesShape | src/Mesh/MeshCreator.cpp:132-141 | for n >= 2 no triangle repeats a corner; triangle k uses centre 2n exactly when k % 4 = 2, and centre 2n+1 exactly when k % 4 = 3 |
| MeshShapes.SphereVertices | src/Mesh/MeshCreator.cpp:161-175 | (polarSamp-1)*n + 2 vertices; the last two are the poles (0,0,r) and (0,0,-r) |
| MeshShapes.SpherePointOnSphere | src/Mesh/MeshCreator.cpp:164-172 | every ring sample is at distance `radius` from the centre |
| MeshShapes.SphereBandValid | src/Mesh/MeshCreator.cpp:186-195 | each middle band indexes ring vertices only |
| MeshShapes.SphereFaceCount | src/Mesh/MeshCreator.cpp:180-200 | 2n(polarSamp-1) triangles for n >= 4 |
| MeshShapes.SphereFacesValid | src/Mesh/MeshCreator.cpp:180-200 | every index is below (polarSamp-1)*n + 2 |
| MeshShapes.SphereTopology | src/Mesh/MeshCreator.cpp:154-205 | for n >= 4: the vertex and triangle counts, all indices valid, north pole at midNum and south pole at midNum+1 |
| MeshShapes.SmallSphereFacesInvalid | src/Mesh/MeshCreator.cpp:180-200 | for 1 <= n <= 3 only the two poles are built, yet the bottom fan names the negative vertex midNum - n and, for n = 3, the top fan names vertex 2: some index is out of range |
| MeshShapes.ConeVertices | src/Mesh/MeshCreator.cpp:231-245 | n+2 vertices; the rim is at x = 0; the base centre n is (0,0,0) and the apex n+1 is (L,0,0) |
| MeshShapes.ConeFaces | src/Mesh/MeshCreator.cpp:247-253 | 2n triangles, every index below n+2; each triangle contains exactly one of the base centre n and the apex n+1 |
| MeshShapes.GridCellsBounds | src/Mesh/MeshCreator.cpp:270-274 | the triangles of row i of cells use indices between i*cols and (i+1)*cols + m |
| MeshShapes.GridLastIndex | src/Mesh/MeshCreator.cpp:269-275 | the last triangle uses vertex rows*cols - 1 |
| MeshShapes.GridTopology | src/Mesh/MeshCreator.cpp:260-277 | for rows, cols >= 2 there are 2(rows-1)(cols-1) triangles, all valid exactly when the list has at least rows*cols vertices; otherwise there are none. CreateRectangularSurface returns these triangles only when its `reserve` does not throw |
| MeshShapes.TubeVertices | src/Mesh/MeshCreator.cpp:306-318 | ptNum*r vertices, plus the two end points for "open" |
| MeshShapes.NextRing | src/Mesh/MeshCreator.cpp:335 | (i*r + r) mod (ptNum*r) is the next ring's start, or 0 after the last ring |
| MeshShapes.TubeBandValid | src/Mesh/MeshCreator.cpp:332-341 | every band joins two existing rings: indices stay below ptNum*r |
| MeshShapes.TubeFaceCount | src/Mesh/MeshCreator.cpp:320-352 | 2*ptNum*r triangles for "closed" and for "open", none for any other type |
| MeshShapes.TubeTopology | src/Mesh/MeshCreator.cpp:306-353 | counts as in TubeFaceCount; closed indices below ptNum*r; open indices below ptNum*r + 1, so the end point ptNum*r + 1 is never used |
| MeshShapes.TubeEndCapDegenerate | src/Mesh/MeshCreator.cpp:350-351 | the end cap's first triangle is ((ptNum-1)r, (ptNum-1)r, (ptNum-1)r + 1 mod r), which has a repeated corner |
| MeshShapes.CorrectedTubeCapsShape | src/Mesh/MeshCreator.cpp:343-352 | with the end cap fanned around vertex ptNum*r + 1, no cap triangle repeats a corner; even ones use the start point and odd ones the end point; all index the ptNum*r + 2 vertices |
| MeshShapes.CorrectedTubeOpenValid | src/Mesh/MeshCreator.cpp:306-353 | the corrected open tube indexes exactly its vertex list and uses the end point |
| MeshCreator.CreateCuboid | src/Mesh/MeshCreator.cpp:29-73 | builds exactly CuboidVertices(sizeVec) and CuboidFaces |
| MeshCreator.CreateCuboidFromCorners | src/Mesh/MeshCreator.cpp:15-27 | the cuboid of size maxPt - minPt, translated by (minPt + maxPt)/2, with the same faces |
| MeshCreator.PlacedCuboidCorners | src/Mesh/MeshCreator.cpp:15-27 | each corner of the placed cuboid has coordinates taken from minPt or maxPt; corner 4 is minPt and corner 2 is maxPt |
| MeshCreator.AppendRing | src/Mesh/MeshCreator.cpp:106-114 | one sampling loop appends exactly the circle's samples in order |
| MeshCreator.CylinderFaceLoop | src/Mesh/MeshCreator.cpp:131-141 | `reserve(radSamp * 4)` throws length_error exactly when radSamp < 0; otherwise the face loop builds exactly CylinderFaces |
| MeshCreator.CreateCylinder | src/Mesh/MeshCreator.cpp:98-146 | throws length_error exactly when radSamp < 0 (line 104 for radSamp <= -2, line 131 for -1); otherwise builds exactly CylinderVertices and CylinderFaces |
| MeshCreator.CreateCylinderBetween | src/Mesh/MeshCreator.cpp:75-96 | throws length_error exactly when radSamp < 0; otherwise the canonical cylinder of length norm(A - B), transformed by T((A + B)/2) * AxisRotation(A, B), with the same faces; AxisRotation is GetRotationMatrix from the x axis to normalized(B - A) |
| MeshCreator.PlacedCylinderCaps | src/Mesh/MeshCreator.cpp:75-96 | for any translation-free rotation that carries the x axis, scaled by the length, onto B - A (as AxisRotation(A, B) does when the length is norm(A - B)), the placed cap centres land on B (vertex 2n) and on A (vertex 2n+1) |
| MeshCreator.CDivTwo | src/Mesh/MeshCreator.cpp:158 | C's radSamp / 2: floor division for non-negative radSamp, and never positive otherwise |
| MeshCreator.SphereReserves | src/Mesh/MeshCreator.cpp:158-178 | for every radSamp the sphere's two `reserve` sizes, midNum + 2 and polarSamp * azimuSamp * 2, are non-negative, so CreateSphere never throws |
| MeshCreator.SphereVertexLoop | src/Mesh/MeshCreator.cpp:164-175 | the nested vertex loop builds exactly SphereVertices |
| MeshCreator.SphereBandLoop | src/Mesh/MeshCreator.cpp:187-194 | one middle band appends exactly SphereBand |
| MeshCreator.SphereFaceLoop | src/Mesh/MeshCreator.cpp:177-200 | the top fan, the middle bands and the bottom fan build exactly SphereFaces, for any radSamp |
| MeshCreator.CreateSphere | src/Mesh/MeshCreator.cpp:154-205 | builds exactly SphereVertices and SphereFaces |
| MeshCreator.CreateSphereAt | src/Mesh/MeshCreator.cpp:148-152 | the canonical sphere translated by `center`, with the same faces |
| MeshCreator.PlacedSpherePoles | src/Mesh/MeshCreator.cpp:148-152 | the placed poles are center + (0,0,r) and center - (0,0,r) |
| MeshCreator.ConeFaceLoop | src/Mesh/MeshCreator.cpp:248-253 | `reserve(2 * radSamp)` throws length_error exactly when radSamp < 0; otherwise the face loop builds exactly ConeFaces |
| MeshCreator.CreateCone | src/Mesh/MeshCreator.cpp:226-258 | throws length_error exactly when radSamp < 0 (line 232 for radSamp <= -3, line 248 for the rest); otherwise builds exactly ConeVertices and ConeFaces |
| MeshCreator.CreateConeBetween | src/Mesh/MeshCreator.cpp:207-224 | throws length_error exactly when radSamp < 0; otherwise the canonical cone of length norm(apex - base), transformed by T(base) * AxisRotation(base, apex), with the same faces |
| MeshCreator.PlacedConeEnds | src/Mesh/MeshCreator.cpp:207-224 | for any translation-free rotation that carries the x axis, scaled by the length, onto apex - base, the placed base centre (vertex n) stays on baseCenter and the apex (vertex n+1) lands on apexPoint |
| MeshCreator.CreateRectangularSurface | src/Mesh/MeshCreator.cpp:260-278 | `reserve((rows - 1) * (cols - 1))` throws length_error exactly when one of rows and cols is below 1 and the other above 1; otherwise keeps the given vertices and builds exactly GridFaces(rows, cols), and a size mismatch does not stop it |
| MeshCreator.TubeBandLoop | src/Mesh/MeshCreator.cpp:333-340 | one band appends exactly TubeBand |
| MeshCreator.TubeCapLoop | src/Mesh/MeshCreator.cpp:343-352 | the cap loop appends exactly TubeCaps, as written |
| MeshCreator.TubeFaceLoop | src/Mesh/MeshCreator.cpp:320-353 | `reserve(maxFaceNum * radSamp + radSamp)` throws length_error exactly when radSamp < 0 and the type is "closed" or "open"; otherwise maxFaceNum bands (ptNum, ptNum-1 or -1) and, for "open", the caps, which is exactly TubeFaces |
| MeshCreator.CurveVertexReserve | src/Mesh/MeshCreator.cpp:307 | for ptNum >= 2, `reserve(ptNum * radSamp + 2)` throws exactly when radSamp <= -2, or radSamp = -1 with three points or more |
| MeshCreator.Create3DCurve | src/Mesh/MeshCreator.cpp:280-354 | throws length_error exactly when radSamp < 0 and the type is known, or radSamp <= -2, or there are three points or more; otherwise the vertex and face lists are exactly TubeVertices and TubeFaces |
| MeshBoolean.Connect | src/Mesh/MeshBoolean.cpp:64-77 | as many vertex rows and face rows as A and B together; A's vertex rows, then B's; A's face rows first and unchanged |
| MeshBoolean.ConnectShiftedRows | src/Mesh/MeshBoolean.cpp:77 | the face row k places after A's face rows is B's row k with A's vertex count added to every index |
| MeshBoolean.ConnectPreservesValidity | src/Mesh/MeshBoolean.cpp:60-81 | if A's and B's faces index their own vertices, the result's faces index the result's vertices |
| MeshBoolean.ConnectAssociative | src/Mesh/MeshBoolean.cpp:70-77 | Connect(Connect(a, b), c) = Connect(a, Connect(b, c)) |
| MeshBoolean.ConnectVolume | src/Mesh/MeshBoolean.cpp:60-81 | the connected mesh's signed volume is the sum of the two volumes |
| MeshBoolean.MeshConnect | src/Mesh/MeshBoolean.cpp:60-81 | a fresh mesh whose value is Connect(A, B); the inputs are not modified |
| MeshBoolean.ConnectAllShape | src/Mesh/MeshBoolean.cpp:89-91 | folding adds up the row counts and keeps well-formed meshes well formed |
| MeshBoolean.MeshConnectList | src/Mesh/MeshBoolean.cpp:83-93 | the result is meshlist[0] connected with every mesh of the list in order, meshlist[0] included |
| MeshBoolean.MeshConnectListDuplicatesFirst | src/Mesh/MeshBoolean.cpp:88-91 | as written the result has meshlist[0]'s vertex and face rows plus those of every mesh of the list, so meshlist[0]'s appear twice, and a one-mesh list gives Connect(m, m) |
| MeshBoolean.ConnectListShape | src/Mesh/MeshBoolean.cpp:88-91 | the intended fold counts every mesh once, gives back a single mesh unchanged, and keeps meshes well formed |
| Closure.CuboidClosed | src/Mesh/MeshCreator.cpp:55-68 | the 36 directed edges of the cuboid's triangles are distinct and each is matched by its reverse |
| Closure.CylinderClosed | src/Mesh/MeshCreator.cpp:132-141 | for n >= 3 the cylinder's 12n directed edges are distinct and each is matched by its reverse |

## Left out

- Trigonometric coordinates. `cos`, `sin`, the angle-axis conversion, `acos`, `normalized()` and `norm()` are parameters, not definitions. Distances from an axis or a centre are proved only where a lemma assumes cos² + sin² = 1 at the angle used.
- The tube's frame (`src/Mesh/MeshCreator.cpp:283-304`: centroid, tangents, normals and binormals, all normalised) is left out. Ring point j of curve point i is the parameter `envelope(i, j)`. Only the tube's topology and list layout are modelled.
- Floating point. Every coordinate is an exact real: there is no rounding, and `0.5f` is exactly one half. M_PI is the exact value of the double nearest π, and FLT_MIN is 2^-126. `rotAxis.norm() < FLT_MIN` is compared on squared norms, which is equivalent over the reals.
- HelpFunc.GetRotationMatrixBetween: the normalisation of the rotation axis inside `GetRotationMatrix(axis, angle)` is part of the `angleAxis` parameter. The placed cylinder and cone lemmas therefore take as a hypothesis that the rotation carries the x axis onto the target direction.
- Create3DCurve: the C++ function has no return statement. The model returns the two lists it builds. Its face list is `std::vector<Eigen::Vector3d>` in the source; here it is a list of integer triples. At least two curve points are required, because the source reads `ptList[ptNum - 2]`.
- Samples: a negative `radSamp` makes every sampling loop empty, and the model counts it as zero samples.
- A `reserve` call given a negative `int` converts it to a `size_t` above `max_size()` and throws `std::length_error`. The generators model this as the `LengthError` outcome, which ends the call. A non-negative `reserve` only sets a capacity and is not modelled. A `bad_alloc` from a size too large for memory is not modelled either.
- C's 32-bit `int` is not modelled: index arithmetic is unbounded. So `ptNum * radSamp`, `2 * radSamp + 1`, `midNum`, the `reserve` sizes and MeshConnect's index offset (the vertex count of A added to B's indices) never wrap around. With wrap-around a huge `radSamp` could, for example, turn a `reserve` size negative.
- Meshes.Mesh.ComputeVolume and Meshes.Volume require every face index to name an existing vertex. The source does no check: an out-of-range `VerM.row(...)` is undefined behaviour in Eigen, and the model does not say what such a call returns.
- MeshConnectList: an empty list only prints a message before `meshlist[0]` is read, so the model requires a non-empty list.
- Heap ownership is not modelled: `new`/`delete`, the meshes the list fold leaks, and pointer aliasing. `MeshConnect` reads its inputs and returns a fresh mesh.
- Eigen matrices are sequences of rows. `resize`, `block` and `row` become sequence updates.
- Messages printed to the console are left out.
- Also left out:
  - `GetRandomDouble`, because it is random and has static state;
  - OBJ reading and writing;
  - `GetConvexHull`, the CGAL Boolean operations, `ComputeGeometricCenter` and `CenterMoveToOrigin`, because these are foreign library calls;
  - all viewer and menu code.
- Closure is proved for the cuboid and the cylinder only. The sphere, cone, grid and tube are not proved closed: the grid and the open tube have boundaries, and the cone's and sphere's triangle lists were not decoded.

## Findings

| source | as written | input that shows it | evidently intended | confidence | as-written member | corrected member |
|---|---|---|---|---|---|---|
| src/Mesh/MeshBoolean.cpp:88-91 | `mesh = meshlist[0]` and then the loop connects every mesh of the list, meshlist[0] included | a list holding one mesh M gives M connected with a copy of itself, with twice M's rows | start from meshlist[0] and connect meshlist[1..] | high; not executed | MeshBoolean.MeshConnectListDuplicatesFirst | MeshBoolean.ConnectListShape |
| src/Mesh/MeshCreator.cpp:350-351 | the end cap's triangles fan from ring vertex (ptNum-1)*radSamp | any "open" curve with radSamp >= 2: the first end-cap triangle is (i, i, i+1) with i = (ptNum-1)*radSamp, and vertex ptNum*radSamp+1 (the last curve point, appended at line 317) is never used | fan around vertex ptNum*radSamp + 1, as the start cap fans around ptNum*radSamp | high; not executed | MeshShapes.TubeEndCapDegenerate | MeshShapes.CorrectedTubeCapsShape |
| src/Mesh/MeshCreator.cpp:180-200 | the fans and bands are emitted for any radSamp, with no check that the rings they index exist | radSamp = 3: polarSamp = 1, so only the two poles are built, yet the top fan's triangle (0, 1, 2) names vertex 2 and the bottom fan's first triangle names vertex -3 | build the sphere only when radSamp >= 4, where every index is valid | low: callers may be expected to pass radSamp >= 4; not executed | MeshShapes.SmallSphereFacesInvalid | MeshShapes.SphereTopology |
| src/Utility/HelpDefine.h:16,20 | the macro parameter `angle` is not parenthesised | ToRadian(90 + 90) expands to 90 + 90/180*M_PI, not M_PI | `((angle) / 180.0 * M_PI)`, as MAX and MIN parenthesise their arguments | medium: no call with a compound argument in these files; not executed | HelpDefine.MacroExpansionOfSum | HelpDefine.AngleRoundTrip |
