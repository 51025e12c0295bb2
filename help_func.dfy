/** The transform builder of HelpFunc.cpp: translation, scaling and rotation
    matrices as affine maps, their application to points and directions, and
    the named colour table. The rotation's own 3x3 matrix (angle-axis to matrix,
    which normalises the axis and evaluates sines and cosines), the arccosine and
    vector normalisation are not defined here: they are passed in. */
module HelpFunc {
  import opened Geometry
  import opened HelpDefine

  /** FLT_MIN, the smallest positive normalised float, 2^-126. */
  const FltMin: real := 1.0 / 85070591730234615865843651857942052864.0

  /** `mat * point`: the affine map applied to a point; the origin goes to the
      translation part. */
  function MultiplyPoint(mat: Affine, point: Vec3): (r: Vec3)
    ensures point == Zero ==> r == mat.translation
  {
    MatVecZero(mat.linear);
    Add(MatVec(mat.linear, point), mat.translation)
  }

  /** `mat.linear() * vec`: a direction is moved by the linear part only, so it
      is the difference of the images of its head and of the origin. */
  function MultiplyVector(mat: Affine, vec: Vec3): (r: Vec3)
    ensures r == Sub(MultiplyPoint(mat, vec), MultiplyPoint(mat, Zero))
  {
    MatVec(mat.linear, vec)
  }

  /** Applying a product of affine maps is applying its factors right to left. */
  lemma {:induction false} MultiplyPointCompose(a: Affine, b: Affine, p: Vec3)
    ensures MultiplyPoint(Compose(a, b), p) == MultiplyPoint(a, MultiplyPoint(b, p))
  {
    MatMulApply(a.linear, b.linear, p);
  }

  /** GetTranslationMatrix(transVec): identity linear part, translation
      `transVec`, so it moves every point by `transVec` and leaves every
      direction alone. */
  function GetTranslationMatrix(transVec: Vec3): (r: Affine)
    ensures forall p {:trigger MultiplyPoint(r, p)} :: MultiplyPoint(r, p) == Add(p, transVec)
    ensures forall v {:trigger MultiplyVector(r, v)} :: MultiplyVector(r, v) == v
  {
    Affine(Identity3, transVec)
  }

  /** GetTranslationMatrix(x, y, z): the same map as the vector overload. */
  function GetTranslationMatrixXYZ(x: real, y: real, z: real): (r: Affine)
    ensures r == GetTranslationMatrix(Vec3(x, y, z))
  {
    Affine(Identity3, Vec3(x, y, z))
  }

  /** Translations compose by adding their vectors. */
  lemma {:induction false} TranslationComposition(a: Vec3, b: Vec3)
    ensures Compose(GetTranslationMatrix(a), GetTranslationMatrix(b)) == GetTranslationMatrix(Add(a, b))
  {
    assert GetTranslationMatrix(a) == Affine(Identity3, a);
    assert GetTranslationMatrix(b) == Affine(Identity3, b);
    MatMulIdentity();
    MatVecIdentity(b);
  }

  /** T(t) * T(-t) is the identity map. */
  lemma {:induction false} TranslationInverse(t: Vec3)
    ensures Compose(GetTranslationMatrix(t), GetTranslationMatrix(Neg(t))) == IdentityAffine
  {
    AddNeg(t);
    TranslationComposition(t, Neg(t));
  }

  /** Moving a point by `t` and then by `-t` restores it. */
  lemma {:induction false} TranslationRoundTrip(t: Vec3, p: Vec3)
    ensures MultiplyPoint(GetTranslationMatrix(Neg(t)), MultiplyPoint(GetTranslationMatrix(t), p)) == p
  {
    assert Add(Add(p, t), Neg(t)) == p;
  }

  /** GetScalingMatrix(scaleVec): linear part diag(scaleVec), no translation,
      so it multiplies each coordinate by the factor of its axis. */
  function GetScalingMatrix(scaleVec: Vec3): (r: Affine)
    ensures forall p {:trigger MultiplyPoint(r, p)} :: MultiplyPoint(r, p) == Vec3(scaleVec.x * p.x, scaleVec.y * p.y, scaleVec.z * p.z)
  {
    Affine(Diag(scaleVec), Zero)
  }

  /** GetScalingMatrix(scale): the vector overload on (scale, scale, scale),
      which multiplies every point by `scale`. */
  function GetUniformScalingMatrix(scale: real): (r: Affine)
    ensures r == GetScalingMatrix(Vec3(scale, scale, scale))
    ensures forall p {:trigger MultiplyPoint(r, p)} :: MultiplyPoint(r, p) == Scale(scale, p)
  {
    assert Scale(scale, Vec3(1.0, 1.0, 1.0)) == Vec3(scale, scale, scale);
    GetScalingMatrix(Scale(scale, Vec3(1.0, 1.0, 1.0)))
  }

  /** GetRotationMatrix(rotAxis, rotAngle): the linear part is the angle-axis
      rotation matrix, `angleAxis(rotAxis, rotAngle)`, and there is no
      translation, so the origin stays where it is. */
  function GetRotationMatrix(rotAxis: Vec3, rotAngle: real, angleAxis: (Vec3, real) -> Mat3): (r: Affine)
    ensures forall p {:trigger MultiplyPoint(r, p)} :: MultiplyPoint(r, p) == MatVec(angleAxis(rotAxis, rotAngle), p)
    ensures MultiplyPoint(r, Zero) == Zero
  {
    MatVecZero(angleAxis(rotAxis, rotAngle));
    Affine(angleAxis(rotAxis, rotAngle), Zero)
  }

  /** GetRotationMatrix(rotCenter, rotAxis, rotAngle) = T(c) * R * T(-c): a
      rotation about an axis through `rotCenter`, which it keeps fixed. */
  function GetRotationMatrixAbout(rotCenter: Vec3, rotAxis: Vec3, rotAngle: real,
                                  angleAxis: (Vec3, real) -> Mat3): (r: Affine)
    ensures MultiplyPoint(r, rotCenter) == rotCenter
  {
    RotationAboutAction(rotCenter, rotAxis, rotAngle, angleAxis, rotCenter);
    MatVecZero(angleAxis(rotAxis, rotAngle));
    assert Sub(rotCenter, rotCenter) == Zero;
    assert Add(rotCenter, Zero) == rotCenter;
    Compose(Compose(GetTranslationMatrix(rotCenter), GetRotationMatrix(rotAxis, rotAngle, angleAxis)),
            GetTranslationMatrix(Neg(rotCenter)))
  }

  /** Every point p is carried to c + R (p - c). */
  lemma {:induction false} RotationAboutAction(rotCenter: Vec3, rotAxis: Vec3, rotAngle: real,
                                              angleAxis: (Vec3, real) -> Mat3, p: Vec3)
    ensures MultiplyPoint(Compose(Compose(GetTranslationMatrix(rotCenter), GetRotationMatrix(rotAxis, rotAngle, angleAxis)),
                                  GetTranslationMatrix(Neg(rotCenter))), p)
         == Add(rotCenter, MatVec(angleAxis(rotAxis, rotAngle), Sub(p, rotCenter)))
  {
    var d := Sub(p, rotCenter);
    var q := MatVec(angleAxis(rotAxis, rotAngle), d);
    MultiplyPointComposeThree(GetTranslationMatrix(rotCenter), GetRotationMatrix(rotAxis, rotAngle, angleAxis),
                              GetTranslationMatrix(Neg(rotCenter)), p);
    TranslateBack(rotCenter, p);
    TranslateTo(rotCenter, q);
  }

  /** The translation by -c carries p to p - c. */
  lemma {:induction false} TranslateBack(c: Vec3, p: Vec3)
    ensures MultiplyPoint(GetTranslationMatrix(Neg(c)), p) == Sub(p, c)
  {
    AddNegSub(p, c);
  }

  /** The translation by c carries q to c + q. */
  lemma {:induction false} TranslateTo(c: Vec3, q: Vec3)
    ensures MultiplyPoint(GetTranslationMatrix(c), q) == Add(c, q)
  {
    assert Add(q, c) == Add(c, q);
  }

  /** Applying a product of three affine maps, right to left. */
  lemma {:induction false} MultiplyPointComposeThree(a: Affine, b: Affine, c: Affine, p: Vec3)
    ensures MultiplyPoint(Compose(Compose(a, b), c), p) == MultiplyPoint(a, MultiplyPoint(b, MultiplyPoint(c, p)))
  {
    MultiplyPointCompose(Compose(a, b), c, p);
    MultiplyPointCompose(a, b, MultiplyPoint(c, p));
  }

  /** A map without translation moves a point by its linear part alone. */
  lemma {:induction false} LinearAction(m: Affine, p: Vec3)
    requires m.translation == Zero
    ensures MultiplyPoint(m, p) == MatVec(m.linear, p)
  {
    var v := MatVec(m.linear, p);
    assert Add(v, Zero) == v;
  }

  /** The anti-parallel fallback axis of GetRotationMatrix(startVec, endVec):
      (0,-1,0) x s, or (0,0,1) x s when the first is shorter than FLT_MIN. */
  function HalfTurnAxis(s: Vec3): Vec3 {
    var first := Cross(Vec3(0.0, -1.0, 0.0), s);
    if NormSq(first) < FltMin * FltMin then Cross(Vec3(0.0, 0.0, 1.0), s) else first
  }

  /** The fallback axis is orthogonal to `s`, and non-zero for a unit `s`. */
  lemma HalfTurnAxisProperties(s: Vec3)
    ensures Dot(HalfTurnAxis(s), s) == 0.0
    ensures NormSq(s) == 1.0 ==> NormSq(HalfTurnAxis(s)) > 0.0
  {
    if NormSq(Cross(Vec3(0.0, -1.0, 0.0), s)) < FltMin * FltMin {
      assert NormSq(s) == 1.0 ==> NormSq(Cross(Vec3(0.0, 0.0, 1.0), s)) >= s.y * s.y > 0.0;
    }
  }

  /** GetRotationMatrix(startVec, endVec): the rotation that turns the direction
      of `startVec` onto that of `endVec`. `normalized`, `acos` and `angleAxis`
      stand for Eigen's normalisation, the C library's arccosine and Eigen's
      angle-axis conversion. When the normalised directions have a cross
      product shorter than FLT_MIN they are parallel or opposite: parallel ones
      give the identity, opposite ones a half turn about HalfTurnAxis. */
  function GetRotationMatrixBetween(startVec: Vec3, endVec: Vec3, normalized: Vec3 -> Vec3,
                                    acos: real -> real, angleAxis: (Vec3, real) -> Mat3): (r: Affine)
    ensures r.translation == Zero
  {
    var s := normalized(startVec);
    var e := normalized(endVec);
    var rotAxis := Cross(s, e);
    if NormSq(rotAxis) < FltMin * FltMin then
      if Dot(s, e) > 0.0 then IdentityAffine
      else GetRotationMatrix(HalfTurnAxis(s), Pi, angleAxis)
    else
      GetRotationMatrix(rotAxis, acos(Dot(s, e)), angleAxis)
  }

  /** The three branches of GetRotationMatrixBetween, in terms of the normalised
      directions: parallel gives the identity, opposite a half turn by M_PI about
      an axis orthogonal to the start direction, anything else a turn about
      their cross product by the arccosine of their dot product. */
  lemma {:induction false} RotationBetweenBranches(startVec: Vec3, endVec: Vec3, normalized: Vec3 -> Vec3,
                                                  acos: real -> real, angleAxis: (Vec3, real) -> Mat3)
    ensures var s, e := normalized(startVec), normalized(endVec);
      var r := GetRotationMatrixBetween(startVec, endVec, normalized, acos, angleAxis);
      && (NormSq(Cross(s, e)) < FltMin * FltMin && Dot(s, e) > 0.0 ==> r == IdentityAffine)
      && (NormSq(Cross(s, e)) < FltMin * FltMin && Dot(s, e) <= 0.0 ==>
            r.linear == angleAxis(HalfTurnAxis(s), Pi) && Dot(HalfTurnAxis(s), s) == 0.0)
      && (NormSq(Cross(s, e)) >= FltMin * FltMin ==>
            r.linear == angleAxis(Cross(s, e), acos(Dot(s, e))))
  {
    HalfTurnAxisProperties(normalized(startVec));
  }

  /** Asking for the rotation from a direction to itself gives the identity,
      whatever its length, as long as it normalises to a unit vector. */
  lemma {:induction false} RotationBetweenSameDirection(d: Vec3, normalized: Vec3 -> Vec3,
                                                       acos: real -> real, angleAxis: (Vec3, real) -> Mat3)
    requires NormSq(normalized(d)) == 1.0
    ensures GetRotationMatrixBetween(d, d, normalized, acos, angleAxis) == IdentityAffine
  {
    var s := normalized(d);
    assert Cross(s, s) == Zero;
  }

  /** The named colours of GetRGB, as RGB triples in [0, 1]. */
  const ColorTable: map<string, Vec3> := map[
    "red" := Vec3(0.9, 0.4, 0.4),
    "orange" := Vec3(0.9, 0.6, 0.4),
    "yellow" := Vec3(0.9, 0.9, 0.5),
    "green" := Vec3(0.4, 0.9, 0.4),
    "cyan" := Vec3(0.4, 0.9, 0.9),
    "blue" := Vec3(0.4, 0.4, 0.9),
    "purple" := Vec3(0.7, 0.3, 0.9),
    "pink" := Vec3(0.5, 0.2, 0.5),
    "blown" := Vec3(0.4, 0.8, 0.7),
    "gray" := Vec3(0.6, 0.6, 0.6),
    "light blue" := Vec3(0.6, 0.6, 0.9),
    "light gray" := Vec3(0.8, 0.8, 0.8),
    "light salmon" := Vec3(0.9, 0.6, 0.5),
    "dark purple" := Vec3(0.0, 0.0, 0.0),
    "dark cyan" := Vec3(0.0, 0.0, 0.0),
    "dark blue" := Vec3(0.0, 0.0, 0.0),
    "dark yellow" := Vec3(0.0, 0.0, 0.0),
    "black" := Vec3(0.3, 0.4, 0.7),
    "white" := Vec3(0.6, 0.6, 0.3)
  ]

  predicate IsColor(c: Vec3) {
    0.0 <= c.x <= 1.0 && 0.0 <= c.y <= 1.0 && 0.0 <= c.z <= 1.0
  }

  /** GetRGB(colorName): the table entry for a listed name and black, (0,0,0),
      for any other name. */
  function GetRGB(colorName: string): (rgb: Vec3)
    ensures IsColor(rgb)
    ensures colorName !in ColorTable ==> rgb == Zero
    ensures colorName in ColorTable ==> rgb == ColorTable[colorName]
  {
    if colorName in ColorTable then ColorTable[colorName] else Vec3(0.0, 0.0, 0.0)
  }

  /** Some entries, as the table spells them: "light gray" is (0.8,0.8,0.8),
      "black" is (0.3,0.4,0.7), the four "dark" names are all (0,0,0), and a
      name outside the table, such as "brown", is (0,0,0) as well. */
  lemma {:induction false} ColorTableEntries()
    ensures GetRGB("light gray") == Vec3(0.8, 0.8, 0.8)
    ensures GetRGB("black") == Vec3(0.3, 0.4, 0.7)
    ensures GetRGB("red") == Vec3(0.9, 0.4, 0.4)
    ensures GetRGB("gray") == Vec3(0.6, 0.6, 0.6)
    ensures GetRGB("dark blue") == Zero && GetRGB("dark cyan") == Zero
    ensures GetRGB("brown") == Zero
  {
    assert "brown" !in ColorTable;
  }
}
