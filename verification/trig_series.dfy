/** sin(m lon) and cos(m lon) for m = 1 .. 360 by the three-term recurrence
    seeded with sin(lon) and cos(lon). */
module TrigSeries {
  import opened U32
  import opened Egm96Constants
  import opened Numerics

  /** One step of the recurrence y_k = 2 x y_{k-1} - y_{k-2}. */
  function ThreeTerm(x: real, y1: real, y2: real): real {
    2.0 * x * y1 - y2
  }

  /** Chebyshev polynomial of the first kind: T_k(cos t) = cos(k t). */
  function ChebyshevT(x: real, k: nat): real {
    if k == 0 then 1.0
    else if k == 1 then x
    else ThreeTerm(x, ChebyshevT(x, k - 1), ChebyshevT(x, k - 2))
  }

  /** Chebyshev polynomial of the second kind: sin t * U_k(cos t) = sin((k + 1) t). */
  function ChebyshevU(x: real, k: nat): real {
    if k == 0 then 1.0
    else if k == 1 then 2.0 * x
    else ThreeTerm(x, ChebyshevU(x, k - 1), ChebyshevU(x, k - 2))
  }

  /** sin(lon) * U_{m-1}(cos lon) for sin(lon) = a and cos(lon) = b: the
      value sin(m lon) takes by the multiple-angle formula. */
  function SinMultiple(a: real, b: real, m: nat): real
    requires 1 <= m
  {
    a * ChebyshevU(b, m - 1)
  }

  /** `computeTrigonometricSeriesForLongitude`: fills slots 1 .. 360 of
      `sinml` and `cosml` (declared size 362) with sin(lon) * U_{m-1}(cos lon)
      and T_m(cos lon). Slots 0 and 361 are never written. */
  method ComputeTrigonometricSeries(e: Elementary, rlon: real) returns (sinml: seq<real>, cosml: seq<real>)
    ensures |sinml| == SeriesSize && |cosml| == SeriesSize
    ensures forall m :: 1 <= m <= MaxDeg ==>
      sinml[m] == SinMultiple(e.sin(rlon), e.cos(rlon), m) &&
      cosml[m] == ChebyshevT(e.cos(rlon), m)
    ensures e.AdditionFormulas() && e.Pythagorean() ==>
      forall m :: 1 <= m <= MaxDeg ==>
        sinml[m] == e.sin(m as real * rlon) && cosml[m] == e.cos(m as real * rlon)
  {
    var a := e.sin(rlon);
    var b := e.cos(rlon);
    SeriesSeeds(a, b);
    var s := seq(SeriesSize, _ => 0.0)[1 := a][2 := 2.0 * b * a];
    var c := seq(SeriesSize, _ => 0.0)[1 := b][2 := 2.0 * b * b - 1.0];

    var m: u32 := 3;
    while m <= MaxDeg
      invariant 3 <= m <= MaxDeg + 1
      invariant |s| == SeriesSize && |c| == SeriesSize
      invariant forall j :: 1 <= j < m ==> s[j] == SinMultiple(a, b, j)
      invariant forall j :: 1 <= j < m ==> c[j] == ChebyshevT(b, j)
    {
      var m1 := Sub(m, 1);
      var m2 := Sub(m, 2);
      // 2 * b * sinml[m-1] - sinml[m-2], and the same for cosml
      var sm := ThreeTerm(b, s[m1], s[m2]);
      var cm := ThreeTerm(b, c[m1], c[m2]);
      SinStep(a, b, m);
      CosStep(b, m);
      s := s[m := sm];
      c := c[m := cm];
      m := m + 1;
    }
    sinml, cosml := s, c;
    if e.AdditionFormulas() && e.Pythagorean() {
      forall m | 1 <= m <= MaxDeg
        ensures sinml[m] == e.sin(m as real * rlon) && cosml[m] == e.cos(m as real * rlon)
      {
        MultipleAngles(e, rlon, m);
      }
    }
  }

  /** The first two slots, written directly by the source. */
  lemma SeriesSeeds(a: real, b: real)
    ensures SinMultiple(a, b, 1) == a && SinMultiple(a, b, 2) == 2.0 * b * a
    ensures ChebyshevT(b, 1) == b && ChebyshevT(b, 2) == 2.0 * b * b - 1.0
  {
  }

  lemma CosStep(b: real, m: nat)
    requires 2 <= m
    ensures ChebyshevT(b, m) == ThreeTerm(b, ChebyshevT(b, m - 1), ChebyshevT(b, m - 2))
  {
  }

  /** Scaling both earlier terms scales the next one. */
  lemma ThreeTermScales(a: real, x: real, y1: real, y2: real)
    ensures ThreeTerm(x, a * y1, a * y2) == a * ThreeTerm(x, y1, y2)
  {
  }

  /** The sine column obeys the same recurrence as the cosine column. */
  lemma SinStep(a: real, b: real, m: nat)
    requires 3 <= m
    ensures SinMultiple(a, b, m) == ThreeTerm(b, SinMultiple(a, b, m - 1), SinMultiple(a, b, m - 2))
  {
    ThreeTermScales(a, b, ChebyshevU(b, m - 2), ChebyshevU(b, m - 3));
  }

  /** Sine and cosine of m t, obtained from those of t by m - 1 rotations
      through t, using only the addition formulas. */
  function Rotation(a: real, b: real, m: nat): Direction
    requires 1 <= m
  {
    if m == 1 then Direction(a, b) else Turn(Rotation(a, b, m - 1), a, b)
  }

  /** A point on the unit circle, by its sine and cosine. */
  datatype Direction = Direction(sin: real, cos: real)

  /** Turning p by the angle whose sine is a and cosine is b, by the
      addition formulas. */
  function Turn(p: Direction, a: real, b: real): Direction {
    Direction(p.sin * b + p.cos * a, p.cos * b - p.sin * a)
  }

  /** m t as m - 1 additions of t to t, the way the recurrence builds it. */
  function Multiple(m: nat, t: real): real
  {
    if m == 0 then 0.0 else Sum(Multiple(m - 1, t), t)
  }

  /** The repeated sum is the product. */
  lemma {:induction false} MultipleIsProduct(m: nat, t: real)
    ensures Multiple(m, t) == m as real * t
  {
    if m > 0 {
      MultipleIsProduct(m - 1, t);
      NextMultiple(m - 1, t);
    }
  }

  /** By the addition formulas, the rotations give sin(m t) and cos(m t). */
  lemma {:induction false} AnglesAreRotations(e: Elementary, t: real, m: nat)
    requires e.AdditionFormulas()
    requires 1 <= m
    ensures Rotation(e.sin(t), e.cos(t), m).sin == e.sin(Multiple(m, t))
    ensures Rotation(e.sin(t), e.cos(t), m).cos == e.cos(Multiple(m, t))
  {
    if m == 1 {
      assert Multiple(1, t) == Sum(0.0, t) == t;
    } else {
      AnglesAreRotations(e, t, m - 1);
      var p := Multiple(m - 1, t);
      assert Multiple(m, t) == Sum(p, t);
      assert Rotation(e.sin(t), e.cos(t), m - 1) == Direction(e.sin(p), e.cos(p));
      TurnIsSum(e, p, t);
    }
  }

  /** Turning the point of angle p by the angle t gives the point of angle p + t. */
  lemma TurnIsSum(e: Elementary, p: real, t: real)
    requires e.AdditionFormulas()
    ensures Turn(Direction(e.sin(p), e.cos(p)), e.sin(t), e.cos(t)) == Direction(e.sin(Sum(p, t)), e.cos(Sum(p, t)))
  {
    assert e.sin(Sum(p, t)) == e.sin(p) * e.cos(t) + e.cos(p) * e.sin(t);
    assert e.cos(Sum(p, t)) == e.cos(p) * e.cos(t) - e.sin(p) * e.sin(t);
  }

  /** On the unit circle the rotations obey the Chebyshev recurrences. */
  lemma {:induction false} RotationIsChebyshev(a: real, b: real, m: nat)
    requires a * a + b * b == 1.0
    requires 1 <= m
    ensures Rotation(a, b, m).sin == SinMultiple(a, b, m)
    ensures Rotation(a, b, m).cos == ChebyshevT(b, m)
  {
    if m == 2 {
      RotationTwice(a, b);
    } else if m >= 3 {
      RotationIsChebyshev(a, b, m - 1);
      RotationIsChebyshev(a, b, m - 2);
      RotationNext(a, b, m);
    }
  }

  /** The double angle. */
  lemma RotationTwice(a: real, b: real)
    requires a * a + b * b == 1.0
    ensures Rotation(a, b, 2).sin == SinMultiple(a, b, 2)
    ensures Rotation(a, b, 2).cos == ChebyshevT(b, 2)
  {
    var r := Turn(Direction(a, b), a, b);
    assert Rotation(a, b, 2) == r;
    DoubleAngle(a, b, r.sin, r.cos);
  }

  /** The mth rotation from the two before it. */
  lemma RotationNext(a: real, b: real, m: nat)
    requires a * a + b * b == 1.0
    requires 3 <= m
    requires Rotation(a, b, m - 1).sin == SinMultiple(a, b, m - 1)
    requires Rotation(a, b, m - 1).cos == ChebyshevT(b, m - 1)
    requires Rotation(a, b, m - 2).sin == SinMultiple(a, b, m - 2)
    requires Rotation(a, b, m - 2).cos == ChebyshevT(b, m - 2)
    ensures Rotation(a, b, m).sin == SinMultiple(a, b, m)
    ensures Rotation(a, b, m).cos == ChebyshevT(b, m)
  {
    RotationUnfolds(a, b, m);
    SinStep(a, b, m);
    CosStep(b, m);
    RotationStep(a, b, Rotation(a, b, m), Rotation(a, b, m - 1), Rotation(a, b, m - 2),
                 SinMultiple(a, b, m), ChebyshevT(b, m), SinMultiple(a, b, m - 1), ChebyshevT(b, m - 1),
                 SinMultiple(a, b, m - 2), ChebyshevT(b, m - 2));
  }

  /** Rotations m and m - 1 are one turn past rotations m - 1 and m - 2. */
  lemma RotationUnfolds(a: real, b: real, m: nat)
    requires 3 <= m
    ensures Rotation(a, b, m) == Turn(Rotation(a, b, m - 1), a, b)
    ensures Rotation(a, b, m - 1) == Turn(Rotation(a, b, m - 2), a, b)
  {
  }

  /** If sin and cos obey the addition formulas and sin^2 + cos^2 = 1, the
      series holds the true multiple angles: sin(m lon) = sin(lon) U_{m-1}(cos lon)
      and cos(m lon) = T_m(cos lon). */
  lemma MultipleAngles(e: Elementary, lon: real, m: nat)
    requires e.AdditionFormulas() && e.Pythagorean()
    requires 1 <= m
    ensures e.sin(m as real * lon) == SinMultiple(e.sin(lon), e.cos(lon), m)
    ensures e.cos(m as real * lon) == ChebyshevT(e.cos(lon), m)
  {
    assert e.Norm(lon) == 1.0;
    AnglesAreRotations(e, lon, m);
    RotationIsChebyshev(e.sin(lon), e.cos(lon), m);
    MultipleIsProduct(m, lon);
  }

  /** One more rotation by the angle with sine a and cosine b takes the
      (m-1)th and (m-2)th multiples to the mth: if the two earlier points
      r1, r2 are (S1, C1), (S2, C2), and S0, C0 continue those by the
      three-term recurrence, then the point r0 one rotation past r1 is
      (S0, C0). */
  lemma RotationStep(a: real, b: real, r0: Direction, r1: Direction, r2: Direction,
                     S0: real, C0: real, S1: real, C1: real, S2: real, C2: real)
    requires a * a + b * b == 1.0
    requires r0 == Turn(r1, a, b) && r1 == Turn(r2, a, b)
    requires r1.sin == S1 && r1.cos == C1 && r2.sin == S2 && r2.cos == C2
    requires S0 == ThreeTerm(b, S1, S2) && C0 == ThreeTerm(b, C1, C2)
    ensures r0.sin == S0 && r0.cos == C0
  {
    AngleRecurrence(a, b, r0.sin, r0.cos, r1.sin, r1.cos, r2.sin, r2.cos);
  }

  /** The angle (k + 1) t is t past the angle k t. */
  lemma NextMultiple(k: nat, t: real)
    ensures (k + 1) as real * t == Sum(k as real * t, t)
  {
  }

  /** sin(2t) = 2 sin t cos t and cos(2t) = 2 cos^2 t - 1 from the addition formulas. */
  lemma DoubleAngle(a: real, b: real, s2: real, c2: real)
    requires a * a + b * b == 1.0
    requires s2 == a * b + b * a && c2 == b * b - a * a
    ensures s2 == SinMultiple(a, b, 2) && c2 == ChebyshevT(b, 2)
  {
  }

  /** With (s1, c1) one rotation by (a, b) past (s2, c2), and (s0, c0) one past
      (s1, c1), both coordinates obey the Chebyshev recurrence. */
  lemma AngleRecurrence(a: real, b: real, s0: real, c0: real, s1: real, c1: real, s2: real, c2: real)
    requires a * a + b * b == 1.0
    requires s0 == s1 * b + c1 * a && c0 == c1 * b - s1 * a
    requires s1 == s2 * b + c2 * a && c1 == c2 * b - s2 * a
    ensures s0 == ThreeTerm(b, s1, s2) && c0 == ThreeTerm(b, c1, c2)
  {
  }
}
