/** `calculateGeoidUndulationAtCoordinates`: one Legendre column per order
    scattered into the triangular buffer `p`, the longitude series, and the
    synthesis over both. The geocentric metrics are inputs here. */
module Undulation {
  import opened U32
  import opened Egm96Constants
  import opened Numerics
  import opened PackedIndex
  import opened ScalingTables
  import opened TrigSeries
  import opened Legendre
  import opened Synthesis

  /** Degrees 0 .. n of the Legendre triangle laid out row after row, behind
      one unused slot 0 (which holds 0 here): row n holds orders 0 .. n. */
  function Triangle(e: Elementary, theta: real, n: nat): (s: seq<real>)
    requires e.SqrtPositive()
    ensures |s| == Index(n, n) + 1
  {
    if n == 0 then [0.0, Normalized(e, theta, 0, 0)]
    else Triangle(e, theta, n - 1) + seq(n + 1, m requires 0 <= m <= n => Normalized(e, theta, n, m))
  }

  /** The triangular buffer as the scatter means to fill it, degrees 0 .. 360. */
  function LegendreTriangle(e: Elementary, theta: real): (p: seq<real>)
    requires e.SqrtPositive()
    ensures |p| == CoeffsCount
  {
    TriDouble(MaxDeg);
    Triangle(e, theta, MaxDeg)
  }

  /** The row-by-row layout puts degree n', order m at the packed index. */
  lemma {:induction false} TriangleAt(e: Elementary, theta: real, n: nat, n': nat, m: nat)
    requires e.SqrtPositive()
    requires m <= n' <= n
    ensures Index(n', m) < |Triangle(e, theta, n)|
    ensures Triangle(e, theta, n)[Index(n', m)] == Normalized(e, theta, n', m)
  {
    if n' < n {
      var prefix := Triangle(e, theta, n - 1);
      TriangleAt(e, theta, n - 1, n', m);
      assert Triangle(e, theta, n)[Index(n', m)] == prefix[Index(n', m)];
    } else if 0 < n {
      var prefix := Triangle(e, theta, n - 1);
      assert |prefix| == Tri(n) + 1;
      assert Triangle(e, theta, n)[Index(n, m)] == Normalized(e, theta, n, m);
    }
  }

  /** sin(m lon) for m = 1 .. 360 in the form the recurrence produces; slots
      0 and 361 are 0 here. */
  function SinSeries(e: Elementary, lon: real): (s: seq<real>)
    ensures |s| == SeriesSize
  {
    seq(SeriesSize, m => if 1 <= m <= MaxDeg then SinMultiple(e.sin(lon), e.cos(lon), m) else 0.0)
  }

  /** cos(m lon) for m = 1 .. 360 in the form the recurrence produces. */
  function CosSeries(e: Elementary, lon: real): (c: seq<real>)
    ensures |c| == SeriesSize
  {
    seq(SeriesSize, m => if 1 <= m <= MaxDeg then ChebyshevT(e.cos(lon), m) else 0.0)
  }

  /** Slot Index(n, m) of `p` exists and holds the normalized function of
      degree n and order m. */
  predicate Holds(p: seq<real>, e: Elementary, theta: real, n: nat, m: nat)
    requires e.SqrtPositive()
  {
    m <= n && Index(n, m) < |p| && p[Index(n, m)] == Normalized(e, theta, n, m)
  }

  /** Every pair before (row n = i, order m) in scatter order is in place:
      all orders below m, and degrees m .. i - 1 of order m. */
  predicate FilledBefore(p: seq<real>, e: Elementary, theta: real, m: nat, i: nat)
    requires e.SqrtPositive()
  {
    forall n: nat, m': nat :: m' <= n <= MaxDeg && (m' < m || (m' == m && n < i)) ==> Holds(p, e, theta, n, m')
  }

  /** Lines 204-210: for j = 1 .. 361 and order m = j - 1, fill `rleg` and copy
      `rleg[i]` to `p[((i-1)*i)/2 + m + 1]` for rows i = j .. 361. The
      buffers start with whatever `pIn` and `rlegIn` hold; every slot
      of a valid pair ends up holding the Legendre value of that pair, and
      slot 0 is left alone. */
  method ScatterLegendre(t: Tables, e: Elementary, theta: real, pIn: seq<real>, rlegIn: seq<real>) returns (p: seq<real>)
    requires e.SqrtPositive() && Filled(t, e)
    requires |pIn| == CoeffsCount && |rlegIn| == SeriesSize
    ensures |p| == CoeffsCount && p[0] == pIn[0]
    ensures forall n: nat, m: nat :: m <= n <= MaxDeg ==> Holds(p, e, theta, n, m)
  {
    var nmax1 := Add(MaxDeg, 1);
    p := pIn;
    var rleg := rlegIn;
    var j: u32 := 1;
    while j <= nmax1
      invariant 1 <= j <= nmax1 + 1
      invariant |p| == CoeffsCount && p[0] == pIn[0] && |rleg| == SeriesSize
      invariant FilledBefore(p, e, theta, j - 1, j - 1)
    {
      var m := Sub(j, 1);
      rleg := ComputeNormalizedLegendreFunctions(t, e, m, theta, rleg);
      p := ScatterColumn(e, theta, j, m, rleg, p);
      j := j + 1;
    }
    assert FilledBefore(p, e, theta, MaxDeg + 1, MaxDeg + 1);
  }

  /** Lines 207-209 for one order m = j - 1: rows i = j .. 361 of the column
      go to their packed slots, and what the earlier orders put in place stays,
      because the packed index is injective. */
  method ScatterColumn(e: Elementary, theta: real, j: u32, m: u32, rleg: seq<real>, pIn: seq<real>) returns (p: seq<real>)
    requires e.SqrtPositive()
    requires m == j - 1 && 1 <= j <= MaxDeg + 1 && |rleg| == SeriesSize && |pIn| == CoeffsCount
    requires forall n :: m <= n <= MaxDeg ==> rleg[n + 1] == Normalized(e, theta, n, m)
    requires FilledBefore(pIn, e, theta, m, m)
    ensures |p| == CoeffsCount && p[0] == pIn[0]
    ensures FilledBefore(p, e, theta, m + 1, m + 1)
  {
    var nmax1 := Add(MaxDeg, 1);
    p := pIn;
    var i := j;
    while i <= nmax1
      invariant j <= i <= nmax1 + 1
      invariant |p| == CoeffsCount && p[0] == pIn[0]
      invariant FilledBefore(p, e, theta, m, i - 1)
    {
      var k := PackU32(i, m);
      IndexBounds(i - 1, m);
      ScatterWrite(e, theta, p, m, i - 1, k, rleg[i]);
      p := p[k := rleg[i]];
      i := i + 1;
    }
    assert FilledBefore(p, e, theta, m, MaxDeg + 1);
  }

  /** One store of line 208: writing the value of (n, m) at its packed
      index extends the filled prefix by that pair and leaves slot 0 alone. */
  lemma ScatterWrite(e: Elementary, theta: real, p: seq<real>, m: nat, n: nat, k: nat, v: real)
    requires e.SqrtPositive()
    requires m <= n <= MaxDeg && k == Index(n, m) && k < |p|
    requires v == Normalized(e, theta, n, m)
    requires FilledBefore(p, e, theta, m, n)
    ensures FilledBefore(p[k := v], e, theta, m, n + 1)
  {
    var p' := p[k := v];
    forall n1: nat, m1: nat | m1 <= n1 <= MaxDeg && (m1 < m || (m1 == m && n1 < n + 1))
      ensures Holds(p', e, theta, n1, m1)
    {
      if (n1, m1) != (n, m) {
        assert Holds(p, e, theta, n1, m1);
        if Index(n1, m1) == k {
          IndexInjective(n1, m1, n, m);
        }
      }
    }
  }

  /** `calculateGeoidUndulationAtCoordinates` without its first and last
      steps: given the geocentric latitude `rlat` and radius `re` that
      `computeGeocentricMetrics` would supply, it returns the harmonic and
      correction sums. They are the packed-index synthesis of the exact
      Legendre triangle at colatitude pi/2 - rlat and of the multiple-angle
      series of `lon`, whatever the stack buffers held before. */
  method CalculateGeoidUndulationSums(t: Tables, e: Elementary, data: seq<CoeffRow>, rlat: real, lon: real, re: real,
                                      pIn: seq<real>, rlegIn: seq<real>) returns (r: Sums)
    requires e.SqrtPositive() && Filled(t, e)
    requires |data| == CoeffsCount && |pIn| == CoeffsCount && |rlegIn| == SeriesSize
    requires re != 0.0
    ensures r == ReferenceSums(LegendreTriangle(e, e.pi / 2.0 - rlat), SinSeries(e, lon), CosSeries(e, lon),
                           data, EquatorialRadius / re)
  {
    var theta := e.pi / 2.0 - rlat;
    var p := ScatterLegendre(t, e, theta, pIn, rlegIn);
    var sinml, cosml := ComputeTrigonometricSeries(e, lon);
    r := CalculateGravitationalUndulation(p, sinml, cosml, data, re);
    SynthesisOfReference(e, theta, lon, p, sinml, cosml, data, EquatorialRadius / re, r);
  }

  /** Whatever buffers the scatter and the longitude recurrence leave, the
      synthesis over them is the synthesis over the reference sequences. */
  lemma SynthesisOfReference(e: Elementary, theta: real, lon: real, p: seq<real>, sinml: seq<real>, cosml: seq<real>,
                             data: seq<CoeffRow>, ar: real, r: Sums)
    requires e.SqrtPositive() && Sized(p, sinml, cosml, data)
    requires r == ReferenceSums(p, sinml, cosml, data, ar)
    requires forall n: nat, m: nat :: m <= n <= MaxDeg ==> Holds(p, e, theta, n, m)
    requires forall m :: 1 <= m <= MaxDeg ==>
      sinml[m] == SinMultiple(e.sin(lon), e.cos(lon), m) && cosml[m] == ChebyshevT(e.cos(lon), m)
    ensures r == ReferenceSums(LegendreTriangle(e, theta), SinSeries(e, lon), CosSeries(e, lon), data, ar)
  {
    BuffersMatchReference(e, theta, lon, p, sinml, cosml);
    SynthesisReadsOnly(p, sinml, cosml, LegendreTriangle(e, theta), SinSeries(e, lon), CosSeries(e, lon), data, ar);
  }

  /** Buffers holding the Legendre value at every valid pair and the
      recurrence's multiple-angle series agree with the reference sequences
      on every slot the synthesis reads. */
  lemma BuffersMatchReference(e: Elementary, theta: real, lon: real, p: seq<real>, sinml: seq<real>, cosml: seq<real>)
    requires e.SqrtPositive() && |p| == CoeffsCount && |sinml| == SeriesSize && |cosml| == SeriesSize
    requires forall n: nat, m: nat :: m <= n <= MaxDeg ==> Holds(p, e, theta, n, m)
    requires forall m :: 1 <= m <= MaxDeg ==>
      sinml[m] == SinMultiple(e.sin(lon), e.cos(lon), m) && cosml[m] == ChebyshevT(e.cos(lon), m)
    ensures SameReads(p, sinml, cosml, LegendreTriangle(e, theta), SinSeries(e, lon), CosSeries(e, lon))
  {
    var tri := LegendreTriangle(e, theta);
    forall k | 2 <= k <= LastIndex
      ensures p[k] == tri[k]
    {
      UnpackInRange(k);
      var nm := Unpack(k);
      assert Holds(p, e, theta, nm.0, nm.1);
      TriangleAt(e, theta, MaxDeg, nm.0, nm.1);
    }
  }
}
