/** The degree-360 summation of `calculateGravitationalUndulation`, up to
    the two running sums it combines in its last line. The source walks the
    triangular buffer `p` and the coefficient table with a counter `k`; the
    reference sums below address them by the packed index instead. */
module Synthesis {
  import opened U32
  import opened Egm96Constants
  import opened PackedIndex

  /** One row `egm96Data[k]`: columns 0 and 1 feed the correction sum `ac`,
      columns 2 and 3 the harmonic sum `a`. */
  datatype CoeffRow = CoeffRow(corrCos: real, corrSin: real, harmCos: real, harmSin: real)

  /** The harmonic sum `a` and the correction sum `ac` as they stand before
      the closing formula. */
  datatype Sums = Sums(harmonic: real, correction: real)

  /** The buffers have their declared sizes; the table has `coeffsCount` rows. */
  predicate Sized(p: seq<real>, sinml: seq<real>, cosml: seq<real>, data: seq<CoeffRow>) {
    |p| == CoeffsCount && |sinml| == SeriesSize && |cosml| == SeriesSize && |data| == CoeffsCount
  }

  /** `temp` on line 76. */
  function RowHarmonic(row: CoeffRow, c: real, s: real): real {
    row.harmCos * c + row.harmSin * s
  }

  /** `tempc` on line 75. */
  function RowCorrection(row: CoeffRow, c: real, s: real): real {
    row.corrCos * c + row.corrSin * s
  }

  /** x to the power n, multiplied up one factor at a time as `arn *= ar` does. */
  function Pow(x: real, n: nat): real {
    if n == 0 then 1.0 else Pow(x, n - 1) * x
  }

  /** The harmonic contributions of degree n, orders 0 .. m, each read at
      its packed index. Order 0 uses column 2 alone. */
  function HarmonicOrders(p: seq<real>, sinml: seq<real>, cosml: seq<real>, data: seq<CoeffRow>, n: nat, m: nat): real
    requires Sized(p, sinml, cosml, data)
    requires m <= n <= MaxDeg
  {
    IndexBounds(n, m);
    var k := Index(n, m);
    if m == 0 then p[k] * data[k].harmCos
    else HarmonicOrders(p, sinml, cosml, data, n, m - 1) + p[k] * RowHarmonic(data[k], cosml[m], sinml[m])
  }

  /** The correction contributions of degree n, orders 0 .. m. */
  function CorrectionOrders(p: seq<real>, sinml: seq<real>, cosml: seq<real>, data: seq<CoeffRow>, n: nat, m: nat): real
    requires Sized(p, sinml, cosml, data)
    requires m <= n <= MaxDeg
  {
    IndexBounds(n, m);
    var k := Index(n, m);
    if m == 0 then p[k] * data[k].corrCos
    else CorrectionOrders(p, sinml, cosml, data, n, m - 1) + p[k] * RowCorrection(data[k], cosml[m], sinml[m])
  }

  /** Degrees 2 .. n of the harmonic sum, degree d weighted by ar^d. */
  function HarmonicDegrees(p: seq<real>, sinml: seq<real>, cosml: seq<real>, data: seq<CoeffRow>, ar: real, n: nat): real
    requires Sized(p, sinml, cosml, data)
    requires n <= MaxDeg
  {
    if n < 2 then 0.0
    else HarmonicDegrees(p, sinml, cosml, data, ar, n - 1) + HarmonicOrders(p, sinml, cosml, data, n, n) * Pow(ar, n)
  }

  /** Degrees 2 .. n of the correction sum. */
  function CorrectionDegrees(p: seq<real>, sinml: seq<real>, cosml: seq<real>, data: seq<CoeffRow>, n: nat): real
    requires Sized(p, sinml, cosml, data)
    requires n <= MaxDeg
  {
    if n < 2 then 0.0
    else CorrectionDegrees(p, sinml, cosml, data, n - 1) + CorrectionOrders(p, sinml, cosml, data, n, n)
  }

  /** Line 83: the degree 0 and 1 terms of the correction sum, at packed
      indices 1 = (0, 0), 2 = (1, 0) and 3 = (1, 1). The (0, 0) term omits
      `p[1]`, the Legendre value 1. */
  function LowDegreeCorrection(p: seq<real>, sinml: seq<real>, cosml: seq<real>, data: seq<CoeffRow>): real
    requires Sized(p, sinml, cosml, data)
  {
    data[1].corrCos + p[2] * data[2].corrCos + p[3] * RowCorrection(data[3], cosml[1], sinml[1])
  }

  /** The two sums the synthesis produces, with ar = equatorial radius / re. */
  function ReferenceSums(p: seq<real>, sinml: seq<real>, cosml: seq<real>, data: seq<CoeffRow>, ar: real): Sums
    requires Sized(p, sinml, cosml, data)
  {
    Sums(HarmonicDegrees(p, sinml, cosml, data, ar, MaxDeg),
         CorrectionDegrees(p, sinml, cosml, data, MaxDeg) + LowDegreeCorrection(p, sinml, cosml, data))
  }

  /** `calculateGravitationalUndulation` up to its last line: walks `p` and
      the table with the running counter `k` and returns `a` and `ac`.
      The result equals the packed-index reference sums, so `k` is the
      packed index of (n, m) at every read. */
  method CalculateGravitationalUndulation(p: seq<real>, sinml: seq<real>, cosml: seq<real>, data: seq<CoeffRow>, re: real)
    returns (r: Sums)
    requires Sized(p, sinml, cosml, data)
    requires re != 0.0
    ensures r == ReferenceSums(p, sinml, cosml, data, EquatorialRadius / re)
  {
    var ar := EquatorialRadius / re;
    var arn := ar;
    var ac := 0.0;
    var a := 0.0;

    var k: u32 := 3;
    var n: u32 := 2;
    assert Index(1, 1) == 3 by { assert Tri(1) == 1; }
    while n <= MaxDeg
      invariant 2 <= n <= MaxDeg + 1
      invariant k == Index(n - 1, n - 1)
      invariant arn == Pow(ar, n - 1)
      invariant a == HarmonicDegrees(p, sinml, cosml, data, ar, n - 1)
      invariant ac == CorrectionDegrees(p, sinml, cosml, data, n - 1)
    {
      ghost var arnBefore := arn;
      arn := arn * ar;
      var sum, sumc;
      sum, sumc, k := DegreeSums(p, sinml, cosml, data, n, k);
      NextDegree(p, sinml, cosml, data, ar, n, a, ac, arnBefore, sum, sumc);
      ac := ac + sumc;
      a := a + sum * arn;
      n := n + 1;
    }
    ac := ac + (data[1].corrCos + p[2] * data[2].corrCos + p[3] * (data[3].corrCos * cosml[1] + data[3].corrSin * sinml[1]));
    r := Sums(a, ac);
  }

  /** Adding degree n's sums, weighted by the next power of ar, extends the
      reference sums by one degree. */
  lemma NextDegree(p: seq<real>, sinml: seq<real>, cosml: seq<real>, data: seq<CoeffRow>, ar: real, n: nat,
                   a: real, ac: real, arn: real, sum: real, sumc: real)
    requires Sized(p, sinml, cosml, data)
    requires 2 <= n <= MaxDeg
    requires arn == Pow(ar, n - 1)
    requires a == HarmonicDegrees(p, sinml, cosml, data, ar, n - 1)
    requires ac == CorrectionDegrees(p, sinml, cosml, data, n - 1)
    requires sum == HarmonicOrders(p, sinml, cosml, data, n, n)
    requires sumc == CorrectionOrders(p, sinml, cosml, data, n, n)
    ensures arn * ar == Pow(ar, n)
    ensures a + sum * (arn * ar) == HarmonicDegrees(p, sinml, cosml, data, ar, n)
    ensures ac + sumc == CorrectionDegrees(p, sinml, cosml, data, n)
  {
  }

  /** Lines 69-79 for one degree n: the counter arrives at the index of
      (n - 1, n - 1), is stepped to (n, 0) and then through (n, 1) .. (n, n);
      `sum` and `sumc` collect that degree's contributions. */
  method DegreeSums(p: seq<real>, sinml: seq<real>, cosml: seq<real>, data: seq<CoeffRow>, n: u32, k0: u32)
    returns (sum: real, sumc: real, k: u32)
    requires Sized(p, sinml, cosml, data)
    requires 2 <= n <= MaxDeg && k0 == Index(n - 1, n - 1)
    ensures k == Index(n, n)
    ensures sum == HarmonicOrders(p, sinml, cosml, data, n, n)
    ensures sumc == CorrectionOrders(p, sinml, cosml, data, n, n)
  {
    IndexBounds(n, 0);
    k := k0 + 1;
    sum := p[k] * data[k].harmCos;
    sumc := p[k] * data[k].corrCos;

    var m: u32 := 1;
    while m <= n
      invariant 1 <= m <= n + 1
      invariant k == Index(n, m - 1)
      invariant sum == HarmonicOrders(p, sinml, cosml, data, n, m - 1)
      invariant sumc == CorrectionOrders(p, sinml, cosml, data, n, m - 1)
    {
      IndexBounds(n, m);
      k := k + 1;
      var tempc := data[k].corrCos * cosml[m] + data[k].corrSin * sinml[m];
      var temp := data[k].harmCos * cosml[m] + data[k].harmSin * sinml[m];
      sumc := sumc + p[k] * tempc;
      sum := sum + p[k] * temp;
      m := m + 1;
    }
  }

  /** Two buffer sets agree on everything the synthesis reads: slots
      2 .. 65341 of `p` (slot 1 is never read) and slots 1 .. 360 of the
      trig series. */
  predicate SameReads(p: seq<real>, sinml: seq<real>, cosml: seq<real>,
                      p': seq<real>, sinml': seq<real>, cosml': seq<real>)
    requires |p| == |p'| == CoeffsCount
    requires |sinml| == |sinml'| == |cosml| == |cosml'| == SeriesSize
  {
    (forall k :: 2 <= k <= LastIndex ==> p[k] == p'[k]) &&
    (forall m :: 1 <= m <= MaxDeg ==> sinml[m] == sinml'[m] && cosml[m] == cosml'[m])
  }

  /** The synthesis reads nothing outside `SameReads`: buffers that agree
      there give the same sums, whatever the other slots hold. */
  lemma SynthesisReadsOnly(p: seq<real>, sinml: seq<real>, cosml: seq<real>,
                           p': seq<real>, sinml': seq<real>, cosml': seq<real>, data: seq<CoeffRow>, ar: real)
    requires Sized(p, sinml, cosml, data) && Sized(p', sinml', cosml', data)
    requires SameReads(p, sinml, cosml, p', sinml', cosml')
    ensures ReferenceSums(p, sinml, cosml, data, ar) == ReferenceSums(p', sinml', cosml', data, ar)
  {
    DegreesReadOnly(p, sinml, cosml, p', sinml', cosml', data, ar, MaxDeg);
  }

  /** `SynthesisReadsOnly` for degrees 2 .. n. */
  lemma {:induction false} DegreesReadOnly(p: seq<real>, sinml: seq<real>, cosml: seq<real>,
                                            p': seq<real>, sinml': seq<real>, cosml': seq<real>,
                                            data: seq<CoeffRow>, ar: real, n: nat)
    requires Sized(p, sinml, cosml, data) && Sized(p', sinml', cosml', data)
    requires SameReads(p, sinml, cosml, p', sinml', cosml')
    requires n <= MaxDeg
    ensures HarmonicDegrees(p, sinml, cosml, data, ar, n) == HarmonicDegrees(p', sinml', cosml', data, ar, n)
    ensures CorrectionDegrees(p, sinml, cosml, data, n) == CorrectionDegrees(p', sinml', cosml', data, n)
  {
    if 2 <= n {
      DegreesReadOnly(p, sinml, cosml, p', sinml', cosml', data, ar, n - 1);
      OrdersReadOnly(p, sinml, cosml, p', sinml', cosml', data, n, n);
    }
  }

  /** `SynthesisReadsOnly` for orders 0 .. m of a degree n >= 2, whose
      packed indices are at least 4. */
  lemma {:induction false} OrdersReadOnly(p: seq<real>, sinml: seq<real>, cosml: seq<real>,
                                           p': seq<real>, sinml': seq<real>, cosml': seq<real>,
                                           data: seq<CoeffRow>, n: nat, m: nat)
    requires Sized(p, sinml, cosml, data) && Sized(p', sinml', cosml', data)
    requires SameReads(p, sinml, cosml, p', sinml', cosml')
    requires 2 <= n <= MaxDeg && m <= n
    ensures HarmonicOrders(p, sinml, cosml, data, n, m) == HarmonicOrders(p', sinml', cosml', data, n, m)
    ensures CorrectionOrders(p, sinml, cosml, data, n, m) == CorrectionOrders(p', sinml', cosml', data, n, m)
  {
    IndexBounds(n, m);
    if 0 < m {
      OrdersReadOnly(p, sinml, cosml, p', sinml', cosml', data, n, m - 1);
    }
  }
}
