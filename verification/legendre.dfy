/** Fully normalized associated Legendre functions of one order m, for all
    degrees n = m .. 360, as `computeNormalizedLegendreFunctions` fills them. */
module Legendre {
  import opened U32
  import opened Egm96Constants
  import opened Numerics
  import opened ScalingTables

  /** The sectoral function of degree and order k at colatitude theta:
      P(0,0) = 1, P(1,1) = sqrt 3 sin theta, and
      P(k,k) = sqrt(2k+1) / sqrt(2k) * sin theta * P(k-1,k-1). */
  function Sectoral(e: Elementary, theta: real, k: nat): real
    requires e.SqrtPositive()
  {
    if k == 0 then 1.0
    else if k == 1 then e.sin(theta) * Root(e, 3)
    else Root(e, 2 * k + 1) / Root(e, 2 * k) * e.sin(theta) * Sectoral(e, theta, k - 1)
  }

  /** The recurrence in degree, for n >= m + 2, from p1 = P(n-1,m) and p2 = P(n-2,m):
      P(n,m) = sqrt(2n+1) / (sqrt(n+m) sqrt(n-m))
               * (sqrt(2n-1) cos theta p1 - sqrt(n+m-1) sqrt(n-m-1) / sqrt(2n-3) * p2). */
  function DegreeStep(e: Elementary, theta: real, n: nat, m: nat, p1: real, p2: real): real
    requires e.SqrtPositive()
    requires m + 2 <= n
  {
    Root(e, 2 * n + 1) / Root(e, n + m) / Root(e, n - m)
    * (Root(e, 2 * n - 1) * e.cos(theta) * p1
       - Root(e, n + m - 1) * Root(e, n - m - 1) / Root(e, 2 * n - 3) * p2)
  }

  /** The normalized function of degree n and order m (m <= n): the
      sectoral value on the diagonal, sqrt(2m+3) cos theta times it one
      degree above, and `DegreeStep` beyond that. */
  function Normalized(e: Elementary, theta: real, n: nat, m: nat): real
    requires e.SqrtPositive()
    requires m <= n
    decreases n
  {
    if n == m then Sectoral(e, theta, m)
    else if n == m + 1 then Root(e, 2 * m + 3) * e.cos(theta) * Sectoral(e, theta, m)
    else DegreeStep(e, theta, n, m, Normalized(e, theta, n - 1, m), Normalized(e, theta, n - 2, m))
  }

  /** The seven table positions line 154 reads for degree n of order m, as
      the source computes them in 32-bit unsigned arithmetic. */
  datatype RecurrenceIndices = RecurrenceIndices(
    twoNPlus1: u32, nPlusM: u32, nMinusM: u32, twoNMinus1: u32,
    nPlusMMinus1: u32, nMinusMMinus1: u32, twoNMinus3: u32)

  /** For every degree the loop reaches (m + 2 <= n <= 360) none of the
      subtractions wraps, and every position lies in the filled part
      1 .. 721 of `drts` and `dirt`. */
  function RecurrenceIndicesOf(m: u32, n: u32): (ix: RecurrenceIndices)
    ensures m + 2 <= n <= MaxDeg ==>
      ix == RecurrenceIndices(2 * n + 1, n + m, n - m, 2 * n - 1, n + m - 1, n - m - 1, 2 * n - 3)
    ensures m + 2 <= n <= MaxDeg ==>
      1 <= ix.twoNPlus1 <= ScalingFilled && 1 <= ix.nPlusM <= ScalingFilled &&
      1 <= ix.nMinusM <= ScalingFilled && 1 <= ix.twoNMinus1 <= ScalingFilled &&
      1 <= ix.nPlusMMinus1 <= ScalingFilled && 1 <= ix.nMinusMMinus1 <= ScalingFilled &&
      1 <= ix.twoNMinus3 <= ScalingFilled
  {
    var n2 := Mul(2, n);
    RecurrenceIndices(
      Add(n2, 1), Add(n, m), Sub(n, m), Sub(n2, 1),
      Sub(Add(n, m), 1), Sub(Sub(n, m), 1), Sub(n2, 3))
  }

  /** Every position lies inside the declared tables. */
  predicate WithinTables(ix: RecurrenceIndices) {
    ix.twoNPlus1 < ScalingSize && ix.nPlusM < ScalingSize && ix.nMinusM < ScalingSize &&
    ix.twoNMinus1 < ScalingSize && ix.nPlusMMinus1 < ScalingSize &&
    ix.nMinusMMinus1 < ScalingSize && ix.twoNMinus3 < ScalingSize
  }

  /** The right-hand side of line 154, read from the tables at the given
      positions, with x1 = rleg[n1-1] and x2 = rleg[n1-2]. */
  function LineRecurrence(t: Tables, ix: RecurrenceIndices, cothet: real, x1: real, x2: real): real
    requires |t.drts| == ScalingSize && |t.dirt| == ScalingSize && WithinTables(ix)
  {
    t.drts[ix.twoNPlus1] * t.dirt[ix.nPlusM] * t.dirt[ix.nMinusM]
    * (t.drts[ix.twoNMinus1] * cothet * x1
       - t.drts[ix.nPlusMMinus1] * t.drts[ix.nMinusMMinus1] * t.dirt[ix.twoNMinus3] * x2)
  }

  /** `computeNormalizedLegendreFunctions(m, theta, rleg)`: the buffer
      comes in as `rlegIn` and goes out as `rleg`. Slot n + 1 receives the
      function of degree n for every n = m .. 360; slots 0 .. m keep what
      the previous call left there. */
  method ComputeNormalizedLegendreFunctions(t: Tables, e: Elementary, m: u32, theta: real, rlegIn: seq<real>)
    returns (rleg: seq<real>)
    requires e.SqrtPositive() && Filled(t, e)
    requires m <= MaxDeg && |rlegIn| == SeriesSize
    ensures |rleg| == SeriesSize
    ensures forall n :: m <= n <= MaxDeg ==> rleg[n + 1] == Normalized(e, theta, n, m)
    ensures forall i :: 0 <= i <= m ==> rleg[i] == rlegIn[i]
  {
    var nmax1 := Add(MaxDeg, 1);
    var m1, m2, m3 := Add(m, 1), Add(m, 2), Add(m, 3);
    var cothet := e.cos(theta);
    var rlnn := SectoralColumn(t, e, theta, m);

    rleg := rlegIn;
    if m == 1 {
      SwitchAgreesWithBaseCases(t, e, theta);
      rleg := rleg[2 := rlnn[2]];
      rleg := rleg[3 := t.drts[5] * cothet * rleg[2]];
    } else if m == 0 {
      SwitchAgreesWithBaseCases(t, e, theta);
      rleg := rleg[1 := 1.0];
      rleg := rleg[2 := cothet * t.drts[3]];
    }
    rleg := rleg[m1 := rlnn[m1]];

    if m2 <= nmax1 {
      assert 1 <= Add(Mul(m1, 2), 1) <= ScalingFilled;
      var v := t.drts[Add(Mul(m1, 2), 1)] * cothet * rleg[m1];
      AboveDiagonal(t, e, theta, m, rleg[m1]);
      rleg := rleg[m2 := v];
      if m3 <= nmax1 {
        rleg := DegreeRecurrence(t, e, theta, m, rleg);
      }
    }
  }

  /** Lines 115-132: `rlnn[k + 1]` holds the sectoral function of degree k,
      for k = 0 .. m. */
  method SectoralColumn(t: Tables, e: Elementary, theta: real, m: u32) returns (rlnn: seq<real>)
    requires e.SqrtPositive() && Filled(t, e)
    requires m <= MaxDeg
    ensures |rlnn| == SeriesSize
    ensures forall k :: 0 <= k <= m ==> rlnn[k + 1] == Sectoral(e, theta, k)
  {
    var m1 := Add(m, 1);
    rlnn := seq(SeriesSize, _ => 0.0)[1 := 1.0][2 := e.sin(theta) * t.drts[3]];
    var n1: u32 := 3;
    while n1 <= m1
      invariant 3 <= n1 <= if m1 < 3 then 3 else m1 + 1
      invariant |rlnn| == SeriesSize
      invariant forall k {:trigger rlnn[k]} :: 1 <= k < n1 ==> rlnn[k] == Sectoral(e, theta, k - 1)
    {
      var v := SectoralLine(t, e, theta, n1, rlnn);
      ExtendSectoral(e, theta, n1, rlnn, v);
      rlnn := rlnn[n1 := v];
      n1 := n1 + 1;
    }
  }

  /** Lines 148-156: with the first two degrees of order m in place, the
      loop fills every higher degree up to 360 by line 154. The `continue`
      of line 151 is modelled as written; the contract shows it is never
      taken. */
  method DegreeRecurrence(t: Tables, e: Elementary, theta: real, m: u32, rlegIn: seq<real>) returns (rleg: seq<real>)
    requires e.SqrtPositive() && Filled(t, e)
    requires m + 2 <= MaxDeg && |rlegIn| == SeriesSize
    requires rlegIn[m + 1] == Normalized(e, theta, m, m)
    requires rlegIn[m + 2] == Normalized(e, theta, m + 1, m)
    ensures |rleg| == SeriesSize
    ensures forall n :: m <= n <= MaxDeg ==> rleg[n + 1] == Normalized(e, theta, n, m)
    ensures forall i :: 0 <= i <= m ==> rleg[i] == rlegIn[i]
  {
    var nmax1 := Add(MaxDeg, 1);
    rleg := rlegIn;
    var n1 := Add(m, 3);
    while n1 <= nmax1
      invariant m + 3 <= n1 <= nmax1 + 1
      invariant |rleg| == SeriesSize
      invariant forall k {:trigger rleg[k]} :: m + 1 <= k < n1 ==> rleg[k] == Normalized(e, theta, k - 1, m)
      invariant forall i :: 0 <= i <= m ==> rleg[i] == rlegIn[i]
    {
      var n := Sub(n1, 1);
      SkipGuardNeverFires(m, n);
      if !((m == 0 && n < 2) || (m == 1 && n < 3)) {
        var w := RecurrenceLine(t, e, theta, m, n1, rleg);
        ExtendColumn(e, theta, m, n1, rleg, w);
        rleg := rleg[n1 := w];
      }
      n1 := n1 + 1;
    }
  }

  /** Storing the next value keeps the column correct one slot further. */
  lemma ExtendColumn(e: Elementary, theta: real, m: nat, n1: nat, rleg: seq<real>, w: real)
    requires e.SqrtPositive()
    requires m + 1 <= n1 < |rleg|
    requires forall k {:trigger rleg[k]} :: m + 1 <= k < n1 ==> rleg[k] == Normalized(e, theta, k - 1, m)
    requires w == Normalized(e, theta, n1 - 1, m)
    ensures forall k {:trigger rleg[n1 := w][k]} :: m + 1 <= k <= n1 ==> rleg[n1 := w][k] == Normalized(e, theta, k - 1, m)
  {
  }

  /** Storing the next sectoral value keeps `rlnn` correct one slot further. */
  lemma ExtendSectoral(e: Elementary, theta: real, n1: nat, rlnn: seq<real>, v: real)
    requires e.SqrtPositive()
    requires 1 <= n1 < |rlnn|
    requires forall k {:trigger rlnn[k]} :: 1 <= k < n1 ==> rlnn[k] == Sectoral(e, theta, k - 1)
    requires v == Sectoral(e, theta, n1 - 1)
    ensures forall k {:trigger rlnn[n1 := v][k]} :: 1 <= k <= n1 ==> rlnn[n1 := v][k] == Sectoral(e, theta, k - 1)
  {
  }

  /** Line 131 for slot n1: the sectoral function of degree n = n1 - 1
      from the slot below. */
  method SectoralLine(t: Tables, e: Elementary, theta: real, n1: u32, rlnn: seq<real>) returns (v: real)
    requires e.SqrtPositive() && Filled(t, e)
    requires 3 <= n1 <= MaxDeg + 1 && |rlnn| == SeriesSize
    requires forall k {:trigger rlnn[k]} :: 1 <= k < n1 ==> rlnn[k] == Sectoral(e, theta, k - 1)
    ensures v == Sectoral(e, theta, n1 - 1)
  {
    var n := Sub(n1, 1);
    var n2 := Mul(2, n);
    assert 1 <= n2 && Add(n2, 1) <= ScalingFilled;
    var d, r, prev := t.drts[Add(n2, 1)], t.dirt[n2], rlnn[n];
    assert prev == Sectoral(e, theta, n - 1);
    v := d * r * e.sin(theta) * prev;
    SectoralStep(e, theta, n, prev, d, r);
  }

  /** Line 154 for slot n1 (degree n = n1 - 1), reading the two slots below. */
  method RecurrenceLine(t: Tables, e: Elementary, theta: real, m: u32, n1: u32, rleg: seq<real>) returns (w: real)
    requires e.SqrtPositive() && Filled(t, e)
    requires m + 3 <= n1 <= MaxDeg + 1 && |rleg| == SeriesSize
    requires forall k {:trigger rleg[k]} :: m + 1 <= k < n1 ==> rleg[k] == Normalized(e, theta, k - 1, m)
    ensures w == Normalized(e, theta, n1 - 1, m)
  {
    var n := Sub(n1, 1);
    assert n == n1 - 1;
    var x1, x2 := rleg[n], rleg[Sub(n1, 2)];
    assert x1 == Normalized(e, theta, n - 1, m);
    assert x2 == Normalized(e, theta, n - 2, m);
    LineIsNormalized(t, e, theta, m, n, x1, x2);
    w := LineRecurrence(t, RecurrenceIndicesOf(m, n), e.cos(theta), x1, x2);
  }

  /** Line 154, fed the functions of degrees n - 1 and n - 2, yields the
      function of degree n. */
  lemma LineIsNormalized(t: Tables, e: Elementary, theta: real, m: u32, n: u32, x1: real, x2: real)
    requires e.SqrtPositive() && Filled(t, e)
    requires m + 2 <= n <= MaxDeg
    requires x1 == Normalized(e, theta, n - 1, m) && x2 == Normalized(e, theta, n - 2, m)
    ensures WithinTables(RecurrenceIndicesOf(m, n))
    ensures LineRecurrence(t, RecurrenceIndicesOf(m, n), e.cos(theta), x1, x2) == Normalized(e, theta, n, m)
  {
    RecurrenceStep(t, e, theta, m, n, x1, x2);
    NormalizedStep(e, theta, n, m);
  }

  /** Line 147: one degree above the diagonal. */
  lemma AboveDiagonal(t: Tables, e: Elementary, theta: real, m: u32, x: real)
    requires e.SqrtPositive() && Filled(t, e)
    requires m < MaxDeg
    requires x == Sectoral(e, theta, m)
    ensures t.drts[2 * (m + 1) + 1] * e.cos(theta) * x == Normalized(e, theta, m + 1, m)
  {
  }

  /** `Normalized` above the first two degrees is one `DegreeStep`. */
  lemma NormalizedStep(e: Elementary, theta: real, n: nat, m: nat)
    requires e.SqrtPositive()
    requires m + 2 <= n
    ensures Normalized(e, theta, n, m)
         == DegreeStep(e, theta, n, m, Normalized(e, theta, n - 1, m), Normalized(e, theta, n - 2, m))
  {
  }

  /** One step of the sectoral loop (line 131) yields the next sectoral value. */
  lemma SectoralStep(e: Elementary, theta: real, n: nat, prev: real, d: real, r: real)
    requires e.SqrtPositive()
    requires 2 <= n
    requires prev == Sectoral(e, theta, n - 1)
    requires d == Root(e, 2 * n + 1) && r == 1.0 / Root(e, 2 * n)
    ensures d * r * e.sin(theta) * prev == Sectoral(e, theta, n)
  {
    ReciprocalIsQuotient(d, Root(e, 2 * n), e.sin(theta), prev);
  }

  /** a * (1 / b) * c * x == a / b * c * x. */
  lemma ReciprocalIsQuotient(a: real, b: real, c: real, x: real)
    requires b != 0.0
    ensures a * (1.0 / b) * c * x == a / b * c * x
  {
  }

  /** Line 154, with the tables standing for square roots and their
      reciprocals, is the degree recurrence of `Normalized`. */
  lemma RecurrenceStep(t: Tables, e: Elementary, theta: real, m: u32, n: u32, x1: real, x2: real)
    requires e.SqrtPositive() && Filled(t, e)
    requires m + 2 <= n <= MaxDeg
    ensures WithinTables(RecurrenceIndicesOf(m, n))
    ensures LineRecurrence(t, RecurrenceIndicesOf(m, n), e.cos(theta), x1, x2) == DegreeStep(e, theta, n, m, x1, x2)
  {
    RecurrenceReads(t, e, m, n);
    ReciprocalForm(
      Root(e, 2 * n + 1), Root(e, n + m), Root(e, n - m), Root(e, 2 * n - 1),
      Root(e, n + m - 1), Root(e, n - m - 1), Root(e, 2 * n - 3), e.cos(theta), x1, x2);
  }

  /** The seven reads of line 154 return the square roots and reciprocals
      of the intended arguments. */
  lemma RecurrenceReads(t: Tables, e: Elementary, m: u32, n: u32)
    requires e.SqrtPositive() && Filled(t, e)
    requires m + 2 <= n <= MaxDeg
    ensures var ix := RecurrenceIndicesOf(m, n);
      t.drts[ix.twoNPlus1] == Root(e, 2 * n + 1) && t.dirt[ix.nPlusM] == 1.0 / Root(e, n + m) &&
      t.dirt[ix.nMinusM] == 1.0 / Root(e, n - m) && t.drts[ix.twoNMinus1] == Root(e, 2 * n - 1) &&
      t.drts[ix.nPlusMMinus1] == Root(e, n + m - 1) && t.drts[ix.nMinusMMinus1] == Root(e, n - m - 1) &&
      t.dirt[ix.twoNMinus3] == 1.0 / Root(e, 2 * n - 3)
  {
  }

  /** The reciprocal-table form of the recurrence equals the quotient form. */
  lemma ReciprocalForm(a: real, b: real, c: real, d: real, f: real, g: real, h: real, ct: real, x1: real, x2: real)
    requires b != 0.0 && c != 0.0 && h != 0.0
    ensures a * (1.0 / b) * (1.0 / c) * (d * ct * x1 - f * g * (1.0 / h) * x2)
         == a / b / c * (d * ct * x1 - f * g / h * x2)
  {
  }

  /** The `continue` guard of line 151 never fires: the loop starts at
      degree m + 2, which is at least 2 for order 0 and at least 3 for order 1. */
  lemma SkipGuardNeverFires(m: u32, n: u32)
    requires m + 2 <= n
    ensures !((m == 0 && n < 2) || (m == 1 && n < 3))
  {
  }

  /** The `switch` of lines 134-143 stores, for orders 0 and 1, exactly the
      values lines 144 and 147 then store in the same slots, so it changes
      nothing. */
  lemma SwitchAgreesWithBaseCases(t: Tables, e: Elementary, theta: real)
    requires e.SqrtPositive() && Filled(t, e)
    ensures 1.0 == Normalized(e, theta, 0, 0)
    ensures e.cos(theta) * t.drts[3] == Normalized(e, theta, 1, 0)
    ensures e.sin(theta) * t.drts[3] == Normalized(e, theta, 1, 1)
    ensures t.drts[5] * e.cos(theta) * (e.sin(theta) * t.drts[3]) == Normalized(e, theta, 2, 1)
  {
  }
}
