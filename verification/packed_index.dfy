/** The packed triangular index that places the Legendre value of degree n
    and order m into the buffer `p`, and that selects the matching row of the
    coefficient table: idx(n, m) = n (n + 1) / 2 + m + 1 for 0 <= m <= n. */
module PackedIndex {
  import opened U32
  import opened Egm96Constants

  /** Triangular number 0 + 1 + ... + n: how many (degree, order) pairs have degree below n + 1. */
  function Tri(n: nat): nat {
    if n == 0 then 0 else Tri(n - 1) + n
  }

  /** idx(n, m): degree n occupies the block Tri(n) + 1 .. Tri(n) + n + 1. */
  function Index(n: nat, m: nat): nat {
    Tri(n) + m + 1
  }

  /** Twice a triangular number is n (n + 1). */
  lemma {:induction false} TriDouble(n: nat)
    ensures 2 * Tri(n) == n * (n + 1)
  {
    if n > 0 {
      TriDouble(n - 1);
      assert n * (n + 1) == (n - 1) * n + 2 * n;
    }
  }

  /** Triangular numbers grow with the degree, strictly from one block to the next. */
  lemma {:induction false} TriMonotone(a: nat, b: nat)
    requires a <= b
    ensures Tri(a) <= Tri(b)
    ensures a < b ==> Tri(a) + a + 1 <= Tri(b)
    decreases b - a
  {
    if a < b {
      TriMonotone(a, b - 1);
    }
  }

  /** Every valid (degree, order) pair of the expansion lands in 1 .. 65341,
      and a degree of at least 2 lands in 4 .. 65341. */
  lemma IndexBounds(n: nat, m: nat)
    requires m <= n <= MaxDeg
    ensures 1 <= Index(n, m) <= LastIndex
    ensures 2 <= n ==> 4 <= Index(n, m)
  {
    TriMonotone(n, MaxDeg);
    TriDouble(MaxDeg);
    if 2 <= n {
      TriMonotone(2, n);
    }
  }

  /** The source's expression `((i - 1) * i) / 2 + m + 1`, with row i = n + 1,
      evaluated in `uint32_t`. */
  function PackU32(i: u32, m: u32): (k: u32)
    ensures 1 <= i <= MaxDeg + 1 && m < i ==> k == Index(i - 1, m)
  {
    var packed := Add(Add(Div(Mul(Sub(i, 1), i), 2), m), 1);
    if 1 <= i <= MaxDeg + 1 && m < i then PackNoWrap(i, m); packed else packed
  }

  /** For rows 1 .. 361 no step of the packed-index expression wraps. */
  lemma PackNoWrap(i: u32, m: u32)
    requires 1 <= i <= MaxDeg + 1 && m < i
    ensures Add(Add(Div(Mul(Sub(i, 1), i), 2), m), 1) == Index(i - 1, m)
  {
    var n: nat := i - 1;
    TriDouble(n);
    TriMonotone(n, MaxDeg);
    TriDouble(MaxDeg);
    assert n * i == 2 * Tri(n);
    assert Mul(Sub(i, 1), i) == 2 * Tri(n);
  }

  /** The degree whose block holds packed index k, searching upwards from degree n. */
  function DegreeFrom(k: nat, n: nat): (d: nat)
    requires Tri(n) < k
    ensures n <= d && Tri(d) < k <= Tri(d) + d + 1
    decreases k - Tri(n)
  {
    if k <= Tri(n) + n + 1 then n else DegreeFrom(k, n + 1)
  }

  /** The (degree, order) pair stored at packed index k. */
  function Unpack(k: nat): (nm: (nat, nat))
    requires 1 <= k
    ensures nm.1 <= nm.0 && Index(nm.0, nm.1) == k
  {
    var d := DegreeFrom(k, 0);
    (d, k - Tri(d) - 1)
  }

  /** Unpacking a packed index gives back the pair it was packed from. */
  lemma UnpackIndex(n: nat, m: nat)
    requires m <= n
    ensures Unpack(Index(n, m)) == (n, m)
  {
    var k := Index(n, m);
    var d := Unpack(k).0;
    if d < n {
      TriMonotone(d, n);
    } else if n < d {
      TriMonotone(n, d);
    }
  }

  /** Distinct valid pairs get distinct packed indices, so the scatter writes
      no slot twice. */
  lemma IndexInjective(n1: nat, m1: nat, n2: nat, m2: nat)
    requires m1 <= n1 && m2 <= n2
    requires Index(n1, m1) == Index(n2, m2)
    ensures n1 == n2 && m1 == m2
  {
    UnpackIndex(n1, m1);
    UnpackIndex(n2, m2);
  }

  /** Every index up to 65341 unpacks to a pair of degree at most 360. */
  lemma UnpackInRange(k: nat)
    requires 1 <= k <= LastIndex
    ensures Unpack(k).0 <= MaxDeg
  {
    var d := Unpack(k).0;
    if MaxDeg < d {
      TriMonotone(MaxDeg + 1, d);
      TriDouble(MaxDeg + 1);
    }
  }

  /** The degrees lo .. hi fill exactly the consecutive indices
      Tri(lo) + 1 .. Tri(hi) + hi + 1: with lo = 0, hi = 360 this is 1 .. 65341,
      and with lo = 2 it is 4 .. 65341, the slots the synthesis loop reads. */
  lemma IndexImage(lo: nat, hi: nat)
    requires lo <= hi
    ensures forall n: nat, m: nat :: lo <= n <= hi && m <= n ==> Tri(lo) < Index(n, m) <= Tri(hi) + hi + 1
    ensures forall k: nat :: Tri(lo) < k <= Tri(hi) + hi + 1 ==> lo <= Unpack(k).0 <= hi
  {
    forall n: nat, m: nat | lo <= n <= hi && m <= n
      ensures Tri(lo) < Index(n, m) <= Tri(hi) + hi + 1
    {
      TriMonotone(lo, n);
      TriMonotone(n, hi);
    }
    forall k: nat | Tri(lo) < k <= Tri(hi) + hi + 1
      ensures lo <= Unpack(k).0 <= hi
    {
      var d := Unpack(k).0;
      if d < lo {
        TriMonotone(d, lo);
      } else if hi < d {
        TriMonotone(hi, d);
      }
    }
  }
}
