/** The square-root tables built once by the constructor and read by the
    Legendre recursion: drts[n] = sqrt(n) and dirt[n] = 1 / sqrt(n). */
module ScalingTables {
  import opened U32
  import opened Egm96Constants
  import opened Numerics

  /** The two member arrays `drts` and `dirt`, each of declared size 1301. */
  datatype Tables = Tables(drts: seq<real>, dirt: seq<real>)

  /** The tables have their declared size and hold sqrt(n) and 1 / sqrt(n) for
      every n in 1 .. 2 * maxDeg + 1. Nothing is said of the other slots. */
  ghost predicate Filled(t: Tables, e: Elementary)
    requires e.SqrtPositive()
  {
    |t.drts| == ScalingSize && |t.dirt| == ScalingSize &&
    (forall n {:trigger t.drts[n]} :: 1 <= n <= ScalingFilled ==> t.drts[n] == Root(e, n)) &&
    (forall n {:trigger t.dirt[n]} :: 1 <= n <= ScalingFilled ==> t.dirt[n] == 1.0 / Root(e, n))
  }

  /** The constructor `EGM96()`: fills 1 .. nmax2p of both tables. The unfilled
      slots of the member arrays hold whatever the object's storage held; here
      they hold arbitrary values, and no contract mentions them. */
  method Build(e: Elementary) returns (t: Tables)
    requires e.SqrtPositive()
    ensures Filled(t, e)
  {
    var drts := new real[ScalingSize];
    var dirt := new real[ScalingSize];
    var nmax2p: u32 := Add(Mul(2, MaxDeg), 1);
    var n: u32 := 1;
    while n <= nmax2p
      invariant 1 <= n <= nmax2p + 1
      invariant forall j :: 1 <= j < n ==> drts[j] == Root(e, j) && dirt[j] == 1.0 / Root(e, j)
    {
      drts[n] := Root(e, n);
      dirt[n] := 1.0 / drts[n];
      n := n + 1;
    }
    t := Tables(drts[..], dirt[..]);
  }

  /** Each filled pair of slots multiplies to one: dirt[n] is the reciprocal
      of drts[n], so the recursion may multiply by it wherever it means to
      divide. */
  lemma ReciprocalTables(t: Tables, e: Elementary)
    requires e.SqrtPositive() && Filled(t, e)
    ensures forall n :: 1 <= n <= ScalingFilled ==> t.drts[n] != 0.0 && t.drts[n] * t.dirt[n] == 1.0
  {
    forall n | 1 <= n <= ScalingFilled
      ensures t.drts[n] != 0.0 && t.drts[n] * t.dirt[n] == 1.0
    {
      assert 0.0 < Root(e, n);
    }
  }
}
