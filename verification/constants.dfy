/** The fixed sizes of the EGM96 synthesis. */
module Egm96Constants {
  import opened U32

  /** Maximum degree and order of the harmonic expansion. */
  const MaxDeg: u32 := 360

  /** Declared size of the coefficient table and of the triangular buffer `p`. */
  const CoeffsCount: u32 := 65342

  /** Declared size of the square-root tables `drts` and `dirt`. */
  const ScalingSize: u32 := 1301

  /** Last index the constructor fills in the square-root tables: 2 * maxDeg + 1. */
  const ScalingFilled: u32 := 721

  /** Declared size of `rleg`, `rlnn`, `sinml` and `cosml`: maxDeg + 2. */
  const SeriesSize: u32 := 362

  /** Last packed index, that of degree 360 and order 360. */
  const LastIndex: u32 := 65341

  /** WGS84 equatorial radius in metres. */
  const EquatorialRadius: real := 6378137.0
}
