# EGM96 geoid undulation: index bookkeeping

This project is a Dafny model of the integer bookkeeping in the single-header
EGM96 geoid library (`EGM96.hpp`). The library computes the height of the
EGM96 geoid above the WGS84 ellipsoid. It works in four steps:

1. Its constructor fills the square-root tables `drts` and `dirt`.
2. For each order m = 0 .. 360, `computeNormalizedLegendreFunctions` fills a
   column `rleg` of fully normalized associated Legendre functions.
3. Each column is scattered into the triangular buffer `p` at the packed
   index ((i-1) i)/2 + m + 1, where i = n + 1.
4. `computeTrigonometricSeriesForLongitude` builds sin(m lon) and cos(m lon)
   by a three-term recurrence. Then `calculateGravitationalUndulation` walks
   `p` and the coefficient table with a running counter `k`.

The model keeps every index expression, loop bound, guard and buffer size of
the source. Index arithmetic uses explicit 32-bit unsigned operations
(`U32.Add`, `Sub`, `Mul`, `Div`), so a wrap-around would appear as a wrong
index. Floating-point values are reals. `sqrt`, `sin`, `cos` and `M_PI` are
fields of a `Numerics.Elementary` value, about which only what a contract
requires is known.

What is proved:

- **Packed index.** The packed index (n, m) ↦ n(n+1)/2 + m + 1 is injective. It
  maps the pairs 0 <= m <= n <= 360 onto exactly 1 .. 65341, and pairs of degree
  >= 2 onto exactly 4 .. 65341. Its `uint32_t` evaluation at line 208 never
  wraps.
- **Legendre column.** `computeNormalizedLegendreFunctions` writes the correct
  Legendre value into every slot m+1 .. 361 of `rleg`, on every call. It keeps
  slots 0 .. m as they were. It reads `drts`/`dirt` only in 1 .. 721 and
  `rleg`/`rlnn` only in 1 .. 361. No unsigned subtraction wraps. The
  `continue` at line 151 never fires. The `switch` at lines 134-143 stores
  only values that lines 144 and 147 then store again.
- **Scatter and synthesis.** After the scatter loop, every slot 1 .. 65341 of
  `p` holds the Legendre value of its (n, m). This holds whatever the
  uninitialised stack buffers held before. The counter `k` of the synthesis
  equals the packed index of (n, m) at every read. It starts at 3, steps to
  4 for (2, 0), and ends at 65341 for (360, 360). The harmonic and correction
  sums are therefore the packed-index sums over the exact Legendre triangle
  and the multiple-angle series.
- **Trigonometric series.** The series routine writes slots 1 .. 360 with
  sin(lon) U_{m-1}(cos lon) and T_m(cos lon). Under the addition formulas
  and sin² + cos² = 1 these are sin(m lon) and cos(m lon).

Facts about the packing that the model relies on, all from `EGM96.hpp`:

- Line 208 evaluates ((i-1) i)/2 + m + 1 at row i = n + 1, so the pair
  (n, m) lands at n(n+1)/2 + m + 1 (`PackedIndex.Index`, `PackedIndex.PackU32`).
- Order 0 is packed like every other order, so the map is one-to-one for
  all 0 <= m <= n.
- Degrees 0 and 1 are scattered like the rest. Only line 83 treats
  indices 1 .. 3 separately, and it never reads `p[1]`.

## Model

| member | source | states |
|---|---|---|
| U32.Add | EGM96.hpp:116-119 | a + b on uint32_t: exact below 2^32, otherwise a + b - 2^32 |
| U32.Sub | EGM96.hpp:150-154 | a - b on uint32_t: exact when b <= a, otherwise a - b + 2^32, which exceeds a |
| U32.Mul | EGM96.hpp:129-130 | a * b on uint32_t: exact while the product stays below 2^32 |
| U32.Div | EGM96.hpp:208 | a / b on uint32_t truncates: r * b <= a < r * b + b |
| Numerics.Root | EGM96.hpp:38 | `sqrt` of the whole number n converted to double, as the constructor calls it; positive for n >= 1 when sqrt is positive on positive arguments, which `ScalingTables.ReciprocalTables` relies on |
| ScalingTables.Build | EGM96.hpp:34-41 | the constructor leaves drts[n] = sqrt(n) and dirt[n] = 1/sqrt(n) for every n in 1 .. 2*maxDeg+1 = 721, in tables of the declared size 1301 |
| ScalingTables.ReciprocalTables | EGM96.hpp:38-39 | every filled drts[n] is non-zero and drts[n] * dirt[n] = 1, so multiplying by dirt is dividing by drts |
| PackedIndex.TriDouble | EGM96.hpp:208 | twice the triangular number Tri(n) is n(n+1), so ((i-1) i)/2 is exact and equals Tri(i-1) |
| PackedIndex.IndexBounds | EGM96.hpp:55-56 | every pair 0 <= m <= n <= 360 has a packed index in 1 .. 65341, inside the 65342-slot buffers; degrees >= 2 have an index of at least 4 |
| PackedIndex.PackU32 | EGM96.hpp:208 | the uint32_t expression ((i-1)*i)/2 + m + 1 equals the packed index of (i-1, m) for every row 1 .. 361 and order m < i |
| PackedIndex.PackNoWrap | EGM96.hpp:208 | no multiplication, division or addition of the packed-index expression wraps modulo 2^32 for rows up to 361 |
| PackedIndex.DegreeFrom | EGM96.hpp:204-209 | the degree found for index k is the one whose block Tri(d)+1 .. Tri(d)+d+1 contains k |
| PackedIndex.Unpack | EGM96.hpp:204-209 | every positive index is the packed index of some pair m <= n (the map is onto) |
| PackedIndex.UnpackIndex | EGM96.hpp:208 | unpacking the packed index of (n, m) gives back (n, m) |
| PackedIndex.IndexInjective | EGM96.hpp:204-209 | distinct valid pairs get distinct packed indices, so the scatter never writes one slot twice |
| PackedIndex.UnpackInRange | EGM96.hpp:55-56 | every index up to 65341 belongs to a pair of degree at most 360 |
| PackedIndex.IndexImage | EGM96.hpp:67-79 | the degrees lo .. hi occupy exactly the indices Tri(lo)+1 .. Tri(hi)+hi+1: 1 .. 65341 for the whole triangle and 4 .. 65341 for the degrees the synthesis loop visits |
| TrigSeries.ComputeTrigonometricSeries | EGM96.hpp:90-103 | slots 1 .. 360 of sinml and cosml hold sin(lon) U_{m-1}(cos lon) and T_m(cos lon); under the addition formulas and sin^2+cos^2=1 these are sin(m lon) and cos(m lon); buffers have the declared size 362 |
| TrigSeries.ThreeTerm | EGM96.hpp:100-101 | 2 x y1 - y2: the right-hand side of lines 100-101, which is also the step of the Chebyshev references; `TrigSeries.SinStep` and `TrigSeries.CosStep` state that the references obey it |
| TrigSeries.SeriesSeeds | EGM96.hpp:94-97 | the four directly written slots are the first two multiple-angle values |
| TrigSeries.CosStep | EGM96.hpp:101 | the cosine recurrence of line 101 is the Chebyshev recurrence of the first kind |
| TrigSeries.SinStep | EGM96.hpp:100 | the sine column obeys the same three-term recurrence as the cosine column |
| TrigSeries.AnglesAreRotations | EGM96.hpp:99-102 | by the addition formulas, m - 1 rotations by lon give sin(m lon) and cos(m lon) |
| TrigSeries.RotationIsChebyshev | EGM96.hpp:99-102 | on the unit circle, the m-th rotation has sine sin(lon) U_{m-1}(cos lon) and cosine T_m(cos lon) |
| TrigSeries.RotationTwice | EGM96.hpp:96-97 | the double angle is 2 sin cos and 2 cos^2 - 1 |
| TrigSeries.RotationNext | EGM96.hpp:100-101 | the m-th rotation follows from the two before it by the recurrences |
| TrigSeries.MultipleAngles | EGM96.hpp:90-103 | under the addition formulas and sin^2+cos^2=1, sin(m lon) and cos(m lon) equal the values the recurrence produces, for every m >= 1 |
| TrigSeries.RotationStep | EGM96.hpp:100-101 | a point r0 one rotation past r1, which is itself one rotation past r2, continues the values (S1, C1), (S2, C2) of r1 and r2 by the three-term recurrence of lines 100-101 |
| TrigSeries.DoubleAngle | EGM96.hpp:96-97 | the addition formula at 2t gives the values of lines 96-97 |
| TrigSeries.AngleRecurrence | EGM96.hpp:100-101 | two successive rotations satisfy y_m = 2 cos(lon) y_{m-1} - y_{m-2} |
| Legendre.RecurrenceIndicesOf | EGM96.hpp:150-154 | for every degree the loop reaches (m+2 <= n <= 360), the seven uint32_t table positions of line 154 are 2n+1, n+m, n-m, 2n-1, n+m-1, n-m-1, 2n-3 without wrap-around, and all lie in 1 .. 721 |
| Legendre.LineRecurrence | EGM96.hpp:154 | the right-hand side of line 154 at the seven table positions, with x1 = rleg[n1-1] and x2 = rleg[n1-2]; `Legendre.RecurrenceStep` states that it is the degree recurrence |
| Legendre.ComputeNormalizedLegendreFunctions | EGM96.hpp:114-158 | after the call, slot n+1 of rleg holds the normalized Legendre function of degree n and order m for every n = m .. 360, whatever it held before; slots 0 .. m are unchanged |
| Legendre.SectoralColumn | EGM96.hpp:115-132 | rlnn[k+1] holds the sectoral function of degree and order k for k = 0 .. m |
| Legendre.DegreeRecurrence | EGM96.hpp:148-156 | with degrees m and m+1 in place, the loop fills every degree up to 360 and leaves slots 0 .. m alone |
| Legendre.ExtendColumn | EGM96.hpp:154 | storing the next degree keeps the filled part of the column correct one slot further |
| Legendre.ExtendSectoral | EGM96.hpp:131 | storing the next sectoral value keeps rlnn correct one slot further |
| Legendre.SectoralLine | EGM96.hpp:129-131 | line 131 computes the sectoral function of degree n1-1 from the slot below, reading drts and dirt at 2n+1 and 2n |
| Legendre.RecurrenceLine | EGM96.hpp:150-154 | line 154 computes the function of degree n1-1 from rleg[n1-1] and rleg[n1-2] |
| Legendre.LineIsNormalized | EGM96.hpp:150-154 | line 154, fed the functions of degrees n-1 and n-2, reads only inside the tables and yields the function of degree n |
| Legendre.AboveDiagonal | EGM96.hpp:147 | drts[2(m+1)+1] cos(theta) P(m,m) is the function of degree m+1 and order m |
| Legendre.NormalizedStep | EGM96.hpp:154 | above the first two degrees the function obeys the degree recurrence |
| Legendre.SectoralStep | EGM96.hpp:131 | sqrt(2n+1) * (1/sqrt(2n)) sin(theta) P(n-1,n-1) is P(n,n) |
| Legendre.RecurrenceStep | EGM96.hpp:154 | the seven reads of line 154 stay inside the 1301-slot tables and the line equals the degree recurrence in quotient form |
| Legendre.RecurrenceReads | EGM96.hpp:154 | each of the seven reads of line 154 returns the square root, or its reciprocal, of the intended argument |
| Legendre.SkipGuardNeverFires | EGM96.hpp:149-152 | the continue guard is false for every degree the loop visits |
| Legendre.SwitchAgreesWithBaseCases | EGM96.hpp:134-147 | the switch's stores for orders 0 and 1 are the values P(0,0), P(1,0), P(1,1), P(2,1) that lines 144 and 147 write again |
| Synthesis.RowCorrection | EGM96.hpp:75 | `tempc`: columns 0 and 1 of a coefficient row against cos(m lon) and sin(m lon) |
| Synthesis.RowHarmonic | EGM96.hpp:76 | `temp`: columns 2 and 3 of a coefficient row against cos(m lon) and sin(m lon) |
| Synthesis.LowDegreeCorrection | EGM96.hpp:83 | the degree 0 and 1 terms added to `ac` after the loop, read at indices 1, 2 and 3 |
| Synthesis.CalculateGravitationalUndulation | EGM96.hpp:60-86 | the running sums a and ac equal the packed-index reference sums over degrees 2 .. 360 (harmonic terms weighted by ar^n), plus the degree 0/1 terms of line 83; this holds only because k is the packed index at every read |
| Synthesis.DegreeSums | EGM96.hpp:69-79 | arriving at the index of (n-1, n-1), the counter visits the index of (n, m) for m = 0 .. n in turn and ends at that of (n, n); sum and sumc are that degree's contributions |
| Synthesis.NextDegree | EGM96.hpp:68-81 | adding one degree's sums, with arn advanced once, extends the reference sums by that degree |
| Synthesis.SynthesisReadsOnly | EGM96.hpp:60-83 | the synthesis reads p only at 2 .. 65341 and the trig series only at 1 .. 360: buffers that agree there give the same sums |
| Synthesis.DegreesReadOnly | EGM96.hpp:67-82 | the same, for the degree sums up to any n |
| Synthesis.OrdersReadOnly | EGM96.hpp:73-79 | the same, for the orders of one degree n >= 2 |
| Undulation.Triangle | EGM96.hpp:204-209 | degrees 0 .. n laid out row by row behind one slot occupy exactly Index(n, n) + 1 slots |
| Undulation.LegendreTriangle | EGM96.hpp:195 | the reference triangle fills exactly the 65342 slots of p |
| Undulation.TriangleAt | EGM96.hpp:208 | in the row-by-row layout, the slot at the packed index of (n', m) holds P(n', m) |
| Undulation.ScatterLegendre | EGM96.hpp:204-210 | after the loop, the slot at the packed index of every pair m <= n <= 360 holds P(n, m), whatever p and rleg held before; slot 0 is untouched |
| Undulation.ScatterColumn | EGM96.hpp:207-209 | one order's rows go to their packed slots without disturbing the slots filled for earlier orders |
| Undulation.ScatterWrite | EGM96.hpp:208 | one store at the packed index of (n, m) extends the filled set by that pair and keeps every other pair's value |
| Undulation.CalculateGeoidUndulationSums | EGM96.hpp:194-212 | given the geocentric latitude and radius, the sums equal the packed-index synthesis over the exact Legendre triangle at colatitude pi/2 - rlat and the multiple-angle series of lon, whatever the stack buffers held |
| Undulation.SynthesisOfReference | EGM96.hpp:211-212 | the synthesis over the filled buffers equals the synthesis over the reference sequences |
| Undulation.BuffersMatchReference | EGM96.hpp:204-211 | the scattered buffer and the trig series agree with the reference sequences on every slot the synthesis reads |

## Left out

- `egm96ComputeAltitudeOffset` (lines 49-52) is left out. It only converts degrees to radians before delegating.
- `computeGeocentricMetrics` (lines 171-186) is left out. It is floating-point geometry with no index bookkeeping. Its outputs `rlat` and `re` are inputs of `Undulation.CalculateGeoidUndulationSums`, and the normal gravity `gr` is not needed.
- The closing formula of line 87 is left out. `Synthesis.CalculateGravitationalUndulation` returns the two sums `a` and `ac` it combines.
- Floating point is modelled as exact real arithmetic. `sqrt`, `sin`, `cos` and `M_PI` are uninterpreted except where a contract requires positivity of sqrt, the addition formulas or sin² + cos² = 1. Rounding is not modelled. Here drts[n]·dirt[n] is exactly 1 (`ScalingTables.ReciprocalTables`); in double it is 1 only up to rounding.
- The contents of `egm96Data` are left out. The table is a parameter with 65342 rows. Columns 0 and 1 feed `ac` and columns 2 and 3 feed `a`, as the code uses them.
- Uninitialised stack memory is not modelled as such. `p` and `rleg` are arbitrary input buffers, and the contracts hold whatever they contain. The local arrays `rlnn`, `sinml` and `cosml` start as zeros here. The unfilled slots 0 and 722 .. 1300 of `drts`/`dirt` hold arbitrary values in `ScalingTables.Build`, like the object's uninitialised storage. None of this changes a result, because no slot is read before it is written. The model pins down every read position (1 .. 721 for the tables, 1 .. 361 for the columns, 1 .. 360 for the series and 2 .. 65341 for `p`).
- The pointer parameters are value sequences: `p` and `rleg` are passed in and returned, `sinml` and `cosml` are only returned, and the local array `rlnn` is the result of `Legendre.SectoralColumn`. The source never aliases two of them, so the value semantics lose nothing.
- Synthesis.CalculateGravitationalUndulation: requires `re != 0`. In IEEE arithmetic, `ar` would become infinite, which exact reals cannot express.
- Undulation.CalculateGeoidUndulationSums: requires `re != 0` for the same reason. It takes the geocentric latitude and radius as inputs instead of computing them.
