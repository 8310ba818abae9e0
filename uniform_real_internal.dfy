/**
 * Conversion of random bits to a floating-point value in [1, 2): the bits
 * become the mantissa of an IEEE 754 binary32 or binary64 pattern whose sign
 * is 0 and whose exponent is the bias, so the value is 1 + m / 2^p.
 *
 * Floating-point values are represented by their bit patterns; the
 * reinterpretation through a union (or an `_mm_cast*` intrinsic) is the
 * identity on bits.  The value of a pattern is given by a reference
 * decoding of normal numbers into `real` (section 3.4 of IEEE 754-2008).
 * SSE and AVX registers are sequences of their lanes; the integer register
 * `u` is taken in the lane width of the float type it is cast to.
 */
module UniformRealInternal {

  // ---- binary32 ----

  /** Bit pattern of 1.0f. */
  const F32One: bv32 := 0x3f80_0000
  /** Bit pattern of -2.0f. */
  const F32MinusTwo: bv32 := 0xc000_0000
  /** The 23 mantissa bits. */
  const F32MantissaMask: bv32 := 0x007f_ffff
  const F32Bias: int := 127

  function SignF32(b: bv32): bv1 { (b >> 31) as bv1 }
  function ExponentF32(b: bv32): bv8 { ((b >> 23) & 0xff) as bv8 }
  function MantissaF32(b: bv32): bv23 { (b & 0x7f_ffff) as bv23 }

  /** The scalar `randbits_to_c1o2_f32(uint32_t)`: the mantissa bits come from u, every other bit from 1.0f. */
  function RandBitsToC1o2F32(u: bv32): (r: bv32)
    ensures r & F32MantissaMask == u & F32MantissaMask
    ensures r & !F32MantissaMask == F32One
  {
    (u & F32MantissaMask) | F32One
  }

  /** The pattern has sign 0, the biased exponent of 1, and the low 23 bits of u as mantissa. */
  lemma F32Fields(u: bv32)
    ensures SignF32(RandBitsToC1o2F32(u)) == 0
    ensures ExponentF32(RandBitsToC1o2F32(u)) as int == F32Bias
    ensures MantissaF32(RandBitsToC1o2F32(u)) == MantissaF32(u)
  {
  }

  // ---- binary64 ----

  /** Bit pattern of 1.0. */
  const F64One: bv64 := 0x3ff0_0000_0000_0000
  /** Bit pattern of -2.0. */
  const F64MinusTwo: bv64 := 0xc000_0000_0000_0000
  /** The 52 mantissa bits. */
  const F64MantissaMask: bv64 := 0x000f_ffff_ffff_ffff
  const F64Bias: int := 1023

  function SignF64(b: bv64): bv1 { (b >> 63) as bv1 }
  function ExponentF64(b: bv64): bv11 { ((b >> 52) & 0x7ff) as bv11 }
  function MantissaF64(b: bv64): bv52 { (b & 0x000f_ffff_ffff_ffff) as bv52 }

  /** The scalar `randbits_to_c1o2_f64(uint64_t)`: the mantissa bits come from u, every other bit from 1.0. */
  function RandBitsToC1o2F64(u: bv64): (r: bv64)
    ensures r & F64MantissaMask == u & F64MantissaMask
    ensures r & !F64MantissaMask == F64One
  {
    (u & F64MantissaMask) | F64One
  }

  /** The pattern has sign 0, the biased exponent of 1, and the low 52 bits of u as mantissa. */
  lemma F64Fields(u: bv64)
    ensures SignF64(RandBitsToC1o2F64(u)) == 0
    ensures ExponentF64(RandBitsToC1o2F64(u)) as int == F64Bias
    ensures MantissaF64(RandBitsToC1o2F64(u)) == MantissaF64(u)
  {
  }

  // ---- reference decoding of normal numbers ----

  function Pow2(n: nat): (p: nat)
    ensures p >= 1
  {
    if n == 0 then 1 else 2 * Pow2(n - 1)
  }

  /** 2^e for an integer exponent. */
  function Scale(e: int): (s: real)
    ensures s > 0.0
  {
    if e >= 0 then Pow2(e) as real else 1.0 / Pow2(-e) as real
  }

  const TwoTo23: nat := 0x80_0000
  const TwoTo52: nat := 0x10_0000_0000_0000

  /** (-1)^s * 2^e * (1 + m / 2^p): the value of a normal number with p mantissa bits. */
  function NormalValue(negative: bool, e: int, m: nat, p: nat): real
  {
    (if negative then -1.0 else 1.0) * Scale(e) * (1.0 + m as real / Pow2(p) as real)
  }

  /** The value of a normal binary32 pattern. */
  function Binary32Value(b: bv32): real
    requires 0 < ExponentF32(b) < 0xff
  {
    NormalValue(SignF32(b) == 1, ExponentF32(b) as int - F32Bias, MantissaF32(b) as int, 23)
  }

  /** The value of a normal binary64 pattern. */
  function Binary64Value(b: bv64): real
    requires 0 < ExponentF64(b) < 0x7ff
  {
    NormalValue(SignF64(b) == 1, ExponentF64(b) as int - F64Bias, MantissaF64(b) as int, 52)
  }

  lemma {:induction false} Pow2Add(a: nat, b: nat)
    ensures Pow2(a + b) == Pow2(a) * Pow2(b)
  {
    if a > 0 {
      Pow2Add(a - 1, b);
    }
  }

  /** The mantissa masks cover exactly the 23 and 52 mantissa bits: each is one less than the scale the decoding divides by. */
  lemma Pow2Values()
    ensures Pow2(23) == TwoTo23 && Pow2(52) == TwoTo52
    ensures F32MantissaMask as int == Pow2(23) - 1 && F64MantissaMask as int == Pow2(52) - 1
  {
    Pow2Add(8, 15);
    Pow2Add(8, 7);
    Pow2Add(23, 29);
    Pow2Add(23, 6);
  }

  lemma FractionBelowOne(x: real, y: real)
    requires 0.0 <= x < y
    ensures 0.0 <= x / y < 1.0
  {
  }

  /** A positive normal number with exponent 0 is 1 + m / 2^p, which lies in [1, 2) when m < 2^p. */
  lemma UnitOctave(m: nat, p: nat)
    requires m < Pow2(p)
    ensures NormalValue(false, 0, m, p) == 1.0 + m as real / Pow2(p) as real
    ensures 1.0 <= NormalValue(false, 0, m, p) < 2.0
  {
    FractionBelowOne(m as real, Pow2(p) as real);
  }

  /** The encoded binary32 value is 1 + m / 2^23 with m the low 23 bits of u, hence in [1, 2). */
  lemma F32ValueInUnitOctave(u: bv32)
    ensures 0 < ExponentF32(RandBitsToC1o2F32(u)) < 0xff
    ensures Binary32Value(RandBitsToC1o2F32(u)) == 1.0 + MantissaF32(u) as int as real / Pow2(23) as real
    ensures 1.0 <= Binary32Value(RandBitsToC1o2F32(u)) < 2.0
  {
    F32Fields(u);
    var m := MantissaF32(u) as int;
    assert m < TwoTo23;
    Pow2Values();
    UnitOctave(m, 23);
  }

  /** The encoded binary64 value is 1 + m / 2^52 with m the low 52 bits of u, hence in [1, 2). */
  lemma F64ValueInUnitOctave(u: bv64)
    ensures 0 < ExponentF64(RandBitsToC1o2F64(u)) < 0x7ff
    ensures Binary64Value(RandBitsToC1o2F64(u)) == 1.0 + MantissaF64(u) as int as real / Pow2(52) as real
    ensures 1.0 <= Binary64Value(RandBitsToC1o2F64(u)) < 2.0
  {
    F64Fields(u);
    var m := MantissaF64(u) as int;
    assert m < TwoTo52;
    Pow2Values();
    UnitOctave(m, 52);
  }

  /** Inputs that agree on the low 23 bits give the same pattern. */
  lemma F32SameLowBitsSameResult(u: bv32, v: bv32)
    ensures u & F32MantissaMask == v & F32MantissaMask ==> RandBitsToC1o2F32(u) == RandBitsToC1o2F32(v)
  {
  }

  /** Equal patterns come from inputs with the same low 23 bits. */
  lemma F32SameResultSameLowBits(u: bv32, v: bv32)
    ensures RandBitsToC1o2F32(u) == RandBitsToC1o2F32(v) ==> u & F32MantissaMask == v & F32MantissaMask
  {
  }

  /** The result depends on exactly the low 23 bits of the input. */
  lemma F32LowBitsOnly(u: bv32, v: bv32)
    ensures RandBitsToC1o2F32(u) == RandBitsToC1o2F32(v) <==> u & F32MantissaMask == v & F32MantissaMask
  {
    F32SameLowBitsSameResult(u, v);
    F32SameResultSameLowBits(u, v);
  }

  /** Inputs that agree on the low 52 bits give the same pattern. */
  lemma F64SameLowBitsSameResult(u: bv64, v: bv64)
    ensures u & F64MantissaMask == v & F64MantissaMask ==> RandBitsToC1o2F64(u) == RandBitsToC1o2F64(v)
  {
  }

  /** Equal patterns come from inputs with the same low 52 bits. */
  lemma F64SameResultSameLowBits(u: bv64, v: bv64)
    ensures RandBitsToC1o2F64(u) == RandBitsToC1o2F64(v) ==> u & F64MantissaMask == v & F64MantissaMask
  {
  }

  /** The result depends on exactly the low 52 bits of the input. */
  lemma F64LowBitsOnly(u: bv64, v: bv64)
    ensures RandBitsToC1o2F64(u) == RandBitsToC1o2F64(v) <==> u & F64MantissaMask == v & F64MantissaMask
  {
    F64SameLowBitsSameResult(u, v);
    F64SameResultSameLowBits(u, v);
  }

  // ---- SIMD forms ----

  /** One lane of the vector forms: `or(1.0f, andnot(-2.0f, u))`; the or sets exponent bits 23-29 that the and-not keeps. */
  function LaneC1o2F32(u: bv32): (r: bv32)
    ensures r == RandBitsToC1o2F32(u)
  {
    F32One | (!F32MinusTwo & u)
  }

  /** One lane of the vector forms: `or(1.0, andnot(-2.0, u))`. */
  function LaneC1o2F64(u: bv64): (r: bv64)
    ensures r == RandBitsToC1o2F64(u)
  {
    F64One | (!F64MinusTwo & u)
  }

  /** A register of 32-bit float lanes (`__m128`: 4, `__m256`: 8), lane 0 lowest. */
  type LanesF32 = seq<bv32>
  /** A register of 64-bit float lanes (`__m128d`: 2, `__m256d`: 4), lane 0 lowest. */
  type LanesF64 = seq<bv64>

  /** `_mm_set1_ps` / `_mm256_set1_ps` */
  function Set1F32(b: bv32, n: nat): (r: LanesF32)
    ensures |r| == n && forall l :: 0 <= l < n ==> r[l] == b
  {
    seq(n, _ => b)
  }

  /** `_mm_set1_pd` / `_mm256_set1_pd` */
  function Set1F64(b: bv64, n: nat): (r: LanesF64)
    ensures |r| == n && forall l :: 0 <= l < n ==> r[l] == b
  {
    seq(n, _ => b)
  }

  /** `_mm_andnot_ps(a, b)` / `_mm256_andnot_ps(a, b)`: `~a & b` in every lane. */
  function AndNotF32(a: LanesF32, b: LanesF32): (r: LanesF32)
    requires |a| == |b|
    ensures |r| == |a| && forall l :: 0 <= l < |a| ==> r[l] == !a[l] & b[l]
  {
    seq(|a|, l requires 0 <= l < |a| => !a[l] & b[l])
  }

  /** `_mm_or_ps(a, b)` / `_mm256_or_ps(a, b)` */
  function OrF32(a: LanesF32, b: LanesF32): (r: LanesF32)
    requires |a| == |b|
    ensures |r| == |a| && forall l :: 0 <= l < |a| ==> r[l] == a[l] | b[l]
  {
    seq(|a|, l requires 0 <= l < |a| => a[l] | b[l])
  }

  /** `_mm_andnot_pd(a, b)` / `_mm256_andnot_pd(a, b)` */
  function AndNotF64(a: LanesF64, b: LanesF64): (r: LanesF64)
    requires |a| == |b|
    ensures |r| == |a| && forall l :: 0 <= l < |a| ==> r[l] == !a[l] & b[l]
  {
    seq(|a|, l requires 0 <= l < |a| => !a[l] & b[l])
  }

  /** `_mm_or_pd(a, b)` / `_mm256_or_pd(a, b)` */
  function OrF64(a: LanesF64, b: LanesF64): (r: LanesF64)
    requires |a| == |b|
    ensures |r| == |a| && forall l :: 0 <= l < |a| ==> r[l] == a[l] | b[l]
  {
    seq(|a|, l requires 0 <= l < |a| => a[l] | b[l])
  }

  /** `or(set1(1.0f), andnot(set1(-2.0f), u))` on a register of n lanes: every lane is the scalar conversion of that lane. */
  function VectorC1o2F32(u: LanesF32): (r: LanesF32)
    ensures |r| == |u| && forall l :: 0 <= l < |u| ==> r[l] == RandBitsToC1o2F32(u[l])
  {
    var one := Set1F32(F32One, |u|);
    var minusTwo := Set1F32(F32MinusTwo, |u|);
    var r := OrF32(one, AndNotF32(minusTwo, u));
    assert forall l :: 0 <= l < |u| ==> r[l] == LaneC1o2F32(u[l]);
    r
  }

  /** `or(set1(1.0), andnot(set1(-2.0), u))` on a register of n lanes: every lane is the scalar conversion of that lane. */
  function VectorC1o2F64(u: LanesF64): (r: LanesF64)
    ensures |r| == |u| && forall l :: 0 <= l < |u| ==> r[l] == RandBitsToC1o2F64(u[l])
  {
    var one := Set1F64(F64One, |u|);
    var minusTwo := Set1F64(F64MinusTwo, |u|);
    var r := OrF64(one, AndNotF64(minusTwo, u));
    assert forall l :: 0 <= l < |u| ==> r[l] == LaneC1o2F64(u[l]);
    r
  }

  /** `randbits_to_c1o2_f32(__m128i, sse_t)`: four lanes. */
  function RandBitsToC1o2F32Sse(u: LanesF32): (r: LanesF32)
    requires |u| == 4
    ensures |r| == 4 && forall l :: 0 <= l < 4 ==> r[l] == RandBitsToC1o2F32(u[l])
  {
    VectorC1o2F32(u)
  }

  /** `randbits_to_c1o2_f64(__m128i, sse_t)`: two lanes. */
  function RandBitsToC1o2F64Sse(u: LanesF64): (r: LanesF64)
    requires |u| == 2
    ensures |r| == 2 && forall l :: 0 <= l < 2 ==> r[l] == RandBitsToC1o2F64(u[l])
  {
    VectorC1o2F64(u)
  }

  /** `randbits_to_c1o2_f32(__m256i, avx_t)`: eight lanes. */
  function RandBitsToC1o2F32Avx(u: LanesF32): (r: LanesF32)
    requires |u| == 8
    ensures |r| == 8 && forall l :: 0 <= l < 8 ==> r[l] == RandBitsToC1o2F32(u[l])
  {
    VectorC1o2F32(u)
  }

  /** `randbits_to_c1o2_f64(__m256i, avx_t)`: four lanes. */
  function RandBitsToC1o2F64Avx(u: LanesF64): (r: LanesF64)
    requires |u| == 4
    ensures |r| == 4 && forall l :: 0 <= l < 4 ==> r[l] == RandBitsToC1o2F64(u[l])
  {
    VectorC1o2F64(u)
  }

  /** Every lane of a converted register lies in [1, 2). */
  lemma VectorF32InUnitOctave(u: LanesF32, l: nat)
    requires l < |u|
    ensures 0 < ExponentF32(VectorC1o2F32(u)[l]) < 0xff
    ensures 1.0 <= Binary32Value(VectorC1o2F32(u)[l]) < 2.0
  {
    F32ValueInUnitOctave(u[l]);
  }

  /** Every lane of a converted register lies in [1, 2). */
  lemma VectorF64InUnitOctave(u: LanesF64, l: nat)
    requires l < |u|
    ensures 0 < ExponentF64(VectorC1o2F64(u)[l]) < 0x7ff
    ensures 1.0 <= Binary64Value(VectorC1o2F64(u)[l]) < 2.0
  {
    F64ValueInUnitOctave(u[l]);
  }
}
