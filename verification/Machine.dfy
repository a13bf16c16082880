/** Arithmetic of the source's machine integers on natural numbers. */
module Machine {
  const U32_MAX: nat := 0xFFFF_FFFF
  const U64_MAX: nat := 0xFFFF_FFFF_FFFF_FFFF

  /** `usize` on a 64-bit target. */
  const USIZE_MAX: nat := U64_MAX

  function Min(a: nat, b: nat): nat { if a <= b then a else b }

  function SaturatingAdd(a: nat, b: nat, limit: nat): nat { Min(a + b, limit) }

  function SaturatingMul(a: nat, b: nat, limit: nat): nat { Min(a * b, limit) }
}
