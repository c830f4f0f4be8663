/** Machine-word arithmetic and the limits shared by the bounded queries. */
module Limits {
  const USIZE_MAX: nat := 0xffff_ffff_ffff_ffff

  const I64_MIN: int := -0x8000_0000_0000_0000
  const I64_MAX: int := 0x7fff_ffff_ffff_ffff

  /** The deepest walk any query makes. */
  const MAX_QUERY_DEPTH: nat := 32

  function Min(a: nat, b: nat): nat { if a <= b then a else b }

  function Max(a: nat, b: nat): nat { if a <= b then b else a }

  function Clamp(x: nat, low: nat, high: nat): (r: nat)
    requires low <= high
    ensures low <= r <= high && (low <= x <= high ==> r == x)
    ensures (x <= low ==> r == low) && (x >= high ==> r == high)
  {
    if x < low then low else if x > high then high else x
  }

  /** Saturating sum and product. */
  function AddUsize(a: nat, b: nat): nat { Min(a + b, USIZE_MAX) }

  function MulUsize(a: nat, b: nat): nat { Min(a * b, USIZE_MAX) }
}
