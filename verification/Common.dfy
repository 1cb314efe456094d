/** Small definitions shared by the models of several components. */
module Common {

  datatype Option<T> = None | Some(value: T)

  /** 32-bit arithmetic is modulo this. */
  const TWO32: nat := 0x1_0000_0000

  function Min(a: nat, b: nat): nat { if a < b then a else b }

  function Max(a: nat, b: nat): nat { if a < b then b else a }

  /** The classes of a wait call's `timeout_ns`: 0, finite, UINT64_MAX. */
  datatype Patience = NoWait | Timed | Forever

  lemma MulLe(a: nat, b: nat, c: nat)
    requires a <= b
    ensures a * c <= b * c && c * a <= c * b
  {
  }

  lemma DivLe(a: nat, b: nat, d: nat)
    requires a <= b && d > 0
    ensures a / d <= b / d
  {
    if a / d > b / d {
      MulLe(b / d + 1, a / d, d);
    }
  }
}
