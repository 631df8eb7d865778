/** 64-bit machine integers, with the wrap-around of unsigned arithmetic and the
    division that C++ code uses to test for it beforehand. */
module MachineIntegers {

  const SIZE_MAX := 0xFFFF_FFFF_FFFF_FFFF
  const INT64_MAX := 0x7FFF_FFFF_FFFF_FFFF

  type Size = x: int | 0 <= x <= SIZE_MAX
  type Int64 = x: int | -INT64_MAX - 1 <= x <= INT64_MAX

  function WrapMul(a: Size, b: Size): Size {
    a * b % (SIZE_MAX + 1)
  }

  function WrapAdd(a: Size, b: Size): Size {
    (a + b) % (SIZE_MAX + 1)
  }

  /** `a > max / b` holds exactly when `a * b` would exceed `max`. */
  lemma DivisionGuard(a: int, b: int, max: int)
    requires 0 <= a && 0 < b && 0 <= max
    ensures a > max / b <==> a * b > max
  {
    var q := max / b;
    assert q * b <= max < q * b + b;
    assert a <= q ==> a * b <= q * b;
    assert a >= q + 1 ==> a * b >= (q + 1) * b;
    assert (q + 1) * b == q * b + b;
  }

  lemma NoWrapMul(a: Size, b: Size)
    requires 0 <= a * b <= SIZE_MAX
    ensures WrapMul(a, b) == a * b
  {
  }
}
