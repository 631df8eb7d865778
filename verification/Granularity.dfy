/** Rounding a request up to the driver's allocation granularity. */
module Granularity {
  import opened MachineIntegers

  function Multiple(q: int, granularity: int): int {
    q * granularity
  }

  /** `round_to_granularity`, with the wrap-around of `size_t` addition. */
  function RoundToGranularity(size: Size, granularity: Size): Size
    requires 0 < granularity
  {
    var sum := WrapAdd(size, granularity - 1);
    QuotientBounds(sum, granularity);
    Multiple(sum / granularity, granularity)
  }

  ghost predicate LeastMultiple(r: int, size: int, granularity: int) {
    && (exists q :: r == Multiple(q, granularity))
    && size <= r
    && forall q :: size <= Multiple(q, granularity) ==> r <= Multiple(q, granularity)
  }

  lemma QuotientBounds(n: int, d: int)
    requires 0 < d && 0 <= n
    ensures n - d < Multiple(n / d, d) <= n
  {
  }

  lemma MultiplesApart(p: int, q: int, d: int)
    requires 0 < d && Multiple(q, d) < Multiple(p, d)
    ensures Multiple(q, d) <= Multiple(p, d) - d
  {
    assert q >= p ==> q * d >= p * d;
    assert q <= p - 1 ==> q * d <= (p - 1) * d;
    assert (p - 1) * d == p * d - d;
  }

  lemma RoundsUp(size: Size, granularity: Size)
    requires 0 < granularity && size + granularity - 1 <= SIZE_MAX
    ensures LeastMultiple(RoundToGranularity(size, granularity), size, granularity)
  {
    var sum := size + granularity - 1;
    QuotientBounds(sum, granularity);
    var k := sum / granularity;
    forall q | size <= Multiple(q, granularity) ensures Multiple(k, granularity) <= Multiple(q, granularity) {
      if Multiple(q, granularity) < Multiple(k, granularity) {
        MultiplesApart(k, q, granularity);
      }
    }
  }

  lemma WrapsToZero(size: Size, granularity: Size)
    requires 0 < granularity && size + granularity - 1 > SIZE_MAX
    ensures RoundToGranularity(size, granularity) == 0 < size
  {
    var sum := WrapAdd(size, granularity - 1);
    assert sum < granularity;
    assert sum / granularity == 0;
  }

  /** Rounding gives the least multiple of the granularity that is large enough
      exactly when the addition does not wrap; when it wraps, it gives zero. */
  lemma RoundingExact(size: Size, granularity: Size)
    requires 0 < granularity
    ensures LeastMultiple(RoundToGranularity(size, granularity), size, granularity) <==> size + granularity - 1 <= SIZE_MAX
    ensures size + granularity - 1 > SIZE_MAX ==> RoundToGranularity(size, granularity) == 0
  {
    if size + granularity - 1 <= SIZE_MAX {
      RoundsUp(size, granularity);
    } else {
      WrapsToZero(size, granularity);
    }
  }
}
