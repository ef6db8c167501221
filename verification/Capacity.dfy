/**
 Requested capacity in bytes, in Go's wrapping int64 arithmetic, and the provider's whole GiB.
 A volume must come back with the very byte count that was asked for, or the driver would
 refuse its own volume as incompatible.
 */
module Capacity {

  const GIB := 0x4000_0000
  const TWO63 := 0x8000_0000_0000_0000
  const MINIMUM_BYTES := GIB
  const GRANULARITY_BYTES := GIB

  predicate Int64(x: int) {
    -TWO63 <= x < TWO63
  }

  /** The value an int64 holds after an operation whose exact result is `x`. */
  function Wrap64(x: int): int {
    (x + TWO63) % (2 * TWO63) - TWO63
  }

  /** Go's `/` and `%` truncate toward zero. */
  function Quotient(a: int, b: int): int
    requires b > 0
  {
    if a >= 0 then a / b else -(-a / b)
  }

  function Remainder(a: int, b: int): int
    requires b > 0
  {
    a - Quotient(a, b) * b
  }

  function RoundUp(value: int, granularity: int): int {
    if granularity <= 0 || Remainder(value, granularity) == 0 then value
    else Wrap64(Wrap64(Quotient(value, granularity) + 1) * granularity)
  }

  datatype Requested = Bytes(n: int) | ExceedsLimit

  function RequestedBytes(required: int, limit: int, minimum: int, granularity: int): Requested {
    var wanted := if required == 0 then minimum else required;
    var rounded := RoundUp(wanted, granularity);
    if limit > 0 && rounded > limit then ExceedsLimit else Bytes(rounded)
  }

  function DefaultRequestedBytes(required: int, limit: int): Requested {
    RequestedBytes(required, limit, MINIMUM_BYTES, GRANULARITY_BYTES)
  }

  /** A positive multiple of a GiB that satisfies the request. */
  predicate Fits(n: int, required: int, limit: int) {
    n > 0 && n % GIB == 0 && n >= required && (limit > 0 ==> n <= limit)
  }

  lemma {:induction false} RoundUpSmall(value: int)
    requires 0 < value <= TWO63 - GIB
    ensures var r := RoundUp(value, GIB); value <= r < value + GIB && r % GIB == 0
  {
    var q := value / GIB;
    assert value == q * GIB + value % GIB;
    assert 0 <= q <= 0x1_FFFF_FFFF;
  }

  lemma {:induction false} RoundUpNegative(value: int)
    requires -TWO63 <= value < 0
    ensures -GIB < value ==> RoundUp(value, GIB) == GIB
    ensures value <= -GIB ==> value <= RoundUp(value, GIB) <= 0
  {
    var q := -value / GIB;
    assert -value == q * GIB + -value % GIB;
    assert 0 <= q <= 0x2_0000_0000;
  }

  /**
   For every request above -2^30 that can be rounded, the least fitting multiple, or an error
   exactly when there is none.
   */
  lemma {:induction false} RequestedBytesLeast(required: int, limit: int)
    requires -GIB < required <= TWO63 - GIB
    ensures var r := DefaultRequestedBytes(required, limit);
            match r
            case Bytes(n) => Fits(n, required, limit) && forall m :: Fits(m, required, limit) ==> n <= m
            case ExceedsLimit => forall m :: !Fits(m, required, limit)
  {
    var wanted := if required == 0 then GIB else required;
    var rounded := RoundUp(wanted, GIB);
    if required < 0 {
      RoundUpNegative(required);
      forall m | m > 0 && m % GIB == 0 ensures rounded <= m {
        MultipleAtLeast(rounded, m, 1);
      }
    } else {
      RoundUpSmall(wanted);
      forall m | m > 0 && m % GIB == 0 && m >= required ensures rounded <= m {
        MultipleAtLeast(rounded, m, wanted);
      }
    }
  }

  lemma {:induction false} MultipleAtLeast(r: int, m: int, wanted: int)
    requires r % GIB == 0 && m % GIB == 0 && 0 < wanted <= m && r < wanted + GIB
    ensures r <= m
  {
    assert r == r / GIB * GIB && m == m / GIB * GIB;
  }

  /**
   A request is answered with a positive capacity that covers it, if with any, exactly above
   -2^30 and up to 2^63 - 2^30.  Below, the driver accepts it, whatever its limit, with a
   capacity that is not positive; beyond, the rounding wraps and the capacity is -2^63.
   */
  lemma {:induction false} RoundingOverflows(required: int, limit: int)
    requires Int64(required)
    ensures var r := DefaultRequestedBytes(required, limit);
            -GIB < required <= TWO63 - GIB <==> (r.Bytes? ==> r.n > 0 && r.n >= required)
    ensures required > TWO63 - GIB ==> DefaultRequestedBytes(required, limit) == Bytes(-TWO63)
    ensures required <= -GIB ==> var r := DefaultRequestedBytes(required, limit); r.Bytes? && required <= r.n <= 0
  {
    if required <= -GIB {
      RoundUpNegative(required);
    } else if required <= TWO63 - GIB {
      RequestedBytesLeast(required, limit);
    } else {
      assert required / GIB == 0x1_FFFF_FFFF;
    }
  }

  // ---------- the provider counts in GiB ----------

  function BytesToGib(size: int): int {
    Quotient(Wrap64(size + GIB - 1), GIB)
  }

  function GibToBytes(gib: int): int {
    Wrap64(gib * GIB)
  }

  /** What is stored for a size comes back unchanged exactly when the size is a whole number of GiB. */
  lemma {:induction false} SizeRoundTrip(size: int)
    requires 0 <= size <= TWO63 - GIB
    ensures GibToBytes(BytesToGib(size)) == size <==> size % GIB == 0
  {
    var q := (size + GIB - 1) / GIB;
    assert Wrap64(size + GIB - 1) == size + GIB - 1;
    assert BytesToGib(size) == q;
    assert 0 <= q * GIB <= size + GIB - 1 < TWO63;
    assert Wrap64(q * GIB) == q * GIB;
    if size % GIB == 0 {
      assert size == size / GIB * GIB;
      assert q == size / GIB;
    } else {
      assert q * GIB % GIB == 0;
    }
  }

  /** The size a request is rounded to survives the trip to the provider and back. */
  lemma {:induction false} RequestedSizeSurvives(required: int, limit: int)
    requires -GIB < required <= TWO63 - GIB
    ensures var r := DefaultRequestedBytes(required, limit); r.Bytes? ==> GibToBytes(BytesToGib(r.n)) == r.n
  {
    RequestedBytesLeast(required, limit);
    var r := DefaultRequestedBytes(required, limit);
    if r.Bytes? {
      assert Fits(r.n, required, limit);
      if required < 0 {
        RoundUpNegative(required);
      } else {
        RoundUpSmall(if required == 0 then GIB else required);
        MultipleAtLeast(r.n, TWO63 - GIB, if required == 0 then GIB else required);
      }
      SizeRoundTrip(r.n);
    }
  }
}
