/**
 The resource indication value of a contiguous PRB allocation, section 5.1.2.2.2
 of TS 38.214, as computed for the DCI and the RAR grant.
 */
module Riv {
  import opened BitString

  datatype PrbAlloc = PrbAlloc(start: nat, len: nat)

  /** The allocations the source accepts: at least one PRB, inside the bandwidth part. */
  predicate Valid(n: nat, a: PrbAlloc) {
    1 <= a.len <= n - a.start
  }

  /** The two-branch formula; `floor(n / 2)` of the source is integer division. */
  function Encode(n: nat, a: PrbAlloc): nat
    requires Valid(n, a)
  {
    if a.len - 1 <= n / 2 then n * (a.len - 1) + a.start
    else n * (n - a.len + 1) + (n - 1 - a.start)
  }

  /** The receiver's inverse. */
  function Decode(n: nat, riv: nat): PrbAlloc
    requires n >= 1 && riv < n * (n + 1) / 2
  {
    var q, s := riv / n, riv % n;
    if q + s < n then PrbAlloc(s, q + 1)
    else RowInRange(n, riv); PrbAlloc(n - 1 - s, n - q + 1)
  }

  lemma MulLe(x: nat, y: nat, z: nat)
    requires x <= y
    ensures z * x <= z * y
  {
  }

  lemma DivModOf(n: nat, q: nat, s: nat)
    requires s < n
    ensures (n * q + s) / n == q && (n * q + s) % n == s
  {
    var d, m := (n * q + s) / n, (n * q + s) % n;
    assert n * q + s == n * d + m;
    if d < q {
      MulLe(d + 1, q, n);
    } else if q < d {
      MulLe(q + 1, d, n);
    }
  }

  /** The quotient of an indication value lies in the half of the rows the formula uses. */
  lemma RowInRange(n: nat, riv: nat)
    requires n >= 1 && riv < n * (n + 1) / 2
    ensures var q, s := riv / n, riv % n; 2 * q <= n && (q + s >= n ==> 1 <= q && 2 * q < n + n % 2)
  {
    var q, s := riv / n, riv % n;
    assert riv == n * q + s;
    assert 2 * (n * q + s) < n * (n + 1);
    assert 2 * (n * q) == n * (2 * q);
    if n + 1 <= 2 * q {
      MulLe(n + 1, 2 * q, n);
    }
    if 2 * q == n {
      assert n * (n + 1) == n * n + n;
      assert n * (2 * q) == n * n;
    }
  }

  /** Every valid allocation gets a value below N(N+1)/2, and decoding undoes encoding. */
  lemma EncodeInRangeAndInvertible(n: nat, a: PrbAlloc)
    requires Valid(n, a)
    ensures Encode(n, a) < n * (n + 1) / 2
    ensures Decode(n, Encode(n, a)) == a
  {
    var (q, s) := if a.len - 1 <= n / 2 then (a.len - 1, a.start) else (n - a.len + 1, n - 1 - a.start);
    DivModOf(n, q, s);
    assert Encode(n, a) == n * q + s;
    assert 2 * q <= n;
    assert n * (n + 1) == n * n + n;
    assert 2 * (n * q) == n * (2 * q);
    if 2 * q == n {
      assert n * (2 * q) == n * n;
      assert 2 * s < n;
    } else {
      MulLe(2 * q, n - 1, n);
      assert n * (n - 1) == n * n - n;
    }
  }

  /** Every value below N(N+1)/2 names a valid allocation, and encoding undoes decoding. */
  lemma DecodeValidAndInvertible(n: nat, riv: nat)
    requires n >= 1 && riv < n * (n + 1) / 2
    ensures Valid(n, Decode(n, riv))
    ensures Encode(n, Decode(n, riv)) == riv
  {
    RowInRange(n, riv);
    var q, s := riv / n, riv % n;
    assert riv == n * q + s;
    var a := Decode(n, riv);
    if q + s >= n {
      assert n - a.len + 1 == q && n - 1 - a.start == s;
    }
  }

  /** The formula is a bijection from the valid allocations onto [0, N(N+1)/2). */
  lemma EncodeIsBijection(n: nat)
    requires n >= 1
    ensures forall a :: Valid(n, a) ==> Encode(n, a) < n * (n + 1) / 2
    ensures forall a, b :: Valid(n, a) && Valid(n, b) && Encode(n, a) == Encode(n, b) ==> a == b
    ensures forall r: nat :: r < n * (n + 1) / 2 ==> Valid(n, Decode(n, r)) && Encode(n, Decode(n, r)) == r
  {
    forall a | Valid(n, a)
      ensures Encode(n, a) < n * (n + 1) / 2 && Decode(n, Encode(n, a)) == a
    {
      EncodeInRangeAndInvertible(n, a);
    }
    forall r: nat | r < n * (n + 1) / 2
      ensures Valid(n, Decode(n, r)) && Encode(n, Decode(n, r)) == r
    {
      DecodeValidAndInvertible(n, r);
    }
  }

  /** Short and long allocations, those the two branches tell apart. */
  predicate Long(n: nat, a: PrbAlloc) {
    a.len - 1 > n / 2
  }

  lemma OneRowMore(n: nat, k: int)
    ensures n * (k + 1) == n * k + n
  {
  }

  /**
   Which bijection it is: one PRB at s has the value s and all PRBs have 2n - 1 (above two PRBs).
   Among the short ones another PRB adds n and another start adds 1; among the long ones it is the
   other way round.
   */
  lemma NeighbouringValues(n: nat, a: PrbAlloc, b: PrbAlloc)
    requires Valid(n, a) && Valid(n, b) && Long(n, a) == Long(n, b)
    ensures a.len == 1 ==> Encode(n, a) == a.start
    ensures n > 2 && a.len == n ==> Encode(n, a) == 2 * n - 1
    ensures b == PrbAlloc(a.start, a.len + 1) ==>
      if Long(n, a) then Encode(n, a) == Encode(n, b) + n else Encode(n, b) == Encode(n, a) + n
    ensures b == PrbAlloc(a.start + 1, a.len) ==>
      if Long(n, a) then Encode(n, a) == Encode(n, b) + 1 else Encode(n, b) == Encode(n, a) + 1
  {
    OneRowMore(n, a.len - 1);
    OneRowMore(n, n - a.len);
  }

  // ------------------------------------------------------------- field width

  /** `ceil(log2(m))`: the least width of a field that can count m values. */
  function CeilLog2(m: nat): (w: nat)
    requires m >= 1
    ensures m <= Pow2(w)
    ensures w > 0 ==> Pow2(w - 1) < m
  {
    if m == 1 then 0
    else
      var w := CeilLog2((m + 1) / 2);
      w + 1
  }

  lemma CeilLog2AtMost(m: nat, w: nat)
    requires 1 <= m <= Pow2(w)
    ensures CeilLog2(m) <= w
  {
    if CeilLog2(m) > w { Pow2Monotonic(w, CeilLog2(m) - 1); }
  }

  /** The width of the frequency-domain field for a bandwidth part of n PRBs. */
  function FieldWidth(n: nat): nat
    requires n >= 1
  {
    assert n * (n + 1) >= 2 by { MulLe(1, n, n); assert n * (n + 1) == n * n + n; }
    CeilLog2(n * (n + 1) / 2)
  }

  /** The width holds every value the formula can give, and no smaller width does. */
  lemma WidthIsExact(n: nat, w: nat)
    requires n >= 1
    ensures (forall a :: Valid(n, a) ==> Encode(n, a) < Pow2(w)) <==> FieldWidth(n) <= w
  {
    var count := n * (n + 1) / 2;
    assert n * (n + 1) >= 2 by { MulLe(1, n, n); assert n * (n + 1) == n * n + n; }
    if FieldWidth(n) <= w {
      Pow2Monotonic(FieldWidth(n), w);
      forall a | Valid(n, a) ensures Encode(n, a) < Pow2(w) {
        EncodeInRangeAndInvertible(n, a);
      }
    } else {
      Pow2Monotonic(w, FieldWidth(n) - 1);
      DecodeValidAndInvertible(n, count - 1);
      assert Valid(n, Decode(n, count - 1)) && Encode(n, Decode(n, count - 1)) >= Pow2(w);
    }
  }

  /** Below 180 PRBs the value fits the 14 bits of the RAR grant. */
  lemma WidthAtMost14(n: nat)
    requires 1 <= n < 180
    ensures FieldWidth(n) <= 14
  {
    assert n * (n + 1) >= 2 by { MulLe(1, n, n); assert n * (n + 1) == n * n + n; }
    assert n * (n + 1) <= 179 * 180 by { MulLe(n + 1, 180, n); MulLe(n, 179, 180); }
    assert Pow2(14) == 16384;
    CeilLog2AtMost(n * (n + 1) / 2, 14);
  }
}
