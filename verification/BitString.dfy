/**
 Unsigned C integers and byte buffers read as strings of bits.

 The shift, mask and `|=` operations of the packers are recursions on the least
 significant bit, so every fact about them is a short induction. A buffer is
 flattened most significant bit first, which is the order of transmission.
 */
module BitString {

  type byte = x: int | 0 <= x < 256

  // ---------------------------------------------------------------- integers

  function Pow2(n: nat): (r: nat)
    ensures r > 0
  {
    if n == 0 then 1 else 2 * Pow2(n - 1)
  }

  /** Bit `i` of `v`, bit 0 being the least significant. */
  predicate Bit(v: nat, i: nat) {
    if i == 0 then v % 2 == 1 else Bit(v / 2, i - 1)
  }

  /** `v >> s` */
  function Shr(v: nat, s: nat): nat {
    if s == 0 then v else Shr(v / 2, s - 1)
  }

  /** `v << s`, before the truncation to the width of the destination. */
  function Shl(v: nat, s: nat): nat {
    if s == 0 then v else 2 * Shl(v, s - 1)
  }

  /** `v & ~(~0 << n)`: truncation to `n` bits. */
  function Low(v: nat, n: nat): nat {
    if n == 0 then 0 else v % 2 + 2 * Low(v / 2, n - 1)
  }

  /** `a | b` */
  function Or(a: nat, b: nat): nat {
    if a == 0 then b else 2 * Or(a / 2, b / 2) + (if a % 2 == 1 || b % 2 == 1 then 1 else 0)
  }

  lemma {:induction false} BitOfZero(i: nat)
    ensures !Bit(0, i)
  {
    if i > 0 { BitOfZero(i - 1); }
  }

  lemma {:induction false} BitShr(v: nat, s: nat, i: nat)
    ensures Bit(Shr(v, s), i) == Bit(v, i + s)
  {
    if s > 0 { BitShr(v / 2, s - 1, i); }
  }

  lemma {:induction false} BitShl(v: nat, s: nat, i: nat)
    ensures Bit(Shl(v, s), i) == (s <= i && Bit(v, i - s))
  {
    if s > 0 && i > 0 { BitShl(v, s - 1, i - 1); }
  }

  lemma {:induction false} BitLow(v: nat, n: nat, i: nat)
    ensures Bit(Low(v, n), i) == (i < n && Bit(v, i))
  {
    if n == 0 {
      BitOfZero(i);
    } else if i > 0 {
      BitLow(v / 2, n - 1, i - 1);
    }
  }

  lemma {:induction false} BitOr(a: nat, b: nat, i: nat)
    ensures Bit(Or(a, b), i) == (Bit(a, i) || Bit(b, i))
  {
    if a == 0 {
      BitOfZero(i);
    } else if i > 0 {
      BitOr(a / 2, b / 2, i - 1);
    }
  }

  lemma {:induction false} LowBound(v: nat, n: nat)
    ensures Low(v, n) < Pow2(n)
    ensures v < Pow2(n) ==> Low(v, n) == v
  {
    if n > 0 { LowBound(v / 2, n - 1); }
  }

  lemma {:induction false} OrBound(a: nat, b: nat, n: nat)
    requires a < Pow2(n) && b < Pow2(n)
    ensures Or(a, b) < Pow2(n)
  {
    if a != 0 { OrBound(a / 2, b / 2, n - 1); }
  }

  lemma {:induction false} ShrBound(v: nat, s: nat, n: nat)
    requires v < Pow2(s + n)
    ensures Shr(v, s) < Pow2(n)
  {
    if s > 0 { ShrBound(v / 2, s - 1, n); }
  }

  /** A number below 2^n has no bit at or above n. */
  lemma {:induction false} HighBitsClear(v: nat, n: nat, i: nat)
    requires v < Pow2(n) && n <= i
    ensures !Bit(v, i)
  {
    if n == 0 {
      BitOfZero(i);
    } else {
      HighBitsClear(v / 2, n - 1, i - 1);
    }
  }

  lemma {:induction false} Pow2Monotonic(a: nat, b: nat)
    requires a <= b
    ensures Pow2(a) <= Pow2(b)
  {
    if a < b { Pow2Monotonic(a, b - 1); }
  }

  // ------------------------------------------------------------- bit strings

  /** The `n`-bit big-endian form of `v`. */
  function Be(v: nat, n: nat): (r: seq<bool>)
    ensures |r| == n
  {
    if n == 0 then [] else Be(v / 2, n - 1) + [v % 2 == 1]
  }

  /** The number a bit string denotes, first bit most significant. */
  function Value(bits: seq<bool>): nat {
    if bits == [] then 0
    else 2 * Value(bits[..|bits| - 1]) + (if bits[|bits| - 1] then 1 else 0)
  }

  /** The buffer holds `bits` and is clear from there on. */
  predicate Packed(s: seq<byte>, bits: seq<bool>) {
    |bits| <= 8 * |s| && Flat(s) == bits + Zeros(8 * |s| - |bits|)
  }

  function Zeros(n: nat): seq<bool> {
    seq(n, _ => false)
  }

  lemma {:induction false} BeAt(v: nat, n: nat, k: nat)
    requires k < n
    ensures Be(v, n)[k] == Bit(v, n - 1 - k)
  {
    if k < n - 1 { BeAt(v / 2, n - 1, k); }
  }

  /** Reading back what was written: the value survives whenever it fits. */
  lemma {:induction false} ValueOfBe(v: nat, n: nat)
    ensures Value(Be(v, n)) == Low(v, n)
    ensures v < Pow2(n) ==> Value(Be(v, n)) == v
  {
    LowBound(v, n);
    if n > 0 {
      var b := Be(v, n);
      assert b[..n - 1] == Be(v / 2, n - 1);
      ValueOfBe(v / 2, n - 1);
    }
  }

  lemma {:induction false} BeZero(n: nat)
    ensures Be(0, n) == Zeros(n)
  {
    if n > 0 { BeZero(n - 1); }
  }

  /** Splitting a value at bit `n` splits its big-endian form. */
  lemma {:induction false} BeSplit(v: nat, m: nat, n: nat)
    ensures Be(v, m + n) == Be(Shr(v, n), m) + Be(v, n)
  {
    if n > 0 {
      BeSplit(v / 2, m, n - 1);
      assert Be(v, m + n) == Be(v / 2, m + n - 1) + [v % 2 == 1];
    }
  }

  /** Only the low `n` bits of a value reach its `n`-bit form. */
  lemma {:induction false} BeLow(v: nat, n: nat)
    ensures Be(Low(v, n), n) == Be(v, n)
  {
    if n > 0 {
      BeLow(v / 2, n - 1);
      assert Low(v, n) / 2 == Low(v / 2, n - 1);
    }
  }

  /** Joining two values at bit `n` joins their big-endian forms. */
  lemma {:induction false} BeJoin(x: nat, m: nat, y: nat, n: nat)
    requires y < Pow2(n)
    ensures Be(Shl(x, n) + y, m + n) == Be(x, m) + Be(y, n)
  {
    if n > 0 {
      BeJoin(x, m, y / 2, n - 1);
      assert (Shl(x, n) + y) / 2 == Shl(x, n - 1) + y / 2;
    }
  }

  // ----------------------------------------------------------------- buffers

  /** A byte buffer as a bit string, most significant bit of each octet first. */
  function Flat(s: seq<byte>): seq<bool> {
    seq(8 * |s|, p requires 0 <= p < 8 * |s| => Bit(s[p / 8], 7 - p % 8))
  }

  /** The abstract append: `w` is or-ed into `f` at `pos`, every other bit stays. */
  function Put(f: seq<bool>, pos: nat, w: seq<bool>): seq<bool>
    requires pos + |w| <= |f|
  {
    seq(|f|, i requires 0 <= i < |f| => f[i] || (pos <= i < pos + |w| && w[i - pos]))
  }

  lemma PutPut(f: seq<bool>, pos: nat, a: seq<bool>, b: seq<bool>)
    requires pos + |a| + |b| <= |f|
    ensures Put(Put(f, pos, a), pos + |a|, b) == Put(f, pos, a + b)
  {
  }

  /** On a buffer that is clear from the cursor on, the append is a concatenation. */
  lemma PutOnZeros(prefix: seq<bool>, w: seq<bool>, room: nat)
    requires |w| <= room
    ensures Put(prefix + Zeros(room), |prefix|, w) == prefix + w + Zeros(room - |w|)
  {
  }

  lemma ClearIsPacked(s: seq<byte>)
    requires forall k :: 0 <= k < |s| ==> s[k] == 0
    ensures Packed(s, [])
  {
    forall p | 0 <= p < 8 * |s| ensures !Flat(s)[p] {
      BitOfZero(7 - p % 8);
    }
  }

  lemma PackedToTheEnd(s: seq<byte>, bits: seq<bool>)
    requires Packed(s, bits) && |bits| == 8 * |s|
    ensures Flat(s) == bits
  {
  }

  /** An append inside the first `n` octets is an append to those octets alone. */
  lemma PutInPrefix(s: seq<byte>, t: seq<byte>, n: nat, pos: nat, w: seq<bool>)
    requires n <= |s| == |t| && pos + |w| <= 8 * n
    requires Flat(t) == Put(Flat(s), pos, w)
    ensures Flat(t[..n]) == Put(Flat(s[..n]), pos, w)
    ensures t[n..] == s[n..]
  {
    assert Flat(t[..n]) == Flat(t)[..8 * n] && Flat(s[..n]) == Flat(s)[..8 * n];
    forall i | n <= i < |s| ensures t[i] == s[i] {
      forall j | 0 <= j < 8 ensures Bit(t[i], j) == Bit(s[i], j) {
        var p := 8 * i + 7 - j;
        assert p / 8 == i && p % 8 == 7 - j;
        assert Flat(t)[p] == Put(Flat(s), pos, w)[p];
      }
      BitsDetermine(t[i], s[i], 8);
    }
  }

  lemma OrIsByte(a: byte, b: byte)
    ensures 0 <= Or(a, b) < 256
  {
    OrBound(a, b, 8);
  }

  /** In octet `i` of a buffer, `part` has the bit of `w` (placed at `pos`) at offset `k`. */
  predicate Carries(part: nat, i: nat, k: nat, pos: nat, w: seq<bool>)
    requires k < 8
  {
    Bit(part, 7 - k) == (pos <= 8 * i + k < pos + |w| && w[8 * i + k - pos])
  }

  /** The whole octet: `w` lies inside octet i. */
  predicate OctetCarries(part: nat, i: nat, pos: nat, w: seq<bool>) {
    8 * i <= pos && pos + |w| <= 8 * i + 8 && part < 256
    && forall k :: 0 <= k < 8 ==> Carries(part, i, k, pos, w)
  }

  /** `buf[i] |= part` is an append, when `part` holds `w` at the right offset. */
  lemma OrIsPut(s: seq<byte>, i: nat, part: byte, pos: nat, w: seq<bool>)
    requires i < |s| && OctetCarries(part, i, pos, w)
    ensures 0 <= Or(s[i], part) < 256
    ensures Flat(s[i := Or(s[i], part)]) == Put(Flat(s), pos, w)
  {
    OrIsByte(s[i], part);
    var t := s[i := Or(s[i], part)];
    forall p | 0 <= p < 8 * |s|
      ensures Flat(t)[p] == Put(Flat(s), pos, w)[p]
    {
      var k := p % 8;
      if p / 8 == i {
        assert p == 8 * i + k && Carries(part, i, k, pos, w);
        BitOr(s[i], part, 7 - k);
      }
    }
  }

  lemma FlatConcat(a: seq<byte>, b: seq<byte>)
    ensures Flat(a + b) == Flat(a) + Flat(b)
  {
  }

  lemma FlatOctet(x: byte)
    ensures Flat([x]) == Be(x, 8)
  {
    forall p | 0 <= p < 8 ensures Flat([x])[p] == Be(x, 8)[p] {
      BeAt(x, 8, p);
    }
  }

  function ZeroBytes(n: nat): (r: seq<byte>)
    ensures |r| == n
  {
    seq(n, _ => 0)
  }

  /** Two buffers of the same length with the same bits are the same buffer. */
  lemma {:induction false} BitsDetermine(a: nat, b: nat, n: nat)
    requires a < Pow2(n) && b < Pow2(n)
    requires forall i :: 0 <= i < n ==> Bit(a, i) == Bit(b, i)
    ensures a == b
  {
    if n > 0 {
      assert Bit(a, 0) == Bit(b, 0);
      forall i | 0 <= i < n - 1 ensures Bit(a / 2, i) == Bit(b / 2, i) {
        assert Bit(a, i + 1) == Bit(b, i + 1);
      }
      BitsDetermine(a / 2, b / 2, n - 1);
    }
  }

  lemma FlatInjective(a: seq<byte>, b: seq<byte>)
    requires |a| == |b| && Flat(a) == Flat(b)
    ensures a == b
  {
    forall i | 0 <= i < |a| ensures a[i] == b[i] {
      forall j | 0 <= j < 8 ensures Bit(a[i], j) == Bit(b[i], j) {
        var p := 8 * i + 7 - j;
        assert p / 8 == i && p % 8 == 7 - j;
        assert Flat(a)[p] == Flat(b)[p];
      }
      BitsDetermine(a[i], b[i], 8);
    }
  }

  /** At an octet boundary, "packed and clear beyond" can be read octet by octet. */
  lemma PackedOctets(s: seq<byte>, body: seq<byte>)
    requires |body| <= |s|
    ensures Packed(s, Flat(body)) <==> s == body + ZeroBytes(|s| - |body|)
  {
    var t := body + ZeroBytes(|s| - |body|);
    FlatConcat(body, ZeroBytes(|s| - |body|));
    ClearIsPacked(ZeroBytes(|s| - |body|));
    if Packed(s, Flat(body)) { FlatInjective(s, t); }
  }

  // ----------------------------------------------------------------- fields

  /** A value and the number of bits it is packed into. */
  datatype Field = Field(val: nat, size: nat) {
    predicate Fits() { val < Pow2(size) }
  }

  predicate AllFit(fs: seq<Field>) {
    forall k :: 0 <= k < |fs| ==> fs[k].Fits()
  }

  function Width(fs: seq<Field>): nat {
    if fs == [] then 0 else Width(fs[..|fs| - 1]) + fs[|fs| - 1].size
  }

  /** Fields packed one after the other. */
  function Layout(fs: seq<Field>): (r: seq<bool>)
    ensures |r| == Width(fs)
  {
    if fs == [] then []
    else Layout(fs[..|fs| - 1]) + Be(fs[|fs| - 1].val, fs[|fs| - 1].size)
  }

  // A leading run of zero bits widens a field without changing the string.
  lemma LeadingZerosMerge(fs: seq<Field>, val: nat, size: nat, actual: nat)
    requires actual <= size && val < Pow2(actual)
    ensures Layout(fs + [Field(0, size - actual), Field(val, actual)]) == Layout(fs + [Field(val, size)])
    ensures Width(fs + [Field(0, size - actual), Field(val, actual)]) == Width(fs + [Field(val, size)])
  {
    var two := fs + [Field(0, size - actual), Field(val, actual)];
    assert two[..|two| - 1] == fs + [Field(0, size - actual)];
    assert (fs + [Field(0, size - actual)])[..|fs|] == fs;
    assert (fs + [Field(val, size)])[..|fs|] == fs;
    BeSplit(val, size - actual, actual);
    ShrBound(val, actual, 0);
  }

  function Total(sizes: seq<nat>): nat {
    if sizes == [] then 0 else Total(sizes[..|sizes| - 1]) + sizes[|sizes| - 1]
  }

  /** The receiver: cut a bit string into fields of the given sizes. */
  function Parse(bits: seq<bool>, sizes: seq<nat>): (r: seq<nat>)
    requires |bits| == Total(sizes)
    ensures |r| == |sizes|
    decreases |sizes|
  {
    if sizes == [] then []
    else
      var n := sizes[|sizes| - 1];
      Parse(bits[..|bits| - n], sizes[..|sizes| - 1]) + [Value(bits[|bits| - n..])]
  }

  function Sizes(fs: seq<Field>): (r: seq<nat>)
    ensures |r| == |fs|
  {
    seq(|fs|, k requires 0 <= k < |fs| => fs[k].size)
  }

  function Values(fs: seq<Field>): (r: seq<nat>)
    ensures |r| == |fs|
  {
    seq(|fs|, k requires 0 <= k < |fs| => fs[k].val)
  }

  /** Packing then parsing by the field widths is the identity on fields that fit. */
  lemma LastField(before: seq<bool>, f: Field)
    requires f.Fits()
    ensures var bits := before + Be(f.val, f.size);
      bits[..|bits| - f.size] == before && Value(bits[|bits| - f.size..]) == f.val
  {
    var bits := before + Be(f.val, f.size);
    ValueOfBe(f.val, f.size);
    assert bits[|bits| - f.size..] == Be(f.val, f.size);
  }

  lemma {:induction false} ParseLayout(fs: seq<Field>)
    requires AllFit(fs)
    ensures Total(Sizes(fs)) == Width(fs)
    ensures Parse(Layout(fs), Sizes(fs)) == Values(fs)
  {
    if fs != [] {
      var init, last := fs[..|fs| - 1], fs[|fs| - 1];
      ParseLayout(init);
      LastOf(fs, init, last);
      LastField(Layout(init), last);
    }
  }

  lemma LastOf(fs: seq<Field>, init: seq<Field>, last: Field)
    requires fs == init + [last]
    ensures Sizes(fs) == Sizes(init) + [last.size] && Values(fs) == Values(init) + [last.val]
    ensures Sizes(fs)[..|fs| - 1] == Sizes(init)
  {
  }
}
