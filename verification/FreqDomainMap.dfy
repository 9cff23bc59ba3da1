/**
 The 45-bit frequency-domain resource map of a CORESET, turned from the six
 big-endian octets of the FAPI form into the little-endian octets Intel L1 reads.
 */
module FreqDomainMap {
  import opened BitString

  const FREQ_DOM_RSRC_SIZE := 6

  /** The number six (or any) octets spell, first octet most significant. */
  function BigEndian(s: seq<byte>): nat {
    if s == [] then 0 else 256 * BigEndian(s[..|s| - 1]) + s[|s| - 1]
  }

  /** The number they spell with the first octet least significant. */
  function LittleEndian(s: seq<byte>): nat {
    if s == [] then 0 else s[0] + 256 * LittleEndian(s[1..])
  }

  lemma {:induction false} ShlSplit(v: nat, s: nat, t: nat)
    ensures Shl(v, s + t) == Shl(Shl(v, s), t)
  {
    if t > 0 { ShlSplit(v, s, t - 1); }
  }

  lemma {:induction false} ShlScale(v: nat, s: nat)
    ensures Shl(256 * v, s) == 256 * Shl(v, s)
  {
    if s > 0 { ShlScale(v, s - 1); }
  }

  lemma Shl8(v: nat, s: nat)
    ensures Shl(v, s + 8) == Shl(256 * v, s) == 256 * Shl(v, s)
  {
    ShlScale(v, s);
    assert Shl(v, s + 8) == 2 * Shl(v, s + 7) == 4 * Shl(v, s + 6) == 8 * Shl(v, s + 5) == 16 * Shl(v, s + 4);
    assert Shl(v, s + 4) == 2 * Shl(v, s + 3) == 4 * Shl(v, s + 2) == 8 * Shl(v, s + 1) == 16 * Shl(v, s);
  }

  lemma {:induction false} ShrSplit(v: nat, s: nat, t: nat)
    ensures Shr(v, s + t) == Shr(Shr(v, s), t)
  {
    if s > 0 { ShrSplit(v / 2, s - 1, t); }
  }

  lemma {:induction false} ShlAdd(a: nat, b: nat, s: nat)
    ensures Shl(a + b, s) == Shl(a, s) + Shl(b, s)
  {
    if s > 0 { ShlAdd(a, b, s - 1); }
  }

  lemma {:induction false} ShlBound(v: nat, s: nat, n: nat)
    requires v < Pow2(n)
    ensures Shl(v, s) <= Pow2(n + s) - Pow2(s)
  {
    if s > 0 { ShlBound(v, s - 1, n); }
  }

  /** Or-ing in bits above everything already set is addition. */
  lemma {:induction false} OrAbove(a: nat, b: nat, n: nat)
    requires a < Pow2(n)
    ensures Or(a, Shl(b, n)) == a + Shl(b, n)
  {
    if a != 0 { OrAbove(a / 2, b, n - 1); }
  }

  lemma {:induction false} LowAndRest(v: nat, n: nat)
    ensures v == Low(v, n) + Shl(Shr(v, n), n)
  {
    if n > 0 { LowAndRest(v / 2, n - 1); }
  }

  lemma {:induction false} BigEndianFront(s: seq<byte>, x: byte)
    ensures BigEndian([x] + s) == Shl(x, 8 * |s|) + BigEndian(s)
    ensures BigEndian(s) < Pow2(8 * |s|)
  {
    if s == [] {
      assert ([x] + s)[..0] == [];
    } else {
      var init := s[..|s| - 1];
      BigEndianFront(init, x);
      assert ([x] + s)[..|s|] == [x] + init;
      Shl8(x, 8 * |init|);
      ShlSplit(x, 8 * |init|, 8);
      Shl8(Shl(x, 8 * |init|), 0);
      Pow2Octet(8 * |init|);
    }
  }

  lemma Pow2Octet(n: nat)
    ensures Pow2(n + 8) == 256 * Pow2(n)
  {
    assert Pow2(n + 8) == 2 * Pow2(n + 7) && Pow2(n + 7) == 2 * Pow2(n + 6) && Pow2(n + 6) == 2 * Pow2(n + 5);
    assert Pow2(n + 5) == 2 * Pow2(n + 4) && Pow2(n + 4) == 2 * Pow2(n + 3) && Pow2(n + 3) == 2 * Pow2(n + 2);
    assert Pow2(n + 2) == 2 * Pow2(n + 1) && Pow2(n + 1) == 2 * Pow2(n);
  }

  lemma {:induction false} LittleEndianBack(s: seq<byte>, x: byte)
    ensures LittleEndian(s + [x]) == LittleEndian(s) + Shl(x, 8 * |s|)
  {
    if s == [] {
      assert LittleEndian([x]) == x + 256 * LittleEndian([x][1..]);
    } else {
      LittleEndianBack(s[1..], x);
      assert (s + [x])[1..] == s[1..] + [x];
      ShlSplit(x, 8 * |s[1..]|, 8);
      Shl8(Shl(x, 8 * |s[1..]|), 0);
    }
  }

  /** The octets of v from the low end, followed by what is left of v, spell v. */
  lemma OctetStep(v: nat, s: nat)
    ensures Shl(Shr(v, s), s) == Shl(Low(Shr(v, s), 8), s) + Shl(Shr(v, s + 8), s + 8)
  {
    var w, rest := Shr(v, s), Shr(v, s + 8);
    ShrSplit(v, s, 8);
    LowAndRest(w, 8);
    ShlSplit(rest, 8, s);
    ShlAdd(Low(w, 8), Shl(rest, 8), s);
  }

  // One octet of the source, placed above those already gathered.
  lemma GatherStep(src: seq<byte>, idx: nat, gathered: nat, n: nat)
    requires idx < |src| && n == 8 * (|src| - 1 - idx) && gathered == BigEndian(src[idx + 1..])
    ensures Or(gathered, Shl(src[idx], n)) == BigEndian(src[idx..]) < Pow2(n + 8)
  {
    BigEndianFront(src[idx + 1..], src[idx]);
    OrAbove(BigEndian(src[idx + 1..]), src[idx], 8 * |src[idx + 1..]|);
    assert src[idx..] == [src[idx]] + src[idx + 1..];
    BigEndianFront(src[idx..], 0);
  }

  method GatherOctets(sourceBitMap: array<byte>) returns (freqDomainResources: nat)
    ensures freqDomainResources == BigEndian(sourceBitMap[..]) < Pow2(8 * sourceBitMap.Length)
  {
    ghost var source := sourceBitMap[..];
    var numBitsToShift := 0;
    freqDomainResources := 0;
    var idx: int := sourceBitMap.Length - 1;
    while idx >= 0
      invariant -1 <= idx < sourceBitMap.Length && numBitsToShift == 8 * (sourceBitMap.Length - 1 - idx)
      invariant freqDomainResources == BigEndian(source[idx + 1..]) < Pow2(numBitsToShift)
    {
      GatherStep(source, idx, freqDomainResources, numBitsToShift);
      freqDomainResources := Or(freqDomainResources, Shl(sourceBitMap[idx], numBitsToShift));
      numBitsToShift := numBitsToShift + 8;
      idx := idx - 1;
    }
    assert idx + 1 == 0 && numBitsToShift == 8 * sourceBitMap.Length;
    assert source[idx + 1..] == source;
  }

  lemma ScatterStep(v: nat, n: nat, octets: seq<byte>, octet: byte)
    requires n == 8 * |octets| && octet == Low(Shr(v, n), 8) && LittleEndian(octets) + Shl(Shr(v, n), n) == v
    ensures LittleEndian(octets + [octet]) + Shl(Shr(v, n + 8), n + 8) == v
  {
    OctetStep(v, n);
    LittleEndianBack(octets, octet);
  }

  method ScatterOctets(freqDomainResources: nat, destBitMap: array<byte>)
    requires destBitMap.Length == FREQ_DOM_RSRC_SIZE && freqDomainResources < Pow2(8 * destBitMap.Length)
    modifies destBitMap
    ensures LittleEndian(destBitMap[..]) == freqDomainResources
  {
    var numBitsToShift, idx := 0, 0;
    while idx < FREQ_DOM_RSRC_SIZE
      invariant 0 <= idx <= FREQ_DOM_RSRC_SIZE && numBitsToShift == 8 * idx
      invariant LittleEndian(destBitMap[..idx]) + Shl(Shr(freqDomainResources, numBitsToShift), numBitsToShift)
             == freqDomainResources
    {
      var octet := Low(Shr(freqDomainResources, numBitsToShift), 8);
      LowBound(Shr(freqDomainResources, numBitsToShift), 8);
      ScatterStep(freqDomainResources, numBitsToShift, destBitMap[..idx], octet);
      ghost var before := destBitMap[..idx];
      destBitMap[idx] := octet;
      assert destBitMap[..idx + 1] == before + [octet];
      numBitsToShift := numBitsToShift + 8;
      idx := idx + 1;
    }
    ShrToNothing(freqDomainResources, numBitsToShift);
    assert destBitMap[..idx] == destBitMap[..];
  }

  /** The last three of the 48 bits are unused. */
  lemma DropUnused(v: nat, n: nat)
    requires v < Pow2(n)
    ensures Shr(v, 3) == v / 8 < Pow2(n)
  {
    assert Shr(v, 3) == Shr(v / 2, 2) == Shr(v / 4, 1) == v / 8;
  }

  method ConvertFreqDomRsrcMapToIapiFormat(sourceBitMap: array<byte>, destBitMap: array<byte>)
    requires sourceBitMap.Length == FREQ_DOM_RSRC_SIZE == destBitMap.Length
    modifies destBitMap
    ensures LittleEndian(destBitMap[..]) == BigEndian(old(sourceBitMap[..])) / 8
  {
    var freqDomainResources := GatherOctets(sourceBitMap);
    DropUnused(freqDomainResources, 8 * destBitMap.Length);
    freqDomainResources := Shr(freqDomainResources, 3);
    ScatterOctets(freqDomainResources, destBitMap);
  }

  lemma ShrToNothing(v: nat, n: nat)
    requires v < Pow2(n)
    ensures Shl(Shr(v, n), n) == 0
  {
    ShrBound(v, n, 0);
    ShlBound(0, n, 0);
  }

  lemma {:induction false} BigEndianInjective(a: seq<byte>, b: seq<byte>)
    requires |a| == |b| && BigEndian(a) == BigEndian(b)
    ensures a == b
  {
    if a != [] {
      BigEndianInjective(a[..|a| - 1], b[..|b| - 1]);
      assert a == a[..|a| - 1] + [a[|a| - 1]];
      assert b == b[..|b| - 1] + [b[|b| - 1]];
    }
  }

  /** Maps that differ in a used bit (the last three bits are unused) never collide in the IAPI form. */
  lemma MapsNeverCollide(src1: seq<byte>, src2: seq<byte>, dst1: seq<byte>, dst2: seq<byte>)
    requires |src1| == |src2| == FREQ_DOM_RSRC_SIZE == |dst1| == |dst2|
    requires LittleEndian(dst1) == BigEndian(src1) / 8 && LittleEndian(dst2) == BigEndian(src2) / 8
    ensures dst1 == dst2 <==> src1[..5] == src2[..5] && src1[5] / 8 == src2[5] / 8
  {
    BigEndianFront(src1, 0);
    BigEndianFront(src2, 0);
    if dst1 == dst2 {
      assert 32 * BigEndian(src1[..5]) + src1[5] / 8 == BigEndian(src1) / 8;
      assert 32 * BigEndian(src2[..5]) + src2[5] / 8 == BigEndian(src2) / 8;
      BigEndianInjective(src1[..5], src2[..5]);
    } else if src1[..5] == src2[..5] && src1[5] / 8 == src2[5] / 8 {
      assert 32 * BigEndian(src1[..5]) + src1[5] / 8 == BigEndian(src1) / 8;
      assert 32 * BigEndian(src2[..5]) + src2[5] / 8 == BigEndian(src2) / 8;
      LittleEndianInjective(dst1, dst2);
      assert false;
    }
  }

  lemma {:induction false} LittleEndianInjective(a: seq<byte>, b: seq<byte>)
    requires |a| == |b| && LittleEndian(a) == LittleEndian(b)
    ensures a == b
  {
    if a != [] {
      LittleEndianInjective(a[1..], b[1..]);
      assert a == [a[0]] + a[1..] && b == [b[0]] + b[1..];
    }
  }
}
