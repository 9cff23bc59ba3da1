/**
 The two recursive bit packers: `packBytes`, whose cursor counts bits down from
 7 and is always normalised, and the XFAPI form of `fillDlDciPayload`, whose
 cursor counts up from 0 and may rest at 8. Both are proved to be one abstract
 append of the big-endian form of the value.
 */
module BitPackers {
  import opened BitString

  /** Or an octet that carries `bits` into the buffer. */
  method OrInto(buf: array<byte>, i: nat, part: nat, ghost pos: nat, ghost bits: seq<bool>)
    requires i < buf.Length && OctetCarries(part, i, pos, bits)
    modifies buf
    ensures Flat(buf[..]) == Put(old(Flat(buf[..])), pos, bits)
  {
    OrIsPut(buf[..], i, part, pos, bits);
    ghost var before := buf[..];
    buf[i] := Or(buf[i], part);
    assert buf[..] == before[i := Or(before[i], part)];
  }

  lemma PutInTwo(f: seq<bool>, pos: nat, val: nat, head: nat, rest: nat)
    requires pos + head + rest <= |f|
    ensures Put(Put(f, pos, Be(Shr(val, rest), head)), pos + head, Be(val, rest)) == Put(f, pos, Be(val, head + rest))
  {
    BeSplit(val, head, rest);
    PutPut(f, pos, Be(Shr(val, rest), head), Be(val, rest));
  }

  /** The loop that clears a buffer before anything is packed. */
  method ClearOctets(buf: array<byte>, n: nat)
    requires n <= buf.Length
    modifies buf
    ensures Packed(buf[..n], []) && buf[n..] == old(buf[n..])
  {
    var bytePos := 0;
    while bytePos < n
      invariant bytePos <= n && buf[n..] == old(buf[n..])
      invariant forall k :: 0 <= k < bytePos ==> buf[k] == 0
    {
      buf[bytePos] := 0;
      bytePos := bytePos + 1;
    }
    ClearIsPacked(buf[..n]);
  }

  // The octet that the last (or only) step of packBytes or-s in.
  lemma PackTailCarries(val: nat, valSize: nat, bitPos: nat, part: nat, i: nat, k: nat)
    requires k < 8 && bitPos <= 7 && valSize <= bitPos + 1
    requires val < Pow2(valSize)
    requires part == Low(Shl(Low(val, 8), bitPos - valSize + 1), 8)
    ensures Carries(part, i, k, 8 * i + 7 - bitPos, Be(val, valSize))
  {
    var shift, j := bitPos - valSize + 1, 7 - k;
    BitLow(Shl(Low(val, 8), shift), 8, j);
    BitShl(Low(val, 8), shift, j);
    if shift <= j {
      BitLow(val, 8, j - shift);
      if bitPos < j {
        HighBitsClear(val, valSize, j - shift);
      } else {
        BeAt(val, valSize, bitPos - j);
      }
    }
  }

  // The octet that a splitting step of packBytes or-s in.
  lemma PackHeadCarries(val: nat, head: nat, rest: nat, bitPos: nat, part: nat, i: nat, k: nat)
    requires k < 8 && bitPos <= 7 && head == bitPos + 1
    requires val < Pow2(rest + head)
    requires part == Low(Shr(val, rest), 8)
    ensures Carries(part, i, k, 8 * i + 7 - bitPos, Be(Shr(val, rest), head))
  {
    var j := 7 - k;
    BitLow(Shr(val, rest), 8, j);
    ShrBound(val, rest, head);
    if bitPos < j {
      HighBitsClear(Shr(val, rest), head, j);
    } else {
      BeAt(Shr(val, rest), head, bitPos - j);
    }
  }

  lemma PackTailOctet(val: nat, valSize: nat, bitPos: nat, part: nat, i: nat)
    requires bitPos <= 7 && valSize <= bitPos + 1 && val < Pow2(valSize)
    requires part == Low(Shl(Low(val, 8), bitPos - valSize + 1), 8)
    ensures OctetCarries(part, i, 8 * i + 7 - bitPos, Be(val, valSize))
  {
    LowBound(Shl(Low(val, 8), bitPos - valSize + 1), 8);
    var pos := 8 * i + 7 - bitPos;
    forall k | 0 <= k < 8 ensures Carries(part, i, k, pos, Be(val, valSize)) {
      PackTailCarries(val, valSize, bitPos, part, i, k);
    }
  }

  lemma PackHeadOctet(val: nat, head: nat, rest: nat, bitPos: nat, part: nat, i: nat)
    requires bitPos <= 7 && head == bitPos + 1 && val < Pow2(rest + head) && part == Low(Shr(val, rest), 8)
    ensures OctetCarries(part, i, 8 * i + 7 - bitPos, Be(Shr(val, rest), head))
  {
    LowBound(Shr(val, rest), 8);
    var pos := 8 * i + 7 - bitPos;
    forall k | 0 <= k < 8 ensures Carries(part, i, k, pos, Be(Shr(val, rest), head)) {
      PackHeadCarries(val, head, rest, bitPos, part, i, k);
    }
  }

  /**
   packBytes: or the low `valSize` bits of `val` into the buffer, most significant
   bit first, starting at bit `bitPos` (7 is the first of the octet) of octet `bytePos`.
   */
  method PackBytes(buf: array<byte>, bytePos: nat, bitPos: nat, val: nat, valSize: nat)
    returns (newByte: nat, newBit: nat)
    requires bitPos <= 7 && bytePos < buf.Length
    requires val < Pow2(valSize)
    requires 8 * bytePos + (7 - bitPos) + valSize <= 8 * buf.Length
    modifies buf
    ensures newBit <= 7
    ensures 8 * newByte + (7 - newBit) == 8 * bytePos + (7 - bitPos) + valSize
    ensures Flat(buf[..]) == Put(old(Flat(buf[..])), 8 * bytePos + (7 - bitPos), Be(val, valSize))
    decreases valSize
  {
    ghost var before := Flat(buf[..]);
    ghost var pos := 8 * bytePos + 7 - bitPos;
    if bitPos - valSize + 1 >= 0 {
      var part1 := Low(val, 8);
      part1 := Low(Shl(part1, bitPos - valSize + 1), 8);
      PackTailOctet(val, valSize, bitPos, part1, bytePos);
      OrInto(buf, bytePos, part1, pos, Be(val, valSize));
      if bitPos - valSize < 0 {
        newByte, newBit := bytePos + 1, 7;
      } else {
        newByte, newBit := bytePos, bitPos - valSize;
      }
    } else {
      var part1Size := bitPos + 1;
      var part2Size := valSize - part1Size;
      var part1 := Low(Shl(Shr(val, part2Size), bitPos - part1Size + 1), 8);
      var part2 := Low(val, part2Size);
      PackHeadOctet(val, part1Size, part2Size, bitPos, part1, bytePos);
      OrInto(buf, bytePos, part1, pos, Be(Shr(val, part2Size), part1Size));
      LowBound(val, part2Size);
      newByte, newBit := PackBytes(buf, bytePos + 1, 7, part2, part2Size);
      BeLow(val, part2Size);
      PutInTwo(before, pos, val, part1Size, part2Size);
    }
  }

  /** packBytes on a buffer that is clear beyond the cursor: a concatenation. */
  method PackOnClear(buf: array<byte>, bytePos: nat, bitPos: nat, val: nat, valSize: nat, ghost bits: seq<bool>)
    returns (newByte: nat, newBit: nat)
    requires bitPos <= 7 && bytePos < buf.Length && val < Pow2(valSize)
    requires 8 * bytePos + (7 - bitPos) == |bits| && |bits| + valSize <= 8 * buf.Length
    requires Packed(buf[..], bits)
    modifies buf
    ensures newBit <= 7 && 8 * newByte + (7 - newBit) == |bits| + valSize
    ensures Packed(buf[..], bits + Be(val, valSize))
  {
    PutOnZeros(bits, Be(val, valSize), 8 * buf.Length - |bits|);
    newByte, newBit := PackBytes(buf, bytePos, bitPos, val, valSize);
  }

  /** The same, with what is packed so far described as a list of fields. */
  method PackField(buf: array<byte>, bytePos: nat, bitPos: nat, val: nat, valSize: nat, ghost fs: seq<Field>)
    returns (newByte: nat, newBit: nat, ghost newFs: seq<Field>)
    requires bitPos <= 7 && bytePos < buf.Length && val < Pow2(valSize)
    requires 8 * bytePos + (7 - bitPos) == Width(fs) && Width(fs) + valSize <= 8 * buf.Length
    requires Packed(buf[..], Layout(fs))
    modifies buf
    ensures newFs == fs + [Field(val, valSize)]
    ensures newBit <= 7 && 8 * newByte + (7 - newBit) == Width(newFs) == Width(fs) + valSize
    ensures Packed(buf[..], Layout(newFs))
  {
    newFs := fs + [Field(val, valSize)];
    assert newFs[..|newFs| - 1] == fs;
    newByte, newBit := PackOnClear(buf, bytePos, bitPos, val, valSize, Layout(fs));
  }

  // The octet that the last step of fillDlDciPayload or-s in.
  lemma DciTailCarries(val: nat, valSize: nat, bitPos: nat, part: nat, i: nat, k: nat)
    requires k < 8 && bitPos + valSize <= 8
    requires part == Low(Shl(Low(Low(val, 8), valSize), 8 - (bitPos + valSize)), 8)
    ensures Carries(part, i, k, 8 * i + bitPos, Be(val, valSize))
  {
    var shift, j := 8 - (bitPos + valSize), 7 - k;
    BitLow(Shl(Low(Low(val, 8), valSize), shift), 8, j);
    BitShl(Low(Low(val, 8), valSize), shift, j);
    if shift <= j {
      BitLow(Low(val, 8), valSize, j - shift);
      BitLow(val, 8, j - shift);
      if bitPos <= k {
        BeAt(val, valSize, k - bitPos);
      }
    }
  }

  // The octet that a splitting step of fillDlDciPayload or-s in. The bits above
  // the head are either absent (first step) or fall off the octet (cursor at 0).
  lemma DciHeadCarries(val: nat, head: nat, rest: nat, bitPos: nat, part: nat, i: nat, k: nat)
    requires k < 8 && bitPos <= 8 && head == 8 - bitPos
    requires bitPos == 0 || val < Pow2(rest + head)
    requires part == Low(Shr(val, rest), 8)
    ensures Carries(part, i, k, 8 * i + bitPos, Be(Shr(val, rest), head))
  {
    var j := 7 - k;
    BitLow(Shr(val, rest), 8, j);
    if k < bitPos {
      ShrBound(val, rest, head);
      HighBitsClear(Shr(val, rest), head, j);
    } else {
      BeAt(Shr(val, rest), head, k - bitPos);
    }
  }

  lemma DciTailOctet(val: nat, valSize: nat, bitPos: nat, part: nat, i: nat)
    requires bitPos + valSize <= 8 && part == Low(Shl(Low(Low(val, 8), valSize), 8 - (bitPos + valSize)), 8)
    ensures OctetCarries(part, i, 8 * i + bitPos, Be(val, valSize))
  {
    LowBound(Shl(Low(Low(val, 8), valSize), 8 - (bitPos + valSize)), 8);
    var pos := 8 * i + bitPos;
    forall k | 0 <= k < 8 ensures Carries(part, i, k, pos, Be(val, valSize)) {
      DciTailCarries(val, valSize, bitPos, part, i, k);
    }
  }

  lemma DciHeadOctet(val: nat, head: nat, rest: nat, bitPos: nat, part: nat, i: nat)
    requires bitPos <= 8 && head == 8 - bitPos && (bitPos == 0 || val < Pow2(rest + head))
    requires part == Low(Shr(val, rest), 8)
    ensures OctetCarries(part, i, 8 * i + bitPos, Be(Shr(val, rest), head))
  {
    LowBound(Shr(val, rest), 8);
    var pos := 8 * i + bitPos;
    forall k | 0 <= k < 8 ensures Carries(part, i, k, pos, Be(Shr(val, rest), head)) {
      DciHeadCarries(val, head, rest, bitPos, part, i, k);
    }
  }

  /**
   fillDlDciPayload in its XFAPI form: the same append with a cursor that counts
   up and may rest at 8. A resting cursor consumes no bits, so termination is
   lexicographic. The recursive call hands on `val` unmasked; that is harmless
   because the cursor is then 0.
   */
  method FillDlDciPayload(buf: array<byte>, bytePos: nat, bitPos: nat, val: nat, valSize: nat)
    returns (newByte: nat, newBit: nat)
    requires bitPos <= 8 && bytePos < buf.Length
    requires bitPos == 0 || val < Pow2(valSize)
    requires 8 * bytePos + bitPos + valSize <= 8 * buf.Length
    modifies buf
    ensures newBit <= 8 && newByte < buf.Length
    ensures 8 * newByte + newBit == 8 * bytePos + bitPos + valSize
    ensures Flat(buf[..]) == Put(old(Flat(buf[..])), 8 * bytePos + bitPos, Be(val, valSize))
    decreases valSize, bitPos
  {
    ghost var before := Flat(buf[..]);
    ghost var pos := 8 * bytePos + bitPos;
    if bitPos + valSize <= 8 {
      var part1 := Low(val, 8);
      part1 := Low(Shl(Low(part1, valSize), 8 - (bitPos + valSize)), 8);
      DciTailOctet(val, valSize, bitPos, part1, bytePos);
      OrInto(buf, bytePos, part1, pos, Be(val, valSize));
      newByte, newBit := bytePos, bitPos + valSize;
    } else {
      var part1Size := 8 - bitPos;
      var part2Size := valSize - part1Size;
      var part1 := Low(Shr(val, part2Size), 8);
      DciHeadOctet(val, part1Size, part2Size, bitPos, part1, bytePos);
      OrInto(buf, bytePos, part1, pos, Be(Shr(val, part2Size), part1Size));
      newByte, newBit := FillDlDciPayload(buf, bytePos + 1, 0, val, part2Size);
      PutInTwo(before, pos, val, part1Size, part2Size);
    }
  }

  /** The same for fillDlDciPayload, on the first `n` octets of a longer payload buffer. */
  method FillDciField(buf: array<byte>, ghost n: nat, bytePos: nat, bitPos: nat, val: nat, valSize: nat,
                      ghost fs: seq<Field>)
    returns (newByte: nat, newBit: nat, ghost newFs: seq<Field>)
    requires n <= buf.Length && bitPos <= 8 && bytePos < buf.Length && val < Pow2(valSize)
    requires 8 * bytePos + bitPos == Width(fs) && Width(fs) + valSize <= 8 * n
    requires Packed(buf[..n], Layout(fs))
    modifies buf
    ensures newFs == fs + [Field(val, valSize)]
    ensures newBit <= 8 && newByte < buf.Length && 8 * newByte + newBit == Width(newFs) == Width(fs) + valSize
    ensures Packed(buf[..n], Layout(newFs))
    ensures buf[n..] == old(buf[n..])
  {
    PutOnZeros(Layout(fs), Be(val, valSize), 8 * n - Width(fs));
    newFs := fs + [Field(val, valSize)];
    assert newFs[..|newFs| - 1] == fs;
    newByte, newBit := FillDlDciPayload(buf, bytePos, bitPos, val, valSize);
    PutInPrefix(old(buf[..]), buf[..], n, Width(fs), Be(val, valSize));
    assert buf[..][..n] == buf[..n] && old(buf[..])[..n] == old(buf[..n]);
    assert buf[..][n..] == buf[n..] && old(buf[..])[n..] == old(buf[n..]);
  }
}
