/**
 Multiplexing of MAC control elements and SDUs into a downlink MAC PDU,
 section 6.1.2 of TS 38.321.
 */
module MacMux {
  import opened Common
  import opened BitString
  import opened BitPackers

  const MAC_LCID_MAX := 32
  const MAC_LCID_CRI := 62
  const MAC_LCID_PADDING := 63
  const MAX_CRI_SIZE := 6

  datatype MacCe = MacCe(lcid: nat, value: seq<byte>) {
    predicate Valid() { |value| == MAX_CRI_SIZE }
  }

  datatype MacSdu = MacSdu(lcid: nat, data: seq<byte>) {
    predicate Valid() { |data| < 65536 }
  }

  predicate AllValid(ces: seq<MacCe>, sdus: seq<MacSdu>) {
    && (forall k :: 0 <= k < |ces| ==> ces[k].Valid())
    && (forall k :: 0 <= k < |sdus| ==> sdus[k].Valid())
  }

  // ------------------------------------------------------------------ layout

  /** R/F/LCID/L: the length takes one octet up to 255 and two beyond. */
  function Subheader(lcid: nat, n: nat): seq<byte>
    requires lcid < 64 && n < 65536
  {
    if n > 255 then [64 + lcid, n / 256, n % 256] else [lcid, n]
  }

  /** Control elements other than the contention resolution identity are dropped. */
  function CeOctets(ce: MacCe): seq<byte> {
    if ce.lcid == MAC_LCID_CRI then [MAC_LCID_CRI] + ce.value else []
  }

  /** So are SDUs on a logical channel above 32. */
  function SduOctets(s: MacSdu): seq<byte>
    requires s.Valid()
  {
    if s.lcid <= MAC_LCID_MAX then Subheader(s.lcid, |s.data|) + s.data else []
  }

  function AllCeOctets(ces: seq<MacCe>): seq<byte> {
    if ces == [] then [] else AllCeOctets(ces[..|ces| - 1]) + CeOctets(ces[|ces| - 1])
  }

  function AllSduOctets(sdus: seq<MacSdu>): seq<byte>
    requires forall k :: 0 <= k < |sdus| ==> sdus[k].Valid()
  {
    if sdus == [] then [] else AllSduOctets(sdus[..|sdus| - 1]) + SduOctets(sdus[|sdus| - 1])
  }

  /** What follows the last sub-PDU: one padding subheader and clear octets, if there is room. */
  function Padding(n: nat): (r: seq<byte>)
    ensures |r| == n
  {
    if n == 0 then [] else [MAC_LCID_PADDING] + ZeroBytes(n - 1)
  }

  /** The transport block, for a body that fits it. */
  function MuxPdu(ces: seq<MacCe>, sdus: seq<MacSdu>, tbSize: nat): (r: seq<byte>)
    requires AllValid(ces, sdus)
    requires |AllCeOctets(ces) + AllSduOctets(sdus)| <= tbSize
    ensures |r| == tbSize
  {
    var body := AllCeOctets(ces) + AllSduOctets(sdus);
    body + Padding(tbSize - |body|)
  }

  // ------------------------------------------------------------- bits, octets

  lemma HeaderOctet(r: nat, rSize: nat, f: nat, fSize: nat, lcid: nat)
    requires rSize + fSize == 2 && r == 0 && f < Pow2(fSize) && lcid < 64
    ensures 64 * f + lcid < 256
    ensures Be(r, rSize) + Be(f, fSize) + Be(lcid, 6) == Flat([64 * f + lcid])
  {
    assert Pow2(0) == 1 && Pow2(1) == 2 && Pow2(2) == 4 && Pow2(6) == 64;
    assert Shl(f, 6) == 64 * f by {
      assert Shl(f, 6) == 2 * Shl(f, 5) == 4 * Shl(f, 4) == 8 * Shl(f, 3) == 16 * Shl(f, 2) == 32 * Shl(f, 1);
    }
    BeJoin(f, 2, lcid, 6);
    BeSplit(f, rSize, fSize);
    ShrBound(f, fSize, 0);
    Pow2Monotonic(fSize, 2);
    FlatOctet(64 * f + lcid);
  }

  lemma TwoOctets(hi: byte, lo: byte)
    ensures Be(256 * hi + lo, 16) == Flat([hi, lo])
  {
    assert Pow2(8) == 256;
    assert Shl(hi, 8) == 256 * hi by {
      assert Shl(hi, 8) == 2 * Shl(hi, 7) == 4 * Shl(hi, 6) == 8 * Shl(hi, 5) == 16 * Shl(hi, 4);
      assert Shl(hi, 4) == 2 * Shl(hi, 3) == 4 * Shl(hi, 2) == 8 * Shl(hi, 1) == 16 * hi;
    }
    BeJoin(hi, 8, lo, 8);
    FlatOctet(hi);
    FlatOctet(lo);
    FlatConcat([hi], [lo]);
    assert [hi] + [lo] == [hi, lo];
  }

  // ----------------------------------------------------------------- methods

  /** memcpy to an octet boundary of a buffer that is clear beyond it. */
  method CopyOctets(macPdu: array<byte>, bytePos: nat, data: seq<byte>, ghost body: seq<byte>)
    requires bytePos == |body| && |body| + |data| <= macPdu.Length
    requires macPdu[..] == body + ZeroBytes(macPdu.Length - |body|)
    modifies macPdu
    ensures macPdu[..] == body + data + ZeroBytes(macPdu.Length - |body| - |data|)
  {
    forall k | 0 <= k < |data| {
      macPdu[bytePos + k] := data[k];
    }
    assert forall i | 0 <= i < macPdu.Length ::
      macPdu[i] == (body + data + ZeroBytes(macPdu.Length - |body| - |data|))[i];
  }

  /** R/R/LCID of a control element or of the padding. */
  method PackShortHeader(macPdu: array<byte>, bytePos: nat, lcid: nat, ghost body: seq<byte>) returns (newByte: nat)
    requires bytePos == |body| < macPdu.Length && lcid < 64
    requires macPdu[..] == body + ZeroBytes(macPdu.Length - |body|)
    modifies macPdu
    ensures newByte == bytePos + 1
    ensures macPdu[..] == body + [lcid] + ZeroBytes(macPdu.Length - |body| - 1)
  {
    PackedOctets(macPdu[..], body);
    HeaderOctet(0, 2, 0, 0, lcid);
    assert Pow2(6) == 64 && Be(0, 0) == [];
    var bitPos;
    ghost var bits := Flat(body);
    newByte, bitPos := PackOnClear(macPdu, bytePos, 7, 0, 2, bits);
    newByte, bitPos := PackOnClear(macPdu, newByte, bitPos, lcid, 6, bits + Be(0, 2));
    FlatConcat(body, [lcid]);
    assert bits + Be(0, 2) + Be(lcid, 6) == bits + (Be(0, 2) + Be(0, 0) + Be(lcid, 6));
    PackedOctets(macPdu[..], body + [lcid]);
  }

  /** R/F/LCID/L of an SDU. */
  method PackSduHeader(macPdu: array<byte>, bytePos: nat, lcid: nat, lenField: nat, ghost body: seq<byte>)
    returns (newByte: nat)
    requires lcid <= MAC_LCID_MAX && lenField < 65536
    requires bytePos == |body| && |body| + |Subheader(lcid, lenField)| <= macPdu.Length
    requires macPdu[..] == body + ZeroBytes(macPdu.Length - |body|)
    modifies macPdu
    ensures newByte == bytePos + |Subheader(lcid, lenField)|
    ensures macPdu[..] == body + Subheader(lcid, lenField) + ZeroBytes(macPdu.Length - newByte)
  {
    var fBit, lenFieldSize;
    if lenField > 255 {
      fBit, lenFieldSize := 1, 16;
    } else {
      fBit, lenFieldSize := 0, 8;
    }
    PackedOctets(macPdu[..], body);
    ghost var bits, head := Flat(body), Subheader(lcid, lenField);
    assert Pow2(1) == 2 && Pow2(6) == 64 && Pow2(8) == 256 && Pow2(16) == 65536;
    var bitPos;
    newByte, bitPos := PackOnClear(macPdu, bytePos, 7, 0, 1, bits);
    newByte, bitPos := PackOnClear(macPdu, newByte, bitPos, fBit, 1, bits + Be(0, 1));
    newByte, bitPos := PackOnClear(macPdu, newByte, bitPos, lcid, 6, bits + Be(0, 1) + Be(fBit, 1));
    newByte, bitPos := PackOnClear(macPdu, newByte, bitPos, lenField, lenFieldSize,
                                   bits + Be(0, 1) + Be(fBit, 1) + Be(lcid, 6));
    SubheaderBits(lcid, lenField, fBit, lenFieldSize, body);
    PackedOctets(macPdu[..], body + head);
  }

  lemma SubheaderBits(lcid: nat, n: nat, f: nat, lenSize: nat, body: seq<byte>)
    requires lcid <= MAC_LCID_MAX && n < 65536
    requires f == (if n > 255 then 1 else 0) && lenSize == (if n > 255 then 16 else 8)
    ensures Flat(body) + Be(0, 1) + Be(f, 1) + Be(lcid, 6) + Be(n, lenSize) == Flat(body + Subheader(lcid, n))
  {
    assert Pow2(1) == 2;
    HeaderOctet(0, 1, f, 1, lcid);
    LengthBits(n, lenSize);
    assert Subheader(lcid, n) == [64 * f + lcid] + LengthOctets(n);
    FlatConcat([64 * f + lcid], LengthOctets(n));
    FlatConcat(body, Subheader(lcid, n));
    Regroup(Flat(body), Be(0, 1), Be(f, 1), Be(lcid, 6), Be(n, lenSize));
  }

  function LengthOctets(n: nat): seq<byte>
    requires n < 65536
  {
    if n > 255 then [n / 256, n % 256] else [n]
  }

  lemma LengthBits(n: nat, lenSize: nat)
    requires n < 65536 && lenSize == (if n > 255 then 16 else 8)
    ensures Be(n, lenSize) == Flat(LengthOctets(n))
  {
    if n > 255 { TwoOctets(n / 256, n % 256); } else { FlatOctet(n); }
  }

  lemma Regroup(a: seq<bool>, b: seq<bool>, c: seq<bool>, d: seq<bool>, e: seq<bool>)
    ensures a + b + c + d + e == a + ((b + c + d) + e)
  {
  }

  lemma {:induction false} CePrefix(ces: seq<MacCe>, k: nat)
    requires k <= |ces|
    ensures |AllCeOctets(ces[..k])| <= |AllCeOctets(ces)|
    decreases |ces| - k
  {
    if k < |ces| {
      CePrefix(ces, k + 1);
      assert ces[..k + 1][..k] == ces[..k];
    } else {
      assert ces[..k] == ces;
    }
  }

  lemma {:induction false} SduPrefix(sdus: seq<MacSdu>, k: nat)
    requires k <= |sdus| && forall i :: 0 <= i < |sdus| ==> sdus[i].Valid()
    ensures |AllSduOctets(sdus[..k])| <= |AllSduOctets(sdus)|
    decreases |sdus| - k
  {
    if k < |sdus| {
      SduPrefix(sdus, k + 1);
      assert sdus[..k + 1][..k] == sdus[..k];
    } else {
      assert sdus[..k] == sdus;
    }
  }

  method PackCe(macPdu: array<byte>, start: nat, ce: MacCe, ghost body: seq<byte>) returns (bytePos: nat)
    requires ce.Valid() && start == |body| && |body| + |CeOctets(ce)| <= macPdu.Length
    requires macPdu[..] == body + ZeroBytes(macPdu.Length - start)
    modifies macPdu
    ensures bytePos == |body| + |CeOctets(ce)|
    ensures macPdu[..] == body + CeOctets(ce) + ZeroBytes(macPdu.Length - bytePos)
  {
    bytePos := start;
    if ce.lcid == MAC_LCID_CRI {
      bytePos := PackShortHeader(macPdu, bytePos, MAC_LCID_CRI, body);
      CopyOctets(macPdu, bytePos, ce.value, body + [MAC_LCID_CRI]);
      bytePos := bytePos + MAX_CRI_SIZE;
      assert body + [MAC_LCID_CRI] + ce.value == body + CeOctets(ce);
    } else {
      assert body + CeOctets(ce) == body;
    }
  }

  method PackSdu(macPdu: array<byte>, start: nat, sdu: MacSdu, ghost body: seq<byte>) returns (bytePos: nat)
    requires sdu.Valid() && start == |body| && |body| + |SduOctets(sdu)| <= macPdu.Length
    requires macPdu[..] == body + ZeroBytes(macPdu.Length - start)
    modifies macPdu
    ensures bytePos == |body| + |SduOctets(sdu)|
    ensures macPdu[..] == body + SduOctets(sdu) + ZeroBytes(macPdu.Length - bytePos)
  {
    bytePos := start;
    if sdu.lcid <= MAC_LCID_MAX {
      ghost var sub := Subheader(sdu.lcid, |sdu.data|);
      bytePos := PackSduHeader(macPdu, bytePos, sdu.lcid, |sdu.data|, body);
      CopyOctets(macPdu, bytePos, sdu.data, body + sub);
      bytePos := bytePos + |sdu.data|;
      assert body + sub + sdu.data == body + SduOctets(sdu);
    } else {
      assert body + SduOctets(sdu) == body;
    }
  }

  method PackCes(macPdu: array<byte>, ces: seq<MacCe>) returns (bytePos: nat)
    requires forall k :: 0 <= k < |ces| ==> ces[k].Valid()
    requires |AllCeOctets(ces)| <= macPdu.Length && macPdu[..] == ZeroBytes(macPdu.Length)
    modifies macPdu
    ensures bytePos == |AllCeOctets(ces)|
    ensures macPdu[..] == AllCeOctets(ces) + ZeroBytes(macPdu.Length - bytePos)
  {
    bytePos := 0;
    var pduIdx := 0;
    while pduIdx < |ces|
      invariant pduIdx <= |ces| && bytePos == |AllCeOctets(ces[..pduIdx])| <= macPdu.Length
      invariant macPdu[..] == AllCeOctets(ces[..pduIdx]) + ZeroBytes(macPdu.Length - bytePos)
    {
      assert ces[..pduIdx + 1][..pduIdx] == ces[..pduIdx];
      CePrefix(ces, pduIdx + 1);
      bytePos := PackCe(macPdu, bytePos, ces[pduIdx], AllCeOctets(ces[..pduIdx]));
      pduIdx := pduIdx + 1;
    }
    assert ces[..pduIdx] == ces;
  }

  method PackSdus(macPdu: array<byte>, start: nat, sdus: seq<MacSdu>, ghost head: seq<byte>) returns (bytePos: nat)
    requires forall k :: 0 <= k < |sdus| ==> sdus[k].Valid()
    requires start == |head| && |head| + |AllSduOctets(sdus)| <= macPdu.Length
    requires macPdu[..] == head + ZeroBytes(macPdu.Length - start)
    modifies macPdu
    ensures bytePos == |head + AllSduOctets(sdus)|
    ensures macPdu[..] == head + AllSduOctets(sdus) + ZeroBytes(macPdu.Length - bytePos)
  {
    bytePos := start;
    var pduIdx := 0;
    ghost var body := head;
    while pduIdx < |sdus|
      invariant pduIdx <= |sdus| && bytePos == |body| <= macPdu.Length
      invariant body == head + AllSduOctets(sdus[..pduIdx])
      invariant macPdu[..] == body + ZeroBytes(macPdu.Length - bytePos)
    {
      SduStep(head, sdus, pduIdx);
      bytePos := PackSdu(macPdu, bytePos, sdus[pduIdx], body);
      body := body + SduOctets(sdus[pduIdx]);
      pduIdx := pduIdx + 1;
    }
    assert sdus[..pduIdx] == sdus;
  }

  lemma SduStep(head: seq<byte>, sdus: seq<MacSdu>, k: nat)
    requires k < |sdus| && forall i :: 0 <= i < |sdus| ==> sdus[i].Valid()
    ensures (head + AllSduOctets(sdus[..k])) + SduOctets(sdus[k]) == head + AllSduOctets(sdus[..k + 1])
    ensures |head + AllSduOctets(sdus[..k + 1])| <= |head + AllSduOctets(sdus)|
  {
    SduSnoc(sdus, k);
    Associate(head, AllSduOctets(sdus[..k]), SduOctets(sdus[k]));
    SduPrefix(sdus, k + 1);
  }

  lemma SduSnoc(sdus: seq<MacSdu>, k: nat)
    requires k < |sdus| && forall i :: 0 <= i < |sdus| ==> sdus[i].Valid()
    ensures AllSduOctets(sdus[..k + 1]) == AllSduOctets(sdus[..k]) + SduOctets(sdus[k])
  {
    assert sdus[..k + 1][..k] == sdus[..k];
  }

  method MacMuxPdu(sdus: seq<MacSdu>, ces: seq<MacCe>, txPdu: array<byte>)
    requires AllValid(ces, sdus)
    requires |AllCeOctets(ces) + AllSduOctets(sdus)| <= txPdu.Length
    modifies txPdu
    ensures txPdu[..] == MuxPdu(ces, sdus, txPdu.Length)
  {
    var macPdu := new byte[txPdu.Length](_ => 0);
    assert macPdu[..] == ZeroBytes(macPdu.Length);
    var bytePos := PackCes(macPdu, ces);
    ghost var body := AllCeOctets(ces) + AllSduOctets(sdus);
    bytePos := PackSdus(macPdu, bytePos, sdus, AllCeOctets(ces));
    if bytePos < macPdu.Length {
      bytePos := PackShortHeader(macPdu, bytePos, MAC_LCID_PADDING, body);
    }
    assert macPdu[..] == body + Padding(macPdu.Length - |body|);
    forall k | 0 <= k < txPdu.Length {
      txPdu[k] := macPdu[k];
    }
    assert txPdu[..] == macPdu[..];
  }
}
