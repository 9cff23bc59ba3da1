/**
 The random access response PDU: sections 6.1.5 and 6.2.3 of TS 38.321 around the
 uplink grant of section 8.2 of TS 38.213.
 */
module RarPdu {
  import opened BitString
  import opened BitPackers
  import Riv

  const RAR_PAYLOAD_SIZE := 10
  const FREQ_RSRC_ALLOC_SIZE := 14
  const PADDING_LCID := 63

  datatype Msg3UlGrant = Msg3UlGrant(
    freqHopFlag: nat, bwpSize: nat, msg3FreqAlloc: Riv.PrbAlloc, k2Index: nat, mcs: nat, tpc: nat, csiReq: nat)

  datatype RarInfo = RarInfo(rapid: nat, ta: nat, ulGrant: Msg3UlGrant, tcrnti: nat) {
    /** Each field is within the width the PDU gives it; the bandwidth part is in the short-RIV range. */
    predicate Valid() {
      && rapid < 64 && ta < 4096 && tcrnti < 65536
      && ulGrant.freqHopFlag < 2 && 1 <= ulGrant.bwpSize < 180
      && ulGrant.k2Index < 16 && ulGrant.mcs < 16 && ulGrant.tpc < 8 && ulGrant.csiReq < 2
    }
  }

  /** Zero when the allocation does not fit the bandwidth part. */
  function Msg3FreqResource(g: Msg3UlGrant): nat {
    if Riv.Valid(g.bwpSize, g.msg3FreqAlloc) then Riv.Encode(g.bwpSize, g.msg3FreqAlloc) else 0
  }

  /** The PDU as the standard lays it out, the resource field being one field of 14 bits. */
  function RarFields(r: RarInfo): seq<Field> {
    [ Field(0, 1), Field(1, 1), Field(r.rapid, 6),
      Field(0, 1), Field(r.ta, 12),
      Field(r.ulGrant.freqHopFlag, 1), Field(Msg3FreqResource(r.ulGrant), 14),
      Field(r.ulGrant.k2Index, 4), Field(r.ulGrant.mcs, 4), Field(r.ulGrant.tpc, 3), Field(r.ulGrant.csiReq, 1),
      Field(r.tcrnti, 16),
      Field(0, 2), Field(PADDING_LCID, 6), Field(0, 8) ]
  }

  lemma ResourceFits(g: Msg3UlGrant)
    requires 1 <= g.bwpSize < 180
    ensures Riv.FieldWidth(g.bwpSize) <= 14
    ensures Msg3FreqResource(g) < Pow2(Riv.FieldWidth(g.bwpSize)) <= Pow2(14)
  {
    Riv.WidthAtMost14(g.bwpSize);
    Riv.WidthIsExact(g.bwpSize, Riv.FieldWidth(g.bwpSize));
    Pow2Monotonic(Riv.FieldWidth(g.bwpSize), 14);
  }

  lemma RarFieldsFit(r: RarInfo)
    requires r.Valid()
    ensures AllFit(RarFields(r))
  {
    ResourceFits(r.ulGrant);
    assert Pow2(1) == 2 && Pow2(3) == 8 && Pow2(4) == 16 && Pow2(6) == 64;
    assert Pow2(12) == 4096 && Pow2(16) == 65536;
  }

  /** E/T/RAPID. */
  method PackSubheader(rarPdu: array<byte>, rapid: nat) returns (bytePos: nat, bitPos: nat, ghost fs: seq<Field>)
    requires rapid < 64 && rarPdu.Length == RAR_PAYLOAD_SIZE && Packed(rarPdu[..], Layout([]))
    modifies rarPdu
    ensures fs == [Field(0, 1), Field(1, 1), Field(rapid, 6)] && Packed(rarPdu[..], Layout(fs))
    ensures bitPos <= 7 && 8 * bytePos + (7 - bitPos) == Width(fs) == 8
  {
    assert Pow2(1) == 2 && Pow2(6) == 64;
    fs := [];
    bytePos, bitPos, fs := PackField(rarPdu, 0, 7, 0, 1, fs);
    bytePos, bitPos, fs := PackField(rarPdu, bytePos, bitPos, 1, 1, fs);
    bytePos, bitPos, fs := PackField(rarPdu, bytePos, bitPos, rapid, 6, fs);
  }

  /** The fields of the response up to the hopping flag. */
  method PackHead(rarPdu: array<byte>, startByte: nat, startBit: nat, ta: nat, freqHopFlag: nat, ghost head: seq<Field>)
    returns (bytePos: nat, bitPos: nat, ghost fs: seq<Field>)
    requires ta < 4096 && freqHopFlag < 2 && rarPdu.Length == RAR_PAYLOAD_SIZE
    requires startBit <= 7 && 8 * startByte + (7 - startBit) == Width(head) == 8 && Packed(rarPdu[..], Layout(head))
    modifies rarPdu
    ensures fs == head + [Field(0, 1), Field(ta, 12), Field(freqHopFlag, 1)] && Packed(rarPdu[..], Layout(fs))
    ensures bitPos <= 7 && 8 * bytePos + (7 - bitPos) == Width(fs) == 22
  {
    assert Pow2(1) == 2 && Pow2(12) == 4096;
    bytePos, bitPos, fs := PackField(rarPdu, startByte, startBit, 0, 1, head);
    bytePos, bitPos, fs := PackField(rarPdu, bytePos, bitPos, ta, 12, fs);
    bytePos, bitPos, fs := PackField(rarPdu, bytePos, bitPos, freqHopFlag, 1, fs);
  }

  /** The frequency-domain resource: leading zeros up to 14 bits, then the indication value. */
  method PackFreqResource(rarPdu: array<byte>, startByte: nat, startBit: nat, g: Msg3UlGrant, ghost head: seq<Field>)
    returns (bytePos: nat, bitPos: nat, ghost fs: seq<Field>)
    requires 1 <= g.bwpSize < 180 && rarPdu.Length == RAR_PAYLOAD_SIZE
    requires startBit <= 7 && 8 * startByte + (7 - startBit) == Width(head) == 22 && Packed(rarPdu[..], Layout(head))
    modifies rarPdu
    ensures fs == head + [Field(Msg3FreqResource(g), FREQ_RSRC_ALLOC_SIZE)] && Packed(rarPdu[..], Layout(fs))
    ensures bitPos <= 7 && 8 * bytePos + (7 - bitPos) == Width(fs) == 36
  {
    ResourceFits(g);
    var msg3FreqResource := Msg3FreqResource(g);
    var actualFreqRsrcAllocSize := Riv.FieldWidth(g.bwpSize);
    bytePos, bitPos, fs :=
      PackField(rarPdu, startByte, startBit, 0, FREQ_RSRC_ALLOC_SIZE - actualFreqRsrcAllocSize, head);
    bytePos, bitPos, fs := PackField(rarPdu, bytePos, bitPos, msg3FreqResource, actualFreqRsrcAllocSize, fs);
    assert fs == head + [Field(0, FREQ_RSRC_ALLOC_SIZE - actualFreqRsrcAllocSize),
                         Field(msg3FreqResource, actualFreqRsrcAllocSize)];
    LeadingZerosMerge(head, msg3FreqResource, FREQ_RSRC_ALLOC_SIZE, actualFreqRsrcAllocSize);
    fs := head + [Field(msg3FreqResource, FREQ_RSRC_ALLOC_SIZE)];
  }

  /** The rest of the grant. */
  method PackGrant(rarPdu: array<byte>, startByte: nat, startBit: nat, g: Msg3UlGrant, ghost head: seq<Field>)
    returns (bytePos: nat, bitPos: nat, ghost fs: seq<Field>)
    requires g.k2Index < 16 && g.mcs < 16 && g.tpc < 8 && g.csiReq < 2 && rarPdu.Length == RAR_PAYLOAD_SIZE
    requires startBit <= 7 && 8 * startByte + (7 - startBit) == Width(head) == 36 && Packed(rarPdu[..], Layout(head))
    modifies rarPdu
    ensures fs == head + [Field(g.k2Index, 4), Field(g.mcs, 4), Field(g.tpc, 3), Field(g.csiReq, 1)]
    ensures Packed(rarPdu[..], Layout(fs)) && bitPos <= 7 && 8 * bytePos + (7 - bitPos) == Width(fs) == 48
  {
    assert Pow2(1) == 2 && Pow2(3) == 8 && Pow2(4) == 16;
    bytePos, bitPos, fs := PackField(rarPdu, startByte, startBit, g.k2Index, 4, head);
    bytePos, bitPos, fs := PackField(rarPdu, bytePos, bitPos, g.mcs, 4, fs);
    bytePos, bitPos, fs := PackField(rarPdu, bytePos, bitPos, g.tpc, 3, fs);
    bytePos, bitPos, fs := PackField(rarPdu, bytePos, bitPos, g.csiReq, 1, fs);
  }

  /** The temporary C-RNTI and the two octets of padding. */
  method PackTail(rarPdu: array<byte>, startByte: nat, startBit: nat, tcrnti: nat, ghost head: seq<Field>)
    returns (bytePos: nat, bitPos: nat, ghost fs: seq<Field>)
    requires tcrnti < 65536 && rarPdu.Length == RAR_PAYLOAD_SIZE
    requires startBit <= 7 && 8 * startByte + (7 - startBit) == Width(head) == 48 && Packed(rarPdu[..], Layout(head))
    modifies rarPdu
    ensures fs == head + [Field(tcrnti, 16), Field(0, 2), Field(PADDING_LCID, 6), Field(0, 8)]
    ensures Packed(rarPdu[..], Layout(fs)) && bitPos <= 7 && 8 * bytePos + (7 - bitPos) == Width(fs) == 80
  {
    assert Pow2(2) == 4 && Pow2(6) == 64 && Pow2(16) == 65536;
    bytePos, bitPos, fs := PackField(rarPdu, startByte, startBit, tcrnti, 16, head);
    bytePos, bitPos, fs := PackField(rarPdu, bytePos, bitPos, 0, 2, fs);
    bytePos, bitPos, fs := PackField(rarPdu, bytePos, bitPos, PADDING_LCID, 6, fs);
    bytePos, bitPos, fs := PackField(rarPdu, bytePos, bitPos, 0, 8, fs);
  }

  /** The five groups make up the PDU. */
  lemma InOrder(r: RarInfo)
    ensures var g := r.ulGrant;
      [Field(0, 1), Field(1, 1), Field(r.rapid, 6)] + [Field(0, 1), Field(r.ta, 12), Field(g.freqHopFlag, 1)]
      + [Field(Msg3FreqResource(g), FREQ_RSRC_ALLOC_SIZE)]
      + [Field(g.k2Index, 4), Field(g.mcs, 4), Field(g.tpc, 3), Field(g.csiReq, 1)]
      + [Field(r.tcrnti, 16), Field(0, 2), Field(PADDING_LCID, 6), Field(0, 8)] == RarFields(r)
  {
  }

  /** The packBytes calls on the cleared PDU. */
  method PackFields(rarPdu: array<byte>, r: RarInfo) returns (bytePos: nat, bitPos: nat)
    requires r.Valid() && rarPdu.Length == RAR_PAYLOAD_SIZE && Packed(rarPdu[..], Layout([]))
    modifies rarPdu
    ensures bitPos <= 7 && 8 * bytePos + (7 - bitPos) == Width(RarFields(r)) == 80
    ensures Packed(rarPdu[..], Layout(RarFields(r)))
  {
    InOrder(r);
    ghost var fs;
    bytePos, bitPos, fs := PackSubheader(rarPdu, r.rapid);
    bytePos, bitPos, fs := PackHead(rarPdu, bytePos, bitPos, r.ta, r.ulGrant.freqHopFlag, fs);
    bytePos, bitPos, fs := PackFreqResource(rarPdu, bytePos, bitPos, r.ulGrant, fs);
    bytePos, bitPos, fs := PackGrant(rarPdu, bytePos, bitPos, r.ulGrant, fs);
    bytePos, bitPos, fs := PackTail(rarPdu, bytePos, bitPos, r.tcrnti, fs);
  }

  method FillRarPdu(rarPdu: array<byte>, r: RarInfo) returns (bytePos: nat, bitPos: nat)
    requires r.Valid() && rarPdu.Length == RAR_PAYLOAD_SIZE
    modifies rarPdu
    ensures bytePos == RAR_PAYLOAD_SIZE && bitPos == 7
    ensures Flat(rarPdu[..]) == Layout(RarFields(r))
  {
    ClearOctets(rarPdu, RAR_PAYLOAD_SIZE);
    assert rarPdu[..RAR_PAYLOAD_SIZE] == rarPdu[..];
    bytePos, bitPos := PackFields(rarPdu, r);
    PackedToTheEnd(rarPdu[..], Layout(RarFields(r)));
  }

  // ---------------------------------------------------------------- receiver

  const RAR_SIZES: seq<nat> := [1, 1, 6, 1, 12, 1, 14, 4, 4, 3, 1, 16, 2, 6, 8]

  /** What a UE with the same bandwidth part reads out of the ten octets. */
  function DecodeRar(octets: seq<byte>, bwpSize: nat): RarInfo
    requires |octets| == RAR_PAYLOAD_SIZE && bwpSize >= 1
  {
    assert Total(RAR_SIZES) == 80 by { RarSizesTotal(); }
    FromValues(Parse(Flat(octets), RAR_SIZES), bwpSize)
  }

  function FromValues(v: seq<nat>, bwpSize: nat): RarInfo
    requires |v| == 15 && bwpSize >= 1
  {
    var alloc := if v[6] < bwpSize * (bwpSize + 1) / 2 then Riv.Decode(bwpSize, v[6]) else Riv.PrbAlloc(0, 0);
    RarInfo(v[2], v[4], Msg3UlGrant(v[5], bwpSize, alloc, v[7], v[8], v[9], v[10]), v[11])
  }

  lemma RarParsed(octets: seq<byte>, r: RarInfo)
    requires r.Valid() && |octets| == RAR_PAYLOAD_SIZE && Flat(octets) == Layout(RarFields(r))
    ensures Total(RAR_SIZES) == 80 && Parse(Flat(octets), RAR_SIZES) == Values(RarFields(r))
  {
    RarSizesTotal();
    ParsedLikewise(octets, r, RAR_SIZES);
  }

  lemma ParsedLikewise(octets: seq<byte>, r: RarInfo, sizes: seq<nat>)
    requires r.Valid() && Flat(octets) == Layout(RarFields(r)) && sizes == RAR_SIZES && Total(sizes) == 80
    requires |octets| == RAR_PAYLOAD_SIZE
    ensures Parse(Flat(octets), sizes) == Values(RarFields(r))
  {
    RarFieldsFit(r);
    ParseLayout(RarFields(r));
    RarSizesAre(r);
  }

  lemma RarSizesAre(r: RarInfo)
    ensures Sizes(RarFields(r)) == RAR_SIZES
  {
  }

  lemma RarSizesTotal()
    ensures Total(RAR_SIZES) == 80
  {
    var r := RarInfo(0, 0, Msg3UlGrant(0, 1, Riv.PrbAlloc(0, 1), 0, 0, 0, 0), 0);
    RarSizesAre(r);
    RarFieldsFit(r);
    ParseLayout(RarFields(r));
    RarWidth(r);
  }

  lemma RarWidth(r: RarInfo)
    ensures Width(RarFields(r)) == 80
  {
    var fs := RarFields(r);
    WidthPrefix(fs, 5); WidthPrefix(fs, 10); WidthPrefix(fs, 15);
    assert fs[..15] == fs;
  }

  // Five more fields of the width sum.
  lemma WidthPrefix(fs: seq<Field>, k: nat)
    requires 5 <= k <= |fs|
    ensures Width(fs[..k])
      == Width(fs[..k - 5]) + fs[k - 5].size + fs[k - 4].size + fs[k - 3].size + fs[k - 2].size + fs[k - 1].size
  {
    WidthStep(fs, k); WidthStep(fs, k - 1); WidthStep(fs, k - 2); WidthStep(fs, k - 3); WidthStep(fs, k - 4);
  }

  lemma WidthStep(fs: seq<Field>, k: nat)
    requires 1 <= k <= |fs|
    ensures Width(fs[..k]) == Width(fs[..k - 1]) + fs[k - 1].size
  {
    assert fs[..k][..k - 1] == fs[..k - 1];
  }

  /** The response a UE understands: an allocation that does not fit is sent as the value 0, which
      names one PRB at the start. */
  function Understood(r: RarInfo): RarInfo {
    if Riv.Valid(r.ulGrant.bwpSize, r.ulGrant.msg3FreqAlloc) then r
    else r.(ulGrant := r.ulGrant.(msg3FreqAlloc := Riv.PrbAlloc(0, 1)))
  }

  lemma ZeroNamesOnePrb(n: nat)
    requires n >= 1
    ensures 0 < n * (n + 1) / 2 && Riv.Decode(n, 0) == Riv.PrbAlloc(0, 1)
  {
    Riv.EncodeInRangeAndInvertible(n, Riv.PrbAlloc(0, 1));
  }

  lemma FromRarFields(r: RarInfo)
    requires r.Valid()
    ensures |Values(RarFields(r))| == 15 && FromValues(Values(RarFields(r)), r.ulGrant.bwpSize) == Understood(r)
  {
    if Riv.Valid(r.ulGrant.bwpSize, r.ulGrant.msg3FreqAlloc) {
      Riv.EncodeInRangeAndInvertible(r.ulGrant.bwpSize, r.ulGrant.msg3FreqAlloc);
    } else {
      ZeroNamesOnePrb(r.ulGrant.bwpSize);
    }
  }

  /** The ten octets carry exactly the response: the UE reads back every field, and the PRBs when
      they fit the bandwidth part. */
  lemma RarRoundTrip(octets: seq<byte>, r: RarInfo)
    requires r.Valid() && |octets| == RAR_PAYLOAD_SIZE && Flat(octets) == Layout(RarFields(r))
    ensures DecodeRar(octets, r.ulGrant.bwpSize) == Understood(r)
    ensures DecodeRar(octets, r.ulGrant.bwpSize) == r <==>
      Riv.Valid(r.ulGrant.bwpSize, r.ulGrant.msg3FreqAlloc) || r.ulGrant.msg3FreqAlloc == Riv.PrbAlloc(0, 1)
  {
    RarParsed(octets, r);
    FromRarFields(r);
  }

  /** The bits that are the same in every response: E = 0 and T = 1 (one RAPID), the reserved bits
      clear, and behind the response a padding subheader, LCID 63, with a clear octet. */
  lemma RarFixedBits(octets: seq<byte>, r: RarInfo, sizes: seq<nat>)
    requires r.Valid() && |octets| == RAR_PAYLOAD_SIZE && Flat(octets) == Layout(RarFields(r))
    requires sizes == [1, 1, 6, 1, 12, 1, 14, 4, 4, 3, 1, 16, 2, 6, 8]
    ensures Total(sizes) == 80
    ensures var v := Parse(Flat(octets), sizes);
      v[0] == 0 && v[1] == 1 && v[3] == 0 && v[12] == 0 && v[13] == 63 && v[14] == 0
  {
    RarSizesTotal();
    ParsedLikewise(octets, r, sizes);
    FixedValues(r, Values(RarFields(r)));
  }

  lemma FixedValues(r: RarInfo, v: seq<nat>)
    requires v == Values(RarFields(r))
    ensures |v| == 15 && v[0] == 0 && v[1] == 1 && v[3] == 0 && v[12] == 0 && v[13] == 63 && v[14] == 0
  {
  }
}
