/**
 The DCI format 1_0 payload that schedules SIB1 (section 7.3.1.2.1 of TS 38.212),
 in the XFAPI build: no field is bit-reversed and the payload is filled from octet 0.
 */
module Sib1Dci {
  import opened BitString
  import opened BitPackers
  import Riv

  const FAPI_DCI_PAYLOAD_BYTE_LEN := 32

  /** What fillSib1DlDciPdu reads of the PDCCH configuration. `rowIndex` counts from 1. */
  datatype Sib1Sched = Sib1Sched(coresetSize: nat, alloc: Riv.PrbAlloc, rowIndex: nat, vrbPrbMapping: nat, mcs: nat,
                                 rv: nat) {
    predicate Valid() {
      1 <= coresetSize && 1 <= rowIndex <= 16 && vrbPrbMapping < 2 && mcs < 32 && rv < 4
    }
  }

  /** The width of the frequency field; no field at all for an allocation outside the coreset. */
  function FreqSize(s: Sib1Sched): nat
    requires s.Valid()
  {
    if Riv.Valid(s.coresetSize, s.alloc) then Riv.FieldWidth(s.coresetSize) else 0
  }

  function FreqValue(s: Sib1Sched): nat {
    if Riv.Valid(s.coresetSize, s.alloc) then Riv.Encode(s.coresetSize, s.alloc) else 0
  }

  function Sib1Fields(s: Sib1Sched): seq<Field>
    requires s.Valid()
  {
    [ Field(FreqValue(s), FreqSize(s)), Field(s.rowIndex - 1, 4), Field(s.vrbPrbMapping, 1), Field(s.mcs, 5),
      Field(s.rv, 2), Field(0, 1), Field(0, 15) ]
  }

  lemma Sib1FieldsFit(s: Sib1Sched)
    requires s.Valid()
    ensures AllFit(Sib1Fields(s))
  {
    Riv.WidthIsExact(s.coresetSize, FreqSize(s));
    assert Pow2(0) == 1 && Pow2(1) == 2 && Pow2(2) == 4 && Pow2(4) == 16 && Pow2(5) == 32;
  }

  class FapiDlDci {
    var payloadSizeBits: nat
    const payload: array<byte>

    constructor ()
      ensures payload.Length == FAPI_DCI_PAYLOAD_BYTE_LEN && fresh(payload)
    {
      payload := new byte[FAPI_DCI_PAYLOAD_BYTE_LEN](_ => 0);
    }

    method FillSib1DlDciPdu(s: Sib1Sched)
      requires s.Valid() && payload.Length == FAPI_DCI_PAYLOAD_BYTE_LEN
      modifies this`payloadSizeBits, payload
      ensures payloadSizeBits == FreqSize(s) + 28
      ensures var numBytes := (payloadSizeBits + 7) / 8;
        if numBytes > FAPI_DCI_PAYLOAD_BYTE_LEN then payload[..] == old(payload[..])
        else Packed(payload[..numBytes], Layout(Sib1Fields(s))) && payload[numBytes..] == old(payload[numBytes..])
    {
      var freqDomResAssignSize := FreqSize(s);
      payloadSizeBits := freqDomResAssignSize + 4 + 1 + 5 + 2 + 1 + 15;
      var numBytes := payloadSizeBits / 8;
      if payloadSizeBits % 8 != 0 {
        numBytes := numBytes + 1;
      }
      if numBytes > FAPI_DCI_PAYLOAD_BYTE_LEN {
        return;
      }
      ClearOctets(payload, numBytes);
      FillFields(s, numBytes);
    }

    /** The seven fillDlDciPayload calls. */
    method FillFields(s: Sib1Sched, ghost numBytes: nat)
      requires s.Valid() && 1 <= numBytes <= payload.Length && FreqSize(s) + 28 <= 8 * numBytes
      requires Packed(payload[..numBytes], [])
      modifies payload
      ensures Packed(payload[..numBytes], Layout(Sib1Fields(s)))
      ensures payload[numBytes..] == old(payload[numBytes..])
    {
      ghost var fs;
      var bytePos, bitPos;
      bytePos, bitPos, fs := FillAllocation(s, numBytes);
      bytePos, bitPos, fs := FillRest(s, numBytes, bytePos, bitPos, fs);
      assert fs == Sib1Fields(s);
    }

    method FillAllocation(s: Sib1Sched, ghost numBytes: nat) returns (bytePos: nat, bitPos: nat, ghost fs: seq<Field>)
      requires s.Valid() && 1 <= numBytes <= payload.Length && FreqSize(s) + 28 <= 8 * numBytes
      requires Packed(payload[..numBytes], [])
      modifies payload
      ensures fs == [Field(FreqValue(s), FreqSize(s)), Field(s.rowIndex - 1, 4), Field(s.vrbPrbMapping, 1)]
      ensures Packed(payload[..numBytes], Layout(fs)) && payload[numBytes..] == old(payload[numBytes..])
      ensures bitPos <= 8 && bytePos < payload.Length && 8 * bytePos + bitPos == Width(fs) == FreqSize(s) + 5
    {
      Riv.WidthIsExact(s.coresetSize, FreqSize(s));
      assert Pow2(0) == 1 && Pow2(1) == 2 && Pow2(4) == 16;
      fs := [];
      bytePos, bitPos := 0, 0;
      bytePos, bitPos, fs := FillDciField(payload, numBytes, bytePos, bitPos, FreqValue(s), FreqSize(s), fs);
      bytePos, bitPos, fs := FillDciField(payload, numBytes, bytePos, bitPos, s.rowIndex - 1, 4, fs);
      bytePos, bitPos, fs := FillDciField(payload, numBytes, bytePos, bitPos, s.vrbPrbMapping, 1, fs);
    }

    method FillRest(s: Sib1Sched, ghost numBytes: nat, startByte: nat, startBit: nat, ghost head: seq<Field>)
      returns (bytePos: nat, bitPos: nat, ghost fs: seq<Field>)
      requires s.Valid() && 1 <= numBytes <= payload.Length && startBit <= 8 && startByte < payload.Length
      requires 8 * startByte + startBit == Width(head) && Width(head) + 23 <= 8 * numBytes
      requires Packed(payload[..numBytes], Layout(head))
      modifies payload
      ensures fs == head + [Field(s.mcs, 5), Field(s.rv, 2), Field(0, 1), Field(0, 15)]
      ensures Packed(payload[..numBytes], Layout(fs)) && payload[numBytes..] == old(payload[numBytes..])
    {
      assert Pow2(1) == 2 && Pow2(2) == 4 && Pow2(5) == 32;
      bytePos, bitPos, fs := FillDciField(payload, numBytes, startByte, startBit, s.mcs, 5, head);
      bytePos, bitPos, fs := FillDciField(payload, numBytes, bytePos, bitPos, s.rv, 2, fs);
      bytePos, bitPos, fs := FillDciField(payload, numBytes, bytePos, bitPos, 0, 1, fs);
      bytePos, bitPos, fs := FillDciField(payload, numBytes, bytePos, bitPos, 0, 15, fs);
    }
  }

  // ---------------------------------------------------------------- receiver

  /** The field widths a UE with a coreset of this size expects. */
  function Sib1Sizes(coresetSize: nat): seq<nat>
    requires coresetSize >= 1
  {
    [Riv.FieldWidth(coresetSize), 4, 1, 5, 2, 1, 15]
  }

  /** The UE's view of the first `Total` bits of the payload. */
  function DecodeSib1(bits: seq<bool>, coresetSize: nat): Sib1Sched
    requires coresetSize >= 1 && |bits| == Total(Sib1Sizes(coresetSize))
  {
    FromValues(Parse(bits, Sib1Sizes(coresetSize)), coresetSize)
  }

  function FromValues(v: seq<nat>, coresetSize: nat): Sib1Sched
    requires coresetSize >= 1 && |v| == 7
  {
    var alloc :=
      if v[0] < coresetSize * (coresetSize + 1) / 2 then Riv.Decode(coresetSize, v[0]) else Riv.PrbAlloc(0, 0);
    Sib1Sched(coresetSize, alloc, v[1] + 1, v[2], v[3], v[4])
  }

  lemma Sib1FieldsParsed(payload: seq<byte>, s: Sib1Sched)
    requires s.Valid() && Riv.Valid(s.coresetSize, s.alloc)
    requires Packed(payload, Layout(Sib1Fields(s)))
    ensures Total(Sib1Sizes(s.coresetSize)) == Width(Sib1Fields(s)) <= 8 * |payload|
    ensures Parse(Flat(payload)[..Width(Sib1Fields(s))], Sib1Sizes(s.coresetSize)) == Values(Sib1Fields(s))
  {
    Sib1FieldsFit(s);
    assert Sizes(Sib1Fields(s)) == Sib1Sizes(s.coresetSize);
    PackedIsParsed(payload, Sib1Fields(s), Sib1Sizes(s.coresetSize));
  }

  lemma PackedIsParsed(payload: seq<byte>, fs: seq<Field>, sizes: seq<nat>)
    requires AllFit(fs) && Packed(payload, Layout(fs)) && sizes == Sizes(fs)
    ensures Total(sizes) == Width(fs) <= 8 * |payload|
    ensures Parse(Flat(payload)[..Width(fs)], sizes) == Values(fs)
  {
    ParseLayout(fs);
    assert Flat(payload)[..Width(fs)] == Layout(fs);
  }

  /** End to end: the packed payload, cut by the field widths, gives back the schedule. */
  lemma Sib1RoundTrip(payload: seq<byte>, s: Sib1Sched)
    requires s.Valid() && Riv.Valid(s.coresetSize, s.alloc)
    requires Packed(payload, Layout(Sib1Fields(s)))
    ensures Total(Sib1Sizes(s.coresetSize)) == Width(Sib1Fields(s)) <= 8 * |payload|
    ensures DecodeSib1(Flat(payload)[..Total(Sib1Sizes(s.coresetSize))], s.coresetSize) == s
  {
    Sib1FieldsParsed(payload, s);
    FromSib1Fields(s);
  }

  lemma FromSib1Fields(s: Sib1Sched)
    requires s.Valid() && Riv.Valid(s.coresetSize, s.alloc)
    ensures |Values(Sib1Fields(s))| == 7 && FromValues(Values(Sib1Fields(s)), s.coresetSize) == s
  {
    Riv.EncodeInRangeAndInvertible(s.coresetSize, s.alloc);
    var v := Values(Sib1Fields(s));
    assert v[0] == Riv.Encode(s.coresetSize, s.alloc) && v[1] == s.rowIndex - 1;
    assert v[2] == s.vrbPrbMapping && v[3] == s.mcs && v[4] == s.rv;
  }

  /** An allocation outside the coreset has no field: the UE finds the other six in 28 bits. The
      system information indicator is 0 (SIB1) and the reserved bits are clear in either case. */
  lemma Sib1OtherFields(payload: seq<byte>, s: Sib1Sched, freqSize: nat, sizes: seq<nat>)
    requires s.Valid() && Packed(payload, Layout(Sib1Fields(s))) && freqSize == FreqSize(s)
    requires sizes == [freqSize, 4, 1, 5, 2, 1, 15]
    ensures !Riv.Valid(s.coresetSize, s.alloc) ==> freqSize == 0
    ensures Total(sizes) == freqSize + 28 <= 8 * |payload|
    ensures Parse(Flat(payload)[..Total(sizes)], sizes)[1..] == [s.rowIndex - 1, s.vrbPrbMapping, s.mcs, s.rv, 0, 0]
  {
    Sib1FieldsFit(s);
    SizesAndValues(s, sizes);
    SevenSizes(sizes);
    PackedIsParsed(payload, Sib1Fields(s), sizes);
  }

  lemma SizesAndValues(s: Sib1Sched, sizes: seq<nat>)
    requires s.Valid() && sizes == [FreqSize(s), 4, 1, 5, 2, 1, 15]
    ensures Sizes(Sib1Fields(s)) == sizes
    ensures |Values(Sib1Fields(s))| == 7
    ensures Values(Sib1Fields(s))[1..] == [s.rowIndex - 1, s.vrbPrbMapping, s.mcs, s.rv, 0, 0]
  {
  }

  lemma SevenSizes(sizes: seq<nat>)
    requires |sizes| == 7
    ensures Total(sizes) == sizes[0] + sizes[1] + sizes[2] + sizes[3] + sizes[4] + sizes[5] + sizes[6]
  {
    assert sizes[..7] == sizes && sizes[..0] == [];
    forall k | 1 <= k <= 7 ensures Total(sizes[..k]) == Total(sizes[..k - 1]) + sizes[k - 1] {
      assert sizes[..k][..k - 1] == sizes[..k - 1];
    }
  }
}
