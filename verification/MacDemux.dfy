/**
 Demultiplexing of an uplink MAC PDU, section 6.1.2 of TS 38.321, as coded and
 with the length field read the way its own comment intends.
 */
module MacDemux {
  import opened Common
  import opened BitString

  const MAC_LCID_CCCH := 0
  const MAC_LCID_MAX := 32
  const MAC_LCID_SHORT_BSR := 61
  const MAC_LCID_LONG_BSR := 62
  const MAC_LCID_PADDING := 63
  const UL_CCCH_LEN := 6
  const MAX_NUM_LOGICAL_CHANNEL_GROUPS := 8

  /** What the demultiplexer hands on. Buffer status levels stay table indices. */
  datatype Event =
    | UlCcch(data: seq<byte>)
    | UlData(lcid: nat, data: seq<byte>)
    | ShortBsr(lcg: nat, level: nat)
    | LongBsr(volumes: seq<(nat, nat)>)

  /** How the loop ends. `Stuck`: an LCID that consumes nothing, on which the C loop spins.
      `Overrun`: the next read lies beyond the PDU. */
  datatype Ending = AtEnd | AtPadding | Stuck(lcid: nat) | Overrun

  datatype Demuxed = Demuxed(events: seq<Event>, ending: Ending)

  /** Two places where a reading has to be chosen: the 16-bit length, and the width of the index. */
  datatype Reading = Reading(codedLength: bool, wrappedIndex: bool)

  const AS_CODED := Reading(true, true)
  const CODED_LENGTH_ONLY := Reading(true, false)
  const INTENDED := Reading(false, false)

  /** The six least significant bits of the first octet. */
  function LcidOf(header: byte): nat {
    header % 64
  }

  /** An 8-bit index after `i` increments. */
  function Wrap(i: nat): (r: nat)
    ensures r < 256 && r <= i && (i < 256 ==> r == i)
  {
    if i < 256 then i else Wrap(i - 256)
  }

  /** Where the index points in the PDU. */
  function Phys(i: nat, m: Reading): nat {
    if m.wrappedIndex then Wrap(i) else i
  }

  function OctetAt(pdu: seq<byte>, i: nat, m: Reading): byte
    requires i < |pdu|
  {
    pdu[Phys(i, m)]
  }

  /** Coded: bit 7 of the header, the reserved bit. Intended: bit 6, the F bit. */
  predicate LongLength(header: byte, m: Reading) {
    if m.codedLength then header >= 128 else header % 128 >= 64
  }

  /** Coded: `(hi << 8) & lo`, which is zero (see CodedLengthIsZero). Intended: the big-endian pair. */
  function WideLength(hi: byte, lo: byte, m: Reading): nat {
    if m.codedLength then 0 else 256 * hi + lo
  }

  /** `a & b` */
  function And(a: nat, b: nat): nat {
    if a == 0 then 0 else 2 * And(a / 2, b / 2) + (if a % 2 == 1 && b % 2 == 1 then 1 else 0)
  }

  lemma {:induction false} AndAbove(hi: nat, lo: nat, s: nat)
    requires lo < Pow2(s)
    ensures And(Shl(hi, s), lo) == 0
  {
    if s > 0 {
      AndAbove(hi, lo / 2, s - 1);
    } else {
      AndZero(hi);
    }
  }

  lemma {:induction false} AndZero(a: nat)
    ensures And(a, 0) == 0
  {
    if a > 0 { AndZero(a / 2); }
  }

  /** The coded 16-bit length keeps no bit of either octet. */
  lemma CodedLengthIsZero(hi: byte, lo: byte)
    ensures And(Shl(hi, 8), lo) == 0
  {
    assert Pow2(8) == 256;
    AndAbove(hi, lo, 8);
  }

  /** The SDU at index `i` with `len` octets left: octets used by the subheader, and payload length. */
  function SduShape(pdu: seq<byte>, i: nat, len: nat, m: Reading): Option<(nat, nat)>
    requires i + len == |pdu| && len > 0
  {
    if len < 2 then None
    else if !LongLength(OctetAt(pdu, i, m), m) then
      var n := OctetAt(pdu, i + 1, m);
      if 2 + n <= len then Some((2, n as nat)) else None
    else if len < 3 then None
    else
      var n := WideLength(OctetAt(pdu, i + 1, m), OctetAt(pdu, i + 2, m), m);
      if 3 + n <= len then Some((3, n)) else None
  }

  function Payload(pdu: seq<byte>, i: nat, n: nat, m: Reading): seq<byte>
    requires i + n <= |pdu|
  {
    pdu[Phys(i, m)..Phys(i, m) + n]
  }

  /** How many groups a long BSR bitmap announces. */
  function GroupCount(bitmap: nat): nat {
    if bitmap == 0 then 0 else bitmap % 2 + GroupCount(bitmap / 2)
  }

  /** The levels of the groups announced by `bitmap`, whose lowest bit is group `g`; level 0 is dropped. */
  function Volumes(pdu: seq<byte>, bitmap: nat, g: nat, i: nat, m: Reading): seq<(nat, nat)>
    requires i + GroupCount(bitmap) <= |pdu|
    decreases bitmap
  {
    if bitmap == 0 then []
    else if bitmap % 2 == 1 then
      var level := OctetAt(pdu, i, m);
      (if level > 0 then [(g, level as nat)] else []) + Volumes(pdu, bitmap / 2, g + 1, i + 1, m)
    else Volumes(pdu, bitmap / 2, g + 1, i, m)
  }

  /** One turn of the loop: the sub-PDU at `i` and how many octets it takes, or why the loop ends. */
  datatype Turn = Take(event: Event, used: pos) | Stop(ending: Ending)

  type pos = x: int | 0 < x witness 1

  function SduTurn(pdu: seq<byte>, i: nat, len: nat, lcid: nat, m: Reading): (t: Turn)
    requires i + len == |pdu| && len > 0
    ensures t.Take? ==> t.used <= len
  {
    match SduShape(pdu, i, len, m) {
      case None => Stop(Overrun)
      case Some(shape) => Take(UlData(lcid, Payload(pdu, i + shape.0, shape.1, m)), shape.0 + shape.1)
    }
  }

  function LongBsrTurn(pdu: seq<byte>, i: nat, len: nat, m: Reading): (t: Turn)
    requires i + len == |pdu| && len > 0
    ensures t.Take? ==> t.used <= len
  {
    if len < 2 then Stop(Overrun)
    else
      var bitmap := OctetAt(pdu, i + 1, m);
      if len < 2 + GroupCount(bitmap) then Stop(Overrun)
      else Take(LongBsr(Volumes(pdu, bitmap, 0, i + 2, m)), 2 + GroupCount(bitmap))
  }

  function DemuxTurn(pdu: seq<byte>, i: nat, len: nat, m: Reading): (t: Turn)
    requires i + len == |pdu| && len > 0
    ensures t.Take? ==> t.used <= len
  {
    var header := OctetAt(pdu, i, m);
    var lcid := LcidOf(header);
    if lcid == MAC_LCID_CCCH then
      if len < 1 + UL_CCCH_LEN then Stop(Overrun)
      else Take(UlCcch(Payload(pdu, i + 1, UL_CCCH_LEN, m)), 1 + UL_CCCH_LEN)
    else if lcid <= MAC_LCID_MAX then SduTurn(pdu, i, len, lcid, m)
    else if lcid == MAC_LCID_SHORT_BSR then
      if len < 2 then Stop(Overrun)
      else
        var octet := OctetAt(pdu, i + 1, m);
        Take(ShortBsr(octet / 32, octet % 32), 2)
    else if lcid == MAC_LCID_LONG_BSR then LongBsrTurn(pdu, i, len, m)
    else if lcid == MAC_LCID_PADDING then Stop(AtPadding)
    else Stop(Stuck(lcid))
  }

  /** The turn at each index of a PDU. */
  function TurnsOf(pdu: seq<byte>, m: Reading): nat -> Turn {
    (i: nat) => if i < |pdu| then DemuxTurn(pdu, i, |pdu| - i, m) else Stop(AtEnd)
  }

  /** Turn after turn from `i`, until one stops or the end is reached. */
  function Walk(turns: nat -> Turn, i: nat, end: nat): Demuxed
    decreases end - i
  {
    if i >= end then Demuxed([], AtEnd)
    else
      match turns(i) {
        case Stop(ending) => Demuxed([], ending)
        case Take(event, used) => Prepend([event], Walk(turns, i + used, end))
      }
  }

  function Prepend(events: seq<Event>, d: Demuxed): Demuxed {
    Demuxed(events + d.events, d.ending)
  }

  /** What becomes of a received PDU. */
  function Demux(pdu: seq<byte>, m: Reading): Demuxed {
    Walk(TurnsOf(pdu, m), 0, |pdu|)
  }

  /** The SDU case: header, length field of one or two octets, payload. */
  method UnpackSdu(rxDataPdu: seq<byte>, idx: nat, len: nat, lcId: nat, m: Reading)
    returns (event: Option<Event>, rxPduIdx: nat, pduLen: nat)
    requires idx + len == |rxDataPdu| && len > 0
    ensures event.None? ==> SduTurn(rxDataPdu, idx, len, lcId, m) == Stop(Overrun)
    ensures event.Some? ==> pduLen < len && rxPduIdx + pduLen == |rxDataPdu|
    ensures event.Some? ==> SduTurn(rxDataPdu, idx, len, lcId, m) == Take(event.value, len - pduLen)
  {
    ghost var pdu := rxDataPdu;
    rxPduIdx, pduLen := idx, len;
    var fBit := LongLength(rxDataPdu[Phys(rxPduIdx, m)], m);
    if pduLen < 2 || (fBit && pduLen < 3) { return None, rxPduIdx, pduLen; }
    pduLen, rxPduIdx := pduLen - 1, rxPduIdx + 1;
    var length: nat := rxDataPdu[Phys(rxPduIdx, m)];
    assert length == OctetAt(pdu, idx + 1, m);
    if fBit {
      pduLen, rxPduIdx := pduLen - 1, rxPduIdx + 1;
      length := WideLength(length, rxDataPdu[Phys(rxPduIdx, m)], m);
    }
    pduLen, rxPduIdx := pduLen - 1, rxPduIdx + 1;
    if length > pduLen { return None, rxPduIdx, pduLen; }
    assert rxDataPdu[Phys(rxPduIdx, m)..Phys(rxPduIdx, m) + length] == Payload(pdu, rxPduIdx, length, m);
    event := Some(UlData(lcId, rxDataPdu[Phys(rxPduIdx, m)..Phys(rxPduIdx, m) + length]));
    pduLen, rxPduIdx := pduLen - length, rxPduIdx + length;
  }

  /** The long BSR case: bitmap octet, then one octet for each announced group. */
  method UnpackBsr(rxDataPdu: seq<byte>, idx: nat, len: nat, m: Reading)
    returns (event: Option<Event>, rxPduIdx: nat, pduLen: nat)
    requires idx + len == |rxDataPdu| && len > 0
    ensures event.None? ==> LongBsrTurn(rxDataPdu, idx, len, m) == Stop(Overrun)
    ensures event.Some? ==> pduLen < len && rxPduIdx + pduLen == |rxDataPdu|
    ensures event.Some? ==> LongBsrTurn(rxDataPdu, idx, len, m) == Take(event.value, len - pduLen)
  {
    rxPduIdx, pduLen := idx, len;
    if pduLen < 2 { return None, rxPduIdx, pduLen; }
    pduLen, rxPduIdx := pduLen - 1, rxPduIdx + 1;
    var bitmap := rxDataPdu[Phys(rxPduIdx, m)];
    pduLen, rxPduIdx := pduLen - 1, rxPduIdx + 1;
    if pduLen < GroupCount(bitmap) { return None, rxPduIdx, pduLen; }
    var dataVolInfo;
    dataVolInfo, rxPduIdx := UnpackVolumes(rxDataPdu, bitmap, rxPduIdx, m);
    pduLen := |rxDataPdu| - rxPduIdx;
    event := Some(LongBsr(dataVolInfo));
  }

  /** One turn of the loop: the switch on the LCID. */
  method UnpackTurn(rxDataPdu: seq<byte>, idx: nat, len: nat, m: Reading)
    returns (t: Turn, rxPduIdx: nat, pduLen: nat)
    requires idx + len == |rxDataPdu| && len > 0
    ensures t == DemuxTurn(rxDataPdu, idx, len, m)
    ensures t.Take? ==> rxPduIdx == idx + t.used && pduLen == len - t.used
  {
    rxPduIdx, pduLen := idx, len;
    var lcId := LcidOf(rxDataPdu[Phys(rxPduIdx, m)]);
    var event: Option<Event> := None;
    if lcId == MAC_LCID_CCCH {
      if pduLen < 1 + UL_CCCH_LEN { return Stop(Overrun), rxPduIdx, pduLen; }
      pduLen, rxPduIdx := pduLen - 1, rxPduIdx + 1;
      event := Some(UlCcch(rxDataPdu[Phys(rxPduIdx, m)..Phys(rxPduIdx, m) + UL_CCCH_LEN]));
      pduLen, rxPduIdx := pduLen - UL_CCCH_LEN, rxPduIdx + UL_CCCH_LEN;
    } else if lcId <= MAC_LCID_MAX {
      event, rxPduIdx, pduLen := UnpackSdu(rxDataPdu, rxPduIdx, pduLen, lcId, m);
    } else if lcId == MAC_LCID_SHORT_BSR {
      if pduLen < 2 { return Stop(Overrun), rxPduIdx, pduLen; }
      pduLen, rxPduIdx := pduLen - 1, rxPduIdx + 1;
      var octet := rxDataPdu[Phys(rxPduIdx, m)];
      event := Some(ShortBsr(octet / 32, octet % 32));
      pduLen, rxPduIdx := pduLen - 1, rxPduIdx + 1;
    } else if lcId == MAC_LCID_LONG_BSR {
      event, rxPduIdx, pduLen := UnpackBsr(rxDataPdu, rxPduIdx, pduLen, m);
    } else {
      return Stop(if lcId == MAC_LCID_PADDING then AtPadding else Stuck(lcId)), rxPduIdx, pduLen;
    }
    t := if event.None? then Stop(Overrun) else Take(event.value, len - pduLen);
  }

  /** unpackRxData: the walk over the received buffer, with `pduLen` octets still undecoded. */
  method UnpackRxData(rxDataPdu: seq<byte>, m: Reading) returns (events: seq<Event>, ending: Ending)
    ensures Demuxed(events, ending) == Demux(rxDataPdu, m)
  {
    events, ending := [], AtEnd;
    var rxPduIdx: nat, pduLen: nat := 0, |rxDataPdu|;
    ghost var turns := TurnsOf(rxDataPdu, m);
    WalkStep(turns, 0, |rxDataPdu|, []);
    while pduLen > 0
      invariant rxPduIdx + pduLen == |rxDataPdu|
      invariant Demux(rxDataPdu, m) == Prepend(events, Walk(turns, rxPduIdx, |rxDataPdu|))
      decreases pduLen
    {
      WalkStep(turns, rxPduIdx, |rxDataPdu|, events);
      var t;
      t, rxPduIdx, pduLen := UnpackTurn(rxDataPdu, rxPduIdx, pduLen, m);
      if t.Stop? { return events, t.ending; }
      events := events + [t.event];
    }
    assert events + [] == events;
  }

  lemma WalkStep(turns: nat -> Turn, i: nat, end: nat, before: seq<Event>)
    ensures before == [] ==> Walk(turns, i, end) == Prepend(before, Walk(turns, i, end))
    ensures i < end && turns(i).Stop? ==> Prepend(before, Walk(turns, i, end)) == Demuxed(before, turns(i).ending)
    ensures i < end && turns(i).Take? ==>
      Prepend(before, Walk(turns, i, end)) == Prepend(before + [turns(i).event], Walk(turns, i + turns(i).used, end))
  {
    assert before + [] == before;
    if before == [] { assert before + Walk(turns, i, end).events == Walk(turns, i, end).events; }
    if i < end && turns(i).Take? {
      var rest := Walk(turns, i + turns(i).used, end).events;
      assert before + ([turns(i).event] + rest) == before + [turns(i).event] + rest;
    }
  }

  /** One group of the bitmap: the octet it takes, if any, and the volume it adds. */
  lemma VolumesStep(pdu: seq<byte>, rest: nat, g: nat, i: nat, m: Reading, done: seq<(nat, nat)>)
    requires i + GroupCount(rest) <= |pdu|
    ensures rest % 2 == 1 ==> i < |pdu|
    ensures
      var next := i + rest % 2;
      var one: seq<(nat, nat)> :=
        if rest % 2 == 1 && OctetAt(pdu, i, m) > 0 then [(g, OctetAt(pdu, i, m) as nat)] else [];
      next + GroupCount(rest / 2) == i + GroupCount(rest) &&
      done + Volumes(pdu, rest, g, i, m) == (done + one) + Volumes(pdu, rest / 2, g + 1, next, m)
  {
    var next := i + rest % 2;
    if rest != 0 {
      var one: seq<(nat, nat)> :=
        if rest % 2 == 1 && OctetAt(pdu, i, m) > 0 then [(g, OctetAt(pdu, i, m) as nat)] else [];
      assert Volumes(pdu, rest, g, i, m) == one + Volumes(pdu, rest / 2, g + 1, next, m);
    }
  }

  /** One group: its buffer size octet is there when its bit is set, and counts when not zero. */
  method UnpackGroup(rxDataPdu: seq<byte>, bitmap: byte, lcgIdx: nat, start: nat, m: Reading)
    returns (one: seq<(nat, nat)>, rxPduIdx: nat)
    requires Bit(bitmap, lcgIdx) ==> start < |rxDataPdu|
    ensures rxPduIdx == if Bit(bitmap, lcgIdx) then start + 1 else start
    ensures one == if Bit(bitmap, lcgIdx) && OctetAt(rxDataPdu, start, m) > 0
                   then [(lcgIdx, OctetAt(rxDataPdu, start, m) as nat)] else []
  {
    one, rxPduIdx := [], start;
    if Bit(bitmap, lcgIdx) {
      var level := rxDataPdu[Phys(rxPduIdx, m)];
      if level > 0 {
        one := [(lcgIdx, level as nat)];
      }
      rxPduIdx := rxPduIdx + 1;
    }
  }

  /** The loop over the logical channel groups of a long BSR. */
  method UnpackVolumes(rxDataPdu: seq<byte>, bitmap: byte, start: nat, m: Reading)
    returns (dataVolInfo: seq<(nat, nat)>, rxPduIdx: nat)
    requires start + GroupCount(bitmap) <= |rxDataPdu|
    ensures rxPduIdx == start + GroupCount(bitmap)
    ensures dataVolInfo == Volumes(rxDataPdu, bitmap, 0, start, m)
  {
    dataVolInfo, rxPduIdx := [], start;
    var lcgIdx: nat := 0;
    ghost var rest: nat, room: nat := bitmap, 8;
    ghost var all := Volumes(rxDataPdu, bitmap, 0, start, m);
    UnreadAll(bitmap);
    while lcgIdx < MAX_NUM_LOGICAL_CHANNEL_GROUPS
      invariant lcgIdx + room == MAX_NUM_LOGICAL_CHANNEL_GROUPS && Unread(bitmap, lcgIdx, rest, room)
      invariant rxPduIdx + GroupCount(rest) == start + GroupCount(bitmap)
      invariant dataVolInfo + Volumes(rxDataPdu, rest, lcgIdx, rxPduIdx, m) == all
    {
      UnreadStep(bitmap, lcgIdx, rest, room);
      VolumesStep(rxDataPdu, rest, lcgIdx, rxPduIdx, m, dataVolInfo);
      var one;
      one, rxPduIdx := UnpackGroup(rxDataPdu, bitmap, lcgIdx, rxPduIdx, m);
      dataVolInfo := dataVolInfo + one;
      lcgIdx := lcgIdx + 1;
      rest, room := rest / 2, room - 1;
    }
    assert rest == 0 && dataVolInfo + [] == dataVolInfo;
  }

  /** After `k` groups, `rest` is what is left of the bitmap, at most `room` bits. */
  predicate Unread(bitmap: nat, k: nat, rest: nat, room: nat) {
    rest == Shr(bitmap, k) && rest < Pow2(room)
  }

  lemma UnreadAll(bitmap: byte)
    ensures Unread(bitmap, 0, bitmap, 8)
  {
    assert Pow2(8) == 256;
  }

  lemma UnreadStep(bitmap: nat, k: nat, rest: nat, room: nat)
    requires Unread(bitmap, k, rest, room) && room > 0
    ensures Bit(bitmap, k) == (rest % 2 == 1)
    ensures Unread(bitmap, k + 1, rest / 2, room - 1)
  {
    BitShr(bitmap, k, 0);
    ShrNext(bitmap, k);
  }

  lemma {:induction false} ShrNext(v: nat, s: nat)
    ensures Shr(v, s + 1) == Shr(v, s) / 2
  {
    if s > 0 { ShrNext(v / 2, s - 1); }
  }
}
