/**
 The downlink PDU as the UE reads it, section 6.1.2 of TS 38.321, and MSG4, whose control element
 answers the identity of MSG3.
 */
module MacDownlink {
  import opened Common
  import opened BitString
  import opened MacMux
  import MacDemux

  /** The sub-PDUs of the downlink: the contention resolution identity, and SDUs. */
  datatype DlSub = Cri(identity: seq<byte>) | DlSdu(lcid: nat, data: seq<byte>)

  /** What the UE gets, and the octets from the padding on, or those it cannot read. */
  datatype DlRead = DlRead(subs: seq<DlSub>, rest: seq<byte>)

  function Before(sub: DlSub, d: DlRead): DlRead {
    DlRead([sub] + d.subs, d.rest)
  }

  /** R/F/LCID: F tells a length of two octets from one of one octet. */
  function SduOf(pdu: seq<byte>): Option<(nat, nat)>
    requires pdu != []
  {
    var head := if pdu[0] % 128 < 64 then 2 else 3;
    if |pdu| < head then None
    else
      var n := if head == 2 then pdu[1] as nat else 256 * (pdu[1] as nat) + pdu[2] as nat;
      if |pdu| < head + n then None else Some((head, n))
  }

  function Read(pdu: seq<byte>): DlRead
    decreases |pdu|
  {
    if pdu == [] then DlRead([], [])
    else
      var lcid := pdu[0] % 64;
      if lcid == 62 && |pdu| >= 7 then Before(Cri(pdu[1..7]), Read(pdu[7..]))
      else if lcid <= 32 && SduOf(pdu).Some? then
        var (head, n) := SduOf(pdu).value;
        Before(DlSdu(lcid, pdu[head..head + n]), Read(pdu[head + n..]))
      else DlRead([], pdu)
  }

  // ------------------------------------------------------------------ what is to be delivered

  function OfCe(ce: MacCe): seq<DlSub> {
    if ce.lcid == 62 then [Cri(ce.value)] else []
  }

  function OfSdu(s: MacSdu): seq<DlSub> {
    if s.lcid <= 32 then [DlSdu(s.lcid, s.data)] else []
  }

  function OfCes(ces: seq<MacCe>): seq<DlSub> {
    if ces == [] then [] else OfCes(ces[..|ces| - 1]) + OfCe(ces[|ces| - 1])
  }

  function OfSdus(sdus: seq<MacSdu>): seq<DlSub> {
    if sdus == [] then [] else OfSdus(sdus[..|sdus| - 1]) + OfSdu(sdus[|sdus| - 1])
  }

  /** A padding subheader and clear octets, or nothing. */
  predicate IsPadding(octets: seq<byte>) {
    octets != [] ==> octets[0] == 63 && forall k :: 1 <= k < |octets| ==> octets[k] == 0
  }

  // ------------------------------------------------------------------ one sub-PDU

  function Prepend(subs: seq<DlSub>, d: DlRead): DlRead {
    DlRead(subs + d.subs, d.rest)
  }

  lemma ReadCe(ce: MacCe, rest: seq<byte>)
    requires ce.Valid()
    ensures Read(CeOctets(ce) + rest) == Prepend(OfCe(ce), Read(rest))
  {
    var pdu := CeOctets(ce) + rest;
    if ce.lcid == 62 {
      assert pdu[1..7] == ce.value && pdu[7..] == rest;
    } else {
      assert pdu == rest && [] + Read(rest).subs == Read(rest).subs;
    }
  }

  lemma SubheaderRead(s: MacSdu, rest: seq<byte>, head: nat)
    requires s.Valid() && s.lcid <= 32 && head == |Subheader(s.lcid, |s.data|)|
    ensures var pdu := SduOctets(s) + rest;
      SduOf(pdu) == Some((head, |s.data|)) && pdu[0] % 64 == s.lcid
  {
    var pdu, h := SduOctets(s) + rest, Subheader(s.lcid, |s.data|);
    assert pdu[0] == h[0] && pdu[1] == h[1];
    if |s.data| > 255 { assert pdu[2] == h[2]; }
  }

  lemma ReadSdu(s: MacSdu, rest: seq<byte>)
    requires s.Valid()
    ensures Read(SduOctets(s) + rest) == Prepend(OfSdu(s), Read(rest))
  {
    var pdu := SduOctets(s) + rest;
    if s.lcid <= 32 {
      var head := |Subheader(s.lcid, |s.data|)|;
      SubheaderRead(s, rest, head);
      assert pdu[head..head + |s.data|] == s.data && pdu[head + |s.data|..] == rest;
    } else {
      assert pdu == rest && [] + Read(rest).subs == Read(rest).subs;
    }
  }

  lemma ReadPadding(n: nat)
    ensures Read(Padding(n)) == DlRead([], Padding(n)) && IsPadding(Padding(n))
  {
  }

  // ------------------------------------------------------------------ whole PDUs

  lemma PrependTwice(a: seq<DlSub>, b: seq<DlSub>, d: DlRead)
    ensures Prepend(a, Prepend(b, d)) == Prepend(a + b, d)
  {
    Associate(a, b, d.subs);
  }

  lemma {:induction false} ReadCes(ces: seq<MacCe>, rest: seq<byte>)
    requires forall k :: 0 <= k < |ces| ==> ces[k].Valid()
    ensures Read(AllCeOctets(ces) + rest) == Prepend(OfCes(ces), Read(rest))
  {
    if ces == [] {
      assert AllCeOctets(ces) + rest == rest && [] + Read(rest).subs == Read(rest).subs;
    } else {
      var init, last := ces[..|ces| - 1], ces[|ces| - 1];
      Associate(AllCeOctets(init), CeOctets(last), rest);
      ReadCes(init, CeOctets(last) + rest);
      ReadCe(last, rest);
      PrependTwice(OfCes(init), OfCe(last), Read(rest));
    }
  }

  lemma {:induction false} ReadSdus(sdus: seq<MacSdu>, rest: seq<byte>)
    requires forall k :: 0 <= k < |sdus| ==> sdus[k].Valid()
    ensures Read(AllSduOctets(sdus) + rest) == Prepend(OfSdus(sdus), Read(rest))
  {
    if sdus == [] {
      assert AllSduOctets(sdus) + rest == rest && [] + Read(rest).subs == Read(rest).subs;
    } else {
      var init, last := sdus[..|sdus| - 1], sdus[|sdus| - 1];
      Associate(AllSduOctets(init), SduOctets(last), rest);
      ReadSdus(init, SduOctets(last) + rest);
      ReadSdu(last, rest);
      PrependTwice(OfSdus(init), OfSdu(last), Read(rest));
    }
  }

  /**
   The UE reads every contention resolution identity and every SDU of a multiplexed PDU, unchanged
   and in order, and then nothing but padding: for all lists of control elements and SDUs.
   */
  lemma UeReadsWhatWasMuxed(ces: seq<MacCe>, sdus: seq<MacSdu>, tbSize: nat)
    requires AllValid(ces, sdus) && |AllCeOctets(ces) + AllSduOctets(sdus)| <= tbSize
    ensures var d := Read(MuxPdu(ces, sdus, tbSize));
      && d.subs == OfCes(ces) + OfSdus(sdus) && IsPadding(d.rest)
      && |d.rest| == tbSize - |AllCeOctets(ces) + AllSduOctets(sdus)|
  {
    var a, b := AllCeOctets(ces), AllSduOctets(sdus);
    var padding := Padding(tbSize - |a + b|);
    Associate(a, b, padding);
    ReadCes(ces, b + padding);
    ReadSdus(sdus, padding);
    ReadPadding(|padding|);
    PrependTwice(OfCes(ces), OfSdus(sdus), Read(padding));
    assert OfCes(ces) + OfSdus(sdus) + [] == OfCes(ces) + OfSdus(sdus);
  }

  // ------------------------------------------------------------------ MSG4

  /** The control element of MSG4: the six octets kept of MSG3. */
  function Msg4Ce(msg3Pdu: seq<byte>): MacCe {
    MacCe(MAC_LCID_CRI, msg3Pdu)
  }

  /** The SDU of MSG4: RRC's message on CCCH. */
  function Msg4Sdu(msg4Pdu: seq<byte>): MacSdu {
    MacSdu(MacDemux.MAC_LCID_CCCH, msg4Pdu)
  }

  lemma Msg4Octets(msg3Pdu: seq<byte>, msg4Pdu: seq<byte>)
    requires |msg3Pdu| == MAX_CRI_SIZE && |msg4Pdu| < 65536
    ensures AllCeOctets([Msg4Ce(msg3Pdu)]) == CeOctets(Msg4Ce(msg3Pdu))
    ensures AllSduOctets([Msg4Sdu(msg4Pdu)]) == SduOctets(Msg4Sdu(msg4Pdu))
    ensures |CeOctets(Msg4Ce(msg3Pdu)) + SduOctets(Msg4Sdu(msg4Pdu))| == Msg4Length(msg4Pdu)
  {
    assert [Msg4Ce(msg3Pdu)][..0] == [] && [Msg4Sdu(msg4Pdu)][..0] == [];
  }

  /** The octets MSG4 takes before padding. */
  function Msg4Length(msg4Pdu: seq<byte>): nat {
    1 + MAX_CRI_SIZE + (if |msg4Pdu| > 255 then 3 else 2) + |msg4Pdu|
  }

  /** fillMsg4Pdu: the CCCH message and the identity of MSG3, multiplexed. The UE reads the
      identity first, then the message. */
  method FillMsg4Pdu(msg3Pdu: seq<byte>, msg4Pdu: seq<byte>, txPdu: array<byte>)
    requires |msg3Pdu| == MAX_CRI_SIZE && |msg4Pdu| < 65536 && Msg4Length(msg4Pdu) <= txPdu.Length
    modifies txPdu
    ensures Read(txPdu[..]).subs == [Cri(msg3Pdu), DlSdu(0, msg4Pdu)] && IsPadding(Read(txPdu[..]).rest)
  {
    Msg4Octets(msg3Pdu, msg4Pdu);
    UeReadsWhatWasMuxed([Msg4Ce(msg3Pdu)], [Msg4Sdu(msg4Pdu)], txPdu.Length);
    assert OfCes([Msg4Ce(msg3Pdu)]) == [Cri(msg3Pdu)] && OfSdus([Msg4Sdu(msg4Pdu)]) == [DlSdu(0, msg4Pdu)] by {
      assert [Msg4Ce(msg3Pdu)][..0] == [] && [Msg4Sdu(msg4Pdu)][..0] == [];
    }
    MacMuxPdu([Msg4Sdu(msg4Pdu)], [Msg4Ce(msg3Pdu)], txPdu);
  }

  /** MSG3: the CCCH subheader, the UE's message and padding. */
  function Msg3(identity: seq<byte>, pad: nat): seq<byte> {
    [MacDemux.MAC_LCID_CCCH] + identity + Padding(pad)
  }

  /** As built, the demultiplexer hands on exactly the six octets the UE sent in MSG3. */
  lemma Msg3IsHandedOn(identity: seq<byte>, pad: nat)
    requires |identity| == MacDemux.UL_CCCH_LEN
    ensures MacDemux.Demux(Msg3(identity, pad), MacDemux.AS_CODED)
      == MacDemux.Demuxed([MacDemux.UlCcch(identity)], if pad == 0 then MacDemux.AtEnd else MacDemux.AtPadding)
  {
    var pdu, turns := Msg3(identity, pad), MacDemux.TurnsOf(Msg3(identity, pad), MacDemux.AS_CODED);
    assert pdu[1..7] == identity;
    assert turns(0) == MacDemux.DemuxTurn(pdu, 0, |pdu|, MacDemux.AS_CODED);
    MacDemux.WalkStep(turns, 0, |pdu|, []);
    if pad > 0 {
      assert pdu[7] == MAC_LCID_PADDING;
      assert turns(7) == MacDemux.DemuxTurn(pdu, 7, |pdu| - 7, MacDemux.AS_CODED);
    }
    MacDemux.WalkStep(turns, 7, |pdu|, [MacDemux.UlCcch(identity)]);
  }

  /**
   Contention resolution: what the UE reads first in MSG4 is what it sent in MSG3, through the
   demultiplexer, the six octets `kept` of what it hands on, and the multiplexer.
   */
  lemma ContentionIsResolved(identity: seq<byte>, pad: nat, kept: seq<byte>, msg4Pdu: seq<byte>, tbSize: nat)
    requires |identity| == MacDemux.UL_CCCH_LEN == |kept| && |msg4Pdu| < 65536 && Msg4Length(msg4Pdu) <= tbSize
    requires MacDemux.UlCcch(kept) in MacDemux.Demux(Msg3(identity, pad), MacDemux.AS_CODED).events
    ensures |AllCeOctets([Msg4Ce(kept)]) + AllSduOctets([Msg4Sdu(msg4Pdu)])| <= tbSize
    ensures Read(MuxPdu([Msg4Ce(kept)], [Msg4Sdu(msg4Pdu)], tbSize)).subs == [Cri(identity), DlSdu(0, msg4Pdu)]
  {
    Msg3IsHandedOn(identity, pad);
    assert kept == identity;
    Msg4Octets(kept, msg4Pdu);
    UeReadsWhatWasMuxed([Msg4Ce(kept)], [Msg4Sdu(msg4Pdu)], tbSize);
    assert [Msg4Ce(kept)][..0] == [] && [Msg4Sdu(msg4Pdu)][..0] == [];
  }
}
