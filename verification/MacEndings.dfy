/**
 How demultiplexing ends on a PDU that is not well formed: everything before the fault is handed
 on, and the fault decides the ending.
 */
module MacEndings {
  import opened Common
  import opened BitString
  import opened MacDemux
  import opened MacRoundTrip
  import MacMux

  /** The first turn at a tail that follows well-formed sub-PDUs ends the walk. */
  lemma EndsInTail(subs: seq<SubPdu>, tail: seq<byte>, pdu: seq<byte>, ending: Ending)
    requires AllValid(subs) && tail != [] && pdu == EncodeAll(subs) + tail
    requires TurnsOf(pdu, INTENDED)(|EncodeAll(subs)|) == Stop(ending)
    ensures Demux(pdu, INTENDED) == Demuxed(Events(subs), ending)
  {
    var turns, body := TurnsOf(pdu, INTENDED), |EncodeAll(subs)|;
    DemuxOfEncoded(pdu, 0, subs, INTENDED);
    WalkReads(turns, 0, [], Events(subs), body, |pdu|);
    WalkStep(turns, 0, |pdu|, []);
    WalkStep(turns, body, |pdu|, Events(subs));
    assert [] + Events(subs) == Events(subs);
  }

  /** A subheader whose LCID the switch does not know, with any R and F bits: the loop would turn
      there forever. */
  predicate Unknown(header: byte) {
    32 < header % 64 < 61
  }

  lemma UnknownTurn(pdu: seq<byte>, i: nat)
    requires i < |pdu| && Unknown(pdu[i])
    ensures TurnsOf(pdu, INTENDED)(i) == Stop(Stuck(pdu[i] % 64))
  {
    assert OctetAt(pdu, i, INTENDED) == pdu[i];
    assert TurnsOf(pdu, INTENDED)(i) == DemuxTurn(pdu, i, |pdu| - i, INTENDED);
  }

  /** An unknown LCID after any handled sub-PDUs: they are handed on, and the loop gets stuck on
      it, whatever follows. */
  lemma UnknownLcidSticks(subs: seq<SubPdu>, tail: seq<byte>)
    requires AllValid(subs) && tail != [] && Unknown(tail[0])
    ensures Demux(EncodeAll(subs) + tail, INTENDED) == Demuxed(Events(subs), Stuck(tail[0] % 64))
  {
    var pdu := EncodeAll(subs) + tail;
    assert pdu[|EncodeAll(subs)|] == tail[0];
    UnknownTurn(pdu, |EncodeAll(subs)|);
    EndsInTail(subs, tail, pdu, Stuck(tail[0] % 64));
  }

  /** The PDU ends within the encoding of `s`, which starts at index i. */
  predicate CutAt(pdu: seq<byte>, i: nat, s: SubPdu)
    requires s.Valid()
  {
    i < |pdu| < i + |Encode(s)| && pdu[i..] == Encode(s)[..|pdu| - i]
  }

  lemma CutOctet(pdu: seq<byte>, i: nat, s: SubPdu, k: nat)
    requires s.Valid() && CutAt(pdu, i, s) && i + k < |pdu|
    ensures OctetAt(pdu, i + k, INTENDED) == Encode(s)[k]
  {
    assert pdu[i..][k] == Encode(s)[..|pdu| - i][k];
  }

  lemma CutSduTurn(pdu: seq<byte>, i: nat, s: SubPdu)
    requires s.Valid() && s.Sdu? && CutAt(pdu, i, s)
    ensures SduTurn(pdu, i, |pdu| - i, s.lcid, INTENDED) == Stop(Overrun)
  {
    CutOctet(pdu, i, s, 0);
    if i + 1 < |pdu| { CutOctet(pdu, i, s, 1); }
    if i + 2 < |pdu| { CutOctet(pdu, i, s, 2); }
  }

  lemma CutLongTurn(pdu: seq<byte>, i: nat, s: SubPdu)
    requires s.Valid() && s.Long? && CutAt(pdu, i, s)
    ensures LongBsrTurn(pdu, i, |pdu| - i, INTENDED) == Stop(Overrun)
  {
    if i + 1 < |pdu| {
      CutOctet(pdu, i, s, 1);
      GroupsAreOctets(s.levels);
    }
  }

  lemma {:induction false} GroupsAreOctets(levels: seq<Option<byte>>)
    ensures GroupCount(Bitmap(levels)) == |LevelOctets(levels)|
  {
    if levels != [] {
      GroupsAreOctets(levels[1..]);
      assert Bitmap(levels) / 2 == Bitmap(levels[1..]);
    }
  }

  /** The LCID decides which part of the turn is taken. */
  lemma CutLcid(pdu: seq<byte>, i: nat, s: SubPdu)
    requires s.Valid() && CutAt(pdu, i, s)
    ensures LcidOf(OctetAt(pdu, i, INTENDED)) ==
      match s
      case Ccch(_) => MAC_LCID_CCCH
      case Sdu(lcid, _) => lcid
      case Short(_, _) => MAC_LCID_SHORT_BSR
      case Long(_) => MAC_LCID_LONG_BSR
  {
    CutOctet(pdu, i, s, 0);
    if s.Sdu? { assert Encode(s)[0] == MacMux.Subheader(s.lcid, |s.data|)[0]; }
  }

  /** A sub-PDU of fixed length. */
  lemma CutFixedTurn(pdu: seq<byte>, i: nat, s: SubPdu)
    requires s.Valid() && (s.Ccch? || s.Short?) && CutAt(pdu, i, s)
    ensures DemuxTurn(pdu, i, |pdu| - i, INTENDED) == Stop(Overrun)
  {
    CutLcid(pdu, i, s);
  }

  lemma CutTurn(pdu: seq<byte>, i: nat, s: SubPdu)
    requires s.Valid() && CutAt(pdu, i, s)
    ensures DemuxTurn(pdu, i, |pdu| - i, INTENDED) == Stop(Overrun)
  {
    match s
    case Sdu(_, _) => CutLcid(pdu, i, s); CutSduTurn(pdu, i, s);
    case Long(_) => CutLcid(pdu, i, s); CutLongTurn(pdu, i, s);
    case _ => CutFixedTurn(pdu, i, s);
  }

  lemma CutEnds(pdu: seq<byte>, i: nat, s: SubPdu)
    requires s.Valid() && CutAt(pdu, i, s)
    ensures TurnsOf(pdu, INTENDED)(i) == Stop(Overrun)
  {
    CutTurn(pdu, i, s);
  }

  lemma TailIsCut(body: seq<byte>, s: SubPdu, tail: seq<byte>)
    requires s.Valid() && 0 < |tail| < |Encode(s)| && tail == Encode(s)[..|tail|]
    ensures CutAt(body + tail, |body|, s)
  {
    assert (body + tail)[|body|..] == tail;
  }

  /** A PDU that is cut within its last sub-PDU, wherever that is: the sub-PDUs before it are
      handed on, and the next read lies beyond the PDU. */
  lemma TruncatedOverruns(subs: seq<SubPdu>, s: SubPdu, n: nat)
    requires AllValid(subs) && s.Valid() && 0 < n < |Encode(s)|
    ensures Demux(EncodeAll(subs) + Encode(s)[..n], INTENDED) == Demuxed(Events(subs), Overrun)
  {
    var body, tail := EncodeAll(subs), Encode(s)[..n];
    TailIsCut(body, s, tail);
    CutEnds(body + tail, |body|, s);
    EndsInTail(subs, tail, body + tail, Overrun);
  }
}
