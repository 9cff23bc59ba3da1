/**
 The round trip as built, with the coded length test and the 8-bit index, for SDU lists of any
 length: what the demultiplexer finds where the index has come round.
 */
module MacAsCoded {
  import opened Common
  import opened BitString
  import opened MacDemux
  import opened MacRoundTrip
  import MacMux

  /** At index i, taken modulo 256, the PDU holds the subheader of the SDU and then its octets. */
  predicate FoundAt(pdu: seq<byte>, i: nat, s: MacMux.MacSdu) {
    && i + 2 + |s.data| <= |pdu|
    && pdu[Wrap(i)] < 128 && LcidOf(pdu[Wrap(i)]) == s.lcid && pdu[Wrap(i + 1)] == |s.data|
    && pdu[Wrap(i + 2)..Wrap(i + 2) + |s.data|] == s.data
  }

  predicate Delivers(t: Turn, event: Event) {
    t.Take? && t.event == event
  }

  /** A turn delivers a non-empty SDU exactly when it is found there, and then takes its octets. */
  lemma TurnDelivers(pdu: seq<byte>, i: nat, s: MacMux.MacSdu)
    requires s.Valid() && 1 <= s.lcid <= MAC_LCID_MAX && s.data != [] && i + |MacMux.SduOctets(s)| <= |pdu|
    ensures Delivers(TurnsOf(pdu, AS_CODED)(i), UlData(s.lcid, s.data)) <==> FoundAt(pdu, i, s)
    ensures Delivers(TurnsOf(pdu, AS_CODED)(i), UlData(s.lcid, s.data)) ==>
      TurnsOf(pdu, AS_CODED)(i).used == |MacMux.SduOctets(s)|
  {
    var lcid := LcidOf(OctetAt(pdu, i, AS_CODED));
    assert TurnsOf(pdu, AS_CODED)(i) == DemuxTurn(pdu, i, |pdu| - i, AS_CODED);
    if 1 <= lcid <= MAC_LCID_MAX {
      SduTurnDelivers(pdu, i, lcid, s);
    }
  }

  lemma SduTurnDelivers(pdu: seq<byte>, i: nat, lcid: nat, s: MacMux.MacSdu)
    requires s.Valid() && 1 <= s.lcid <= MAC_LCID_MAX && s.data != [] && i + |MacMux.SduOctets(s)| <= |pdu|
    requires lcid == LcidOf(OctetAt(pdu, i, AS_CODED))
    ensures Delivers(SduTurn(pdu, i, |pdu| - i, lcid, AS_CODED), UlData(s.lcid, s.data)) <==> FoundAt(pdu, i, s)
    ensures Delivers(SduTurn(pdu, i, |pdu| - i, lcid, AS_CODED), UlData(s.lcid, s.data)) ==>
      SduTurn(pdu, i, |pdu| - i, lcid, AS_CODED).used == |MacMux.SduOctets(s)|
  {
    if LongLength(OctetAt(pdu, i, AS_CODED), AS_CODED) {
      assert SduTurn(pdu, i, |pdu| - i, lcid, AS_CODED).Take? ==>
        |SduTurn(pdu, i, |pdu| - i, lcid, AS_CODED).event.data| == 0;
    }
  }

  // ------------------------------------------------------------------ the whole walk

  /** The turns at the given starts deliver the events and lead from one start to the next. */
  predicate Leads(turns: nat -> Turn, starts: seq<nat>, events: seq<Event>) {
    && |starts| == |events| + 1
    && forall j :: 0 <= j < |events| ==> TurnLeads(turns, starts[j], starts[j + 1], events[j])
  }

  predicate TurnLeads(turns: nat -> Turn, i: nat, next: nat, event: Event) {
    i < next && (Delivers(turns(i), event) ==> turns(i).used == next - i)
  }

  predicate AllDeliver(turns: nat -> Turn, starts: seq<nat>, events: seq<Event>, k: nat)
    requires |starts| == |events| + 1
  {
    forall j :: k <= j < |events| ==> Delivers(turns(starts[j]), events[j])
  }

  lemma {:induction false} Increasing(turns: nat -> Turn, starts: seq<nat>, events: seq<Event>, k: nat)
    requires Leads(turns, starts, events) && k <= |events|
    ensures starts[k] <= starts[|events|] && (k < |events| ==> starts[k] < starts[|events|])
    decreases |events| - k
  {
    if k < |events| { Increasing(turns, starts, events, k + 1); }
  }

  lemma OneTurn(turns: nat -> Turn, i: nat, next: nat, end: nat, event: Event, rest: seq<Event>, ending: Ending)
    requires i < end && TurnLeads(turns, i, next, event)
    ensures Walk(turns, i, end) == Demuxed([event] + rest, ending) <==>
      Delivers(turns(i), event) && Walk(turns, next, end) == Demuxed(rest, ending)
  {
    if turns(i).Take? {
      var after := Walk(turns, i + turns(i).used, end);
      assert Walk(turns, i, end) == Demuxed([turns(i).event] + after.events, after.ending);
      assert ([turns(i).event] + after.events)[0] == turns(i).event;
      assert ([turns(i).event] + after.events)[1..] == after.events && ([event] + rest)[1..] == rest;
      assert ([event] + rest)[0] == event;
    } else {
      assert |[event] + rest| > 0;
    }
  }

  /** The walk delivers the events and then ends as given, exactly when each turn delivers its
      event and the walk from the last start ends so at once. */
  lemma {:induction false} WalkExactly(turns: nat -> Turn, starts: seq<nat>, events: seq<Event>, k: nat, end: nat,
                                       ending: Ending)
    requires Leads(turns, starts, events) && k <= |events| && starts[|events|] <= end
    ensures Walk(turns, starts[k], end) == Demuxed(events[k..], ending) <==>
      AllDeliver(turns, starts, events, k) && Walk(turns, starts[|events|], end) == Demuxed([], ending)
    decreases |events| - k
  {
    if k < |events| {
      Increasing(turns, starts, events, k);
      WalkExactly(turns, starts, events, k + 1, end, ending);
      OneTurn(turns, starts[k], starts[k + 1], end, events[k], events[k + 1..], ending);
      assert events[k..] == [events[k]] + events[k + 1..];
      AllDeliverStep(turns, starts, events, k);
    }
  }

  lemma AllDeliverStep(turns: nat -> Turn, starts: seq<nat>, events: seq<Event>, k: nat)
    requires |starts| == |events| + 1 && k < |events|
    ensures AllDeliver(turns, starts, events, k) <==>
      Delivers(turns(starts[k]), events[k]) && AllDeliver(turns, starts, events, k + 1)
  {
  }

  // ------------------------------------------------------------------ multiplexed PDUs

  /** Where SDU k starts; for k = |sdus|, the end of the body. */
  function Start(sdus: seq<MacMux.MacSdu>, k: nat): nat
    requires k <= |sdus| && forall j :: 0 <= j < |sdus| ==> sdus[j].Valid()
  {
    |MacMux.AllSduOctets(sdus[..k])|
  }

  function Starts(sdus: seq<MacMux.MacSdu>): (r: seq<nat>)
    requires forall j :: 0 <= j < |sdus| ==> sdus[j].Valid()
    ensures |r| == |sdus| + 1
  {
    seq(|sdus| + 1, k requires 0 <= k <= |sdus| => Start(sdus, k))
  }

  /** SDUs on dedicated channels, none of them empty, that fit the block. */
  predicate Sendable(sdus: seq<MacMux.MacSdu>, tbSize: nat) {
    Muxable(sdus, tbSize) && forall k :: 0 <= k < |sdus| ==> sdus[k].data != []
  }

  lemma NextStart(sdus: seq<MacMux.MacSdu>, k: nat, tbSize: nat)
    requires Sendable(sdus, tbSize) && k < |sdus|
    ensures Start(sdus, k + 1) == Start(sdus, k) + |MacMux.SduOctets(sdus[k])| <= tbSize
    ensures |MacMux.SduOctets(sdus[k])| >= 2
  {
    MacMux.SduSnoc(sdus, k);
    MacMux.SduPrefix(sdus, k + 1);
    MuxIsBody(sdus, tbSize);
  }

  lemma ListLeads(sdus: seq<MacMux.MacSdu>, tbSize: nat, pdu: seq<byte>, turns: nat -> Turn)
    requires Sendable(sdus, tbSize) && |pdu| == tbSize && turns == TurnsOf(pdu, AS_CODED)
    ensures Leads(turns, Starts(sdus), Events(Subs(sdus)))
  {
    forall k | 0 <= k < |sdus| ensures TurnLeads(turns, Starts(sdus)[k], Starts(sdus)[k + 1], Events(Subs(sdus))[k]) {
      SduLeads(sdus, tbSize, pdu, k);
    }
  }

  lemma SduLeads(sdus: seq<MacMux.MacSdu>, tbSize: nat, pdu: seq<byte>, k: nat)
    requires Sendable(sdus, tbSize) && |pdu| == tbSize && k < |sdus|
    ensures TurnLeads(TurnsOf(pdu, AS_CODED), Start(sdus, k), Start(sdus, k + 1), UlData(sdus[k].lcid, sdus[k].data))
    ensures Delivers(TurnsOf(pdu, AS_CODED)(Start(sdus, k)), UlData(sdus[k].lcid, sdus[k].data))
      <==> FoundAt(pdu, Start(sdus, k), sdus[k])
    ensures Events(Subs(sdus))[k] == UlData(sdus[k].lcid, sdus[k].data)
  {
    NextStart(sdus, k, tbSize);
    TurnDelivers(pdu, Start(sdus, k), sdus[k]);
  }

  /** Each SDU is found where the index points, and so is the padding if there is any. */
  predicate AllFound(sdus: seq<MacMux.MacSdu>, tbSize: nat, pdu: seq<byte>)
    requires Sendable(sdus, tbSize) && |pdu| == tbSize
  {
    && (forall k :: 0 <= k < |sdus| ==> FoundAt(pdu, Start(sdus, k), sdus[k]))
    && (Start(sdus, |sdus|) < tbSize ==> LcidOf(pdu[Wrap(Start(sdus, |sdus|))]) == MAC_LCID_PADDING)
  }

  lemma DeliveredMeansFound(sdus: seq<MacMux.MacSdu>, tbSize: nat, pdu: seq<byte>, turns: nat -> Turn)
    requires Sendable(sdus, tbSize) && |pdu| == tbSize && turns == TurnsOf(pdu, AS_CODED)
    ensures AllDeliver(turns, Starts(sdus), Events(Subs(sdus)), 0) <==>
      forall k :: 0 <= k < |sdus| ==> FoundAt(pdu, Start(sdus, k), sdus[k])
  {
    var events := Events(Subs(sdus));
    forall k | 0 <= k < |sdus|
      ensures Delivers(turns(Starts(sdus)[k]), events[k]) <==> FoundAt(pdu, Start(sdus, k), sdus[k])
    {
      SduLeads(sdus, tbSize, pdu, k);
    }
    if AllDeliver(turns, Starts(sdus), events, 0) {
      forall k | 0 <= k < |sdus| ensures FoundAt(pdu, Start(sdus, k), sdus[k]) {
        assert Delivers(turns(Starts(sdus)[k]), events[k]);
      }
    }
  }

  lemma EndsAsPadded(pdu: seq<byte>, body: nat)
    requires body <= |pdu|
    ensures Walk(TurnsOf(pdu, AS_CODED), body, |pdu|) == Demuxed([], PaddingEnding(|pdu| - body)) <==>
      (body < |pdu| ==> LcidOf(pdu[Wrap(body)]) == MAC_LCID_PADDING)
  {
    if body < |pdu| {
      assert OctetAt(pdu, body, AS_CODED) == pdu[Wrap(body)];
      assert TurnsOf(pdu, AS_CODED)(body) == DemuxTurn(pdu, body, |pdu| - body, AS_CODED);
      assert DemuxTurn(pdu, body, |pdu| - body, AS_CODED) == Stop(AtPadding)
        <==> LcidOf(pdu[Wrap(body)]) == MAC_LCID_PADDING;
    }
  }

  /**
   As built, a list of non-empty SDUs is read back from a transport block of any size exactly
   when, at every index where the demultiplexer looks for an SDU or the padding, the octets at
   that index modulo 256 are those of the SDU (no longer than 255 octets) or the padding.
   */
  lemma RoundTripAsCodedExactlyWhen(sdus: seq<MacMux.MacSdu>, tbSize: nat)
    requires Sendable(sdus, tbSize)
    ensures Demux(MacMux.MuxPdu([], sdus, tbSize), AS_CODED) == Delivered(sdus, tbSize)
      <==> AllFound(sdus, tbSize, MacMux.MuxPdu([], sdus, tbSize))
  {
    var pdu, events := MacMux.MuxPdu([], sdus, tbSize), Events(Subs(sdus));
    var turns, body := TurnsOf(pdu, AS_CODED), Start(sdus, |sdus|);
    assert sdus[..|sdus|] == sdus && sdus[..0] == [];
    MuxIsBody(sdus, tbSize);
    ListLeads(sdus, tbSize, pdu, turns);
    WalkExactly(turns, Starts(sdus), events, 0, tbSize, PaddingEnding(tbSize - body));
    assert events[0..] == events;
    DeliveredMeansFound(sdus, tbSize, pdu, turns);
    EndsAsPadded(pdu, body);
  }
}
