/**
 The downlink slots of one UE together with its HARQ store: new transmissions wait for RLC's
 data, which goes to the slot and to the store; retransmissions take their PDU from the store.
 */
module HarqSlots {
  import opened Common
  import opened BitString
  import opened DlHarq
  import opened DlHarqRuns

  const TX_PAYLOAD_HDR_LEN := 32

  /** The message in a slot: the TB size of each codeword, none without a PDSCH, and the PDU. */
  datatype TxMsg = TxMsg(hqProcId: nat, codewords: seq<nat>, pdu: Option<seq<byte>>)

  datatype Tx = Tx(ent: HarqEnt, slots: seq<Option<TxMsg>>) {
    predicate Valid() {
      Inv(ent) && forall k :: 0 <= k < |slots| && HasPdsch(slots[k]) ==> CodewordsOk(slots[k].value.codewords)
    }
  }

  /** In RlcData, `mem` is the memory from the multiplexed PDU on. */
  datatype Event =
    | NewTx(time: SlotTime, p: nat, codewords: seq<nat>)
    | Retx(time: SlotTime, p: nat, codewords: seq<nat>)
    | RlcData(time: SlotTime, mem: nat -> byte)
    | Sent(slot: nat)
    | HqRelease(p: nat)
  {
    predicate Fits(numOfSlots: nat) {
      match this
      case NewTx(time, p, codewords) => time.slot < numOfSlots && p < MAX_NUM_HARQ_PROC && CodewordsOk(codewords)
      case Retx(time, p, codewords) => time.slot < numOfSlots && p < MAX_NUM_HARQ_PROC && CodewordsOk(codewords)
      case RlcData(time, _) => time.slot < numOfSlots
      case Sent(slot) => slot < numOfSlots
      case HqRelease(p) => p < MAX_NUM_HARQ_PROC
    }

    /** The event puts another message into the slot, or empties it. */
    predicate Writes(slot: nat) {
      match this
      case NewTx(time, _, _) => time.slot == slot
      case Retx(time, _, _) => time.slot == slot
      case RlcData(_, _) => false
      case Sent(s) => s == slot
      case HqRelease(_) => false
    }

    /** The event schedules process q anew or releases it. */
    predicate Ends(q: nat) {
      (NewTx? && p == q && codewords != []) || (HqRelease? && p == q)
    }
  }

  predicate CodewordsOk(codewords: seq<nat>) {
    |codewords| <= MAX_NUM_TB_PER_UE && forall k :: 0 <= k < |codewords| ==> codewords[k] >= TX_PAYLOAD_HDR_LEN
  }

  function Octets(mem: nat -> byte, n: nat): (r: seq<byte>)
    ensures |r| == n
  {
    seq(n, k requires 0 <= k < n => mem(k))
  }

  // ------------------------------------------------------------------ the specification

  function Fetches(time: SlotTime, p: nat, sizes: seq<nat>): (r: seq<Op>)
    ensures |r| == |sizes|
  {
    seq(|sizes|, k requires 0 <= k < |sizes| => OpFetch(time, p, sizes[k]))
  }

  /** What the event does to the HARQ store. The store keeps as many octets as the TB size says. */
  function Ops(s: Tx, e: Event): (r: seq<Op>)
    requires e.Fits(|s.slots|)
    ensures AllValid(r)
  {
    match e
    case NewTx(time, p, codewords) => if codewords == [] then [] else [OpAdd(time, p, codewords)]
    case Retx(time, p, codewords) => Fetches(time, p, codewords)
    case RlcData(time, mem) =>
      if HasPdsch(s.slots[time.slot]) then
        var size := s.slots[time.slot].value.codewords[0];
        [OpStore(time, size, Octets(mem, size))]
      else []
    case Sent(_) => []
    case HqRelease(p) => [OpRelease(p)]
  }

  predicate HasPdsch(m: Option<TxMsg>) {
    m.Some? && m.value.codewords != []
  }

  /** The PDU of a retransmission: the block fetched for the last codeword. */
  function FetchedPdu(ent: HarqEnt, time: SlotTime, p: nat, codewords: seq<nat>): Option<seq<byte>>
    requires |ent| == MAX_NUM_HARQ_PROC && p < MAX_NUM_HARQ_PROC
  {
    if codewords == [] then None
    else
      var n := |codewords| - 1;
      Fetched(Run(ent, Fetches(time, p, codewords[..n])), p, codewords[n])
  }

  function Slots(s: Tx, e: Event): (r: seq<Option<TxMsg>>)
    requires s.Valid() && e.Fits(|s.slots|)
    ensures |r| == |s.slots|
  {
    match e
    case NewTx(time, p, codewords) => s.slots[time.slot := Some(TxMsg(p, codewords, None))]
    case Retx(time, p, codewords) =>
      s.slots[time.slot := Some(TxMsg(p, codewords, FetchedPdu(s.ent, time, p, codewords)))]
    case RlcData(time, mem) =>
      var m := s.slots[time.slot];
      if HasPdsch(m) then s.slots[time.slot := Some(m.value.(pdu := Some(SentPdu(m.value, mem))))] else s.slots
    case Sent(slot) => s.slots[slot := None]
    case HqRelease(_) => s.slots
  }

  /** The PDU is shorter than the TB by the TX payload header. */
  function SentPdu(m: TxMsg, mem: nat -> byte): seq<byte>
    requires m.codewords != [] && CodewordsOk(m.codewords)
  {
    Octets(mem, m.codewords[0] - TX_PAYLOAD_HDR_LEN)
  }

  function Step(s: Tx, e: Event): (r: Tx)
    requires s.Valid() && e.Fits(|s.slots|)
    ensures r.Valid() && |r.slots| == |s.slots|
  {
    EveryRunKeepsInv(s.ent, Ops(s, e));
    Tx(Run(s.ent, Ops(s, e)), Slots(s, e))
  }

  // ------------------------------------------------------------------ the handlers

  class UeTx {
    const cell: MacCellCb
    const ueIdx: nat
    const dlMsgAlloc: array<Option<TxMsg>>

    ghost predicate Valid()
      reads this, cell.ueCb, dlMsgAlloc
    {
      && cell.Valid() && ueIdx < cell.ueCb.Length
      && forall k :: 0 <= k < dlMsgAlloc.Length && HasPdsch(dlMsgAlloc[k]) ==>
        CodewordsOk(dlMsgAlloc[k].value.codewords)
    }

    ghost function State(): (s: Tx)
      requires Valid()
      reads this, cell.ueCb, dlMsgAlloc
      ensures s.Valid()
    {
      Tx(cell.ueCb[ueIdx].harqProcCb, dlMsgAlloc[..])
    }

    constructor (numOfSlots: nat)
      ensures Valid() && State() == Tx(NewEnt(), seq(numOfSlots, _ => None)) && fresh(cell.ueCb) && fresh(dlMsgAlloc)
    {
      cell := new MacCellCb(1);
      ueIdx := 0;
      dlMsgAlloc := new Option<TxMsg>[numOfSlots](_ => None);
    }

    /** A new transmission in MacProcDlAlloc. */
    method NewTransmission(time: SlotTime, hqProcNum: nat, codewords: seq<nat>)
      requires Valid() && NewTx(time, hqProcNum, codewords).Fits(dlMsgAlloc.Length)
      modifies cell.ueCb, dlMsgAlloc
      ensures Valid() && State() == Step(old(State()), NewTx(time, hqProcNum, codewords)) && cell.OnlyEntOf(ueIdx)
    {
      dlMsgAlloc[time.slot] := Some(TxMsg(hqProcNum, codewords, None));
      if codewords != [] {
        RunOne(State().ent, OpAdd(time, hqProcNum, codewords));
        cell.AddDlHqProcInUe(time, ueIdx, hqProcNum, codewords);
      }
    }

    /** A retransmission in MacProcDlAlloc: one fetch for each codeword, the last one's PDU stays. */
    method Retransmission(time: SlotTime, hqProcNum: nat, codewords: seq<nat>)
      requires Valid() && Retx(time, hqProcNum, codewords).Fits(dlMsgAlloc.Length)
      modifies cell.ueCb, dlMsgAlloc
      ensures Valid() && State() == Step(old(State()), Retx(time, hqProcNum, codewords)) && cell.OnlyEntOf(ueIdx)
    {
      ghost var ent := State().ent;
      var pdu: Option<seq<byte>> := None;
      for cwIdx := 0 to |codewords|
        invariant Valid() && dlMsgAlloc[..] == old(dlMsgAlloc[..]) && cell.OnlyEntOf(ueIdx)
        invariant cell.ueCb[ueIdx].harqProcCb == Run(ent, Fetches(time, hqProcNum, codewords[..cwIdx]))
        invariant pdu == FetchedPdu(ent, time, hqProcNum, codewords[..cwIdx])
      {
        FetchOneMore(ent, time, hqProcNum, codewords, cwIdx);
        pdu := cell.FetchTbFromDlHarqProc(time, ueIdx, hqProcNum, codewords[cwIdx]);
      }
      assert codewords[..|codewords|] == codewords;
      dlMsgAlloc[time.slot] := Some(TxMsg(hqProcNum, codewords, pdu));
    }

    /** MacProcRlcDlData: the PDU goes to the slot, and the TB-size octets from it on to HARQ. */
    method MacProcRlcDlData(time: SlotTime, mem: nat -> byte)
      requires Valid() && time.slot < dlMsgAlloc.Length
      modifies cell.ueCb, dlMsgAlloc
      ensures Valid() && State() == Step(old(State()), RlcData(time, mem)) && cell.OnlyEntOf(ueIdx)
    {
      var m := dlMsgAlloc[time.slot];
      if m.Some? && m.value.codewords != [] {
        var tbSize := m.value.codewords[0];
        var txPduLen := tbSize - TX_PAYLOAD_HDR_LEN;
        dlMsgAlloc[time.slot] := Some(m.value.(pdu := Some(Octets(mem, txPduLen))));
        RunOne(State().ent, OpStore(time, tbSize, Octets(mem, tbSize)));
        assert Octets(mem, tbSize)[..tbSize] == Octets(mem, tbSize);
        var ok := cell.UpdateNewTbInDlHqProcCb(time, ueIdx, tbSize, Octets(mem, tbSize));
      }
    }
  }

  lemma RunOne(ent: HarqEnt, op: Op)
    requires |ent| == MAX_NUM_HARQ_PROC && op.Valid()
    ensures Run(ent, [op]) == Apply(ent, op)
  {
    assert [op][..0] == [];
  }

  lemma FetchOneMore(ent: HarqEnt, time: SlotTime, p: nat, sizes: seq<nat>, n: nat)
    requires |ent| == MAX_NUM_HARQ_PROC && p < MAX_NUM_HARQ_PROC && n < |sizes|
    ensures var before := Run(ent, Fetches(time, p, sizes[..n]));
      && Run(ent, Fetches(time, p, sizes[..n + 1])) == Fetch(before, time, p, sizes[n])
      && FetchedPdu(ent, time, p, sizes[..n + 1]) == Fetched(before, p, sizes[n])
  {
    var more := Fetches(time, p, sizes[..n + 1]);
    assert more[..n] == Fetches(time, p, sizes[..n]);
    assert sizes[..n + 1][..n] == sizes[..n];
  }

  // ------------------------------------------------------------------ runs

  predicate FitAll(events: seq<Event>, numOfSlots: nat) {
    forall k :: 0 <= k < |events| ==> events[k].Fits(numOfSlots)
  }

  function After(s: Tx, events: seq<Event>): (r: Tx)
    requires s.Valid() && FitAll(events, |s.slots|)
    ensures r.Valid() && |r.slots| == |s.slots|
  {
    if events == [] then s else Step(After(s, events[..|events| - 1]), events[|events| - 1])
  }

  function OpsOf(s: Tx, events: seq<Event>): (r: seq<Op>)
    requires s.Valid() && FitAll(events, |s.slots|)
    ensures AllValid(r)
  {
    if events == [] then []
    else OpsOf(s, events[..|events| - 1]) + Ops(After(s, events[..|events| - 1]), events[|events| - 1])
  }

  lemma {:induction false} RunConcat(ent: HarqEnt, a: seq<Op>, b: seq<Op>)
    requires |ent| == MAX_NUM_HARQ_PROC && AllValid(a) && AllValid(b)
    ensures AllValid(a + b) && Run(ent, a + b) == Run(Run(ent, a), b)
  {
    if b == [] {
      assert a + b == a;
    } else {
      RunConcat(ent, a, b[..|b| - 1]);
      assert (a + b)[..|a + b| - 1] == a + b[..|b| - 1];
    }
  }

  /** The store after the events is the store after what they do to it. */
  lemma {:induction false} EntAfter(s: Tx, events: seq<Event>)
    requires s.Valid() && FitAll(events, |s.slots|)
    ensures After(s, events).ent == Run(s.ent, OpsOf(s, events))
  {
    if events != [] {
      var init := events[..|events| - 1];
      EntAfter(s, init);
      RunConcat(s.ent, OpsOf(s, init), Ops(After(s, init), events[|events| - 1]));
    }
  }

  predicate NoneEnds(events: seq<Event>, p: nat) {
    forall k :: 0 <= k < |events| ==> !events[k].Ends(p)
  }

  lemma {:induction false} OpsKeep(s: Tx, events: seq<Event>, p: nat)
    requires s.Valid() && FitAll(events, |s.slots|) && NoneEnds(events, p)
    ensures AllKeep(OpsOf(s, events), p)
  {
    if events != [] {
      OpsKeep(s, events[..|events| - 1], p);
      assert !events[|events| - 1].Ends(p);
    }
  }

  /** Fetches land nowhere. */
  lemma {:induction false} FetchesLandNowhere(start: HarqEnt, time: SlotTime, ops: seq<Op>, t: SlotTime, q: nat,
                                              sizes: seq<nat>,
                                             p: nat, size: nat)
    requires |start| == MAX_NUM_HARQ_PROC && p < |start| && q < |start| && AllValid(ops)
    ensures AllValid(ops + Fetches(t, q, sizes))
    ensures LastLanded(start, time, ops + Fetches(t, q, sizes), p, size) == LastLanded(start, time, ops, p, size)
  {
    var more := ops + Fetches(t, q, sizes);
    if sizes == [] {
      assert more == ops;
    } else {
      var n := |sizes| - 1;
      FetchesLandNowhere(start, time, ops, t, q, sizes[..n], p, size);
      assert more[..|more| - 1] == ops + Fetches(t, q, sizes[..n]);
      assert more[|more| - 1].OpFetch?;
    }
  }

  /** On the store alone: what a retransmission of p puts into its slot. */
  lemma FetchedPduIsLastLanded(ent: HarqEnt, time: SlotTime, p: nat, codewords: seq<nat>, ops: seq<Op>,
                               again: SlotTime, sizes: seq<nat>)
    requires Inv(ent) && OpAdd(time, p, codewords).Valid() && AllValid(ops) && AllKeep(ops, p)
    requires sizes != [] && sizes[|sizes| - 1] in codewords
    ensures var start := Add(ent, time, p, codewords);
      FetchedPdu(Run(start, ops), again, p, sizes) == LastLanded(start, time, ops, p, sizes[|sizes| - 1])
  {
    var start, n := Add(ent, time, p, codewords), |sizes| - 1;
    var fetches := Fetches(again, p, sizes[..n]);
    RunConcat(start, ops, fetches);
    FetchesLandNowhere(start, time, ops, again, p, sizes[..n], p, sizes[n]);
    AllKeepMore(ops, again, p, sizes[..n]);
    FetchedIsLastLanded(ent, time, p, codewords, sizes[n], ops + fetches);
  }

  lemma AllKeepMore(ops: seq<Op>, again: SlotTime, p: nat, sizes: seq<nat>)
    requires AllKeep(ops, p)
    ensures AllKeep(ops + Fetches(again, p, sizes), p)
  {
  }

  /**
   Between the scheduling of p and its end, the PDU placed for a retransmission is exactly what
   the last store that landed on p's block carried: for every sequence of events in between.
   */
  lemma PlacedPduIsLastLanded(s: Tx, time: SlotTime, p: nat, codewords: seq<nat>, events: seq<Event>,
                              again: SlotTime, sizes: seq<nat>)
    requires s.Valid() && NewTx(time, p, codewords).Fits(|s.slots|) && Retx(again, p, sizes).Fits(|s.slots|)
    requires FitAll(events, |s.slots|) && NoneEnds(events, p)
    requires sizes != [] && sizes[|sizes| - 1] in codewords
    ensures var s1 := Step(s, NewTx(time, p, codewords));
      Step(After(s1, events), Retx(again, p, sizes)).slots[again.slot]
      == Some(TxMsg(p, sizes, LastLanded(s1.ent, time, OpsOf(s1, events), p, sizes[|sizes| - 1])))
  {
    var s1 := Step(s, NewTx(time, p, codewords));
    RunOne(s.ent, OpAdd(time, p, codewords));
    EntAfter(s1, events);
    OpsKeep(s1, events, p);
    FetchedPduIsLastLanded(s.ent, time, p, codewords, OpsOf(s1, events), again, sizes);
  }

  // ------------------------------------------------------------------ distinct live keys

  /** The event stores no octets for p: it is no data from RLC, or finds no message, or one whose
      time and size p does not hold. */
  predicate StoresForAnother(s: Tx, e: Event, p: nat)
    requires s.Valid() && e.Fits(|s.slots|) && p < MAX_NUM_HARQ_PROC
  {
    e.RlcData? && HasPdsch(s.slots[e.time.slot]) ==>
      !HoldsKey(s.ent[p], e.time, s.slots[e.time.slot].value.codewords[0])
  }

  predicate AllStoreForOthers(s: Tx, events: seq<Event>, p: nat)
    requires s.Valid() && FitAll(events, |s.slots|) && p < MAX_NUM_HARQ_PROC
  {
    forall k :: 0 <= k < |events| ==> StoresForAnother(After(s, events[..k]), events[k], p)
  }

  predicate NoRetx(events: seq<Event>, p: nat) {
    forall k :: 0 <= k < |events| ==> !(events[k].Retx? && events[k].p == p)
  }

  predicate NoneWrites(events: seq<Event>, slot: nat) {
    forall k :: 0 <= k < |events| ==> !events[k].Writes(slot)
  }

  /** Every store of the run is the data of one event, in the state that event finds. */
  lemma {:induction false} StoreIsRlcData(s: Tx, events: seq<Event>, j: nat) returns (m: nat)
    requires s.Valid() && FitAll(events, |s.slots|) && j < |OpsOf(s, events)| && OpsOf(s, events)[j].OpStore?
    ensures m < |events| && OpsOf(s, events[..m]) == OpsOf(s, events)[..j]
    ensures Ops(After(s, events[..m]), events[m]) == [OpsOf(s, events)[j]]
    decreases |events|
  {
    var n := |events| - 1;
    var before := OpsOf(s, events[..n]);
    if j < |before| {
      m := StoreIsRlcData(s, events[..n], j);
      assert events[..n][..m] == events[..m] && OpsOf(s, events)[..j] == before[..j];
    } else {
      m := n;
      assert OpsOf(s, events)[j] in Ops(After(s, events[..n]), events[n]);
      assert OpsOf(s, events)[..j] == before;
    }
  }

  lemma {:induction false} AfterConcat(s: Tx, a: seq<Event>, b: seq<Event>)
    requires s.Valid() && FitAll(a, |s.slots|) && FitAll(b, |s.slots|)
    ensures FitAll(a + b, |s.slots|) && After(s, a + b) == After(After(s, a), b)
  {
    if b == [] {
      assert a + b == a;
    } else {
      AfterConcat(s, a, b[..|b| - 1]);
      assert (a + b)[..|a + b| - 1] == a + b[..|b| - 1];
    }
  }

  lemma {:induction false} OpsConcat(s: Tx, a: seq<Event>, b: seq<Event>)
    requires s.Valid() && FitAll(a, |s.slots|) && FitAll(b, |s.slots|)
    ensures FitAll(a + b, |s.slots|) && OpsOf(s, a + b) == OpsOf(s, a) + OpsOf(After(s, a), b)
  {
    if b == [] {
      assert a + b == a;
    } else {
      var init := b[..|b| - 1];
      OpsConcat(s, a, init);
      AfterConcat(s, a, init);
      assert (a + b)[..|a + b| - 1] == a + init;
      Associate(OpsOf(s, a), OpsOf(After(s, a), init), Ops(After(s, a + init), b[|b| - 1]));
    }
  }

  lemma One(s: Tx, e: Event)
    requires s.Valid() && e.Fits(|s.slots|)
    ensures FitAll([e], |s.slots|) && After(s, [e]) == Step(s, e) && OpsOf(s, [e]) == Ops(s, e)
  {
    assert [e][..0] == [];
  }

  lemma {:induction false} MessageStays(s: Tx, events: seq<Event>, slot: nat)
    requires s.Valid() && FitAll(events, |s.slots|) && NoneWrites(events, slot) && slot < |s.slots|
    requires HasPdsch(s.slots[slot])
    ensures HasPdsch(After(s, events).slots[slot])
    ensures After(s, events).slots[slot].value.codewords == s.slots[slot].value.codewords
  {
    if events != [] {
      MessageStays(s, events[..|events| - 1], slot);
      assert !events[|events| - 1].Writes(slot);
    }
  }

  lemma {:induction false} KeyTimeStays(s: Tx, events: seq<Event>, time: SlotTime, p: nat, size: nat)
    requires s.Valid() && FitAll(events, |s.slots|) && NoRetx(events, p)
    ensures KeyTime(time, OpsOf(s, events), p, size) == time
  {
    if events != [] {
      var init, e := events[..|events| - 1], events[|events| - 1];
      KeyTimeStays(s, init, time, p, size);
      assert !(e.Retx? && e.p == p);
      KeyTimeSkips(time, OpsOf(s, init), Ops(After(s, init), e), p, size);
    }
  }

  lemma {:induction false} KeyTimeSkips(time: SlotTime, a: seq<Op>, b: seq<Op>, p: nat, size: nat)
    requires forall k :: 0 <= k < |b| ==> !(b[k].OpFetch? && b[k].p == p)
    ensures KeyTime(time, a + b, p, size) == KeyTime(time, a, p, size)
  {
    if b == [] {
      assert a + b == a;
    } else {
      KeyTimeSkips(time, a, b[..|b| - 1], p, size);
      assert (a + b)[..|a + b| - 1] == a + b[..|b| - 1];
      assert (a + b)[|a + b| - 1] == b[|b| - 1];
    }
  }

  /** The stores of the events, each in the state it meets, are for other processes. */
  lemma LaterStoresAreForOthers(s: Tx, events: seq<Event>, p: nat, ops: seq<Op>, j: nat)
    requires s.Valid() && FitAll(events, |s.slots|) && p < MAX_NUM_HARQ_PROC && AllStoreForOthers(s, events, p)
    requires ops == OpsOf(s, events) && j < |ops| && ops[j].OpStore?
    ensures ForOthersAt(s.ent, ops, j, p)
  {
    var m := StoreIsRlcData(s, events, j);
    EntAfter(s, events[..m]);
    assert StoresForAnother(After(s, events[..m]), events[m], p);
    assert Ops(After(s, events[..m]), events[m])[0] == ops[j];
  }

  /** RLC's data, and what comes before and after, as operations on the store. */
  lemma OpsAroundData(s: Tx, mid: seq<Event>, data: Event, later: seq<Event>)
    requires s.Valid() && FitAll(mid, |s.slots|) && data.Fits(|s.slots|) && FitAll(later, |s.slots|)
    ensures FitAll(mid + [data] + later, |s.slots|)
    ensures After(s, mid + [data] + later) == After(Step(After(s, mid), data), later)
    ensures OpsOf(s, mid + [data] + later)
      == OpsOf(s, mid) + Ops(After(s, mid), data) + OpsOf(Step(After(s, mid), data), later)
  {
    One(After(s, mid), data);
    AfterConcat(s, mid, [data]);
    OpsConcat(s, mid, [data]);
    AfterConcat(s, mid + [data], later);
    OpsConcat(s, mid + [data], later);
  }

  /** The state that operation n after a store meets. */
  lemma RunUpTo(start: HarqEnt, first: seq<Op>, store: Op, rest: seq<Op>, n: nat)
    requires |start| == MAX_NUM_HARQ_PROC && AllValid(first) && store.Valid() && AllValid(rest) && n < |rest|
    ensures AllValid(first + [store] + rest) && (first + [store] + rest)[|first| + 1 + n] == rest[n]
    ensures Run(start, (first + [store] + rest)[..|first| + 1 + n]) == Run(Apply(Run(start, first), store), rest[..n])
  {
    assert (first + [store] + rest)[..|first| + 1 + n] == first + [store] + rest[..n];
    RunOne(Run(start, first), store);
    RunConcat(start, first, [store]);
    RunConcat(start, first + [store], rest[..n]);
  }

  lemma ForOthersAfter(start: HarqEnt, first: seq<Op>, store: Op, rest: seq<Op>, p: nat)
    requires |start| == MAX_NUM_HARQ_PROC && p < |start| && AllValid(first) && store.Valid() && AllValid(rest)
    requires AllForOthers(Apply(Run(start, first), store), rest, 0, p)
    ensures AllValid(first + [store] + rest) && AllForOthers(start, first + [store] + rest, |first| + 1, p)
  {
    var ops := first + [store] + rest;
    forall j | |first| + 1 <= j < |ops| ensures ForOthersAt(start, ops, j, p) {
      ForOthersAfterAt(start, first, store, rest, p, ops, j);
    }
  }

  lemma ForOthersAfterAt(start: HarqEnt, first: seq<Op>, store: Op, rest: seq<Op>, p: nat, ops: seq<Op>, j: nat)
    requires |start| == MAX_NUM_HARQ_PROC && p < |start| && AllValid(first) && store.Valid() && AllValid(rest)
    requires AllForOthers(Apply(Run(start, first), store), rest, 0, p)
    requires ops == first + [store] + rest && |first| + 1 <= j < |ops|
    ensures AllValid(ops) && ForOthersAt(start, ops, j, p)
  {
    var n := j - |first| - 1;
    assert ForOthersAt(Apply(Run(start, first), store), rest, n, p);
    ForOthersShifted(start, first, store, rest, p, n);
  }

  lemma ForOthersShifted(start: HarqEnt, first: seq<Op>, store: Op, rest: seq<Op>, p: nat, n: nat)
    requires |start| == MAX_NUM_HARQ_PROC && p < |start| && n < |rest|
    requires AllValid(first) && store.Valid() && AllValid(rest)
    requires ForOthersAt(Apply(Run(start, first), store), rest, n, p)
    ensures AllValid(first + [store] + rest) && ForOthersAt(start, first + [store] + rest, |first| + 1 + n, p)
  {
    RunUpTo(start, first, store, rest, n);
  }

  lemma Around(first: seq<Op>, store: Op, rest: seq<Op>, p: nat)
    requires AllValid(first) && store.Valid() && AllValid(rest) && AllKeep(first, p) && store.OpStore?
    requires AllKeep(rest, p)
    ensures var ops := first + [store] + rest;
      AllValid(ops) && AllKeep(ops, p) && ops[..|first|] == first && ops[|first|] == store
  {
  }

  /** On the store alone: a block is scheduled, its octets arrive, later octets are for others. */
  lemma StoreLandsLast(ent: HarqEnt, time: SlotTime, p: nat, codewords: seq<nat>, first: seq<Op>, data: seq<byte>,
                       rest: seq<Op>)
    requires Inv(ent) && OpAdd(time, p, codewords).Valid() && codewords != [] && |data| == codewords[0]
    requires AllValid(first) && AllValid(rest) && AllKeep(first, p) && AllKeep(rest, p)
    requires KeyTime(time, first, p, codewords[0]) == time && DistinctKeys(Run(Add(ent, time, p, codewords), first))
    requires AllForOthers(Store(Run(Add(ent, time, p, codewords), first), time, codewords[0], data), rest, 0, p)
    ensures AllValid(first + [OpStore(time, codewords[0], data)] + rest)
    ensures LastLanded(Add(ent, time, p, codewords), time, first + [OpStore(time, codewords[0], data)] + rest,
                       p, codewords[0])
      == Some(data)
  {
    var start, store := Add(ent, time, p, codewords), OpStore(time, codewords[0], data);
    Around(first, store, rest, p);
    ForOthersAfter(start, first, store, rest, p);
    DistinctKeysGiveTheOctets(ent, time, p, codewords, codewords[0], first + [store] + rest, |first|);
    FetchedIsLastLanded(ent, time, p, codewords, codewords[0], first + [store] + rest);
  }

  /** A message is scheduled on p; until RLC's data arrives, its slot is not written again. */
  predicate Awaited(s: Tx, time: SlotTime, p: nat, codewords: seq<nat>, mid: seq<Event>) {
    && s.Valid() && NewTx(time, p, codewords).Fits(|s.slots|) && codewords != []
    && FitAll(mid, |s.slots|) && NoneEnds(mid, p) && NoRetx(mid, p) && NoneWrites(mid, time.slot)
  }

  function AtData(s: Tx, time: SlotTime, p: nat, codewords: seq<nat>, mid: seq<Event>): (r: Tx)
    requires Awaited(s, time, p, codewords, mid)
    ensures r.Valid() && |r.slots| == |s.slots|
  {
    After(Step(s, NewTx(time, p, codewords)), mid)
  }

  lemma DataMeetsMessage(s: Tx, time: SlotTime, p: nat, codewords: seq<nat>, mid: seq<Event>, mem: nat -> byte)
    requires Awaited(s, time, p, codewords, mid)
    ensures var s2 := AtData(s, time, p, codewords, mid);
      && Ops(s2, RlcData(time, mem)) == [OpStore(time, codewords[0], Octets(mem, codewords[0]))]
      && Step(s2, RlcData(time, mem)).ent == Store(s2.ent, time, codewords[0], Octets(mem, codewords[0]))
      && Step(s2, RlcData(time, mem)).slots[time.slot].Some?
      && Step(s2, RlcData(time, mem)).slots[time.slot].value.pdu == Some(Octets(mem, codewords[0] - TX_PAYLOAD_HDR_LEN))
  {
    MessageStays(Step(s, NewTx(time, p, codewords)), mid, time.slot);
    var s2 := AtData(s, time, p, codewords, mid);
    RunOne(s2.ent, OpStore(time, codewords[0], Octets(mem, codewords[0])));
  }

  lemma DataLandsLast(s: Tx, time: SlotTime, p: nat, codewords: seq<nat>, mid: seq<Event>, mem: nat -> byte,
                      later: seq<Event>)
    requires Awaited(s, time, p, codewords, mid) && FitAll(later, |s.slots|) && NoneEnds(later, p)
    requires DistinctKeys(AtData(s, time, p, codewords, mid).ent)
    requires AllStoreForOthers(Step(AtData(s, time, p, codewords, mid), RlcData(time, mem)), later, p)
    ensures FitAll(mid + [RlcData(time, mem)] + later, |s.slots|)
    ensures var s1 := Step(s, NewTx(time, p, codewords));
      LastLanded(s1.ent, time, OpsOf(s1, mid + [RlcData(time, mem)] + later), p, codewords[0])
      == Some(Octets(mem, codewords[0]))
  {
    var s1, s2 := Step(s, NewTx(time, p, codewords)), AtData(s, time, p, codewords, mid);
    var s3 := Step(s2, RlcData(time, mem));
    var first, rest := OpsOf(s1, mid), OpsOf(s3, later);
    OpsAroundData(s1, mid, RlcData(time, mem), later);
    DataMeetsMessage(s, time, p, codewords, mid, mem);
    RunOne(s.ent, OpAdd(time, p, codewords));
    KeyTimeStays(s1, mid, time, p, codewords[0]);
    EntAfter(s1, mid);
    OpsKeep(s1, mid, p);
    OpsKeep(s3, later, p);
    forall n | 0 <= n < |rest| ensures ForOthersAt(s3.ent, rest, n, p) {
      if rest[n].OpStore? { LaterStoresAreForOthers(s3, later, p, rest, n); }
    }
    StoreLandsLast(s.ent, time, p, codewords, first, Octets(mem, codewords[0]), rest);
  }

  /**
   End to end: a message is scheduled on p, RLC's data for it arrives before its slot is written
   again, and then anything happens that neither schedules p anew nor releases it. With distinct
   live times and sizes at that data, and later data under keys p does not hold, the PDU placed
   for a retransmission of the first codeword starts with the octets first sent. It is longer by
   the TX payload header: the TB-size octets the store was given.
   */
  lemma RetransmissionCarriesOriginal(s: Tx, time: SlotTime, p: nat, codewords: seq<nat>, mid: seq<Event>,
                                      mem: nat -> byte,
                                      later: seq<Event>, again: SlotTime, sizes: seq<nat>)
    requires Awaited(s, time, p, codewords, mid) && FitAll(later, |s.slots|) && NoneEnds(later, p)
    requires Retx(again, p, sizes).Fits(|s.slots|) && sizes != [] && sizes[|sizes| - 1] == codewords[0]
    requires DistinctKeys(AtData(s, time, p, codewords, mid).ent)
    requires AllStoreForOthers(Step(AtData(s, time, p, codewords, mid), RlcData(time, mem)), later, p)
    ensures var s3 := Step(AtData(s, time, p, codewords, mid), RlcData(time, mem));
      && s3.slots[time.slot].Some?
      && s3.slots[time.slot].value.pdu == Some(Octets(mem, codewords[0] - TX_PAYLOAD_HDR_LEN))
      && Step(After(s3, later), Retx(again, p, sizes)).slots[again.slot]
        == Some(TxMsg(p, sizes, Some(Octets(mem, codewords[0]))))
    ensures Octets(mem, codewords[0])[..codewords[0] - TX_PAYLOAD_HDR_LEN]
      == Octets(mem, codewords[0] - TX_PAYLOAD_HDR_LEN)
  {
    DataMeetsMessage(s, time, p, codewords, mid, mem);
    PlacedAfterData(s, time, p, codewords, mid, mem, later, again, sizes);
  }

  lemma PlacedAfterData(s: Tx, time: SlotTime, p: nat, codewords: seq<nat>, mid: seq<Event>, mem: nat -> byte,
                        later: seq<Event>, again: SlotTime, sizes: seq<nat>)
    requires Awaited(s, time, p, codewords, mid) && FitAll(later, |s.slots|) && NoneEnds(later, p)
    requires Retx(again, p, sizes).Fits(|s.slots|) && sizes != [] && sizes[|sizes| - 1] == codewords[0]
    requires DistinctKeys(AtData(s, time, p, codewords, mid).ent)
    requires AllStoreForOthers(Step(AtData(s, time, p, codewords, mid), RlcData(time, mem)), later, p)
    ensures var s3 := Step(AtData(s, time, p, codewords, mid), RlcData(time, mem));
      Step(After(s3, later), Retx(again, p, sizes)).slots[again.slot]
        == Some(TxMsg(p, sizes, Some(Octets(mem, codewords[0]))))
  {
    var events := mid + [RlcData(time, mem)] + later;
    NoneEndsAround(mid, RlcData(time, mem), later, p);
    DataLandsLast(s, time, p, codewords, mid, mem, later);
    OpsAroundData(Step(s, NewTx(time, p, codewords)), mid, RlcData(time, mem), later);
    PlacedPduIsLastLanded(s, time, p, codewords, events, again, sizes);
  }

  lemma NoneEndsAround(mid: seq<Event>, data: Event, later: seq<Event>, p: nat)
    requires NoneEnds(mid, p) && data.RlcData? && NoneEnds(later, p)
    ensures NoneEnds(mid + [data] + later, p)
  {
  }

  // ------------------------------------------------------------------ released processes, sent slots

  predicate NoneSchedules(events: seq<Event>, p: nat) {
    forall k :: 0 <= k < |events| ==> !(events[k].NewTx? && events[k].p == p && events[k].codewords != [])
  }

  lemma {:induction false} OpsAddNothing(s: Tx, events: seq<Event>, p: nat)
    requires s.Valid() && FitAll(events, |s.slots|) && NoneSchedules(events, p)
    ensures NoneAdds(OpsOf(s, events), p)
  {
    if events != [] {
      OpsAddNothing(s, events[..|events| - 1], p);
      var e := events[|events| - 1];
      assert !(e.NewTx? && e.p == p && e.codewords != []);
    }
  }

  /** On the store alone: nothing is fetched for a released process. */
  lemma ReleasedPdu(ent: HarqEnt, p: nat, ops: seq<Op>, again: SlotTime, sizes: seq<nat>)
    requires Inv(ent) && p < MAX_NUM_HARQ_PROC && AllValid(ops) && NoneAdds(ops, p)
    ensures FetchedPdu(Run(Apply(ent, OpRelease(p)), ops), again, p, sizes) == None
  {
    if sizes != [] {
      var n := |sizes| - 1;
      var fetches := Fetches(again, p, sizes[..n]);
      RunConcat(Apply(ent, OpRelease(p)), ops, fetches);
      ReleasedFetchesNothing(ent, p, ops + fetches, again, sizes[n]);
    }
  }

  /** From its release to its next scheduling, a process has no PDU for a retransmission, whatever
      RLC and the scheduler send. */
  lemma ReleasedPlacesNothing(s: Tx, p: nat, events: seq<Event>, again: SlotTime, sizes: seq<nat>)
    requires s.Valid() && p < MAX_NUM_HARQ_PROC && FitAll(events, |s.slots|) && NoneSchedules(events, p)
    requires Retx(again, p, sizes).Fits(|s.slots|)
    ensures Step(After(Step(s, HqRelease(p)), events), Retx(again, p, sizes)).slots[again.slot]
      == Some(TxMsg(p, sizes, None))
  {
    var s1 := Step(s, HqRelease(p));
    RunOne(s.ent, OpRelease(p));
    EntAfter(s1, events);
    OpsAddNothing(s1, events, p);
    ReleasedPdu(s.ent, p, OpsOf(s1, events), again, sizes);
  }

  /** The last event that writes the slot, if any. */
  function LastWriter(events: seq<Event>, slot: nat): Option<Event> {
    if events == [] then None
    else if events[|events| - 1].Writes(slot) then Some(events[|events| - 1])
    else LastWriter(events[..|events| - 1], slot)
  }

  /** The message is the one the event schedules. */
  predicate MessageOf(m: Option<TxMsg>, e: Event) {
    match e
    case NewTx(_, p, codewords) => m.Some? && m.value.hqProcId == p && m.value.codewords == codewords
    case Retx(_, p, codewords) => m.Some? && m.value.hqProcId == p && m.value.codewords == codewords
    case _ => m.None?
  }

  /** A slot holds the message of the last event that scheduled one there, and none once it is sent. */
  lemma {:induction false} MessageByHistory(s: Tx, events: seq<Event>, slot: nat)
    requires s.Valid() && FitAll(events, |s.slots|) && slot < |s.slots| && LastWriter(events, slot).Some?
    ensures MessageOf(After(s, events).slots[slot], LastWriter(events, slot).value)
  {
    var init, e := events[..|events| - 1], events[|events| - 1];
    if !e.Writes(slot) { MessageByHistory(s, init, slot); }
  }
}
