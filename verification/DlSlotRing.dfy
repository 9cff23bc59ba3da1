/**
 The ring of downlink slot records: what the scheduler, RLC and the multiplexer write into it
 before a slot is assembled.
 */
module DlSlotRing {
  import opened Common
  import opened SlotAssembly
  import opened SlotProperties

  datatype Brdcst = Brdcst(ssbMode: nat, numSsb: nat, sib1Mode: nat)

  /** A new transmission waits for RLC, a retransmission takes its PDU from HARQ, MSG4 waits for the multiplexer. */
  datatype MsgKind = NewTx | Retx | Msg4

  datatype MsgSched = MsgSched(msg: DlMsg, kind: MsgKind)

  /** A scheduling result, with the slot each part goes to. */
  datatype DlSched = DlSched(
    brdcst: Option<Brdcst>, brdcstSlot: nat, rar: seq<Option<RarAlloc>>, rarSlot: nat,
    msg: seq<Option<MsgSched>>, msgSlot: nat, ulGrant: bool, ulDciSlot: nat)
  {
    predicate Fits(numOfSlots: nat) {
      && brdcstSlot < numOfSlots && rarSlot < numOfSlots && msgSlot < numOfSlots && ulDciSlot < numOfSlots
      && |rar| == MAX_NUM_UE == |msg| && (brdcst.Some? ==> brdcst.value.numSsb <= MAX_NUM_SSB)
    }
  }

  predicate ValidRing(ring: seq<DlSlot>) {
    forall k :: 0 <= k < |ring| ==> ring[k].Valid()
  }

  // ------------------------------------------------------------------ what each handler writes

  function PutBrdcst(s: DlSlot, b: Brdcst): DlSlot {
    s.(isBroadcastPres := true, ssbMode := b.ssbMode, numSsb := b.numSsb, sib1Mode := b.sib1Mode)
  }

  function PutRar(s: DlSlot, ue: nat, r: RarAlloc): DlSlot
    requires s.Valid() && ue < MAX_NUM_UE
  {
    s.(rar := s.rar[ue := Some(r)])
  }

  /** A retransmission is stored together with the transport block kept by HARQ. */
  function StoredMsg(m: MsgSched): DlMsg {
    if m.kind == Retx then m.msg.(pdu := true) else m.msg
  }

  function PutMsg(s: DlSlot, ue: nat, m: MsgSched): DlSlot
    requires s.Valid() && ue < MAX_NUM_UE
  {
    s.(msg := s.msg[ue := Some(StoredMsg(m))])
  }

  function PutPdu(s: DlSlot, ue: nat): DlSlot
    requires s.Valid() && ue < MAX_NUM_UE
  {
    if s.msg[ue].Some? && s.msg[ue].value.pdschCfg
    then s.(msg := s.msg[ue := Some(s.msg[ue].value.(pdu := true))])
    else s
  }

  function UesAllocated(ring: seq<DlSlot>, a: DlSched, n: nat): (r: seq<DlSlot>)
    requires ValidRing(ring) && a.Fits(|ring|) && n <= MAX_NUM_UE
    ensures |r| == |ring| && ValidRing(r)
  {
    if n == 0 then
      (if a.brdcst.Some? then ring[a.brdcstSlot := PutBrdcst(ring[a.brdcstSlot], a.brdcst.value)] else ring)
    else
      var before := UesAllocated(ring, a, n - 1);
      MsgAllocated(RarAllocated(before, a, n - 1), a, n - 1)
  }

  function RarAllocated(ring: seq<DlSlot>, a: DlSched, ue: nat): (r: seq<DlSlot>)
    requires ValidRing(ring) && a.Fits(|ring|) && ue < MAX_NUM_UE
    ensures |r| == |ring| && ValidRing(r)
  {
    if a.rar[ue].Some? then ring[a.rarSlot := PutRar(ring[a.rarSlot], ue, a.rar[ue].value)] else ring
  }

  function MsgAllocated(ring: seq<DlSlot>, a: DlSched, ue: nat): (r: seq<DlSlot>)
    requires ValidRing(ring) && a.Fits(|ring|) && ue < MAX_NUM_UE
    ensures |r| == |ring| && ValidRing(r)
  {
    if a.msg[ue].Some? then ring[a.msgSlot := PutMsg(ring[a.msgSlot], ue, a.msg[ue].value)] else ring
  }

  function Allocated(ring: seq<DlSlot>, a: DlSched): (r: seq<DlSlot>)
    requires ValidRing(ring) && a.Fits(|ring|)
    ensures |r| == |ring| && ValidRing(r)
  {
    var ues := UesAllocated(ring, a, |a.msg|);
    if a.ulGrant then ues[a.ulDciSlot := ues[a.ulDciSlot].(ulGrant := true)] else ues
  }

  /** MSG4 of the first n UEs: `ready` tells whose message is complete. */
  function Muxed(s: DlSlot, ready: nat -> bool, n: nat): (r: DlSlot)
    requires s.Valid() && n <= MAX_NUM_UE
    ensures r.Valid()
  {
    if n == 0 then s
    else if ready(n - 1) then PutPdu(Muxed(s, ready, n - 1), n - 1)
    else Muxed(s, ready, n - 1)
  }

  class MacCellSlots {
    const dlSlot: array<DlSlot>

    ghost predicate Valid()
      reads dlSlot
    {
      ValidRing(dlSlot[..])
    }

    constructor (numOfSlots: nat)
      ensures Valid() && fresh(dlSlot) && dlSlot.Length == numOfSlots
      ensures dlSlot[..] == seq(numOfSlots, _ => EmptySlot())
    {
      dlSlot := new DlSlot[numOfSlots](_ => EmptySlot());
    }

    /** MacProcDlAlloc */
    method MacProcDlAlloc(a: DlSched)
      requires Valid() && a.Fits(dlSlot.Length)
      modifies dlSlot
      ensures Valid() && dlSlot[..] == Allocated(old(dlSlot[..]), a)
    {
      ghost var ring := dlSlot[..];
      if a.brdcst.Some? {
        dlSlot[a.brdcstSlot] := PutBrdcst(dlSlot[a.brdcstSlot], a.brdcst.value);
      }
      for ueIdx := 0 to |a.msg|
        invariant Valid() && dlSlot[..] == UesAllocated(ring, a, ueIdx)
      {
        AllocateUe(a, ueIdx);
      }
      if a.ulGrant {
        dlSlot[a.ulDciSlot] := dlSlot[a.ulDciSlot].(ulGrant := true);
      }
    }

    method AllocateUe(a: DlSched, ueIdx: nat)
      requires Valid() && a.Fits(dlSlot.Length) && ueIdx < MAX_NUM_UE
      modifies dlSlot
      ensures Valid() && dlSlot[..] == MsgAllocated(RarAllocated(old(dlSlot[..]), a, ueIdx), a, ueIdx)
    {
      if a.rar[ueIdx].Some? {
        dlSlot[a.rarSlot] := PutRar(dlSlot[a.rarSlot], ueIdx, a.rar[ueIdx].value);
      }
      assert dlSlot[..] == RarAllocated(old(dlSlot[..]), a, ueIdx);
      if a.msg[ueIdx].Some? {
        dlSlot[a.msgSlot] := PutMsg(dlSlot[a.msgSlot], ueIdx, a.msg[ueIdx].value);
      }
    }

    /** MacProcDlPageAlloc */
    method MacProcDlPageAlloc(slot: nat)
      requires Valid() && slot < dlSlot.Length
      modifies dlSlot
      ensures Valid() && dlSlot[..] == old(dlSlot[..])[slot := old(dlSlot[slot]).(page := true)]
    {
      dlSlot[slot] := dlSlot[slot].(page := true);
    }

    /** The part of MacProcRlcDlData that stores the multiplexed PDU. */
    method MacProcRlcDlData(slot: nat, ueIdx: nat)
      requires Valid() && slot < dlSlot.Length && ueIdx < MAX_NUM_UE
      modifies dlSlot
      ensures Valid() && dlSlot[..] == old(dlSlot[..])[slot := PutPdu(old(dlSlot[slot]), ueIdx)]
    {
      var s := dlSlot[slot];
      if s.msg[ueIdx].Some? && s.msg[ueIdx].value.pdschCfg {
        dlSlot[slot] := s.(msg := s.msg[ueIdx := Some(s.msg[ueIdx].value.(pdu := true))]);
      }
    }

    /** buildAndSendMuxPdu */
    method BuildAndSendMuxPdu(slot: nat, ready: nat -> bool)
      requires Valid() && slot < dlSlot.Length
      modifies dlSlot
      ensures Valid() && dlSlot[..] == old(dlSlot[..])[slot := Muxed(old(dlSlot[slot]), ready, MAX_NUM_UE)]
    {
      ghost var s := dlSlot[slot];
      ghost var ring := dlSlot[..];
      for ueIdx := 0 to |dlSlot[slot].msg|
        invariant dlSlot[..] == ring[slot := Muxed(s, ready, ueIdx)]
      {
        if dlSlot[slot].msg[ueIdx].Some? && ready(ueIdx) && dlSlot[slot].msg[ueIdx].value.pdschCfg {
          dlSlot[slot] := PutPdu(dlSlot[slot], ueIdx);
        }
      }
    }
  }

  // ------------------------------------------------------------------ runs

  datatype Event =
    | Alloc(a: DlSched)
    | PageAlloc(slot: nat)
    | RlcData(slot: nat, ue: nat)
    | Mux(slot: nat, ready: nat -> bool)
    | Assemble(slot: nat)

  /** Slots and UEs the ring does not have are not named by any event. */
  predicate Fits(e: Event, numOfSlots: nat) {
    match e
    case Alloc(a) => a.Fits(numOfSlots)
    case PageAlloc(slot) => slot < numOfSlots
    case RlcData(slot, ue) => slot < numOfSlots && ue < MAX_NUM_UE
    case Mux(slot, _) => slot < numOfSlots
    case Assemble(slot) => slot < numOfSlots
  }

  function Step(ring: seq<DlSlot>, e: Event): (r: seq<DlSlot>)
    requires ValidRing(ring) && Fits(e, |ring|)
    ensures |r| == |ring| && ValidRing(r)
  {
    match e
    case Alloc(a) => Allocated(ring, a)
    case PageAlloc(slot) => ring[slot := ring[slot].(page := true)]
    case RlcData(slot, ue) => ring[slot := PutPdu(ring[slot], ue)]
    case Mux(slot, ready) => ring[slot := Muxed(ring[slot], ready, |ring[slot].msg|)]
    case Assemble(slot) => ring[slot := EmptySlot()]
  }

  predicate FitAll(run: seq<Event>, numOfSlots: nat) {
    forall k :: 0 <= k < |run| ==> Fits(run[k], numOfSlots)
  }

  function After(numOfSlots: nat, run: seq<Event>): (r: seq<DlSlot>)
    requires FitAll(run, numOfSlots)
    ensures |r| == numOfSlots && ValidRing(r)
  {
    if run == [] then seq(numOfSlots, _ => EmptySlot())
    else Step(After(numOfSlots, run[..|run| - 1]), run[|run| - 1])
  }

  predicate AllNeedBroadcast(ring: seq<DlSlot>) {
    forall k :: 0 <= k < |ring| ==> Sib1NeedsBroadcast(ring[k])
  }

  lemma {:induction false} UesKeepBroadcast(ring: seq<DlSlot>, a: DlSched, n: nat)
    requires ValidRing(ring) && a.Fits(|ring|) && n <= MAX_NUM_UE && AllNeedBroadcast(ring)
    ensures AllNeedBroadcast(UesAllocated(ring, a, n))
  {
    if n > 0 { UesKeepBroadcast(ring, a, n - 1); }
  }

  lemma {:induction false} MuxKeepsShared(s: DlSlot, ready: nat -> bool, n: nat)
    requires s.Valid() && n <= MAX_NUM_UE
    ensures Muxed(s, ready, n).sib1Mode == s.sib1Mode && Muxed(s, ready, n).isBroadcastPres == s.isBroadcastPres
  {
    if n > 0 { MuxKeepsShared(s, ready, n - 1); }
  }

  lemma StepKeepsBroadcast(ring: seq<DlSlot>, e: Event)
    requires ValidRing(ring) && Fits(e, |ring|) && AllNeedBroadcast(ring)
    ensures AllNeedBroadcast(Step(ring, e))
  {
    match e
    case Alloc(a) => UesKeepBroadcast(ring, a, |a.msg|);
    case Mux(slot, ready) => MuxKeepsShared(ring[slot], ready, |ring[slot].msg|);
    case _ =>
  }

  /** In every reachable ring a SIB1 mode comes with a broadcast. */
  lemma {:induction false} ReachableSib1NeedsBroadcast(numOfSlots: nat, run: seq<Event>)
    requires FitAll(run, numOfSlots)
    ensures AllNeedBroadcast(After(numOfSlots, run))
  {
    if run != [] {
      ReachableSib1NeedsBroadcast(numOfSlots, run[..|run| - 1]);
      StepKeepsBroadcast(After(numOfSlots, run[..|run| - 1]), run[|run| - 1]);
    }
  }

  // ------------------------------------------------------------------ messages without their PDU

  /** The slot holds a message for the UE that has a PDSCH and no PDU yet. */
  predicate Waiting(s: DlSlot, ue: nat)
    requires s.Valid() && ue < MAX_NUM_UE
  {
    s.msg[ue].Some? && s.msg[ue].value.pdschCfg && !s.msg[ue].value.pdu
  }

  predicate Schedules(e: Event, slot: nat, ue: nat) {
    e.Alloc? && e.a.msgSlot == slot && ue < |e.a.msg| && e.a.msg[ue].Some?
  }

  /** A new transmission, or MSG4, with a PDSCH. */
  predicate SchedulesWaiting(e: Event, slot: nat, ue: nat) {
    && Schedules(e, slot, ue) && e.a.msg[ue].value.kind != Retx
    && e.a.msg[ue].value.msg.pdschCfg && !e.a.msg[ue].value.msg.pdu
  }

  /** RLC's data, the multiplexed MSG4, or the assembly of the slot. */
  predicate Serves(e: Event, slot: nat, ue: nat) {
    match e
    case RlcData(s, u) => s == slot && u == ue
    case Mux(s, ready) => s == slot && ready(ue)
    case Assemble(s) => s == slot
    case _ => false
  }

  predicate Leaves(e: Event, slot: nat, ue: nat) {
    !Schedules(e, slot, ue) && !Serves(e, slot, ue)
  }

  lemma {:induction false} MsgAfterUes(ring: seq<DlSlot>, a: DlSched, n: nat, slot: nat, ue: nat)
    requires ValidRing(ring) && a.Fits(|ring|) && n <= MAX_NUM_UE && slot < |ring| && ue < MAX_NUM_UE
    ensures UesAllocated(ring, a, n)[slot].msg[ue] ==
      if ue < n && slot == a.msgSlot && a.msg[ue].Some? then PutMsg(ring[slot], ue, a.msg[ue].value).msg[ue]
      else ring[slot].msg[ue]
  {
    if n > 0 {
      MsgAfterUes(ring, a, n - 1, slot, ue);
      MsgAfterUe(UesAllocated(ring, a, n - 1), a, n - 1, slot, ue);
    }
  }

  lemma MsgAfterUe(ring: seq<DlSlot>, a: DlSched, u: nat, slot: nat, ue: nat)
    requires ValidRing(ring) && a.Fits(|ring|) && u < MAX_NUM_UE && slot < |ring| && ue < MAX_NUM_UE
    ensures MsgAllocated(RarAllocated(ring, a, u), a, u)[slot].msg[ue] ==
      if ue == u && slot == a.msgSlot && a.msg[ue].Some? then PutMsg(ring[slot], ue, a.msg[ue].value).msg[ue]
      else ring[slot].msg[ue]
  {
  }

  lemma {:induction false} MsgAfterMux(s: DlSlot, ready: nat -> bool, n: nat, ue: nat)
    requires s.Valid() && n <= MAX_NUM_UE && ue < MAX_NUM_UE
    ensures Muxed(s, ready, n).msg[ue] == if ue < n && ready(ue) then PutPdu(s, ue).msg[ue] else s.msg[ue]
  {
    if n > 0 { MsgAfterMux(s, ready, n - 1, ue); }
  }

  lemma WaitingStep(ring: seq<DlSlot>, e: Event, slot: nat, ue: nat)
    requires ValidRing(ring) && Fits(e, |ring|) && slot < |ring| && ue < MAX_NUM_UE
    ensures Waiting(Step(ring, e)[slot], ue)
      <==> SchedulesWaiting(e, slot, ue) || (Leaves(e, slot, ue) && Waiting(ring[slot], ue))
  {
    match e
    case Alloc(a) => MsgAfterUes(ring, a, |a.msg|, slot, ue);
    case Mux(s, ready) => MsgAfterMux(ring[s], ready, |ring[s].msg|, ue);
    case _ =>
  }

  /** Event i scheduled the message, and nothing since has served or replaced it. */
  predicate WaitsSince(run: seq<Event>, i: int, slot: nat, ue: nat) {
    0 <= i < |run| && SchedulesWaiting(run[i], slot, ue) && forall j :: i < j < |run| ==> Leaves(run[j], slot, ue)
  }

  ghost predicate StillWaits(run: seq<Event>, slot: nat, ue: nat) {
    exists i :: WaitsSince(run, i, slot, ue)
  }

  lemma WaitsSnoc(run: seq<Event>, slot: nat, ue: nat)
    requires run != []
    ensures StillWaits(run, slot, ue)
      <==> SchedulesWaiting(run[|run| - 1], slot, ue)
           || (Leaves(run[|run| - 1], slot, ue) && StillWaits(run[..|run| - 1], slot, ue))
  {
    var init := run[..|run| - 1];
    if SchedulesWaiting(run[|run| - 1], slot, ue) { assert WaitsSince(run, |run| - 1, slot, ue); }
    if i :| WaitsSince(init, i, slot, ue) && Leaves(run[|run| - 1], slot, ue) { assert WaitsSince(run, i, slot, ue); }
    if i :| WaitsSince(run, i, slot, ue) && i < |init| { assert WaitsSince(init, i, slot, ue); }
  }

  /** A message lacks its PDU exactly when it was scheduled as a new transmission (or MSG4) and
      has been neither served by RLC or the multiplexer nor replaced nor sent since. */
  lemma {:induction false} WaitingByHistory(numOfSlots: nat, run: seq<Event>, slot: nat, ue: nat)
    requires FitAll(run, numOfSlots) && slot < numOfSlots && ue < MAX_NUM_UE
    ensures Waiting(After(numOfSlots, run)[slot], ue) <==> StillWaits(run, slot, ue)
  {
    if run != [] {
      var init := run[..|run| - 1];
      WaitingByHistory(numOfSlots, init, slot, ue);
      WaitingStep(After(numOfSlots, init), run[|run| - 1], slot, ue);
      WaitsSnoc(run, slot, ue);
    }
  }

  lemma NoneWaiting(s: DlSlot, n: nat)
    requires s.Valid() && n <= MAX_NUM_UE
    ensures MsgsHavePdus(s, n) <==> forall ue :: 0 <= ue < n ==> !Waiting(s, ue)
  {
    if forall ue :: 0 <= ue < n ==> !Waiting(s, ue) {
      forall ue | 0 <= ue < n && s.msg[ue].Some? && s.msg[ue].value.pdschCfg ensures s.msg[ue].value.pdu {
        assert !Waiting(s, ue);
      }
    }
  }

  /** In every reachable slot DL_TTI and TX_DATA number the same allocations alike, exactly when
      no message with a PDSCH still waits for its PDU. */
  lemma ReachableIndicesAgree(numOfSlots: nat, run: seq<Event>, slot: nat)
    requires FitAll(run, numOfSlots) && slot < numOfSlots
    ensures var s := After(numOfSlots, run)[slot];
      Pdschs(DlPdus(s, |s.rar|)) == TxPdus(AfterDl(s))
      <==> forall ue :: 0 <= ue < MAX_NUM_UE ==> !StillWaits(run, slot, ue)
  {
    var s := After(numOfSlots, run)[slot];
    ReachableSib1NeedsBroadcast(numOfSlots, run);
    SameIndexForSameAllocation(s);
    forall ue | 0 <= ue < MAX_NUM_UE ensures Waiting(s, ue) <==> StillWaits(run, slot, ue) {
      WaitingByHistory(numOfSlots, run, slot, ue);
    }
    NoneWaiting(s, |s.rar|);
  }

  // ------------------------------------------------------------------ a slot that loses memory

  /** UE 0 gets a RAR with a PDCCH configuration only, in a ring of one slot. */
  function PdcchOnly(): DlSched {
    DlSched(None, 0, [Some(RarAlloc(true, false)), None, None], 0, [None, None, None], 0, false, 0)
  }

  function PdcchOnlySlot(): DlSlot {
    EmptySlot().(rar := [Some(RarAlloc(true, false)), None, None])
  }

  lemma PdcchOnlyIsReachable()
    ensures FitAll([Alloc(PdcchOnly())], 1) && After(1, [Alloc(PdcchOnly())]) == [PdcchOnlySlot()]
  {
    var run := [Alloc(PdcchOnly())];
    assert run[..0] == [] && After(1, run[..0]) == seq(1, _ => EmptySlot());
    PdcchOnlyAllocated(seq(1, _ => EmptySlot()));
  }

  /** In that reachable slot the PDCCH is sent, and the RAR block is owned but never freed. */
  lemma PdcchOnlySlotLosesItsRar(s: DlSlot)
    requires s == PdcchOnlySlot()
    ensures DlPdus(s, |s.rar|) == [Pdcch(Rar(0))] && TxCount(s, |s.rar|) == 0
    ensures RarBlock(0) in UeOwned(s, 0) && RarBlock(0) !in UeFreed(s, 0) && !AllFreed(s)
  {
    PdcchOnlyCounts(s);
    AllFreedExactlyWhenSent(s);
    assert !NoUeForTx(s, 0);
  }

  lemma PdcchOnlyAllocated(ring: seq<DlSlot>)
    requires ring == [EmptySlot()]
    ensures ValidRing(ring) && Allocated(ring, PdcchOnly()) == [PdcchOnlySlot()]
  {
    var a := PdcchOnly();
    assert UesAllocated(ring, a, 0) == ring;
    assert ring[0].rar[0 := Some(RarAlloc(true, false))] == PdcchOnlySlot().rar;
    assert RarAllocated(ring, a, 0) == [PdcchOnlySlot()];
    assert UesAllocated(ring, a, 1) == [PdcchOnlySlot()];
    assert UesAllocated(ring, a, 2) == [PdcchOnlySlot()];
  }

  lemma PdcchOnlyCounts(s: DlSlot)
    requires s == PdcchOnlySlot()
    ensures DlPdus(s, |s.rar|) == [Pdcch(Rar(0))] && DlCount(s, |s.rar|) == 1 && TxCount(s, |s.rar|) == 0
    ensures RarBlock(0) in UeOwned(s, 0) && RarBlock(0) !in UeFreed(s, 0)
  {
    assert DlPdus(s, 0) == [] && DlPdus(s, 1) == DlPdus(s, 2) == [Pdcch(Rar(0))];
    assert DlCount(s, 0) == 0 && DlCount(s, 1) == DlCount(s, 2) == 1;
    assert TxCount(s, 0) == TxCount(s, 1) == TxCount(s, 2) == 0;
    assert FreedByDl(s)[0] == UeFreedDl(s, 0);
  }
}
