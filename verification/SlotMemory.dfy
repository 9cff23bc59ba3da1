/**
 The heap objects of the downlink slots over whole runs: every object handed to a slot is freed
 by its assembly, lost, or still held.
 */
module SlotMemory {
  import opened Common
  import opened SlotAssembly
  import opened SlotProperties
  import opened DlSlotRing
  import TtiChain

  function Count(c: bool): nat {
    if c then 1 else 0
  }

  // ------------------------------------------------------------------ one slot, object by object

  predicate OfRar(o: Obj) {
    o.RarPdcchCfg? || o.RarPdschCfg? || o.RarBlock?
  }

  predicate OfMsg(o: Obj) {
    o.MsgPdcchCfg? || o.MsgPdschCfg? || o.MsgPdu? || o.MsgBlock?
  }

  predicate RarOwns(r: Option<RarAlloc>, o: Obj)
    requires OfRar(o)
  {
    r.Some? && (if o.RarPdcchCfg? then r.value.pdcchCfg else if o.RarPdschCfg? then r.value.pdschCfg else true)
  }

  predicate MsgOwns(m: Option<DlMsg>, o: Obj)
    requires OfMsg(o)
  {
    && m.Some?
    && if o.MsgPdcchCfg? then m.value.pdcchCfg
       else if o.MsgPdschCfg? then m.value.pdschCfg
       else if o.MsgPdu? then m.value.pdu
       else true
  }

  /** The slot holds a pointer to the object. */
  predicate Owns(s: DlSlot, o: Obj)
    requires s.Valid()
  {
    if OfRar(o) then o.ue < MAX_NUM_UE && RarOwns(s.rar[o.ue], o)
    else if OfMsg(o) then o.ue < MAX_NUM_UE && MsgOwns(s.msg[o.ue], o)
    else if o == Sib1PdcchCfg then s.sib1Mode != 0
    else if o == UlGrantInfo then s.ulGrant
    else s.page
  }

  predicate Shared(o: Obj) {
    o == Sib1PdcchCfg || o == PageInfo || o == PagePdu || o == UlGrantInfo
  }

  /** The assembly of the slot frees the object: PDCCH configurations in the DL_TTI pass, the uplink
      grant always, everything else in the TX_DATA pass. */
  predicate Frees(s: DlSlot, o: Obj)
    requires s.Valid()
  {
    && Owns(s, o)
    && (o == UlGrantInfo || (if OfPdcch(o) then DlCount(s, |s.rar|) > 0 else TxCount(s, |s.rar|) > 0))
  }

  /** How often the assembly frees the object, by what the chain of the slot gives back. */
  function FreedTimes(s: DlSlot, o: Obj): nat
    requires s.Valid()
  {
    if Shared(o) then SharedFreed(s)[o] else if o.ue < MAX_NUM_UE then TtiChain.UesFreed(s)[o.ue][o] else 0
  }

  predicate OfPdcch(o: Obj) {
    o.RarPdcchCfg? || o.MsgPdcchCfg?
  }

  lemma RarFreedTimes(r: Option<RarAlloc>, ue: nat, o: Obj)
    ensures RarFreedDl(r, ue)[o] == Count(OfRar(o) && o.ue == ue && OfPdcch(o) && RarOwns(r, o))
    ensures RarFreedTx(r, ue)[o] == Count(OfRar(o) && o.ue == ue && !OfPdcch(o) && RarOwns(r, o))
  {
  }

  lemma MsgFreedTimes(m: Option<DlMsg>, ue: nat, o: Obj)
    ensures MsgFreedDl(m, ue)[o] == Count(OfMsg(o) && o.ue == ue && OfPdcch(o) && MsgOwns(m, o))
    ensures MsgFreedTx(m, ue)[o] == Count(OfMsg(o) && o.ue == ue && !OfPdcch(o) && MsgOwns(m, o))
  {
  }

  lemma SumTimes(a: multiset<Obj>, b: multiset<Obj>, o: Obj)
    ensures (a + b)[o] == a[o] + b[o]
  {
  }

  lemma JoinTimes(a: multiset<Obj>, inA: bool, b: multiset<Obj>, inB: bool, all: multiset<Obj>, inAll: bool, o: Obj)
    requires a[o] == Count(inA) && b[o] == Count(inB) && !(inA && inB)
    requires all == a + b && inAll == (inA || inB)
    ensures all[o] == Count(inAll)
  {
  }

  predicate RarPass(s: DlSlot, o: Obj, pdcch: bool)
    requires s.Valid() && !Shared(o) && o.ue < MAX_NUM_UE
  {
    OfRar(o) && OfPdcch(o) == pdcch && RarOwns(s.rar[o.ue], o)
  }

  predicate MsgPass(s: DlSlot, o: Obj, pdcch: bool)
    requires s.Valid() && !Shared(o) && o.ue < MAX_NUM_UE
  {
    OfMsg(o) && OfPdcch(o) == pdcch && MsgOwns(s.msg[o.ue], o)
  }

  lemma DlPassTimes(s: DlSlot, o: Obj)
    requires s.Valid() && !Shared(o) && o.ue < MAX_NUM_UE
    ensures UeFreedDl(s, o.ue)[o] == Count(OfPdcch(o) && Owns(s, o))
  {
    var r, m, ue := s.rar[o.ue], s.msg[o.ue], o.ue;
    RarFreedTimes(r, ue, o);
    MsgFreedTimes(m, ue, o);
    JoinTimes(RarFreedDl(r, ue), RarPass(s, o, true), MsgFreedDl(m, ue), MsgPass(s, o, true),
              UeFreedDl(s, ue), OfPdcch(o) && Owns(s, o), o);
  }

  lemma TxPassTimes(s: DlSlot, o: Obj)
    requires s.Valid() && !Shared(o) && o.ue < MAX_NUM_UE
    ensures UeFreedTx(s, o.ue)[o] == Count(!OfPdcch(o) && Owns(s, o))
  {
    var r, m, ue := s.rar[o.ue], s.msg[o.ue], o.ue;
    RarFreedTimes(r, ue, o);
    MsgFreedTimes(m, ue, o);
    JoinTimes(RarFreedTx(r, ue), RarPass(s, o, false), MsgFreedTx(m, ue), MsgPass(s, o, false),
              UeFreedTx(s, ue), !OfPdcch(o) && Owns(s, o), o);
  }

  lemma UeTimes(s: DlSlot, o: Obj)
    requires s.Valid() && !Shared(o) && o.ue < MAX_NUM_UE
    ensures UeFreed(s, o.ue)[o] == Count(Frees(s, o))
  {
    DlPassTimes(s, o);
    TxPassTimes(s, o);
    var dl: multiset<Obj> := if DlCount(s, |s.rar|) > 0 then UeFreedDl(s, o.ue) else multiset{};
    var tx: multiset<Obj> := if TxCount(s, |s.rar|) > 0 then UeFreedTx(s, o.ue) else multiset{};
    PassesOf(s, o.ue);
    SumTimes(dl, tx, o);
  }

  lemma PassesOf(s: DlSlot, ue: nat)
    requires s.Valid() && ue < MAX_NUM_UE
    ensures UeFreed(s, ue) == (if DlCount(s, |s.rar|) > 0 then UeFreedDl(s, ue) else multiset{})
      + (if TxCount(s, |s.rar|) > 0 then UeFreedTx(s, ue) else multiset{})
  {
    assert FreedDl(s)[ue] == UeFreedDl(s, ue) && FreedTx(s)[ue] == UeFreedTx(s, ue);
    assert NoneFreed()[ue] == multiset{};
  }

  lemma SharedTxTimes(s: DlSlot, o: Obj)
    requires s.Valid() && Shared(o)
    ensures SharedFreedTx(s)[o] == Count(o != UlGrantInfo && Owns(s, o))
  {
    SumTimes(One(s.sib1Mode != 0, Sib1PdcchCfg) + One(s.page, PagePdu), One(s.page, PageInfo), o);
    SumTimes(One(s.sib1Mode != 0, Sib1PdcchCfg), One(s.page, PagePdu), o);
  }

  lemma SharedTimes(s: DlSlot, o: Obj)
    requires s.Valid() && Shared(o)
    ensures SharedFreed(s)[o] == Count(Frees(s, o))
  {
    SharedTxTimes(s, o);
    SumTimes(SharedFreedByTx(s), One(s.ulGrant, UlGrantInfo), o);
  }

  /** Each object is freed at most once, and exactly the objects named above are. */
  lemma FreedOnce(s: DlSlot, o: Obj)
    requires s.Valid()
    ensures FreedTimes(s, o) == Count(Frees(s, o))
  {
    if Shared(o) {
      SharedTimes(s, o);
    } else if o.ue < MAX_NUM_UE {
      UeTimes(s, o);
      assert TtiChain.UesFreed(s)[o.ue] == UeFreed(s, o.ue);
    }
  }

  /** The DL_TTI pass takes the PDCCH configurations of the UEs out of the slot, and nothing else. */
  lemma DlPassTakesThePdcchs(s: DlSlot, o: Obj)
    requires s.Valid()
    ensures Owns(AfterDl(s), o) <==> Owns(s, o) && !OfPdcch(o)
  {
  }

  // ------------------------------------------------------------------ what an event does to an object

  predicate SchedulesRar(e: Event, slot: nat, ue: nat) {
    e.Alloc? && e.a.rarSlot == slot && ue < |e.a.rar| && e.a.rar[ue].Some?
  }

  /** The event stores a new pointer where slot k, now `s`, keeps the object. */
  predicate Writes(s: DlSlot, e: Event, k: nat, o: Obj)
    requires s.Valid()
  {
    match e
    case Alloc(a) =>
      if OfRar(o) then SchedulesRar(e, k, o.ue)
      else if OfMsg(o) then Schedules(e, k, o.ue)
      else if o == Sib1PdcchCfg then a.brdcst.Some? && a.brdcstSlot == k
      else o == UlGrantInfo && a.ulGrant && a.ulDciSlot == k
    case PageAlloc(slot) => slot == k && (o == PageInfo || o == PagePdu)
    case RlcData(slot, ue) => slot == k && o == MsgPdu(ue) && ue < MAX_NUM_UE && HasMsgPdsch(s, ue)
    case Mux(slot, ready) => slot == k && o.MsgPdu? && o.ue < MAX_NUM_UE && ready(o.ue) && HasMsgPdsch(s, o.ue)
    case Assemble(_) => false
  }

  /** A retransmission comes with the PDU kept by HARQ. */
  predicate SchedMsgOwns(m: MsgSched, o: Obj)
    requires OfMsg(o)
  {
    if o.MsgPdcchCfg? then m.msg.pdcchCfg
    else if o.MsgPdschCfg? then m.msg.pdschCfg
    else if o.MsgPdu? then m.msg.pdu || m.kind == Retx
    else true
  }

  /** The new pointer is an object; an allocation may come without a configuration, or clear one. */
  predicate Hands(s: DlSlot, e: Event, k: nat, o: Obj)
    requires s.Valid()
  {
    && Writes(s, e, k, o)
    && (e.Alloc? ==>
          if OfRar(o) then RarOwns(e.a.rar[o.ue], o)
          else if OfMsg(o) then SchedMsgOwns(e.a.msg[o.ue].value, o)
          else o == Sib1PdcchCfg ==> e.a.brdcst.value.sib1Mode != 0)
  }

  predicate Assembles(e: Event, k: nat) {
    e.Assemble? && e.slot == k
  }

  lemma {:induction false} RarAfterUes(ring: seq<DlSlot>, a: DlSched, n: nat, slot: nat, ue: nat)
    requires ValidRing(ring) && a.Fits(|ring|) && n <= MAX_NUM_UE && slot < |ring| && ue < MAX_NUM_UE
    ensures UesAllocated(ring, a, n)[slot].rar[ue] ==
      if ue < n && slot == a.rarSlot && a.rar[ue].Some? then a.rar[ue] else ring[slot].rar[ue]
  {
    if n > 0 {
      RarAfterUes(ring, a, n - 1, slot, ue);
      RarAfterUe(UesAllocated(ring, a, n - 1), a, n - 1, slot, ue);
    }
  }

  lemma RarAfterUe(ring: seq<DlSlot>, a: DlSched, u: nat, slot: nat, ue: nat)
    requires ValidRing(ring) && a.Fits(|ring|) && u < MAX_NUM_UE && slot < |ring| && ue < MAX_NUM_UE
    ensures MsgAllocated(RarAllocated(ring, a, u), a, u)[slot].rar[ue] ==
      if ue == u && slot == a.rarSlot && a.rar[ue].Some? then a.rar[ue] else ring[slot].rar[ue]
  {
  }

  lemma {:induction false} SharedAfterUes(ring: seq<DlSlot>, a: DlSched, n: nat, slot: nat)
    requires ValidRing(ring) && a.Fits(|ring|) && n <= MAX_NUM_UE && slot < |ring|
    ensures var s := UesAllocated(ring, a, n)[slot];
      && s.page == ring[slot].page && s.ulGrant == ring[slot].ulGrant
      && s.sib1Mode == if a.brdcst.Some? && a.brdcstSlot == slot then a.brdcst.value.sib1Mode else ring[slot].sib1Mode
  {
    if n > 0 {
      SharedAfterUes(ring, a, n - 1, slot);
      SharedAfterUe(UesAllocated(ring, a, n - 1), a, n - 1, slot);
    }
  }

  lemma SharedAfterUe(ring: seq<DlSlot>, a: DlSched, u: nat, slot: nat)
    requires ValidRing(ring) && a.Fits(|ring|) && u < MAX_NUM_UE && slot < |ring|
    ensures var s := MsgAllocated(RarAllocated(ring, a, u), a, u)[slot];
      s.page == ring[slot].page && s.ulGrant == ring[slot].ulGrant && s.sib1Mode == ring[slot].sib1Mode
  {
  }

  lemma {:induction false} OthersAfterMux(s: DlSlot, ready: nat -> bool, n: nat)
    requires s.Valid() && n <= MAX_NUM_UE
    ensures Muxed(s, ready, n) == s.(msg := Muxed(s, ready, n).msg)
  {
    if n > 0 { OthersAfterMux(s, ready, n - 1); }
  }

  predicate OwnsAfter(ring: seq<DlSlot>, e: Event, k: nat, o: Obj)
    requires ValidRing(ring) && k < |ring|
  {
    !Assembles(e, k) && (Hands(ring[k], e, k, o) || (!Writes(ring[k], e, k, o) && Owns(ring[k], o)))
  }

  lemma AllocOwns(ring: seq<DlSlot>, a: DlSched, k: nat, o: Obj)
    requires ValidRing(ring) && a.Fits(|ring|) && k < |ring|
    ensures Owns(Allocated(ring, a)[k], o) <==> OwnsAfter(ring, Alloc(a), k, o)
  {
    if Shared(o) {
      SharedAfterUes(ring, a, |a.msg|, k);
    } else if o.ue < MAX_NUM_UE {
      if OfRar(o) { AllocOwnsRar(ring, a, k, o); } else { AllocOwnsMsg(ring, a, k, o); }
    }
  }

  lemma AllocOwnsRar(ring: seq<DlSlot>, a: DlSched, k: nat, o: Obj)
    requires ValidRing(ring) && a.Fits(|ring|) && k < |ring| && OfRar(o) && o.ue < MAX_NUM_UE
    ensures Owns(Allocated(ring, a)[k], o) <==> OwnsAfter(ring, Alloc(a), k, o)
  {
    RarAfterUes(ring, a, |a.msg|, k, o.ue);
    assert Allocated(ring, a)[k].rar == UesAllocated(ring, a, |a.msg|)[k].rar;
  }

  lemma AllocOwnsMsg(ring: seq<DlSlot>, a: DlSched, k: nat, o: Obj)
    requires ValidRing(ring) && a.Fits(|ring|) && k < |ring| && OfMsg(o) && o.ue < MAX_NUM_UE
    ensures Owns(Allocated(ring, a)[k], o) <==> OwnsAfter(ring, Alloc(a), k, o)
  {
    MsgAfterUes(ring, a, |a.msg|, k, o.ue);
    assert Allocated(ring, a)[k].msg == UesAllocated(ring, a, |a.msg|)[k].msg;
  }

  lemma MuxOwns(ring: seq<DlSlot>, slot: nat, ready: nat -> bool, k: nat, o: Obj)
    requires ValidRing(ring) && slot < |ring| && k < |ring|
    ensures Owns(Step(ring, Mux(slot, ready))[k], o) <==> OwnsAfter(ring, Mux(slot, ready), k, o)
  {
    OthersAfterMux(ring[slot], ready, |ring[slot].msg|);
    if !Shared(o) && o.ue < MAX_NUM_UE { MsgAfterMux(ring[slot], ready, |ring[slot].msg|, o.ue); }
  }

  /** After an event, slot k owns an object exactly when the event handed it over, or it owned it
      and the event neither stored over it nor assembled the slot. */
  lemma StepOwns(ring: seq<DlSlot>, e: Event, k: nat, o: Obj)
    requires ValidRing(ring) && Fits(e, |ring|) && k < |ring|
    ensures Owns(Step(ring, e)[k], o) <==> OwnsAfter(ring, e, k, o)
  {
    match e
    case Alloc(a) => AllocOwns(ring, a, k, o);
    case Mux(slot, ready) => MuxOwns(ring, slot, ready, k, o);
    case PageAlloc(slot) => PageOwns(ring, slot, k, o);
    case RlcData(slot, ue) => RlcDataOwns(ring, slot, ue, k, o);
    case Assemble(_) =>
  }

  lemma PageOwns(ring: seq<DlSlot>, slot: nat, k: nat, o: Obj)
    requires ValidRing(ring) && slot < |ring| && k < |ring|
    ensures Owns(Step(ring, PageAlloc(slot))[k], o) <==> OwnsAfter(ring, PageAlloc(slot), k, o)
  {
  }

  lemma RlcDataOwns(ring: seq<DlSlot>, slot: nat, ue: nat, k: nat, o: Obj)
    requires ValidRing(ring) && slot < |ring| && ue < MAX_NUM_UE && k < |ring|
    ensures Owns(Step(ring, RlcData(slot, ue))[k], o) <==> OwnsAfter(ring, RlcData(slot, ue), k, o)
  {
  }

  // ------------------------------------------------------------------ the ledger of a run

  /** The object is lost: a pointer to it is stored over, or the slot is cleared without freeing it. */
  predicate Loses(s: DlSlot, e: Event, k: nat, o: Obj)
    requires s.Valid()
  {
    Owns(s, o) && (Writes(s, e, k, o) || (Assembles(e, k) && !Frees(s, o)))
  }

  function Handed(n: nat, run: seq<Event>, k: nat, o: Obj): nat
    requires FitAll(run, n) && k < n
  {
    if run == [] then 0
    else
      var init := run[..|run| - 1];
      Handed(n, init, k, o) + Count(Hands(After(n, init)[k], run[|run| - 1], k, o))
  }

  function Freed(n: nat, run: seq<Event>, k: nat, o: Obj): nat
    requires FitAll(run, n) && k < n
  {
    if run == [] then 0
    else
      var init := run[..|run| - 1];
      Freed(n, init, k, o) + (if Assembles(run[|run| - 1], k) then FreedTimes(After(n, init)[k], o) else 0)
  }

  function Lost(n: nat, run: seq<Event>, k: nat, o: Obj): nat
    requires FitAll(run, n) && k < n
  {
    if run == [] then 0
    else
      var init := run[..|run| - 1];
      Lost(n, init, k, o) + Count(Loses(After(n, init)[k], run[|run| - 1], k, o))
  }

  lemma StepBalances(ring: seq<DlSlot>, e: Event, k: nat, o: Obj)
    requires ValidRing(ring) && Fits(e, |ring|) && k < |ring|
    ensures Count(Owns(ring[k], o)) + Count(Hands(ring[k], e, k, o))
      == (if Assembles(e, k) then FreedTimes(ring[k], o) else 0) + Count(Loses(ring[k], e, k, o))
        + Count(Owns(Step(ring, e)[k], o))
  {
    StepOwns(ring, e, k, o);
    FreedOnce(ring[k], o);
  }

  /** Over every run, the objects handed to a slot are those freed, those lost and the one held. */
  lemma {:induction false} LedgerBalances(n: nat, run: seq<Event>, k: nat, o: Obj)
    requires FitAll(run, n) && k < n
    ensures Handed(n, run, k, o) == Freed(n, run, k, o) + Lost(n, run, k, o) + Count(Owns(After(n, run)[k], o))
  {
    if run != [] {
      var init := run[..|run| - 1];
      LedgerBalances(n, init, k, o);
      StepBalances(After(n, init), run[|run| - 1], k, o);
    }
  }

  /** At which events of the run the object is handed over. */
  function HandsIn(n: nat, run: seq<Event>, k: nat, o: Obj): int -> bool
    requires FitAll(run, n) && k < n
  {
    (i: int) => 0 <= i < |run| && Hands(After(n, run[..i])[k], run[i], k, o)
  }

  /** At which events a pointer to it is stored over, or the slot is assembled. */
  function TouchesIn(n: nat, run: seq<Event>, k: nat, o: Obj): int -> bool
    requires FitAll(run, n) && k < n
  {
    (i: int) => 0 <= i < |run| && (Writes(After(n, run[..i])[k], run[i], k, o) || Assembles(run[i], k))
  }

  /** Event i hands over, and no event after it and before event m touches. */
  predicate HeldSince(hands: int -> bool, touches: int -> bool, m: nat, i: int) {
    0 <= i < m && hands(i) && forall j :: i < j < m ==> !touches(j)
  }

  ghost predicate HeldAt(hands: int -> bool, touches: int -> bool, m: nat) {
    exists i :: HeldSince(hands, touches, m, i)
  }

  lemma HeldSnoc(hands: int -> bool, touches: int -> bool, m: nat)
    requires 0 < m
    ensures HeldAt(hands, touches, m) <==> hands(m - 1) || (!touches(m - 1) && HeldAt(hands, touches, m - 1))
  {
    if hands(m - 1) { assert HeldSince(hands, touches, m, m - 1); }
    if !touches(m - 1) && HeldAt(hands, touches, m - 1) {
      var i :| HeldSince(hands, touches, m - 1, i);
      assert HeldSince(hands, touches, m, i);
    }
    if HeldAt(hands, touches, m) {
      var i :| HeldSince(hands, touches, m, i);
      if i < m - 1 { assert HeldSince(hands, touches, m - 1, i) && !touches(m - 1); }
    }
  }

  /** Before event m, some event has handed the object over and none has touched it since. */
  ghost predicate Held(n: nat, run: seq<Event>, m: nat, k: nat, o: Obj)
    requires FitAll(run, n) && k < n
  {
    HeldAt(HandsIn(n, run, k, o), TouchesIn(n, run, k, o), m)
  }

  /** A slot owns an object exactly when some event handed it over and nothing has touched it since. */
  lemma {:induction false} OwnsByHistory(n: nat, run: seq<Event>, m: nat, k: nat, o: Obj)
    requires FitAll(run, n) && k < n && m <= |run|
    ensures Owns(After(n, run[..m])[k], o) <==> Held(n, run, m, k, o)
  {
    if m > 0 {
      OwnsByHistory(n, run, m - 1, k, o);
      OwnsStep(n, run, m, k, o);
      HeldSnoc(HandsIn(n, run, k, o), TouchesIn(n, run, k, o), m);
    }
  }

  lemma OwnsStep(n: nat, run: seq<Event>, m: nat, k: nat, o: Obj)
    requires FitAll(run, n) && k < n && 0 < m <= |run|
    ensures Owns(After(n, run[..m])[k], o) <==>
      HandsIn(n, run, k, o)(m - 1) || (!TouchesIn(n, run, k, o)(m - 1) && Owns(After(n, run[..m - 1])[k], o))
  {
    assert run[..m][..m - 1] == run[..m - 1];
    StepOwns(After(n, run[..m - 1]), run[m - 1], k, o);
  }

  /**
   When an object is lost: exactly when the slot still holds one that an earlier event handed
   over, and event j stores over it (a second allocation, page, RLC PDU or MSG4 before the slot is
   assembled), or assembles the slot without anything to send in TX_DATA (in DL_TTI, for a PDCCH
   configuration).
   */
  lemma LosesExactlyWhen(n: nat, run: seq<Event>, j: nat, k: nat, o: Obj)
    requires FitAll(run, n) && k < n && j < |run|
    ensures Loses(After(n, run[..j])[k], run[j], k, o) <==>
      Held(n, run, j, k, o) && (Writes(After(n, run[..j])[k], run[j], k, o)
                                || (Assembles(run[j], k) && !Frees(After(n, run[..j])[k], o)))
  {
    OwnsByHistory(n, run, j, k, o);
  }

  /** Two RARs for one UE and slot, with no assembly in between: the first block is lost. */
  lemma SecondRarLosesTheFirst(run: seq<Event>)
    requires run == [Alloc(PdcchOnly())]
    ensures FitAll(run, 1) && After(1, run) == [PdcchOnlySlot()]
    ensures Loses(After(1, run)[0], Alloc(PdcchOnly()), 0, RarBlock(0))
  {
    PdcchOnlyIsReachable();
    assert After(1, run)[0].rar[0] == Some(RarAlloc(true, false));
  }

  // ------------------------------------------------------------------ the broadcast of a slot

  /** Event e puts a broadcast into slot k. */
  predicate Broadcasts(e: Event, k: nat, b: Brdcst) {
    e.Alloc? && e.a.brdcst == Some(b) && e.a.brdcstSlot == k
  }

  predicate TouchesBroadcast(e: Event, k: nat) {
    Assembles(e, k) || (e.Alloc? && e.a.brdcst.Some? && e.a.brdcstSlot == k)
  }

  predicate Carries(s: DlSlot, b: Brdcst) {
    s.isBroadcastPres && s.ssbMode == b.ssbMode && s.numSsb == b.numSsb && s.sib1Mode == b.sib1Mode
  }

  predicate BroadcastSince(run: seq<Event>, i: int, k: nat, b: Brdcst) {
    0 <= i < |run| && Broadcasts(run[i], k, b) && forall j :: i < j < |run| ==> !TouchesBroadcast(run[j], k)
  }

  ghost predicate BroadcastLast(run: seq<Event>, k: nat, b: Brdcst) {
    exists i :: BroadcastSince(run, i, k, b)
  }

  lemma BroadcastSnoc(run: seq<Event>, k: nat, b: Brdcst)
    requires run != []
    ensures BroadcastLast(run, k, b) <==>
      || Broadcasts(run[|run| - 1], k, b)
      || (!TouchesBroadcast(run[|run| - 1], k) && BroadcastLast(run[..|run| - 1], k, b))
  {
    var init := run[..|run| - 1];
    if Broadcasts(run[|run| - 1], k, b) { assert BroadcastSince(run, |run| - 1, k, b); }
    if i :| BroadcastSince(init, i, k, b) && !TouchesBroadcast(run[|run| - 1], k) {
      assert BroadcastSince(run, i, k, b);
    }
    if i :| BroadcastSince(run, i, k, b) && i < |init| { assert BroadcastSince(init, i, k, b); }
  }

  lemma {:induction false} BroadcastAfterUes(ring: seq<DlSlot>, a: DlSched, n: nat, k: nat, b: Brdcst)
    requires ValidRing(ring) && a.Fits(|ring|) && n <= MAX_NUM_UE && k < |ring|
    ensures Carries(UesAllocated(ring, a, n)[k], b) <==>
      if a.brdcst.Some? && a.brdcstSlot == k then a.brdcst.value == b else Carries(ring[k], b)
  {
    if n > 0 {
      BroadcastAfterUes(ring, a, n - 1, k, b);
      BroadcastAfterUe(UesAllocated(ring, a, n - 1), a, n - 1, k, b);
    }
  }

  lemma BroadcastAfterUe(ring: seq<DlSlot>, a: DlSched, u: nat, k: nat, b: Brdcst)
    requires ValidRing(ring) && a.Fits(|ring|) && u < MAX_NUM_UE && k < |ring|
    ensures Carries(MsgAllocated(RarAllocated(ring, a, u), a, u)[k], b) <==> Carries(ring[k], b)
  {
  }

  lemma BroadcastStep(ring: seq<DlSlot>, e: Event, k: nat, b: Brdcst)
    requires ValidRing(ring) && Fits(e, |ring|) && k < |ring|
    ensures Carries(Step(ring, e)[k], b) <==>
      Broadcasts(e, k, b) || (!TouchesBroadcast(e, k) && Carries(ring[k], b))
  {
    match e
    case Alloc(a) => BroadcastAfterUes(ring, a, |a.msg|, k, b);
    case Mux(slot, ready) => OthersAfterMux(ring[slot], ready, |ring[slot].msg|);
    case _ =>
  }

  /** A slot carries a broadcast, with its SSB mode, number of SSBs and SIB1 mode, exactly when the
      last event that gave it a broadcast or assembled it gave it this one. */
  lemma {:induction false} BroadcastByHistory(n: nat, run: seq<Event>, k: nat, b: Brdcst)
    requires FitAll(run, n) && k < n
    ensures Carries(After(n, run)[k], b) <==> BroadcastLast(run, k, b)
  {
    if run != [] {
      BroadcastByHistory(n, run[..|run| - 1], k, b);
      BroadcastStep(After(n, run[..|run| - 1]), run[|run| - 1], k, b);
      BroadcastSnoc(run, k, b);
    }
  }
}
