/**
 The message chain of one slot: DL_TTI and what follows it, the state it leaves behind and the
 blocks it hands to the PHY.
 */
module TtiChain {
  import opened Common
  import opened SlotAssembly
  import opened SlotProperties
  import opened SlotPdus
  import UlSlot
  import WlsRing

  datatype CellState = CellUp | CellToBeStopped | CellStopInProgress

  datatype Msg =
    | DlTti(nPdus: nat, pdus: seq<DlPdu>)
    | UlTti(nPdus: nat, ulPdus: seq<UlSlot.UlPdu>)
    | UlDci(numPdus: nat)
    | TxData(descs: seq<(Owner, nat)>)
    | Stop
    | Vendor

  const FAPI_MAX_NUMBER_UL_PDUS_PER_TTI := 328

  /** The messages after the header, for the downlink and uplink records of the slot. */
  function SlotMsgs(dl: DlSlot, ul: UlSlot.UlSched, state: CellState): seq<Msg>
    requires dl.Valid() && ul.Valid()
  {
    TtiMsgs(dl, ul)
    + TxMsgs(dl)
    + (if state == CellToBeStopped then [Stop] else [])
    + [Vendor]
  }

  function TtiMsgs(dl: DlSlot, ul: UlSlot.UlSched): seq<Msg>
    requires dl.Valid() && ul.Valid()
  {
    [DlTti(DlCount(dl, |dl.rar|), DlPdus(dl, |dl.rar|)), UlTti(UlSlot.UlCount(ul), UlSlot.UlPdus(ul)),
     UlDci(if dl.ulGrant then 1 else 0)]
  }

  function TxMsgs(dl: DlSlot): seq<Msg>
    requires dl.Valid()
  {
    if TxCount(dl, |dl.rar|) > 0 then [TxData(TxPdus(AfterDl(dl)))] else []
  }

  class MacCell {
    var state: CellState
    const dlSlot: MacDlSlot
    const ulSlot: UlSlot.MacUlSlot

    ghost predicate Valid()
      reads this, dlSlot, ulSlot
    {
      dlSlot.Valid() && ulSlot.Valid()
    }

    constructor ()
      ensures Valid() && dlSlot.State() == EmptySlot() && ulSlot.State() == UlSlot.EmptyUlSlot() && state == CellUp
    {
      state := CellUp;
      dlSlot := new MacDlSlot();
      ulSlot := new UlSlot.MacUlSlot();
    }

    /** fillUlTtiReq */
    method FillUlTtiReq() returns (msg: Msg)
      requires ulSlot.Valid()
      modifies ulSlot`dataType, ulSlot.schPuschInfo, ulSlot.schPuschUci, ulSlot.schPucchInfo
      ensures ulSlot.Valid() && msg == UlTti(UlSlot.UlCount(old(ulSlot.State())), UlSlot.UlPdus(old(ulSlot.State())))
      ensures ulSlot.State() == UlSlot.EmptyUlSlot()
    {
      var nPdus := ulSlot.GetnPdus();
      var sent: seq<UlSlot.UlPdu> := [];
      UlSlot.UlCountCoversEncoding(ulSlot.State());
      if nPdus > 0 {
        var pdus := new UlSlot.UlPdu[FAPI_MAX_NUMBER_UL_PDUS_PER_TTI](_ => UlSlot.Prach);
        var last, rachPresent, nUlsch, nUlcch := ulSlot.EncodeUlTti(pdus);
        sent := pdus[..UlSlot.Next(last)];
      }
      msg := UlTti(nPdus, sent);
      ulSlot.Clear();
    }

    /** fillUlDciReq */
    method FillUlDciReq() returns (msg: Msg, freed: multiset<Obj>)
      requires dlSlot.Valid()
      modifies dlSlot`ulGrant
      ensures dlSlot.Valid() && msg == UlDci(if old(dlSlot.ulGrant) then 1 else 0)
      ensures freed == One(old(dlSlot.ulGrant), UlGrantInfo) && dlSlot.State() == old(dlSlot.State()).(ulGrant := false)
    {
      msg, freed := UlDci(0), multiset{};
      if dlSlot.ulGrant {
        msg := UlDci(1);
        freed := multiset{UlGrantInfo};
        dlSlot.ulGrant := false;
      }
    }

    method EncodeIfAny(nPdu: nat) returns (pdus: seq<DlPdu>, freed: seq<multiset<Obj>>)
      requires dlSlot.Valid() && nPdu == DlCount(dlSlot.State(), dlSlot.rarAlloc.Length)
      modifies dlSlot.rarAlloc, dlSlot.dlMsgAlloc
      ensures dlSlot.Valid() && dlSlot.State() == if nPdu > 0 then AfterDl(old(dlSlot.State())) else old(dlSlot.State())
      ensures pdus == DlPdus(old(dlSlot.State()), dlSlot.rarAlloc.Length)
      ensures freed == FreedByDl(old(dlSlot.State()))
    {
      pdus, freed := [], NoneFreed();
      DlCountCoversEncoding(dlSlot.State(), dlSlot.rarAlloc.Length);
      if nPdu > 0 {
        pdus, freed := dlSlot.EncodeDlTti(nPdu);
      }
    }

    /** DL_TTI, UL_TTI and UL_DCI of a slot that announces `nPdu` PDUs. */
    method FillTtis(nPdu: nat) returns (chain: seq<Msg>, freed: seq<multiset<Obj>>, shared: multiset<Obj>)
      requires Valid() && nPdu == DlCount(dlSlot.State(), dlSlot.rarAlloc.Length)
      modifies dlSlot`ulGrant, dlSlot.rarAlloc, dlSlot.dlMsgAlloc
      modifies ulSlot`dataType, ulSlot.schPuschInfo, ulSlot.schPuschUci, ulSlot.schPucchInfo
      ensures Valid() && chain == TtiMsgs(old(dlSlot.State()), old(ulSlot.State()))
      ensures ulSlot.State() == UlSlot.EmptyUlSlot()
      ensures dlSlot.State()
        == (if nPdu > 0 then AfterDl(old(dlSlot.State())) else old(dlSlot.State())).(ulGrant := false)
      ensures freed == FreedByDl(old(dlSlot.State())) && shared == One(old(dlSlot.ulGrant), UlGrantInfo)
    {
      var pdus, ulTti, ulDci;
      pdus, freed := EncodeIfAny(nPdu);
      ulTti := FillUlTtiReq();
      ulDci, shared := FillUlDciReq();
      chain := [DlTti(nPdu, pdus), ulTti, ulDci];
    }

    /** TX_DATA, when there is something to send, after the three TTI messages. */
    method SendTxData(msgs: seq<Msg>, counted: nat, ghost s: DlSlot)
      returns (chain: seq<Msg>, numMsg: nat, freed: seq<multiset<Obj>>, shared: multiset<Obj>)
      requires dlSlot.Valid() && s.Valid() && dlSlot.State() == AfterDl(s).(ulGrant := false)
      modifies dlSlot`pageAllocInfo, dlSlot.rarAlloc, dlSlot.dlMsgAlloc
      ensures dlSlot.Valid() && chain == msgs + TxMsgs(s) && numMsg == counted + |TxMsgs(s)|
      ensures freed == FreedByTx(s) && shared == SharedFreedByTx(s)
    {
      TxAfterTtis(s, |s.rar|);
      var descs, sent;
      descs, sent, shared, freed := dlSlot.SendTxDataReq();
      chain, numMsg := msgs, counted;
      if sent {
        chain := chain + [TxData(descs)];
        numMsg := numMsg + 1;
      } else {
        shared, freed := multiset{}, NoneFreed();
      }
    }

    /** The end of fillDlTtiReq: STOP, the vendor message, and the cleared slot. */
    method CloseChain(msgs: seq<Msg>, counted: nat) returns (chain: seq<Msg>, numMsg: nat)
      requires Valid()
      modifies this`state, dlSlot, dlSlot.rarAlloc, dlSlot.dlMsgAlloc
      ensures Valid() && dlSlot.State() == EmptySlot()
      ensures chain == msgs + (if old(state) == CellToBeStopped then [Stop] else []) + [Vendor]
      ensures numMsg == counted + |chain| - |msgs| - 1
      ensures state == if old(state) == CellToBeStopped then CellStopInProgress else old(state)
    {
      chain, numMsg := msgs, counted;
      if state == CellToBeStopped {
        chain := chain + [Stop];
        numMsg := numMsg + 1;
        state := CellStopInProgress;
      }
      chain := chain + [Vendor];
      dlSlot.Clear();
    }

    /** The messages between the header and STOP. */
    method FillMsgs(ghost s: DlSlot, ghost u: UlSlot.UlSched)
      returns (numMsg: nat, chain: seq<Msg>, freed: seq<multiset<Obj>>, shared: multiset<Obj>)
      requires Valid() && s == dlSlot.State() && u == ulSlot.State()
      modifies dlSlot, dlSlot.rarAlloc, dlSlot.dlMsgAlloc
      modifies ulSlot`dataType, ulSlot.schPuschInfo, ulSlot.schPuschUci, ulSlot.schPucchInfo
      ensures Valid() && ulSlot.State() == UlSlot.EmptyUlSlot()
      ensures chain == TtiMsgs(s, u) + TxMsgs(s) && numMsg == |chain| + 1
      ensures freed == UesFreed(s) && shared == SharedFreed(s)
    {
      numMsg := 2;
      var nPdu := dlSlot.CalcDlTtiReqPduCount();
      var byTx, sharedByTx := NoneFreed(), multiset{};
      chain, freed, shared := FillTtis(nPdu);
      numMsg := numMsg + 2;
      if nPdu > 0 {
        chain, numMsg, byTx, sharedByTx := SendTxData(chain, numMsg, s);
      } else {
        NothingToEncodeNothingToSend(s, |s.rar|);
      }
      freed, shared := Joined(freed, byTx), sharedByTx + shared;
    }

    /**
     fillDlTtiReq in the RUNNING state: the message count of the header, the messages after it,
     and what the slot gave back to the heap.
     */
    method FillDlTtiReq() returns (numMsg: nat, chain: seq<Msg>, freed: seq<multiset<Obj>>, shared: multiset<Obj>)
      requires Valid()
      modifies this`state, dlSlot, dlSlot.rarAlloc, dlSlot.dlMsgAlloc
      modifies ulSlot`dataType, ulSlot.schPuschInfo, ulSlot.schPuschUci, ulSlot.schPucchInfo
      ensures Valid() && dlSlot.State() == EmptySlot() && ulSlot.State() == UlSlot.EmptyUlSlot()
      ensures chain == SlotMsgs(old(dlSlot.State()), old(ulSlot.State()), old(state)) && numMsg == |chain|
      ensures state == if old(state) == CellToBeStopped then CellStopInProgress else old(state)
      ensures freed == UesFreed(old(dlSlot.State())) && shared == SharedFreed(old(dlSlot.State()))
    {
      ghost var s, u := dlSlot.State(), ulSlot.State();
      numMsg, chain, freed, shared := FillMsgs(s, u);
      chain, numMsg := CloseChain(chain, numMsg);
    }
  }

  function Joined(a: seq<multiset<Obj>>, b: seq<multiset<Obj>>): seq<multiset<Obj>>
    requires |a| == |b|
  {
    seq(|a|, k requires 0 <= k < |a| => a[k] + b[k])
  }

  /** What the assembly frees for each UE. */
  function UesFreed(s: DlSlot): seq<multiset<Obj>>
    requires s.Valid()
  {
    Joined(FreedByDl(s), FreedByTx(s))
  }

  /** The TX_DATA descriptors of a chain; none when there is no TX_DATA. */
  function DescsOf(chain: seq<Msg>): seq<(Owner, nat)> {
    if |chain| > 3 && chain[3].TxData? then chain[3].descs else []
  }

  /**
   The order of a chain, and what its messages have to agree on: no announced count is too
   small, UL_DCI counts the grant, and DL_TTI and TX_DATA carry the same allocation under the
   same index.
   */
  lemma ChainAgrees(dl: DlSlot, ul: UlSlot.UlSched, state: CellState)
    requires dl.Valid() && ul.Valid()
    ensures var c := SlotMsgs(dl, ul, state);
      && 4 <= |c| <= 6 && c[0].DlTti? && c[1].UlTti? && c[2] == UlDci(if dl.ulGrant then 1 else 0)
      && c[|c| - 1] == Vendor && (c[3].TxData? <==> TxCount(dl, |dl.rar|) > 0)
      && (c[|c| - 2] == Stop <==> state == CellToBeStopped)
      && |c[0].pdus| <= c[0].nPdus && |c[1].ulPdus| <= c[1].nPdus
      && (Pdschs(c[0].pdus) == DescsOf(c) <==>
          MsgsHavePdus(dl, |dl.rar|) && (Sib1NeedsBroadcast(dl) || TxCount(dl, |dl.rar|) == 0))
  {
    ChainShape(dl, ul, state);
    DlCountCoversEncoding(dl, |dl.rar|);
    UlSlot.UlCountCoversEncoding(ul);
    SameIndexForSameAllocation(dl);
  }

  /** DL_TTI and UL_TTI of a chain carry what the slot records ask for, once, and nothing else. */
  lemma ChainCarriesTheSlot(dl: DlSlot, ul: UlSlot.UlSched, state: CellState, p: DlPdu, q: UlSlot.UlPdu)
    requires dl.Valid() && ul.Valid()
    ensures var c := SlotMsgs(dl, ul, state);
      && |c| > 3 && c[0].DlTti? && c[1].UlTti?
      && multiset(c[0].pdus)[p] == (if Wanted(dl, |dl.rar|, p) then 1 else 0)
      && multiset(c[1].ulPdus)[q] == (if UlSlot.Scheduled(ul, |ul.pusch|, q) then 1 else 0)
  {
    ChainShape(dl, ul, state);
    WantedEncodedOnce(dl, |dl.rar|, p);
    UlSlot.EncodedExactlyOnce(ul, |ul.pusch|, q);
  }

  /** The records a chain leaves behind ask for nothing: the next chain has no PDU unless the
      slots are scheduled again. */
  lemma ClearedSlotsSendNothing(state: CellState)
    ensures SlotMsgs(EmptySlot(), UlSlot.EmptyUlSlot(), state)
      == [DlTti(0, []), UlTti(0, []), UlDci(0)] + (if state == CellToBeStopped then [Stop] else []) + [Vendor]
  {
    NothingInEmptySlot();
    NothingInEmptyUlSlot(UlSlot.EmptyUlSlot());
    assert [DlTti(0, []), UlTti(0, []), UlDci(0)] + [] == [DlTti(0, []), UlTti(0, []), UlDci(0)];
  }

  lemma NothingInEmptySlot()
    ensures DlCount(EmptySlot(), |EmptySlot().rar|) == 0 && DlPdus(EmptySlot(), |EmptySlot().rar|) == []
    ensures TxMsgs(EmptySlot()) == [] && !EmptySlot().ulGrant
  {
    var s := EmptySlot();
    assert DlCount(s, 0) == DlCount(s, 1) == DlCount(s, 2) == 0;
    NothingToEncodeNothingToSend(s, |s.rar|);
    DlCountCoversEncoding(s, |s.rar|);
  }

  lemma NothingInEmptyUlSlot(s: UlSlot.UlSched)
    requires s == UlSlot.EmptyUlSlot()
    ensures UlSlot.UlCount(s) == 0 && UlSlot.UlPdus(s) == []
  {
    assert UlSlot.UeCount(s, 0) == UlSlot.UeCount(s, 1) == UlSlot.UeCount(s, 2) == 0;
    UlSlot.UlCountCoversEncoding(s);
  }

  lemma ChainShape(dl: DlSlot, ul: UlSlot.UlSched, state: CellState)
    requires dl.Valid() && ul.Valid()
    ensures var c := SlotMsgs(dl, ul, state);
      && |c| == 4 + |TxMsgs(dl)| + (if state == CellToBeStopped then 1 else 0)
      && c[0] == DlTti(DlCount(dl, |dl.rar|), DlPdus(dl, |dl.rar|)) && c[|c| - 1] == Vendor
      && c[2] == UlDci(if dl.ulGrant then 1 else 0)
      && c[1] == UlTti(UlSlot.UlCount(ul), UlSlot.UlPdus(ul))
      && (c[3].TxData? <==> TxMsgs(dl) != []) && DescsOf(c) == TxPdus(AfterDl(dl))
      && (c[|c| - 2] == Stop <==> state == CellToBeStopped)
  {
    TxUnaffectedByDlPass(dl, |dl.rar|);
    var t := TtiMsgs(dl, ul);
    ShapeOf(t[0], t[1], t[2], TxMsgs(dl), state == CellToBeStopped);
    assert t == [t[0], t[1], t[2]];
  }

  lemma ShapeOf(a: Msg, b: Msg, d: Msg, tx: seq<Msg>, stop: bool)
    requires |tx| <= 1 && (tx != [] ==> tx[0].TxData?) && d != Stop
    ensures var c := [a, b, d] + tx + (if stop then [Stop] else []) + [Vendor];
      && |c| == 4 + |tx| + (if stop then 1 else 0) && c[0] == a && c[1] == b && c[2] == d && c[|c| - 1] == Vendor
      && (c[3].TxData? <==> tx != []) && (tx != [] ==> c[3] == tx[0]) && (c[|c| - 2] == Stop <==> stop)
  {
  }

  /**
   The chain of one slot goes out as a header and the messages it counts, flagged FIRST, NEXT,
   ..., LAST, and every block of it is registered once for the delayed free.
   `alloc` gives the shared-memory block of each element.
   */
  method SendSlot(cell: MacCell, lwr: WlsRing.LwrMacCb, alloc: nat -> WlsRing.Block, accepts: nat -> bool)
    returns (numMsg: nat, chain: seq<Msg>, blocks: seq<WlsRing.Block>, sent: seq<(WlsRing.Block, WlsRing.SgFlag)>)
    requires cell.Valid() && lwr.Valid()
    modifies cell`state, cell.dlSlot, cell.dlSlot.rarAlloc, cell.dlSlot.dlMsgAlloc
    modifies cell.ulSlot`dataType, cell.ulSlot.schPuschInfo, cell.ulSlot.schPuschUci, cell.ulSlot.schPucchInfo
    modifies lwr.wlsBlockToFreeList
    ensures lwr.Valid() && chain == SlotMsgs(old(cell.dlSlot.State()), old(cell.ulSlot.State()), old(cell.state))
    ensures numMsg == |chain| && |blocks| == 1 + numMsg && forall i :: 0 <= i < |blocks| ==> blocks[i] == alloc(i)
    ensures lwr.wlsFreed == old(lwr.wlsFreed)
    ensures sent == WlsRing.Flagged(blocks)[..WlsRing.Accepted(blocks, accepts)]
    ensures lwr.Ages() == WlsRing.SendAll(old(lwr.Ages()), WlsRing.Registered(blocks, accepts))
  {
    var freed, shared, ok;
    numMsg, chain, freed, shared := cell.FillDlTtiReq();
    blocks := seq(1 + |chain|, i requires 0 <= i => alloc(i));
    ok, sent := lwr.LwrMacSendToL1(blocks, accepts);
  }

  /**
   A slot is sent, and ten slot indications complete: the blocks of the chain have been given
   back, once and in order, after everything that was waiting before. When a put is refused, this
   holds of the blocks up to and with the refused one; the others were never registered.
   */
  method SendSlotThenWait(cell: MacCell, lwr: WlsRing.LwrMacCb, alloc: nat -> WlsRing.Block, accepts: nat -> bool)
    returns (blocks: seq<WlsRing.Block>)
    requires cell.Valid() && lwr.Valid()
    modifies cell`state, cell.dlSlot, cell.dlSlot.rarAlloc, cell.dlSlot.dlMsgAlloc
    modifies cell.ulSlot`dataType, cell.ulSlot.schPuschInfo, cell.ulSlot.schPuschUci, cell.ulSlot.schPucchInfo
    modifies lwr`phySlotIndCntr, lwr`wlsFreed, lwr.wlsBlockToFreeList
    ensures lwr.Valid() && lwr.Ages() == WlsRing.Fresh() && |blocks| > 1
    ensures WlsRing.AllAccepted(|blocks|, accepts) ==>
      lwr.wlsFreed == old(lwr.wlsFreed) + (old(WlsRing.Held(lwr.Ages())) + blocks)
    ensures forall k :: 0 <= k < |blocks| && WlsRing.FirstRefused(|blocks|, accepts, k) ==>
      lwr.wlsFreed == old(lwr.wlsFreed) + (old(WlsRing.Held(lwr.Ages())) + blocks[..k + 1])
  {
    ghost var ages := lwr.Ages();
    var numMsg, chain, sent;
    numMsg, chain, blocks, sent := SendSlot(cell, lwr, alloc, accepts);
    lwr.SlotIndsDone(WlsRing.WLS_MEM_FREE_PRD);
    WlsRing.ChainIsFreedByTheTenth(ages, WlsRing.Registered(blocks, accepts));
    WlsRing.RegisteredAre(blocks, accepts);
  }

  lemma {:induction false} TxIgnoresGrant(s: DlSlot, n: nat)
    requires s.Valid() && n <= MAX_NUM_UE
    ensures TxOwners(s.(ulGrant := false), n) == TxOwners(s, n)
    ensures TxCount(s.(ulGrant := false), n) == TxCount(s, n)
  {
    if n > 0 {
      TxIgnoresGrant(s, n - 1);
      assert s.(ulGrant := false).rar[n - 1] == s.rar[n - 1] && s.(ulGrant := false).msg[n - 1] == s.msg[n - 1];
    }
  }

  /** The TX_DATA pass after DL_TTI, UL_TTI and UL_DCI works on what the slot held before them. */
  lemma TxAfterTtis(s: DlSlot, n: nat)
    requires s.Valid() && n == |s.rar|
    ensures TxCount(AfterDl(s).(ulGrant := false), n) == TxCount(s, n)
    ensures TxPdus(AfterDl(s).(ulGrant := false)) == TxPdus(AfterDl(s))
    ensures FreedTx(AfterDl(s).(ulGrant := false)) == FreedTx(s)
    ensures SharedFreedTx(AfterDl(s).(ulGrant := false)) == SharedFreedTx(s)
  {
    TxIgnoresGrant(AfterDl(s), n);
    TxUnaffectedByDlPass(s, n);
    TxFreesTheSame(s);
    assert FreedTx(AfterDl(s).(ulGrant := false)) == FreedTx(AfterDl(s));
  }
}
