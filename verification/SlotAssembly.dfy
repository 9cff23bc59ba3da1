/**
 Assembly of one downlink slot: the PDU counts, the DL_TTI pass, which frees PDCCH
 configurations as it goes, and the TX_DATA pass, which walks what is left.
 */
module SlotAssembly {
  import opened Common

  const MAX_NUM_SSB := 64

  // ------------------------------------------------------------------ slot record

  /** Which configurations a RAR or a dedicated message carries; `pdu` is the multiplexed MAC PDU. */
  datatype RarAlloc = RarAlloc(pdcchCfg: bool, pdschCfg: bool)
  datatype DlMsg = DlMsg(pdcchCfg: bool, pdschCfg: bool, pdu: bool)

  datatype DlSlot = DlSlot(
    isBroadcastPres: bool, ssbMode: nat, numSsb: nat, sib1Mode: nat, page: bool, ulGrant: bool,
    rar: seq<Option<RarAlloc>>, msg: seq<Option<DlMsg>>)
  {
    predicate Valid() {
      |rar| == MAX_NUM_UE == |msg| && numSsb <= MAX_NUM_SSB
    }
  }

  function EmptySlot(): DlSlot {
    DlSlot(false, 0, 0, 0, false, false, seq(MAX_NUM_UE, _ => None), seq(MAX_NUM_UE, _ => None))
  }

  /** The allocation a PDSCH PDU belongs to. */
  datatype Owner = Sib1 | Page | Rar(ue: nat) | Msg(ue: nat)

  datatype DlPdu = Ssb(idx: nat) | Pdcch(owner: Owner) | Pdsch(owner: Owner, pduIndex: nat)

  /** Heap objects a slot owns. */
  datatype Obj =
    | Sib1PdcchCfg | PageInfo | PagePdu | UlGrantInfo
    | RarPdcchCfg(ue: nat) | RarPdschCfg(ue: nat) | RarBlock(ue: nat)
    | MsgPdcchCfg(ue: nat) | MsgPdschCfg(ue: nat) | MsgPdu(ue: nat) | MsgBlock(ue: nat)

  // ------------------------------------------------------------------ the two counts

  function UeCount(s: DlSlot, ue: nat): nat
    requires s.Valid() && ue < MAX_NUM_UE
  {
    (match s.rar[ue] case None => 0 case Some(r) => if r.pdschCfg && r.pdcchCfg then 2 else 1) +
    (match s.msg[ue] case None => 0 case Some(m) => (if m.pdcchCfg then 1 else 0) + (if m.pdschCfg then 1 else 0))
  }

  function DlCount(s: DlSlot, n: nat): nat
    requires s.Valid() && n <= MAX_NUM_UE
  {
    if n == 0 then
      (if s.isBroadcastPres then (if s.ssbMode != 0 then s.numSsb else 0) + (if s.sib1Mode != 0 then 2 else 0) else 0)
      + (if s.page then 2 else 0)
    else DlCount(s, n - 1) + UeCount(s, n - 1)
  }

  function UeTxCount(s: DlSlot, ue: nat): nat
    requires s.Valid() && ue < MAX_NUM_UE
  {
    (if s.rar[ue].Some? && s.rar[ue].value.pdschCfg then 1 else 0)
    + (if s.msg[ue].Some? && s.msg[ue].value.pdschCfg then 1 else 0)
  }

  function TxCount(s: DlSlot, n: nat): nat
    requires s.Valid() && n <= MAX_NUM_UE
  {
    if n == 0 then (if s.isBroadcastPres && s.sib1Mode != 0 then 1 else 0) + (if s.page then 1 else 0)
    else TxCount(s, n - 1) + UeTxCount(s, n - 1)
  }

  // ------------------------------------------------------------------ the DL_TTI pass

  function When<T>(c: bool, x: T): (r: seq<T>)
    ensures |r| == if c then 1 else 0
  {
    if c then [x] else []
  }

  function RarOwners(r: Option<RarAlloc>, ue: nat): seq<Owner> {
    When(r.Some? && r.value.pdschCfg, Rar(ue))
  }

  function MsgDlOwners(m: Option<DlMsg>, ue: nat): seq<Owner> {
    When(m.Some? && m.value.pdu && m.value.pdschCfg, Msg(ue))
  }

  function UeDlOwners(s: DlSlot, ue: nat): seq<Owner>
    requires s.Valid() && ue < MAX_NUM_UE
  {
    RarOwners(s.rar[ue], ue) + MsgDlOwners(s.msg[ue], ue)
  }

  /** The allocations that get a PDSCH PDU in DL_TTI, in order, up to UE n. */
  function DlOwners(s: DlSlot, n: nat): seq<Owner>
    requires s.Valid() && n <= MAX_NUM_UE
  {
    if n == 0 then When(s.isBroadcastPres && s.sib1Mode != 0, Sib1) + When(s.page, Page)
    else DlOwners(s, n - 1) + UeDlOwners(s, n - 1)
  }

  function SsbPdus(n: nat): (r: seq<DlPdu>)
    ensures |r| == n
  {
    seq(n, idx requires 0 <= idx < n => Ssb(idx))
  }

  function SharedPdus(s: DlSlot): seq<DlPdu> {
    var sib1 := s.isBroadcastPres && s.sib1Mode != 0;
    (if s.isBroadcastPres && s.ssbMode != 0 then SsbPdus(s.numSsb) else [])
    + (if sib1 then [Pdcch(Sib1), Pdsch(Sib1, 0)] else [])
    + (if s.page then [Pdcch(Page), Pdsch(Page, if sib1 then 1 else 0)] else [])
  }

  function RarPdus(r: Option<RarAlloc>, ue: nat, index: nat): seq<DlPdu> {
    When(r.Some? && r.value.pdcchCfg, Pdcch(Rar(ue))) + When(r.Some? && r.value.pdschCfg, Pdsch(Rar(ue), index))
  }

  function MsgPdus(m: Option<DlMsg>, ue: nat, index: nat): seq<DlPdu> {
    When(m.Some? && m.value.pdcchCfg, Pdcch(Msg(ue)))
    + When(m.Some? && m.value.pdu && m.value.pdschCfg, Pdsch(Msg(ue), index))
  }

  function UePdus(s: DlSlot, ue: nat, index: nat): seq<DlPdu>
    requires s.Valid() && ue < MAX_NUM_UE
  {
    RarPdus(s.rar[ue], ue, index) + MsgPdus(s.msg[ue], ue, index + |RarOwners(s.rar[ue], ue)|)
  }

  /** Every PDU the DL_TTI pass encodes, up to UE n. */
  function DlPdus(s: DlSlot, n: nat): seq<DlPdu>
    requires s.Valid() && n <= MAX_NUM_UE
  {
    if n == 0 then SharedPdus(s)
    else DlPdus(s, n - 1) + UePdus(s, n - 1, |DlOwners(s, n - 1)|)
  }

  function RarAfterDl(r: Option<RarAlloc>): Option<RarAlloc> {
    if r.Some? then Some(r.value.(pdcchCfg := false)) else None
  }

  function MsgAfterDl(m: Option<DlMsg>): Option<DlMsg> {
    if m.Some? then Some(m.value.(pdcchCfg := false)) else None
  }

  /** What the DL_TTI pass leaves for the TX_DATA pass. */
  function AfterDl(s: DlSlot): (r: DlSlot)
    requires s.Valid()
    ensures r.Valid()
  {
    s.(rar := seq(MAX_NUM_UE, ue requires 0 <= ue < MAX_NUM_UE => RarAfterDl(s.rar[ue])),
       msg := seq(MAX_NUM_UE, ue requires 0 <= ue < MAX_NUM_UE => MsgAfterDl(s.msg[ue])))
  }

  function One(c: bool, o: Obj): multiset<Obj> {
    if c then multiset{o} else multiset{}
  }

  function RarFreedDl(r: Option<RarAlloc>, ue: nat): multiset<Obj> {
    One(r.Some? && r.value.pdcchCfg, RarPdcchCfg(ue))
  }

  function MsgFreedDl(m: Option<DlMsg>, ue: nat): multiset<Obj> {
    One(m.Some? && m.value.pdcchCfg, MsgPdcchCfg(ue))
  }

  function UeFreedDl(s: DlSlot, ue: nat): multiset<Obj>
    requires s.Valid() && ue < MAX_NUM_UE
  {
    RarFreedDl(s.rar[ue], ue) + MsgFreedDl(s.msg[ue], ue)
  }

  /** What the DL_TTI pass frees, per UE. */
  function FreedDl(s: DlSlot): (r: seq<multiset<Obj>>)
    requires s.Valid()
    ensures |r| == |s.rar|
  {
    seq(|s.rar|, ue requires 0 <= ue < |s.rar| => UeFreedDl(s, ue))
  }

  // ------------------------------------------------------------------ the TX_DATA pass

  function MsgTxOwners(m: Option<DlMsg>, ue: nat): seq<Owner> {
    When(m.Some? && m.value.pdschCfg, Msg(ue))
  }

  function UeTxOwners(s: DlSlot, ue: nat): seq<Owner>
    requires s.Valid() && ue < MAX_NUM_UE
  {
    RarOwners(s.rar[ue], ue) + MsgTxOwners(s.msg[ue], ue)
  }

  function TxOwners(s: DlSlot, n: nat): seq<Owner>
    requires s.Valid() && n <= MAX_NUM_UE
  {
    if n == 0 then When(s.sib1Mode != 0, Sib1) + When(s.page, Page)
    else TxOwners(s, n - 1) + UeTxOwners(s, n - 1)
  }

  /** Consecutive indices, starting at `first`. */
  function Numbered(owners: seq<Owner>, first: nat): (r: seq<(Owner, nat)>)
    ensures |r| == |owners|
  {
    if owners == [] then []
    else Numbered(owners[..|owners| - 1], first) + [(owners[|owners| - 1], first + |owners| - 1)]
  }

  lemma {:induction false} NumberedConcat(a: seq<Owner>, b: seq<Owner>, first: nat)
    ensures Numbered(a + b, first) == Numbered(a, first) + Numbered(b, first + |a|)
  {
    if b == [] {
      assert a + b == a;
    } else {
      NumberedConcat(a, b[..|b| - 1], first);
      assert (a + b)[..|a + b| - 1] == a + b[..|b| - 1];
    }
  }

  lemma {:induction false} NumberedAt(owners: seq<Owner>, first: nat, k: nat)
    requires k < |owners|
    ensures Numbered(owners, first)[k] == (owners[k], first + k)
  {
    if k < |owners| - 1 { NumberedAt(owners[..|owners| - 1], first, k); }
  }

  /** The PDU descriptors of TX_DATA; there is no message when the count is zero. */
  function TxPdus(s: DlSlot): seq<(Owner, nat)>
    requires s.Valid()
  {
    if TxCount(s, |s.rar|) > 0 then Numbered(TxOwners(s, |s.rar|), 0) else []
  }

  function RarFreedTx(r: Option<RarAlloc>, ue: nat): multiset<Obj> {
    One(r.Some? && r.value.pdschCfg, RarPdschCfg(ue)) + One(r.Some?, RarBlock(ue))
  }

  function MsgFreedTx(m: Option<DlMsg>, ue: nat): multiset<Obj> {
    One(m.Some? && m.value.pdschCfg, MsgPdschCfg(ue)) + One(m.Some? && m.value.pdu, MsgPdu(ue))
      + One(m.Some?, MsgBlock(ue))
  }

  function UeFreedTx(s: DlSlot, ue: nat): multiset<Obj>
    requires s.Valid() && ue < MAX_NUM_UE
  {
    RarFreedTx(s.rar[ue], ue) + MsgFreedTx(s.msg[ue], ue)
  }

  /** What the TX_DATA pass frees, per UE and beside the UEs. */
  function FreedTx(s: DlSlot): (r: seq<multiset<Obj>>)
    requires s.Valid()
    ensures |r| == |s.rar|
  {
    seq(|s.rar|, ue requires 0 <= ue < |s.rar| => UeFreedTx(s, ue))
  }

  function SharedFreedTx(s: DlSlot): multiset<Obj> {
    One(s.sib1Mode != 0, Sib1PdcchCfg) + One(s.page, PagePdu) + One(s.page, PageInfo)
  }

  // ------------------------------------------------------------------ the record in place

  class MacDlSlot {
    var isBroadcastPres: bool
    var ssbTransmissionMode: nat
    var ssbIdxSupported: nat
    var sib1TransmissionMode: nat
    var pageAllocInfo: bool
    var ulGrant: bool
    const rarAlloc: array<Option<RarAlloc>>
    const dlMsgAlloc: array<Option<DlMsg>>

    constructor ()
      ensures Valid() && State() == EmptySlot() && fresh(rarAlloc) && fresh(dlMsgAlloc)
    {
      rarAlloc := new Option<RarAlloc>[MAX_NUM_UE](_ => None);
      dlMsgAlloc := new Option<DlMsg>[MAX_NUM_UE](_ => None);
      isBroadcastPres, ssbTransmissionMode, ssbIdxSupported, sib1TransmissionMode := false, 0, 0, 0;
      pageAllocInfo, ulGrant := false, false;
    }

    ghost predicate Valid()
      reads this
    {
      rarAlloc.Length == MAX_NUM_UE == dlMsgAlloc.Length && ssbIdxSupported <= MAX_NUM_SSB
    }

    ghost function State(): (s: DlSlot)
      requires Valid()
      reads this, rarAlloc, dlMsgAlloc
      ensures s.Valid()
    {
      DlSlot(isBroadcastPres, ssbTransmissionMode, ssbIdxSupported, sib1TransmissionMode, pageAllocInfo, ulGrant,
             rarAlloc[..], dlMsgAlloc[..])
    }

    method Clear()
      requires Valid()
      modifies this, rarAlloc, dlMsgAlloc
      ensures Valid() && State() == EmptySlot()
    {
      isBroadcastPres, ssbTransmissionMode, ssbIdxSupported, sib1TransmissionMode := false, 0, 0, 0;
      pageAllocInfo, ulGrant := false, false;
      forall ueIdx | 0 <= ueIdx < rarAlloc.Length { rarAlloc[ueIdx] := None; }
      forall ueIdx | 0 <= ueIdx < dlMsgAlloc.Length { dlMsgAlloc[ueIdx] := None; }
    }

    method CalcDlTtiReqPduCount() returns (count: nat)
      requires Valid()
      ensures count == DlCount(State(), rarAlloc.Length)
    {
      count := 0;
      if isBroadcastPres {
        if ssbTransmissionMode != 0 {
          var idx := 0;
          while idx < ssbIdxSupported
            invariant idx <= ssbIdxSupported && count == idx
          {
            count := count + 1;
            idx := idx + 1;
          }
        }
        if sib1TransmissionMode != 0 {
          count := count + 2;
        }
      }
      if pageAllocInfo {
        count := count + 2;
      }
      for ueIdx := 0 to rarAlloc.Length
        invariant count == DlCount(State(), ueIdx)
      {
        if rarAlloc[ueIdx].Some? {
          if rarAlloc[ueIdx].value.pdschCfg && rarAlloc[ueIdx].value.pdcchCfg {
            count := count + 2;
          } else {
            count := count + 1;
          }
        }
        if dlMsgAlloc[ueIdx].Some? {
          if dlMsgAlloc[ueIdx].value.pdcchCfg {
            count := count + 1;
          }
          if dlMsgAlloc[ueIdx].value.pdschCfg {
            count := count + 1;
          }
        }
      }
    }

    method CalcTxDataReqPduCount() returns (count: nat)
      requires Valid()
      ensures count == TxCount(State(), rarAlloc.Length)
    {
      count := 0;
      if isBroadcastPres && sib1TransmissionMode != 0 {
        count := count + 1;
      }
      if pageAllocInfo {
        count := count + 1;
      }
      for ueIdx := 0 to rarAlloc.Length
        invariant count == TxCount(State(), ueIdx)
      {
        if rarAlloc[ueIdx].Some? && rarAlloc[ueIdx].value.pdschCfg {
          count := count + 1;
        }
        if dlMsgAlloc[ueIdx].Some? && dlMsgAlloc[ueIdx].value.pdschCfg {
          count := count + 1;
        }
      }
    }

    /** The PDUs before those of the UEs, with the guards on the announced count. */
    method EncodeShared(nPdu: nat) returns (pdus: seq<DlPdu>, pduIndex: nat)
      requires Valid() && nPdu == DlCount(State(), rarAlloc.Length)
      ensures pdus == SharedPdus(State()) && pduIndex == |DlOwners(State(), 0)|
    {
      CountSplit(State(), rarAlloc.Length);
      pdus, pduIndex := [], 0;
      if isBroadcastPres {
        if ssbTransmissionMode != 0 {
          var idx := 0;
          while idx < ssbIdxSupported
            invariant idx <= ssbIdxSupported && pdus == SsbPdus(idx)
          {
            pdus := pdus + [Ssb(idx)];
            idx := idx + 1;
          }
        }
        if sib1TransmissionMode != 0 {
          if |pdus| != nPdu {
            pdus := pdus + [Pdcch(Sib1)];
            pdus := pdus + [Pdsch(Sib1, pduIndex)];
            pduIndex := pduIndex + 1;
          }
        }
      }
      if pageAllocInfo {
        if |pdus| != nPdu {
          pdus := pdus + [Pdcch(Page)];
          pdus := pdus + [Pdsch(Page, pduIndex)];
          pduIndex := pduIndex + 1;
        }
      }
    }

    /** The RAR of one UE in the DL_TTI pass. */
    method EncodeRar(ueIdx: nat, index: nat) returns (pdus: seq<DlPdu>, pduIndex: nat, freed: multiset<Obj>)
      requires Valid() && ueIdx < MAX_NUM_UE
      modifies rarAlloc
      ensures pdus == RarPdus(old(rarAlloc[ueIdx]), ueIdx, index)
      ensures pduIndex == index + |RarOwners(old(rarAlloc[ueIdx]), ueIdx)|
      ensures rarAlloc[ueIdx] == RarAfterDl(old(rarAlloc[ueIdx])) && freed == RarFreedDl(old(rarAlloc[ueIdx]), ueIdx)
      ensures forall u :: 0 <= u < MAX_NUM_UE && u != ueIdx ==> rarAlloc[u] == old(rarAlloc[u])
    {
      pdus, pduIndex, freed := [], index, multiset{};
      if rarAlloc[ueIdx].Some? {
        if rarAlloc[ueIdx].value.pdcchCfg {
          pdus := pdus + [Pdcch(Rar(ueIdx))];
          freed := multiset{RarPdcchCfg(ueIdx)};
          rarAlloc[ueIdx] := Some(rarAlloc[ueIdx].value.(pdcchCfg := false));
        }
        if rarAlloc[ueIdx].value.pdschCfg {
          pdus := pdus + [Pdsch(Rar(ueIdx), pduIndex)];
          pduIndex := pduIndex + 1;
        }
      }
    }

    /** The dedicated message of one UE in the DL_TTI pass. */
    method EncodeMsg(ueIdx: nat, index: nat) returns (pdus: seq<DlPdu>, pduIndex: nat, freed: multiset<Obj>)
      requires Valid() && ueIdx < MAX_NUM_UE
      modifies dlMsgAlloc
      ensures pdus == MsgPdus(old(dlMsgAlloc[ueIdx]), ueIdx, index)
      ensures pduIndex == index + |MsgDlOwners(old(dlMsgAlloc[ueIdx]), ueIdx)|
      ensures dlMsgAlloc[ueIdx] == MsgAfterDl(old(dlMsgAlloc[ueIdx]))
      ensures freed == MsgFreedDl(old(dlMsgAlloc[ueIdx]), ueIdx)
      ensures forall u :: 0 <= u < MAX_NUM_UE && u != ueIdx ==> dlMsgAlloc[u] == old(dlMsgAlloc[u])
    {
      pdus, pduIndex, freed := [], index, multiset{};
      if dlMsgAlloc[ueIdx].Some? {
        if dlMsgAlloc[ueIdx].value.pdcchCfg {
          pdus := pdus + [Pdcch(Msg(ueIdx))];
        }
        if dlMsgAlloc[ueIdx].value.pdu {
          if dlMsgAlloc[ueIdx].value.pdschCfg {
            pdus := pdus + [Pdsch(Msg(ueIdx), pduIndex)];
            pduIndex := pduIndex + 1;
          }
        }
        if dlMsgAlloc[ueIdx].value.pdcchCfg {
          freed := multiset{MsgPdcchCfg(ueIdx)};
        }
        dlMsgAlloc[ueIdx] := Some(dlMsgAlloc[ueIdx].value.(pdcchCfg := false));
      }
    }

    /** One UE of the DL_TTI pass. */
    method EncodeUe(ueIdx: nat, index: nat, ghost s: DlSlot)
      returns (pdus: seq<DlPdu>, pduIndex: nat, freed: multiset<Obj>)
      requires Valid() && ueIdx < MAX_NUM_UE
      requires s.Valid() && rarAlloc[ueIdx] == s.rar[ueIdx] && dlMsgAlloc[ueIdx] == s.msg[ueIdx]
      modifies rarAlloc, dlMsgAlloc
      ensures pdus == UePdus(s, ueIdx, index) && pduIndex == index + |UeDlOwners(s, ueIdx)|
      ensures freed == UeFreedDl(s, ueIdx)
      ensures rarAlloc[ueIdx] == RarAfterDl(s.rar[ueIdx]) && dlMsgAlloc[ueIdx] == MsgAfterDl(s.msg[ueIdx])
      ensures forall u :: 0 <= u < MAX_NUM_UE && u != ueIdx ==> rarAlloc[u] == old(rarAlloc[u])
      ensures forall u :: 0 <= u < MAX_NUM_UE && u != ueIdx ==> dlMsgAlloc[u] == old(dlMsgAlloc[u])
    {
      var rarPdus, msgPdus, rarGone, msgGone;
      rarPdus, pduIndex, rarGone := EncodeRar(ueIdx, index);
      msgPdus, pduIndex, msgGone := EncodeMsg(ueIdx, pduIndex);
      pdus, freed := rarPdus + msgPdus, rarGone + msgGone;
    }

    /** The UE loop of the DL_TTI pass, after the PDUs `shared`. */
    method EncodeUes(shared: seq<DlPdu>, index: nat, ghost s: DlSlot)
      returns (pdus: seq<DlPdu>, freed: seq<multiset<Obj>>)
      requires Valid() && s == State() && shared == DlPdus(s, 0) && index == |DlOwners(s, 0)|
      modifies rarAlloc, dlMsgAlloc
      ensures forall u :: 0 <= u < MAX_NUM_UE ==>
        rarAlloc[u] == RarAfterDl(s.rar[u]) && dlMsgAlloc[u] == MsgAfterDl(s.msg[u])
      ensures pdus == DlPdus(s, |s.rar|) && freed == FreedDl(s)
    {
      pdus, freed := shared, [];
      var pduIndex := index;
      for ueIdx := 0 to rarAlloc.Length
        invariant forall u :: 0 <= u < ueIdx ==>
          rarAlloc[u] == RarAfterDl(s.rar[u]) && dlMsgAlloc[u] == MsgAfterDl(s.msg[u])
        invariant forall u :: ueIdx <= u < MAX_NUM_UE ==> rarAlloc[u] == s.rar[u] && dlMsgAlloc[u] == s.msg[u]
        invariant pdus == DlPdus(s, ueIdx) && pduIndex == |DlOwners(s, ueIdx)|
        invariant FreedDlSoFar(s, ueIdx, freed)
      {
        var more, gone;
        more, pduIndex, gone := EncodeUe(ueIdx, pduIndex, s);
        FreedDlOneMore(s, ueIdx, freed, gone);
        pdus, freed := pdus + more, freed + [gone];
      }
      FreedDlInAll(s, freed);
    }

    /** The body of fillDlTtiReq for a non-empty slot: PDUs, and the slot it leaves behind. */
    method EncodeDlTti(nPdu: nat) returns (pdus: seq<DlPdu>, freed: seq<multiset<Obj>>)
      requires Valid() && nPdu == DlCount(State(), rarAlloc.Length)
      modifies rarAlloc, dlMsgAlloc
      ensures Valid() && State() == AfterDl(old(State()))
      ensures pdus == DlPdus(old(State()), rarAlloc.Length) && freed == FreedDl(old(State()))
    {
      ghost var s := State();
      var pduIndex;
      pdus, pduIndex := EncodeShared(nPdu);
      pdus, freed := EncodeUes(pdus, pduIndex, s);
      assert rarAlloc[..] == AfterDl(s).rar && dlMsgAlloc[..] == AfterDl(s).msg;
    }

    /** The RAR of one UE in the TX_DATA pass. */
    method TxRar(ueIdx: nat, index: nat) returns (descs: seq<(Owner, nat)>, pduIndex: nat, freed: multiset<Obj>)
      requires Valid() && ueIdx < MAX_NUM_UE
      modifies rarAlloc
      ensures descs == Numbered(RarOwners(old(rarAlloc[ueIdx]), ueIdx), index) && pduIndex == index + |descs|
      ensures rarAlloc[ueIdx] == None && freed == RarFreedTx(old(rarAlloc[ueIdx]), ueIdx)
      ensures forall u :: 0 <= u < MAX_NUM_UE && u != ueIdx ==> rarAlloc[u] == old(rarAlloc[u])
    {
      descs, pduIndex, freed := [], index, multiset{};
      if rarAlloc[ueIdx].Some? {
        if rarAlloc[ueIdx].value.pdschCfg {
          descs := [(Rar(ueIdx), pduIndex)];
          pduIndex := pduIndex + 1;
          freed := multiset{RarPdschCfg(ueIdx)};
        }
        freed := freed + multiset{RarBlock(ueIdx)};
        rarAlloc[ueIdx] := None;
      }
    }

    /** The dedicated message of one UE in the TX_DATA pass. */
    method TxMsg(ueIdx: nat, index: nat) returns (descs: seq<(Owner, nat)>, pduIndex: nat, freed: multiset<Obj>)
      requires Valid() && ueIdx < MAX_NUM_UE
      modifies dlMsgAlloc
      ensures descs == Numbered(MsgTxOwners(old(dlMsgAlloc[ueIdx]), ueIdx), index) && pduIndex == index + |descs|
      ensures dlMsgAlloc[ueIdx] == None && freed == MsgFreedTx(old(dlMsgAlloc[ueIdx]), ueIdx)
      ensures forall u :: 0 <= u < MAX_NUM_UE && u != ueIdx ==> dlMsgAlloc[u] == old(dlMsgAlloc[u])
    {
      descs, pduIndex, freed := [], index, multiset{};
      if dlMsgAlloc[ueIdx].Some? {
        if dlMsgAlloc[ueIdx].value.pdschCfg {
          descs := [(Msg(ueIdx), pduIndex)];
          pduIndex := pduIndex + 1;
          freed := multiset{MsgPdschCfg(ueIdx)};
        }
        if dlMsgAlloc[ueIdx].value.pdu {
          freed := freed + multiset{MsgPdu(ueIdx)};
        }
        freed := freed + multiset{MsgBlock(ueIdx)};
        dlMsgAlloc[ueIdx] := None;
      }
    }

    /** One UE of the TX_DATA pass. */
    method TxUe(ueIdx: nat, index: nat, ghost s: DlSlot)
      returns (descs: seq<(Owner, nat)>, pduIndex: nat, freed: multiset<Obj>)
      requires Valid() && ueIdx < MAX_NUM_UE
      requires s.Valid() && rarAlloc[ueIdx] == s.rar[ueIdx] && dlMsgAlloc[ueIdx] == s.msg[ueIdx]
      modifies rarAlloc, dlMsgAlloc
      ensures descs == Numbered(UeTxOwners(s, ueIdx), index) && pduIndex == index + |descs|
      ensures freed == UeFreedTx(s, ueIdx)
      ensures forall u :: 0 <= u < MAX_NUM_UE && u != ueIdx ==> rarAlloc[u] == old(rarAlloc[u])
      ensures forall u :: 0 <= u < MAX_NUM_UE && u != ueIdx ==> dlMsgAlloc[u] == old(dlMsgAlloc[u])
    {
      var rarDescs, msgDescs, rarGone, msgGone;
      rarDescs, pduIndex, rarGone := TxRar(ueIdx, index);
      msgDescs, pduIndex, msgGone := TxMsg(ueIdx, pduIndex);
      UeTxJoined(s, ueIdx, index, rarDescs, msgDescs, rarGone, msgGone);
      descs, freed := rarDescs + msgDescs, rarGone + msgGone;
    }

    /** The descriptors that do not belong to a UE. */
    method TxShared() returns (descs: seq<(Owner, nat)>, freed: multiset<Obj>)
      requires Valid()
      modifies this`pageAllocInfo
      ensures descs == Numbered(TxOwners(old(State()), 0), 0) && freed == SharedFreedTx(old(State()))
    {
      descs, freed := [], multiset{};
      var pduIndex := 0;
      if sib1TransmissionMode != 0 {
        descs := descs + [(Sib1, pduIndex)];
        pduIndex := pduIndex + 1;
        freed := multiset{Sib1PdcchCfg};
      }
      if pageAllocInfo {
        descs := descs + [(Page, pduIndex)];
        freed := freed + multiset{PagePdu} + multiset{PageInfo};
        pageAllocInfo := false;
      }
    }

    /** The UE loop of the TX_DATA pass, after the shared descriptors. */
    method TxUes(shared: seq<(Owner, nat)>, ghost s: DlSlot)
      returns (descs: seq<(Owner, nat)>, freed: seq<multiset<Obj>>)
      requires Valid() && s.Valid()
      requires forall u :: 0 <= u < MAX_NUM_UE ==> rarAlloc[u] == s.rar[u] && dlMsgAlloc[u] == s.msg[u]
      requires shared == Numbered(TxOwners(s, 0), 0)
      modifies rarAlloc, dlMsgAlloc
      ensures descs == Numbered(TxOwners(s, |s.rar|), 0) && freed == FreedTx(s)
    {
      descs, freed := shared, [];
      var pduIndex := |shared|;
      for ueIdx := 0 to rarAlloc.Length
        invariant forall u :: ueIdx <= u < MAX_NUM_UE ==> rarAlloc[u] == s.rar[u] && dlMsgAlloc[u] == s.msg[u]
        invariant descs == Numbered(TxOwners(s, ueIdx), 0) && pduIndex == |descs|
        invariant FreedTxSoFar(s, ueIdx, freed)
      {
        var more, last;
        more, pduIndex, last := TxUe(ueIdx, pduIndex, s);
        MoreFromZero(TxOwners(s, ueIdx), UeTxOwners(s, ueIdx), descs, more);
        FreedTxOneMore(s, ueIdx, freed, last);
        descs, freed := descs + more, freed + [last];
      }
      FreedTxInAll(s, freed);
    }

    /** sendTxDataReq: the descriptors, when there is anything to send. */
    method SendTxDataReq()
      returns (descs: seq<(Owner, nat)>, sent: bool, shared: multiset<Obj>, freed: seq<multiset<Obj>>)
      requires Valid()
      modifies this`pageAllocInfo, rarAlloc, dlMsgAlloc
      ensures Valid() && descs == TxPdus(old(State())) && sent == (TxCount(old(State()), rarAlloc.Length) > 0)
      ensures sent ==> shared == SharedFreedTx(old(State())) && freed == FreedTx(old(State()))
    {
      ghost var s := State();
      var nPdu := CalcTxDataReqPduCount();
      sent := nPdu > 0;
      if !sent {
        return [], sent, multiset{}, [];
      }
      descs, shared := TxShared();
      descs, freed := TxUes(descs, s);
    }
  }

  lemma UeTxJoined(s: DlSlot, ue: nat, index: nat, a: seq<(Owner, nat)>, b: seq<(Owner, nat)>, c: multiset<Obj>,
                   d: multiset<Obj>)
    requires s.Valid() && ue < MAX_NUM_UE
    requires a == Numbered(RarOwners(s.rar[ue], ue), index) && b == Numbered(MsgTxOwners(s.msg[ue], ue), index + |a|)
    requires c == RarFreedTx(s.rar[ue], ue) && d == MsgFreedTx(s.msg[ue], ue)
    ensures a + b == Numbered(UeTxOwners(s, ue), index) && c + d == UeFreedTx(s, ue)
  {
    MoreNumbered(RarOwners(s.rar[ue], ue), MsgTxOwners(s.msg[ue], ue), index, a, b);
  }

  predicate FreedDlSoFar(s: DlSlot, n: nat, freed: seq<multiset<Obj>>)
    requires s.Valid() && n <= MAX_NUM_UE
  {
    |freed| == n && forall u :: 0 <= u < n ==> freed[u] == UeFreedDl(s, u)
  }

  lemma FreedDlOneMore(s: DlSlot, n: nat, freed: seq<multiset<Obj>>, last: multiset<Obj>)
    requires s.Valid() && n < MAX_NUM_UE && FreedDlSoFar(s, n, freed) && last == UeFreedDl(s, n)
    ensures FreedDlSoFar(s, n + 1, freed + [last])
  {
  }

  lemma FreedDlInAll(s: DlSlot, freed: seq<multiset<Obj>>)
    requires s.Valid() && FreedDlSoFar(s, |s.rar|, freed)
    ensures freed == FreedDl(s)
  {
  }

  predicate FreedTxSoFar(s: DlSlot, n: nat, freed: seq<multiset<Obj>>)
    requires s.Valid() && n <= MAX_NUM_UE
  {
    |freed| == n && forall u :: 0 <= u < n ==> freed[u] == UeFreedTx(s, u)
  }

  lemma FreedTxOneMore(s: DlSlot, n: nat, freed: seq<multiset<Obj>>, last: multiset<Obj>)
    requires s.Valid() && n < MAX_NUM_UE && FreedTxSoFar(s, n, freed) && last == UeFreedTx(s, n)
    ensures FreedTxSoFar(s, n + 1, freed + [last])
  {
  }

  lemma FreedTxInAll(s: DlSlot, freed: seq<multiset<Obj>>)
    requires s.Valid() && FreedTxSoFar(s, |s.rar|, freed)
    ensures freed == FreedTx(s)
  {
  }

  lemma MoreNumbered(a: seq<Owner>, b: seq<Owner>, first: nat, descs: seq<(Owner, nat)>, more: seq<(Owner, nat)>)
    requires descs == Numbered(a, first) && more == Numbered(b, first + |descs|)
    ensures descs + more == Numbered(a + b, first)
  {
    NumberedConcat(a, b, first);
  }

  lemma MoreFromZero(a: seq<Owner>, b: seq<Owner>, descs: seq<(Owner, nat)>, more: seq<(Owner, nat)>)
    requires descs == Numbered(a, 0) && more == Numbered(b, |descs|)
    ensures descs + more == Numbered(a + b, 0)
  {
    var first: nat := 0;
    assert first + |descs| == |descs| == |a|;
    MoreNumbered(a, b, first, descs, more);
  }

  lemma {:induction false} CountSplit(s: DlSlot, n: nat)
    requires s.Valid() && n <= MAX_NUM_UE
    ensures DlCount(s, n) >= DlCount(s, 0) == |SharedPdus(s)|
  {
    if n > 0 { CountSplit(s, n - 1); }
  }
}
