/**
 What the independent counters and walks over one slot have to agree on.
 */
module SlotProperties {
  import opened Common
  import opened SlotAssembly

  // ------------------------------------------------------------------ announced and encoded

  /** The UE's RAR has some configuration and its message, if it has a PDSCH, has its PDU. */
  predicate UeComplete(s: DlSlot, ue: nat)
    requires s.Valid() && ue < MAX_NUM_UE
  {
    && (s.rar[ue].Some? ==> s.rar[ue].value.pdcchCfg || s.rar[ue].value.pdschCfg)
    && (s.msg[ue].Some? && s.msg[ue].value.pdschCfg ==> s.msg[ue].value.pdu)
  }

  predicate AllComplete(s: DlSlot, n: nat)
    requires s.Valid() && n <= MAX_NUM_UE
  {
    forall ue :: 0 <= ue < n ==> UeComplete(s, ue)
  }

  predicate Covers(announced: nat, encoded: nat, complete: bool) {
    encoded <= announced && (encoded == announced <==> complete)
  }

  lemma UeCountCoversEncoding(s: DlSlot, ue: nat, index: nat)
    requires s.Valid() && ue < MAX_NUM_UE
    ensures Covers(UeCount(s, ue), |UePdus(s, ue, index)|, UeComplete(s, ue))
  {
  }

  predicate CoversUpTo(s: DlSlot, n: nat)
    requires s.Valid() && n <= MAX_NUM_UE
  {
    Covers(DlCount(s, n), |DlPdus(s, n)|, AllComplete(s, n))
  }

  lemma CoversShared(s: DlSlot, n: nat)
    requires s.Valid() && n == 0
    ensures CoversUpTo(s, n)
  {
  }

  lemma CoversStep(s: DlSlot, n: nat)
    requires s.Valid() && 0 < n <= MAX_NUM_UE && CoversUpTo(s, n - 1)
    ensures CoversUpTo(s, n)
  {
    UeCountCoversEncoding(s, n - 1, |DlOwners(s, n - 1)|);
    CompleteStep(s, n);
    LengthStep(s, n);
  }

  lemma CompleteStep(s: DlSlot, n: nat)
    requires s.Valid() && 0 < n <= MAX_NUM_UE
    ensures AllComplete(s, n) <==> AllComplete(s, n - 1) && UeComplete(s, n - 1)
  {
  }

  lemma LengthStep(s: DlSlot, n: nat)
    requires s.Valid() && 0 < n <= MAX_NUM_UE
    ensures |DlPdus(s, n)| == |DlPdus(s, n - 1)| + |UePdus(s, n - 1, |DlOwners(s, n - 1)|)|
  {
  }

  lemma {:induction false} AllCovered(s: DlSlot, n: nat)
    requires s.Valid() && n <= MAX_NUM_UE
    ensures CoversUpTo(s, n)
  {
    if n == 0 {
      CoversShared(s, n);
    } else {
      AllCovered(s, n - 1);
      CoversStep(s, n);
    }
  }

  /** DL_TTI never announces fewer PDUs than it encodes, and announces exactly as many
      when and only when every UE is complete. */
  lemma DlCountCoversEncoding(s: DlSlot, n: nat)
    requires s.Valid() && n <= MAX_NUM_UE
    ensures |DlPdus(s, n)| <= DlCount(s, n)
    ensures |DlPdus(s, n)| == DlCount(s, n) <==> forall ue :: 0 <= ue < n ==> UeComplete(s, ue)
  {
    AllCovered(s, n);
  }

  /** The TX_DATA count misses exactly a SIB1 flagged without a broadcast. */
  lemma {:induction false} TxCountOfOwners(s: DlSlot, n: nat)
    requires s.Valid() && n <= MAX_NUM_UE
    ensures |TxOwners(s, n)| == TxCount(s, n) + (if s.sib1Mode != 0 && !s.isBroadcastPres then 1 else 0)
  {
    if n > 0 { TxCountOfOwners(s, n - 1); }
  }

  /** A slot with no PDU for DL_TTI has nothing for TX_DATA either. */
  lemma {:induction false} NothingToEncodeNothingToSend(s: DlSlot, n: nat)
    requires s.Valid() && n <= MAX_NUM_UE && DlCount(s, n) == 0
    ensures TxCount(s, n) == 0
  {
    if n > 0 { NothingToEncodeNothingToSend(s, n - 1); }
  }

  // ------------------------------------------------------------------ the PDSCH indices

  /** The PDSCH PDUs of a list, with the index each carries. */
  function Pdschs(pdus: seq<DlPdu>): seq<(Owner, nat)> {
    if pdus == [] then []
    else
      var last := pdus[|pdus| - 1];
      Pdschs(pdus[..|pdus| - 1]) + (if last.Pdsch? then [(last.owner, last.pduIndex)] else [])
  }

  lemma {:induction false} PdschsConcat(a: seq<DlPdu>, b: seq<DlPdu>)
    ensures Pdschs(a + b) == Pdschs(a) + Pdschs(b)
  {
    if b == [] {
      assert a + b == a;
    } else {
      PdschsConcat(a, b[..|b| - 1]);
      assert (a + b)[..|a + b| - 1] == a + b[..|b| - 1];
    }
  }

  lemma PdschsOne(p: DlPdu)
    ensures Pdschs([p]) == if p.Pdsch? then [(p.owner, p.pduIndex)] else []
  {
    assert [p][..0] == [];
  }

  lemma PdschsWhen(c: bool, p: DlPdu)
    ensures Pdschs(When(c, p)) == if c && p.Pdsch? then [(p.owner, p.pduIndex)] else []
  {
    PdschsOne(p);
  }

  lemma {:induction false} NoPdschInSsb(n: nat)
    ensures Pdschs(SsbPdus(n)) == []
  {
    if n > 0 {
      NoPdschInSsb(n - 1);
      assert SsbPdus(n)[..n - 1] == SsbPdus(n - 1);
    }
  }

  lemma NumberedWhen(c: bool, o: Owner, first: nat)
    ensures Numbered(When(c, o), first) == if c then [(o, first)] else []
  {
    assert [o][..0] == [];
  }

  lemma JoinPdschs(a: seq<DlPdu>, aOwners: seq<Owner>, b: seq<DlPdu>, bOwners: seq<Owner>, index: nat)
    requires Pdschs(a) == Numbered(aOwners, index) && Pdschs(b) == Numbered(bOwners, index + |aOwners|)
    ensures Pdschs(a + b) == Numbered(aOwners + bOwners, index)
  {
    PdschsConcat(a, b);
    NumberedConcat(aOwners, bOwners, index);
  }

  lemma UePdschs(s: DlSlot, ue: nat, index: nat)
    requires s.Valid() && ue < MAX_NUM_UE
    ensures Pdschs(UePdus(s, ue, index)) == Numbered(UeDlOwners(s, ue), index)
  {
    var r, m := s.rar[ue], s.msg[ue];
    var next := index + |RarOwners(r, ue)|;
    RarPdschs(r, ue, index);
    MsgPdschs(m, ue, next);
    JoinPdschs(RarPdus(r, ue, index), RarOwners(r, ue), MsgPdus(m, ue, next), MsgDlOwners(m, ue), index);
  }

  lemma RarPdschs(r: Option<RarAlloc>, ue: nat, index: nat)
    ensures Pdschs(RarPdus(r, ue, index)) == Numbered(RarOwners(r, ue), index)
  {
    var a, b := r.Some? && r.value.pdcchCfg, r.Some? && r.value.pdschCfg;
    PdschsConcat(When(a, Pdcch(Rar(ue))), When(b, Pdsch(Rar(ue), index)));
    PdschsWhen(a, Pdcch(Rar(ue)));
    PdschsWhen(b, Pdsch(Rar(ue), index));
    NumberedWhen(b, Rar(ue), index);
  }

  lemma MsgPdschs(m: Option<DlMsg>, ue: nat, index: nat)
    ensures Pdschs(MsgPdus(m, ue, index)) == Numbered(MsgDlOwners(m, ue), index)
  {
    var a, b := m.Some? && m.value.pdcchCfg, m.Some? && m.value.pdu && m.value.pdschCfg;
    PdschsConcat(When(a, Pdcch(Msg(ue))), When(b, Pdsch(Msg(ue), index)));
    PdschsWhen(a, Pdcch(Msg(ue)));
    PdschsWhen(b, Pdsch(Msg(ue), index));
    NumberedWhen(b, Msg(ue), index);
  }

  lemma TwoPdus(c: bool, o: Owner, index: nat)
    ensures Pdschs(if c then [Pdcch(o), Pdsch(o, index)] else []) == if c then [(o, index)] else []
  {
    PdschsConcat([Pdcch(o)], [Pdsch(o, index)]);
    assert [Pdcch(o)] + [Pdsch(o, index)] == [Pdcch(o), Pdsch(o, index)];
    PdschsOne(Pdcch(o));
    PdschsOne(Pdsch(o, index));
  }

  lemma SharedPdschs(s: DlSlot)
    requires s.Valid()
    ensures Pdschs(SharedPdus(s)) == Numbered(DlOwners(s, 0), 0)
  {
    var sib1 := s.isBroadcastPres && s.sib1Mode != 0;
    var pageIndex := if sib1 then 1 else 0;
    var ssb := if s.isBroadcastPres && s.ssbMode != 0 then SsbPdus(s.numSsb) else [];
    var two := if sib1 then [Pdcch(Sib1), Pdsch(Sib1, 0)] else [];
    var page := if s.page then [Pdcch(Page), Pdsch(Page, pageIndex)] else [];
    NoPdschInSsb(s.numSsb);
    PdschsConcat(ssb, two);
    PdschsConcat(ssb + two, page);
    TwoPdus(sib1, Sib1, 0);
    TwoPdus(s.page, Page, pageIndex);
    NumberedConcat(When(sib1, Sib1), When(s.page, Page), 0);
    NumberedWhen(sib1, Sib1, 0);
    NumberedWhen(s.page, Page, pageIndex);
  }

  predicate InOrder(pdus: seq<DlPdu>, owners: seq<Owner>) {
    Pdschs(pdus) == Numbered(owners, 0)
  }

  lemma UeInOrder(s: DlSlot, ue: nat, pdus: seq<DlPdu>, owners: seq<Owner>, morePdus: seq<DlPdu>,
                  moreOwners: seq<Owner>)
    requires s.Valid() && ue < MAX_NUM_UE && InOrder(pdus, owners)
    requires morePdus == pdus + UePdus(s, ue, |owners|) && moreOwners == owners + UeDlOwners(s, ue)
    ensures InOrder(morePdus, moreOwners)
  {
    UePdschs(s, ue, |owners|);
    JoinPdschs(pdus, owners, UePdus(s, ue, |owners|), UeDlOwners(s, ue), 0);
  }

  lemma SharedInOrder(s: DlSlot, pdus: seq<DlPdu>, owners: seq<Owner>)
    requires s.Valid() && pdus == SharedPdus(s) && owners == DlOwners(s, 0)
    ensures InOrder(pdus, owners)
  {
    SharedPdschs(s);
  }

  lemma {:induction false} AllInOrder(s: DlSlot, n: nat, pdus: seq<DlPdu>, owners: seq<Owner>)
    requires s.Valid() && n <= MAX_NUM_UE && pdus == DlPdus(s, n) && owners == DlOwners(s, n)
    ensures InOrder(pdus, owners)
  {
    if n == 0 {
      SharedInOrder(s, pdus, owners);
    } else {
      AllInOrder(s, n - 1, DlPdus(s, n - 1), DlOwners(s, n - 1));
      UeInOrder(s, n - 1, DlPdus(s, n - 1), DlOwners(s, n - 1), pdus, owners);
    }
  }

  /** The PDSCH PDUs of DL_TTI carry the indices 0, 1, 2, ... in order. */
  lemma PdschIndicesAreConsecutive(s: DlSlot, n: nat)
    requires s.Valid() && n <= MAX_NUM_UE
    ensures Pdschs(DlPdus(s, n)) == Numbered(DlOwners(s, n), 0)
  {
    AllInOrder(s, n, DlPdus(s, n), DlOwners(s, n));
  }

  // ------------------------------------------------------------------ DL_TTI against TX_DATA

  lemma TxIgnoresPdcch(r: Option<RarAlloc>, m: Option<DlMsg>, ue: nat)
    ensures RarOwners(RarAfterDl(r), ue) == RarOwners(r, ue) && RarFreedTx(RarAfterDl(r), ue) == RarFreedTx(r, ue)
    ensures MsgTxOwners(MsgAfterDl(m), ue) == MsgTxOwners(m, ue) && MsgFreedTx(MsgAfterDl(m), ue) == MsgFreedTx(m, ue)
  {
  }

  lemma UeTxUnaffectedByDlPass(s: DlSlot, ue: nat)
    requires s.Valid() && ue < MAX_NUM_UE
    ensures UeTxOwners(AfterDl(s), ue) == UeTxOwners(s, ue) && UeTxCount(AfterDl(s), ue) == UeTxCount(s, ue)
    ensures UeFreedTx(AfterDl(s), ue) == UeFreedTx(s, ue)
  {
    TxIgnoresPdcch(s.rar[ue], s.msg[ue], ue);
  }

  /** Freeing the PDCCH configurations does not change what TX_DATA sees or frees. */
  lemma {:induction false} TxUnaffectedByDlPass(s: DlSlot, n: nat)
    requires s.Valid() && n <= MAX_NUM_UE
    ensures TxOwners(AfterDl(s), n) == TxOwners(s, n) && TxCount(AfterDl(s), n) == TxCount(s, n)
  {
    if n > 0 {
      TxUnaffectedByDlPass(s, n - 1);
      UeTxUnaffectedByDlPass(s, n - 1);
    }
  }

  lemma TxFreesTheSame(s: DlSlot)
    requires s.Valid()
    ensures FreedTx(AfterDl(s)) == FreedTx(s) && SharedFreedTx(AfterDl(s)) == SharedFreedTx(s)
  {
    forall ue | 0 <= ue < |s.rar| ensures UeFreedTx(AfterDl(s), ue) == UeFreedTx(s, ue) {
      UeTxUnaffectedByDlPass(s, ue);
    }
  }

  predicate MsgsHavePdus(s: DlSlot, n: nat)
    requires s.Valid() && n <= MAX_NUM_UE
  {
    forall ue :: 0 <= ue < n && s.msg[ue].Some? && s.msg[ue].value.pdschCfg ==> s.msg[ue].value.pdu
  }

  /** A SIB1 mode comes with a broadcast. */
  predicate Sib1NeedsBroadcast(s: DlSlot) {
    s.sib1Mode != 0 ==> s.isBroadcastPres
  }

  lemma {:induction false} SameOwners(s: DlSlot, n: nat)
    requires s.Valid() && n <= MAX_NUM_UE && MsgsHavePdus(s, n) && Sib1NeedsBroadcast(s)
    ensures DlOwners(s, n) == TxOwners(s, n)
  {
    if n > 0 {
      SameOwners(s, n - 1);
      assert s.msg[n - 1].Some? && s.msg[n - 1].value.pdschCfg ==> s.msg[n - 1].value.pdu;
    }
  }

  predicate HasRarPdsch(s: DlSlot, ue: nat)
    requires s.Valid() && ue < MAX_NUM_UE
  {
    s.rar[ue].Some? && s.rar[ue].value.pdschCfg
  }

  predicate HasMsgPdsch(s: DlSlot, ue: nat)
    requires s.Valid() && ue < MAX_NUM_UE
  {
    s.msg[ue].Some? && s.msg[ue].value.pdschCfg
  }

  predicate InDl(s: DlSlot, n: nat, o: Owner)
    requires s.Valid() && n <= MAX_NUM_UE
  {
    match o
    case Sib1 => s.isBroadcastPres && s.sib1Mode != 0
    case Page => s.page
    case Rar(ue) => ue < n && HasRarPdsch(s, ue)
    case Msg(ue) => ue < n && HasMsgPdsch(s, ue) && s.msg[ue].value.pdu
  }

  predicate InTx(s: DlSlot, n: nat, o: Owner)
    requires s.Valid() && n <= MAX_NUM_UE
  {
    match o
    case Sib1 => s.sib1Mode != 0
    case Page => s.page
    case Rar(ue) => ue < n && HasRarPdsch(s, ue)
    case Msg(ue) => ue < n && HasMsgPdsch(s, ue)
  }

  lemma UeDlByName(s: DlSlot, ue: nat, o: Owner)
    requires s.Valid() && ue < MAX_NUM_UE
    ensures o in UeDlOwners(s, ue) || InDl(s, ue, o) <==> InDl(s, ue + 1, o)
  {
  }

  lemma UeTxByName(s: DlSlot, ue: nat, o: Owner)
    requires s.Valid() && ue < MAX_NUM_UE
    ensures o in UeTxOwners(s, ue) || InTx(s, ue, o) <==> InTx(s, ue + 1, o)
  {
  }

  lemma {:induction false} DlOwnersByName(s: DlSlot, n: nat, o: Owner, owners: seq<Owner>)
    requires s.Valid() && n <= MAX_NUM_UE && owners == DlOwners(s, n)
    ensures o in owners <==> InDl(s, n, o)
  {
    if n > 0 {
      DlOwnersByName(s, n - 1, o, DlOwners(s, n - 1));
      UeDlByName(s, n - 1, o);
    }
  }

  lemma {:induction false} TxOwnersByName(s: DlSlot, n: nat, o: Owner, owners: seq<Owner>)
    requires s.Valid() && n <= MAX_NUM_UE && owners == TxOwners(s, n)
    ensures o in owners <==> InTx(s, n, o)
  {
    if n > 0 {
      TxOwnersByName(s, n - 1, o, TxOwners(s, n - 1));
      UeTxByName(s, n - 1, o);
    }
  }

  lemma {:induction false} NothingSentMeansNoOwners(s: DlSlot, n: nat)
    requires s.Valid() && n <= MAX_NUM_UE && TxCount(s, n) == 0
    ensures DlOwners(s, n) == []
  {
    if n > 0 { NothingSentMeansNoOwners(s, n - 1); }
  }

  lemma NumberedInjective(a: seq<Owner>, b: seq<Owner>)
    requires Numbered(a, 0) == Numbered(b, 0)
    ensures a == b
  {
    forall k | 0 <= k < |a| ensures a[k] == b[k] {
      NumberedAt(a, 0, k);
      NumberedAt(b, 0, k);
    }
  }

  /**
   DL_TTI and TX_DATA give the same index to the same allocation, 0, 1, 2, ..., although one
   walk frees PDCCH configurations before the other starts: exactly when every message with a
   PDSCH has its PDU and a SIB1 mode comes with a broadcast (or nothing is sent at all).
   */
  lemma SameIndexForSameAllocation(s: DlSlot)
    requires s.Valid()
    ensures Pdschs(DlPdus(s, |s.rar|)) == TxPdus(AfterDl(s))
      <==> MsgsHavePdus(s, |s.rar|) && (Sib1NeedsBroadcast(s) || TxCount(s, |s.rar|) == 0)
  {
    var n := |s.rar|;
    PdschIndicesAreConsecutive(s, n);
    TxUnaffectedByDlPass(s, n);
    if TxCount(s, n) == 0 {
      NothingSentMeansNoOwners(s, n);
      NoMsgPdschWithoutCount(s, n);
    } else if MsgsHavePdus(s, n) && Sib1NeedsBroadcast(s) {
      SameOwners(s, n);
    } else {
      OwnersDiffer(s, n);
      NumberedApart(DlOwners(s, n), TxOwners(s, n));
    }
  }

  lemma OwnersDiffer(s: DlSlot, n: nat)
    requires s.Valid() && n <= MAX_NUM_UE && !(MsgsHavePdus(s, n) && Sib1NeedsBroadcast(s))
    ensures DlOwners(s, n) != TxOwners(s, n)
  {
    var o := if !Sib1NeedsBroadcast(s) then Sib1 else Msg(MissingPdu(s, n));
    DlOwnersByName(s, n, o, DlOwners(s, n));
    TxOwnersByName(s, n, o, TxOwners(s, n));
  }

  lemma NumberedApart(a: seq<Owner>, b: seq<Owner>)
    requires a != b
    ensures Numbered(a, 0) != Numbered(b, 0)
  {
    if Numbered(a, 0) == Numbered(b, 0) { NumberedInjective(a, b); }
  }

  function MissingPdu(s: DlSlot, n: nat): (ue: nat)
    requires s.Valid() && n <= MAX_NUM_UE && !MsgsHavePdus(s, n)
    ensures ue < n && s.msg[ue].Some? && s.msg[ue].value.pdschCfg && !s.msg[ue].value.pdu
  {
    if s.msg[n - 1].Some? && s.msg[n - 1].value.pdschCfg && !s.msg[n - 1].value.pdu then n - 1
    else MissingPdu(s, n - 1)
  }

  lemma {:induction false} NoMsgPdschWithoutCount(s: DlSlot, n: nat)
    requires s.Valid() && n <= MAX_NUM_UE && TxCount(s, n) == 0
    ensures MsgsHavePdus(s, n)
  {
    if n > 0 { NoMsgPdschWithoutCount(s, n - 1); }
  }

  // ------------------------------------------------------------------ conservation of memory

  function RarObjs(r: Option<RarAlloc>, ue: nat): multiset<Obj> {
    One(r.Some? && r.value.pdcchCfg, RarPdcchCfg(ue)) + One(r.Some? && r.value.pdschCfg, RarPdschCfg(ue))
    + One(r.Some?, RarBlock(ue))
  }

  function MsgObjs(m: Option<DlMsg>, ue: nat): multiset<Obj> {
    One(m.Some? && m.value.pdcchCfg, MsgPdcchCfg(ue)) + One(m.Some? && m.value.pdschCfg, MsgPdschCfg(ue))
    + One(m.Some? && m.value.pdu, MsgPdu(ue)) + One(m.Some?, MsgBlock(ue))
  }

  /** The heap objects a slot owns when its assembly starts: beside the UEs, and per UE. */
  function SharedOwned(s: DlSlot): multiset<Obj> {
    One(s.sib1Mode != 0, Sib1PdcchCfg) + One(s.page, PagePdu) + One(s.page, PageInfo) + One(s.ulGrant, UlGrantInfo)
  }

  function UeOwned(s: DlSlot, ue: nat): multiset<Obj>
    requires s.Valid() && ue < MAX_NUM_UE
  {
    RarObjs(s.rar[ue], ue) + MsgObjs(s.msg[ue], ue)
  }

  /** What the assembly frees: the DL_TTI pass when there are PDUs, the TX_DATA pass when there
      is something to send, the uplink grant in any case. */
  function SharedFreedByTx(s: DlSlot): multiset<Obj>
    requires s.Valid()
  {
    if TxCount(s, |s.rar|) > 0 then SharedFreedTx(s) else multiset{}
  }

  function SharedFreed(s: DlSlot): multiset<Obj>
    requires s.Valid()
  {
    SharedFreedByTx(s) + One(s.ulGrant, UlGrantInfo)
  }

  function NoneFreed(): seq<multiset<Obj>> {
    seq(MAX_NUM_UE, _ => multiset{})
  }

  function FreedByDl(s: DlSlot): (r: seq<multiset<Obj>>)
    requires s.Valid()
    ensures |r| == MAX_NUM_UE
  {
    if DlCount(s, |s.rar|) > 0 then FreedDl(s) else NoneFreed()
  }

  function FreedByTx(s: DlSlot): (r: seq<multiset<Obj>>)
    requires s.Valid()
    ensures |r| == MAX_NUM_UE
  {
    if TxCount(s, |s.rar|) > 0 then FreedTx(s) else NoneFreed()
  }

  function UeFreed(s: DlSlot, ue: nat): multiset<Obj>
    requires s.Valid() && ue < MAX_NUM_UE
  {
    FreedByDl(s)[ue] + FreedByTx(s)[ue]
  }

  lemma UePassesFreeEverything(s: DlSlot, ue: nat)
    requires s.Valid() && ue < MAX_NUM_UE
    ensures UeFreedDl(s, ue) + UeFreedTx(s, ue) == UeOwned(s, ue)
  {
    assert RarFreedDl(s.rar[ue], ue) + RarFreedTx(s.rar[ue], ue) == RarObjs(s.rar[ue], ue);
    assert MsgFreedDl(s.msg[ue], ue) + MsgFreedTx(s.msg[ue], ue) == MsgObjs(s.msg[ue], ue);
  }

  /** No RAR, no dedicated message, no SIB1 configuration: nothing that only TX_DATA frees. */
  predicate NothingForTx(s: DlSlot)
    requires s.Valid()
  {
    s.sib1Mode == 0 && !s.page && forall ue :: 0 <= ue < |s.rar| ==> NoUeForTx(s, ue)
  }

  predicate NoUeForTx(s: DlSlot, ue: nat)
    requires s.Valid() && ue < MAX_NUM_UE
  {
    s.rar[ue].None? && s.msg[ue].None?
  }

  lemma UeFreedTxEmpty(s: DlSlot, ue: nat)
    requires s.Valid() && ue < MAX_NUM_UE
    ensures UeFreedTx(s, ue) == multiset{} <==> NoUeForTx(s, ue)
    ensures NoUeForTx(s, ue) ==> UeFreedDl(s, ue) == multiset{}
  {
    assert s.rar[ue].Some? ==> RarBlock(ue) in RarFreedTx(s.rar[ue], ue);
    assert s.msg[ue].Some? ==> MsgBlock(ue) in MsgFreedTx(s.msg[ue], ue);
  }

  lemma Summand(a: multiset<Obj>, b: multiset<Obj>)
    ensures a == a + b <==> b == multiset{}
    ensures multiset{} == a + b <==> a == multiset{} && b == multiset{}
  {
    assert |a + b| == |a| + |b|;
  }

  lemma UeAllFreed(s: DlSlot, ue: nat)
    requires s.Valid() && ue < MAX_NUM_UE
    ensures UeFreed(s, ue) == UeOwned(s, ue) <==> TxCount(s, |s.rar|) > 0 || NoUeForTx(s, ue)
  {
    UePassesFreeEverything(s, ue);
    UeFreedTxEmpty(s, ue);
    Summand(UeFreedDl(s, ue), UeFreedTx(s, ue));
    if DlCount(s, |s.rar|) == 0 { NothingToEncodeNothingToSend(s, |s.rar|); }
    assert FreedDl(s)[ue] == UeFreedDl(s, ue) && FreedTx(s)[ue] == UeFreedTx(s, ue);
  }

  lemma SharedAllFreed(s: DlSlot)
    requires s.Valid()
    ensures SharedFreed(s) == SharedOwned(s) <==> TxCount(s, |s.rar|) > 0 || (s.sib1Mode == 0 && !s.page)
  {
    Summand(One(s.ulGrant, UlGrantInfo), SharedFreedTx(s));
    SharedOwnedIs(s);
    SharedFreedTxEmpty(s);
  }

  lemma SharedOwnedIs(s: DlSlot)
    requires s.Valid()
    ensures SharedOwned(s) == One(s.ulGrant, UlGrantInfo) + SharedFreedTx(s)
  {
  }

  lemma SharedFreedTxEmpty(s: DlSlot)
    requires s.Valid()
    ensures SharedFreedTx(s) == multiset{} <==> s.sib1Mode == 0 && !s.page
  {
    assert s.sib1Mode != 0 ==> Sib1PdcchCfg in SharedFreedTx(s);
    assert s.page ==> PageInfo in SharedFreedTx(s);
  }

  /** The assembly frees each object of the slot once. */
  predicate AllFreed(s: DlSlot)
    requires s.Valid()
  {
    SharedFreed(s) == SharedOwned(s) && forall ue :: 0 <= ue < |s.rar| ==> UeFreed(s, ue) == UeOwned(s, ue)
  }

  /**
   Everything the slot owns is freed exactly once by its assembly, when and only when TX_DATA
   has something to send or the slot holds nothing that only TX_DATA frees. A slot that carries
   only PDCCHs loses its RAR and message blocks when it is cleared.
   */
  lemma AllFreedExactlyWhenSent(s: DlSlot)
    requires s.Valid()
    ensures AllFreed(s) <==> TxCount(s, |s.rar|) > 0 || NothingForTx(s)
  {
    SharedAllFreed(s);
    forall ue | 0 <= ue < |s.rar|
      ensures UeFreed(s, ue) == UeOwned(s, ue) <==> TxCount(s, |s.rar|) > 0 || NoUeForTx(s, ue)
    {
      UeAllFreed(s, ue);
    }
  }
}
