/**
 The contents of DL_TTI and TX_DATA: which PDU of the slot occurs, how often, and where.
 */
module SlotPdus {
  import opened Common
  import opened SlotAssembly
  import opened SlotProperties

  function Count(c: bool): nat {
    if c then 1 else 0
  }

  /** The allocation has a PDCCH configuration: SIB1 and the page always do. */
  predicate HasPdcch(s: DlSlot, n: nat, o: Owner)
    requires s.Valid() && n <= MAX_NUM_UE
  {
    match o
    case Sib1 => s.isBroadcastPres && s.sib1Mode != 0
    case Page => s.page
    case Rar(ue) => ue < n && s.rar[ue].Some? && s.rar[ue].value.pdcchCfg
    case Msg(ue) => ue < n && s.msg[ue].Some? && s.msg[ue].value.pdcchCfg
  }

  /** What the slot asks for: a PDU for each configuration, a PDSCH PDU with its place as index. */
  predicate Wanted(s: DlSlot, n: nat, p: DlPdu)
    requires s.Valid() && n <= MAX_NUM_UE
  {
    match p
    case Ssb(idx) => s.isBroadcastPres && s.ssbMode != 0 && idx < s.numSsb
    case Pdcch(o) => HasPdcch(s, n, o)
    case Pdsch(o, index) => HasPlace(DlOwners(s, n), o, index)
  }

  predicate HasPlace(owners: seq<Owner>, o: Owner, index: nat) {
    index < |owners| && owners[index] == o
  }

  // ------------------------------------------------------------------ multiplicities

  ghost predicate Once<T>(all: seq<T>, x: T, wanted: bool) {
    multiset(all)[x] == Count(wanted)
  }

  lemma OnceWhen<T>(c: bool, y: T, x: T)
    ensures Once(When(c, y), x, c && x == y)
  {
  }

  lemma OnceConcat<T>(a: seq<T>, inA: bool, b: seq<T>, inB: bool, x: T)
    requires Once(a, x, inA) && Once(b, x, inB) && !(inA && inB)
    ensures Once(a + b, x, inA || inB)
  {
    assert multiset(a + b) == multiset(a) + multiset(b);
  }

  lemma {:induction false} SsbOnce(n: nat, p: DlPdu)
    ensures Once(SsbPdus(n), p, p.Ssb? && p.idx < n)
  {
    if n > 0 {
      SsbOnce(n - 1, p);
      assert SsbPdus(n) == SsbPdus(n - 1) + When(true, Ssb(n - 1));
      OnceWhen(true, Ssb(n - 1), p);
      OnceConcat(SsbPdus(n - 1), p.Ssb? && p.idx < n - 1, When(true, Ssb(n - 1)), p == Ssb(n - 1), p);
    }
  }

  // ------------------------------------------------------------------ the PDUs beside the UEs

  /** A PDCCH PDU and its PDSCH PDU. */
  lemma PairOnce(c: bool, o: Owner, index: nat, p: DlPdu)
    ensures Once(if c then [Pdcch(o), Pdsch(o, index)] else [], p, c && (p == Pdcch(o) || p == Pdsch(o, index)))
  {
    OnceWhen(c, Pdcch(o), p);
    OnceWhen(c, Pdsch(o, index), p);
    OnceConcat(When(c, Pdcch(o)), c && p == Pdcch(o), When(c, Pdsch(o, index)), c && p == Pdsch(o, index), p);
    assert When(c, Pdcch(o)) + When(c, Pdsch(o, index)) == if c then [Pdcch(o), Pdsch(o, index)] else [];
  }

  /** Three parts with nothing in common. */
  lemma OnceInThree<T>(a: seq<T>, inA: bool, b: seq<T>, inB: bool, c: seq<T>, inC: bool, x: T)
    requires Once(a, x, inA) && Once(b, x, inB) && Once(c, x, inC)
    requires !(inA && inB) && !(inA && inC) && !(inB && inC)
    ensures Once(a + b + c, x, inA || inB || inC)
  {
    OnceConcat(a, inA, b, inB, x);
    OnceConcat(a + b, inA || inB, c, inC, x);
  }

  lemma SharedInParts(s: DlSlot, sib1: bool, index: nat, ssb: seq<DlPdu>, p: DlPdu)
    requires sib1 == (s.isBroadcastPres && s.sib1Mode != 0) && index == Count(sib1)
    requires Once(ssb, p, p.Ssb? && s.isBroadcastPres && s.ssbMode != 0 && p.idx < s.numSsb)
    ensures Once(ssb + (if sib1 then [Pdcch(Sib1), Pdsch(Sib1, 0)] else [])
                 + (if s.page then [Pdcch(Page), Pdsch(Page, index)] else []), p,
                 || (p.Ssb? && s.isBroadcastPres && s.ssbMode != 0 && p.idx < s.numSsb)
                 || (sib1 && (p == Pdcch(Sib1) || p == Pdsch(Sib1, 0)))
                 || (s.page && (p == Pdcch(Page) || p == Pdsch(Page, index))))
  {
    PairOnce(sib1, Sib1, 0, p);
    PairOnce(s.page, Page, index, p);
    OnceInThree(ssb, p.Ssb? && s.isBroadcastPres && s.ssbMode != 0 && p.idx < s.numSsb,
                if sib1 then [Pdcch(Sib1), Pdsch(Sib1, 0)] else [],
                sib1 && (p == Pdcch(Sib1) || p == Pdsch(Sib1, 0)),
                if s.page then [Pdcch(Page), Pdsch(Page, index)] else [],
                s.page && (p == Pdcch(Page) || p == Pdsch(Page, index)), p);
  }

  lemma SharedWanted(s: DlSlot, sib1: bool, p: DlPdu)
    requires s.Valid() && sib1 == (s.isBroadcastPres && s.sib1Mode != 0)
    ensures Wanted(s, 0, p) <==>
      || (p.Ssb? && s.isBroadcastPres && s.ssbMode != 0 && p.idx < s.numSsb)
      || (sib1 && (p == Pdcch(Sib1) || p == Pdsch(Sib1, 0)))
      || (s.page && (p == Pdcch(Page) || p == Pdsch(Page, Count(sib1))))
  {
  }

  lemma SharedOnce(s: DlSlot, p: DlPdu)
    requires s.Valid()
    ensures Once(SharedPdus(s), p, Wanted(s, 0, p))
  {
    var sib1 := s.isBroadcastPres && s.sib1Mode != 0;
    var ssb := if s.isBroadcastPres && s.ssbMode != 0 then SsbPdus(s.numSsb) else [];
    SsbOnce(s.numSsb, p);
    SharedInParts(s, sib1, Count(sib1), ssb, p);
    SharedWanted(s, sib1, p);
  }

  // ------------------------------------------------------------------ the PDUs of a UE

  /** The PDU is the RAR's of UE `ue`, whose PDSCH has the given index; or the message's. */
  predicate OfRar(r: Option<RarAlloc>, ue: nat, index: nat, p: DlPdu) {
    r.Some? && ((r.value.pdcchCfg && p == Pdcch(Rar(ue))) || (r.value.pdschCfg && p == Pdsch(Rar(ue), index)))
  }

  predicate OfMsg(m: Option<DlMsg>, ue: nat, index: nat, p: DlPdu) {
    && m.Some?
    && ((m.value.pdcchCfg && p == Pdcch(Msg(ue)))
        || (m.value.pdu && m.value.pdschCfg && p == Pdsch(Msg(ue), index)))
  }

  lemma RarOnce(r: Option<RarAlloc>, ue: nat, index: nat, p: DlPdu)
    ensures Once(RarPdus(r, ue, index), p, OfRar(r, ue, index, p))
  {
    var a, b := r.Some? && r.value.pdcchCfg, r.Some? && r.value.pdschCfg;
    OnceWhen(a, Pdcch(Rar(ue)), p);
    OnceWhen(b, Pdsch(Rar(ue), index), p);
    OnceConcat(When(a, Pdcch(Rar(ue))), a && p == Pdcch(Rar(ue)),
               When(b, Pdsch(Rar(ue), index)), b && p == Pdsch(Rar(ue), index), p);
  }

  lemma MsgOnce(m: Option<DlMsg>, ue: nat, index: nat, p: DlPdu)
    ensures Once(MsgPdus(m, ue, index), p, OfMsg(m, ue, index, p))
  {
    var a, b := m.Some? && m.value.pdcchCfg, m.Some? && m.value.pdu && m.value.pdschCfg;
    OnceWhen(a, Pdcch(Msg(ue)), p);
    OnceWhen(b, Pdsch(Msg(ue), index), p);
    OnceConcat(When(a, Pdcch(Msg(ue))), a && p == Pdcch(Msg(ue)),
               When(b, Pdsch(Msg(ue), index)), b && p == Pdsch(Msg(ue), index), p);
  }

  predicate OfUe(s: DlSlot, ue: nat, index: nat, p: DlPdu)
    requires s.Valid() && ue < MAX_NUM_UE
  {
    OfRar(s.rar[ue], ue, index, p) || OfMsg(s.msg[ue], ue, index + |RarOwners(s.rar[ue], ue)|, p)
  }

  lemma UeOnce(s: DlSlot, ue: nat, index: nat, p: DlPdu)
    requires s.Valid() && ue < MAX_NUM_UE
    ensures Once(UePdus(s, ue, index), p, OfUe(s, ue, index, p))
  {
    var next := index + |RarOwners(s.rar[ue], ue)|;
    RarOnce(s.rar[ue], ue, index, p);
    MsgOnce(s.msg[ue], ue, next, p);
    OnceConcat(RarPdus(s.rar[ue], ue, index), OfRar(s.rar[ue], ue, index, p),
               MsgPdus(s.msg[ue], ue, next), OfMsg(s.msg[ue], ue, next, p), p);
  }

  /** The PDSCH of a RAR or message has the index it has among the owners. */
  lemma PlaceOfUe(s: DlSlot, ue: nat, before: seq<Owner>, o: Owner, index: nat)
    requires s.Valid() && ue < MAX_NUM_UE
    ensures HasPlace(before + UeDlOwners(s, ue), o, index)
      <==> HasPlace(before, o, index) || OfUe(s, ue, |before|, Pdsch(o, index))
    ensures HasPlace(before, o, index) ==> !OfUe(s, ue, |before|, Pdsch(o, index))
  {
  }

  lemma WantedStep(s: DlSlot, ue: nat, p: DlPdu, owners: seq<Owner>)
    requires s.Valid() && ue < MAX_NUM_UE && owners == DlOwners(s, ue)
    ensures Wanted(s, ue + 1, p) <==> Wanted(s, ue, p) || OfUe(s, ue, |owners|, p)
    ensures !(Wanted(s, ue, p) && OfUe(s, ue, |owners|, p))
  {
    match p
    case Ssb(_) =>
    case Pdcch(_) =>
    case Pdsch(o, index) =>
      assert DlOwners(s, ue + 1) == owners + UeDlOwners(s, ue);
      PlaceOfUe(s, ue, owners, o, index);
  }

  lemma OneMoreUe(s: DlSlot, ue: nat, p: DlPdu, before: seq<DlPdu>, owners: seq<Owner>, pdus: seq<DlPdu>)
    requires s.Valid() && ue < MAX_NUM_UE && owners == DlOwners(s, ue) && Once(before, p, Wanted(s, ue, p))
    requires pdus == before + UePdus(s, ue, |owners|)
    ensures Once(pdus, p, Wanted(s, ue + 1, p))
  {
    UeOnce(s, ue, |owners|, p);
    WantedStep(s, ue, p, owners);
    OnceConcat(before, Wanted(s, ue, p), UePdus(s, ue, |owners|), OfUe(s, ue, |owners|, p), p);
  }

  lemma {:induction false} WantedOnce(s: DlSlot, n: nat, p: DlPdu, pdus: seq<DlPdu>)
    requires s.Valid() && n <= MAX_NUM_UE && pdus == DlPdus(s, n)
    ensures Once(pdus, p, Wanted(s, n, p))
  {
    if n == 0 {
      SharedOnce(s, p);
    } else {
      WantedOnce(s, n - 1, p, DlPdus(s, n - 1));
      OneMoreUe(s, n - 1, p, DlPdus(s, n - 1), DlOwners(s, n - 1), pdus);
    }
  }

  /** DL_TTI encodes every SSB, and the PDCCH and PDSCH of every allocation, exactly once, each
      under its own allocation and index, and nothing else. */
  lemma WantedEncodedOnce(s: DlSlot, n: nat, p: DlPdu)
    requires s.Valid() && n <= MAX_NUM_UE
    ensures multiset(DlPdus(s, n))[p] == if Wanted(s, n, p) then 1 else 0
  {
    WantedOnce(s, n, p, DlPdus(s, n));
  }

  // ------------------------------------------------------------------ one place for each allocation

  lemma TwoOnce(a: bool, x: Owner, b: bool, y: Owner, o: Owner)
    requires x != y
    ensures Once(When(a, x) + When(b, y), o, (a && o == x) || (b && o == y))
  {
    OnceWhen(a, x, o);
    OnceWhen(b, y, o);
    OnceConcat(When(a, x), a && o == x, When(b, y), b && o == y, o);
  }

  lemma NewWithUe(s: DlSlot, ue: nat, o: Owner)
    requires s.Valid() && ue < MAX_NUM_UE
    ensures InDl(s, ue + 1, o) && !InDl(s, ue, o)
      <==> (HasRarPdsch(s, ue) && o == Rar(ue)) || (HasMsgPdsch(s, ue) && s.msg[ue].value.pdu && o == Msg(ue))
    ensures InTx(s, ue + 1, o) && !InTx(s, ue, o)
      <==> (HasRarPdsch(s, ue) && o == Rar(ue)) || (HasMsgPdsch(s, ue) && o == Msg(ue))
  {
  }

  lemma UeDlOwnersOnce(s: DlSlot, ue: nat, o: Owner, owners: seq<Owner>)
    requires s.Valid() && ue < MAX_NUM_UE && owners == UeDlOwners(s, ue)
    ensures Once(owners, o, InDl(s, ue + 1, o) && !InDl(s, ue, o))
  {
    NewWithUe(s, ue, o);
    TwoOnce(HasRarPdsch(s, ue), Rar(ue), HasMsgPdsch(s, ue) && s.msg[ue].value.pdu, Msg(ue), o);
  }

  lemma UeTxOwnersOnce(s: DlSlot, ue: nat, o: Owner, owners: seq<Owner>)
    requires s.Valid() && ue < MAX_NUM_UE && owners == UeTxOwners(s, ue)
    ensures Once(owners, o, InTx(s, ue + 1, o) && !InTx(s, ue, o))
  {
    NewWithUe(s, ue, o);
    TwoOnce(HasRarPdsch(s, ue), Rar(ue), HasMsgPdsch(s, ue), Msg(ue), o);
  }

  lemma SharedOwnersOnce(s: DlSlot, o: Owner)
    requires s.Valid()
    ensures Once(DlOwners(s, 0), o, InDl(s, 0, o)) && Once(TxOwners(s, 0), o, InTx(s, 0, o))
  {
    TwoOnce(s.isBroadcastPres && s.sib1Mode != 0, Sib1, s.page, Page, o);
    TwoOnce(s.sib1Mode != 0, Sib1, s.page, Page, o);
  }

  lemma OneMoreOwner(before: seq<Owner>, was: bool, more: seq<Owner>, now: bool, all: seq<Owner>, o: Owner)
    requires Once(before, o, was) && Once(more, o, now && !was) && all == before + more && (was ==> now)
    ensures Once(all, o, now)
  {
    OnceConcat(before, was, more, now && !was, o);
  }

  lemma InGrows(s: DlSlot, ue: nat, o: Owner)
    requires s.Valid() && ue < MAX_NUM_UE
    ensures InDl(s, ue, o) ==> InDl(s, ue + 1, o)
    ensures InTx(s, ue, o) ==> InTx(s, ue + 1, o)
  {
  }

  lemma {:induction false} OwnersOnceIn(s: DlSlot, n: nat, o: Owner, dl: seq<Owner>, tx: seq<Owner>)
    requires s.Valid() && n <= MAX_NUM_UE && dl == DlOwners(s, n) && tx == TxOwners(s, n)
    ensures Once(dl, o, InDl(s, n, o)) && Once(tx, o, InTx(s, n, o))
  {
    if n == 0 {
      SharedOwnersOnce(s, o);
    } else {
      var ue := n - 1;
      OwnersOnceIn(s, ue, o, DlOwners(s, ue), TxOwners(s, ue));
      UeDlOwnersOnce(s, ue, o, UeDlOwners(s, ue));
      UeTxOwnersOnce(s, ue, o, UeTxOwners(s, ue));
      InGrows(s, ue, o);
      OneMoreOwner(DlOwners(s, ue), InDl(s, ue, o), UeDlOwners(s, ue), InDl(s, n, o), dl, o);
      OneMoreOwner(TxOwners(s, ue), InTx(s, ue, o), UeTxOwners(s, ue), InTx(s, n, o), tx, o);
    }
  }

  /** Every allocation with a PDSCH has one place in the numbering of either walk, no other has one. */
  lemma OwnersOnce(s: DlSlot, n: nat, o: Owner)
    requires s.Valid() && n <= MAX_NUM_UE
    ensures multiset(DlOwners(s, n))[o] == if InDl(s, n, o) then 1 else 0
    ensures multiset(TxOwners(s, n))[o] == if InTx(s, n, o) then 1 else 0
  {
    OwnersOnceIn(s, n, o, DlOwners(s, n), TxOwners(s, n));
  }

  /** TX_DATA, when it is sent, describes each of them under its place. */
  lemma DescriptorsInPlace(s: DlSlot, owners: seq<Owner>, k: nat)
    requires s.Valid() && owners == TxOwners(s, |s.rar|) && k < |owners|
    ensures TxPdus(s) == [] || (|TxPdus(s)| == |owners| && TxPdus(s)[k] == (owners[k], k))
    ensures TxPdus(s) == [] <==> TxCount(s, |s.rar|) == 0
  {
    NumberedAt(owners, 0, k);
  }

  // ------------------------------------------------------------------ a PDCCH before its PDSCH

  /** Every PDSCH PDU whose allocation has a PDCCH configuration stands directly behind that PDU. */
  predicate PdcchFirst(pdus: seq<DlPdu>, has: Owner -> bool) {
    forall k :: 0 <= k < |pdus| && pdus[k].Pdsch? && has(pdus[k].owner) ==> k > 0 && pdus[k - 1] == Pdcch(pdus[k].owner)
  }

  lemma PdcchFirstConcat(a: seq<DlPdu>, b: seq<DlPdu>, has: Owner -> bool)
    requires PdcchFirst(a, has) && PdcchFirst(b, has)
    ensures PdcchFirst(a + b, has)
  {
    var all := a + b;
    forall k | 0 <= k < |all| && all[k].Pdsch? && has(all[k].owner)
      ensures k > 0 && all[k - 1] == Pdcch(all[k].owner)
    {
      if k >= |a| { assert b[k - |a|] == all[k]; }
    }
  }

  /** A PDCCH PDU, if there is one, then the PDSCH PDU of the same allocation. */
  lemma PairPdcchFirst(a: bool, b: bool, o: Owner, index: nat, has: Owner -> bool)
    requires has(o) ==> a
    ensures PdcchFirst(When(a, Pdcch(o)) + When(b, Pdsch(o, index)), has)
  {
  }

  lemma UePdcchFirst(s: DlSlot, ue: nat, index: nat, has: Owner -> bool)
    requires s.Valid() && ue < MAX_NUM_UE && forall o :: has(o) <==> HasPdcch(s, |s.rar|, o)
    ensures PdcchFirst(UePdus(s, ue, index), has)
  {
    var r, m, next := s.rar[ue], s.msg[ue], index + |RarOwners(s.rar[ue], ue)|;
    assert has(Rar(ue)) <==> HasPdcch(s, |s.rar|, Rar(ue));
    assert has(Msg(ue)) <==> HasPdcch(s, |s.rar|, Msg(ue));
    PairPdcchFirst(r.Some? && r.value.pdcchCfg, r.Some? && r.value.pdschCfg, Rar(ue), index, has);
    PairPdcchFirst(m.Some? && m.value.pdcchCfg, m.Some? && m.value.pdu && m.value.pdschCfg, Msg(ue), next, has);
    PdcchFirstConcat(RarPdus(r, ue, index), MsgPdus(m, ue, next), has);
  }

  lemma SharedPdcchFirst(s: DlSlot, has: Owner -> bool)
    requires s.Valid()
    ensures PdcchFirst(SharedPdus(s), has)
  {
    var sib1 := s.isBroadcastPres && s.sib1Mode != 0;
    var a := if s.isBroadcastPres && s.ssbMode != 0 then SsbPdus(s.numSsb) else [];
    var b := if sib1 then [Pdcch(Sib1), Pdsch(Sib1, 0)] else [];
    var c := if s.page then [Pdcch(Page), Pdsch(Page, if sib1 then 1 else 0)] else [];
    PdcchFirstConcat(a, b, has);
    PdcchFirstConcat(a + b, c, has);
  }

  lemma OneMorePdcchFirst(s: DlSlot, ue: nat, index: nat, before: seq<DlPdu>, pdus: seq<DlPdu>, has: Owner -> bool)
    requires s.Valid() && ue < MAX_NUM_UE && forall o :: has(o) <==> HasPdcch(s, |s.rar|, o)
    requires PdcchFirst(before, has) && pdus == before + UePdus(s, ue, index)
    ensures PdcchFirst(pdus, has)
  {
    UePdcchFirst(s, ue, index, has);
    PdcchFirstConcat(before, UePdus(s, ue, index), has);
  }

  lemma {:induction false} AllPdcchFirst(s: DlSlot, n: nat, has: Owner -> bool, pdus: seq<DlPdu>)
    requires s.Valid() && n <= MAX_NUM_UE && forall o :: has(o) <==> HasPdcch(s, |s.rar|, o)
    requires pdus == DlPdus(s, n)
    ensures PdcchFirst(pdus, has)
  {
    if n == 0 {
      SharedPdcchFirst(s, has);
    } else {
      AllPdcchFirst(s, n - 1, has, DlPdus(s, n - 1));
      OneMorePdcchFirst(s, n - 1, |DlOwners(s, n - 1)|, DlPdus(s, n - 1), pdus, has);
    }
  }

  /** Where an allocation has both, its PDCCH PDU stands directly before its PDSCH PDU. */
  lemma PdcchStandsBeforePdsch(s: DlSlot, pdus: seq<DlPdu>, k: nat)
    requires s.Valid() && pdus == DlPdus(s, |s.rar|) && k < |pdus| && pdus[k].Pdsch?
    ensures HasPdcch(s, |s.rar|, pdus[k].owner) ==> k > 0 && pdus[k - 1] == Pdcch(pdus[k].owner)
  {
    AllPdcchFirst(s, |s.rar|, o => HasPdcch(s, |s.rar|, o), pdus);
  }
}
