/**
 The uplink slot record and UL_TTI: the announced PDU count and the encoding walk.
 */
module UlSlot {
  import opened Common

  const SCH_DATATYPE_PUSCH: bv8 := 1
  const SCH_DATATYPE_PUSCH_UCI: bv8 := 2
  const SCH_DATATYPE_UCI: bv8 := 4
  const SCH_DATATYPE_SRS: bv8 := 8
  const SCH_DATATYPE_PRACH: bv8 := 16

  /** The C-RNTI of each UE's PUSCH, PUSCH with UCI and PUCCH; zero means not scheduled. */
  datatype UlSched = UlSched(dataType: bv8, pusch: seq<nat>, puschUci: seq<nat>, pucch: seq<nat>) {
    predicate Valid() {
      |pusch| == |puschUci| == |pucch| == MAX_NUM_UE
    }
  }

  function EmptyUlSlot(): (r: UlSched)
    ensures r.Valid()
  {
    UlSched(0, [0, 0, 0], [0, 0, 0], [0, 0, 0])
  }

  datatype UlPdu = Prach | Pusch(ue: nat) | Pucch(ue: nat)

  predicate Has(s: UlSched, flag: bv8) {
    s.dataType & flag != 0
  }

  function Bit(c: bool): nat {
    if c then 1 else 0
  }

  predicate HasPusch(s: UlSched, ue: nat)
    requires s.Valid() && ue < MAX_NUM_UE
  {
    Has(s, SCH_DATATYPE_PUSCH) && s.pusch[ue] != 0
  }

  predicate HasPuschUci(s: UlSched, ue: nat)
    requires s.Valid() && ue < MAX_NUM_UE
  {
    Has(s, SCH_DATATYPE_PUSCH_UCI) && s.puschUci[ue] != 0
  }

  predicate HasPucch(s: UlSched, ue: nat)
    requires s.Valid() && ue < MAX_NUM_UE
  {
    Has(s, SCH_DATATYPE_UCI) && s.pucch[ue] != 0
  }

  /** The count of PRACH and of the first n UEs. */
  function UeCount(s: UlSched, n: nat): nat
    requires s.Valid() && n <= MAX_NUM_UE
  {
    if n == 0 then Bit(Has(s, SCH_DATATYPE_PRACH))
    else UeCount(s, n - 1) + Bit(HasPusch(s, n - 1)) + Bit(HasPuschUci(s, n - 1)) + Bit(HasPucch(s, n - 1))
  }

  function UlCount(s: UlSched): nat
    requires s.Valid()
  {
    UeCount(s, |s.pusch|) + Bit(Has(s, SCH_DATATYPE_SRS))
  }

  /** What UL_TTI encodes for PRACH and the first n UEs. */
  function UePdus(s: UlSched, n: nat): seq<UlPdu>
    requires s.Valid() && n <= MAX_NUM_UE
  {
    if n == 0 then When(Has(s, SCH_DATATYPE_PRACH), Prach)
    else UePdus(s, n - 1) + PdusOfUe(s, n - 1)
  }

  function When(c: bool, p: UlPdu): seq<UlPdu> {
    if c then [p] else []
  }

  function PdusOfUe(s: UlSched, ue: nat): seq<UlPdu>
    requires s.Valid() && ue < MAX_NUM_UE
  {
    When(HasPusch(s, ue), Pusch(ue)) + When(HasPucch(s, ue), Pucch(ue))
  }

  function UlPdus(s: UlSched): seq<UlPdu>
    requires s.Valid()
  {
    UePdus(s, |s.pusch|)
  }

  // ------------------------------------------------------------------ the record in place

  class MacUlSlot {
    var dataType: bv8
    const schPuschInfo: array<nat>
    const schPuschUci: array<nat>
    const schPucchInfo: array<nat>

    ghost predicate Valid()
      reads this
    {
      && schPuschInfo.Length == schPuschUci.Length == schPucchInfo.Length == MAX_NUM_UE
      && schPuschInfo != schPuschUci && schPuschInfo != schPucchInfo && schPuschUci != schPucchInfo
    }

    ghost function State(): (s: UlSched)
      requires Valid()
      reads this, schPuschInfo, schPuschUci, schPucchInfo
      ensures s.Valid()
    {
      UlSched(dataType, schPuschInfo[..], schPuschUci[..], schPucchInfo[..])
    }

    constructor ()
      ensures Valid() && State() == EmptyUlSlot()
      ensures fresh(schPuschInfo) && fresh(schPuschUci) && fresh(schPucchInfo)
    {
      dataType := 0;
      schPuschInfo := new nat[MAX_NUM_UE](_ => 0);
      schPuschUci := new nat[MAX_NUM_UE](_ => 0);
      schPucchInfo := new nat[MAX_NUM_UE](_ => 0);
    }

    /** getnPdus */
    method GetnPdus() returns (pduCount: nat)
      requires Valid()
      ensures pduCount == UlCount(State())
    {
      pduCount := 0;
      if dataType & SCH_DATATYPE_PRACH != 0 {
        pduCount := pduCount + 1;
      }
      for ueIdx := 0 to schPuschInfo.Length
        invariant pduCount == UeCount(State(), ueIdx)
      {
        if dataType & SCH_DATATYPE_PUSCH != 0 && schPuschInfo[ueIdx] != 0 {
          pduCount := pduCount + 1;
        }
        if dataType & SCH_DATATYPE_PUSCH_UCI != 0 && schPuschUci[ueIdx] != 0 {
          pduCount := pduCount + 1;
        }
        if dataType & SCH_DATATYPE_UCI != 0 && schPucchInfo[ueIdx] != 0 {
          pduCount := pduCount + 1;
        }
      }
      if dataType & SCH_DATATYPE_SRS != 0 {
        pduCount := pduCount + 1;
      }
    }

    /** One UE of the encoding walk; `pduIdx` is the 8-bit index of the last PDU, 255 before the first. */
    method EncodeUe(pdus: array<UlPdu>, last: nat, ueIdx: nat, ghost s: UlSched)
      returns (pduIdx: nat, nUlsch: nat, nUlcch: nat)
      requires Valid() && ueIdx < MAX_NUM_UE && last < 256 && Next(last) + 2 <= pdus.Length && Next(last) + 2 <= 255
      requires s.Valid() && s.dataType == dataType
      requires s.pusch[ueIdx] == schPuschInfo[ueIdx] && s.pucch[ueIdx] == schPucchInfo[ueIdx]
      modifies pdus
      ensures pduIdx < 256 && Next(pduIdx) == Next(last) + nUlsch + nUlcch <= pdus.Length
      ensures pdus[..Next(pduIdx)] == old(pdus[..Next(last)]) + PdusOfUe(s, ueIdx)
      ensures nUlsch == Bit(HasPusch(s, ueIdx)) && nUlcch == Bit(HasPucch(s, ueIdx))
    {
      pduIdx, nUlsch, nUlcch := last, 0, 0;
      if dataType & SCH_DATATYPE_PUSCH != 0 && schPuschInfo[ueIdx] != 0 {
        pduIdx := PutNext(pdus, pduIdx, Pusch(ueIdx));
        nUlsch := 1;
      }
      if dataType & SCH_DATATYPE_UCI != 0 && schPucchInfo[ueIdx] != 0 {
        pduIdx := PutNext(pdus, pduIdx, Pucch(ueIdx));
        nUlcch := 1;
      }
    }

    /** The encoding walk of fillUlTtiReq into `pdus`. */
    method EncodeUlTti(pdus: array<UlPdu>) returns (pduIdx: nat, rachPresent: nat, nUlsch: nat, nUlcch: nat)
      requires Valid() && 1 + 2 * MAX_NUM_UE <= pdus.Length
      modifies pdus
      ensures pduIdx < 256 && Next(pduIdx) == |UlPdus(State())| == rachPresent + nUlsch + nUlcch <= pdus.Length
      ensures pdus[..Next(pduIdx)] == UlPdus(State())
      ensures rachPresent == Bit(Has(State(), SCH_DATATYPE_PRACH))
      ensures nUlsch == PuschCount(State(), schPuschInfo.Length) && nUlcch == PucchCount(State(), schPuschInfo.Length)
    {
      ghost var s := State();
      pduIdx, rachPresent, nUlsch, nUlcch := 255, 0, 0, 0;
      if dataType & SCH_DATATYPE_PRACH != 0 {
        pduIdx := PutNext(pdus, pduIdx, Prach);
        rachPresent := 1;
      }
      for ueIdx := 0 to schPuschInfo.Length
        invariant pduIdx < 256 && rachPresent == Bit(Has(s, SCH_DATATYPE_PRACH)) && State() == s
        invariant Next(pduIdx) == rachPresent + nUlsch + nUlcch <= 1 + 2 * ueIdx
        invariant nUlsch == PuschCount(s, ueIdx) && nUlcch == PucchCount(s, ueIdx)
        invariant pdus[..Next(pduIdx)] == UePdus(s, ueIdx)
      {
        var sch, cch;
        pduIdx, sch, cch := EncodeUe(pdus, pduIdx, ueIdx, s);
        nUlsch, nUlcch := nUlsch + sch, nUlcch + cch;
      }
    }

    method Clear()
      requires Valid()
      modifies this`dataType, schPuschInfo, schPuschUci, schPucchInfo
      ensures Valid() && State() == EmptyUlSlot()
    {
      dataType := 0;
      forall ueIdx | 0 <= ueIdx < MAX_NUM_UE { schPuschInfo[ueIdx] := 0; }
      forall ueIdx | 0 <= ueIdx < MAX_NUM_UE { schPuschUci[ueIdx] := 0; }
      forall ueIdx | 0 <= ueIdx < MAX_NUM_UE { schPucchInfo[ueIdx] := 0; }
    }
  }

  /** Increment of an 8-bit index. */
  function Next(idx: nat): nat {
    if idx == 255 then 0 else idx + 1
  }

  method PutNext(pdus: array<UlPdu>, last: nat, p: UlPdu) returns (pduIdx: nat)
    requires last < 256 && Next(last) < pdus.Length && Next(last) < 255
    modifies pdus
    ensures pduIdx == Next(last) && pdus[..Next(pduIdx)] == old(pdus[..Next(last)]) + [p]
  {
    pduIdx := Next(last);
    pdus[pduIdx] := p;
  }

  function PuschCount(s: UlSched, n: nat): nat
    requires s.Valid() && n <= MAX_NUM_UE
  {
    if n == 0 then 0 else PuschCount(s, n - 1) + Bit(HasPusch(s, n - 1))
  }

  function PucchCount(s: UlSched, n: nat): nat
    requires s.Valid() && n <= MAX_NUM_UE
  {
    if n == 0 then 0 else PucchCount(s, n - 1) + Bit(HasPucch(s, n - 1))
  }

  // ------------------------------------------------------------------ announced and encoded

  /** A data type is flagged and a UE's entry for it is in use. */
  predicate InUse(dataType: bv8, flag: bv8, crnti: nat) {
    dataType & flag != 0 && crnti != 0
  }

  predicate NoPuschUci(s: UlSched, n: nat)
    requires s.Valid() && n <= MAX_NUM_UE
  {
    forall ue :: 0 <= ue < n ==> !InUse(s.dataType, SCH_DATATYPE_PUSCH_UCI, s.puschUci[ue])
  }

  lemma {:induction false} UeCountCoversEncoding(s: UlSched, n: nat)
    requires s.Valid() && n <= MAX_NUM_UE
    ensures |UePdus(s, n)| <= UeCount(s, n)
    ensures |UePdus(s, n)| == UeCount(s, n) <==> NoPuschUci(s, n)
  {
    if n > 0 {
      UeCountCoversEncoding(s, n - 1);
      assert NoPuschUci(s, n) <==> NoPuschUci(s, n - 1) && !HasPuschUci(s, n - 1);
    }
  }

  /** UL_TTI never announces fewer PDUs than it encodes, and exactly as many when and only when
      no PUSCH with UCI is scheduled and no SRS is flagged. */
  lemma UlCountCoversEncoding(s: UlSched)
    requires s.Valid()
    ensures |UlPdus(s)| <= UlCount(s)
    ensures |UlPdus(s)| == UlCount(s) <==> NoPuschUci(s, |s.pusch|) && !Has(s, SCH_DATATYPE_SRS)
  {
    UeCountCoversEncoding(s, |s.pusch|);
  }

  function Times(pdus: seq<UlPdu>, p: UlPdu): nat {
    if pdus == [] then 0 else Times(pdus[..|pdus| - 1], p) + Bit(pdus[|pdus| - 1] == p)
  }

  lemma {:induction false} TimesIsMultiplicity(pdus: seq<UlPdu>, p: UlPdu)
    ensures Times(pdus, p) == multiset(pdus)[p]
  {
    if pdus != [] {
      TimesIsMultiplicity(pdus[..|pdus| - 1], p);
      assert pdus == pdus[..|pdus| - 1] + [pdus[|pdus| - 1]];
    }
  }

  lemma {:induction false} TimesConcat(a: seq<UlPdu>, b: seq<UlPdu>, p: UlPdu)
    ensures Times(a + b, p) == Times(a, p) + Times(b, p)
  {
    if b == [] {
      assert a + b == a;
    } else {
      TimesConcat(a, b[..|b| - 1], p);
      assert (a + b)[..|a + b| - 1] == a + b[..|b| - 1];
    }
  }

  lemma TimesWhen(c: bool, x: UlPdu, p: UlPdu)
    ensures Times(When(c, x), p) == Bit(c && x == p)
  {
    assert [x][..0] == [];
  }

  /** p occurs once if scheduled, and not at all otherwise. */
  predicate Once(pdus: seq<UlPdu>, scheduled: bool, p: UlPdu) {
    Times(pdus, p) == Bit(scheduled)
  }

  predicate OfUe(s: UlSched, ue: nat, p: UlPdu)
    requires s.Valid() && ue < MAX_NUM_UE
  {
    (p == Pusch(ue) && HasPusch(s, ue)) || (p == Pucch(ue) && HasPucch(s, ue))
  }

  predicate Scheduled(s: UlSched, n: nat, p: UlPdu)
    requires s.Valid() && n <= MAX_NUM_UE
  {
    match p
    case Prach => s.dataType & SCH_DATATYPE_PRACH != 0
    case Pusch(ue) => ue < n && InUse(s.dataType, SCH_DATATYPE_PUSCH, s.pusch[ue])
    case Pucch(ue) => ue < n && InUse(s.dataType, SCH_DATATYPE_UCI, s.pucch[ue])
  }

  lemma OfUeExactlyOnce(s: UlSched, ue: nat, p: UlPdu)
    requires s.Valid() && ue < MAX_NUM_UE
    ensures Once(PdusOfUe(s, ue), OfUe(s, ue, p), p)
  {
    TimesConcat(When(HasPusch(s, ue), Pusch(ue)), When(HasPucch(s, ue), Pucch(ue)), p);
    TimesWhen(HasPusch(s, ue), Pusch(ue), p);
    TimesWhen(HasPucch(s, ue), Pucch(ue), p);
  }

  lemma OnceConcat(a: seq<UlPdu>, inA: bool, b: seq<UlPdu>, inB: bool, all: seq<UlPdu>, inAll: bool, p: UlPdu)
    requires Once(a, inA, p) && Once(b, inB, p) && !(inA && inB) && all == a + b && inAll == (inA || inB)
    ensures Once(all, inAll, p)
  {
    TimesConcat(a, b, p);
  }

  lemma ScheduledStep(s: UlSched, n: nat, p: UlPdu)
    requires s.Valid() && 0 < n <= MAX_NUM_UE
    ensures Scheduled(s, n, p) == (Scheduled(s, n - 1, p) || OfUe(s, n - 1, p))
    ensures !(Scheduled(s, n - 1, p) && OfUe(s, n - 1, p))
  {
  }

  /** Each scheduled PRACH, PUSCH and PUCCH is encoded exactly once, and nothing else is. */
  lemma EncodedExactlyOnce(s: UlSched, n: nat, p: UlPdu)
    requires s.Valid() && n <= MAX_NUM_UE
    ensures multiset(UePdus(s, n))[p] == Bit(Scheduled(s, n, p))
  {
    TimesIsMultiplicity(UePdus(s, n), p);
    EncodedOnce(s, n, p, UePdus(s, n));
  }

  lemma BeforeTheUes(s: UlSched, p: UlPdu, pdus: seq<UlPdu>)
    requires s.Valid() && pdus == When(Has(s, SCH_DATATYPE_PRACH), Prach)
    ensures Once(pdus, Scheduled(s, 0, p), p)
  {
    TimesWhen(Has(s, SCH_DATATYPE_PRACH), Prach, p);
  }

  lemma OneMoreUe(s: UlSched, ue: nat, p: UlPdu, before: seq<UlPdu>, pdus: seq<UlPdu>)
    requires s.Valid() && ue < MAX_NUM_UE && Once(before, Scheduled(s, ue, p), p)
    requires pdus == before + PdusOfUe(s, ue)
    ensures Once(pdus, Scheduled(s, ue + 1, p), p)
  {
    OfUeExactlyOnce(s, ue, p);
    ScheduledStep(s, ue + 1, p);
    OnceConcat(before, Scheduled(s, ue, p), PdusOfUe(s, ue), OfUe(s, ue, p), pdus, Scheduled(s, ue + 1, p), p);
  }

  lemma {:induction false} EncodedOnce(s: UlSched, n: nat, p: UlPdu, pdus: seq<UlPdu>)
    requires s.Valid() && n <= MAX_NUM_UE && pdus == UePdus(s, n)
    ensures Once(pdus, Scheduled(s, n, p), p)
  {
    if n == 0 {
      BeforeTheUes(s, p, pdus);
    } else {
      EncodedOnce(s, n - 1, p, UePdus(s, n - 1));
      OneMoreUe(s, n - 1, p, UePdus(s, n - 1), pdus);
    }
  }

  /** How many PUSCH PDUs and how many PUCCH PDUs a list holds. */
  function Puschs(pdus: seq<UlPdu>): nat {
    if pdus == [] then 0 else Puschs(pdus[..|pdus| - 1]) + Bit(pdus[|pdus| - 1].Pusch?)
  }

  function Pucchs(pdus: seq<UlPdu>): nat {
    if pdus == [] then 0 else Pucchs(pdus[..|pdus| - 1]) + Bit(pdus[|pdus| - 1].Pucch?)
  }

  lemma {:induction false} KindsConcat(a: seq<UlPdu>, b: seq<UlPdu>)
    ensures Puschs(a + b) == Puschs(a) + Puschs(b) && Pucchs(a + b) == Pucchs(a) + Pucchs(b)
  {
    if b == [] {
      assert a + b == a;
    } else {
      KindsConcat(a, b[..|b| - 1]);
      assert (a + b)[..|a + b| - 1] == a + b[..|b| - 1];
    }
  }

  lemma KindsWhen(c: bool, p: UlPdu)
    ensures Puschs(When(c, p)) == Bit(c && p.Pusch?) && Pucchs(When(c, p)) == Bit(c && p.Pucch?)
  {
    assert [p][..0] == [];
  }

  lemma KindsOfUe(s: UlSched, ue: nat, pdus: seq<UlPdu>)
    requires s.Valid() && ue < MAX_NUM_UE && pdus == PdusOfUe(s, ue)
    ensures Puschs(pdus) == Bit(HasPusch(s, ue)) && Pucchs(pdus) == Bit(HasPucch(s, ue))
  {
    KindsConcat(When(HasPusch(s, ue), Pusch(ue)), When(HasPucch(s, ue), Pucch(ue)));
    KindsWhen(HasPusch(s, ue), Pusch(ue));
    KindsWhen(HasPucch(s, ue), Pucch(ue));
  }

  /** The counters the encoding walk reports are the numbers of PUSCH and PUCCH PDUs it encoded. */
  lemma {:induction false} CountersCountTheirKind(s: UlSched, n: nat, pdus: seq<UlPdu>)
    requires s.Valid() && n <= MAX_NUM_UE && pdus == UePdus(s, n)
    ensures Puschs(pdus) == PuschCount(s, n) && Pucchs(pdus) == PucchCount(s, n)
  {
    if n == 0 {
      KindsWhen(Has(s, SCH_DATATYPE_PRACH), Prach);
    } else {
      CountersCountTheirKind(s, n - 1, UePdus(s, n - 1));
      KindsConcat(UePdus(s, n - 1), PdusOfUe(s, n - 1));
      KindsOfUe(s, n - 1, PdusOfUe(s, n - 1));
    }
  }

  /** A scheduled SRS is announced, and nothing is encoded. */
  lemma SrsAnnouncedNotEncoded(s: UlSched)
    requires s == EmptyUlSlot().(dataType := SCH_DATATYPE_SRS)
    ensures UlCount(s) == 1 && UlPdus(s) == []
  {
    assert UeCount(s, 0) == UeCount(s, 1) == UeCount(s, 2) == 0;
    UlCountCoversEncoding(s);
    assert UePdus(s, 0) == UePdus(s, 1) == UePdus(s, 2) == [];
  }

  /** So is a PUSCH with UCI of UE 0. */
  lemma PuschUciAnnouncedNotEncoded(s: UlSched)
    requires s == EmptyUlSlot().(dataType := SCH_DATATYPE_PUSCH_UCI, puschUci := [100, 0, 0])
    ensures UlCount(s) == 1 && UlPdus(s) == []
  {
    assert UeCount(s, 0) == 0 && UeCount(s, 1) == UeCount(s, 2) == 1;
    assert UePdus(s, 0) == UePdus(s, 1) == UePdus(s, 2) == [];
  }
}
