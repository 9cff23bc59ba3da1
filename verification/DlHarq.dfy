/**
 The downlink HARQ store of the UEs of a cell: sixteen process entries per UE,
 addressed by process id when transport blocks are scheduled, fetched or released,
 and by (sfn, slot, size) when the multiplexed PDU arrives.
 */
module DlHarq {
  import opened Common
  import opened BitString

  const MAX_NUM_HARQ_PROC := 16
  const MAX_NUM_TB_PER_UE := 2

  datatype SlotTime = SlotTime(sfn: nat, slot: nat)

  /** `data` is the TB buffer; None is a null pointer. */
  datatype TbInfo = TbInfo(txTime: SlotTime, tbSize: nat, data: Option<seq<byte>>)

  /** `tbs` are the first numTb entries of the tbInfo array. */
  datatype ProcCb = ProcCb(procId: nat, tbs: seq<TbInfo>)

  type HarqEnt = seq<ProcCb>

  /** `raProc` is the MSG4 process of the RA block the UE points at, if it points at one;
      `ownsRa` tells whether that block still carries the UE's C-RNTI. */
  datatype UeCb = UeCb(harqProcCb: HarqEnt, raProc: Option<nat>, ownsRa: bool)

  // ------------------------------------------------------------- specification

  function NewTbs(time: SlotTime, sizes: seq<nat>): (r: seq<TbInfo>)
    ensures |r| == |sizes|
  {
    seq(|sizes|, k requires 0 <= k < |sizes| => TbInfo(time, sizes[k], None))
  }

  /** Schedule a new transmission: an entry already carrying the process id is emptied first. */
  function Add(ent: HarqEnt, time: SlotTime, p: nat, sizes: seq<nat>): HarqEnt
    requires p < |ent|
  {
    var kept := if ent[p].procId == p then [] else ent[p].tbs;
    ent[p := ProcCb(p, kept + NewTbs(time, sizes))]
  }

  predicate KeyMatches(tb: TbInfo, time: SlotTime, size: nat) {
    tb.txTime == time && tb.tbSize == size
  }

  /** The first TB of a list with a key, from index k on. */
  function FindKey(tbs: seq<TbInfo>, time: SlotTime, size: nat, k: nat): (r: nat)
    requires k <= |tbs|
    ensures k <= r <= |tbs| && (r < |tbs| ==> KeyMatches(tbs[r], time, size))
    ensures forall j :: k <= j < r ==> !KeyMatches(tbs[j], time, size)
    decreases |tbs| - k
  {
    if k == |tbs| || KeyMatches(tbs[k], time, size) then k else FindKey(tbs, time, size, k + 1)
  }

  /** Does the process hold a TB with the key? */
  predicate HoldsKey(proc: ProcCb, time: SlotTime, size: nat) {
    FindKey(proc.tbs, time, size, 0) < |proc.tbs|
  }

  /** The first process, from i on, that holds the key; |ent| when none does. */
  function FindProc(ent: HarqEnt, time: SlotTime, size: nat, i: nat): (r: nat)
    requires i <= |ent|
    ensures i <= r <= |ent| && (r < |ent| ==> HoldsKey(ent[r], time, size))
    ensures forall j :: i <= j < r ==> !HoldsKey(ent[j], time, size)
    decreases |ent| - i
  {
    if i == |ent| || HoldsKey(ent[i], time, size) then i else FindProc(ent, time, size, i + 1)
  }

  function StoreIn(proc: ProcCb, time: SlotTime, size: nat, data: seq<byte>): ProcCb
    requires HoldsKey(proc, time, size)
  {
    var k := FindKey(proc.tbs, time, size, 0);
    proc.(tbs := proc.tbs[k := proc.tbs[k].(data := Some(data))])
  }

  /** Keep the multiplexed PDU with the first TB, in process order, that has its time and size. */
  function Store(ent: HarqEnt, time: SlotTime, size: nat, data: seq<byte>): HarqEnt {
    var i := FindProc(ent, time, size, 0);
    if i < |ent| then ent[i := StoreIn(ent[i], time, size, data)] else ent
  }

  /** The first TB of a given size, from index k on. */
  function FindSize(tbs: seq<TbInfo>, size: nat, k: nat): (r: nat)
    requires k <= |tbs|
    ensures k <= r <= |tbs| && (r < |tbs| ==> tbs[r].tbSize == size)
    ensures forall j :: k <= j < r ==> tbs[j].tbSize != size
    decreases |tbs| - k
  {
    if k == |tbs| || tbs[k].tbSize == size then k else FindSize(tbs, size, k + 1)
  }

  /** The TB a retransmission of `size` octets on process p uses. */
  function Fetched(ent: HarqEnt, p: nat, size: nat): Option<seq<byte>>
    requires p < |ent|
  {
    var k := FindSize(ent[p].tbs, size, 0);
    if ent[p].procId == p && k < |ent[p].tbs| then ent[p].tbs[k].data else None
  }

  /** A fetch moves the TB to the time of the retransmission. */
  function Fetch(ent: HarqEnt, time: SlotTime, p: nat, size: nat): HarqEnt
    requires p < |ent|
  {
    var k := FindSize(ent[p].tbs, size, 0);
    if ent[p].procId == p && k < |ent[p].tbs|
    then ent[p := ent[p].(tbs := ent[p].tbs[k := ent[p].tbs[k].(txTime := time)])]
    else ent
  }

  function Release(ent: HarqEnt, p: nat): HarqEnt
    requires p < |ent|
  {
    if ent[p].procId == p then ent[p := ProcCb(MAX_NUM_HARQ_PROC, [])] else ent
  }

  /** The entity of a UE context just created. */
  function NewEnt(): HarqEnt {
    seq(MAX_NUM_HARQ_PROC, _ => ProcCb(MAX_NUM_HARQ_PROC, []))
  }

  /** Entry i belongs to process i or is empty, and never exceeds the codeword limit. */
  predicate Inv(ent: HarqEnt) {
    && |ent| == MAX_NUM_HARQ_PROC
    && forall i :: 0 <= i < |ent| ==> |ent[i].tbs| <= MAX_NUM_TB_PER_UE && (ent[i].procId == i || ent[i].tbs == [])
  }

  /** One entry of a release message. A release of the MSG4 process clears the RA block instead;
      the UE keeps pointing at the cleared block, which reads as process 0. */
  function ReleaseOne(ue: UeCb, p: nat): UeCb
    requires p < |ue.harqProcCb|
  {
    if ue.raProc == Some(p) then (if ue.ownsRa then ue.(raProc := Some(0), ownsRa := false) else ue)
    else ue.(harqProcCb := Release(ue.harqProcCb, p))
  }

  /** A whole release message, applied to the UE contexts of the cell. */
  function ReleaseAll(ues: seq<UeCb>, hqInfo: seq<(nat, nat)>): (r: seq<UeCb>)
    requires ReleaseListOk(ues, hqInfo)
    ensures |r| == |ues| && forall u :: 0 <= u < |ues| ==> |r[u].harqProcCb| == |ues[u].harqProcCb|
    decreases |hqInfo|
  {
    if hqInfo == [] then ues
    else
      var done := ReleaseAll(ues, hqInfo[..|hqInfo| - 1]);
      var (u, p) := hqInfo[|hqInfo| - 1];
      done[u := ReleaseOne(done[u], p)]
  }

  predicate ReleaseListOk(ues: seq<UeCb>, hqInfo: seq<(nat, nat)>) {
    forall k :: 0 <= k < |hqInfo| ==> hqInfo[k].0 < |ues| && hqInfo[k].1 < |ues[hqInfo[k].0].harqProcCb|
  }

  // -------------------------------------------------------------------- the cell

  class MacCellCb {
    const ueCb: array<UeCb>

    constructor (numUe: nat)
      ensures fresh(ueCb) && ueCb.Length == numUe
      ensures forall u :: 0 <= u < numUe ==> ueCb[u].harqProcCb == NewEnt() && ueCb[u].raProc == None
    {
      ueCb := new UeCb[numUe](_ => UeCb(NewEnt(), None, false));
    }

    ghost predicate Valid()
      reads ueCb
    {
      forall u :: 0 <= u < ueCb.Length ==> Inv(ueCb[u].harqProcCb)
    }

    /** What an operation on UE u leaves of the other contexts. */
    twostate predicate OnlyEntOf(u: nat)
      requires u < ueCb.Length
      reads ueCb
    {
      && ueCb[u] == old(ueCb[u]).(harqProcCb := ueCb[u].harqProcCb)
      && forall v :: 0 <= v < ueCb.Length && v != u ==> ueCb[v] == old(ueCb[v])
    }

    method AddDlHqProcInUe(dlMsgTime: SlotTime, u: nat, hqProcId: nat, sizes: seq<nat>)
      requires Valid() && u < ueCb.Length && hqProcId < MAX_NUM_HARQ_PROC && |sizes| <= MAX_NUM_TB_PER_UE
      modifies ueCb
      ensures OnlyEntOf(u) && ueCb[u].harqProcCb == Add(old(ueCb[u].harqProcCb), dlMsgTime, hqProcId, sizes)
      ensures Valid()
    {
      var hqProcCb := ueCb[u].harqProcCb[hqProcId];
      if hqProcCb.procId == hqProcId {
        hqProcCb := ProcCb(0, []);
      }
      ghost var kept := hqProcCb.tbs;
      hqProcCb := hqProcCb.(procId := hqProcId);
      var cwIdx := 0;
      while cwIdx < |sizes|
        invariant cwIdx <= |sizes| && hqProcCb.procId == hqProcId
        invariant hqProcCb.tbs == kept + NewTbs(dlMsgTime, sizes[..cwIdx])
      {
        hqProcCb := hqProcCb.(tbs := hqProcCb.tbs + [TbInfo(dlMsgTime, sizes[cwIdx], None)]);
        assert NewTbs(dlMsgTime, sizes[..cwIdx + 1])
          == NewTbs(dlMsgTime, sizes[..cwIdx]) + [TbInfo(dlMsgTime, sizes[cwIdx], None)];
        cwIdx := cwIdx + 1;
      }
      assert sizes[..cwIdx] == sizes;
      ueCb[u] := ueCb[u].(harqProcCb := ueCb[u].harqProcCb[hqProcId := hqProcCb]);
    }

    /** `txPdu` must hold the `tbSize` octets that are kept. */
    method UpdateNewTbInDlHqProcCb(slotInfo: SlotTime, u: nat, tbSize: nat, txPdu: seq<byte>) returns (ok: bool)
      requires Valid() && u < ueCb.Length && tbSize <= |txPdu|
      modifies ueCb
      ensures OnlyEntOf(u)
      ensures ueCb[u].harqProcCb == Store(old(ueCb[u].harqProcCb), slotInfo, tbSize, txPdu[..tbSize])
      ensures ok <==> exists i :: 0 <= i < MAX_NUM_HARQ_PROC && HoldsKey(old(ueCb[u].harqProcCb)[i], slotInfo, tbSize)
      ensures Valid()
    {
      var ent := ueCb[u].harqProcCb;
      var hqProcIdx := 0;
      while hqProcIdx < MAX_NUM_HARQ_PROC
        invariant 0 <= hqProcIdx <= MAX_NUM_HARQ_PROC
        invariant FindProc(ent, slotInfo, tbSize, 0) == FindProc(ent, slotInfo, tbSize, hqProcIdx)
        invariant ueCb[..] == old(ueCb[..])
      {
        var tbIdx := 0;
        while tbIdx < |ent[hqProcIdx].tbs|
          invariant tbIdx <= |ent[hqProcIdx].tbs|
          invariant FindKey(ent[hqProcIdx].tbs, slotInfo, tbSize, 0)
            == FindKey(ent[hqProcIdx].tbs, slotInfo, tbSize, tbIdx)
          invariant ueCb[..] == old(ueCb[..])
        {
          var tb := ent[hqProcIdx].tbs[tbIdx];
          if KeyMatches(tb, slotInfo, tbSize) {
            assert HoldsKey(ent[hqProcIdx], slotInfo, tbSize);
            var tbs := ent[hqProcIdx].tbs[tbIdx := tb.(data := Some(txPdu[..tbSize]))];
            ueCb[u] := ueCb[u].(harqProcCb := ent[hqProcIdx := ent[hqProcIdx].(tbs := tbs)]);
            return true;
          }
          tbIdx := tbIdx + 1;
        }
        hqProcIdx := hqProcIdx + 1;
      }
      return false;
    }

    method FetchTbFromDlHarqProc(slotInfo: SlotTime, u: nat, hqProcId: nat, tbSize: nat) returns (tb: Option<seq<byte>>)
      requires Valid() && u < ueCb.Length && hqProcId < MAX_NUM_HARQ_PROC
      modifies ueCb
      ensures tb == Fetched(old(ueCb[u].harqProcCb), hqProcId, tbSize)
      ensures OnlyEntOf(u) && ueCb[u].harqProcCb == Fetch(old(ueCb[u].harqProcCb), slotInfo, hqProcId, tbSize)
      ensures Valid()
    {
      var hqProcCb := ueCb[u].harqProcCb[hqProcId];
      if hqProcCb.procId == hqProcId {
        var tbIdx := 0;
        while tbIdx < |hqProcCb.tbs|
          invariant tbIdx <= |hqProcCb.tbs|
          invariant FindSize(hqProcCb.tbs, tbSize, 0) == FindSize(hqProcCb.tbs, tbSize, tbIdx)
          invariant ueCb[..] == old(ueCb[..])
        {
          if hqProcCb.tbs[tbIdx].tbSize == tbSize {
            tb := hqProcCb.tbs[tbIdx].data;
            hqProcCb := hqProcCb.(tbs := hqProcCb.tbs[tbIdx := hqProcCb.tbs[tbIdx].(txTime := slotInfo)]);
            ueCb[u] := ueCb[u].(harqProcCb := ueCb[u].harqProcCb[hqProcId := hqProcCb]);
            return;
          }
          tbIdx := tbIdx + 1;
        }
      }
      return None;
    }

    /** One entry of a release message. */
    method ReleaseProc(u: nat, hqProcId: nat)
      requires Valid() && u < ueCb.Length && hqProcId < MAX_NUM_HARQ_PROC
      modifies ueCb
      ensures Valid() && ueCb[..] == old(ueCb[..])[u := ReleaseOne(old(ueCb[u]), hqProcId)]
    {
      if ueCb[u].raProc == Some(hqProcId) {
        if ueCb[u].ownsRa {
          ueCb[u] := ueCb[u].(raProc := Some(0), ownsRa := false);
        }
      } else if ueCb[u].harqProcCb[hqProcId].procId == hqProcId {
        ueCb[u] := ueCb[u].(harqProcCb := ueCb[u].harqProcCb[hqProcId := ProcCb(MAX_NUM_HARQ_PROC, [])]);
      }
    }

    /** `hqInfo` lists (UE index, process id). */
    method MacSchReleaseDlHarqProc(hqInfo: seq<(nat, nat)>)
      requires Valid() && ReleaseListOk(ueCb[..], hqInfo)
      modifies ueCb
      ensures ueCb[..] == ReleaseAll(old(ueCb[..]), hqInfo)
      ensures Valid()
    {
      ghost var ues := ueCb[..];
      var hqInfoIdx := 0;
      while hqInfoIdx < |hqInfo|
        invariant hqInfoIdx <= |hqInfo| && Valid()
        invariant ueCb[..] == ReleaseAll(ues, hqInfo[..hqInfoIdx])
      {
        assert hqInfo[..hqInfoIdx + 1][..hqInfoIdx] == hqInfo[..hqInfoIdx];
        var (u, hqProcId) := hqInfo[hqInfoIdx];
        ReleaseProc(u, hqProcId);
        hqInfoIdx := hqInfoIdx + 1;
      }
      assert hqInfo[..hqInfoIdx] == hqInfo;
    }
  }
}
