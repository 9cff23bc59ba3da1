/**
 The HARQ store over whole runs: what a retransmission fetches, what a release
 frees, and what every operation keeps.
 */
module DlHarqRuns {
  import opened Common
  import opened BitString
  import opened DlHarq

  datatype Op =
    | OpAdd(time: SlotTime, p: nat, sizes: seq<nat>)
    | OpStore(time: SlotTime, size: nat, data: seq<byte>)
    | OpFetch(time: SlotTime, p: nat, size: nat)
    | OpRelease(p: nat)
  {
    predicate Valid() {
      match this
      case OpAdd(_, p, sizes) => p < MAX_NUM_HARQ_PROC && |sizes| <= MAX_NUM_TB_PER_UE
      case OpStore(_, size, data) => |data| == size
      case OpFetch(_, p, _) => p < MAX_NUM_HARQ_PROC
      case OpRelease(p) => p < MAX_NUM_HARQ_PROC
    }
  }

  function Apply(ent: HarqEnt, op: Op): HarqEnt
    requires |ent| == MAX_NUM_HARQ_PROC && op.Valid()
  {
    match op
    case OpAdd(time, p, sizes) => Add(ent, time, p, sizes)
    case OpStore(time, size, data) => Store(ent, time, size, data)
    case OpFetch(time, p, size) => Fetch(ent, time, p, size)
    case OpRelease(p) => Release(ent, p)
  }

  predicate AllValid(ops: seq<Op>) {
    forall k :: 0 <= k < |ops| ==> ops[k].Valid()
  }

  function Run(ent: HarqEnt, ops: seq<Op>): (r: HarqEnt)
    requires |ent| == MAX_NUM_HARQ_PROC && AllValid(ops)
    ensures |r| == MAX_NUM_HARQ_PROC
    decreases |ops|
  {
    if ops == [] then ent else Apply(Run(ent, ops[..|ops| - 1]), ops[|ops| - 1])
  }

  /** Every run keeps each entry empty or its own process's, with at most two TBs. */
  lemma {:induction false} EveryRunKeepsInv(ent: HarqEnt, ops: seq<Op>)
    requires Inv(ent) && AllValid(ops)
    ensures Inv(NewEnt()) && Inv(Run(ent, ops))
    decreases |ops|
  {
    if ops != [] {
      EveryRunKeepsInv(ent, ops[..|ops| - 1]);
    }
  }

  // ------------------------------------------------- one transport block over a run

  lemma {:induction false} FindSizeByBuffers(a: seq<TbInfo>, b: seq<TbInfo>, size: nat, k: nat)
    requires |a| == |b| && k <= |a|
    requires forall j :: 0 <= j < |a| ==> a[j].tbSize == b[j].tbSize
    ensures FindSize(a, size, k) == FindSize(b, size, k)
    decreases |a| - k
  {
    if k < |a| && a[k].tbSize != size {
      FindSizeByBuffers(a, b, size, k + 1);
    }
  }

  /** In a freshly scheduled process, the TB a key finds is the TB a size finds. */
  lemma {:induction false} NewKeyIsFirstOfSize(time: SlotTime, sizes: seq<nat>, size: nat, k: nat)
    requires k <= |sizes|
    ensures FindKey(NewTbs(time, sizes), time, size, k) == FindSize(NewTbs(time, sizes), size, k)
    ensures size in sizes[k..] ==> FindSize(NewTbs(time, sizes), size, k) < |sizes|
    decreases |sizes| - k
  {
    if k < |sizes| && sizes[k] != size {
      NewKeyIsFirstOfSize(time, sizes, size, k + 1);
    }
  }

  /** Storing under a freshly scheduled process's key reaches it unless a lower process holds the same key. */
  lemma StoreReachesUnlessLowerHolds(ent: HarqEnt, time: SlotTime, p: nat, sizes: seq<nat>, size: nat, data: seq<byte>)
    requires |ent| == MAX_NUM_HARQ_PROC && p < MAX_NUM_HARQ_PROC && size in sizes
    requires ent[p] == ProcCb(p, NewTbs(time, sizes))
    ensures Fetched(Store(ent, time, size, data), p, size) == Some(data)
      <==> !exists q :: 0 <= q < p && HoldsKey(ent[q], time, size)
    ensures (exists q :: 0 <= q < p && HoldsKey(ent[q], time, size)) ==>
      Fetched(Store(ent, time, size, data), p, size) == None
  {
    NewKeyIsFirstOfSize(time, sizes, size, 0);
    assert sizes[0..] == sizes && HoldsKey(ent[p], time, size);
    var k := FindKey(ent[p].tbs, time, size, 0);
    var after := Store(ent, time, size, data);
    if forall q :: 0 <= q < p ==> !HoldsKey(ent[q], time, size) {
      assert FindProc(ent, time, size, 0) == p;
      FindSizeByBuffers(after[p].tbs, ent[p].tbs, size, 0);
      assert after[p].tbs[k].data == Some(data);
    } else {
      assert after[p] == ent[p];
      assert ent[p].tbs[k].data == None;
    }
  }

  /** The op neither schedules process p anew nor releases it. */
  predicate Keeps(op: Op, p: nat) {
    !(op.OpAdd? && op.p == p) && !(op.OpRelease? && op.p == p)
  }

  predicate AllKeep(ops: seq<Op>, p: nat) {
    forall k :: 0 <= k < |ops| ==> Keeps(ops[k], p)
  }

  /** The slot the block of this size on process p is due in: that of its last retransmission,
      or `time`, for which it was scheduled. */
  function KeyTime(time: SlotTime, ops: seq<Op>, p: nat, size: nat): SlotTime {
    if ops == [] then time
    else
      var last := ops[|ops| - 1];
      if last.OpFetch? && last.p == p && last.size == size then last.time
      else KeyTime(time, ops[..|ops| - 1], p, size)
  }

  predicate LowerHolds(ent: HarqEnt, p: nat, time: SlotTime, size: nat)
    requires p < |ent|
  {
    exists q :: 0 <= q < p && HoldsKey(ent[q], time, size)
  }

  /** A store whose key is that of p's block, `keyTime` and `size`, when no lower process holds it. */
  predicate LandsOn(ent: HarqEnt, op: Op, p: nat, keyTime: SlotTime, size: nat)
    requires p < |ent|
  {
    op.OpStore? && op.time == keyTime && op.size == size && !LowerHolds(ent, p, keyTime, size)
  }

  /** Op j of a run that starts with p scheduled for `time` lands on p's block. */
  predicate LandsAt(start: HarqEnt, time: SlotTime, ops: seq<Op>, j: int, p: nat, size: nat)
    requires |start| == MAX_NUM_HARQ_PROC && p < |start| && AllValid(ops)
  {
    0 <= j < |ops| && LandsOn(Run(start, ops[..j]), ops[j], p, KeyTime(time, ops[..j], p, size), size)
  }

  predicate LandsLast(start: HarqEnt, time: SlotTime, ops: seq<Op>, j: int, p: nat, size: nat)
    requires |start| == MAX_NUM_HARQ_PROC && p < |start| && AllValid(ops)
  {
    && LandsAt(start, time, ops, j, p, size)
    && forall k :: j < k < |ops| ==> !LandsAt(start, time, ops, k, p, size)
  }

  /** What the last store that landed on p's block carried. */
  function LastLanded(start: HarqEnt, time: SlotTime, ops: seq<Op>, p: nat, size: nat): Option<seq<byte>>
    requires |start| == MAX_NUM_HARQ_PROC && p < |start| && AllValid(ops)
    decreases |ops|
  {
    if ops == [] then None
    else
      var init := ops[..|ops| - 1];
      if LandsOn(Run(start, init), ops[|ops| - 1], p, KeyTime(time, init, p, size), size) then Some(ops[|ops| - 1].data)
      else LastLanded(start, time, init, p, size)
  }

  lemma LandsSame(start: HarqEnt, time: SlotTime, ops: seq<Op>, j: int, p: nat, size: nat)
    requires |start| == MAX_NUM_HARQ_PROC && p < |start| && AllValid(ops) && 0 <= j < |ops| - 1
    ensures LandsAt(start, time, ops, j, p, size) == LandsAt(start, time, ops[..|ops| - 1], j, p, size)
  {
    assert ops[..|ops| - 1][..j] == ops[..j];
  }

  lemma LandsLastSnoc(start: HarqEnt, time: SlotTime, ops: seq<Op>, j: int, p: nat, size: nat)
    requires |start| == MAX_NUM_HARQ_PROC && p < |start| && AllValid(ops) && ops != []
    ensures LandsLast(start, time, ops, j, p, size) <==>
      if LandsAt(start, time, ops, |ops| - 1, p, size) then j == |ops| - 1
      else LandsLast(start, time, ops[..|ops| - 1], j, p, size)
  {
    var n, init := |ops| - 1, ops[..|ops| - 1];
    forall k | 0 <= k < n ensures LandsAt(start, time, ops, k, p, size) == LandsAt(start, time, init, k, p, size) {
      LandsSame(start, time, ops, k, p, size);
    }
    if LandsLast(start, time, ops, j, p, size) && j < n {
      assert !LandsAt(start, time, ops, n, p, size);
      forall k | j < k < n ensures !LandsAt(start, time, init, k, p, size) {
        assert !LandsAt(start, time, ops, k, p, size);
      }
    }
  }

  /** The function above, as a statement about positions. */
  lemma {:induction false} LastLandedIsLast(start: HarqEnt, time: SlotTime, ops: seq<Op>, p: nat, size: nat,
                                            data: seq<byte>)
    requires |start| == MAX_NUM_HARQ_PROC && p < |start| && AllValid(ops)
    ensures LastLanded(start, time, ops, p, size) == Some(data) <==> Brings(start, time, ops, p, size, data)
    decreases |ops|
  {
    if ops != [] {
      LastLandedIsLast(start, time, ops[..|ops| - 1], p, size, data);
      BringsSnoc(start, time, ops, p, size, data);
    }
  }

  /** The last store that lands on p's block carries `data`. */
  ghost predicate Brings(start: HarqEnt, time: SlotTime, ops: seq<Op>, p: nat, size: nat, data: seq<byte>)
    requires |start| == MAX_NUM_HARQ_PROC && p < |start| && AllValid(ops)
  {
    exists j :: LandsLast(start, time, ops, j, p, size) && ops[j].data == data
  }

  lemma BringsSnoc(start: HarqEnt, time: SlotTime, ops: seq<Op>, p: nat, size: nat, data: seq<byte>)
    requires |start| == MAX_NUM_HARQ_PROC && p < |start| && AllValid(ops) && ops != []
    ensures Brings(start, time, ops, p, size, data) <==>
      if LandsAt(start, time, ops, |ops| - 1, p, size) then ops[|ops| - 1].data == data
      else Brings(start, time, ops[..|ops| - 1], p, size, data)
  {
    var n, init := |ops| - 1, ops[..|ops| - 1];
    LandsLastSnoc(start, time, ops, n, p, size);
    if j :| LandsLast(start, time, ops, j, p, size) && ops[j].data == data {
      LandsLastSnoc(start, time, ops, j, p, size);
    }
    if j :| LandsLast(start, time, init, j, p, size) && init[j].data == data {
      LandsLastSnoc(start, time, ops, j, p, size);
    }
  }

  /** Block k is the first of its size on process p, due at `keyTime`, holding `data`. */
  predicate Tracks(proc: ProcCb, p: nat, k: nat, size: nat, keyTime: SlotTime, data: Option<seq<byte>>) {
    proc.procId == p && k < |proc.tbs| && FindSize(proc.tbs, size, 0) == k && proc.tbs[k] == TbInfo(keyTime, size, data)
  }

  /** Filling a buffer or moving a block in time leaves the first of each size where it was. */
  lemma UpdateKeepsFirst(tbs: seq<TbInfo>, k: nat, tb: TbInfo, size: nat)
    requires k < |tbs| && tb.tbSize == tbs[k].tbSize
    ensures FindSize(tbs[k := tb], size, 0) == FindSize(tbs, size, 0)
  {
    FindSizeByBuffers(tbs[k := tb], tbs, size, 0);
  }

  lemma StoreTracks(ent: HarqEnt, op: Op, p: nat, k: nat, size: nat, keyTime: SlotTime, data: Option<seq<byte>>)
    requires |ent| == MAX_NUM_HARQ_PROC && p < |ent| && op.OpStore? && Tracks(ent[p], p, k, size, keyTime, data)
    ensures Tracks(Store(ent, op.time, op.size, op.data)[p], p, k, size, keyTime,
                   if LandsOn(ent, op, p, keyTime, size) then Some(op.data) else data)
  {
    var tbs := ent[p].tbs;
    var i := FindProc(ent, op.time, op.size, 0);
    var hit := FindKey(tbs, op.time, op.size, 0);
    if op.time == keyTime && op.size == size {
      assert KeyMatches(tbs[k], op.time, op.size);
      assert hit == k && HoldsKey(ent[p], op.time, op.size);
      assert i == p <==> !LowerHolds(ent, p, keyTime, size);
    }
    if i == p {
      UpdateKeepsFirst(tbs, hit, tbs[hit].(data := Some(op.data)), size);
    }
  }

  lemma FetchTracks(ent: HarqEnt, op: Op, p: nat, k: nat, size: nat, keyTime: SlotTime, data: Option<seq<byte>>)
    requires |ent| == MAX_NUM_HARQ_PROC && p < |ent| && op.OpFetch? && op.Valid()
    requires Tracks(ent[p], p, k, size, keyTime, data)
    ensures Tracks(Fetch(ent, op.time, op.p, op.size)[p], p, k, size,
                   if op.p == p && op.size == size then op.time else keyTime, data)
  {
    var tbs := ent[p].tbs;
    var moved := FindSize(tbs, op.size, 0);
    if op.p == p && moved < |tbs| {
      UpdateKeepsFirst(tbs, moved, tbs[moved].(txTime := op.time), size);
    }
  }

  /** Over any run that keeps p, its block is due at its key time and holds what landed last. */
  lemma {:induction false} RunTracks(start: HarqEnt, time: SlotTime, ops: seq<Op>, p: nat, k: nat, size: nat)
    requires |start| == MAX_NUM_HARQ_PROC && p < |start| && AllValid(ops) && AllKeep(ops, p)
    requires Tracks(start[p], p, k, size, time, None)
    ensures Tracks(Run(start, ops)[p], p, k, size, KeyTime(time, ops, p, size), LastLanded(start, time, ops, p, size))
    decreases |ops|
  {
    if ops != [] {
      var init, op := ops[..|ops| - 1], ops[|ops| - 1];
      RunTracks(start, time, init, p, k, size);
      var ent, keyTime, data := Run(start, init), KeyTime(time, init, p, size), LastLanded(start, time, init, p, size);
      assert Keeps(op, p) && op.Valid();
      match op {
        case OpStore(_, _, _) => StoreTracks(ent, op, p, k, size, keyTime, data);
        case OpFetch(_, _, _) => FetchTracks(ent, op, p, k, size, keyTime, data);
        case _ =>
      }
    }
  }

  lemma ScheduledTracks(ent: HarqEnt, time: SlotTime, p: nat, sizes: seq<nat>, size: nat) returns (k: nat)
    requires Inv(ent) && OpAdd(time, p, sizes).Valid() && size in sizes
    ensures Tracks(Add(ent, time, p, sizes)[p], p, k, size, time, None)
  {
    assert [] + NewTbs(time, sizes) == NewTbs(time, sizes);
    k := FindSize(NewTbs(time, sizes), size, 0);
    var j :| 0 <= j < |sizes| && sizes[j] == size;
    assert NewTbs(time, sizes)[j].tbSize == size;
  }

  /** A retransmission of p fetches what the last store that landed on its block carried, whatever
      is scheduled, stored, fetched and released in between. */
  lemma FetchedIsLastLanded(ent: HarqEnt, time: SlotTime, p: nat, sizes: seq<nat>, size: nat, ops: seq<Op>)
    requires Inv(ent) && OpAdd(time, p, sizes).Valid() && size in sizes && AllValid(ops) && AllKeep(ops, p)
    ensures var start := Add(ent, time, p, sizes);
      Fetched(Run(start, ops), p, size) == LastLanded(start, time, ops, p, size)
  {
    var k := ScheduledTracks(ent, time, p, sizes, size);
    RunTracks(Add(ent, time, p, sizes), time, ops, p, k, size);
  }

  /**
   From the scheduling of p until it is released or scheduled anew, a retransmission with the
   original TB size fetches `data` exactly when the last store that landed on p's block carried
   `data`. A store lands there exactly when its time is the slot the block is then due in, its
   size that of the block, and no lower-numbered process holds a block with that time and size.
   */
  lemma RetransmissionFetchesLastStored(ent: HarqEnt, time: SlotTime, p: nat, sizes: seq<nat>, size: nat, ops: seq<Op>,
                                        data: seq<byte>)
    requires Inv(ent) && OpAdd(time, p, sizes).Valid() && size in sizes && AllValid(ops) && AllKeep(ops, p)
    ensures var start := Add(ent, time, p, sizes);
      Fetched(Run(start, ops), p, size) == Some(data)
      <==> Brings(start, time, ops, p, size, data)
  {
    FetchedIsLastLanded(ent, time, p, sizes, size, ops);
    LastLandedIsLast(Add(ent, time, p, sizes), time, ops, p, size, data);
  }

  /** Op i is the store of p's own octets: it has the key p's block then has. */
  predicate OwnStore(time: SlotTime, ops: seq<Op>, i: nat, p: nat, size: nat) {
    i < |ops| && ops[i].OpStore? && ops[i].time == KeyTime(time, ops[..i], p, size) && ops[i].size == size
  }

  /**
   For p's own store at i: when no lower process held the key there, its octets are fetched
   exactly when the last later store that landed on p, if any, carried the same ones. Otherwise
   they went to that lower process, and are fetched only if some other store brought them.
   */
  lemma OwnOctetsFetchedExactlyWhen(ent: HarqEnt, time: SlotTime, p: nat, sizes: seq<nat>, size: nat, ops: seq<Op>,
                                    i: nat)
    requires Inv(ent) && OpAdd(time, p, sizes).Valid() && size in sizes && AllValid(ops) && AllKeep(ops, p)
    requires OwnStore(time, ops, i, p, size)
    ensures var start := Add(ent, time, p, sizes);
      Fetched(Run(start, ops), p, size) == Some(ops[i].data) <==>
        if LowerHolds(Run(start, ops[..i]), p, ops[i].time, size)
        then exists j :: j != i && LandsLast(start, time, ops, j, p, size) && ops[j].data == ops[i].data
        else forall j :: i < j && LandsLast(start, time, ops, j, p, size) ==> ops[j].data == ops[i].data
  {
    var start := Add(ent, time, p, sizes);
    RetransmissionFetchesLastStored(ent, time, p, sizes, size, ops, ops[i].data);
    if !LowerHolds(Run(start, ops[..i]), p, ops[i].time, size) {
      assert LandsAt(start, time, ops, i, p, size);
      var last := LastFrom(start, time, ops, i, p, size);
    }
  }

  /** After a landing there is a last one. */
  lemma LastFrom(start: HarqEnt, time: SlotTime, ops: seq<Op>, i: nat, p: nat, size: nat) returns (j: nat)
    requires |start| == MAX_NUM_HARQ_PROC && p < |start| && AllValid(ops) && LandsAt(start, time, ops, i, p, size)
    ensures i <= j && LandsLast(start, time, ops, j, p, size)
    ensures forall k :: LandsLast(start, time, ops, k, p, size) ==> k == j
    decreases |ops| - i
  {
    if later :| i < later < |ops| && LandsAt(start, time, ops, later, p, size) {
      j := LastFrom(start, time, ops, later, p, size);
    } else {
      j := i;
    }
  }

  // ------------------------------------------------------------- distinct live keys

  /** No two live TBs of the UE share time and size. */
  predicate DistinctKeys(ent: HarqEnt) {
    forall i, k, j, l |
      0 <= i < |ent| && 0 <= k < |ent[i].tbs| && 0 <= j < |ent| && 0 <= l < |ent[j].tbs| && (i != j || k != l) ::
      !KeyMatches(ent[j].tbs[l], ent[i].tbs[k].txTime, ent[i].tbs[k].tbSize)
  }

  /** With distinct live keys the key names the process: the store behaves as a map from process to TB. */
  lemma DistinctKeysNameTheProcess(ent: HarqEnt, p: nat, time: SlotTime, size: nat)
    requires DistinctKeys(ent) && p < |ent| && HoldsKey(ent[p], time, size)
    ensures FindProc(ent, time, size, 0) == p
    ensures forall q :: 0 <= q < |ent| && q != p ==> !HoldsKey(ent[q], time, size)
  {
    var k := FindKey(ent[p].tbs, time, size, 0);
    forall q | 0 <= q < |ent| && q != p ensures !HoldsKey(ent[q], time, size) {
      var l := FindKey(ent[q].tbs, time, size, 0);
      assert l == |ent[q].tbs| by {
        if l < |ent[q].tbs| { assert false; }
      }
    }
  }

  /** The key belongs to another process. */
  predicate HeldByAnother(ent: HarqEnt, p: nat, time: SlotTime, size: nat) {
    exists q :: 0 <= q < |ent| && q != p && HoldsKey(ent[q], time, size)
  }

  /** A store under a key that p does not hold (see HeldByAnotherIsNotOwn), or no store. */
  predicate ForOthers(ent: HarqEnt, op: Op, p: nat)
    requires p < |ent|
  {
    op.OpStore? ==> !HoldsKey(ent[p], op.time, op.size)
  }

  predicate ForOthersAt(start: HarqEnt, ops: seq<Op>, j: int, p: nat)
    requires |start| == MAX_NUM_HARQ_PROC && p < |start| && AllValid(ops) && 0 <= j < |ops|
  {
    ForOthers(Run(start, ops[..j]), ops[j], p)
  }

  predicate AllForOthers(start: HarqEnt, ops: seq<Op>, from: nat, p: nat)
    requires |start| == MAX_NUM_HARQ_PROC && p < |start| && AllValid(ops)
  {
    forall j :: from <= j < |ops| ==> ForOthersAt(start, ops, j, p)
  }

  /** With distinct live keys, the data for a block of another process is such a store. */
  lemma HeldByAnotherIsNotOwn(ent: HarqEnt, p: nat, time: SlotTime, size: nat)
    requires DistinctKeys(ent) && p < |ent| && HeldByAnother(ent, p, time, size)
    ensures !HoldsKey(ent[p], time, size)
  {
    var q :| 0 <= q < |ent| && q != p && HoldsKey(ent[q], time, size);
    DistinctKeysNameTheProcess(ent, q, time, size);
  }

  /**
   When live TBs have distinct times and sizes at p's own store, and every later store is under
   a key p does not hold, a retransmission of p always gets p's octets. Other processes are
   scheduled, stored, fetched and released freely, and p is fetched freely.
   */
  lemma DistinctKeysGiveTheOctets(ent: HarqEnt, time: SlotTime, p: nat, sizes: seq<nat>, size: nat, ops: seq<Op>,
                                  i: nat)
    requires Inv(ent) && OpAdd(time, p, sizes).Valid() && size in sizes && AllValid(ops) && AllKeep(ops, p)
    requires OwnStore(time, ops, i, p, size) && DistinctKeys(Run(Add(ent, time, p, sizes), ops[..i]))
    requires AllForOthers(Add(ent, time, p, sizes), ops, i + 1, p)
    ensures Fetched(Run(Add(ent, time, p, sizes), ops), p, size) == Some(ops[i].data)
  {
    var start := Add(ent, time, p, sizes);
    OwnKeyIsHeld(ent, time, p, sizes, size, ops, i);
    DistinctKeysNameTheProcess(Run(start, ops[..i]), p, ops[i].time, size);
    forall j | i < j < |ops| ensures !LandsAt(start, time, ops, j, p, size) {
      assert ForOthersAt(start, ops, j, p);
      if OwnStore(time, ops, j, p, size) { OwnKeyIsHeld(ent, time, p, sizes, size, ops, j); }
    }
    OwnOctetsFetchedExactlyWhen(ent, time, p, sizes, size, ops, i);
  }

  /** At its own store, p holds the key. */
  lemma OwnKeyIsHeld(ent: HarqEnt, time: SlotTime, p: nat, sizes: seq<nat>, size: nat, ops: seq<Op>, i: nat)
    requires Inv(ent) && OpAdd(time, p, sizes).Valid() && size in sizes && AllValid(ops) && AllKeep(ops, p)
    requires OwnStore(time, ops, i, p, size)
    ensures HoldsKey(Run(Add(ent, time, p, sizes), ops[..i])[p], ops[i].time, size)
  {
    var k := ScheduledTracks(ent, time, p, sizes, size);
    RunTracks(Add(ent, time, p, sizes), time, ops[..i], p, k, size);
    var proc := Run(Add(ent, time, p, sizes), ops[..i])[p];
    assert KeyMatches(proc.tbs[k], ops[i].time, size);
  }

  /** Two processes scheduled for the same time and size: the second one's octets overwrite those
      of the first, and the second finds nothing. */
  lemma SharedKeyLosesTheSecond(data1: seq<byte>, data2: seq<byte>)
    requires |data1| == |data2| == 100 && data1 != data2
    ensures var t := SlotTime(0, 0);
      var ops := [OpAdd(t, 1, [100]), OpAdd(t, 2, [100]), OpStore(t, 100, data1), OpStore(t, 100, data2)];
      var ent := Run(NewEnt(), ops);
      Fetched(ent, 1, 100) == Some(data2) && Fetched(ent, 2, 100) == None
  {
    var t := SlotTime(0, 0);
    var e1 := Add(NewEnt(), t, 1, [100]);
    var e2 := Add(e1, t, 2, [100]);
    assert e2[0] == ProcCb(MAX_NUM_HARQ_PROC, []);
    assert e2[1].tbs == [TbInfo(t, 100, None)] && e2[2].tbs == [TbInfo(t, 100, None)];
    assert FindKey(e2[1].tbs, t, 100, 0) == 0;
    var e3 := Store(e2, t, 100, data1);
    assert FindProc(e2, t, 100, 0) == 1;
    assert e3[1].tbs == [TbInfo(t, 100, Some(data1))] && FindKey(e3[1].tbs, t, 100, 0) == 0;
    assert FindProc(e3, t, 100, 0) == 1;
    var e4 := Store(e3, t, 100, data2);
    assert e4[1].tbs == [TbInfo(t, 100, Some(data2))];
    var ops := [OpAdd(t, 1, [100]), OpAdd(t, 2, [100]), OpStore(t, 100, data1), OpStore(t, 100, data2)];
    assert ops[..3] == [OpAdd(t, 1, [100]), OpAdd(t, 2, [100]), OpStore(t, 100, data1)];
    assert ops[..3][..2] == [OpAdd(t, 1, [100]), OpAdd(t, 2, [100])];
    assert ops[..3][..2][..1] == [OpAdd(t, 1, [100])];
    assert ops[..3][..2][..1][..0] == [] && Run(NewEnt(), []) == NewEnt();
    assert Run(NewEnt(), ops[..3][..2][..1]) == e1;
    assert Run(NewEnt(), ops[..3][..2]) == e2;
    assert Run(NewEnt(), ops[..3]) == e3;
    assert Run(NewEnt(), ops) == e4;
  }

  // -------------------------------------------------------------------- releases

  /** The process the RA block names after the entries of a release message, and whether the
      block is still the UE's: the first release of the named process clears the block. */
  function RaAfter(ue: UeCb, u: nat, hqInfo: seq<(nat, nat)>): (Option<nat>, bool) {
    if ue.ownsRa && ue.raProc.Some? && (u, ue.raProc.value) in hqInfo then (Some(0), false) else (ue.raProc, ue.ownsRa)
  }

  lemma {:induction false} RaAfterRelease(ues: seq<UeCb>, hqInfo: seq<(nat, nat)>, u: nat)
    requires ReleaseListOk(ues, hqInfo) && u < |ues|
    ensures (ReleaseAll(ues, hqInfo)[u].raProc, ReleaseAll(ues, hqInfo)[u].ownsRa) == RaAfter(ues[u], u, hqInfo)
    decreases |hqInfo|
  {
    if hqInfo != [] {
      var init, last := hqInfo[..|hqInfo| - 1], hqInfo[|hqInfo| - 1];
      RaAfterRelease(ues, init, u);
      assert hqInfo == init + [last];
    }
  }

  /** Entry k lists (u, p) while the UE's RA block does not name p. */
  predicate FreesAt(ue: UeCb, hqInfo: seq<(nat, nat)>, k: int, u: nat, p: nat) {
    0 <= k < |hqInfo| && hqInfo[k] == (u, p) && RaAfter(ue, u, hqInfo[..k]).0 != Some(p)
  }

  ghost predicate Frees(ue: UeCb, hqInfo: seq<(nat, nat)>, u: nat, p: nat) {
    exists k :: FreesAt(ue, hqInfo, k, u, p)
  }

  lemma FreesSnoc(ue: UeCb, hqInfo: seq<(nat, nat)>, u: nat, p: nat)
    requires hqInfo != []
    ensures Frees(ue, hqInfo, u, p) <==>
      Frees(ue, hqInfo[..|hqInfo| - 1], u, p) || FreesAt(ue, hqInfo, |hqInfo| - 1, u, p)
  {
    var init := hqInfo[..|hqInfo| - 1];
    forall k | 0 <= k < |init| ensures FreesAt(ue, hqInfo, k, u, p) == FreesAt(ue, init, k, u, p) {
      assert init[..k] == hqInfo[..k];
    }
    if k :| FreesAt(ue, init, k, u, p) { assert FreesAt(ue, hqInfo, k, u, p); }
  }

  /** What freeing leaves of the entry of process p: nothing, and the id is given back. */
  predicate Freed(was: ProcCb, now: ProcCb, p: nat) {
    && (was.procId == p ==> now == ProcCb(MAX_NUM_HARQ_PROC, []))
    && (was.procId != p ==> now == was)
  }

  /** An entry is its own process's or holds nothing, so a freed one is empty. */
  lemma FreedIsEmpty(ent: HarqEnt, p: nat, now: ProcCb)
    requires Inv(ent) && p < |ent| && Freed(ent[p], now, p)
    ensures now.tbs == [] && now.procId != p
  {
  }

  /** A release message frees a process exactly when it lists it at a point where the UE's RA
      block does not name it: for every message, UE and process. */
  lemma {:induction false} ReleaseByHistory(ues: seq<UeCb>, hqInfo: seq<(nat, nat)>, u: nat, p: nat)
    requires ReleaseListOk(ues, hqInfo) && u < |ues| && p < MAX_NUM_HARQ_PROC <= |ues[u].harqProcCb|
    ensures var was, now := ues[u].harqProcCb[p], ReleaseAll(ues, hqInfo)[u].harqProcCb[p];
      if Frees(ues[u], hqInfo, u, p) then Freed(was, now, p) else now == was
    decreases |hqInfo|
  {
    if hqInfo != [] {
      var init := hqInfo[..|hqInfo| - 1];
      ReleaseByHistory(ues, init, u, p);
      RaAfterRelease(ues, init, u);
      FreesSnoc(ues[u], hqInfo, u, p);
    }
  }

  /** The message clears the UE's RA block. */
  predicate ClearsRa(ue: UeCb, hqInfo: seq<(nat, nat)>, u: nat) {
    ue.ownsRa && ue.raProc.Some? && (u, ue.raProc.value) in hqInfo
  }

  /**
   A release message frees exactly the listed processes that the UE's RA block does not name.
   Process 0 of a UE whose block the same message clears is the one case apart: it is what a
   cleared block names (see ReleaseByHistory).
   */
  lemma ReleaseFreesExactlyTheListed(ues: seq<UeCb>, hqInfo: seq<(nat, nat)>, u: nat, p: nat)
    requires ReleaseListOk(ues, hqInfo) && u < |ues| && p < MAX_NUM_HARQ_PROC <= |ues[u].harqProcCb|
    requires ues[u].raProc != Some(p) && (p > 0 || !ClearsRa(ues[u], hqInfo, u))
    ensures var was, now := ues[u].harqProcCb[p], ReleaseAll(ues, hqInfo)[u].harqProcCb[p];
      if (u, p) in hqInfo then Freed(was, now, p) else now == was
  {
    ReleaseByHistory(ues, hqInfo, u, p);
    if k :| 0 <= k < |hqInfo| && hqInfo[k] == (u, p) {
      assert FreesAt(ues[u], hqInfo, k, u, p);
    }
  }

  predicate ListedTwice(hqInfo: seq<(nat, nat)>, u: nat, p: nat) {
    exists i, j :: 0 <= i < j < |hqInfo| && hqInfo[i] == (u, p) && hqInfo[j] == (u, p)
  }

  /** The process the RA block names is freed only by a second listing in the message, after the
      first has cleared the UE's own block, and never when it is process 0. */
  lemma NamedProcessIsKept(ues: seq<UeCb>, hqInfo: seq<(nat, nat)>, u: nat, p: nat)
    requires ReleaseListOk(ues, hqInfo) && u < |ues| && p < MAX_NUM_HARQ_PROC <= |ues[u].harqProcCb|
    requires ues[u].raProc == Some(p)
    ensures var was, now := ues[u].harqProcCb[p], ReleaseAll(ues, hqInfo)[u].harqProcCb[p];
      if p > 0 && ues[u].ownsRa && ListedTwice(hqInfo, u, p) then Freed(was, now, p) else now == was
  {
    ReleaseByHistory(ues, hqInfo, u, p);
    if k :| FreesAt(ues[u], hqInfo, k, u, p) {
      var i :| 0 <= i < k && hqInfo[..k][i] == (u, p);
      assert hqInfo[i] == (u, p);
    }
    if p > 0 && ues[u].ownsRa && ListedTwice(hqInfo, u, p) {
      var i, j :| 0 <= i < j < |hqInfo| && hqInfo[i] == (u, p) && hqInfo[j] == (u, p);
      assert hqInfo[..j][i] == (u, p);
      assert FreesAt(ues[u], hqInfo, j, u, p);
    }
  }

  // ------------------------------------------------------------- after a release

  predicate NoneAdds(ops: seq<Op>, p: nat) {
    forall k :: 0 <= k < |ops| ==> !(ops[k].OpAdd? && ops[k].p == p)
  }

  /** An entry without blocks stays without, until its process is scheduled. */
  lemma {:induction false} EmptyStaysEmpty(ent: HarqEnt, ops: seq<Op>, p: nat)
    requires |ent| == MAX_NUM_HARQ_PROC && p < |ent| && AllValid(ops) && NoneAdds(ops, p)
    requires ent[p].tbs == []
    ensures Run(ent, ops)[p].tbs == []
    decreases |ops|
  {
    if ops != [] {
      EmptyStaysEmpty(ent, ops[..|ops| - 1], p);
      assert !(ops[|ops| - 1].OpAdd? && ops[|ops| - 1].p == p);
    }
  }

  /** It has nothing to fetch, and takes no octets. */
  lemma NothingInEmpty(ent: HarqEnt, p: nat, time: SlotTime, size: nat)
    requires p < |ent| && ent[p].tbs == []
    ensures Fetched(ent, p, size) == None && !HoldsKey(ent[p], time, size)
  {
  }

  /**
   A process freed by a release message has nothing to fetch and holds no key, whatever is
   scheduled for other processes, stored, fetched and released, until it is scheduled again.
   */
  lemma FreedFetchesNothing(ues: seq<UeCb>, hqInfo: seq<(nat, nat)>, u: nat, p: nat, ops: seq<Op>, time: SlotTime,
                            size: nat)
    requires ReleaseListOk(ues, hqInfo) && u < |ues| && p < MAX_NUM_HARQ_PROC && Inv(ues[u].harqProcCb)
    requires Frees(ues[u], hqInfo, u, p) && AllValid(ops) && NoneAdds(ops, p)
    ensures var ent := Run(ReleaseAll(ues, hqInfo)[u].harqProcCb, ops);
      Fetched(ent, p, size) == None && !HoldsKey(ent[p], time, size)
  {
    var ent := ReleaseAll(ues, hqInfo)[u].harqProcCb;
    ReleaseByHistory(ues, hqInfo, u, p);
    FreedIsEmpty(ues[u].harqProcCb, p, ent[p]);
    EmptyStaysEmpty(ent, ops, p);
    NothingInEmpty(Run(ent, ops), p, time, size);
  }

  /** So does a single release, which leaves every other process as it was. */
  lemma ReleasedFetchesNothing(ent: HarqEnt, p: nat, ops: seq<Op>, time: SlotTime, size: nat)
    requires Inv(ent) && p < MAX_NUM_HARQ_PROC && AllValid(ops) && NoneAdds(ops, p)
    ensures var released := Apply(ent, OpRelease(p));
      && Freed(ent[p], released[p], p) && (forall q :: 0 <= q < |ent| && q != p ==> released[q] == ent[q])
      && Fetched(Run(released, ops), p, size) == None && !HoldsKey(Run(released, ops)[p], time, size)
  {
    var released := Apply(ent, OpRelease(p));
    FreedIsEmpty(ent, p, released[p]);
    EmptyStaysEmpty(released, ops, p);
    NothingInEmpty(Run(released, ops), p, time, size);
  }
}
