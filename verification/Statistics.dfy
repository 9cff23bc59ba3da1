/**
 Statistics groups: a request is split into what goes to the scheduler and what is rejected at
 once; the answer waits in a list of pending responses.
 */
module Statistics {
  import opened Common

  const MAX_PENDING_STATS_RSP := 5
  const MAX_NUM_STATS_GRP := 5

  datatype MacStat = MacDlTotalPrbUsage | MacUlTotalPrbUsage | MacOtherStat(code: nat)
  datatype SchStat = SchDlTotalPrbUsage | SchUlTotalPrbUsage

  datatype MacGroup = MacGroup(groupId: nat, periodicity: nat, stats: seq<MacStat>)
  datatype SchGroup = SchGroup(groupId: nat, periodicity: nat, stats: seq<SchStat>)

  datatype Cause = ParamInvalid | ResourceUnavailable | OtherCause(code: nat)
  datatype Rejected = Rejected(groupId: nat, cause: Cause)

  datatype StatsReq = StatsReq(subscriptionId: nat, groups: seq<MacGroup>)
  datatype SchStatsReq = SchStatsReq(subscriptionId: nat, groups: seq<SchGroup>)

  /** An answer to DU APP, and the scheduler's answer to MAC. */
  datatype StatsRsp = StatsRsp(subscriptionId: nat, accepted: seq<nat>, rejected: seq<Rejected>)

  const EMPTY_RSP := StatsRsp(0, [], [])

  datatype Output = ToSch(req: SchStatsReq) | ToDuApp(rsp: StatsRsp) | Nothing

  // ------------------------------------------------------------------ splitting a request

  function Translate(s: MacStat): Option<SchStat> {
    match s
    case MacDlTotalPrbUsage => Some(SchDlTotalPrbUsage)
    case MacUlTotalPrbUsage => Some(SchUlTotalPrbUsage)
    case MacOtherStat(_) => None
  }

  predicate GroupOk(g: MacGroup) {
    forall k :: 0 <= k < |g.stats| ==> Translate(g.stats[k]).Some?
  }

  function TranslateGroup(g: MacGroup): SchGroup
    requires GroupOk(g)
  {
    SchGroup(g.groupId, g.periodicity, seq(|g.stats|, k requires 0 <= k < |g.stats| => Translate(g.stats[k]).value))
  }

  function Forwarded(groups: seq<MacGroup>): (r: seq<SchGroup>)
    ensures |r| <= |groups|
  {
    if groups == [] then []
    else
      var g := groups[|groups| - 1];
      Forwarded(groups[..|groups| - 1]) + (if GroupOk(g) then [TranslateGroup(g)] else [])
  }

  function RejectedAtMac(groups: seq<MacGroup>): (r: seq<Rejected>)
    ensures |r| <= |groups|
  {
    if groups == [] then []
    else
      var g := groups[|groups| - 1];
      RejectedAtMac(groups[..|groups| - 1]) + (if GroupOk(g) then [] else [Rejected(g.groupId, ParamInvalid)])
  }

  function AllRejected(groups: seq<MacGroup>, cause: Cause): seq<Rejected> {
    seq(|groups|, k requires 0 <= k < |groups| => Rejected(groups[k].groupId, cause))
  }

  // ------------------------------------------------------------------ pending answers

  /** The pending entries in use. */
  type Pending = p: seq<StatsRsp> | |p| <= MAX_PENDING_STATS_RSP

  function AfterReq(p: Pending, q: StatsReq): (r: (Pending, Output)) {
    if |p| >= MAX_PENDING_STATS_RSP then
      (p, ToDuApp(StatsRsp(q.subscriptionId, [], AllRejected(q.groups, ResourceUnavailable))))
    else
      var entry := StatsRsp(q.subscriptionId, [], RejectedAtMac(q.groups));
      if Forwarded(q.groups) != [] then (p + [entry], ToSch(SchStatsReq(q.subscriptionId, Forwarded(q.groups))))
      else (p, ToDuApp(entry))
  }

  /** The first entry with this subscription. */
  function Lookup(p: seq<StatsRsp>, id: nat): (k: nat)
    ensures k <= |p|
    ensures k < |p| ==> p[k].subscriptionId == id
    ensures forall j :: 0 <= j < k ==> p[j].subscriptionId != id
  {
    if p == [] then 0
    else
      var k := Lookup(p[..|p| - 1], id);
      if k < |p| - 1 || p[k].subscriptionId == id then k else |p|
  }

  function Append<T>(a: seq<T>, b: seq<T>): seq<T> {
    if |a| + |b| <= MAX_NUM_STATS_GRP then a + b
    else if |a| >= MAX_NUM_STATS_GRP then a
    else a + b[..MAX_NUM_STATS_GRP - |a|]
  }

  function Merged(e: StatsRsp, r: StatsRsp): StatsRsp {
    StatsRsp(e.subscriptionId, Append(e.accepted, r.accepted), Append(e.rejected, r.rejected))
  }

  function AfterRsp(p: Pending, r: StatsRsp): (o: (Pending, Output)) {
    var k := Lookup(p, r.subscriptionId);
    if k < |p| then (p[k := EMPTY_RSP], ToDuApp(Merged(p[k], r))) else (p, Nothing)
  }

  // ------------------------------------------------------------------ the handlers

  class MacStats {
    var numPendingStatsRsp: nat
    const pendingStatsRsp: array<StatsRsp>

    ghost predicate Valid()
      reads this
    {
      numPendingStatsRsp <= pendingStatsRsp.Length == MAX_PENDING_STATS_RSP
    }

    ghost function State(): Pending
      requires Valid()
      reads this, pendingStatsRsp
    {
      pendingStatsRsp[..numPendingStatsRsp]
    }

    constructor ()
      ensures Valid() && State() == [] && fresh(pendingStatsRsp)
    {
      numPendingStatsRsp := 0;
      pendingStatsRsp := new StatsRsp[MAX_PENDING_STATS_RSP](_ => EMPTY_RSP);
    }

    /** MacProcStatsReq */
    method MacProcStatsReq(q: StatsReq) returns (out: Output)
      requires Valid()
      modifies this`numPendingStatsRsp, pendingStatsRsp
      ensures Valid() && (State(), out) == AfterReq(old(State()), q)
    {
      if numPendingStatsRsp >= MAX_PENDING_STATS_RSP {
        var rejected := RejectAllStats(q, ResourceUnavailable);
        return ToDuApp(rejected);
      }
      var groups, rejected := SplitRequest(q.groups);
      var entry := StatsRsp(q.subscriptionId, [], rejected);
      pendingStatsRsp[numPendingStatsRsp] := entry;
      if |groups| > 0 {
        numPendingStatsRsp := numPendingStatsRsp + 1;
        assert State() == old(State()) + [entry];
        out := ToSch(SchStatsReq(q.subscriptionId, groups));
      } else {
        pendingStatsRsp[numPendingStatsRsp] := EMPTY_RSP;
        assert State() == old(State());
        out := ToDuApp(entry);
      }
    }

    /** The lookup of MacProcSchStatsRsp. */
    method FindPending(subscriptionId: nat) returns (idx: nat)
      requires Valid()
      ensures idx == Lookup(State(), subscriptionId)
    {
      idx := 0;
      while idx < numPendingStatsRsp && pendingStatsRsp[idx].subscriptionId != subscriptionId
        invariant idx <= numPendingStatsRsp && idx <= Lookup(State(), subscriptionId)
      {
        idx := idx + 1;
      }
    }

    /** MacProcSchStatsRsp */
    method MacProcSchStatsRsp(r: StatsRsp) returns (out: Output)
      requires Valid()
      modifies pendingStatsRsp
      ensures Valid() && (State(), out) == AfterRsp(old(State()), r)
    {
      var idx := FindPending(r.subscriptionId);
      if idx == numPendingStatsRsp {
        return Nothing;
      }
      var e := pendingStatsRsp[idx];
      var accepted := CopyList(e.accepted, r.accepted);
      var rejected := CopyList(e.rejected, r.rejected);
      pendingStatsRsp[idx] := EMPTY_RSP;
      out := ToDuApp(StatsRsp(e.subscriptionId, accepted, rejected));
    }
  }

  /** MacRejectAllStats */
  method RejectAllStats(q: StatsReq, cause: Cause) returns (rsp: StatsRsp)
    ensures rsp == StatsRsp(q.subscriptionId, [], AllRejected(q.groups, cause))
  {
    var rejected: seq<Rejected> := [];
    for grpIdx := 0 to |q.groups|
      invariant rejected == AllRejected(q.groups[..grpIdx], cause)
    {
      rejected := rejected + [Rejected(q.groups[grpIdx].groupId, cause)];
    }
    assert q.groups[..|q.groups|] == q.groups;
    rsp := StatsRsp(q.subscriptionId, [], rejected);
  }

  /** Copies entries while both lists have room. */
  method CopyList<T>(dst: seq<T>, src: seq<T>) returns (r: seq<T>)
    ensures r == Append(dst, src)
  {
    r := dst;
    var idx := 0;
    while idx < |src| && |r| < MAX_NUM_STATS_GRP
      invariant idx <= |src| && r == dst + src[..idx] && (idx > 0 ==> |r| <= MAX_NUM_STATS_GRP)
    {
      r := r + [src[idx]];
      idx := idx + 1;
    }
  }

  /** The measurement types of one group. */
  method ValidateGroup(g: MacGroup) returns (ok: bool, stats: seq<SchStat>)
    ensures ok <==> GroupOk(g)
    ensures ok ==> SchGroup(g.groupId, g.periodicity, stats) == TranslateGroup(g)
  {
    stats := [];
    for idx := 0 to |g.stats|
      invariant |stats| == idx
      invariant forall k :: 0 <= k < idx ==> Translate(g.stats[k]) == Some(stats[k])
    {
      match g.stats[idx] {
        case MacDlTotalPrbUsage => stats := stats + [SchDlTotalPrbUsage];
        case MacUlTotalPrbUsage => stats := stats + [SchUlTotalPrbUsage];
        case MacOtherStat(_) => return false, [];
      }
    }
    ok := true;
  }

  method SplitRequest(groups: seq<MacGroup>) returns (sch: seq<SchGroup>, rejected: seq<Rejected>)
    ensures sch == Forwarded(groups) && rejected == RejectedAtMac(groups)
  {
    sch, rejected := [], [];
    for grpIdx := 0 to |groups|
      invariant sch == Forwarded(groups[..grpIdx]) && rejected == RejectedAtMac(groups[..grpIdx])
    {
      var g := groups[grpIdx];
      var ok, stats := ValidateGroup(g);
      if ok {
        sch := sch + [SchGroup(g.groupId, g.periodicity, stats)];
      } else {
        rejected := rejected + [Rejected(g.groupId, ParamInvalid)];
      }
      assert groups[..grpIdx + 1][..grpIdx] == groups[..grpIdx];
    }
    assert groups[..|groups|] == groups;
  }

  // ------------------------------------------------------------------ each group exactly once

  function SchIds(groups: seq<SchGroup>): (r: seq<nat>)
    ensures |r| == |groups|
  {
    seq(|groups|, k requires 0 <= k < |groups| => groups[k].groupId)
  }

  function MacIds(groups: seq<MacGroup>): (r: seq<nat>)
    ensures |r| == |groups|
  {
    seq(|groups|, k requires 0 <= k < |groups| => groups[k].groupId)
  }

  function RejectedIds(rejected: seq<Rejected>): (r: seq<nat>)
    ensures |r| == |rejected|
  {
    seq(|rejected|, k requires 0 <= k < |rejected| => rejected[k].groupId)
  }

  predicate Splits(a: seq<nat>, b: seq<nat>, whole: seq<nat>) {
    multiset(a) + multiset(b) == multiset(whole)
  }

  lemma SplitOneMore(a: seq<nat>, b: seq<nat>, whole: seq<nat>, x: nat)
    requires Splits(a, b, whole)
    ensures Splits(a + [x], b, whole + [x]) && Splits(a, b + [x], whole + [x])
  {
  }

  predicate SplitInTwo(groups: seq<MacGroup>) {
    Splits(SchIds(Forwarded(groups)), RejectedIds(RejectedAtMac(groups)), MacIds(groups))
  }

  /** One more group, in one of the two lists. */
  lemma IdsSnoc(groups: seq<MacGroup>)
    requires groups != []
    ensures var before, g := groups[..|groups| - 1], groups[|groups| - 1];
      && MacIds(groups) == MacIds(before) + [g.groupId]
      && SchIds(Forwarded(groups)) == SchIds(Forwarded(before)) + (if GroupOk(g) then [g.groupId] else [])
      && RejectedIds(RejectedAtMac(groups))
         == RejectedIds(RejectedAtMac(before)) + (if GroupOk(g) then [] else [g.groupId])
  {
  }

  lemma SplitStep(groups: seq<MacGroup>)
    requires groups != [] && SplitInTwo(groups[..|groups| - 1])
    ensures SplitInTwo(groups)
  {
    var before, g := groups[..|groups| - 1], groups[|groups| - 1];
    IdsSnoc(groups);
    SplitOneMore(SchIds(Forwarded(before)), RejectedIds(RejectedAtMac(before)), MacIds(before), g.groupId);
    assert SchIds(Forwarded(before)) + [] == SchIds(Forwarded(before));
    assert RejectedIds(RejectedAtMac(before)) + [] == RejectedIds(RejectedAtMac(before));
  }

  lemma NothingToSplit(groups: seq<MacGroup>)
    requires groups == []
    ensures SplitInTwo(groups)
  {
    assert SchIds(Forwarded(groups)) == [] && RejectedIds(RejectedAtMac(groups)) == [] && MacIds(groups) == [];
  }

  /** Each group of a request is forwarded or rejected, not both. */
  lemma {:induction false} SplitIsPartition(groups: seq<MacGroup>)
    ensures SplitInTwo(groups)
  {
    if groups == [] {
      NothingToSplit(groups);
    } else {
      SplitIsPartition(groups[..|groups| - 1]);
      SplitStep(groups);
    }
  }

  /** What a scheduler measurement means to MAC. */
  function MeaningOf(s: SchStat): MacStat {
    match s
    case SchDlTotalPrbUsage => MacDlTotalPrbUsage
    case SchUlTotalPrbUsage => MacUlTotalPrbUsage
  }

  function GroupMeaning(g: SchGroup): MacGroup {
    MacGroup(g.groupId, g.periodicity, seq(|g.stats|, k requires 0 <= k < |g.stats| => MeaningOf(g.stats[k])))
  }

  function Meanings(groups: seq<SchGroup>): (r: seq<MacGroup>)
    ensures |r| == |groups|
  {
    seq(|groups|, k requires 0 <= k < |groups| => GroupMeaning(groups[k]))
  }

  /** A group is valid when the scheduler has each of its measurement types. */
  predicate Supported(g: MacGroup) {
    forall k :: 0 <= k < |g.stats| ==> !g.stats[k].MacOtherStat?
  }

  function SupportedOnes(groups: seq<MacGroup>): seq<MacGroup> {
    if groups == [] then []
    else
      var g := groups[|groups| - 1];
      SupportedOnes(groups[..|groups| - 1]) + (if Supported(g) then [g] else [])
  }

  function UnsupportedOnes(groups: seq<MacGroup>): seq<MacGroup> {
    if groups == [] then []
    else
      var g := groups[|groups| - 1];
      UnsupportedOnes(groups[..|groups| - 1]) + (if Supported(g) then [] else [g])
  }

  lemma GroupKeepsMeaning(g: MacGroup)
    ensures GroupOk(g) <==> Supported(g)
    ensures GroupOk(g) ==> GroupMeaning(TranslateGroup(g)) == g
  {
    forall k | 0 <= k < |g.stats| ensures Translate(g.stats[k]).Some? <==> !g.stats[k].MacOtherStat? {
    }
    if GroupOk(g) {
      assert GroupMeaning(TranslateGroup(g)).stats == g.stats;
    }
  }

  lemma MeaningsSnoc(groups: seq<SchGroup>, g: SchGroup)
    ensures Meanings(groups + [g]) == Meanings(groups) + [GroupMeaning(g)]
  {
  }

  /** The scheduler is asked for exactly the supported groups, in order, each with its id, its
      periodicity and the measurements it was requested with. */
  lemma {:induction false} ForwardedKeepMeaning(groups: seq<MacGroup>)
    ensures Meanings(Forwarded(groups)) == SupportedOnes(groups)
  {
    if groups != [] {
      var init, g := groups[..|groups| - 1], groups[|groups| - 1];
      ForwardedKeepMeaning(init);
      GroupKeepsMeaning(g);
      if GroupOk(g) { MeaningsSnoc(Forwarded(init), TranslateGroup(g)); }
    }
  }

  /** And MAC rejects exactly the others, in order, as invalid parameters. */
  lemma {:induction false} RejectedAreUnsupported(groups: seq<MacGroup>)
    ensures RejectedAtMac(groups) == AllRejected(UnsupportedOnes(groups), ParamInvalid)
  {
    if groups != [] {
      var init, g := groups[..|groups| - 1], groups[|groups| - 1];
      RejectedAreUnsupported(init);
      GroupKeepsMeaning(g);
      if !Supported(g) { RejectedSnoc(UnsupportedOnes(init), g, ParamInvalid); }
    }
  }

  lemma RejectedSnoc(groups: seq<MacGroup>, g: MacGroup, cause: Cause)
    ensures AllRejected(groups + [g], cause) == AllRejected(groups, cause) + [Rejected(g.groupId, cause)]
  {
  }

  lemma SplitSizes(a: seq<nat>, b: seq<nat>, whole: seq<nat>)
    requires Splits(a, b, whole)
    ensures |a| + |b| == |whole|
  {
    assert |multiset(a) + multiset(b)| == |a| + |b|;
  }

  /** Answering the forwarded part completes the answer to the whole. */
  lemma SplitAgain(forwarded: seq<nat>, rejected: seq<nat>, whole: seq<nat>, accepted: seq<nat>, more: seq<nat>)
    requires Splits(forwarded, rejected, whole) && Splits(accepted, more, forwarded)
    ensures Splits(accepted, rejected + more, whole) && |accepted| + |rejected| + |more| == |whole|
  {
    SplitSizes(forwarded, rejected, whole);
    SplitSizes(accepted, more, forwarded);
  }

  /** The scheduler answers every group it was sent once. */
  predicate Answers(r: StatsRsp, groups: seq<SchGroup>) {
    Splits(r.accepted, RejectedIds(r.rejected), SchIds(groups))
  }

  predicate AnsweredOnce(rsp: StatsRsp, q: StatsReq) {
    rsp.subscriptionId == q.subscriptionId && Splits(rsp.accepted, RejectedIds(rsp.rejected), MacIds(q.groups))
  }

  lemma MergeAnswersOnce(q: StatsReq, r: StatsRsp)
    requires |q.groups| <= MAX_NUM_STATS_GRP && Answers(r, Forwarded(q.groups))
    ensures AnsweredOnce(Merged(StatsRsp(q.subscriptionId, [], RejectedAtMac(q.groups)), r), q)
  {
    var rejected := RejectedAtMac(q.groups);
    SplitIsPartition(q.groups);
    SplitAgain(SchIds(Forwarded(q.groups)), RejectedIds(rejected), MacIds(q.groups),
               r.accepted, RejectedIds(r.rejected));
    assert RejectedIds(rejected + r.rejected) == RejectedIds(rejected) + RejectedIds(r.rejected);
    assert [] + r.accepted == r.accepted;
  }

  /** A list that has room takes over entries in order until it is full. */
  lemma AppendFillsUp<T>(a: seq<T>, b: seq<T>)
    requires |a| <= MAX_NUM_STATS_GRP
    ensures Append(a, b) == if |a + b| <= MAX_NUM_STATS_GRP then a + b else (a + b)[..MAX_NUM_STATS_GRP]
  {
    if |a + b| > MAX_NUM_STATS_GRP { assert (a + b)[..|a|] == a; }
  }

  lemma MergedInFull(q: StatsReq, r: StatsRsp)
    requires |q.groups| <= MAX_NUM_STATS_GRP && Answers(r, Forwarded(q.groups))
    ensures Merged(StatsRsp(q.subscriptionId, [], RejectedAtMac(q.groups)), r)
      == StatsRsp(q.subscriptionId, r.accepted, RejectedAtMac(q.groups) + r.rejected)
  {
    SplitIsPartition(q.groups);
    SplitAgain(SchIds(Forwarded(q.groups)), RejectedIds(RejectedAtMac(q.groups)), MacIds(q.groups),
               r.accepted, RejectedIds(r.rejected));
    assert [] + r.accepted == r.accepted;
  }

  // ------------------------------------------------------------------ runs

  datatype Event = Req(q: StatsReq) | Rsp(r: StatsRsp)

  function Step(p: Pending, e: Event): (Pending, Output) {
    match e
    case Req(q) => AfterReq(p, q)
    case Rsp(r) => AfterRsp(p, r)
  }

  function After(run: seq<Event>): Pending {
    if run == [] then [] else Step(After(run[..|run| - 1]), run[|run| - 1]).0
  }

  function OutputAt(run: seq<Event>, i: nat): Output
    requires i < |run|
  {
    Step(After(run[..i]), run[i]).1
  }

  /** Subscription `id` occurs in a request (or only in a response). */
  predicate Requests(e: Event, id: nat) {
    e.Req? && e.q.subscriptionId == id
  }

  predicate Names(e: Event, id: nat) {
    Requests(e, id) || (e.Rsp? && e.r.subscriptionId == id)
  }

  predicate OnlyAt(p: Pending, k: nat, e: StatsRsp) {
    k < |p| && p[k] == e && forall j :: 0 <= j < |p| && j != k ==> p[j].subscriptionId != e.subscriptionId
  }

  predicate Unknown(p: Pending, id: nat) {
    forall j :: 0 <= j < |p| ==> p[j].subscriptionId != id
  }

  lemma {:induction false} NeverRequested(run: seq<Event>, id: nat)
    requires id != 0 && forall j :: 0 <= j < |run| ==> !Requests(run[j], id)
    ensures Unknown(After(run), id)
  {
    if run != [] {
      NeverRequested(run[..|run| - 1], id);
      assert !Requests(run[|run| - 1], id);
    }
  }

  lemma {:induction false} EntryStays(run: seq<Event>, i: nat, n: nat, k: nat, e: StatsRsp)
    requires i <= n <= |run| && OnlyAt(After(run[..i]), k, e) && e.subscriptionId != 0
    requires forall j :: i <= j < n ==> !Names(run[j], e.subscriptionId)
    ensures OnlyAt(After(run[..n]), k, e)
    decreases n
  {
    if n > i {
      EntryStays(run, i, n - 1, k, e);
      assert run[..n][..n - 1] == run[..n - 1];
      assert !Names(run[n - 1], e.subscriptionId);
    }
  }

  // A cleared entry carries subscription 0, so that subscription is looked up among them.

  predicate ZeroBelow(p: seq<StatsRsp>, n: nat) {
    exists k :: 0 <= k < |p| && k < n && p[k].subscriptionId == 0
  }

  /** Response k completed one of the first n entries. */
  predicate AnswersBelow(run: seq<Event>, k: int, n: nat) {
    && 0 <= k < |run| && run[k].Rsp?
    && Lookup(After(run[..k]), run[k].r.subscriptionId) < |After(run[..k])|
    && Lookup(After(run[..k]), run[k].r.subscriptionId) < n
  }

  ghost predicate AnsweredBelow(run: seq<Event>, n: nat) {
    exists k :: AnswersBelow(run, k, n)
  }

  lemma AnsweredBelowSnoc(run: seq<Event>, n: nat)
    requires run != []
    ensures AnsweredBelow(run, n) <==> AnsweredBelow(run[..|run| - 1], n) || AnswersBelow(run, |run| - 1, n)
  {
    var init := run[..|run| - 1];
    forall k | 0 <= k < |init| ensures AnswersBelow(run, k, n) == AnswersBelow(init, k, n) {
      assert init[..k] == run[..k];
    }
    if k :| AnswersBelow(init, k, n) { assert AnswersBelow(run, k, n); }
    if k :| AnswersBelow(run, k, n) && k < |init| { assert AnswersBelow(init, k, n); }
  }

  /** When no request for subscription 0 holds one of the first n entries: those that carry 0
      are cleared, and there is one exactly when a response has completed one. */
  lemma {:induction false} ZeroBelowByHistory(run: seq<Event>, n: nat)
    requires forall k :: 0 <= k < |run| && Requests(run[k], 0) ==> |After(run[..k])| >= n
    ensures ZeroBelow(After(run), n) <==> AnsweredBelow(run, n)
    ensures forall k :: 0 <= k < |After(run)| && k < n && After(run)[k].subscriptionId == 0 ==>
      After(run)[k] == EMPTY_RSP
  {
    if run != [] {
      var init := run[..|run| - 1];
      forall k | 0 <= k < |init| && Requests(init[k], 0) ensures |After(init[..k])| >= n {
        assert init[..k] == run[..k] && Requests(run[k], 0);
      }
      ZeroBelowByHistory(init, n);
      AnsweredBelowSnoc(run, n);
      ZeroBelowStep(After(init), run[|run| - 1], n);
      assert Requests(run[|run| - 1], 0) ==> |After(init)| >= n;
    }
  }

  lemma ZeroBelowStep(p: Pending, e: Event, n: nat)
    requires Requests(e, 0) ==> |p| >= n
    ensures ZeroBelow(Step(p, e).0, n) <==>
      ZeroBelow(p, n) || (e.Rsp? && Lookup(p, e.r.subscriptionId) < |p| && Lookup(p, e.r.subscriptionId) < n)
  {
    var after := Step(p, e).0;
    if e.Rsp? && Lookup(p, e.r.subscriptionId) < |p| {
      var hit := Lookup(p, e.r.subscriptionId);
      assert after[hit].subscriptionId == 0;
      if k :| 0 <= k < |p| && k < n && p[k].subscriptionId == 0 { assert after[k].subscriptionId == 0; }
    } else if k :| 0 <= k < |p| && k < n && p[k].subscriptionId == 0 {
      assert after[k] == p[k];
    }
  }

  /** The entry of a request stays in its place until its subscription is named. */
  lemma {:induction false} EntryKeepsPlace(run: seq<Event>, i: nat, n: nat, k: nat, e: StatsRsp)
    requires i <= n <= |run| && k < |After(run[..i])| && After(run[..i])[k] == e
    requires forall j :: i <= j < n ==> !Names(run[j], e.subscriptionId)
    ensures k < |After(run[..n])| && After(run[..n])[k] == e
    decreases n
  {
    if n > i {
      EntryKeepsPlace(run, i, n - 1, k, e);
      assert run[..n][..n - 1] == run[..n - 1];
      EntryStep(After(run[..n - 1]), run[n - 1], k, e);
    }
  }

  lemma EntryStep(p: Pending, event: Event, k: nat, e: StatsRsp)
    requires k < |p| && p[k] == e && !Names(event, e.subscriptionId)
    ensures k < |Step(p, event).0| && Step(p, event).0[k] == e
  {
  }

  /** What the first response to a forwarded request finds: its entry, unless the subscription
      is 0 and an entry before it has been cleared. */
  lemma EntryFound(run: seq<Event>, i: nat, j: nat)
    requires i < j < |run| && run[i].Req? && OutputAt(run, i).ToSch?
    requires forall k :: 0 <= k < i ==> !Requests(run[k], run[i].q.subscriptionId)
    requires forall k :: i < k < j ==> !Names(run[k], run[i].q.subscriptionId)
    ensures var q, p, n := run[i].q, After(run[..j]), |After(run[..i])|;
      var k := Lookup(p, q.subscriptionId);
      && k < |p|
      && p[k] == if q.subscriptionId == 0 && AnsweredBelow(run[..j], n) then EMPTY_RSP
                 else StatsRsp(q.subscriptionId, [], RejectedAtMac(q.groups))
  {
    var q, before, p := run[i].q, After(run[..i]), After(run[..j]);
    var e := StatsRsp(q.subscriptionId, [], RejectedAtMac(q.groups));
    assert run[..i + 1][..i] == run[..i];
    assert After(run[..i + 1]) == before + [e];
    EntryKeepsPlace(run, i + 1, j, |before|, e);
    if q.subscriptionId != 0 {
      NeverRequested(run[..i], q.subscriptionId);
      EntryStays(run, i + 1, j, |before|, e);
    } else {
      forall k | 0 <= k < j && Requests(run[..j][k], 0) ensures |After(run[..j][..k])| >= |before| {
        assert run[..j][..k] == run[..k];
        assert k == i;
      }
      ZeroBelowByHistory(run[..j], |before|);
    }
  }

  lemma ClearedAnswersOnce(q: StatsReq, r: StatsRsp)
    requires |q.groups| <= MAX_NUM_STATS_GRP && Answers(r, Forwarded(q.groups)) && q.subscriptionId == 0
    ensures AnsweredOnce(Merged(EMPTY_RSP, r), q) <==> RejectedAtMac(q.groups) == []
  {
    SplitIsPartition(q.groups);
    SplitSizes(SchIds(Forwarded(q.groups)), RejectedIds(RejectedAtMac(q.groups)), MacIds(q.groups));
    SplitSizes(r.accepted, RejectedIds(r.rejected), SchIds(Forwarded(q.groups)));
    assert [] + r.accepted == r.accepted && [] + r.rejected == r.rejected;
    if AnsweredOnce(Merged(EMPTY_RSP, r), q) {
      SplitSizes(r.accepted, RejectedIds(r.rejected), MacIds(q.groups));
    }
  }

  /**
   Whatever happens in between, the first response to a forwarded request reaches DU APP, as an
   answer in which every requested group is accepted or rejected exactly once. Subscription 0 is
   the exception: once an earlier request has been answered, its response completes that cleared
   entry, and the groups MAC itself rejected are lost.
   */
  lemma ForwardedIsAnsweredOnce(run: seq<Event>, i: nat, j: nat)
    requires i < j < |run| && run[i].Req? && run[j].Rsp? && OutputAt(run, i).ToSch?
    requires |run[i].q.groups| <= MAX_NUM_STATS_GRP
    requires run[j].r.subscriptionId == run[i].q.subscriptionId && Answers(run[j].r, OutputAt(run, i).req.groups)
    requires forall k :: 0 <= k < i ==> !Requests(run[k], run[i].q.subscriptionId)
    requires forall k :: i < k < j ==> !Names(run[k], run[i].q.subscriptionId)
    ensures OutputAt(run, j).ToDuApp?
    ensures AnsweredOnce(OutputAt(run, j).rsp, run[i].q) <==>
      || run[i].q.subscriptionId != 0
      || RejectedAtMac(run[i].q.groups) == []
      || !AnsweredBelow(run[..j], |After(run[..i])|)
    ensures AnsweredOnce(OutputAt(run, j).rsp, run[i].q) ==>
      OutputAt(run, j).rsp ==
        StatsRsp(run[i].q.subscriptionId, run[j].r.accepted, RejectedAtMac(run[i].q.groups) + run[j].r.rejected)
  {
    var q, r := run[i].q, run[j].r;
    EntryFound(run, i, j);
    MergeAnswersOnce(q, r);
    MergedInFull(q, r);
    if q.subscriptionId == 0 { ClearedAnswersOnce(q, r); }
  }

  /** After its answer, a subscription other than 0 has no entry left. */
  lemma AnsweredIsForgotten(run: seq<Event>, i: nat, j: nat)
    requires i < j < |run| && run[i].Req? && run[j].Rsp? && OutputAt(run, i).ToSch?
    requires run[i].q.subscriptionId == run[j].r.subscriptionId != 0
    requires forall k :: 0 <= k < i ==> !Requests(run[k], run[i].q.subscriptionId)
    requires forall k :: i < k < j ==> !Names(run[k], run[i].q.subscriptionId)
    ensures Unknown(After(run[..j + 1]), run[i].q.subscriptionId)
  {
    var q, n := run[i].q, |After(run[..i])|;
    NeverRequested(run[..i], q.subscriptionId);
    assert run[..i + 1][..i] == run[..i] && run[..j + 1][..j] == run[..j];
    EntryStays(run, i + 1, j, n, StatsRsp(q.subscriptionId, [], RejectedAtMac(q.groups)));
  }

  /** Until it is requested again, a subscription without an entry gets no answer. For
      subscription 0 this lasts exactly until some other request is answered. */
  lemma NotAnsweredTwice(run: seq<Event>, i: nat, j: nat, id: nat)
    requires i <= j < |run| && Unknown(After(run[..i]), id) && run[j].Rsp? && run[j].r.subscriptionId == id
    requires forall k :: i <= k < j ==> !Requests(run[k], id)
    ensures OutputAt(run, j) == Nothing <==> id != 0 || NothingAnswered(run, i, j)
  {
    StaysUnknown(run, i, j, id);
  }

  lemma {:induction false} StaysUnknown(run: seq<Event>, i: nat, n: nat, id: nat)
    requires i <= n <= |run| && Unknown(After(run[..i]), id)
    requires forall k :: i <= k < n ==> !Requests(run[k], id)
    ensures Unknown(After(run[..n]), id) <==> id != 0 || NothingAnswered(run, i, n)
    decreases n
  {
    if n > i {
      StaysUnknown(run, i, n - 1, id);
      assert run[..n][..n - 1] == run[..n - 1];
      assert !Requests(run[n - 1], id);
      UnknownStep(After(run[..n - 1]), run[n - 1], id);
      NothingAnsweredSnoc(run, i, n);
    }
  }

  predicate NothingAnswered(run: seq<Event>, i: nat, n: nat)
    requires n <= |run|
  {
    forall k :: i <= k < n && run[k].Rsp? ==> OutputAt(run, k) == Nothing
  }

  lemma NothingAnsweredSnoc(run: seq<Event>, i: nat, n: nat)
    requires i < n <= |run|
    ensures NothingAnswered(run, i, n) <==>
      NothingAnswered(run, i, n - 1) && (run[n - 1].Rsp? ==> OutputAt(run, n - 1) == Nothing)
  {
  }

  lemma UnknownStep(p: Pending, e: Event, id: nat)
    requires !Requests(e, id)
    ensures Unknown(p, id) ==>
      (Unknown(Step(p, e).0, id) <==> id != 0 || (e.Rsp? ==> Step(p, e).1 == Nothing))
    ensures id == 0 && !Unknown(p, id) ==> !Unknown(Step(p, e).0, id)
  {
    var after := Step(p, e).0;
    if e.Rsp? && Lookup(p, e.r.subscriptionId) < |p| {
      assert after[Lookup(p, e.r.subscriptionId)] == EMPTY_RSP;
    }
    if id == 0 && !Unknown(p, id) {
      var k :| 0 <= k < |p| && p[k].subscriptionId == 0;
      assert after[k].subscriptionId == 0;
    }
  }

  /** A request that is not forwarded is answered at once, every group rejected. */
  lemma NotForwardedIsRejected(p: Pending, q: StatsReq)
    requires !AfterReq(p, q).1.ToSch?
    ensures AfterReq(p, q).1.ToDuApp? && AnsweredOnce(AfterReq(p, q).1.rsp, q) && AfterReq(p, q).1.rsp.accepted == []
    ensures var cause := if |p| >= MAX_PENDING_STATS_RSP then ResourceUnavailable else ParamInvalid;
      forall k :: 0 <= k < |AfterReq(p, q).1.rsp.rejected| ==> AfterReq(p, q).1.rsp.rejected[k].cause == cause
  {
    if |p| >= MAX_PENDING_STATS_RSP {
      assert RejectedIds(AllRejected(q.groups, ResourceUnavailable)) == MacIds(q.groups);
    } else {
      SplitIsPartition(q.groups);
      RejectedAreUnsupported(q.groups);
    }
  }

  function ForwardedCount(run: seq<Event>): nat {
    if run == [] then 0
    else ForwardedCount(run[..|run| - 1]) + (if OutputAt(run, |run| - 1).ToSch? then 1 else 0)
  }

  /** Answers never give a place back: the list holds every request ever forwarded. */
  lemma {:induction false} PlacesAreNeverGivenBack(run: seq<Event>)
    ensures |After(run)| == ForwardedCount(run) <= MAX_PENDING_STATS_RSP
  {
    if run != [] { PlacesAreNeverGivenBack(run[..|run| - 1]); }
  }

  /** So a request is forwarded exactly when it has a valid group and fewer than five requests
      have ever been forwarded before it, answered or not. */
  lemma ForwardedExactlyWhen(run: seq<Event>, i: nat)
    requires i < |run| && run[i].Req?
    ensures OutputAt(run, i).ToSch?
      <==> ForwardedCount(run[..i]) < MAX_PENDING_STATS_RSP && !RejectsAll(run[i].q.groups)
    ensures OutputAt(run, i).ToSch? ==>
      && OutputAt(run, i).req.subscriptionId == run[i].q.subscriptionId
      && Meanings(OutputAt(run, i).req.groups) == SupportedOnes(run[i].q.groups)
  {
    ForwardedKeepMeaning(run[i].q.groups);
    PlacesAreNeverGivenBack(run[..i]);
    NoneForwarded(run[i].q.groups);
  }

  predicate RejectsAll(groups: seq<MacGroup>) {
    forall k :: 0 <= k < |groups| ==> !Supported(groups[k])
  }

  lemma {:induction false} NoneForwarded(groups: seq<MacGroup>)
    ensures Forwarded(groups) == [] <==> RejectsAll(groups)
  {
    if groups != [] {
      NoneForwarded(groups[..|groups| - 1]);
      assert RejectsAll(groups) <==> RejectsAll(groups[..|groups| - 1]) && !Supported(groups[|groups| - 1]);
      GroupKeepsMeaning(groups[|groups| - 1]);
    }
  }

  // ------------------------------------------------------------------ concrete runs

  function GoodGroup(id: nat): MacGroup {
    MacGroup(id, 0, [MacDlTotalPrbUsage])
  }

  function BadGroup(id: nat): MacGroup {
    MacGroup(id, 0, [MacOtherStat(0)])
  }

  lemma OneMore(run: seq<Event>, e: Event)
    ensures After(run + [e]) == Step(After(run), e).0
    ensures OutputAt(run + [e], |run|) == Step(After(run), e).1
  {
    assert (run + [e])[..|run|] == run && (run + [e])[|run|] == e;
    assert Step(After((run + [e])[..|run|]), (run + [e])[|run|]) == Step(After(run), e);
  }

  lemma SplitOfOne(g: MacGroup)
    ensures Forwarded([g]) == (if GroupOk(g) then [TranslateGroup(g)] else [])
    ensures RejectedAtMac([g]) == if GroupOk(g) then [] else [Rejected(g.groupId, ParamInvalid)]
  {
    assert [g][..0] == [];
  }

  /** The request for subscription 0: MAC forwards group 2 and rejects group 3. */
  const ZERO_REQ := StatsReq(0, [GoodGroup(2), BadGroup(3)])

  lemma ZeroReqSplits()
    ensures |Forwarded(ZERO_REQ.groups)| == 1 && RejectedAtMac(ZERO_REQ.groups) == [Rejected(3, ParamInvalid)]
  {
    assert !GroupOk(BadGroup(3)) by { assert Translate(BadGroup(3).stats[0]) == None; }
    assert ZERO_REQ.groups[..1] == [GoodGroup(2)];
    SplitOfOne(GoodGroup(2));
  }

  /** Subscription 5 is requested, then subscription 0, and subscription 5 is answered. */
  lemma FiveAnsweredFirst(run: seq<Event>)
    requires run == [Req(StatsReq(5, [GoodGroup(1)])), Req(ZERO_REQ), Rsp(StatsRsp(5, [1], []))]
    ensures After(run) == [EMPTY_RSP, StatsRsp(0, [], [Rejected(3, ParamInvalid)])]
  {
    FiveRequested(run[0]);
    ZeroRequested([run[0]], run[1]);
    assert run == [run[0]] + [run[1]] + [run[2]];
    OneMore([run[0]] + [run[1]], run[2]);
    FirstCompleted(StatsRsp(5, [], []), StatsRsp(0, [], [Rejected(3, ParamInvalid)]), run[2].r);
  }

  lemma FiveRequested(e: Event)
    requires e == Req(StatsReq(5, [GoodGroup(1)]))
    ensures After([e]) == [StatsRsp(5, [], [])]
  {
    assert [] + [e] == [e];
    OneMore([], e);
    SplitOfOne(GoodGroup(1));
    EntryAdded([], e.q);
  }

  lemma ZeroRequested(run: seq<Event>, e: Event)
    requires e == Req(ZERO_REQ) && After(run) == [StatsRsp(5, [], [])]
    ensures After(run + [e]) == [StatsRsp(5, [], []), StatsRsp(0, [], [Rejected(3, ParamInvalid)])]
  {
    OneMore(run, e);
    ZeroReqSplits();
    EntryAdded(After(run), ZERO_REQ);
  }

  lemma EntryAdded(p: Pending, q: StatsReq)
    requires |p| < MAX_PENDING_STATS_RSP && Forwarded(q.groups) != []
    ensures AfterReq(p, q).0 == p + [StatsRsp(q.subscriptionId, [], RejectedAtMac(q.groups))]
  {
  }

  lemma FirstCompleted(e: StatsRsp, other: StatsRsp, r: StatsRsp)
    requires r.subscriptionId == e.subscriptionId
    ensures AfterRsp([e, other], r) == ([EMPTY_RSP, other], ToDuApp(Merged(e, r)))
  {
    assert Lookup([e, other], r.subscriptionId) == 0;
    assert [e, other][0 := EMPTY_RSP] == [EMPTY_RSP, other];
  }

  /** Then the answer for subscription 0 completes the entry cleared by the first one. */
  lemma ZeroCompletesCleared(run: seq<Event>)
    requires After(run) == [EMPTY_RSP, StatsRsp(0, [], [Rejected(3, ParamInvalid)])]
    ensures OutputAt(run + [Rsp(StatsRsp(0, [2], []))], |run|) == ToDuApp(StatsRsp(0, [2], []))
  {
    OneMore(run, Rsp(StatsRsp(0, [2], [])));
    FirstCompleted(EMPTY_RSP, StatsRsp(0, [], [Rejected(3, ParamInvalid)]), StatsRsp(0, [2], []));
    MergedWithCleared(StatsRsp(0, [2], []));
  }

  lemma MergedWithCleared(r: StatsRsp)
    requires |r.accepted| <= MAX_NUM_STATS_GRP && |r.rejected| <= MAX_NUM_STATS_GRP && r.subscriptionId == 0
    ensures Merged(EMPTY_RSP, r) == r
  {
    assert [] + r.accepted == r.accepted && [] + r.rejected == r.rejected;
  }

  /** And group 3, which MAC rejected, is lost from it. */
  lemma ZeroLosesItsRejection(run: seq<Event>)
    requires run == [Req(StatsReq(5, [GoodGroup(1)])), Req(ZERO_REQ), Rsp(StatsRsp(5, [1], []))]
    ensures Answers(StatsRsp(0, [2], []), Forwarded(ZERO_REQ.groups))
    ensures OutputAt(run + [Rsp(StatsRsp(0, [2], []))], |run|) == ToDuApp(StatsRsp(0, [2], []))
    ensures !AnsweredOnce(StatsRsp(0, [2], []), ZERO_REQ)
  {
    FiveAnsweredFirst(run);
    ZeroCompletesCleared(run);
    ZeroReqSplits();
    SplitIsPartition(ZERO_REQ.groups);
    assert RejectedIds([]) == [];
    assert SchIds(Forwarded(ZERO_REQ.groups)) == [2] by { ZeroReqForwards(); }
    if AnsweredOnce(StatsRsp(0, [2], []), ZERO_REQ) { SplitSizes([2], RejectedIds([]), MacIds(ZERO_REQ.groups)); }
  }

  lemma ZeroReqForwards()
    ensures SchIds(Forwarded(ZERO_REQ.groups)) == [2]
  {
    ZeroReqSplits();
    assert ZERO_REQ.groups[..1] == [GoodGroup(2)];
    SplitOfOne(GoodGroup(2));
  }

  /** n requests, each answered before the next. */
  function Served(n: nat): seq<Event> {
    if n == 0 then [] else Served(n - 1) + [Req(StatsReq(n, [GoodGroup(1)]))] + [Rsp(StatsRsp(n, [1], []))]
  }

  function Cleared(n: nat): (r: seq<StatsRsp>)
    ensures |r| == n
  {
    seq(n, _ => EMPTY_RSP)
  }

  lemma ServeOne(p: Pending, n: nat)
    requires 0 < n <= MAX_PENDING_STATS_RSP && p == Cleared(n - 1)
    ensures AfterReq(p, StatsReq(n, [GoodGroup(1)])).0 == p + [StatsRsp(n, [], [])]
    ensures AfterRsp(p + [StatsRsp(n, [], [])], StatsRsp(n, [1], [])).0 == Cleared(n)
  {
    SplitOfOne(GoodGroup(1));
    EntryAdded(p, StatsReq(n, [GoodGroup(1)]));
    LastCompleted(p, StatsRsp(n, [], []), StatsRsp(n, [1], []));
    assert Cleared(n - 1) + [EMPTY_RSP] == Cleared(n);
  }

  lemma LastCompleted(p: seq<StatsRsp>, e: StatsRsp, r: StatsRsp)
    requires |p| < MAX_PENDING_STATS_RSP && r.subscriptionId == e.subscriptionId
    requires forall k :: 0 <= k < |p| ==> p[k].subscriptionId != e.subscriptionId
    ensures AfterRsp(p + [e], r).0 == p + [EMPTY_RSP]
  {
    assert Lookup(p + [e], r.subscriptionId) == |p|;
    assert (p + [e])[|p| := EMPTY_RSP] == p + [EMPTY_RSP];
  }

  lemma {:induction false} ServedLeaveCleared(n: nat)
    requires n <= MAX_PENDING_STATS_RSP
    ensures After(Served(n)) == Cleared(n)
  {
    if n > 0 {
      ServedLeaveCleared(n - 1);
      ServeOne(After(Served(n - 1)), n);
      OneMore(Served(n - 1), Req(StatsReq(n, [GoodGroup(1)])));
      OneMore(Served(n - 1) + [Req(StatsReq(n, [GoodGroup(1)]))], Rsp(StatsRsp(n, [1], [])));
    }
  }

  /** After five answered requests nothing is pending any more, and every further one is rejected. */
  lemma SixthIsRejected(q: StatsReq, n: nat)
    requires n == MAX_PENDING_STATS_RSP
    ensures After(Served(n)) == Cleared(n)
    ensures After(Served(n) + [Req(q)]) == After(Served(n))
    ensures OutputAt(Served(n) + [Req(q)], |Served(n)|)
      == ToDuApp(StatsRsp(q.subscriptionId, [], AllRejected(q.groups, ResourceUnavailable)))
  {
    ServedLeaveCleared(n);
    OneMore(Served(n), Req(q));
  }
}
