/**
 The PHY and cell state machine: the lower-MAC event table, the indications of the PHY and the
 start and stop calls of DU APP, over whole runs.
 */
module CellRuns {
  import opened TtiChain

  datatype PhyState = Idle | Configured | Running

  datatype LowerMacEvent =
    | ParamRequest | ParamResponse(ok: bool)
    | ConfigRequest(accepted: bool)
    | ConfigResponse(ok: bool)
    | StartRequest | StopRequest

  datatype Handler = ProcParamReq | ProcParamRsp | ProcConfigReq | ProcConfigRsp | ProcStartReq | ProcInvalid

  /** What the layers send, to the PHY and upwards. ConfigEvtNoCell is the configuration event a
      positive PARAM.response raises: its handler is called without a cell id. */
  datatype Output =
    | ConfigReqToPhy | ConfigEvtNoCell | StartReqToPhy | TtiReqsToPhy | StopReqToPhy
    | ConfigRspToMac | StopIndToMac | CellUpToDuApp | SlotIndToDuApp

  /** Calls from MAC and above, and messages from the PHY. In a slot indication `schOk` tells
      whether the scheduler took the indication. */
  datatype Event =
    | ToLowerMac(e: LowerMacEvent)
    | CellStart
    | CellStop
    | SlotInd(schOk: bool)
    | StopInd

  datatype State = State(phy: PhyState, cell: CellState, slotCount: nat)

  const INIT := State(Idle, CellUp, 0)

  // ------------------------------------------------------------------ the specification

  /** fapiEvtHdlr */
  function HandlerOf(phy: PhyState, e: LowerMacEvent): Handler {
    match (phy, e)
    case (Idle, StartRequest) => ProcInvalid
    case (Running, StartRequest) => ProcInvalid
    case (Configured, StartRequest) => ProcStartReq
    case (_, StopRequest) => ProcInvalid
    case (Running, ParamRequest) => ProcInvalid
    case (Running, ParamResponse(_)) => ProcInvalid
    case (_, ParamRequest) => ProcParamReq
    case (_, ParamResponse(_)) => ProcParamRsp
    case (_, ConfigRequest(_)) => ProcConfigReq
    case (_, ConfigResponse(_)) => ProcConfigRsp
  }

  function LowerMac(s: State, e: LowerMacEvent): (State, seq<Output>) {
    match HandlerOf(s.phy, e)
    case ProcStartReq => (s, [StartReqToPhy])
    case ProcParamRsp => (s, if e.ParamResponse? && e.ok then [ConfigEvtNoCell] else [])
    case ProcConfigReq => (s, if e.ConfigRequest? && e.accepted then [ConfigReqToPhy] else [])
    case ProcConfigRsp =>
      if e.ConfigResponse? && e.ok then (s.(phy := Configured), [ConfigRspToMac]) else (s, [])
    case _ => (s, [])
  }

  function Slot(s: State, schOk: bool): (State, seq<Output>) {
    var phy := if s.phy == Configured then Running else s.phy;
    var n := s.slotCount + 1;
    var cell := if n == 1 then CellUp else s.cell;
    if !schOk then (State(phy, cell, n), [])
    else
      var stop := phy == Running && cell == CellToBeStopped;
      (State(phy, if stop then CellStopInProgress else cell, n),
       (if phy == Running then [TtiReqsToPhy] else []) + (if stop then [StopReqToPhy] else [])
       + [if n == 1 then CellUpToDuApp else SlotIndToDuApp])
  }

  function Step(s: State, e: Event): (State, seq<Output>) {
    match e
    case ToLowerMac(l) => LowerMac(s, l)
    case CellStart => LowerMac(s.(slotCount := 0), StartRequest)
    case CellStop => (s.(cell := CellToBeStopped), [])
    case SlotInd(schOk) => Slot(s, schOk)
    case StopInd => (s.(phy := Configured), [StopIndToMac])
  }

  // ------------------------------------------------------------------ the handlers

  class LowerMacFsm {
    var phyState: PhyState
    var cellState: CellState
    var gSlotCount: nat

    ghost function Now(): State
      reads this
    {
      State(phyState, cellState, gSlotCount)
    }

    constructor ()
      ensures Now() == INIT
    {
      phyState, cellState, gSlotCount := Idle, CellUp, 0;
    }

    /** sendToLowerMac, with the handlers of the table. PARAM.request is never sent: its
        handler tests a pointer that is always null. */
    method SendToLowerMac(e: LowerMacEvent) returns (out: seq<Output>)
      modifies this
      ensures (Now(), out) == LowerMac(old(Now()), e)
    {
      out := [];
      match HandlerOf(phyState, e) {
        case ProcStartReq => out := [StartReqToPhy];
        case ProcParamRsp =>
          if e.ParamResponse? && e.ok { out := [ConfigEvtNoCell]; }
        case ProcConfigReq =>
          if e.ConfigRequest? && e.accepted { out := [ConfigReqToPhy]; }
        case ProcConfigRsp =>
          if e.ConfigResponse? && e.ok {
            phyState := Configured;
            out := [ConfigRspToMac];
          }
        case _ =>
      }
    }

    /** MacProcCellStart */
    method MacProcCellStart() returns (out: seq<Output>)
      modifies this
      ensures (Now(), out) == Step(old(Now()), CellStart)
    {
      gSlotCount := 0;
      out := SendToLowerMac(StartRequest);
    }

    /** MacProcCellStop */
    method MacProcCellStop() returns (out: seq<Output>)
      modifies this
      ensures (Now(), out) == Step(old(Now()), CellStop)
    {
      cellState := CellToBeStopped;
      out := [];
    }

    /** procStopInd */
    method ProcStopInd() returns (out: seq<Output>)
      modifies this
      ensures (Now(), out) == Step(old(Now()), StopInd)
    {
      phyState := Configured;
      out := [StopIndToMac];
    }

    /** The FAPI_SLOT_INDICATION case of procPhyMessages, through fapiMacSlotInd. */
    method ProcSlotIndication(schOk: bool) returns (out: seq<Output>)
      modifies this
      ensures (Now(), out) == Step(old(Now()), SlotInd(schOk))
    {
      if phyState == Configured {
        phyState := Running;
      }
      gSlotCount := gSlotCount + 1;
      if gSlotCount == 1 {
        cellState := CellUp;
      }
      if !schOk {
        return [];
      }
      out := TtiRequests();
      if gSlotCount == 1 {
        out := out + [CellUpToDuApp];
      } else {
        out := out + [SlotIndToDuApp];
      }
    }

    /** The state check of fillDlTtiReq, and the stop it appends to the chain. */
    method TtiRequests() returns (out: seq<Output>)
      modifies this`cellState
      ensures var stop := phyState == Running && old(cellState) == CellToBeStopped;
        && cellState == (if stop then CellStopInProgress else old(cellState))
        && out == (if phyState == Running then [TtiReqsToPhy] else []) + (if stop then [StopReqToPhy] else [])
    {
      out := [];
      if phyState == Running {
        out := [TtiReqsToPhy];
        if cellState == CellToBeStopped {
          out := out + [StopReqToPhy];
          cellState := CellStopInProgress;
        }
      }
    }
  }

  // ------------------------------------------------------------------ runs

  function After(run: seq<Event>): State {
    if run == [] then INIT else Step(After(run[..|run| - 1]), run[|run| - 1]).0
  }

  function OutAt(run: seq<Event>, i: nat): seq<Output>
    requires i < |run|
  {
    Step(After(run[..i]), run[i]).1
  }

  /** The events that configure the PHY: a positive CONFIG.response, or a STOP.indication. */
  predicate Configures(e: Event) {
    e == StopInd || e == ToLowerMac(ConfigResponse(true))
  }

  /** What the history says about the PHY. */
  predicate EverConfigured(run: seq<Event>) {
    exists i :: 0 <= i < |run| && Configures(run[i])
  }

  /** A slot indication after the last configuration. */
  predicate SlotSinceConfigured(run: seq<Event>) {
    exists i :: 0 <= i < |run| && run[i].SlotInd? && EverConfigured(run[..i])
                && forall j :: i <= j < |run| ==> !Configures(run[j])
  }

  /** The PHY is IDLE until it is first configured, and RUNNING exactly when a slot indication
      has followed the last configuration. */
  lemma {:induction false} PhyByHistory(run: seq<Event>)
    ensures After(run).phy == Idle <==> !EverConfigured(run)
    ensures After(run).phy == Running <==> SlotSinceConfigured(run)
  {
    if run != [] {
      var init, e := run[..|run| - 1], run[|run| - 1];
      PhyByHistory(init);
      EverSnoc(init, e);
      SinceSnoc(init, e);
      assert run == init + [e];
      PhyStep(After(init), e);
    }
  }

  lemma PhyStep(s: State, e: Event)
    ensures Step(s, e).0.phy ==
      if Configures(e) then Configured
      else if e.SlotInd? && s.phy != Idle then Running
      else s.phy
  {
  }

  lemma EverSnoc(run: seq<Event>, e: Event)
    ensures EverConfigured(run + [e]) <==> EverConfigured(run) || Configures(e)
  {
    if EverConfigured(run) {
      var i :| 0 <= i < |run| && Configures(run[i]);
      assert (run + [e])[i] == run[i];
    }
    if Configures(e) { assert (run + [e])[|run|] == e; }
  }

  lemma SinceSnoc(run: seq<Event>, e: Event)
    ensures SlotSinceConfigured(run + [e])
      <==> !Configures(e) && (SlotSinceConfigured(run) || (e.SlotInd? && EverConfigured(run)))
  {
    var all := run + [e];
    assert all[|run|] == e && all[..|run|] == run;
    if SlotSinceConfigured(all) {
      var i :| 0 <= i < |all| && all[i].SlotInd? && EverConfigured(all[..i])
               && forall j :: i <= j < |all| ==> !Configures(all[j]);
      if i < |run| { SincePrefix(run, e, i); }
    }
    if SlotSinceConfigured(run) && !Configures(e) {
      var i :| 0 <= i < |run| && run[i].SlotInd? && EverConfigured(run[..i])
               && forall j :: i <= j < |run| ==> !Configures(run[j]);
      assert all[i].SlotInd? && all[..i] == run[..i];
    }
  }

  lemma SincePrefix(run: seq<Event>, e: Event, i: nat)
    requires i < |run| && run[i].SlotInd? && EverConfigured((run + [e])[..i])
    requires forall j :: i <= j < |run| + 1 ==> !Configures((run + [e])[j])
    ensures SlotSinceConfigured(run)
  {
    assert (run + [e])[..i] == run[..i];
    forall j | i <= j < |run| ensures !Configures(run[j]) {
      assert (run + [e])[j] == run[j];
    }
  }

  /** RUNNING is entered only from CONFIGURED, by the first slot indication after a configuration. */
  lemma RunningOnlyFromConfigured(run: seq<Event>, i: nat)
    requires i < |run|
    ensures After(run[..i]).phy != Running && After(run[..i + 1]).phy == Running
      <==> After(run[..i]).phy == Configured && run[i].SlotInd?
    ensures After(run[..i]).phy != Running && After(run[..i + 1]).phy == Running
      <==> run[i].SlotInd? && EverConfigured(run[..i]) && !SlotSinceConfigured(run[..i])
  {
    PhyByHistory(run[..i]);
    assert run[..i + 1][..i] == run[..i];
    PhyStep(After(run[..i]), run[i]);
  }

  /** START.request is sent for a start call (or event) in CONFIGURED, TTI requests in RUNNING. */
  lemma RequestsFitTheState(run: seq<Event>, i: nat)
    requires i < |run|
    ensures StartReqToPhy in OutAt(run, i)
      <==> (run[i] == CellStart || run[i] == ToLowerMac(StartRequest)) && After(run[..i]).phy == Configured
    ensures TtiReqsToPhy in OutAt(run, i) <==> run[i] == SlotInd(true) && EverConfigured(run[..i])
    ensures TtiReqsToPhy in OutAt(run, i) ==> After(run[..i + 1]).phy == Running
    ensures StopReqToPhy in OutAt(run, i) ==> TtiReqsToPhy in OutAt(run, i)
  {
    PhyByHistory(run[..i]);
    assert run[..i + 1][..i] == run[..i];
  }

  // ------------------------------------------------------------------ stops

  function StopCalls(run: seq<Event>): nat {
    if run == [] then 0 else StopCalls(run[..|run| - 1]) + (if run[|run| - 1] == CellStop then 1 else 0)
  }

  function StopReqs(run: seq<Event>): nat {
    if run == [] then 0
    else StopReqs(run[..|run| - 1]) + multiset(OutAt(run, |run| - 1))[StopReqToPhy]
  }

  lemma StopStep(s: State, e: Event)
    ensures multiset(Step(s, e).1)[StopReqToPhy]
      == if e == SlotInd(true) && s.phy != Idle && s.cell == CellToBeStopped && s.slotCount > 0 then 1 else 0
  {
  }

  lemma WaitStep(s: State, e: Event)
    ensures Step(s, e).0.cell == CellToBeStopped
      <==> e == CellStop
           || (s.cell == CellToBeStopped && (e.SlotInd? ==> s.slotCount > 0 && (s.phy == Idle || !e.schOk)))
  {
  }

  /** STOP.requests never outnumber cell-stop calls; a call that waits is one not yet answered. */
  lemma {:induction false} StopsAreAskedFor(run: seq<Event>)
    ensures StopReqs(run) + (if After(run).cell == CellToBeStopped then 1 else 0) <= StopCalls(run)
  {
    if run != [] {
      StopsAreAskedFor(run[..|run| - 1]);
      StopStep(After(run[..|run| - 1]), run[|run| - 1]);
      WaitStep(After(run[..|run| - 1]), run[|run| - 1]);
    }
  }

  /** Slot indications since the last start call, or since the beginning. */
  function SlotsSinceStart(run: seq<Event>): nat {
    if run == [] || run[|run| - 1] == CellStart then 0
    else SlotsSinceStart(run[..|run| - 1]) + (if run[|run| - 1].SlotInd? then 1 else 0)
  }

  lemma {:induction false} SlotCountIsSlotsSinceStart(run: seq<Event>)
    ensures After(run).slotCount == SlotsSinceStart(run)
  {
    if run != [] { SlotCountIsSlotsSinceStart(run[..|run| - 1]); }
  }

  /** No slot indication from event i + 1 to n - 1 was the first of a start. */
  predicate NoFirstSlot(run: seq<Event>, i: nat, n: nat)
    requires n <= |run|
  {
    forall k :: i < k < n && run[k].SlotInd? ==> SlotsSinceStart(run[..k]) > 0
  }

  lemma NoFirstSlotSnoc(run: seq<Event>, i: nat, n: nat)
    requires i + 1 < n <= |run|
    ensures NoFirstSlot(run, i, n) <==>
      NoFirstSlot(run, i, n - 1) && (run[n - 1].SlotInd? ==> SlotsSinceStart(run[..n - 1]) > 0)
  {
  }

  /** Until TTI requests are sent, the last stop call waits exactly as long as no slot indication
      is the first of a start. */
  lemma {:induction false} StopWaits(run: seq<Event>, i: nat, n: nat)
    requires i < n <= |run| && run[i] == CellStop
    requires forall k :: i < k < n ==> run[k] != CellStop && TtiReqsToPhy !in OutAt(run, k)
    ensures After(run[..n]).cell == CellToBeStopped <==> NoFirstSlot(run, i, n)
    decreases n
  {
    assert run[..n][..n - 1] == run[..n - 1];
    if n > i + 1 {
      StopWaits(run, i, n - 1);
      NoFirstSlotSnoc(run, i, n);
      SlotCountIsSlotsSinceStart(run[..n - 1]);
      WaitStep(After(run[..n - 1]), run[n - 1]);
      TtiStep(After(run[..n - 1]), run[n - 1]);
      assert run[n - 1] != CellStop && TtiReqsToPhy !in OutAt(run, n - 1);
    }
  }

  lemma TtiStep(s: State, e: Event)
    ensures TtiReqsToPhy in Step(s, e).1 <==> e == SlotInd(true) && s.phy != Idle
  {
  }

  /**
   The first TTI requests after a stop call come with STOP.request, exactly when no slot
   indication since the call, taken by the scheduler or not, was the first of a start: that one
   puts the cell up again and the stop is lost. Until then the stop waits.
   */
  lemma StopIsHonouredExactlyWhen(run: seq<Event>, i: nat, j: nat)
    requires i < j < |run| && run[i] == CellStop && TtiReqsToPhy in OutAt(run, j)
    requires forall k :: i < k < j ==> run[k] != CellStop && TtiReqsToPhy !in OutAt(run, k)
    ensures StopReqToPhy in OutAt(run, j) <==> NoFirstSlot(run, i, j + 1)
  {
    StopWaits(run, i, j);
    NoFirstSlotSnoc(run, i, j + 1);
    SlotCountIsSlotsSinceStart(run[..j]);
    StopStep(After(run[..j]), run[j]);
    TtiStep(After(run[..j]), run[j]);
  }

  /** A PHY is configured, the cell is started and stopped, and n slots follow. */
  function EarlyStop(n: nat): (r: seq<Event>)
    ensures |r| == 3 + n
  {
    if n == 0 then [ToLowerMac(ConfigResponse(true)), CellStart, CellStop] else EarlyStop(n - 1) + [SlotInd(true)]
  }

  /** That stop is never sent, however many slots follow. */
  lemma {:induction false} EarlyStopIsLost(n: nat)
    ensures StopCalls(EarlyStop(n)) == 1 && StopReqs(EarlyStop(n)) == 0
    ensures n > 0 ==> After(EarlyStop(n)).phy == Running && After(EarlyStop(n)).cell == CellUp
    ensures After(EarlyStop(n)).slotCount == n && After(EarlyStop(n)).phy != Idle
  {
    if n == 0 {
      EarlyStopBegins();
    } else {
      EarlyStopIsLost(n - 1);
      assert EarlyStop(n)[..|EarlyStop(n)| - 1] == EarlyStop(n - 1);
      assert EarlyStop(n)[|EarlyStop(n)| - 1] == SlotInd(true);
      StopStep(After(EarlyStop(n - 1)), SlotInd(true));
    }
  }

  lemma EarlyStopBegins()
    ensures After(EarlyStop(0)) == State(Configured, CellToBeStopped, 0)
    ensures StopCalls(EarlyStop(0)) == 1 && StopReqs(EarlyStop(0)) == 0
  {
    var a, b, c: Event := ToLowerMac(ConfigResponse(true)), CellStart, CellStop;
    assert [] + [a] == [a] && [a] + [b] == [a, b] && [a, b] + [c] == EarlyStop(0);
    OneMore([], a);
    OneMore([a], b);
    OneMore([a, b], c);
    NoSlotNoStop(EarlyStop(0));
  }

  lemma OneMore(run: seq<Event>, e: Event)
    ensures After(run + [e]) == Step(After(run), e).0
    ensures StopCalls(run + [e]) == StopCalls(run) + (if e == CellStop then 1 else 0)
  {
    assert (run + [e])[..|run|] == run;
  }

  lemma {:induction false} NoSlotNoStop(run: seq<Event>)
    requires forall k :: 0 <= k < |run| ==> !run[k].SlotInd?
    ensures StopReqs(run) == 0
  {
    if run != [] {
      NoSlotNoStop(run[..|run| - 1]);
      StopStep(After(run[..|run| - 1]), run[|run| - 1]);
    }
  }

  // ------------------------------------------------------------------ cell up

  /** DU APP gets a Cell-Up for the first slot since a start, and a Slot-Ind for every other. */
  lemma CellUpForFirstSlot(run: seq<Event>, i: nat)
    requires i < |run|
    ensures CellUpToDuApp in OutAt(run, i) <==> run[i] == SlotInd(true) && SlotsSinceStart(run[..i]) == 0
    ensures SlotIndToDuApp in OutAt(run, i) <==> run[i] == SlotInd(true) && SlotsSinceStart(run[..i]) > 0
    ensures |OutAt(run, i)| <= 3 && multiset(OutAt(run, i))[CellUpToDuApp] <= 1
  {
    SlotCountIsSlotsSinceStart(run[..i]);
  }

  lemma {:induction false} SlotCounted(run: seq<Event>, i: nat, n: nat)
    requires i < n <= |run| && run[i].SlotInd? && forall k :: i < k < n ==> run[k] != CellStart
    ensures SlotsSinceStart(run[..n]) > 0
    decreases n
  {
    assert run[..n][..n - 1] == run[..n - 1];
    if n > i + 1 { SlotCounted(run, i, n - 1); }
  }

  /** Each start gives DU APP at most one Cell-Up, and none after a Slot-Ind of that start. */
  lemma CellUpComesFirstAndOnce(run: seq<Event>, i: nat, j: nat)
    requires i < j < |run| && CellUpToDuApp in OutAt(run, j) && forall k :: i < k < j ==> run[k] != CellStart
    ensures CellUpToDuApp !in OutAt(run, i) && SlotIndToDuApp !in OutAt(run, i)
  {
    CellUpForFirstSlot(run, i);
    CellUpForFirstSlot(run, j);
    if run[i].SlotInd? { SlotCounted(run, i, j); }
  }

  // ------------------------------------------------------------------ every output, by history

  /** A stop call at i has been neither carried out nor overwritten since. */
  predicate StopWaitsFrom(run: seq<Event>, i: int) {
    && 0 <= i < |run| && run[i] == CellStop && NoFirstSlot(run, i, |run|)
    && forall k :: i < k < |run| ==> !(run[k] == SlotInd(true) && EverConfigured(run[..k]))
  }

  predicate StopStillWaits(run: seq<Event>) {
    exists i :: 0 <= i < |run| && StopWaitsFrom(run, i)
  }

  /** The event lets a waiting stop wait on. */
  predicate LetsWait(run: seq<Event>, e: Event) {
    e.SlotInd? ==> SlotsSinceStart(run) > 0 && !(e.schOk && EverConfigured(run))
  }

  lemma WaitsFromSnoc(run: seq<Event>, e: Event, i: nat)
    requires i < |run|
    ensures StopWaitsFrom(run + [e], i) <==> StopWaitsFrom(run, i) && LetsWait(run, e)
  {
    var all := run + [e];
    assert all[..|run|] == run && all[|run|] == e;
    assert forall k :: 0 <= k < |run| ==> all[k] == run[k] && all[..k] == run[..k];
    if StopWaitsFrom(all, i) {
      assert LetsWait(run, e);
      forall k | i < k < |run| ensures !(run[k] == SlotInd(true) && EverConfigured(run[..k])) {
        assert !(all[k] == SlotInd(true) && EverConfigured(all[..k]));
      }
      forall k | i < k < |run| && run[k].SlotInd? ensures SlotsSinceStart(run[..k]) > 0 {
        assert SlotsSinceStart(all[..k]) > 0;
      }
    }
  }

  lemma StillWaitsSnoc(run: seq<Event>, e: Event)
    ensures StopStillWaits(run + [e]) <==> e == CellStop || (StopStillWaits(run) && LetsWait(run, e))
  {
    var all := run + [e];
    if e == CellStop { assert StopWaitsFrom(all, |run|); }
    if i :| 0 <= i < |all| && StopWaitsFrom(all, i) && i < |run| { WaitsFromSnoc(run, e, i); }
    if i :| 0 <= i < |run| && StopWaitsFrom(run, i) && LetsWait(run, e) { WaitsFromSnoc(run, e, i); }
  }

  /** The cell is to be stopped exactly while a stop call waits. */
  lemma {:induction false} StopWaitsByHistory(run: seq<Event>)
    ensures After(run).cell == CellToBeStopped <==> StopStillWaits(run)
  {
    if run != [] {
      var init, e := run[..|run| - 1], run[|run| - 1];
      StopWaitsByHistory(init);
      StillWaitsSnoc(init, e);
      WaitStep(After(init), e);
      PhyByHistory(init);
      SlotCountIsSlotsSinceStart(init);
      assert run == init + [e];
    }
  }

  /** What event i makes the layers send, said by the events before it. */
  predicate Sends(run: seq<Event>, i: nat, o: Output)
    requires i < |run|
  {
    var before := run[..i];
    match o
    case ConfigReqToPhy => run[i] == ToLowerMac(ConfigRequest(true))
    case ConfigEvtNoCell => run[i] == ToLowerMac(ParamResponse(true)) && !SlotSinceConfigured(before)
    case StartReqToPhy =>
      && (run[i] == CellStart || run[i] == ToLowerMac(StartRequest))
      && EverConfigured(before) && !SlotSinceConfigured(before)
    case TtiReqsToPhy => run[i] == SlotInd(true) && EverConfigured(before)
    case StopReqToPhy =>
      run[i] == SlotInd(true) && EverConfigured(before) && StopStillWaits(before) && SlotsSinceStart(before) > 0
    case ConfigRspToMac => run[i] == ToLowerMac(ConfigResponse(true))
    case StopIndToMac => run[i] == StopInd
    case CellUpToDuApp => run[i] == SlotInd(true) && SlotsSinceStart(before) == 0
    case SlotIndToDuApp => run[i] == SlotInd(true) && SlotsSinceStart(before) > 0
  }

  lemma SlotOutputs(s: State, schOk: bool, o: Output)
    ensures var stop := schOk && s.phy != Idle && s.cell == CellToBeStopped && s.slotCount > 0;
      multiset(Step(s, SlotInd(schOk)).1)[o] == match o {
        case TtiReqsToPhy => if schOk && s.phy != Idle then 1 else 0
        case StopReqToPhy => if stop then 1 else 0
        case CellUpToDuApp => if schOk && s.slotCount == 0 then 1 else 0
        case SlotIndToDuApp => if schOk && s.slotCount > 0 then 1 else 0
        case _ => 0
      }
  {
  }

  lemma TableOutputs(s: State, l: LowerMacEvent, o: Output)
    ensures multiset(LowerMac(s, l).1)[o] == match o {
        case ConfigReqToPhy => if l == ConfigRequest(true) then 1 else 0
        case ConfigEvtNoCell => if l == ParamResponse(true) && s.phy != Running then 1 else 0
        case StartReqToPhy => if l == StartRequest && s.phy == Configured then 1 else 0
        case ConfigRspToMac => if l == ConfigResponse(true) then 1 else 0
        case _ => 0
      }
  {
  }

  lemma OtherOutputs(s: State, e: Event, o: Output)
    requires !e.SlotInd? && !e.ToLowerMac?
    ensures multiset(Step(s, e).1)[o] == match o {
        case StartReqToPhy => if e == CellStart && s.phy == Configured then 1 else 0
        case StopIndToMac => if e == StopInd then 1 else 0
        case _ => 0
      }
  {
  }

  /** Over every run, each event sends exactly the requests and notices its history calls for, to
      the PHY and upwards, each once. */
  lemma OutputsByHistory(run: seq<Event>, i: nat, o: Output)
    requires i < |run|
    ensures multiset(OutAt(run, i))[o] == if Sends(run, i, o) then 1 else 0
  {
    var s := After(run[..i]);
    PhyByHistory(run[..i]);
    StopWaitsByHistory(run[..i]);
    SlotCountIsSlotsSinceStart(run[..i]);
    match run[i]
    case ToLowerMac(l) => TableOutputs(s, l, o);
    case SlotInd(schOk) => SlotOutputs(s, schOk, o);
    case _ => OtherOutputs(s, run[i], o);
  }

  /** The TTI requests go first, a STOP.request with them, the notice to DU APP last. */
  lemma SlotOutputsInOrder(run: seq<Event>, i: nat)
    requires i < |run|
    ensures var out := OutAt(run, i);
      && (TtiReqsToPhy in out ==> out[0] == TtiReqsToPhy) && (StopReqToPhy in out ==> out[1] == StopReqToPhy)
      && (run[i] == SlotInd(true) ==> out[|out| - 1] in {CellUpToDuApp, SlotIndToDuApp})
  {
  }

  /** A STOP.request at i, and since then no stop call and no first slot of a start. */
  predicate StopRunsFrom(run: seq<Event>, i: int) {
    && 0 <= i < |run| && StopReqToPhy in OutAt(run, i)
    && forall k :: i < k < |run| ==> run[k] != CellStop && (run[k].SlotInd? ==> SlotsSinceStart(run[..k]) > 0)
  }

  predicate StopStillRuns(run: seq<Event>) {
    exists i :: 0 <= i < |run| && StopRunsFrom(run, i)
  }

  /** The event leaves a stop in progress as it is. */
  predicate LetsRun(run: seq<Event>, e: Event) {
    e != CellStop && (e.SlotInd? ==> SlotsSinceStart(run) > 0)
  }

  lemma RunsFromSnoc(run: seq<Event>, e: Event, i: nat)
    requires i < |run|
    ensures StopRunsFrom(run + [e], i) <==> StopRunsFrom(run, i) && LetsRun(run, e)
  {
    var all := run + [e];
    assert all[..|run|] == run && all[|run|] == e;
    assert forall k :: 0 <= k < |run| ==> all[k] == run[k] && all[..k] == run[..k];
    assert OutAt(all, i) == OutAt(run, i);
    if StopRunsFrom(all, i) {
      forall k | i < k < |run| ensures run[k] != CellStop && (run[k].SlotInd? ==> SlotsSinceStart(run[..k]) > 0) {
        assert all[k] != CellStop && (all[k].SlotInd? ==> SlotsSinceStart(all[..k]) > 0);
      }
    }
  }

  lemma StillRunsSnoc(run: seq<Event>, e: Event)
    ensures StopStillRuns(run + [e]) <==>
      StopReqToPhy in OutAt(run + [e], |run|) || (StopStillRuns(run) && LetsRun(run, e))
  {
    var all := run + [e];
    if StopReqToPhy in OutAt(all, |run|) { assert StopRunsFrom(all, |run|); }
    if i :| 0 <= i < |all| && StopRunsFrom(all, i) && i < |run| { RunsFromSnoc(run, e, i); }
    if i :| 0 <= i < |run| && StopRunsFrom(run, i) && LetsRun(run, e) { RunsFromSnoc(run, e, i); }
  }

  lemma StopRunsStep(s: State, e: Event)
    ensures Step(s, e).0.cell == CellStopInProgress <==>
      || StopReqToPhy in Step(s, e).1
      || (s.cell == CellStopInProgress && e != CellStop && (e.SlotInd? ==> s.slotCount > 0))
  {
  }

  /** A stop is in progress exactly from its STOP.request until the next stop call or the first slot
      of a start. With StopWaitsByHistory this is the cell state over all runs. */
  lemma {:induction false} StopRunsByHistory(run: seq<Event>)
    ensures After(run).cell == CellStopInProgress <==> StopStillRuns(run)
  {
    if run != [] {
      var init, e := run[..|run| - 1], run[|run| - 1];
      StopRunsByHistory(init);
      StillRunsSnoc(init, e);
      StopRunsStep(After(init), e);
      SlotCountIsSlotsSinceStart(init);
      assert run == init + [e] && run[..|init|] == init;
    }
  }
}
