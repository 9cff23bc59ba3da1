/**
 Delayed freeing of the shared-memory blocks handed to the PHY: ten lists and a
 cycling slot counter, and the sender that registers every block of a message chain.
 */
module WlsRing {

  const WLS_MEM_FREE_PRD := 10

  datatype Block = Block(ptr: nat, size: nat)

  // ------------------------------------------------------- abstract state: age of each block

  /** Element a holds the blocks that have seen a completed slot indications, in order of arrival. */
  type Aged = a: seq<seq<Block>> | |a| == WLS_MEM_FREE_PRD witness seq(WLS_MEM_FREE_PRD, _ => [])

  function Fresh(): Aged {
    seq(WLS_MEM_FREE_PRD, _ => [])
  }

  function Send(a: Aged, b: Block): Aged {
    a[0 := a[0] + [b]]
  }

  /** Everyone ages by one slot; what was nine slots old is freed. */
  function Slot(a: Aged): Aged {
    [[]] + a[..WLS_MEM_FREE_PRD - 1]
  }

  // -------------------------------------------------------------------- the ring

  /** Which of the ten lists holds the blocks of a given age, when the counter is at `cntr`. */
  function ListOfAge(cntr: nat, age: nat): (idx: nat)
    requires 1 <= cntr <= WLS_MEM_FREE_PRD && age < WLS_MEM_FREE_PRD
    ensures idx < WLS_MEM_FREE_PRD
  {
    if age < cntr then cntr - 1 - age else WLS_MEM_FREE_PRD + cntr - 1 - age
  }

  class LwrMacCb {
    var phySlotIndCntr: nat
    const wlsBlockToFreeList: array<seq<Block>>
    /** The blocks given back so far, in order. */
    var wlsFreed: seq<Block>

    ghost predicate Valid()
      reads this
    {
      wlsBlockToFreeList.Length == WLS_MEM_FREE_PRD && 1 <= phySlotIndCntr <= WLS_MEM_FREE_PRD
    }

    ghost function Ages(): Aged
      requires Valid()
      reads this, wlsBlockToFreeList
    {
      seq(WLS_MEM_FREE_PRD, age requires 0 <= age < WLS_MEM_FREE_PRD reads this, wlsBlockToFreeList
        requires Valid() => wlsBlockToFreeList[ListOfAge(phySlotIndCntr, age)])
    }

    /** lwrMacLayerInit */
    constructor ()
      ensures Valid() && fresh(wlsBlockToFreeList) && Ages() == Fresh() && wlsFreed == []
    {
      phySlotIndCntr := 1;
      wlsBlockToFreeList := new seq<Block>[WLS_MEM_FREE_PRD](_ => []);
      wlsFreed := [];
    }

    method AddWlsBlockToFree(b: Block, idx: nat)
      requires Valid() && idx == phySlotIndCntr - 1
      modifies wlsBlockToFreeList
      ensures Valid() && Ages() == Send(old(Ages()), b)
    {
      wlsBlockToFreeList[idx] := wlsBlockToFreeList[idx] + [b];
    }

    method FreeWlsBlockList(idx: nat)
      requires Valid() && idx < WLS_MEM_FREE_PRD
      modifies wlsBlockToFreeList, `wlsFreed
      ensures wlsBlockToFreeList[..] == old(wlsBlockToFreeList[..])[idx := []]
      ensures wlsFreed == old(wlsFreed) + old(wlsBlockToFreeList[idx])
    {
      while wlsBlockToFreeList[idx] != []
        invariant wlsBlockToFreeList[..] == old(wlsBlockToFreeList[..])[idx := wlsBlockToFreeList[idx]]
        invariant wlsFreed + wlsBlockToFreeList[idx] == old(wlsFreed) + old(wlsBlockToFreeList[idx])
        decreases |wlsBlockToFreeList[idx]|
      {
        var block := wlsBlockToFreeList[idx][0];
        wlsFreed := wlsFreed + [block];
        wlsBlockToFreeList[idx] := wlsBlockToFreeList[idx][1..];
      }
    }

    /** The end of a completed slot indication: advance the counter and drain the list it reaches. */
    method SlotIndDone()
      requires Valid()
      modifies this`phySlotIndCntr, this`wlsFreed, wlsBlockToFreeList
      ensures Valid() && Ages() == Slot(old(Ages()))
      ensures wlsFreed == old(wlsFreed) + old(Ages())[WLS_MEM_FREE_PRD - 1]
    {
      ghost var was := wlsBlockToFreeList[..];
      phySlotIndCntr := phySlotIndCntr + 1;
      if phySlotIndCntr > WLS_MEM_FREE_PRD {
        phySlotIndCntr := 1;
      }
      FreeWlsBlockList(phySlotIndCntr - 1);
      forall age | 0 <= age < WLS_MEM_FREE_PRD ensures Ages()[age] == Slot(old(Ages()))[age] {
        if age > 0 {
          assert ListOfAge(phySlotIndCntr, age) == ListOfAge(old(phySlotIndCntr), age - 1);
        }
      }
    }

    // ------------------------------------------------------------------ the sender

    /**
     LwrMacSendToL1 for a chain linked by p_next; `accepts` tells which WLS_Put calls succeed.
     Each block is registered before it is sent; the first refusal ends the sending.
     */
    method LwrMacSendToL1(chain: seq<Block>, accepts: nat -> bool) returns (ok: bool, sent: seq<(Block, SgFlag)>)
      requires Valid()
      modifies wlsBlockToFreeList
      ensures Valid()
      ensures ok <==> chain == [] || (|chain| > 1 && Accepted(chain, accepts) == |chain|)
      ensures sent == Flagged(chain)[..if |chain| > 1 then Accepted(chain, accepts) else 0]
      ensures Ages() == SendAll(old(Ages()), Registered(chain, accepts))
    {
      sent := [];
      if chain == [] {
        assert SendAll(Ages(), []) == Ages() by { assert Ages()[0] + [] == Ages()[0]; }
        return true, sent;
      }
      AddWlsBlockToFree(chain[0], phySlotIndCntr - 1);
      if |chain| == 1 {
        SendOneMore(old(Ages()), chain, 0);
        return false, sent;
      }
      SendOneMore(old(Ages()), chain, 0);
      AcceptedAtLeast(chain, accepts, 0);
      if !accepts(0) { return false, sent; }
      sent := [Flagged(chain)[0]];
      var i := 1;
      while i < |chain|
        invariant 1 <= i <= |chain| && sent == Flagged(chain)[..i]
        invariant Ages() == SendAll(old(Ages()), chain[..i])
        invariant forall k: nat :: k < i ==> accepts(k)
      {
        AddWlsBlockToFree(chain[i], phySlotIndCntr - 1);
        SendOneMore(old(Ages()), chain, i);
        AcceptedAtLeast(chain, accepts, i);
        var flag := if i + 1 < |chain| then SgNext else SgLast;
        if !accepts(i) { return false, sent; }
        sent := sent + [(chain[i], flag)];
        i := i + 1;
      }
      assert chain[..i] == chain;
      AcceptedAtLeast(chain, accepts, |chain|);
      return true, sent;
    }

    /** n completed slot indications, without sending in between. */
    method SlotIndsDone(n: nat)
      requires Valid()
      modifies this`phySlotIndCntr, this`wlsFreed, wlsBlockToFreeList
      ensures Valid() && Ages() == Slots(old(Ages()), n)
      ensures wlsFreed == old(wlsFreed) + FreedIn(old(Ages()), n)
    {
      for done := 0 to n
        invariant Valid() && Ages() == Slots(old(Ages()), done)
        invariant wlsFreed == old(wlsFreed) + FreedIn(old(Ages()), done)
      {
        SlotIndDone();
      }
    }
  }

  datatype SgFlag = SgFirst | SgNext | SgLast

  /** How many leading WLS_Put calls succeed. */
  function Accepted(chain: seq<Block>, accepts: nat -> bool): (r: nat)
    ensures r <= |chain|
    ensures forall k: nat :: k < r ==> accepts(k)
    ensures r < |chain| ==> !accepts(r)
  {
    AcceptedFrom(|chain|, accepts, 0)
  }

  function AcceptedFrom(n: nat, accepts: nat -> bool, i: nat): (r: nat)
    requires i <= n
    ensures i <= r <= n
    ensures forall k: nat :: i <= k < r ==> accepts(k)
    ensures r < n ==> !accepts(r)
    decreases n - i
  {
    if i < n && accepts(i) then AcceptedFrom(n, accepts, i + 1) else i
  }

  lemma {:induction false} AcceptedFromAtLeast(n: nat, accepts: nat -> bool, from: nat, i: nat)
    requires from <= i <= n && forall k: nat :: k < i ==> accepts(k)
    ensures AcceptedFrom(n, accepts, from) >= i
    decreases n - from
  {
    if from < i { AcceptedFromAtLeast(n, accepts, from + 1, i); }
  }

  lemma AcceptedAtLeast(chain: seq<Block>, accepts: nat -> bool, i: nat)
    requires i <= |chain| && forall k: nat :: k < i ==> accepts(k)
    ensures Accepted(chain, accepts) >= i
    ensures i < |chain| && !accepts(i) ==> Accepted(chain, accepts) == i
  {
    AcceptedFromAtLeast(|chain|, accepts, 0, i);
  }

  /** The chain as the PHY must see it: FIRST, NEXT ..., LAST. */
  function Flagged(chain: seq<Block>): (r: seq<(Block, SgFlag)>)
    ensures |r| == |chain|
  {
    seq(|chain|, i requires 0 <= i < |chain| =>
      (chain[i], if i == 0 then SgFirst else if i + 1 < |chain| then SgNext else SgLast))
  }

  /** The blocks registered for freeing: everything sent, and the one refused. */
  function Registered(chain: seq<Block>, accepts: nat -> bool): seq<Block> {
    if |chain| <= 1 || Accepted(chain, accepts) == |chain| then chain else chain[..Accepted(chain, accepts) + 1]
  }

  function SendAll(a: Aged, blocks: seq<Block>): Aged {
    a[0 := a[0] + blocks]
  }

  lemma SendOneMore(a: Aged, chain: seq<Block>, i: nat)
    requires i < |chain|
    ensures Send(SendAll(a, chain[..i]), chain[i]) == SendAll(a, chain[..i + 1])
    ensures chain[..0] == [] && SendAll(a, chain[..0]) == a && chain[..|chain|] == chain
  {
    assert a[0] + [] == a[0];
    assert chain[..i + 1] == chain[..i] + [chain[i]];
    assert a[0] + chain[..i] + [chain[i]] == a[0] + chain[..i + 1];
  }

  // ------------------------------------------------------------------ what becomes of a chain

  /** Put k is the first refused. */
  predicate FirstRefused(n: nat, accepts: nat -> bool, k: nat) {
    k < n && !accepts(k) && forall j: nat :: j < k ==> accepts(j)
  }

  predicate AllAccepted(n: nat, accepts: nat -> bool) {
    forall j: nat :: j < n ==> accepts(j)
  }

  lemma RegisteredAre(chain: seq<Block>, accepts: nat -> bool)
    ensures |chain| == 1 || AllAccepted(|chain|, accepts) ==> Registered(chain, accepts) == chain
    ensures forall k :: 0 <= k < |chain| && |chain| > 1 && FirstRefused(|chain|, accepts, k) ==>
      Registered(chain, accepts) == chain[..k + 1]
  {
    if AllAccepted(|chain|, accepts) { AcceptedAtLeast(chain, accepts, |chain|); }
    forall k | 0 <= k < |chain| && FirstRefused(|chain|, accepts, k) ensures Accepted(chain, accepts) == k {
      AcceptedAtLeast(chain, accepts, k);
    }
  }

  /** Which blocks join the youngest generation: all of the chain when no put is refused, those up
      to and with the first refused one otherwise. A single block is registered and not sent. */
  lemma RegisteredUpToTheRefused(a: Aged, chain: seq<Block>, accepts: nat -> bool, k: nat)
    ensures SendAll(a, Registered(chain, accepts))[1..] == a[1..]
    ensures |chain| == 1 || AllAccepted(|chain|, accepts) ==> SendAll(a, Registered(chain, accepts))[0] == a[0] + chain
    ensures |chain| > 1 && FirstRefused(|chain|, accepts, k) ==>
      SendAll(a, Registered(chain, accepts))[0] == a[0] + chain[..k + 1]
  {
    RegisteredAre(chain, accepts);
  }

  /** Which blocks reach the PHY: all of the chain, or those before the first refused one. */
  lemma SentBeforeTheRefused(chain: seq<Block>, accepts: nat -> bool, k: nat)
    ensures AllAccepted(|chain|, accepts) ==> Flagged(chain)[..Accepted(chain, accepts)] == Flagged(chain)
    ensures FirstRefused(|chain|, accepts, k) ==> |Flagged(chain)[..Accepted(chain, accepts)]| == k
  {
    if AllAccepted(|chain|, accepts) { AcceptedAtLeast(chain, accepts, |chain|); }
    if FirstRefused(|chain|, accepts, k) { AcceptedAtLeast(chain, accepts, k); }
  }

  /** The blocks in order; FIRST for the first and only for it, LAST for the last and only for it. */
  lemma FlagsFrameTheChain(chain: seq<Block>, i: nat)
    requires i < |chain| && |chain| > 1
    ensures Flagged(chain)[i].0 == chain[i]
    ensures Flagged(chain)[i].1 == SgFirst <==> i == 0
    ensures Flagged(chain)[i].1 == SgLast <==> i == |chain| - 1
  {
  }

  function Slots(a: Aged, n: nat): Aged {
    if n == 0 then a else Slot(Slots(a, n - 1))
  }

  /** What n completed slot indications free. */
  function FreedIn(a: Aged, n: nat): seq<Block> {
    if n == 0 then [] else FreedIn(a, n - 1) + Slots(a, n - 1)[WLS_MEM_FREE_PRD - 1]
  }

  lemma OneOlder(a: Aged, cut: nat)
    requires cut < |a|
    ensures Held(a[cut..]) == Held(a[cut + 1..]) + a[cut]
  {
    assert a[cut..][1..] == a[cut + 1..] && a[cut..][0] == a[cut];
  }

  /** After n slot indications the n oldest generations are freed, oldest first, and n new ones are empty. */
  lemma {:induction false} SlotsFreeTheOldest(a: Aged, n: nat)
    requires n <= WLS_MEM_FREE_PRD
    ensures FreedIn(a, n) == Held(a[WLS_MEM_FREE_PRD - n..])
    ensures Slots(a, n) == seq(n, _ => []) + a[..WLS_MEM_FREE_PRD - n]
  {
    if n == 0 {
      assert a[WLS_MEM_FREE_PRD..] == [] && a[..WLS_MEM_FREE_PRD] == a;
    } else {
      SlotsFreeTheOldest(a, n - 1);
      OneOlder(a, WLS_MEM_FREE_PRD - n);
    }
  }

  /**
   The tenth completed slot indication after a chain has been handed over gives all of its
   registered blocks back, in order, after everything older; the first nine give none of them.
   */
  lemma ChainIsFreedByTheTenth(a: Aged, blocks: seq<Block>)
    ensures FreedIn(SendAll(a, blocks), WLS_MEM_FREE_PRD) == Held(a) + blocks
    ensures FreedIn(SendAll(a, blocks), WLS_MEM_FREE_PRD - 1) == Held(a[1..])
    ensures Slots(SendAll(a, blocks), WLS_MEM_FREE_PRD) == Fresh()
  {
    var sent := SendAll(a, blocks);
    SlotsFreeTheOldest(sent, WLS_MEM_FREE_PRD);
    SlotsFreeTheOldest(sent, WLS_MEM_FREE_PRD - 1);
    assert sent[0..] == sent && sent[1..] == a[1..] && sent[..0] == [];
    OneOlder(sent, 0);
    OneOlder(a, 0);
    assert a[0..] == a;
    LastOnes(Held(a[1..]), a[0], blocks);
  }

  lemma LastOnes(older: seq<Block>, young: seq<Block>, blocks: seq<Block>)
    ensures older + (young + blocks) == (older + young) + blocks
  {
  }

  // ------------------------------------------------------------------ all interleavings

  datatype Event = Sent(b: Block) | SlotDone

  /** The state after a run that starts from initialisation. */
  function After(run: seq<Event>): Aged {
    if run == [] then Fresh()
    else
      match run[|run| - 1] {
        case Sent(b) => Send(After(run[..|run| - 1]), b)
        case SlotDone => Slot(After(run[..|run| - 1]))
      }
  }

  /** What each completed slot indication frees. */
  function FreedPerSlot(run: seq<Event>): seq<seq<Block>> {
    if run == [] then []
    else
      var before := FreedPerSlot(run[..|run| - 1]);
      match run[|run| - 1] {
        case Sent(_) => before
        case SlotDone => before + [After(run[..|run| - 1])[WLS_MEM_FREE_PRD - 1]]
      }
  }

  /** The blocks sent before the first slot indication, between the first and the second, and so on. */
  function SentPerInterval(run: seq<Event>): (r: seq<seq<Block>>)
    ensures |r| >= 1
  {
    if run == [] then [[]]
    else
      var before := SentPerInterval(run[..|run| - 1]);
      match run[|run| - 1] {
        case Sent(b) => before[|before| - 1 := before[|before| - 1] + [b]]
        case SlotDone => before + [[]]
      }
  }

  /** The interval whose blocks indication n + 1 must free: the one that began ten indications earlier,
      so that the indication that ends it counts as the first of ten. */
  function Due(sent: seq<seq<Block>>, n: nat): seq<Block> {
    if WLS_MEM_FREE_PRD <= n + 1 < WLS_MEM_FREE_PRD + |sent| then sent[n + 1 - WLS_MEM_FREE_PRD] else []
  }

  /** The interval whose blocks are `age` indications old after all of the run. */
  function OfAge(sent: seq<seq<Block>>, age: nat): seq<Block> {
    if age < |sent| then sent[|sent| - 1 - age] else []
  }

  predicate Lifetimes(freed: seq<seq<Block>>, sent: seq<seq<Block>>, aged: Aged) {
    && |sent| == |freed| + 1
    && (forall n :: 0 <= n < |freed| ==> freed[n] == Due(sent, n))
    && (forall age :: 0 <= age < WLS_MEM_FREE_PRD ==> aged[age] == OfAge(sent, age))
  }

  lemma LifetimesAfterSend(freed: seq<seq<Block>>, sent: seq<seq<Block>>, aged: Aged, b: Block)
    requires Lifetimes(freed, sent, aged)
    ensures Lifetimes(freed, sent[|sent| - 1 := sent[|sent| - 1] + [b]], Send(aged, b))
  {
    assert aged[0] == OfAge(sent, 0);
  }

  lemma LifetimesAfterSlot(freed: seq<seq<Block>>, sent: seq<seq<Block>>, aged: Aged)
    requires Lifetimes(freed, sent, aged)
    ensures Lifetimes(freed + [aged[WLS_MEM_FREE_PRD - 1]], sent + [[]], Slot(aged))
  {
    assert aged[WLS_MEM_FREE_PRD - 1] == OfAge(sent, WLS_MEM_FREE_PRD - 1) == Due(sent, |freed|);
    forall age | 0 <= age < WLS_MEM_FREE_PRD ensures Slot(aged)[age] == OfAge(sent + [[]], age) {
      if age > 0 { assert aged[age - 1] == OfAge(sent, age - 1); }
    }
  }

  /**
   On every interleaving of sends and slot indications, indication n + 1 frees exactly the
   blocks sent in the interval that began ten indications earlier, in order.
   */
  lemma {:induction false} ExactLifetime(run: seq<Event>)
    ensures Lifetimes(FreedPerSlot(run), SentPerInterval(run), After(run))
    decreases |run|
  {
    if run != [] {
      var init := run[..|run| - 1];
      ExactLifetime(init);
      match run[|run| - 1] {
        case Sent(b) => LifetimesAfterSend(FreedPerSlot(init), SentPerInterval(init), After(init), b);
        case SlotDone => LifetimesAfterSlot(FreedPerSlot(init), SentPerInterval(init), After(init));
      }
    }
  }

  function Concat(lists: seq<seq<Block>>): seq<Block> {
    if lists == [] then [] else Concat(lists[..|lists| - 1]) + lists[|lists| - 1]
  }

  function AllSent(run: seq<Event>): seq<Block> {
    if run == [] then []
    else
      match run[|run| - 1] {
        case Sent(b) => AllSent(run[..|run| - 1]) + [b]
        case SlotDone => AllSent(run[..|run| - 1])
      }
  }

  /** The blocks still held, oldest first. */
  function Held(a: seq<seq<Block>>): seq<Block> {
    if a == [] then [] else Held(a[1..]) + a[0]
  }

  lemma {:induction false} HeldSnoc(a: seq<seq<Block>>, x: seq<Block>)
    ensures Held(a + [x]) == x + Held(a)
  {
    if a == [] {
      assert a + [x] == [x];
      HeldOne(x);
    } else {
      HeldSnoc(a[1..], x);
      assert (a + [x])[1..] == a[1..] + [x];
    }
  }

  lemma HeldOne(x: seq<Block>)
    ensures Held([x]) == x + Held([])
  {
    assert [x][1..] == [];
  }

  lemma ConcatSnoc(lists: seq<seq<Block>>, last: seq<Block>)
    ensures Concat(lists + [last]) == Concat(lists) + last
  {
    assert (lists + [last])[..|lists|] == lists;
  }

  lemma BalancedAfterSend(sent: seq<Block>, freed: seq<Block>, a: Aged, b: Block)
    requires sent == freed + Held(a)
    ensures sent + [b] == freed + Held(Send(a, b))
  {
    assert Send(a, b)[1..] == a[1..];
    assert Held(Send(a, b)) == Held(a) + [b];
  }

  lemma BalancedAfterSlot(sent: seq<Block>, freed: seq<Block>, a: Aged)
    requires sent == freed + Held(a)
    ensures sent == freed + a[WLS_MEM_FREE_PRD - 1] + Held(Slot(a))
  {
    var young, last := a[..WLS_MEM_FREE_PRD - 1], a[WLS_MEM_FREE_PRD - 1];
    assert a == young + [last];
    HeldSnoc(young, last);
    assert Slot(a)[1..] == young && Held(Slot(a)) == Held(young) + [];
  }

  /** No block is freed twice, lost, or freed out of order: sent = freed then held. */
  lemma {:induction false} EveryBlockFreedOnce(run: seq<Event>)
    ensures AllSent(run) == Concat(FreedPerSlot(run)) + Held(After(run))
    decreases |run|
  {
    if run == [] {
      NothingHeld(Fresh());
    } else {
      var init := run[..|run| - 1];
      EveryBlockFreedOnce(init);
      match run[|run| - 1] {
        case Sent(b) => BalancedAfterSend(AllSent(init), Concat(FreedPerSlot(init)), After(init), b);
        case SlotDone =>
          BalancedAfterSlot(AllSent(init), Concat(FreedPerSlot(init)), After(init));
          ConcatSnoc(FreedPerSlot(init), After(init)[WLS_MEM_FREE_PRD - 1]);
      }
    }
  }

  /** Handing over a chain is, in the runs above, one event for each registered block. */
  function Sends(blocks: seq<Block>): (r: seq<Event>)
    ensures |r| == |blocks|
  {
    seq(|blocks|, k requires 0 <= k < |blocks| => Sent(blocks[k]))
  }

  lemma {:induction false} ChainInARun(run: seq<Event>, blocks: seq<Block>)
    ensures After(run + Sends(blocks)) == SendAll(After(run), blocks)
    ensures AllSent(run + Sends(blocks)) == AllSent(run) + blocks
    decreases |blocks|
  {
    if blocks == [] {
      assert run + Sends(blocks) == run && After(run)[0] + [] == After(run)[0];
    } else {
      var n := |blocks| - 1;
      ChainInARun(run, blocks[..n]);
      assert (run + Sends(blocks))[..|run| + n] == run + Sends(blocks[..n]);
      SendOneMore(After(run), blocks, n);
      assert AllSent(run) + blocks[..n] + [blocks[n]] == AllSent(run) + blocks;
    }
  }

  lemma {:induction false} NothingHeld(a: seq<seq<Block>>)
    requires forall k :: 0 <= k < |a| ==> a[k] == []
    ensures Held(a) == []
  {
    if a != [] { NothingHeld(a[1..]); }
  }
}
