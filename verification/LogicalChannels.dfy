/**
 The logical-channel lists of a UE: two arrays changed in step by UE creation and reconfiguration.
 */
module LogicalChannels {
  import opened Common

  const MAX_NUM_LC := 33

  datatype UlLcCb = UlLcCb(lcId: nat, lcGrpId: nat, active: bool)
  datatype DlLcCb = DlLcCb(lcId: nat, active: bool)

  const NO_UL_LC := UlLcCb(0, 0, false)
  const NO_DL_LC := DlLcCb(0, false)

  datatype LcCfg = LcCfg(lcId: nat, lcGroup: nat)

  datatype Recfg = Recfg(add: seq<LcCfg>, del: seq<nat>, mod: seq<LcCfg>)

  // ------------------------------------------------------------------ the lists as sequences

  datatype Lists = Lists(ul: seq<UlLcCb>, dl: seq<DlLcCb>)

  /** Both lists hold the same channels, all active, and fit. */
  predicate Synced(l: Lists) {
    && |l.ul| == |l.dl| <= MAX_NUM_LC
    && forall k :: 0 <= k < |l.ul| ==> l.ul[k].lcId == l.dl[k].lcId && l.ul[k].active && l.dl[k].active
  }

  function UlIds(ul: seq<UlLcCb>): (r: seq<nat>)
    ensures |r| == |ul|
  {
    seq(|ul|, k requires 0 <= k < |ul| => ul[k].lcId)
  }

  function DlIds(dl: seq<DlLcCb>): (r: seq<nat>)
    ensures |r| == |dl|
  {
    seq(|dl|, k requires 0 <= k < |dl| => dl[k].lcId)
  }

  function Ids(l: Lists): seq<nat> {
    DlIds(l.dl)
  }

  /** The first place of an id; the length when it is not there. */
  function Find(ids: seq<nat>, id: nat): (k: nat)
    ensures k <= |ids|
    ensures k < |ids| ==> ids[k] == id
    ensures forall j :: 0 <= j < k ==> ids[j] != id
  {
    if ids == [] then 0
    else
      var k := Find(ids[..|ids| - 1], id);
      if k < |ids| - 1 || ids[k] == id then k else |ids|
  }

  function Without<T>(s: seq<T>, k: nat): seq<T> {
    if k < |s| then s[..k] + s[k + 1..] else s
  }

  predicate Full(l: Lists) {
    |l.dl| >= MAX_NUM_LC
  }

  function Add(l: Lists, c: LcCfg): Lists {
    if Full(l) then l
    else Lists(l.ul + [UlLcCb(c.lcId, c.lcGroup, true)], l.dl + [DlLcCb(c.lcId, true)])
  }

  function UlDelete(ul: seq<UlLcCb>, id: nat): seq<UlLcCb> {
    if id == MAX_NUM_LC then ul else Without(ul, Find(UlIds(ul), id))
  }

  function DlDelete(dl: seq<DlLcCb>, id: nat): seq<DlLcCb> {
    if id == MAX_NUM_LC then dl else Without(dl, Find(DlIds(dl), id))
  }

  function UlModify(ul: seq<UlLcCb>, c: LcCfg): (r: seq<UlLcCb>)
    ensures |r| == |ul|
  {
    var k := Find(UlIds(ul), c.lcId);
    if k < |ul| then ul[k := ul[k].(lcGrpId := c.lcGroup)] else ul
  }

  function Delete(l: Lists, id: nat): Lists {
    Lists(UlDelete(l.ul, id), DlDelete(l.dl, id))
  }

  function Modify(l: Lists, c: LcCfg): Lists {
    l.(ul := UlModify(l.ul, c))
  }

  function AddAll(l: Lists, cs: seq<LcCfg>): Lists {
    if cs == [] then l else Add(AddAll(l, cs[..|cs| - 1]), cs[|cs| - 1])
  }

  /** Deletes and modifications ask before each step whether the list is full. */
  function DeleteAll(l: Lists, ids: seq<nat>): Lists {
    if ids == [] then l
    else
      var before := DeleteAll(l, ids[..|ids| - 1]);
      if Full(before) then before else Delete(before, ids[|ids| - 1])
  }

  function ModifyAll(l: Lists, cs: seq<LcCfg>): Lists {
    if cs == [] then l
    else
      var before := ModifyAll(l, cs[..|cs| - 1]);
      if Full(before) then before else Modify(before, cs[|cs| - 1])
  }

  function Reconfigured(l: Lists, r: Recfg): Lists {
    ModifyAll(DeleteAll(AddAll(l, r.add), r.del), r.mod)
  }

  // ------------------------------------------------------------------ the arrays

  /** updateMacUlCb and updateMacDlCb: close the gap a deleted entry leaves. */
  method CloseGap<T>(lcCb: array<T>, delIdx: nat, num: nat, zero: T)
    requires delIdx <= num < lcCb.Length && lcCb[delIdx] == zero
    modifies lcCb
    ensures forall k :: 0 <= k < delIdx || num < k < lcCb.Length ==> lcCb[k] == old(lcCb[k])
    ensures forall k :: delIdx <= k < num ==> lcCb[k] == old(lcCb[k + 1])
    ensures lcCb[num] == zero
  {
    for lcIdx := delIdx to num
      invariant forall k :: 0 <= k < delIdx || lcIdx < k < lcCb.Length ==> lcCb[k] == old(lcCb[k])
      invariant forall k :: delIdx <= k < lcIdx ==> lcCb[k] == old(lcCb[k + 1])
      invariant lcCb[lcIdx] == zero
    {
      lcCb[lcIdx] := lcCb[lcIdx + 1];
      lcCb[lcIdx + 1] := zero;
    }
  }

  lemma GapClosed<T>(before: seq<T>, after: seq<T>, k: nat)
    requires k < |before| == |after| + 1
    requires forall j :: 0 <= j < k ==> after[j] == before[j]
    requires forall j :: k <= j < |after| ==> after[j] == before[j + 1]
    ensures after == Without(before, k)
  {
  }

  class MacUeCb {
    const ulLcCb: array<UlLcCb>
    const dlLcCb: array<DlLcCb>
    var numUlLc: nat
    var numDlLc: nat

    ghost predicate UlValid()
      reads this, ulLcCb
    {
      && numUlLc <= ulLcCb.Length == MAX_NUM_LC
      && forall k :: numUlLc <= k < ulLcCb.Length ==> ulLcCb[k] == NO_UL_LC
    }

    ghost predicate DlValid()
      reads this, dlLcCb
    {
      && numDlLc <= dlLcCb.Length == MAX_NUM_LC
      && forall k :: numDlLc <= k < dlLcCb.Length ==> dlLcCb[k] == NO_DL_LC
    }

    /** Counts fit, and everything behind them is zeroed. */
    ghost predicate Valid()
      reads this, ulLcCb, dlLcCb
    {
      UlValid() && DlValid()
    }

    ghost function State(): Lists
      requires Valid()
      reads this, ulLcCb, dlLcCb
    {
      Lists(ulLcCb[..numUlLc], dlLcCb[..numDlLc])
    }

    constructor ()
      ensures Valid() && State() == Lists([], []) && fresh(ulLcCb) && fresh(dlLcCb)
    {
      ulLcCb := new UlLcCb[MAX_NUM_LC](_ => NO_UL_LC);
      dlLcCb := new DlLcCb[MAX_NUM_LC](_ => NO_DL_LC);
      numUlLc, numDlLc := 0, 0;
    }

    /** updateMacUlLcCtxt: `c` for a modification, `lcIdToDel` for a deletion. */
    method UpdateMacUlLcCtxt(c: Option<LcCfg>, lcIdToDel: nat)
      requires UlValid() && (c.Some? ==> lcIdToDel == MAX_NUM_LC)
      modifies this`numUlLc, ulLcCb
      ensures UlValid() && ulLcCb[..numUlLc] ==
        if c.Some? then UlModify(old(ulLcCb[..numUlLc]), c.value) else UlDelete(old(ulLcCb[..numUlLc]), lcIdToDel)
    {
      ghost var ul := ulLcCb[..numUlLc];
      ghost var hit := Find(UlIds(ul), if c.Some? then c.value.lcId else lcIdToDel);
      for ueLcIdx := 0 to numUlLc
        invariant numUlLc == |ul| && ulLcCb[..numUlLc] == ul && UlValid()
        invariant c.Some? || lcIdToDel != MAX_NUM_LC ==> ueLcIdx <= hit
      {
        assert UlIds(ul)[ueLcIdx] == ulLcCb[ueLcIdx].lcId;
        if c.Some? && ulLcCb[ueLcIdx].lcId == c.value.lcId {
          ulLcCb[ueLcIdx] := ulLcCb[ueLcIdx].(lcGrpId := c.value.lcGroup);
          return;
        } else if lcIdToDel != MAX_NUM_LC && ulLcCb[ueLcIdx].lcId == lcIdToDel {
          ulLcCb[ueLcIdx] := NO_UL_LC;
          numUlLc := numUlLc - 1;
          CloseGap(ulLcCb, ueLcIdx, numUlLc, NO_UL_LC);
          GapClosed(ul, ulLcCb[..numUlLc], ueLcIdx);
          return;
        }
      }
    }

    /** updateMacDlLcCtxt: the downlink keeps nothing a modification could change. */
    method UpdateMacDlLcCtxt(c: Option<LcCfg>, lcIdToDel: nat)
      requires DlValid() && (c.Some? ==> lcIdToDel == MAX_NUM_LC)
      modifies this`numDlLc, dlLcCb
      ensures DlValid() && dlLcCb[..numDlLc] ==
        if c.Some? then old(dlLcCb[..numDlLc]) else DlDelete(old(dlLcCb[..numDlLc]), lcIdToDel)
    {
      ghost var dl := dlLcCb[..numDlLc];
      ghost var hit := Find(DlIds(dl), lcIdToDel);
      for ueLcIdx := 0 to numDlLc
        invariant numDlLc == |dl| && dlLcCb[..numDlLc] == dl && DlValid()
        invariant c.None? && lcIdToDel != MAX_NUM_LC ==> ueLcIdx <= hit
      {
        assert DlIds(dl)[ueLcIdx] == dlLcCb[ueLcIdx].lcId;
        if c.Some? && dlLcCb[ueLcIdx].lcId == c.value.lcId {
          return;
        } else if lcIdToDel != MAX_NUM_LC && dlLcCb[ueLcIdx].lcId == lcIdToDel {
          dlLcCb[ueLcIdx] := NO_DL_LC;
          numDlLc := numDlLc - 1;
          CloseGap(dlLcCb, ueLcIdx, numDlLc, NO_DL_LC);
          GapClosed(dl, dlLcCb[..numDlLc], ueLcIdx);
          return;
        }
      }
    }

    /** One channel of fillMacLcCfgList and of the first loop of updateMacLcCfgList. */
    method AddLc(c: LcCfg)
      requires Valid() && Synced(State())
      modifies this`numUlLc, this`numDlLc, ulLcCb, dlLcCb
      ensures Valid() && State() == Add(old(State()), c)
    {
      if numDlLc < MAX_NUM_LC {
        dlLcCb[numDlLc] := DlLcCb(c.lcId, true);
        numDlLc := numDlLc + 1;
        ulLcCb[numUlLc] := UlLcCb(c.lcId, c.lcGroup, true);
        numUlLc := numUlLc + 1;
      }
    }

    /** fillMacLcCfgList, and the first loop of updateMacLcCfgList. */
    method FillMacLcCfgList(lcCfgList: seq<LcCfg>)
      requires Valid() && Synced(State())
      modifies this`numUlLc, this`numDlLc, ulLcCb, dlLcCb
      ensures Valid() && State() == AddAll(old(State()), lcCfgList) && Synced(State())
    {
      for lcIdx := 0 to |lcCfgList|
        invariant Valid() && State() == AddAll(old(State()), lcCfgList[..lcIdx]) && Synced(State())
      {
        AddKeepsSync(State(), lcCfgList[lcIdx]);
        AddLc(lcCfgList[lcIdx]);
        assert lcCfgList[..lcIdx + 1][..lcIdx] == lcCfgList[..lcIdx];
      }
      assert lcCfgList[..|lcCfgList|] == lcCfgList;
    }

    method DeleteOne(id: nat)
      requires Valid()
      modifies this`numUlLc, this`numDlLc, ulLcCb, dlLcCb
      ensures Valid() && State() == if Full(old(State())) then old(State()) else Delete(old(State()), id)
    {
      if numDlLc < MAX_NUM_LC {
        UpdateMacUlLcCtxt(None, id);
        UpdateMacDlLcCtxt(None, id);
      }
    }

    method DeleteLcs(lcIdToDel: seq<nat>)
      requires Valid()
      modifies this`numUlLc, this`numDlLc, ulLcCb, dlLcCb
      ensures Valid() && State() == DeleteAll(old(State()), lcIdToDel)
    {
      for lcIdx := 0 to |lcIdToDel|
        invariant Valid() && State() == DeleteAll(old(State()), lcIdToDel[..lcIdx])
      {
        DeleteOne(lcIdToDel[lcIdx]);
        assert lcIdToDel[..lcIdx + 1][..lcIdx] == lcIdToDel[..lcIdx];
      }
      assert lcIdToDel[..|lcIdToDel|] == lcIdToDel;
    }

    method ModifyLcs(lcCfgMod: seq<LcCfg>)
      requires Valid()
      modifies this`numUlLc, this`numDlLc, ulLcCb, dlLcCb
      ensures Valid() && State() == ModifyAll(old(State()), lcCfgMod)
    {
      for lcIdx := 0 to |lcCfgMod|
        invariant Valid() && State() == ModifyAll(old(State()), lcCfgMod[..lcIdx])
      {
        if numDlLc < MAX_NUM_LC {
          UpdateMacUlLcCtxt(Some(lcCfgMod[lcIdx]), MAX_NUM_LC);
          UpdateMacDlLcCtxt(Some(lcCfgMod[lcIdx]), MAX_NUM_LC);
        }
        assert lcCfgMod[..lcIdx + 1][..lcIdx] == lcCfgMod[..lcIdx];
      }
      assert lcCfgMod[..|lcCfgMod|] == lcCfgMod;
    }

    /** updateMacLcCfgList */
    method UpdateMacLcCfgList(r: Recfg)
      requires Valid() && Synced(State())
      modifies this`numUlLc, this`numDlLc, ulLcCb, dlLcCb
      ensures Valid() && Synced(State()) && State() == Reconfigured(old(State()), r)
    {
      FillMacLcCfgList(r.add);
      DeleteAllKeepsSync(State(), r.del);
      DeleteLcs(r.del);
      ModifyAllKeeps(State(), r.mod);
      ModifyLcs(r.mod);
    }
  }

  // ------------------------------------------------------------------ in step, over every run

  lemma AddKeepsSync(l: Lists, c: LcCfg)
    requires Synced(l)
    ensures Synced(Add(l, c))
  {
  }

  lemma FindTogether(l: Lists, id: nat)
    requires Synced(l)
    ensures UlIds(l.ul) == DlIds(l.dl) && Find(UlIds(l.ul), id) == Find(DlIds(l.dl), id)
  {
  }

  lemma DeleteKeepsSync(l: Lists, id: nat)
    requires Synced(l)
    ensures Synced(Delete(l, id))
  {
    FindTogether(l, id);
  }

  lemma {:induction false} DeleteAllKeepsSync(l: Lists, ids: seq<nat>)
    requires Synced(l)
    ensures Synced(DeleteAll(l, ids))
  {
    if ids != [] {
      DeleteAllKeepsSync(l, ids[..|ids| - 1]);
      DeleteKeepsSync(DeleteAll(l, ids[..|ids| - 1]), ids[|ids| - 1]);
    }
  }

  /** Modifications change neither the channels nor their order. */
  lemma {:induction false} ModifyAllKeeps(l: Lists, cs: seq<LcCfg>)
    ensures ModifyAll(l, cs).dl == l.dl && (Synced(l) ==> Synced(ModifyAll(l, cs)))
  {
    if cs != [] { ModifyAllKeeps(l, cs[..|cs| - 1]); }
  }

  lemma {:induction false} AddAllKeepsSync(l: Lists, cs: seq<LcCfg>)
    requires Synced(l)
    ensures Synced(AddAll(l, cs))
  {
    if cs != [] {
      AddAllKeepsSync(l, cs[..|cs| - 1]);
      AddKeepsSync(AddAll(l, cs[..|cs| - 1]), cs[|cs| - 1]);
    }
  }

  /** A UE context: created with some channels, then reconfigured any number of times. */
  function After(create: seq<LcCfg>, recfgs: seq<Recfg>): Lists {
    if recfgs == [] then AddAll(Lists([], []), create)
    else Reconfigured(After(create, recfgs[..|recfgs| - 1]), recfgs[|recfgs| - 1])
  }

  lemma {:induction false} EveryRunKeepsSync(create: seq<LcCfg>, recfgs: seq<Recfg>)
    ensures Synced(After(create, recfgs))
  {
    if recfgs == [] {
      AddAllKeepsSync(Lists([], []), create);
    } else {
      var l, r := After(create, recfgs[..|recfgs| - 1]), recfgs[|recfgs| - 1];
      EveryRunKeepsSync(create, recfgs[..|recfgs| - 1]);
      AddAllKeepsSync(l, r.add);
      DeleteAllKeepsSync(AddAll(l, r.add), r.del);
      ModifyAllKeeps(DeleteAll(AddAll(l, r.add), r.del), r.mod);
    }
  }

  // ------------------------------------------------------------------ what a reconfiguration means

  function CfgIds(cs: seq<LcCfg>): (r: seq<nat>)
    ensures |r| == |cs|
  {
    seq(|cs|, k requires 0 <= k < |cs| => cs[k].lcId)
  }

  function Cut<T>(s: seq<T>): seq<T> {
    if |s| <= MAX_NUM_LC then s else s[..MAX_NUM_LC]
  }

  /** Adding appends as many channels as fit. */
  lemma {:induction false} AddAllAppends(l: Lists, cs: seq<LcCfg>)
    requires |l.dl| <= MAX_NUM_LC
    ensures Ids(AddAll(l, cs)) == Cut(Ids(l) + CfgIds(cs))
  {
    if cs == [] {
      assert Ids(l) + CfgIds(cs) == Ids(l);
    } else {
      AddAllAppends(l, cs[..|cs| - 1]);
      assert CfgIds(cs) == CfgIds(cs[..|cs| - 1]) + [cs[|cs| - 1].lcId];
      AppendOne(AddAll(l, cs[..|cs| - 1]), cs[|cs| - 1]);
      CutSnoc(Ids(l) + CfgIds(cs[..|cs| - 1]), cs[|cs| - 1].lcId);
      assert Ids(l) + CfgIds(cs) == Ids(l) + CfgIds(cs[..|cs| - 1]) + [cs[|cs| - 1].lcId];
    }
  }

  lemma AppendOne(l: Lists, c: LcCfg)
    ensures Ids(Add(l, c)) == if Full(l) then Ids(l) else Ids(l) + [c.lcId]
  {
  }

  lemma CutSnoc<T>(s: seq<T>, x: T)
    ensures Cut(s + [x]) == if |Cut(s)| < MAX_NUM_LC then Cut(s) + [x] else Cut(s)
  {
  }

  /** The first occurrence of each id removed in turn, and 33 meaning none. */
  function RemoveFirst(ids: seq<nat>, id: nat): (r: seq<nat>)
    ensures |r| <= |ids|
    ensures id in ids ==> multiset(r) + multiset{id} == multiset(ids)
    ensures id !in ids ==> r == ids
  {
    if ids == [] then []
    else if ids[0] == id then
      assert ids == [id] + ids[1..];
      ids[1..]
    else
      assert ids == [ids[0]] + ids[1..];
      [ids[0]] + RemoveFirst(ids[1..], id)
  }

  function RemoveAll(ids: seq<nat>, del: seq<nat>): (r: seq<nat>)
    ensures |r| <= |ids|
  {
    if del == [] then ids
    else
      var before := RemoveAll(ids, del[..|del| - 1]);
      if del[|del| - 1] == MAX_NUM_LC then before else RemoveFirst(before, del[|del| - 1])
  }

  lemma {:induction false} RemoveFirstAt(ids: seq<nat>, id: nat, k: nat)
    requires k <= |ids| && (forall j :: 0 <= j < k ==> ids[j] != id) && (k < |ids| ==> ids[k] == id)
    ensures RemoveFirst(ids, id) == Without(ids, k)
  {
    if k > 0 {
      RemoveFirstAt(ids[1..], id, k - 1);
      WithoutCons(ids, k);
    }
  }

  lemma WithoutCons<T>(ids: seq<T>, k: nat)
    requires 0 < k <= |ids|
    ensures Without(ids, k) == [ids[0]] + Without(ids[1..], k - 1)
  {
  }

  lemma DeleteRemovesFirst(l: Lists, id: nat)
    ensures Ids(Delete(l, id)) == if id == MAX_NUM_LC then Ids(l) else RemoveFirst(Ids(l), id)
  {
    if id != MAX_NUM_LC {
      RemoveFirstAt(Ids(l), id, Find(Ids(l), id));
      IdsWithout(l.dl, Find(Ids(l), id));
    }
  }

  lemma IdsWithout(dl: seq<DlLcCb>, k: nat)
    ensures DlIds(Without(dl, k)) == Without(DlIds(dl), k)
  {
  }

  /** A list that is not full when the deletes start never becomes full. */
  lemma {:induction false} DeleteAllRemoves(l: Lists, ids: seq<nat>)
    ensures Ids(DeleteAll(l, ids)) == if Full(l) then Ids(l) else RemoveAll(Ids(l), ids)
  {
    if ids != [] {
      var before := DeleteAll(l, ids[..|ids| - 1]);
      DeleteAllRemoves(l, ids[..|ids| - 1]);
      DeleteRemovesFirst(before, ids[|ids| - 1]);
      assert |Ids(before)| == |before.dl|;
    }
  }

  /**
   The channels after a reconfiguration: the old ones, then those of the added that fit, less
   the first occurrence of each deleted one, order kept. Nothing is deleted when the additions
   fill the list.
   */
  lemma ReconfiguredIds(l: Lists, r: Recfg)
    requires Synced(l)
    ensures var added := Cut(Ids(l) + CfgIds(r.add));
      Ids(Reconfigured(l, r)) == if |added| == MAX_NUM_LC then added else RemoveAll(added, r.del)
  {
    AddAllAppends(l, r.add);
    DeleteAllRemoves(AddAll(l, r.add), r.del);
    ModifyAllKeeps(DeleteAll(AddAll(l, r.add), r.del), r.mod);
  }

  /** The group of a channel is that of the last modification that names it. */
  function LastGroup(mod: seq<LcCfg>, id: nat, was: nat): nat {
    if mod == [] then was
    else if mod[|mod| - 1].lcId == id then mod[|mod| - 1].lcGroup
    else LastGroup(mod[..|mod| - 1], id, was)
  }

  /** Modifications reach the first channel with their id, unless the list is full. */
  lemma {:induction false} GroupsAfterModify(l: Lists, mod: seq<LcCfg>, k: nat)
    requires k < |l.ul|
    ensures |ModifyAll(l, mod).ul| == |l.ul|
    ensures forall j :: 0 <= j < |l.ul| ==> ModifyAll(l, mod).ul[j].lcId == l.ul[j].lcId
    ensures ModifyAll(l, mod).ul[k].lcGrpId ==
      if Full(l) || Find(UlIds(l.ul), l.ul[k].lcId) != k then l.ul[k].lcGrpId
      else LastGroup(mod, l.ul[k].lcId, l.ul[k].lcGrpId)
  {
    if mod != [] {
      var before := ModifyAll(l, mod[..|mod| - 1]);
      GroupsAfterModify(l, mod[..|mod| - 1], k);
      ModifyAllKeeps(l, mod[..|mod| - 1]);
      assert UlIds(before.ul) == UlIds(l.ul);
    }
  }

  // ------------------------------------------------------------------ channels with their groups

  /** What the uplink list says of a channel: its id and its group. */
  type Chan = (nat, nat)

  function Chans(ul: seq<UlLcCb>): (r: seq<Chan>)
    ensures |r| == |ul|
  {
    seq(|ul|, k requires 0 <= k < |ul| => (ul[k].lcId, ul[k].lcGrpId))
  }

  function CfgChans(cs: seq<LcCfg>): (r: seq<Chan>)
    ensures |r| == |cs|
  {
    seq(|cs|, k requires 0 <= k < |cs| => (cs[k].lcId, cs[k].lcGroup))
  }

  lemma AppendChan(l: Lists, c: LcCfg)
    ensures Chans(Add(l, c).ul) == if Full(l) then Chans(l.ul) else Chans(l.ul) + [(c.lcId, c.lcGroup)]
  {
  }

  /** Added channels come with the group they are configured with. */
  lemma {:induction false} AddAllAppendsChans(l: Lists, cs: seq<LcCfg>)
    requires Synced(l)
    ensures Chans(AddAll(l, cs).ul) == Cut(Chans(l.ul) + CfgChans(cs))
  {
    if cs == [] {
      assert Chans(l.ul) + CfgChans(cs) == Chans(l.ul);
    } else {
      var init, c := cs[..|cs| - 1], cs[|cs| - 1];
      AddAllAppendsChans(l, init);
      AddAllKeepsSync(l, init);
      AppendChan(AddAll(l, init), c);
      CutSnoc(Chans(l.ul) + CfgChans(init), (c.lcId, c.lcGroup));
      assert CfgChans(cs) == CfgChans(init) + [(c.lcId, c.lcGroup)];
      Associate(Chans(l.ul), CfgChans(init), [(c.lcId, c.lcGroup)]);
    }
  }

  function RemoveFirstChan(s: seq<Chan>, id: nat): (r: seq<Chan>)
    ensures |r| <= |s|
  {
    if s == [] then [] else if s[0].0 == id then s[1..] else [s[0]] + RemoveFirstChan(s[1..], id)
  }

  /** The first channel of each id removed in turn, and 33 meaning none. */
  function RemoveAllChans(s: seq<Chan>, del: seq<nat>): (r: seq<Chan>)
    ensures |r| <= |s|
  {
    if del == [] then s
    else
      var before := RemoveAllChans(s, del[..|del| - 1]);
      if del[|del| - 1] == MAX_NUM_LC then before else RemoveFirstChan(before, del[|del| - 1])
  }

  lemma {:induction false} RemoveFirstChanAt(s: seq<Chan>, id: nat, k: nat)
    requires k <= |s| && (forall j :: 0 <= j < k ==> s[j].0 != id) && (k < |s| ==> s[k].0 == id)
    ensures RemoveFirstChan(s, id) == Without(s, k)
  {
    if k > 0 {
      RemoveFirstChanAt(s[1..], id, k - 1);
      WithoutCons(s, k);
    }
  }

  lemma DeleteRemovesChan(ul: seq<UlLcCb>, id: nat)
    ensures Chans(UlDelete(ul, id)) == if id == MAX_NUM_LC then Chans(ul) else RemoveFirstChan(Chans(ul), id)
  {
    if id != MAX_NUM_LC {
      var k := Find(UlIds(ul), id);
      assert forall j :: 0 <= j < |ul| ==> Chans(ul)[j].0 == UlIds(ul)[j];
      RemoveFirstChanAt(Chans(ul), id, k);
      ChansWithout(ul, k);
    }
  }

  lemma ChansWithout(ul: seq<UlLcCb>, k: nat)
    ensures Chans(Without(ul, k)) == Without(Chans(ul), k)
  {
  }

  lemma {:induction false} DeleteAllRemovesChans(l: Lists, ids: seq<nat>)
    requires Synced(l)
    ensures Chans(DeleteAll(l, ids).ul) == if Full(l) then Chans(l.ul) else RemoveAllChans(Chans(l.ul), ids)
  {
    if ids != [] {
      var before := DeleteAll(l, ids[..|ids| - 1]);
      DeleteAllRemovesChans(l, ids[..|ids| - 1]);
      DeleteAllKeepsSync(l, ids[..|ids| - 1]);
      DeleteRemovesChan(before.ul, ids[|ids| - 1]);
      assert |Chans(before.ul)| == |before.dl|;
    }
  }

  /** The channel at place k is the first with its id. */
  predicate FirstOfId(s: seq<Chan>, k: nat)
    requires k < |s|
  {
    forall j :: 0 <= j < k ==> s[j].0 != s[k].0
  }

  /** Every channel with the group of the last modification that names it. */
  function Regrouped(s: seq<Chan>, mod: seq<LcCfg>): (r: seq<Chan>)
    ensures |r| == |s|
  {
    seq(|s|, k requires 0 <= k < |s| => (s[k].0, if FirstOfId(s, k) then LastGroup(mod, s[k].0, s[k].1) else s[k].1))
  }

  lemma ModifyAllRegroups(l: Lists, mod: seq<LcCfg>)
    ensures Chans(ModifyAll(l, mod).ul) == if Full(l) then Chans(l.ul) else Regrouped(Chans(l.ul), mod)
  {
    ModifyAllLength(l, mod);
    forall k | 0 <= k < |l.ul|
      ensures Chans(ModifyAll(l, mod).ul)[k] == if Full(l) then Chans(l.ul)[k] else Regrouped(Chans(l.ul), mod)[k]
    {
      GroupsAfterModify(l, mod, k);
      FirstIsFound(l.ul, k);
    }
  }

  lemma {:induction false} ModifyAllLength(l: Lists, mod: seq<LcCfg>)
    ensures |ModifyAll(l, mod).ul| == |l.ul|
  {
    if mod != [] { ModifyAllLength(l, mod[..|mod| - 1]); }
  }

  lemma FirstIsFound(ul: seq<UlLcCb>, k: nat)
    requires k < |ul|
    ensures Find(UlIds(ul), ul[k].lcId) == k <==> FirstOfId(Chans(ul), k)
  {
    assert forall j :: 0 <= j < |ul| ==> Chans(ul)[j].0 == UlIds(ul)[j];
  }

  /**
   The channels of a UE with their groups after a reconfiguration: the old ones, then those of the
   added that fit, each with its configured group; when that does not fill the list, less the
   first of each deleted id, and each in the group of the last modification that names it.
   */
  lemma ReconfiguredChans(l: Lists, r: Recfg)
    requires Synced(l)
    ensures var added := Cut(Chans(l.ul) + CfgChans(r.add));
      Chans(Reconfigured(l, r).ul) ==
        if |added| == MAX_NUM_LC then added else Regrouped(RemoveAllChans(added, r.del), r.mod)
  {
    var l1 := AddAll(l, r.add);
    var l2 := DeleteAll(l1, r.del);
    AddAllAppendsChans(l, r.add);
    AddAllKeepsSync(l, r.add);
    DeleteAllRemovesChans(l1, r.del);
    DeleteAllKeepsSync(l1, r.del);
    ModifyAllRegroups(l2, r.mod);
  }

  /**
   Adding a new channel and deleting it in the same reconfiguration changes nothing, exactly
   when the addition does not take the last place.
   */
  lemma AddThenDelete(l: Lists, c: LcCfg)
    requires Synced(l) && c.lcId !in Ids(l) && c.lcId != MAX_NUM_LC
    ensures Reconfigured(l, Recfg([c], [c.lcId], [])) == l <==> |l.dl| != MAX_NUM_LC - 1
  {
    assert [c][..0] == [] && [c.lcId][..0] == [];
    var added := Add(l, c);
    assert AddAll(l, [c]) == added;
    assert DeleteAll(added, [c.lcId]) == if Full(added) then added else Delete(added, c.lcId);
    if !Full(added) { DeleteAdded(l, c); }
  }

  lemma DeleteAdded(l: Lists, c: LcCfg)
    requires Synced(l) && c.lcId !in Ids(l) && c.lcId != MAX_NUM_LC && !Full(l)
    ensures Delete(Add(l, c), c.lcId) == l
  {
    var added := Add(l, c);
    AddKeepsSync(l, c);
    FindTogether(added, c.lcId);
    LastIsFound(l.dl, c);
    assert Without(added.dl, |l.dl|) == l.dl && Without(added.ul, |l.ul|) == l.ul;
  }

  lemma LastIsFound(dl: seq<DlLcCb>, c: LcCfg)
    requires c.lcId !in DlIds(dl)
    ensures Find(DlIds(dl + [DlLcCb(c.lcId, true)]), c.lcId) == |dl|
  {
    var ids := DlIds(dl + [DlLcCb(c.lcId, true)]);
    forall j | 0 <= j < |dl| ensures ids[j] != c.lcId {
      assert ids[j] == DlIds(dl)[j];
    }
  }

  // ------------------------------------------------------------------ a list that fills up

  function Channels(n: nat): (r: seq<LcCfg>)
    ensures |r| == n
  {
    seq(n, k requires 0 <= k < n => LcCfg(k, 0))
  }

  /** A UE is created with as many channels as fit; deleting one of them has no effect. */
  lemma FullListDeletesNothing(id: nat, n: nat)
    requires id < n == MAX_NUM_LC
    ensures Ids(After(Channels(n), [])) == CfgIds(Channels(n)) && id in CfgIds(Channels(n))
    ensures Ids(After(Channels(n), [Recfg([], [id], [])])) == CfgIds(Channels(n))
  {
    var l := After(Channels(n), []);
    AddAllAppends(Lists([], []), Channels(n));
    assert Ids(Lists([], [])) + CfgIds(Channels(n)) == CfgIds(Channels(n));
    assert CfgIds(Channels(n))[id] == id;
    EveryRunKeepsSync(Channels(n), []);
    ReconfiguredIds(l, Recfg([], [id], []));
    assert [Recfg([], [id], [])][..0] == [];
    assert CfgIds(Channels(n)) + CfgIds([]) == CfgIds(Channels(n));
  }
}
