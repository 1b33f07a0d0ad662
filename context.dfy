/** The per-negotiation registry of simulcast sections: the record kept for
    each simulcast video section of the offer (SimulcastSectionInfo) and the
    context that owns those records and indexes them by MID and by RID
    (SignalingContext).  The indices map to positions in the record list. */
module Context {
  import opened Sdp

  datatype SimulcastSectionInfo = SimulcastSectionInfo(
    mid: string,
    mediaProtocolType: MediaProtocolType,
    rids: seq<string>,
    midExtension: RtpExtension,
    ridExtension: RtpExtension,
    rridExtension: RtpExtension,
    transportDescription: Blob,
    simulcastDescription: SimulcastDescription)

  /** The RID names of a list of RID descriptions, in order. */
  function RidNames(ds: seq<RidDescription>): seq<string> {
    seq(|ds|, k requires 0 <= k < |ds| => ds[k].rid)
  }

  /** SimulcastSectionInfo's constructor: keeps the RID names of `ridsDesc` in
      order; every other member keeps its default value. */
  method NewSimulcastSectionInfo(mid: string, protocol: MediaProtocolType, ridsDesc: seq<RidDescription>)
    returns (info: SimulcastSectionInfo)
    ensures info.mid == mid && info.mediaProtocolType == protocol
    ensures |info.rids| == |ridsDesc|
    ensures forall k :: 0 <= k < |ridsDesc| ==> info.rids[k] == ridsDesc[k].rid
    ensures info.midExtension == UnsetExtension && info.ridExtension == UnsetExtension
    ensures info.rridExtension == UnsetExtension
    ensures info.transportDescription == [] && info.simulcastDescription == NoSimulcast
  {
    var rids: seq<string> := [];
    for k := 0 to |ridsDesc|
      invariant |rids| == k
      invariant forall j :: 0 <= j < k ==> rids[j] == ridsDesc[j].rid
    {
      rids := rids + [ridsDesc[k].rid];
    }
    info := SimulcastSectionInfo(mid, protocol, rids, UnsetExtension, UnsetExtension, UnsetExtension, [], NoSimulcast);
  }

  /** The MIDs of the records, in record order: the counterpart, for the
      records of the context, of `Mids` for the sections of a description
      (the two lists are of different types). */
  function MidsOf(infos: seq<SimulcastSectionInfo>): (r: seq<string>)
    ensures |r| == |infos| && forall k {:trigger r[k]} :: 0 <= k < |infos| ==> r[k] == infos[k].mid
  {
    seq(|infos|, k requires 0 <= k < |infos| => infos[k].mid)
  }

  /** The RIDs of all records, in record order and then RID order. */
  function AllRids(infos: seq<SimulcastSectionInfo>): seq<string> {
    if infos == [] then [] else AllRids(infos[..|infos| - 1]) + infos[|infos| - 1].rids
  }

  /** No MID is registered twice and no RID is registered twice. */
  ghost predicate UniqueKeys(infos: seq<SimulcastSectionInfo>) {
    NoDup(MidsOf(infos)) && NoDup(AllRids(infos))
  }

  ghost predicate AllHaveRids(infos: seq<SimulcastSectionInfo>) {
    forall i :: 0 <= i < |infos| ==> infos[i].rids != []
  }

  /** The contents of a SignalingContext as a value. */
  datatype ContextState = ContextState(
    midsOrder: seq<string>,
    infos: seq<SimulcastSectionInfo>,
    byMid: map<string, nat>,
    byRid: map<string, nat>)

  /** The indices hold exactly the registered MIDs and RIDs, each mapped to
      the position of its record. */
  ghost predicate ValidContext(ctx: ContextState) {
    && UniqueKeys(ctx.infos)
    && (forall m :: m in ctx.byMid <==> m in MidsOf(ctx.infos))
    && (forall m :: m in ctx.byMid ==> ctx.byMid[m] < |ctx.infos| && ctx.infos[ctx.byMid[m]].mid == m)
    && (forall r :: r in ctx.byRid <==> r in AllRids(ctx.infos))
    && (forall r :: r in ctx.byRid ==> ctx.byRid[r] < |ctx.infos| && r in ctx.infos[ctx.byRid[r]].rids)
  }

  lemma {:induction false} AllRidsMember(infos: seq<SimulcastSectionInfo>, r: string)
    ensures r in AllRids(infos) <==> exists i :: 0 <= i < |infos| && r in infos[i].rids
  {
    if infos != [] {
      var n := |infos| - 1;
      var prefix := infos[..n];
      AllRidsMember(prefix, r);
      assert AllRids(infos) == AllRids(prefix) + infos[n].rids;
      if r in AllRids(prefix) {
        var i :| 0 <= i < n && r in prefix[i].rids;
        assert infos[i] == prefix[i];
      }
      if r !in AllRids(infos) {
        forall i | 0 <= i < |infos| ensures r !in infos[i].rids {
          if i < n {
            assert prefix[i] == infos[i];
          }
        }
      }
    }
  }

  lemma PrefixUniqueKeys(infos: seq<SimulcastSectionInfo>)
    requires UniqueKeys(infos) && infos != []
    ensures UniqueKeys(infos[..|infos| - 1])
  {
    var n := |infos| - 1;
    NoDupConcat(AllRids(infos[..n]), infos[n].rids);
    assert MidsOf(infos)[..n] == MidsOf(infos[..n]);
  }

  /** Records with unique MIDs are told apart by their MIDs. */
  lemma DistinctMids(infos: seq<SimulcastSectionInfo>, i: nat, j: nat)
    requires NoDup(MidsOf(infos)) && i < |infos| && j < |infos|
    ensures infos[i].mid == infos[j].mid ==> i == j
  {
    var m := MidsOf(infos);
    if i < j {
      assert m[i] != m[j];
    } else if j < i {
      assert m[j] != m[i];
    }
  }

  /** Every prefix of a record list with unique keys has unique keys. */
  lemma {:induction false} UniqueKeysPrefix(infos: seq<SimulcastSectionInfo>, j: nat)
    requires j <= |infos| && UniqueKeys(infos)
    ensures UniqueKeys(infos[..j])
    decreases |infos|
  {
    if j < |infos| {
      var n := |infos| - 1;
      PrefixUniqueKeys(infos);
      assert infos[..n][..j] == infos[..j];
      UniqueKeysPrefix(infos[..n], j);
    } else {
      assert infos[..j] == infos;
    }
  }

  /** A RID registered in a context with unique keys belongs to one record. */
  lemma {:induction false} RidOwnerUnique(infos: seq<SimulcastSectionInfo>, r: string, i: nat, j: nat)
    requires UniqueKeys(infos)
    requires i < |infos| && j < |infos| && r in infos[i].rids && r in infos[j].rids
    ensures i == j
  {
    var n := |infos| - 1;
    var prefix := infos[..n];
    PrefixUniqueKeys(infos);
    NoDupConcat(AllRids(prefix), infos[n].rids);
    if i < n && j < n {
      assert r in prefix[i].rids && r in prefix[j].rids;
      RidOwnerUnique(prefix, r, i, j);
    } else if i < n {
      assert r in prefix[i].rids;
      AllRidsMember(prefix, r);
    } else if j < n {
      assert r in prefix[j].rids;
      AllRidsMember(prefix, r);
    }
  }

  /** Bijection between records and keys: in a valid context every record is
      found again under its MID and under each of its RIDs, and the record
      owning a RID is indexed under its own MID. */
  lemma ContextBijection(ctx: ContextState)
    requires ValidContext(ctx)
    ensures forall i :: 0 <= i < |ctx.infos| ==> ctx.infos[i].mid in ctx.byMid && ctx.byMid[ctx.infos[i].mid] == i
    ensures forall i, k :: 0 <= i < |ctx.infos| && 0 <= k < |ctx.infos[i].rids| ==>
              ctx.infos[i].rids[k] in ctx.byRid && ctx.byRid[ctx.infos[i].rids[k]] == i
    ensures forall r :: r in ctx.byRid ==> ctx.byMid[ctx.infos[ctx.byRid[r]].mid] == ctx.byRid[r]
  {
    forall i | 0 <= i < |ctx.infos|
      ensures ctx.infos[i].mid in ctx.byMid && ctx.byMid[ctx.infos[i].mid] == i
    {
      var m := ctx.infos[i].mid;
      assert MidsOf(ctx.infos)[i] == m;
      assert ctx.infos[ctx.byMid[m]].mid == m;
      assert MidsOf(ctx.infos)[ctx.byMid[m]] == m;
    }
    forall i, k | 0 <= i < |ctx.infos| && 0 <= k < |ctx.infos[i].rids|
      ensures ctx.infos[i].rids[k] in ctx.byRid && ctx.byRid[ctx.infos[i].rids[k]] == i
    {
      var r := ctx.infos[i].rids[k];
      AllRidsMember(ctx.infos, r);
      RidOwnerUnique(ctx.infos, r, i, ctx.byRid[r]);
    }
  }

  /** A record can be appended to records with unique keys exactly when its
      MID is new and its RIDs are distinct and new. */
  lemma UniqueKeysAppend(infos: seq<SimulcastSectionInfo>, info: SimulcastSectionInfo)
    requires UniqueKeys(infos)
    ensures UniqueKeys(infos + [info]) <==> info.mid !in MidsOf(infos) && NoDup(AllRids(infos) + info.rids)
  {
    var all := infos + [info];
    assert all[..|all| - 1] == infos;
    assert MidsOf(all) == MidsOf(infos) + [info.mid];
    NoDupConcat(MidsOf(infos), [info.mid]);
  }

  /** A RID seen before, among the registered RIDs or earlier in the same
      record, makes the RID list repeat itself. */
  lemma RepeatedRid(oldRids: seq<string>, rids: seq<string>, k: nat)
    requires k < |rids| && (rids[k] in oldRids || rids[k] in rids[..k])
    ensures !NoDup(oldRids + rids)
  {
    var whole := oldRids + rids;
    if rids[k] in oldRids {
      var i :| 0 <= i < |oldRids| && oldRids[i] == rids[k];
      assert whole[i] == whole[|oldRids| + k];
    } else {
      var j :| 0 <= j < k && rids[..k][j] == rids[k];
      assert whole[|oldRids| + j] == whole[|oldRids| + k];
    }
  }

  /** Indexing a new record under its MID and its RIDs keeps a context valid. */
  lemma {:induction false} RegisteredValid(ctx: ContextState, info: SimulcastSectionInfo, byRid: map<string, nat>)
    requires ValidContext(ctx)
    requires UniqueKeys(ctx.infos + [info])
    requires forall x :: x in byRid <==> x in ctx.byRid || x in info.rids
    requires forall x :: x in ctx.byRid ==> byRid[x] == ctx.byRid[x]
    requires forall x :: x in info.rids ==> byRid[x] == |ctx.infos|
    ensures ValidContext(ContextState(ctx.midsOrder, ctx.infos + [info], ctx.byMid[info.mid := |ctx.infos|], byRid))
  {
    RegisteredMid(ctx, info);
    RegisteredRids(ctx, info, byRid);
  }

  /** The MIDs of records with one more record appended. */
  lemma MidsOfSnoc(infos: seq<SimulcastSectionInfo>, info: SimulcastSectionInfo)
    ensures MidsOf(infos + [info]) == MidsOf(infos) + [info.mid]
  {
    var all := infos + [info];
    assert forall k :: 0 <= k < |infos| ==> all[k] == infos[k];
  }

  lemma RegisteredMid(ctx: ContextState, info: SimulcastSectionInfo)
    requires ValidContext(ctx)
    ensures var all := ctx.infos + [info];
            var byMid := ctx.byMid[info.mid := |ctx.infos|];
            && (forall m :: m in byMid <==> m in MidsOf(all))
            && (forall m :: m in byMid ==> byMid[m] < |all| && all[byMid[m]].mid == m)
  {
    var all := ctx.infos + [info];
    var byMid := ctx.byMid[info.mid := |ctx.infos|];
    MidsOfSnoc(ctx.infos, info);
    forall m
      ensures m in byMid <==> m in MidsOf(all)
    {
      assert m in MidsOf(all) <==> m in MidsOf(ctx.infos) || m == info.mid;
    }
    forall m | m in byMid
      ensures byMid[m] < |all| && all[byMid[m]].mid == m
    {
      if m != info.mid {
        assert all[ctx.byMid[m]] == ctx.infos[ctx.byMid[m]];
      }
    }
  }

  lemma RegisteredRids(ctx: ContextState, info: SimulcastSectionInfo, byRid: map<string, nat>)
    requires ValidContext(ctx)
    requires forall x :: x in byRid <==> x in ctx.byRid || x in info.rids
    requires forall x :: x in ctx.byRid ==> byRid[x] == ctx.byRid[x]
    requires forall x :: x in info.rids ==> byRid[x] == |ctx.infos|
    ensures var all := ctx.infos + [info];
            && (forall r :: r in byRid <==> r in AllRids(all))
            && (forall r :: r in byRid ==> byRid[r] < |all| && r in all[byRid[r]].rids)
  {
    var all := ctx.infos + [info];
    assert all[..|all| - 1] == ctx.infos;
    assert AllRids(all) == AllRids(ctx.infos) + info.rids;
    forall x | x in byRid
      ensures byRid[x] < |all| && x in all[byRid[x]].rids
    {
      if x !in ctx.byRid {
        assert x in info.rids;
      }
    }
  }

  /** The MID of the record indexed under the RID `rid`, if any.  In a
      valid context every indexed RID has one. */
  function Owner(ctx: ContextState, rid: string): Option<string> {
    if rid in ctx.byRid && ctx.byRid[rid] < |ctx.infos| then Some(ctx.infos[ctx.byRid[rid]].mid) else None
  }

  /** In a valid context every RID of a record is owned by that record. */
  lemma RidOwner(ctx: ContextState, j: nat, k: nat)
    requires ValidContext(ctx) && j < |ctx.infos| && k < |ctx.infos[j].rids|
    ensures Owner(ctx, ctx.infos[j].rids[k]) == Some(ctx.infos[j].mid)
  {
    var r := ctx.infos[j].rids[k];
    AllRidsMember(ctx.infos, r);
    RidOwnerUnique(ctx.infos, r, j, ctx.byRid[r]);
  }

  /** The first RID of the record indexed under the MID `mid`, if any.  In
      a valid context whose records all have RIDs every indexed MID has
      one. */
  function FirstRid(ctx: ContextState, mid: string): Option<string> {
    if mid in ctx.byMid && ctx.byMid[mid] < |ctx.infos| && ctx.infos[ctx.byMid[mid]].rids != []
    then Some(ctx.infos[ctx.byMid[mid]].rids[0])
    else None
  }

  /** The RID a recorded MID is looked up to is owned by that MID again. */
  lemma FirstRidOwner(ctx: ContextState, mid: string)
    requires ValidContext(ctx) && AllHaveRids(ctx.infos) && mid in ctx.byMid
    ensures FirstRid(ctx, mid).Some?
    ensures Owner(ctx, FirstRid(ctx, mid).value) == Some(mid)
  {
    RidOwner(ctx, ctx.byMid[mid], 0);
  }

  class SignalingContext {
    var midsOrder: seq<string>
    var simulcastInfos: seq<SimulcastSectionInfo>
    var infosByMid: map<string, nat>
    var infosByRid: map<string, nat>

    function State(): ContextState
      reads this
    {
      ContextState(midsOrder, simulcastInfos, infosByMid, infosByRid)
    }

    ghost predicate Valid()
      reads this
    {
      ValidContext(State())
    }

    constructor ()
      ensures Valid() && State() == ContextState([], [], map[], map[])
    {
      midsOrder, simulcastInfos, infosByMid, infosByRid := [], [], map[], map[];
    }

    predicate HasSimulcast()
      reads this
    {
      simulcastInfos != []
    }

    /** Appends `info` and indexes it under its MID and each of its RIDs; a
        MID or a RID that is indexed already is fatal. */
    method AddSimulcastInfo(info: SimulcastSectionInfo) returns (r: Outcome)
      requires Valid()
      modifies this
      ensures r.Pass? <==> UniqueKeys(old(simulcastInfos) + [info])
      ensures r.Fail? ==> r.error == (if info.mid in MidsOf(old(simulcastInfos)) then DuplicateMid else DuplicateRid)
      ensures midsOrder == old(midsOrder)
      ensures r.Pass? ==> Valid() && simulcastInfos == old(simulcastInfos) + [info]
      ensures r.Pass? ==> infosByMid == old(infosByMid)[info.mid := |old(simulcastInfos)|]
      ensures r.Pass? ==> forall rid :: rid in info.rids ==> rid in infosByRid && infosByRid[rid] == |old(simulcastInfos)|
      ensures r.Pass? ==> forall rid :: rid in old(infosByRid) ==> rid in infosByRid && infosByRid[rid] == old(infosByRid)[rid]
    {
      UniqueKeysAppend(simulcastInfos, info);
      var index := |simulcastInfos|;
      simulcastInfos := simulcastInfos + [info];
      if info.mid in infosByMid {
        return Fail(DuplicateMid);
      }
      infosByMid := infosByMid[info.mid := index];
      ghost var oldRids := AllRids(old(simulcastInfos));
      for k := 0 to |info.rids|
        invariant simulcastInfos == old(simulcastInfos) + [info]
        invariant infosByMid == old(infosByMid)[info.mid := index]
        invariant midsOrder == old(midsOrder)
        invariant NoDup(oldRids + info.rids[..k])
        invariant forall x :: x in infosByRid <==> x in old(infosByRid) || x in info.rids[..k]
        invariant forall x :: x in old(infosByRid) ==> infosByRid[x] == old(infosByRid)[x]
        invariant forall x :: x in info.rids[..k] ==> infosByRid[x] == index
      {
        var rid := info.rids[k];
        if rid in infosByRid {
          RepeatedRid(oldRids, info.rids, k);
          return Fail(DuplicateRid);
        }
        assert info.rids[..k + 1] == info.rids[..k] + [rid];
        NoDupConcat(oldRids, info.rids[..k]);
        NoDupConcat(oldRids, info.rids[..k + 1]);
        NoDupConcat(info.rids[..k], [rid]);
        infosByRid := infosByRid[rid := index];
      }
      assert info.rids[..|info.rids|] == info.rids;
      NoDupConcat(oldRids, info.rids);
      RegisteredValid(old(State()), info, infosByRid);
      return Pass;
    }
  }
}
