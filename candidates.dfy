/** PatchOffererIceCandidates and PatchAnswererIceCandidates: the ICE
    candidates one peer gathers are re-addressed to the sections the other
    peer sees.  A candidate of a recorded simulcast section goes, on its way
    to the answerer, to the section of the record's first RID; a candidate of
    a per-RID section goes, on its way back to the offerer, to the recorded
    simulcast section.  Re-addressed candidates carry m-line index 0; every
    other candidate is copied.  An empty result is fatal. */
module Candidates {
  import opened Sdp
  import opened Context

  /** The candidate as the answerer sees it. */
  function OffererCandidate(ctx: ContextState, c: IceCandidate): IceCandidate {
    match FirstRid(ctx, c.sdpMid)
    case Some(rid) => IceCandidate(rid, 0, c.candidate)
    case None => c
  }

  /** The candidate as the offerer sees it. */
  function AnswererCandidate(ctx: ContextState, c: IceCandidate): IceCandidate {
    match Owner(ctx, c.sdpMid)
    case Some(mid) => IceCandidate(mid, 0, c.candidate)
    case None => c
  }

  /** Every candidate re-addressed for the answerer, in order; none at all
      is fatal. */
  function OffererCandidates(ctx: ContextState, cands: seq<IceCandidate>): Result<seq<IceCandidate>> {
    if cands == [] then Failure(NoCandidates)
    else Success(seq(|cands|, k requires 0 <= k < |cands| => OffererCandidate(ctx, cands[k])))
  }

  /** Every candidate re-addressed for the offerer, in order; none at all is
      fatal. */
  function AnswererCandidates(ctx: ContextState, cands: seq<IceCandidate>): Result<seq<IceCandidate>> {
    if cands == [] then Failure(NoCandidates)
    else Success(seq(|cands|, k requires 0 <= k < |cands| => AnswererCandidate(ctx, cands[k])))
  }

  // ---------------------------------------------------------------------
  // Properties of the re-addressing

  /** The offerer's candidates keep their number, order and payload; a
      candidate of a recorded MID moves to the first RID of the MID's record,
      which the MID owns, any other is copied. */
  lemma OffererCandidatesShape(ctx: ContextState, cands: seq<IceCandidate>)
    requires ValidContext(ctx) && AllHaveRids(ctx.infos)
    ensures OffererCandidates(ctx, cands).Success? <==> cands != []
    ensures OffererCandidates(ctx, cands).Failure? ==> OffererCandidates(ctx, cands).error == NoCandidates
    ensures OffererCandidates(ctx, cands).Success? ==>
              var r := OffererCandidates(ctx, cands).value;
              && |r| == |cands|
              && (forall k :: 0 <= k < |r| ==> r[k].candidate == cands[k].candidate)
              && (forall k :: 0 <= k < |r| && cands[k].sdpMid !in ctx.byMid ==> r[k] == cands[k])
              && (forall k :: 0 <= k < |r| && cands[k].sdpMid in ctx.byMid ==>
                    && r[k].sdpMlineIndex == 0
                    && FirstRid(ctx, cands[k].sdpMid) == Some(r[k].sdpMid)
                    && Owner(ctx, r[k].sdpMid) == Some(cands[k].sdpMid))
  {
    if cands != [] {
      var r := OffererCandidates(ctx, cands).value;
      forall k | 0 <= k < |r| && cands[k].sdpMid in ctx.byMid
        ensures r[k].sdpMlineIndex == 0 && FirstRid(ctx, cands[k].sdpMid) == Some(r[k].sdpMid)
        ensures Owner(ctx, r[k].sdpMid) == Some(cands[k].sdpMid)
      {
        FirstRidOwner(ctx, cands[k].sdpMid);
      }
    }
  }

  /** The answerer's candidates keep their number, order and payload; a
      candidate of a RID moves to the MID of the record owning it, any other
      is copied. */
  lemma AnswererCandidatesShape(ctx: ContextState, cands: seq<IceCandidate>)
    requires ValidContext(ctx)
    ensures AnswererCandidates(ctx, cands).Success? <==> cands != []
    ensures AnswererCandidates(ctx, cands).Failure? ==> AnswererCandidates(ctx, cands).error == NoCandidates
    ensures AnswererCandidates(ctx, cands).Success? ==>
              var r := AnswererCandidates(ctx, cands).value;
              && |r| == |cands|
              && (forall k :: 0 <= k < |r| ==> r[k].candidate == cands[k].candidate)
              && (forall k :: 0 <= k < |r| && cands[k].sdpMid !in ctx.byRid ==> r[k] == cands[k])
              && (forall k :: 0 <= k < |r| && cands[k].sdpMid in ctx.byRid ==>
                    r[k].sdpMlineIndex == 0 && r[k].sdpMid in ctx.byMid &&
                    cands[k].sdpMid in ctx.infos[ctx.byMid[r[k].sdpMid]].rids)
  {
    if cands != [] {
      var r := AnswererCandidates(ctx, cands).value;
      forall k | 0 <= k < |r| && cands[k].sdpMid in ctx.byRid
        ensures r[k].sdpMlineIndex == 0 && r[k].sdpMid in ctx.byMid
        ensures cands[k].sdpMid in ctx.infos[ctx.byMid[r[k].sdpMid]].rids
      {
        var rid := cands[k].sdpMid;
        var i := ctx.byRid[rid];
        assert ctx.infos[i].mid in MidsOf(ctx.infos) by {
          assert MidsOf(ctx.infos)[i] == ctx.infos[i].mid;
        }
        var j := ctx.byMid[ctx.infos[i].mid];
        DistinctMids(ctx.infos, i, j);
      }
    }
  }

  /** Re-addressing a candidate for the answerer and back for the offerer
      gives it back, at m-line index 0 when it was re-addressed, provided its
      MID is not also some record's RID. */
  lemma CandidateRoundTrip(ctx: ContextState, c: IceCandidate)
    requires ValidContext(ctx) && AllHaveRids(ctx.infos) && c.sdpMid !in ctx.byRid
    ensures AnswererCandidate(ctx, OffererCandidate(ctx, c)) ==
              if c.sdpMid in ctx.byMid then c.(sdpMlineIndex := 0) else c
  {
    if c.sdpMid in ctx.byMid {
      FirstRidOwner(ctx, c.sdpMid);
    } else {
      assert Owner(ctx, c.sdpMid).None?;
    }
  }

  /** The round trip over a whole list of candidates. */
  lemma CandidatesRoundTrip(ctx: ContextState, cands: seq<IceCandidate>)
    requires ValidContext(ctx) && AllHaveRids(ctx.infos)
    requires forall k :: 0 <= k < |cands| ==> cands[k].sdpMid !in ctx.byRid
    ensures OffererCandidates(ctx, cands).Success? <==> cands != []
    ensures cands != [] ==>
              var back := AnswererCandidates(ctx, OffererCandidates(ctx, cands).value);
              && back.Success? && |back.value| == |cands|
              && forall k :: 0 <= k < |cands| ==>
                   back.value[k] == if cands[k].sdpMid in ctx.byMid then cands[k].(sdpMlineIndex := 0) else cands[k]
  {
    if cands != [] {
      var there := OffererCandidates(ctx, cands).value;
      var back := AnswererCandidates(ctx, there).value;
      forall k | 0 <= k < |cands|
        ensures back[k] == if cands[k].sdpMid in ctx.byMid then cands[k].(sdpMlineIndex := 0) else cands[k]
      {
        CandidateRoundTrip(ctx, cands[k]);
      }
    }
  }

  // ---------------------------------------------------------------------
  // The loops

  /** PatchOffererIceCandidates: looks every candidate's MID up among the
      recorded MIDs. */
  method PatchOffererIceCandidates(ctx: ContextState, cands: seq<IceCandidate>) returns (r: Result<seq<IceCandidate>>)
    requires ValidContext(ctx) && AllHaveRids(ctx.infos)
    ensures r == OffererCandidates(ctx, cands)
  {
    var out: seq<IceCandidate> := [];
    for k := 0 to |cands|
      invariant |out| == k
      invariant forall j :: 0 <= j < k ==> out[j] == OffererCandidate(ctx, cands[j])
    {
      var candidate := cands[k];
      if candidate.sdpMid in ctx.byMid {
        var index := ctx.byMid[candidate.sdpMid];
        assert index < |ctx.infos|;
        out := out + [IceCandidate(ctx.infos[index].rids[0], 0, candidate.candidate)];
      } else {
        out := out + [IceCandidate(candidate.sdpMid, candidate.sdpMlineIndex, candidate.candidate)];
      }
    }
    if |out| == 0 {
      return Failure(NoCandidates);
    }
    assert out == OffererCandidates(ctx, cands).value;
    return Success(out);
  }

  /** PatchAnswererIceCandidates: looks every candidate's MID up among the
      recorded RIDs. */
  method PatchAnswererIceCandidates(ctx: ContextState, cands: seq<IceCandidate>) returns (r: Result<seq<IceCandidate>>)
    requires ValidContext(ctx)
    ensures r == AnswererCandidates(ctx, cands)
  {
    var out: seq<IceCandidate> := [];
    for k := 0 to |cands|
      invariant |out| == k
      invariant forall j :: 0 <= j < k ==> out[j] == AnswererCandidate(ctx, cands[j])
    {
      var candidate := cands[k];
      if candidate.sdpMid in ctx.byRid {
        var index := ctx.byRid[candidate.sdpMid];
        assert index < |ctx.infos|;
        out := out + [IceCandidate(ctx.infos[index].mid, 0, candidate.candidate)];
      } else {
        out := out + [IceCandidate(candidate.sdpMid, candidate.sdpMlineIndex, candidate.candidate)];
      }
    }
    if |out| == 0 {
      return Failure(NoCandidates);
    }
    assert out == AnswererCandidates(ctx, cands).value;
    return Success(out);
  }
}
