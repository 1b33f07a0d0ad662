/** SignalingInterceptor: the object a test peer routes its offers, answers
    and ICE candidates through.  It owns the SignalingContext that the offer
    fills and that every later call reads. */
module Interceptor {
  import opened Sdp
  import opened Context
  import opened Analysis
  import opened OfferPatch
  import opened SectionOrder
  import opened AnswerPatch
  import opened Candidates

  /** The document kept locally and the one sent to the remote peer. */
  datatype LocalAndRemoteSdp = LocalAndRemoteSdp(local: SessionDescriptionInterface, remote: SessionDescriptionInterface)

  /** The offer as FillContext leaves it: every simulcast section rewritten
      in place. */
  function FilledOffer(offer: SessionDescriptionInterface): Result<SessionDescriptionInterface> {
    match AnalyzeContents(offer.description.contents, offer.description.transportInfos)
    case Failure(e) => Failure(e)
    case Success(a) => Success(offer.(description := offer.description.(contents := a.contents)))
  }

  /** The records FillContext registers, in section order. */
  function OfferedInfos(offer: SessionDescriptionInterface): seq<SimulcastSectionInfo> {
    match AnalyzeContents(offer.description.contents, offer.description.transportInfos)
    case Failure(_) => []
    case Success(a) => a.infos
  }

  /** FillContext succeeds on its own checks exactly when every simulcast
      video section passes them; it then keeps every other part of the offer
      and every section name, and records exactly the simulcast video
      sections, each with at least one RID. */
  lemma FilledOfferShape(offer: SessionDescriptionInterface)
    ensures var cs := offer.description.contents;
            FilledOffer(offer).Success? <==>
              forall k :: 0 <= k < |cs| && IsSimulcastVideo(cs[k]) ==> AcceptedSection(cs[k], offer.description.transportInfos)
    ensures FilledOffer(offer).Success? ==>
              var f := FilledOffer(offer).value;
              && f.sdpType == offer.sdpType && f.sessionId == offer.sessionId && f.sessionVersion == offer.sessionVersion
              && f.description.groups == offer.description.groups
              && f.description.transportInfos == offer.description.transportInfos
              && Mids(f.description.contents) == Mids(offer.description.contents)
              && MidsOf(OfferedInfos(offer)) == SimulcastMids(offer.description.contents)
              && AllHaveRids(OfferedInfos(offer))
  {
    var cs := offer.description.contents;
    var ts := offer.description.transportInfos;
    AnalyzeContentsSucceeds(cs, ts);
    if AnalyzeContents(cs, ts).Success? {
      AnalyzeContentsLayout(cs, ts);
      AnalyzeContentsRecords(cs, ts);
    }
  }

  /** The offer sent to the answerer: a copy of the local offer when nothing
      is recorded, otherwise an offer carrying the patched description and
      the local offer's session id and version. */
  function RemoteOffer(ctx: ContextState, local: SessionDescriptionInterface): Result<SessionDescriptionInterface> {
    if ctx.infos == [] then Success(local)
    else match PatchedOfferDescription(local.description, ctx.infos, ctx.byMid.Keys)
      case Failure(e) => Failure(e)
      case Success(d) => Success(Jsep(Offer, d, local.sessionId, local.sessionVersion))
  }

  /** The answer handed back to the offerer: a copy of the answer when
      nothing is recorded, otherwise an answer carrying the patched
      description and the answer's session id and version. */
  function RemoteAnswer(ctx: ContextState, answer: SessionDescriptionInterface): Result<SessionDescriptionInterface>
    requires AllHaveRids(ctx.infos)
  {
    if ctx.infos == [] then Success(answer)
    else match PatchedAnswerDescription(answer.description, ctx)
      case Failure(e) => Failure(e)
      case Success(d) => Success(Jsep(Answer, d, answer.sessionId, answer.sessionVersion))
  }

  function WithLocal(local: SessionDescriptionInterface, remote: Result<SessionDescriptionInterface>): Result<LocalAndRemoteSdp> {
    match remote
    case Failure(e) => Failure(e)
    case Success(d) => Success(LocalAndRemoteSdp(local, d))
  }

  /** The section passes its checks and its record, if any, can be
      registered after `infos`. */
  ghost predicate Registers(infos: seq<SimulcastSectionInfo>, c: ContentInfo, ts: seq<TransportInfo>) {
    AnalyzeSection(c, ts).Success? && UniqueKeys(infos + Recorded(c, ts))
  }

  /** One more section of a scan that succeeded so far: the scan goes on with
      the section rewritten and its record appended. */
  lemma {:induction false} ScanAdvances(cs: seq<ContentInfo>, ts: seq<TransportInfo>, k: nat, a: OfferAnalysis)
    requires k < |cs| && AnalyzeContents(cs[..k], ts) == Success(a)
    requires AnalyzeSection(cs[k], ts).Success?
    ensures |a.contents| == k
    ensures AnalyzeContents(cs[..k + 1], ts) ==
              Success(OfferAnalysis(a.infos + Recorded(cs[k], ts), a.contents + [Rewritten(cs[k], ts)]))
    ensures Mids(cs[..k + 1]) == Mids(cs[..k]) + [cs[k].mid]
  {
    AnalyzeContentsLayout(cs[..k], ts);
    assert cs[..k + 1][..k] == cs[..k];
    assert cs[..k + 1] == cs[..k] + [cs[k]];
    AnalyzeContentsSnoc(cs[..k + 1], ts);
    MidsAppend(cs[..k], [cs[k]]);
  }

  /** A registration that fails on the records of a prefix of the sections
      fails for the records of all of them. */
  lemma RegistrationFails(infos0: seq<SimulcastSectionInfo>, cs: seq<ContentInfo>, ts: seq<TransportInfo>, k: nat)
    requires k <= |cs| && AnalyzeContents(cs[..k], ts).Success?
    requires !UniqueKeys(infos0 + AnalyzeContents(cs[..k], ts).value.infos)
    ensures AnalyzeContents(cs, ts).Success? ==> !UniqueKeys(infos0 + AnalyzeContents(cs, ts).value.infos)
  {
    if AnalyzeContents(cs, ts).Success? {
      AnalyzeContentsPrefix(cs, ts, k);
      var part := infos0 + AnalyzeContents(cs[..k], ts).value.infos;
      var whole := infos0 + AnalyzeContents(cs, ts).value.infos;
      assert whole[..|part|] == part;
      if UniqueKeys(whole) {
        UniqueKeysPrefix(whole, |part|);
      }
    }
  }

  /** A section that fails its checks or whose record clashes with the
      records before it makes the whole offer fail. */
  lemma {:induction false} ScanStops(infos0: seq<SimulcastSectionInfo>, cs: seq<ContentInfo>, ts: seq<TransportInfo>, k: nat, a: OfferAnalysis)
    requires k < |cs| && AnalyzeContents(cs[..k], ts) == Success(a)
    requires !Registers(infos0 + a.infos, cs[k], ts)
    ensures !(AnalyzeContents(cs, ts).Success? && UniqueKeys(infos0 + AnalyzeContents(cs, ts).value.infos))
  {
    assert cs[..k + 1][..k] == cs[..k];
    if AnalyzeSection(cs[k], ts).Failure? {
      AnalyzeContentsPrefixFails(cs, ts, k + 1);
    } else {
      ScanAdvances(cs, ts, k, a);
      assert infos0 + (a.infos + Recorded(cs[k], ts)) == infos0 + a.infos + Recorded(cs[k], ts);
      RegistrationFails(infos0, cs, ts, k + 1);
    }
  }

  lemma AllHaveRidsSnoc(infos: seq<SimulcastSectionInfo>, info: SimulcastSectionInfo)
    requires AllHaveRids(infos) && info.rids != []
    ensures AllHaveRids(infos + [info])
  {
  }

  // ---------------------------------------------------------------------
  // PatchOffer and PatchAnswer end to end, on an interceptor that has seen
  // no offer before

  /** What FillContext leaves for the patching steps: the filled sections
      keep the offer's names, and every record is Normalized in them, has
      RIDs and names one of them. */
  lemma {:induction false} FilledRecords(offer: SessionDescriptionInterface)
    requires FilledOffer(offer).Success? && NoDup(Mids(offer.description.contents))
    ensures var cs := FilledOffer(offer).value.description.contents;
            var infos := OfferedInfos(offer);
            && Mids(cs) == Mids(offer.description.contents)
            && AllNormalized(infos, cs) && AllHaveRids(infos)
            && (forall m :: m in MidsOf(infos) ==> m in Mids(cs))
  {
    var cs0 := offer.description.contents;
    var ts := offer.description.transportInfos;
    var cs := FilledOffer(offer).value.description.contents;
    var infos := OfferedInfos(offer);
    FilledOfferShape(offer);
    AnalyzedSectionsNormalized(cs0, ts);
    forall m | m in MidsOf(infos)
      ensures m in Mids(cs)
    {
      var i :| 0 <= i < |infos| && MidsOf(infos)[i] == m;
      assert Normalized(infos[i], cs);
    }
  }

  /** PatchOffer on a fresh interceptor, once FillContext has registered the
      offer's records in `ctx`, cannot fail: the offer for the remote peer
      exists.  It is a copy of the local offer when nothing was recorded;
      otherwise it carries the local offer's session id and version, the
      sections that were not recorded followed by one section per RID
      (all names distinct, and each named once in the BUNDLE group, when no
      RID is also a section name), a BUNDLE group to which each of their
      names was added after the other groups, and the bindings of the
      sections that were not recorded followed by one binding per RID. */
  lemma PatchOfferSucceeds(offer: SessionDescriptionInterface, ctx: ContextState)
    requires FilledOffer(offer).Success? && NoDup(Mids(offer.description.contents))
    requires ValidContext(ctx) && ctx.infos == OfferedInfos(offer)
    ensures RemoteOffer(ctx, FilledOffer(offer).value).Success?
    ensures ctx.infos == [] ==> RemoteOffer(ctx, FilledOffer(offer).value).value == FilledOffer(offer).value
    ensures ctx.infos != [] ==>
              var local := FilledOffer(offer).value;
              var remote := RemoteOffer(ctx, local).value;
              var kept := Without(local.description.contents, SetOf(MidsOf(ctx.infos)));
              var cs := remote.description.contents;
              && remote.sdpType == Offer
              && remote.sessionId == offer.sessionId && remote.sessionVersion == offer.sessionVersion
              && cs == kept + Exploded(local.description.contents, ctx.infos)
              && Mids(cs) == Mids(kept) + AllRids(ctx.infos)
              && ((forall r :: r in AllRids(ctx.infos) ==> r !in Mids(offer.description.contents)) ==>
                    NoDup(Mids(cs)) && GroupNames(cs) == Mids(cs))
              && |remote.description.groups| > 0
              && remote.description.groups[|remote.description.groups| - 1] == ContentGroup(GroupTypeBundle, GroupNames(cs))
              && OtherGroups(remote.description.groups, GroupTypeBundle) == OtherGroups(offer.description.groups, GroupTypeBundle)
              && remote.description.transportInfos ==
                   TransportsNotIn(offer.description.transportInfos, SetOf(MidsOf(ctx.infos))) + FanOut(ctx.infos)
  {
    if ctx.infos != [] {
      var local := FilledOffer(offer).value;
      var infos := ctx.infos;
      var cs := local.description.contents;
      var out := Without(cs, SetOf(MidsOf(infos))) + Exploded(cs, infos);
      PatchedOfferSections(offer, infos);
      assert ctx.byMid.Keys == SetOf(MidsOf(infos));
      RemoteOfferOf(ctx, local, out);
      BundleGroupsShape(local.description.groups, out);
      GroupNamesShape(out);
    }
  }

  /** The remote offer once the rewrite of the sections is known. */
  lemma RemoteOfferOf(ctx: ContextState, local: SessionDescriptionInterface, out: seq<ContentInfo>)
    requires ctx.infos != [] && ExplodeSections(local.description.contents, ctx.infos) == Success(out)
    ensures RemoteOffer(ctx, local) ==
              Success(Jsep(Offer,
                           SessionDescription(out, BundleGroups(local.description.groups, out),
                                              TransportsNotIn(local.description.transportInfos, ctx.byMid.Keys) + FanOut(ctx.infos)),
                           local.sessionId, local.sessionVersion))
  {
  }

  /** The sections of the patched offer: the rewrite of the filled sections
      succeeds, and the names are those of the sections that were not
      recorded followed by every RID. */
  lemma PatchedOfferSections(offer: SessionDescriptionInterface, infos: seq<SimulcastSectionInfo>)
    requires FilledOffer(offer).Success? && NoDup(Mids(offer.description.contents))
    requires infos == OfferedInfos(offer) && UniqueKeys(infos)
    ensures var cs := FilledOffer(offer).value.description.contents;
            var kept := Without(cs, SetOf(MidsOf(infos)));
            && ExplodeSections(cs, infos) == Success(kept + Exploded(cs, infos))
            && Mids(kept + Exploded(cs, infos)) == Mids(kept) + AllRids(infos)
            && ((forall r :: r in AllRids(infos) ==> r !in Mids(offer.description.contents)) ==>
                  NoDup(Mids(kept + Exploded(cs, infos))))
  {
    var cs := FilledOffer(offer).value.description.contents;
    var kept := Without(cs, SetOf(MidsOf(infos)));
    FilledRecords(offer);
    ExplodeSectionsShape(cs, infos);
    ExplodedMids(cs, infos);
    MidsAppend(kept, Exploded(cs, infos));
    if forall r :: r in AllRids(infos) ==> r !in Mids(offer.description.contents) {
      ExplodedNamesDistinct(cs, infos);
    }
  }

  /** PatchAnswer on the context PatchOffer left on a fresh interceptor:
      when the remote peer answers every section of the patched offer, in
      any order, with a section for each RID whose first one has no streams,
      the answer for the offerer exists exactly when every record has a
      transport binding for one of its RIDs.  It then lists the sections of
      the original offer, by name and in the original order, bundled
      together after the answer's other groups. */
  lemma PatchAnswerRestoresOffer(offer: SessionDescriptionInterface, ctx: ContextState, answer: SessionDescriptionInterface)
    requires FilledOffer(offer).Success? && NoDup(Mids(offer.description.contents))
    requires ValidContext(ctx) && ctx.infos == OfferedInfos(offer) && ctx.infos != []
    requires ctx.midsOrder == Mids(offer.description.contents)
    requires forall r :: r in AllRids(ctx.infos) ==> r !in Mids(offer.description.contents)
    requires RemoteOffer(ctx, FilledOffer(offer).value).Success?
    requires multiset(Mids(answer.description.contents)) ==
               multiset(Mids(RemoteOffer(ctx, FilledOffer(offer).value).value.description.contents))
    requires NoDup(Mids(answer.description.contents)) && AllAnswered(ctx.infos, answer.description.contents)
    ensures AllHaveRids(ctx.infos)
    ensures RemoteAnswer(ctx, answer).Success? <==>
              forall i :: 0 <= i < |ctx.infos| ==> FirstOwned(answer.description.transportInfos, ctx, ctx.infos[i].mid).Some?
    ensures RemoteAnswer(ctx, answer).Success? ==>
              var r := RemoteAnswer(ctx, answer).value;
              && r.sdpType == Answer
              && r.sessionId == answer.sessionId && r.sessionVersion == answer.sessionVersion
              && Mids(r.description.contents) == Mids(offer.description.contents)
              && |r.description.groups| > 0
              && r.description.groups[|r.description.groups| - 1] ==
                   ContentGroup(GroupTypeBundle, Mids(offer.description.contents))
              && OtherGroups(r.description.groups, GroupTypeBundle) == OtherGroups(answer.description.groups, GroupTypeBundle)
              && AnswerTransports(answer.description.transportInfos, ctx) == Success(r.description.transportInfos)
  {
    var local := FilledOffer(offer).value;
    var cs := local.description.contents;
    var infos := ctx.infos;
    var ans := answer.description.contents;
    FilledRecords(offer);
    PatchOfferSucceeds(offer, ctx);
    var kept := Without(cs, SetOf(MidsOf(infos)));
    assert multiset(Mids(ans)) == multiset(Mids(kept)) + multiset(AllRids(infos));
    CollapsedAnswerRestores(cs, infos, ans);
    AnswerTransportsOutcome(answer.description.transportInfos, ctx);
    var restored := RestoredContents(Mids(cs), CollapseSections(ans, infos).value);
    if AnswerTransports(answer.description.transportInfos, ctx).Success? {
      BundleGroupsShape(answer.description.groups, restored.value);
      GroupNamesShape(restored.value);
    }
  }

  class SignalingInterceptor {
    const context: SignalingContext

    /** The context is valid and every record has a RID, as FillContext
        guarantees. */
    ghost predicate Valid()
      reads this, context
    {
      context.Valid() && AllHaveRids(context.simulcastInfos)
    }

    constructor ()
      ensures Valid() && fresh(context) && context.State() == ContextState([], [], map[], map[])
    {
      context := new SignalingContext();
    }

    /** One turn of FillContext's walk: records the section's MID, then
        checks, rewrites and registers a simulcast video section. */
    method FillSection(content: ContentInfo, ts: seq<TransportInfo>) returns (r: Result<ContentInfo>)
      requires Valid()
      modifies context
      ensures context.midsOrder == old(context.midsOrder) + [content.mid]
      ensures r.Success? <==> Registers(old(context.simulcastInfos), content, ts)
      ensures r.Success? ==> r.value == Rewritten(content, ts) && Valid()
      ensures r.Success? ==> context.simulcastInfos == old(context.simulcastInfos) + Recorded(content, ts)
    {
      context.midsOrder := context.midsOrder + [content.mid];
      var analysed := AnalyzeOne(content, ts);
      if analysed.Failure? {
        return Failure(analysed.error);
      }
      if analysed.value.None? {
        assert old(context.simulcastInfos) + [] == old(context.simulcastInfos);
        return Success(content);
      }
      var x := analysed.value.value;
      var added := context.AddSimulcastInfo(x.info);
      if added.Fail? {
        return Failure(added.error);
      }
      AllHaveRidsSnoc(old(context.simulcastInfos), x.info);
      return Success(x.content);
    }

    /** FillContext: walks the offer's sections in order, recording every
        MID and rewriting and registering every simulcast video section. */
    method FillContext(offer: SessionDescriptionInterface) returns (r: Result<SessionDescriptionInterface>)
      requires Valid()
      modifies context
      ensures r.Success? <==> FilledOffer(offer).Success? && UniqueKeys(old(context.simulcastInfos) + OfferedInfos(offer))
      ensures r.Success? ==> r == FilledOffer(offer) && Valid()
      ensures r.Success? ==> context.simulcastInfos == old(context.simulcastInfos) + OfferedInfos(offer)
      ensures r.Success? ==> context.midsOrder == old(context.midsOrder) + Mids(offer.description.contents)
    {
      var cs := offer.description.contents;
      var ts := offer.description.transportInfos;
      var contents := cs;
      ghost var infos0 := context.simulcastInfos;
      ghost var order0 := context.midsOrder;
      ghost var a := OfferAnalysis([], []);
      for k := 0 to |cs|
        invariant Valid()
        invariant AnalyzeContents(cs[..k], ts) == Success(a)
        invariant context.simulcastInfos == infos0 + a.infos
        invariant |a.contents| == k && contents == a.contents + cs[k..]
        invariant context.midsOrder == order0 + Mids(cs[..k])
      {
        SpliceAt(a.contents, cs, k, Rewritten(cs[k], ts));
        var content := contents[k];
        var filled := FillSection(content, ts);
        if filled.Failure? {
          ScanStops(infos0, cs, ts, k, a);
          return Failure(filled.error);
        }
        ScanAdvances(cs, ts, k, a);
        contents := contents[k := filled.value];
        ConcatAssoc(infos0, a.infos, Recorded(cs[k], ts));
        a := OfferAnalysis(a.infos + Recorded(cs[k], ts), a.contents + [Rewritten(cs[k], ts)]);
      }
      assert cs[..|cs|] == cs;
      assert AnalyzeContents(cs, ts) == Success(a);
      assert contents == a.contents;
      return Success(offer.(description := offer.description.(contents := contents)));
    }

    /** PatchOffer: fills the context from the offer, then builds the offer
        for the remote peer. */
    method PatchOffer(offer: SessionDescriptionInterface) returns (r: Result<LocalAndRemoteSdp>)
      requires Valid()
      modifies context
      ensures !(FilledOffer(offer).Success? && UniqueKeys(old(context.simulcastInfos) + OfferedInfos(offer))) ==> r.Failure?
      ensures FilledOffer(offer).Success? && UniqueKeys(old(context.simulcastInfos) + OfferedInfos(offer)) ==>
                && Valid()
                && context.simulcastInfos == old(context.simulcastInfos) + OfferedInfos(offer)
                && context.midsOrder == old(context.midsOrder) + Mids(offer.description.contents)
                && r == WithLocal(FilledOffer(offer).value, RemoteOffer(context.State(), FilledOffer(offer).value))
    {
      var filled := FillContext(offer);
      if filled.Failure? {
        return Failure(filled.error);
      }
      var local := filled.value;
      if !context.HasSimulcast() {
        return Success(LocalAndRemoteSdp(local, local));
      }
      var desc := PatchOfferDescription(local.description, context.simulcastInfos, context.infosByMid.Keys);
      if desc.Failure? {
        return Failure(desc.error);
      }
      return Success(LocalAndRemoteSdp(local, Jsep(Offer, desc.value, local.sessionId, local.sessionVersion)));
    }

    /** PatchAnswer: builds the answer for the offerer from the remote
        peer's answer. */
    method PatchAnswer(answer: SessionDescriptionInterface) returns (r: Result<LocalAndRemoteSdp>)
      requires Valid()
      ensures r == WithLocal(answer, RemoteAnswer(context.State(), answer))
    {
      if !context.HasSimulcast() {
        return Success(LocalAndRemoteSdp(answer, answer));
      }
      var desc := PatchAnswerDescription(answer.description, context.State());
      if desc.Failure? {
        return Failure(desc.error);
      }
      return Success(LocalAndRemoteSdp(answer, Jsep(Answer, desc.value, answer.sessionId, answer.sessionVersion)));
    }

    /** PatchOffererIceCandidates: the offerer's candidates re-addressed
        for the answerer by the recorded context. */
    method PatchOffererIceCandidates(cands: seq<IceCandidate>) returns (r: Result<seq<IceCandidate>>)
      requires Valid()
      ensures r == OffererCandidates(context.State(), cands)
    {
      r := Candidates.PatchOffererIceCandidates(context.State(), cands);
    }

    /** PatchAnswererIceCandidates: the answerer's candidates re-addressed
        for the offerer by the recorded context. */
    method PatchAnswererIceCandidates(cands: seq<IceCandidate>) returns (r: Result<seq<IceCandidate>>)
      requires Valid()
      ensures r == AnswererCandidates(context.State(), cands)
    {
      r := Candidates.PatchAnswererIceCandidates(context.State(), cands);
    }
  }
}
