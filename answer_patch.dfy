/** The rewrite PatchAnswer applies to the answer the remote peer returns:
    the per-RID sections of every recorded simulcast section collapse back
    into one receive-side simulcast section named by the recorded MID, the
    sections return to the order of the original offer, the BUNDLE group is
    rebuilt and the transport bindings of the RIDs are folded back into one
    binding per MID.  The functions state the rewrite; the methods are the
    loops PatchAnswer runs. */
module AnswerPatch {
  import opened Sdp
  import opened Context
  import opened SectionOrder
  import opened OfferPatch

  // ---------------------------------------------------------------------
  // One collapsed section

  /** The MID, RID and repaired-RID extensions. */
  predicate IsSdesExtension(e: RtpExtension) {
    e.uri == MidUri || e.uri == RidUri || e.uri == RepairedRidUri
  }

  /** The extensions of the answer section other than the MID, RID and
      repaired-RID ones, in order. */
  function WithoutSdes(exts: seq<RtpExtension>): (r: seq<RtpExtension>)
    ensures |r| <= |exts|
  {
    if exts == [] then []
    else
      var e := exts[|exts| - 1];
      WithoutSdes(exts[..|exts| - 1]) + (if IsSdesExtension(e) then [] else [e])
  }

  /** The extension list of a collapsed section: the answer's own extensions
      without MID and RID extensions, followed by the recorded MID extension
      and the recorded RID extension.  The recorded repaired-RID extension is
      not put back. */
  function AnswerExtensions(exts: seq<RtpExtension>, info: SimulcastSectionInfo): seq<RtpExtension> {
    WithoutSdes(exts) + [info.midExtension, info.ridExtension]
  }

  /** The RIDs as receive-direction RID descriptions. */
  function ReceiveRids(rids: seq<string>): seq<RidDescription> {
    seq(|rids|, k requires 0 <= k < |rids| => RidDescription(rids[k], Receive, []))
  }

  /** The media of a collapsed section, built from the media of the answer's
      section for the first RID: answer extensions, one default stream
      receiving every RID, and the recorded send layers as receive layers. */
  function AnswerMedia(media: MediaDescription, info: SimulcastSectionInfo): MediaDescription {
    media.(extensions := AnswerExtensions(media.extensions, info),
           streams := [StreamParams(ReceiveRids(info.rids), [])],
           simulcast := SimulcastDescription([], info.simulcastDescription.sendLayers))
  }

  /** The collapse of one record: the sections of its RIDs are removed and
      one section named by its MID is appended.  A missing RID section is
      fatal, and so is a first-RID section that already has streams. */
  function CollapseSection(cs: seq<ContentInfo>, info: SimulcastSectionInfo): Result<seq<ContentInfo>>
    requires info.rids != []
  {
    match FindContent(cs, info.rids[0])
    case None => Failure(SectionMissing)
    case Some(c) =>
      match RemoveEach(cs, info.rids)
      case None => Failure(SectionMissing)
      case Some(rest) =>
        if c.media.streams != [] then Failure(AnswerHasStreams)
        else Success(rest + [NewContent(info.mid, info.mediaProtocolType, AnswerMedia(c.media, info))])
  }

  /** The collapse of every record, in record order. */
  function CollapseSections(cs: seq<ContentInfo>, infos: seq<SimulcastSectionInfo>): Result<seq<ContentInfo>>
    requires AllHaveRids(infos)
  {
    if infos == [] then Success(cs)
    else
      var n := |infos| - 1;
      assert infos[n].rids != [];
      assert AllHaveRids(infos[..n]) by {
        assert forall i :: 0 <= i < n ==> infos[..n][i] == infos[i];
      }
      match CollapseSections(cs, infos[..n])
      case Failure(e) => Failure(e)
      case Success(cs') => CollapseSection(cs', infos[n])
  }

  /** What the answer must hold for a record to collapse: a section for each
      of its RIDs, the first of them without streams. */
  ghost predicate Answered(info: SimulcastSectionInfo, cs: seq<ContentInfo>) {
    && info.rids != []
    && (forall r :: r in info.rids ==> r in Mids(cs))
    && FindContent(cs, info.rids[0]).Some?
    && FindContent(cs, info.rids[0]).value.media.streams == []
  }

  ghost predicate AllAnswered(infos: seq<SimulcastSectionInfo>, cs: seq<ContentInfo>) {
    forall i :: 0 <= i < |infos| ==> Answered(infos[i], cs)
  }

  /** The collapsed section of a record, built from the answer's section for
      its first RID. */
  function SimulcastSectionOf(cs: seq<ContentInfo>, info: SimulcastSectionInfo): ContentInfo
    requires Answered(info, cs)
  {
    NewContent(info.mid, info.mediaProtocolType, AnswerMedia(FindContent(cs, info.rids[0]).value.media, info))
  }

  /** Reference definition of what the collapse appends: the collapsed
      section of every record, in record order. */
  function Collapsed(cs: seq<ContentInfo>, infos: seq<SimulcastSectionInfo>): (r: seq<ContentInfo>)
    requires AllAnswered(infos, cs)
    ensures |r| == |infos| && forall i {:trigger r[i]} :: 0 <= i < |infos| ==> r[i] == SimulcastSectionOf(cs, infos[i])
  {
    seq(|infos|, i requires 0 <= i < |infos| && AllAnswered(infos, cs) => SimulcastSectionOf(cs, infos[i]))
  }

  // ---------------------------------------------------------------------
  // Properties of the collapse

  /** An extension is kept exactly when it is an answer extension that is not
      a MID, RID or repaired-RID extension. */
  lemma {:induction false} WithoutSdesMembers(exts: seq<RtpExtension>, e: RtpExtension)
    ensures e in WithoutSdes(exts) <==> e in exts && !IsSdesExtension(e)
  {
    if exts != [] {
      var n := |exts| - 1;
      WithoutSdesMembers(exts[..n], e);
      assert exts == exts[..n] + [exts[n]];
    }
  }

  /** A collapsed section carries exactly one MID extension and one RID
      extension when the recorded ones have those URIs: the recorded ones,
      last. */
  lemma AnswerExtensionsShape(exts: seq<RtpExtension>, info: SimulcastSectionInfo)
    requires info.midExtension.uri == MidUri && info.ridExtension.uri == RidUri
    ensures var r := AnswerExtensions(exts, info);
            && |r| >= 2 && r[|r| - 2] == info.midExtension && r[|r| - 1] == info.ridExtension
            && (forall e :: e in r[..|r| - 2] <==> e in exts && !IsSdesExtension(e))
            && (forall k :: 0 <= k < |r| - 2 ==> !IsSdesExtension(r[k]))
  {
    var r := AnswerExtensions(exts, info);
    var kept := WithoutSdes(exts);
    assert r[..|r| - 2] == kept;
    forall e ensures e in kept <==> e in exts && !IsSdesExtension(e) {
      WithoutSdesMembers(exts, e);
    }
    forall k | 0 <= k < |r| - 2 ensures !IsSdesExtension(r[k]) {
      assert r[k] == kept[k];
      WithoutSdesMembers(exts, r[k]);
    }
  }

  /** A collapsed section receives every recorded RID, in order, and its
      receive layers are the layers the offer sent. */
  lemma AnswerMediaShape(media: MediaDescription, info: SimulcastSectionInfo)
    ensures var m := AnswerMedia(media, info);
            && |m.streams| == 1 && RidNames(m.streams[0].rids) == info.rids
            && (forall d :: d in m.streams[0].rids ==> d.direction == Receive)
            && m.simulcast.sendLayers == [] && m.simulcast.receiveLayers == info.simulcastDescription.sendLayers
            && m.mediaType == media.mediaType && m.attributes == media.attributes
  {
    var m := AnswerMedia(media, info);
    assert RidNames(m.streams[0].rids) == info.rids;
  }

  lemma AllAnsweredPrefix(infos: seq<SimulcastSectionInfo>, cs: seq<ContentInfo>)
    requires infos != [] && AllAnswered(infos, cs)
    ensures AllAnswered(infos[..|infos| - 1], cs) && Answered(infos[|infos| - 1], cs)
    ensures AllHaveRids(infos)
  {
    var prefix := infos[..|infos| - 1];
    assert forall i :: 0 <= i < |prefix| ==> prefix[i] == infos[i];
  }

  lemma AllAnsweredHaveRids(infos: seq<SimulcastSectionInfo>, cs: seq<ContentInfo>)
    requires AllAnswered(infos, cs)
    ensures AllHaveRids(infos)
  {
  }

  /** One step of the collapse on a list whose earlier records are already
      collapsed. */
  lemma CollapseStep(cs: seq<ContentInfo>, done: set<string>, e: seq<ContentInfo>, info: SimulcastSectionInfo)
    requires NoDup(Mids(cs)) && NoDup(info.rids) && Answered(info, cs)
    requires forall r :: r in info.rids ==> r !in done
    ensures CollapseSection(Without(cs, done) + e, info) ==
              Success(Without(cs, done + SetOf(info.rids)) + e + [SimulcastSectionOf(cs, info)])
  {
    var first := info.rids[0];
    var kept := Without(cs, done);
    WithoutMembers(cs, done, first);
    FindAppendLeft(kept, e, first);
    FindInWithout(cs, done, first);
    RemoveEachFromWithout(cs, done, info.rids, e);
  }

  lemma CollapseSectionsLast(cs: seq<ContentInfo>, infos: seq<SimulcastSectionInfo>, before: seq<ContentInfo>)
    requires infos != [] && AllHaveRids(infos)
    requires CollapseSections(cs, infos[..|infos| - 1]) == Success(before)
    ensures CollapseSections(cs, infos) == CollapseSection(before, infos[|infos| - 1])
  {
  }

  lemma AllRidsLast(infos: seq<SimulcastSectionInfo>)
    requires infos != []
    ensures AllRids(infos) == AllRids(infos[..|infos| - 1]) + infos[|infos| - 1].rids
    ensures SetOf(AllRids(infos)) == SetOf(AllRids(infos[..|infos| - 1])) + SetOf(infos[|infos| - 1].rids)
  {
  }

  lemma CollapsedLast(cs: seq<ContentInfo>, infos: seq<SimulcastSectionInfo>)
    requires infos != [] && AllAnswered(infos, cs)
    ensures AllAnswered(infos[..|infos| - 1], cs)
    ensures Collapsed(cs, infos) == Collapsed(cs, infos[..|infos| - 1]) + [SimulcastSectionOf(cs, infos[|infos| - 1])]
  {
    AllAnsweredPrefix(infos, cs);
    var n := |infos| - 1;
    assert Collapsed(cs, infos)[..n] == Collapsed(cs, infos[..n]);
  }

  /** With distinct section names and distinct RIDs that all have their
      sections, the collapse succeeds: it filters every RID section out and
      appends one collapsed section per record. */
  lemma {:induction false} CollapseSectionsShape(cs: seq<ContentInfo>, infos: seq<SimulcastSectionInfo>)
    requires NoDup(Mids(cs)) && NoDup(AllRids(infos)) && AllAnswered(infos, cs)
    ensures AllHaveRids(infos)
    ensures CollapseSections(cs, infos) == Success(Without(cs, SetOf(AllRids(infos))) + Collapsed(cs, infos))
  {
    AllAnsweredHaveRids(infos, cs);
    if infos == [] {
      assert SetOf(AllRids(infos)) == {};
      WithoutNothing(cs);
      assert Without(cs, {}) + Collapsed(cs, infos) == cs;
    } else {
      var n := |infos| - 1;
      var prefix := infos[..n];
      AllRidsLast(infos);
      NoDupConcat(AllRids(prefix), infos[n].rids);
      AllAnsweredPrefix(infos, cs);
      CollapseSectionsShape(cs, prefix);
      CollapseSectionsStep(cs, infos);
    }
  }

  lemma {:induction false} CollapseSectionsStep(cs: seq<ContentInfo>, infos: seq<SimulcastSectionInfo>)
    requires infos != [] && NoDup(Mids(cs)) && AllAnswered(infos, cs)
    requires var n := |infos| - 1;
             && NoDup(infos[n].rids)
             && (forall r :: r in infos[n].rids ==> r !in AllRids(infos[..n]))
             && AllHaveRids(infos[..n]) && AllAnswered(infos[..n], cs)
             && CollapseSections(cs, infos[..n]) == Success(Without(cs, SetOf(AllRids(infos[..n]))) + Collapsed(cs, infos[..n]))
    ensures AllHaveRids(infos)
    ensures CollapseSections(cs, infos) == Success(Without(cs, SetOf(AllRids(infos))) + Collapsed(cs, infos))
  {
    var n := |infos| - 1;
    var info := infos[n];
    AllAnsweredPrefix(infos, cs);
    var done := SetOf(AllRids(infos[..n]));
    var e := Collapsed(cs, infos[..n]);
    CollapseSectionsLast(cs, infos, Without(cs, done) + e);
    CollapseStep(cs, done, e, info);
    AllRidsLast(infos);
    CollapsedLast(cs, infos);
    assert Without(cs, done + SetOf(info.rids)) + e + [SimulcastSectionOf(cs, info)] ==
           Without(cs, SetOf(AllRids(infos))) + Collapsed(cs, infos);
  }

  /** The collapsed sections are named by the recorded MIDs, in record order. */
  lemma CollapsedMids(cs: seq<ContentInfo>, infos: seq<SimulcastSectionInfo>)
    requires AllAnswered(infos, cs)
    ensures Mids(Collapsed(cs, infos)) == MidsOf(infos)
  {
  }

  /** Collapsing an answer that answers every section the patched offer
      listed, in any order, and restoring the offer's order succeeds and
      gives back the section names of the original offer, in its order. */
  lemma CollapsedAnswerRestores(cs: seq<ContentInfo>, infos: seq<SimulcastSectionInfo>, ans: seq<ContentInfo>)
    requires NoDup(Mids(cs)) && UniqueKeys(infos)
    requires forall m :: m in MidsOf(infos) ==> m in Mids(cs)
    requires forall r :: r in AllRids(infos) ==> r !in Mids(cs)
    requires NoDup(Mids(ans)) && AllAnswered(infos, ans)
    requires multiset(Mids(ans)) == multiset(Mids(Without(cs, SetOf(MidsOf(infos))))) + multiset(AllRids(infos))
    ensures AllHaveRids(infos)
    ensures CollapseSections(ans, infos).Success?
    ensures RestoredContents(Mids(cs), CollapseSections(ans, infos).value).Success?
    ensures Mids(RestoredContents(Mids(cs), CollapseSections(ans, infos).value).value) == Mids(cs)
  {
    CollapseSectionsShape(ans, infos);
    var collapsed := Without(ans, SetOf(AllRids(infos))) + Collapsed(ans, infos);
    CollapsedNames(cs, infos, ans);
    RestoredContentsOutcome(Mids(cs), collapsed);
  }

  /** The names after the collapse are, as a multiset, the names of the
      original offer. */
  lemma CollapsedNames(cs: seq<ContentInfo>, infos: seq<SimulcastSectionInfo>, ans: seq<ContentInfo>)
    requires NoDup(Mids(cs)) && UniqueKeys(infos)
    requires forall m :: m in MidsOf(infos) ==> m in Mids(cs)
    requires forall r :: r in AllRids(infos) ==> r !in Mids(cs)
    requires AllAnswered(infos, ans)
    requires multiset(Mids(ans)) == multiset(Mids(Without(cs, SetOf(MidsOf(infos))))) + multiset(AllRids(infos))
    ensures multiset(Mids(Without(ans, SetOf(AllRids(infos))) + Collapsed(ans, infos))) == multiset(Mids(cs))
  {
    var kept := Without(ans, SetOf(AllRids(infos)));
    CollapsedNameCounts(cs, infos, ans);
    CollapsedMids(ans, infos);
    MidsAppend(kept, Collapsed(ans, infos));
    assert Mids(kept + Collapsed(ans, infos)) == Mids(kept) + MidsOf(infos);
  }

  /** The names of an answer to the patched offer: the offer's unique
      section names with the recorded MIDs replaced by the records' RIDs,
      which the offer did not use as names. */
  ghost predicate AnswerNamesOffer(cs: seq<ContentInfo>, infos: seq<SimulcastSectionInfo>, ans: seq<ContentInfo>) {
    && NoDup(Mids(cs)) && UniqueKeys(infos)
    && (forall m :: m in MidsOf(infos) ==> m in Mids(cs))
    && (forall r :: r in AllRids(infos) ==> r !in Mids(cs))
    && multiset(Mids(ans)) == multiset(Mids(Without(cs, SetOf(MidsOf(infos))))) + multiset(AllRids(infos))
  }

  lemma CollapsedNameCounts(cs: seq<ContentInfo>, infos: seq<SimulcastSectionInfo>, ans: seq<ContentInfo>)
    requires AnswerNamesOffer(cs, infos, ans)
    ensures multiset(Mids(Without(ans, SetOf(AllRids(infos))))) + multiset(MidsOf(infos)) == multiset(Mids(cs))
  {
    var a := multiset(Mids(Without(ans, SetOf(AllRids(infos))))) + multiset(MidsOf(infos));
    var c := multiset(Mids(cs));
    forall x ensures a[x] == c[x] {
      CollapsedNameCount(cs, infos, ans, x);
    }
    SameCounts(a, c);
  }

  lemma SameCounts(a: multiset<string>, c: multiset<string>)
    requires forall x :: a[x] == c[x]
    ensures a == c
  {
  }

  lemma CollapsedNameCount(cs: seq<ContentInfo>, infos: seq<SimulcastSectionInfo>, ans: seq<ContentInfo>, x: string)
    requires AnswerNamesOffer(cs, infos, ans)
    ensures multiset(Mids(Without(ans, SetOf(AllRids(infos)))))[x] + multiset(MidsOf(infos))[x] == multiset(Mids(cs))[x]
  {
    var rids := SetOf(AllRids(infos));
    var recorded := SetOf(MidsOf(infos));
    WithoutCount(ans, rids, x);
    NoDupCount(MidsOf(infos), x);
    NoDupCount(Mids(cs), x);
    if x in rids {
      assert x in AllRids(infos);
      assert x !in Mids(cs);
      assert x !in MidsOf(infos);
    } else {
      assert x !in AllRids(infos);
      assert multiset(AllRids(infos))[x] == 0;
      WithoutCount(cs, recorded, x);
      if x in recorded {
        assert x in MidsOf(infos);
        assert x in Mids(cs);
      } else {
        assert x !in MidsOf(infos);
      }
    }
  }

  // ---------------------------------------------------------------------
  // Transport bindings

  /** A binding belongs to the record with MID `mid` when its name is one of
      that record's RIDs. */
  predicate OwnedBy(ctx: ContextState, t: TransportInfo, mid: string) {
    Owner(ctx, t.contentName) == Some(mid)
  }

  /** Reference definition: the description of the first binding, in list
      order, that belongs to the record with MID `mid`. */
  function FirstOwned(ts: seq<TransportInfo>, ctx: ContextState, mid: string): (r: Option<Blob>)
    ensures r.None? <==> forall t :: t in ts ==> !OwnedBy(ctx, t, mid)
    ensures r.Some? ==> exists t :: t in ts && OwnedBy(ctx, t, mid) && t.description == r.value
  {
    if ts == [] then None
    else if OwnedBy(ctx, ts[0], mid) then Some(ts[0].description)
    else FirstOwned(ts[1..], ctx, mid)
  }

  /** The MID-to-description map PatchAnswer fills while walking the
      bindings: a RID binding adds its description under the MID of the
      record that owns the RID, unless that MID already has one. */
  function CollectedTransports(ts: seq<TransportInfo>, ctx: ContextState): map<string, Blob>
  {
    if ts == [] then map[]
    else
      var found := CollectedTransports(ts[..|ts| - 1], ctx);
      var t := ts[|ts| - 1];
      match Owner(ctx, t.contentName)
      case None => found
      case Some(mid) => if mid in found then found else found[mid := t.description]
  }

  /** One binding per record, named by its MID, with the collected
      description; None when a record has no collected description. */
  function MidBindings(infos: seq<SimulcastSectionInfo>, found: map<string, Blob>): (r: Option<seq<TransportInfo>>)
    ensures r.Some? <==> forall i :: 0 <= i < |infos| ==> infos[i].mid in found
    ensures r.Some? ==> |r.value| == |infos|
    ensures r.Some? ==> forall i {:trigger r.value[i]} :: 0 <= i < |infos| ==> r.value[i] == TransportInfo(infos[i].mid, found[infos[i].mid])
  {
    if forall i :: 0 <= i < |infos| ==> infos[i].mid in found then
      Some(seq(|infos|, i requires 0 <= i < |infos| => TransportInfo(infos[i].mid, found[infos[i].mid])))
    else None
  }

  /** The answer's bindings after the fix: every binding that is not named by
      a RID, in order, then one binding per record; a record none of whose
      RIDs is bound is fatal. */
  function AnswerTransports(ts: seq<TransportInfo>, ctx: ContextState): Result<seq<TransportInfo>>
  {
    match MidBindings(ctx.infos, CollectedTransports(ts, ctx))
    case None => Failure(AnswerTransportMissing)
    case Some(b) => Success(TransportsNotIn(ts, ctx.byRid.Keys) + b)
  }

  /** The binding of every record to its own transport, in record order. */
  function MidTransports(infos: seq<SimulcastSectionInfo>): seq<TransportInfo> {
    seq(|infos|, i requires 0 <= i < |infos| => TransportInfo(infos[i].mid, infos[i].transportDescription))
  }

  /** The description PatchAnswer hands back: sections collapsed and put back
      into the recorded order, BUNDLE rebuilt, RID bindings folded into MID
      bindings. */
  function PatchedAnswerDescription(desc: SessionDescription, ctx: ContextState): Result<SessionDescription>
    requires AllHaveRids(ctx.infos)
  {
    match CollapseSections(desc.contents, ctx.infos)
    case Failure(e) => Failure(e)
    case Success(collapsed) =>
      match RestoredContents(ctx.midsOrder, collapsed)
      case Failure(e) => Failure(e)
      case Success(cs) =>
        match AnswerTransports(desc.transportInfos, ctx)
        case Failure(e) => Failure(e)
        case Success(ts) => Success(SessionDescription(cs, BundleGroups(desc.groups, cs), ts))
  }

  // ---------------------------------------------------------------------
  // Properties of the transport fix

  lemma {:induction false} FirstOwnedAppend(a: seq<TransportInfo>, b: seq<TransportInfo>, ctx: ContextState, mid: string)
    ensures FirstOwned(a + b, ctx, mid) == if FirstOwned(a, ctx, mid).Some? then FirstOwned(a, ctx, mid) else FirstOwned(b, ctx, mid)
  {
    if a == [] {
      assert a + b == b;
    } else {
      assert (a + b)[0] == a[0] && (a + b)[1..] == a[1..] + b;
      FirstOwnedAppend(a[1..], b, ctx, mid);
    }
  }

  /** The collected map holds, for each MID, the description of the first
      binding of one of its RIDs: the first binding wins. */
  lemma {:induction false} CollectedIsFirst(ts: seq<TransportInfo>, ctx: ContextState, mid: string)
    ensures FirstOwned(ts, ctx, mid) ==
              if mid in CollectedTransports(ts, ctx) then Some(CollectedTransports(ts, ctx)[mid]) else None
  {
    if ts != [] {
      var n := |ts| - 1;
      CollectedIsFirst(ts[..n], ctx, mid);
      FirstOwnedSnoc(ts, ctx, mid);
    }
  }

  lemma FirstOwnedSnoc(ts: seq<TransportInfo>, ctx: ContextState, mid: string)
    requires ts != []
    ensures var n := |ts| - 1;
            FirstOwned(ts, ctx, mid) ==
              if FirstOwned(ts[..n], ctx, mid).Some? then FirstOwned(ts[..n], ctx, mid)
              else if OwnedBy(ctx, ts[n], mid) then Some(ts[n].description)
              else None
  {
    var n := |ts| - 1;
    assert ts == ts[..n] + [ts[n]];
    FirstOwnedAppend(ts[..n], [ts[n]], ctx, mid);
  }

  /** CollectedIsFirst at the MID of every record. */
  lemma CollectedAtRecords(ts: seq<TransportInfo>, ctx: ContextState)
    ensures forall i :: 0 <= i < |ctx.infos| ==>
              FirstOwned(ts, ctx, ctx.infos[i].mid) ==
                if ctx.infos[i].mid in CollectedTransports(ts, ctx) then Some(CollectedTransports(ts, ctx)[ctx.infos[i].mid]) else None
  {
    forall i | 0 <= i < |ctx.infos|
      ensures FirstOwned(ts, ctx, ctx.infos[i].mid) ==
                if ctx.infos[i].mid in CollectedTransports(ts, ctx) then Some(CollectedTransports(ts, ctx)[ctx.infos[i].mid]) else None
    {
      CollectedIsFirst(ts, ctx, ctx.infos[i].mid);
    }
  }

  /** The fix succeeds exactly when every record has a binding for one of
      its RIDs. */
  lemma AnswerTransportsOutcome(ts: seq<TransportInfo>, ctx: ContextState)
    ensures AnswerTransports(ts, ctx).Success? <==>
              forall i :: 0 <= i < |ctx.infos| ==> FirstOwned(ts, ctx, ctx.infos[i].mid).Some?
    ensures AnswerTransports(ts, ctx).Failure? ==> AnswerTransports(ts, ctx).error == AnswerTransportMissing
  {
    CollectedAtRecords(ts, ctx);
  }

  /** On success the fix keeps the bindings not named by a RID in order and
      then binds each MID to the first RID binding of its record. */
  lemma AnswerTransportsShape(ts: seq<TransportInfo>, ctx: ContextState)
    requires AnswerTransports(ts, ctx).Success?
    ensures var r := AnswerTransports(ts, ctx).value;
            var kept := TransportsNotIn(ts, ctx.byRid.Keys);
            |r| == |kept| + |ctx.infos| && r[..|kept|] == kept
    ensures var r := AnswerTransports(ts, ctx).value;
            var kept := TransportsNotIn(ts, ctx.byRid.Keys);
            forall i :: 0 <= i < |ctx.infos| ==>
              r[|kept| + i].contentName == ctx.infos[i].mid &&
              FirstOwned(ts, ctx, ctx.infos[i].mid) == Some(r[|kept| + i].description)
  {
    var b := MidBindings(ctx.infos, CollectedTransports(ts, ctx)).value;
    var kept := TransportsNotIn(ts, ctx.byRid.Keys);
    var r := kept + b;
    assert AnswerTransports(ts, ctx) == Success(r);
    assert r[..|kept|] == kept;
    forall i | 0 <= i < |ctx.infos|
      ensures r[|kept| + i].contentName == ctx.infos[i].mid
      ensures FirstOwned(ts, ctx, ctx.infos[i].mid) == Some(r[|kept| + i].description)
    {
      BindingAt(ts, ctx, i);
      assert r[|kept| + i] == b[i];
    }
  }

  /** The binding MidBindings makes for one record carries the description
      of the record's first RID binding. */
  lemma BindingAt(ts: seq<TransportInfo>, ctx: ContextState, i: nat)
    requires MidBindings(ctx.infos, CollectedTransports(ts, ctx)).Some? && i < |ctx.infos|
    ensures var b := MidBindings(ctx.infos, CollectedTransports(ts, ctx)).value;
            b[i].contentName == ctx.infos[i].mid && FirstOwned(ts, ctx, ctx.infos[i].mid) == Some(b[i].description)
  {
    CollectedIsFirst(ts, ctx, ctx.infos[i].mid);
  }

  // ---------------------------------------------------------------------
  // The answer's bindings fold back what the offer fanned out

  /** The first binding of a record's RID bindings that a MID owns: the
      record's transport for its own MID, none for any other. */
  lemma RidTransportsFirstOwned(ctx: ContextState, j: nat, mid: string)
    requires ValidContext(ctx) && j < |ctx.infos| && ctx.infos[j].rids != []
    ensures FirstOwned(RidTransports(ctx.infos[j]), ctx, mid) ==
              if mid == ctx.infos[j].mid then Some(ctx.infos[j].transportDescription) else None
  {
    var ts := RidTransports(ctx.infos[j]);
    forall k | 0 <= k < |ts| ensures Owner(ctx, ts[k].contentName) == Some(ctx.infos[j].mid) {
      RidOwner(ctx, j, k);
    }
    if mid != ctx.infos[j].mid {
      forall t | t in ts ensures !OwnedBy(ctx, t, mid) {
        var k :| 0 <= k < |ts| && ts[k] == t;
      }
    }
  }

  /** Over the fanned-out bindings of the first `j` records, a record's MID
      first meets its own transport if the record is among them, and nothing
      otherwise. */
  lemma {:induction false} FanOutFirstOwned(ctx: ContextState, j: nat, i: nat)
    requires ValidContext(ctx) && AllHaveRids(ctx.infos) && j <= |ctx.infos| && i < |ctx.infos|
    ensures FirstOwned(FanOut(ctx.infos[..j]), ctx, ctx.infos[i].mid) ==
              if i < j then Some(ctx.infos[i].transportDescription) else None
  {
    if j > 0 {
      var mid := ctx.infos[i].mid;
      FanOutPrefixLast(ctx.infos, j);
      FanOutFirstOwned(ctx, j - 1, i);
      FirstOwnedAppend(FanOut(ctx.infos[..j - 1]), RidTransports(ctx.infos[j - 1]), ctx, mid);
      RidTransportsFirstOwned(ctx, j - 1, mid);
      DistinctMids(ctx.infos, i, j - 1);
    }
  }

  lemma FanOutPrefixLast(infos: seq<SimulcastSectionInfo>, j: nat)
    requires 0 < j <= |infos|
    ensures FanOut(infos[..j]) == FanOut(infos[..j - 1]) + RidTransports(infos[j - 1])
  {
    assert infos[..j][..j - 1] == infos[..j - 1];
  }

  lemma {:induction false} TransportsNotInAppend(a: seq<TransportInfo>, b: seq<TransportInfo>, names: set<string>)
    ensures TransportsNotIn(a + b, names) == TransportsNotIn(a, names) + TransportsNotIn(b, names)
    decreases |b|
  {
    if b == [] {
      assert a + b == a;
    } else {
      var n := |b| - 1;
      assert (a + b)[..|a + b| - 1] == a + b[..n];
      TransportsNotInAppend(a, b[..n], names);
    }
  }

  lemma {:induction false} TransportsNotInKeeps(ts: seq<TransportInfo>, names: set<string>)
    requires forall k :: 0 <= k < |ts| ==> ts[k].contentName !in names
    ensures TransportsNotIn(ts, names) == ts
  {
    if ts != [] {
      var n := |ts| - 1;
      TransportsNotInKeeps(ts[..n], names);
      assert ts[..n] + [ts[n]] == ts;
    }
  }

  lemma {:induction false} TransportsNotInDrops(ts: seq<TransportInfo>, names: set<string>)
    requires forall k :: 0 <= k < |ts| ==> ts[k].contentName in names
    ensures TransportsNotIn(ts, names) == []
  {
    if ts != [] {
      var n := |ts| - 1;
      TransportsNotInDrops(ts[..n], names);
    }
  }

  /** Every fanned-out binding is named by a registered RID. */
  lemma FanOutNamedByRids(ctx: ContextState)
    requires ValidContext(ctx)
    ensures forall k :: 0 <= k < |FanOut(ctx.infos)| ==> FanOut(ctx.infos)[k].contentName in ctx.byRid.Keys
  {
    var ts := FanOut(ctx.infos);
    FanOutShape(ctx.infos);
    forall k | 0 <= k < |ts| ensures ts[k].contentName in ctx.byRid.Keys {
      assert ContentNames(ts)[k] == ts[k].contentName;
    }
  }

  /** An answer that echoes the offer's bindings (the other bindings, then
      the fanned-out RID bindings) gets back one binding per record, to the
      record's own transport, after the other bindings. */
  lemma AnswerTransportsRoundTrip(kept: seq<TransportInfo>, ctx: ContextState)
    requires ValidContext(ctx) && AllHaveRids(ctx.infos)
    requires forall t :: t in kept ==> t.contentName !in ctx.byRid
    ensures AnswerTransports(kept + FanOut(ctx.infos), ctx) == Success(kept + MidTransports(ctx.infos))
  {
    var ts := kept + FanOut(ctx.infos);
    EchoedFirstOwned(kept, ctx);
    AnswerTransportsOutcome(ts, ctx);
    EchoedKept(kept, ctx);
    EchoedResult(ts, kept, ctx);
  }

  lemma EchoedResult(ts: seq<TransportInfo>, kept: seq<TransportInfo>, ctx: ContextState)
    requires AnswerTransports(ts, ctx).Success?
    requires forall i :: 0 <= i < |ctx.infos| ==> FirstOwned(ts, ctx, ctx.infos[i].mid) == Some(ctx.infos[i].transportDescription)
    requires TransportsNotIn(ts, ctx.byRid.Keys) == kept
    ensures AnswerTransports(ts, ctx) == Success(kept + MidTransports(ctx.infos))
  {
    AnswerTransportsShape(ts, ctx);
    var r := AnswerTransports(ts, ctx).value;
    var back := MidTransports(ctx.infos);
    forall i | 0 <= i < |back| ensures r[|kept| + i] == back[i] {
    }
    JoinAt(r, kept, back);
  }

  lemma EchoedFirstOwned(kept: seq<TransportInfo>, ctx: ContextState)
    requires ValidContext(ctx) && AllHaveRids(ctx.infos)
    requires forall t :: t in kept ==> t.contentName !in ctx.byRid
    ensures forall i :: 0 <= i < |ctx.infos| ==>
              FirstOwned(kept + FanOut(ctx.infos), ctx, ctx.infos[i].mid) == Some(ctx.infos[i].transportDescription)
  {
    var infos := ctx.infos;
    assert infos[..|infos|] == infos;
    forall i | 0 <= i < |infos|
      ensures FirstOwned(kept + FanOut(infos), ctx, infos[i].mid) == Some(infos[i].transportDescription)
    {
      FirstOwnedAppend(kept, FanOut(infos), ctx, infos[i].mid);
      FanOutFirstOwned(ctx, |infos|, i);
    }
  }

  lemma EchoedKept(kept: seq<TransportInfo>, ctx: ContextState)
    requires ValidContext(ctx)
    requires forall t :: t in kept ==> t.contentName !in ctx.byRid
    ensures TransportsNotIn(kept + FanOut(ctx.infos), ctx.byRid.Keys) == kept
  {
    TransportsNotInAppend(kept, FanOut(ctx.infos), ctx.byRid.Keys);
    assert forall k :: 0 <= k < |kept| ==> kept[k] in kept;
    TransportsNotInKeeps(kept, ctx.byRid.Keys);
    FanOutNamedByRids(ctx);
    TransportsNotInDrops(FanOut(ctx.infos), ctx.byRid.Keys);
  }

  // ---------------------------------------------------------------------
  // The loops PatchAnswer runs

  lemma WithoutSdesSnoc(exts: seq<RtpExtension>, j: nat)
    requires j < |exts|
    ensures WithoutSdes(exts[..j + 1]) == WithoutSdes(exts[..j]) + (if IsSdesExtension(exts[j]) then [] else [exts[j]])
  {
    assert exts[..j + 1][..j] == exts[..j];
  }

  /** Erases, while iterating, the MID, RID and repaired-RID extensions, then
      appends the recorded MID and RID extensions. */
  method PatchAnswerExtensions(exts: seq<RtpExtension>, info: SimulcastSectionInfo) returns (r: seq<RtpExtension>)
    ensures r == AnswerExtensions(exts, info)
  {
    r := exts;
    var i := 0;
    ghost var j := 0;
    while i < |r|
      invariant 0 <= i <= |r| && 0 <= j <= |exts|
      invariant r[..i] == WithoutSdes(exts[..j])
      invariant r[i..] == exts[j..]
      decreases |r| - i
    {
      SuffixStep(r, exts, i, j);
      WithoutSdesSnoc(exts, j);
      if r[i].uri == MidUri || r[i].uri == RidUri || r[i].uri == RepairedRidUri {
        EraseAt(r, i);
        r := r[..i] + r[i + 1..];
      } else {
        KeepAt(r, i);
        i := i + 1;
      }
      j := j + 1;
    }
    assert exts[..j] == exts;
    assert r[..i] == r;
    r := r + [info.midExtension];
    r := r + [info.ridExtension];
  }

  /** One receive-direction RID description per RID, in order. */
  method BuildReceiveRids(rids: seq<string>) returns (ds: seq<RidDescription>)
    ensures ds == ReceiveRids(rids)
  {
    ds := [];
    for k := 0 to |rids|
      invariant ds == ReceiveRids(rids[..k])
    {
      assert ReceiveRids(rids[..k + 1]) == ReceiveRids(rids[..k]) + [RidDescription(rids[k], Receive, [])];
      ds := ds + [RidDescription(rids[k], Receive, [])];
    }
    assert rids[..|rids|] == rids;
  }

  /** Adds every send layer of the offer, with its alternatives, as a receive
      layer of a fresh simulcast description. */
  method BuildAnswerSimulcast(sendLayers: seq<seq<SimulcastLayer>>) returns (s: SimulcastDescription)
    ensures s == SimulcastDescription([], sendLayers)
  {
    s := NoSimulcast;
    for k := 0 to |sendLayers|
      invariant s == SimulcastDescription([], sendLayers[..k])
    {
      assert sendLayers[..k + 1] == sendLayers[..k] + [sendLayers[k]];
      s := s.(receiveLayers := s.receiveLayers + [sendLayers[k]]);
    }
    assert sendLayers[..|sendLayers|] == sendLayers;
  }

  /** The collapse of one record, as the body of PatchAnswer's loop runs it. */
  method CollapseOne(cs: seq<ContentInfo>, info: SimulcastSectionInfo) returns (r: Result<seq<ContentInfo>>)
    requires info.rids != []
    ensures r == CollapseSection(cs, info)
  {
    var simulcastContent := FindContent(cs, info.rids[0]);
    if simulcastContent.None? {
      return Failure(SectionMissing);
    }
    var media := simulcastContent.value.media;
    var rest := RemoveRecorded(cs, info.rids);
    if rest.None? {
      return Failure(SectionMissing);
    }
    var extensions := PatchAnswerExtensions(media.extensions, info);
    media := media.(extensions := extensions);
    if |media.streams| != 0 {
      return Failure(AnswerHasStreams);
    }
    var rids := BuildReceiveRids(info.rids);
    assert media.streams + [StreamParams(rids, [])] == [StreamParams(rids, [])];
    media := media.(streams := media.streams + [StreamParams(rids, [])]);
    var simulcast := BuildAnswerSimulcast(info.simulcastDescription.sendLayers);
    media := media.(simulcast := simulcast);
    assert media == AnswerMedia(simulcastContent.value.media, info);
    return Success(rest.value + [NewContent(info.mid, info.mediaProtocolType, media)]);
  }

  /** A failure on a prefix of the records is the failure of the whole
      collapse. */
  lemma {:induction false} CollapseSectionsPrefixFails(cs: seq<ContentInfo>, infos: seq<SimulcastSectionInfo>, k: nat)
    requires AllHaveRids(infos) && k <= |infos|
    requires AllHaveRids(infos[..k]) && CollapseSections(cs, infos[..k]).Failure?
    ensures CollapseSections(cs, infos) == CollapseSections(cs, infos[..k])
    decreases |infos|
  {
    if k < |infos| {
      var n := |infos| - 1;
      AllHaveRidsPrefix(infos);
      assert infos[..n][..k] == infos[..k];
      CollapseSectionsPrefixFails(cs, infos[..n], k);
    } else {
      assert infos[..k] == infos;
    }
  }

  lemma CollapseAllStep(cs: seq<ContentInfo>, infos: seq<SimulcastSectionInfo>, i: nat, current: seq<ContentInfo>)
    requires AllHaveRids(infos) && i < |infos|
    requires AllHaveRids(infos[..i]) && CollapseSections(cs, infos[..i]) == Success(current)
    ensures AllHaveRids(infos[..i + 1]) && infos[i].rids != []
    ensures CollapseSections(cs, infos[..i + 1]) == CollapseSection(current, infos[i])
  {
    var prefix := infos[..i + 1];
    assert prefix[..i] == infos[..i];
    assert AllHaveRids(prefix) by {
      assert forall k :: 0 <= k < |prefix| ==> prefix[k] == infos[k];
    }
    CollapseSectionsLast(cs, prefix, current);
  }

  /** The collapse of every record, in record order. */
  method CollapseAll(cs: seq<ContentInfo>, infos: seq<SimulcastSectionInfo>) returns (r: Result<seq<ContentInfo>>)
    requires AllHaveRids(infos)
    ensures r == CollapseSections(cs, infos)
  {
    var current := cs;
    for i := 0 to |infos|
      invariant AllHaveRids(infos[..i])
      invariant CollapseSections(cs, infos[..i]) == Success(current)
    {
      CollapseAllStep(cs, infos, i, current);
      var step := CollapseOne(current, infos[i]);
      if step.Failure? {
        CollapseSectionsPrefixFails(cs, infos, i + 1);
        return step;
      }
      current := step.value;
    }
    assert infos[..|infos|] == infos;
    return Success(current);
  }

  lemma CollectedSnoc(ts: seq<TransportInfo>, ctx: ContextState, j: nat)
    requires j < |ts|
    ensures TransportsNotIn(ts[..j + 1], ctx.byRid.Keys) ==
              TransportsNotIn(ts[..j], ctx.byRid.Keys) + (if ts[j].contentName in ctx.byRid then [] else [ts[j]])
    ensures CollectedTransports(ts[..j + 1], ctx) ==
              var found := CollectedTransports(ts[..j], ctx);
              match Owner(ctx, ts[j].contentName)
              case None => found
              case Some(mid) => if mid in found then found else found[mid := ts[j].description]
  {
    assert ts[..j + 1][..j] == ts[..j];
  }

  /** Erases, while iterating, the bindings named by a RID, and collects for
      each owning MID the description of its first such binding; later
      bindings for the same MID do not replace it. */
  method CollectTransports(ts: seq<TransportInfo>, ctx: ContextState) returns (kept: seq<TransportInfo>, found: map<string, Blob>)
    requires ValidContext(ctx)
    ensures kept == TransportsNotIn(ts, ctx.byRid.Keys)
    ensures found == CollectedTransports(ts, ctx)
  {
    kept := ts;
    found := map[];
    var i := 0;
    ghost var j := 0;
    while i < |kept|
      invariant 0 <= i <= |kept| && 0 <= j <= |ts|
      invariant kept[..i] == TransportsNotIn(ts[..j], ctx.byRid.Keys)
      invariant kept[i..] == ts[j..]
      invariant found == CollectedTransports(ts[..j], ctx)
      decreases |kept| - i
    {
      SuffixStep(kept, ts, i, j);
      CollectedSnoc(ts, ctx, j);
      var name := kept[i].contentName;
      if name in ctx.byRid {
        var index := ctx.byRid[name];
        assert index < |ctx.infos|;
        var mid := ctx.infos[index].mid;
        if mid !in found {
          found := found[mid := kept[i].description];
        }
        EraseAt(kept, i);
        kept := kept[..i] + kept[i + 1..];
      } else {
        KeepAt(kept, i);
        i := i + 1;
      }
      j := j + 1;
    }
    assert ts[..j] == ts;
    assert kept[..i] == kept;
  }

  /** Appends, for every record, a binding of its MID to the collected
      description; a record without one is fatal. */
  method AppendMidBindings(kept: seq<TransportInfo>, infos: seq<SimulcastSectionInfo>, found: map<string, Blob>)
    returns (r: Result<seq<TransportInfo>>)
    ensures r == match MidBindings(infos, found)
                 case None => Failure(AnswerTransportMissing)
                 case Some(b) => Success(kept + b)
  {
    var ts := kept;
    for i := 0 to |infos|
      invariant MidBindings(infos[..i], found).Some?
      invariant ts == kept + MidBindings(infos[..i], found).value
    {
      assert infos[..i + 1][..i] == infos[..i];
      if infos[i].mid !in found {
        return Failure(AnswerTransportMissing);
      }
      ts := ts + [TransportInfo(infos[i].mid, found[infos[i].mid])];
    }
    assert infos[..|infos|] == infos;
    return Success(ts);
  }

  /** The transport fix of PatchAnswer. */
  method PatchAnswerTransports(ts: seq<TransportInfo>, ctx: ContextState) returns (r: Result<seq<TransportInfo>>)
    requires ValidContext(ctx)
    ensures r == AnswerTransports(ts, ctx)
  {
    var kept, found := CollectTransports(ts, ctx);
    r := AppendMidBindings(kept, ctx.infos, found);
  }

  /** The description PatchAnswer builds from a clone of the answer's: the
      sections collapsed and put back into the recorded order, the BUNDLE
      group rebuilt over every section and the bindings folded back. */
  method PatchAnswerDescription(desc: SessionDescription, ctx: ContextState) returns (r: Result<SessionDescription>)
    requires ValidContext(ctx) && AllHaveRids(ctx.infos)
    ensures r == PatchedAnswerDescription(desc, ctx)
  {
    var collapsed := CollapseAll(desc.contents, ctx.infos);
    if collapsed.Failure? {
      return Failure(collapsed.error);
    }
    var restored := RestoreMediaSectionsOrder(ctx.midsOrder, desc.(contents := collapsed.value));
    if restored.Failure? {
      return Failure(restored.error);
    }
    var contents := restored.value.contents;
    var names := CollectMids(contents);
    var groups := RemoveGroup(restored.value.groups, GroupTypeBundle);
    groups := groups + [ContentGroup(GroupTypeBundle, names)];
    var transports := PatchAnswerTransports(restored.value.transportInfos, ctx);
    if transports.Failure? {
      return Failure(transports.error);
    }
    return Success(SessionDescription(contents, groups, transports.value));
  }
}
