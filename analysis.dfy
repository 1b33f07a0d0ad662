/** The scan of an offer that FillContext performs: which sections are
    simulcast video sections, what record each of them yields and how each is
    normalised in place.  The functions state the scan; the methods here are
    the loops FillContext runs for one section. */
module Analysis {
  import opened Sdp
  import opened Context

  /** The extension with the given URI that a forward scan meets last, or an
      unset extension when there is none. */
  function LastExtension(exts: seq<RtpExtension>, uri: string): (r: RtpExtension)
    ensures (r in exts && r.uri == uri) || (r == UnsetExtension && forall e :: e in exts ==> e.uri != uri)
  {
    if exts == [] then UnsetExtension
    else if exts[|exts| - 1].uri == uri then exts[|exts| - 1]
    else LastExtension(exts[..|exts| - 1], uri)
  }

  /** The description of the first transport binding named `name`. */
  function FirstTransport(ts: seq<TransportInfo>, name: string): (r: Option<Blob>)
    ensures r.None? <==> forall t :: t in ts ==> t.contentName != name
    ensures r.Some? ==> TransportInfo(name, r.value) in ts
  {
    if ts == [] then None
    else if ts[0].contentName == name then Some(ts[0].description)
    else FirstTransport(ts[1..], name)
  }

  /** The RIDs as explicit send-direction RID descriptions. */
  function SendRids(rids: seq<string>): seq<RidDescription> {
    seq(|rids|, k requires 0 <= k < |rids| => RidDescription(rids[k], Send, []))
  }

  /** One unpaused single-alternative layer per RID. */
  function SendLayers(rids: seq<string>): seq<seq<SimulcastLayer>> {
    seq(|rids|, k requires 0 <= k < |rids| => [SimulcastLayer(rids[k], false)])
  }

  predicate IsSimulcastVideo(c: ContentInfo) {
    c.media.mediaType == Video && c.media.HasSimulcast()
  }

  /** A simulcast section after FillContext rewrote it in place: its single
      stream lists the RIDs as send RIDs, and its simulcast description has
      one send layer per RID and no receive layers. */
  function NormalizedSection(c: ContentInfo, rids: seq<string>): ContentInfo
    requires |c.media.streams| == 1
  {
    var stream := c.media.streams[0].(rids := SendRids(rids));
    c.(media := c.media.(streams := [stream], simulcast := SimulcastDescription(SendLayers(rids), [])))
  }

  datatype Analysed = Analysed(info: SimulcastSectionInfo, content: ContentInfo)

  /** The shape the fatal checks of FillContext demand of a simulcast video
      section: one stream with RIDs, RID and MID extensions with nonzero ids
      and a transport binding for its MID. */
  predicate AcceptedSection(c: ContentInfo, ts: seq<TransportInfo>) {
    && |c.media.streams| == 1
    && c.media.streams[0].rids != []
    && LastExtension(c.media.extensions, RidUri).id != 0
    && LastExtension(c.media.extensions, MidUri).id != 0
    && FirstTransport(ts, c.mid).Some?
  }

  /** The work FillContext does for one section: nothing for a section that
      is not a simulcast video section, otherwise the record of the section
      and the section rewritten in place, or the check that fails. */
  function AnalyzeSection(c: ContentInfo, ts: seq<TransportInfo>): (r: Result<Option<Analysed>>)
    ensures r == Success(None) <==> !IsSimulcastVideo(c)
    ensures r.Failure? <==> IsSimulcastVideo(c) && !AcceptedSection(c, ts)
    ensures r.Success? && r.value.Some? ==>
      var info := r.value.value.info;
      var normalized := r.value.value.content;
      && info.mid == c.mid && info.mediaProtocolType == c.protocol
      && |c.media.streams| == 1 && info.rids == RidNames(c.media.streams[0].rids) && info.rids != []
      && normalized == NormalizedSection(c, info.rids)
      && info.simulcastDescription == normalized.media.simulcast
      && info.midExtension in c.media.extensions && info.midExtension.uri == MidUri && info.midExtension.id != 0
      && info.ridExtension in c.media.extensions && info.ridExtension.uri == RidUri && info.ridExtension.id != 0
      && info.rridExtension == LastExtension(c.media.extensions, RepairedRidUri)
      && FirstTransport(ts, c.mid) == Some(info.transportDescription)
  {
    if !IsSimulcastVideo(c) then Success(None)
    else if |c.media.streams| != 1 then Failure(StreamCountNotOne)
    else if c.media.streams[0].rids == [] then Failure(StreamWithoutRids)
    else
      var rids := RidNames(c.media.streams[0].rids);
      var normalized := NormalizedSection(c, rids);
      var exts := c.media.extensions;
      var midExt := LastExtension(exts, MidUri);
      var ridExt := LastExtension(exts, RidUri);
      var rridExt := LastExtension(exts, RepairedRidUri);
      if ridExt.id == 0 then Failure(RidExtensionMissing)
      else if midExt.id == 0 then Failure(MidExtensionMissing)
      else match FirstTransport(ts, c.mid)
        case None => Failure(TransportMissing)
        case Some(d) =>
          var info := SimulcastSectionInfo(c.mid, c.protocol, rids, midExt, ridExt, rridExt, d,
                                           normalized.media.simulcast);
          Success(Some(Analysed(info, normalized)))
  }

  datatype OfferAnalysis = OfferAnalysis(infos: seq<SimulcastSectionInfo>, contents: seq<ContentInfo>)

  /** FillContext's walk over the sections: the records of the simulcast
      sections in section order and every section as it is left in place. */
  function AnalyzeContents(cs: seq<ContentInfo>, ts: seq<TransportInfo>): Result<OfferAnalysis> {
    if cs == [] then Success(OfferAnalysis([], []))
    else match AnalyzeContents(cs[..|cs| - 1], ts)
      case Failure(e) => Failure(e)
      case Success(a) =>
        match AnalyzeSection(cs[|cs| - 1], ts)
        case Failure(e) => Failure(e)
        case Success(None) => Success(OfferAnalysis(a.infos, a.contents + [cs[|cs| - 1]]))
        case Success(Some(x)) => Success(OfferAnalysis(a.infos + [x.info], a.contents + [x.content]))
  }

  /** The MIDs of the simulcast video sections, in section order. */
  function SimulcastMids(cs: seq<ContentInfo>): seq<string> {
    if cs == [] then []
    else SimulcastMids(cs[..|cs| - 1]) + (if IsSimulcastVideo(cs[|cs| - 1]) then [cs[|cs| - 1].mid] else [])
  }

  /** The scan fails exactly when some simulcast video section fails the
      checks. */
  lemma {:induction false} AnalyzeContentsSucceeds(cs: seq<ContentInfo>, ts: seq<TransportInfo>)
    ensures AnalyzeContents(cs, ts).Success? <==>
              forall k :: 0 <= k < |cs| && IsSimulcastVideo(cs[k]) ==> AcceptedSection(cs[k], ts)
  {
    if cs != [] {
      var n := |cs| - 1;
      var prefix := cs[..n];
      AnalyzeContentsSucceeds(prefix, ts);
      assert forall k :: 0 <= k < n ==> prefix[k] == cs[k];
      if AnalyzeContents(prefix, ts).Failure? {
        var k :| 0 <= k < n && IsSimulcastVideo(prefix[k]) && !AcceptedSection(prefix[k], ts);
        assert IsSimulcastVideo(cs[k]) && !AcceptedSection(cs[k], ts);
      }
    }
  }

  /** The section as the scan leaves it in place. */
  function Rewritten(c: ContentInfo, ts: seq<TransportInfo>): ContentInfo {
    match AnalyzeSection(c, ts)
    case Success(Some(x)) => x.content
    case _ => c
  }

  /** The record the scan makes of the section, if any. */
  function Recorded(c: ContentInfo, ts: seq<TransportInfo>): seq<SimulcastSectionInfo> {
    match AnalyzeSection(c, ts)
    case Success(Some(x)) => [x.info]
    case _ => []
  }

  lemma RewrittenShape(c: ContentInfo, ts: seq<TransportInfo>)
    requires AnalyzeSection(c, ts).Success?
    ensures Rewritten(c, ts).mid == c.mid
    ensures !IsSimulcastVideo(c) ==> Rewritten(c, ts) == c && Recorded(c, ts) == []
    ensures IsSimulcastVideo(c) ==>
              |Recorded(c, ts)| == 1 && Recorded(c, ts)[0].mid == c.mid && Recorded(c, ts)[0].rids != []
  {
  }

  lemma AnalyzeContentsSnoc(cs: seq<ContentInfo>, ts: seq<TransportInfo>)
    requires cs != [] && AnalyzeContents(cs, ts).Success?
    ensures AnalyzeContents(cs[..|cs| - 1], ts).Success? && AnalyzeSection(cs[|cs| - 1], ts).Success?
    ensures var a := AnalyzeContents(cs[..|cs| - 1], ts).value;
            var c := cs[|cs| - 1];
            && AnalyzeContents(cs, ts).value.contents == a.contents + [Rewritten(c, ts)]
            && AnalyzeContents(cs, ts).value.infos == a.infos + Recorded(c, ts)
  {
  }

  /** A successful scan keeps every section name and position and leaves the
      sections that are not simulcast video sections untouched. */
  lemma {:induction false} AnalyzeContentsLayout(cs: seq<ContentInfo>, ts: seq<TransportInfo>)
    requires AnalyzeContents(cs, ts).Success?
    ensures var a := AnalyzeContents(cs, ts).value;
            && |a.contents| == |cs|
            && Mids(a.contents) == Mids(cs)
            && (forall k :: 0 <= k < |cs| && !IsSimulcastVideo(cs[k]) ==> a.contents[k] == cs[k])
  {
    if cs != [] {
      var n := |cs| - 1;
      var prefix := cs[..n];
      AnalyzeContentsSnoc(cs, ts);
      AnalyzeContentsLayout(prefix, ts);
      RewrittenShape(cs[n], ts);
      var a := AnalyzeContents(prefix, ts).value;
      var last := Rewritten(cs[n], ts);
      MidsAppend(a.contents, [last]);
      MidsAppend(prefix, [cs[n]]);
      assert cs == prefix + [cs[n]];
    }
  }

  /** A successful scan records exactly the simulcast video sections, in
      section order, each with at least one RID. */
  lemma {:induction false} AnalyzeContentsRecords(cs: seq<ContentInfo>, ts: seq<TransportInfo>)
    requires AnalyzeContents(cs, ts).Success?
    ensures MidsOf(AnalyzeContents(cs, ts).value.infos) == SimulcastMids(cs)
    ensures AllHaveRids(AnalyzeContents(cs, ts).value.infos)
  {
    if cs != [] {
      var n := |cs| - 1;
      var prefix := cs[..n];
      AnalyzeContentsSnoc(cs, ts);
      AnalyzeContentsRecords(prefix, ts);
      RewrittenShape(cs[n], ts);
      var infos := AnalyzeContents(cs, ts).value.infos;
      if IsSimulcastVideo(cs[n]) {
        assert infos[..|infos| - 1] == AnalyzeContents(prefix, ts).value.infos;
      }
    }
  }

  /** The scan of a prefix of the sections is the prefix of the scan. */
  lemma {:induction false} AnalyzeContentsPrefix(cs: seq<ContentInfo>, ts: seq<TransportInfo>, j: nat)
    requires j <= |cs| && AnalyzeContents(cs, ts).Success?
    ensures AnalyzeContents(cs[..j], ts).Success?
    ensures AnalyzeContents(cs[..j], ts).value.infos <= AnalyzeContents(cs, ts).value.infos
    decreases |cs|
  {
    if j < |cs| {
      var n := |cs| - 1;
      assert cs[..n][..j] == cs[..j];
      AnalyzeContentsPrefix(cs[..n], ts, j);
    } else {
      assert cs[..j] == cs;
    }
  }

  /** A scan that fails on a prefix of the sections fails on all of them. */
  lemma {:induction false} AnalyzeContentsPrefixFails(cs: seq<ContentInfo>, ts: seq<TransportInfo>, j: nat)
    requires j <= |cs| && AnalyzeContents(cs[..j], ts).Failure?
    ensures AnalyzeContents(cs, ts).Failure?
    decreases |cs|
  {
    if j < |cs| {
      var n := |cs| - 1;
      assert cs[..n][..j] == cs[..j];
      AnalyzeContentsPrefixFails(cs[..n], ts, j);
    } else {
      assert cs[..j] == cs;
    }
  }

  /** Every record comes from the section of the same name, which the scan
      left with one stream listing the record's RIDs as send RIDs and with the
      record's simulcast description. */
  ghost predicate Normalized(info: SimulcastSectionInfo, cs: seq<ContentInfo>) {
    match FindContent(cs, info.mid)
    case None => false
    case Some(c) =>
      && c.protocol == info.mediaProtocolType
      && |c.media.streams| == 1
      && c.media.streams[0].rids == SendRids(info.rids)
      && c.media.simulcast == info.simulcastDescription
  }

  ghost predicate AllNormalized(infos: seq<SimulcastSectionInfo>, cs: seq<ContentInfo>) {
    forall i :: 0 <= i < |infos| ==> Normalized(infos[i], cs)
  }

  lemma NormalizedExtend(info: SimulcastSectionInfo, cs: seq<ContentInfo>, more: seq<ContentInfo>)
    requires Normalized(info, cs)
    ensures Normalized(info, cs + more)
  {
    FindAppendLeft(cs, more, info.mid);
  }

  lemma NormalizedLast(info: SimulcastSectionInfo, cs: seq<ContentInfo>, last: ContentInfo)
    requires info.mid !in Mids(cs) && last.mid == info.mid
    requires last.protocol == info.mediaProtocolType && |last.media.streams| == 1
    requires last.media.streams[0].rids == SendRids(info.rids)
    requires last.media.simulcast == info.simulcastDescription
    ensures Normalized(info, cs + [last])
  {
    FindAppendRight(cs, [last], info.mid);
    assert FindContent([last], info.mid) == Some(last);
  }

  /** Every record of a scan over sections with distinct names is
      Normalized in the rewritten sections. */
  lemma {:induction false} AnalyzedSectionsNormalized(cs: seq<ContentInfo>, ts: seq<TransportInfo>)
    requires NoDup(Mids(cs)) && AnalyzeContents(cs, ts).Success?
    ensures AllNormalized(AnalyzeContents(cs, ts).value.infos, AnalyzeContents(cs, ts).value.contents)
  {
    if cs != [] {
      var n := |cs| - 1;
      var prefix := cs[..n];
      assert NoDup(Mids(prefix)) && cs[n].mid !in Mids(prefix) by {
        assert Mids(prefix) == Mids(cs)[..n];
        NoDupLast(Mids(cs));
      }
      AnalyzeContentsSnoc(cs, ts);
      AnalyzedSectionsNormalized(prefix, ts);
      AnalyzeContentsLayout(prefix, ts);
      var a := AnalyzeContents(prefix, ts).value;
      var last := Rewritten(cs[n], ts);
      AllNormalizedExtend(a.infos, a.contents, [last]);
      if IsSimulcastVideo(cs[n]) {
        var info := Recorded(cs[n], ts)[0];
        NormalizedLast(info, a.contents, last);
        AllNormalizedSnoc(a.infos, info, a.contents + [last]);
      } else {
        RewrittenShape(cs[n], ts);
        assert a.infos + Recorded(cs[n], ts) == a.infos;
      }
    }
  }

  lemma AllNormalizedExtend(infos: seq<SimulcastSectionInfo>, cs: seq<ContentInfo>, more: seq<ContentInfo>)
    requires AllNormalized(infos, cs)
    ensures AllNormalized(infos, cs + more)
  {
    forall i | 0 <= i < |infos|
      ensures Normalized(infos[i], cs + more)
    {
      NormalizedExtend(infos[i], cs, more);
    }
  }

  lemma AllNormalizedSnoc(infos: seq<SimulcastSectionInfo>, info: SimulcastSectionInfo, cs: seq<ContentInfo>)
    requires AllNormalized(infos, cs) && Normalized(info, cs)
    ensures AllNormalized(infos + [info], cs)
  {
  }

  // ---------------------------------------------------------------------
  // The loops FillContext runs for one simulcast section

  /** Builds the send RIDs and the send layers from the record's RIDs. */
  method BuildSendLayers(rids: seq<string>) returns (ridDescs: seq<RidDescription>, simulcast: SimulcastDescription)
    ensures ridDescs == SendRids(rids)
    ensures simulcast == SimulcastDescription(SendLayers(rids), [])
  {
    ridDescs := [];
    var layers: seq<seq<SimulcastLayer>> := [];
    for k := 0 to |rids|
      invariant ridDescs == SendRids(rids[..k])
      invariant layers == SendLayers(rids[..k])
    {
      ridDescs := ridDescs + [RidDescription(rids[k], Send, [])];
      layers := layers + [[SimulcastLayer(rids[k], false)]];
    }
    assert rids[..|rids|] == rids;
    simulcast := SimulcastDescription(layers, []);
  }

  /** Picks the MID, RID and repaired-RID extensions out of the section's
      extensions; the last one of each URI wins. */
  method ScanExtensions(exts: seq<RtpExtension>) returns (midExt: RtpExtension, ridExt: RtpExtension, rridExt: RtpExtension)
    ensures midExt == LastExtension(exts, MidUri)
    ensures ridExt == LastExtension(exts, RidUri)
    ensures rridExt == LastExtension(exts, RepairedRidUri)
  {
    midExt, ridExt, rridExt := UnsetExtension, UnsetExtension, UnsetExtension;
    for k := 0 to |exts|
      invariant midExt == LastExtension(exts[..k], MidUri)
      invariant ridExt == LastExtension(exts[..k], RidUri)
      invariant rridExt == LastExtension(exts[..k], RepairedRidUri)
    {
      assert exts[..k + 1][..k] == exts[..k];
      var extension := exts[k];
      if extension.uri == MidUri {
        midExt := extension;
      } else if extension.uri == RidUri {
        ridExt := extension;
      } else if extension.uri == RepairedRidUri {
        rridExt := extension;
      }
    }
    assert exts[..|exts|] == exts;
  }

  /** Looks up the transport binding of the section named `name`. */
  method FindTransport(ts: seq<TransportInfo>, name: string) returns (found: bool, description: Blob)
    ensures found <==> FirstTransport(ts, name).Some?
    ensures found ==> description == FirstTransport(ts, name).value
  {
    found, description := false, [];
    var k := 0;
    while k < |ts|
      invariant 0 <= k <= |ts|
      invariant FirstTransport(ts, name) == FirstTransport(ts[k..], name)
    {
      assert ts[k..][1..] == ts[k + 1..];
      if ts[k].contentName == name {
        description := ts[k].description;
        found := true;
        break;
      }
      k := k + 1;
    }
    if !found {
      assert ts[k..] == [];
    }
  }

  /** The work FillContext does for one section, up to the registration of
      its record. */
  method AnalyzeOne(c: ContentInfo, ts: seq<TransportInfo>) returns (r: Result<Option<Analysed>>)
    ensures r == AnalyzeSection(c, ts)
  {
    var media := c.media;
    if media.mediaType != Video {
      return Success(None);
    }
    if !media.HasSimulcast() {
      return Success(None);
    }
    if |media.streams| != 1 {
      return Failure(StreamCountNotOne);
    }
    if media.streams[0].rids == [] {
      return Failure(StreamWithoutRids);
    }
    var info := NewSimulcastSectionInfo(c.mid, c.protocol, media.streams[0].rids);
    assert info.rids == RidNames(media.streams[0].rids);
    var rids, simulcast := BuildSendLayers(info.rids);
    media := media.(streams := [media.streams[0].(rids := rids)]);
    media := media.(simulcast := simulcast);
    info := info.(simulcastDescription := media.simulcast);
    var midExt, ridExt, rridExt := ScanExtensions(media.extensions);
    info := info.(midExtension := midExt, ridExtension := ridExt, rridExtension := rridExt);
    if info.ridExtension.id == 0 {
      return Failure(RidExtensionMissing);
    }
    if info.midExtension.id == 0 {
      return Failure(MidExtensionMissing);
    }
    var found, description := FindTransport(ts, info.mid);
    if !found {
      return Failure(TransportMissing);
    }
    info := info.(transportDescription := description);
    return Success(Some(Analysed(info, c.(media := media))));
  }
}
