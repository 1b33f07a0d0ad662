/** The rewrite PatchOffer applies to the offer sent to the remote peer: every
    simulcast section becomes one ordinary section per RID, the BUNDLE group
    is rebuilt over the new section list and each RID inherits the transport
    binding of its section.  The functions state the rewrite; the methods are
    the loops PatchOffer runs. */
module OfferPatch {
  import opened Sdp
  import opened Context
  import opened Analysis

  predicate IsRidExtension(e: RtpExtension) {
    e.uri == RidUri || e.uri == RepairedRidUri
  }

  /** The extension as the per-RID sections carry it: the MID extension takes
      the id `ridId`, any other extension is kept. */
  function Retagged(e: RtpExtension, ridId: int): RtpExtension {
    if e.uri == MidUri then e.(id := ridId) else e
  }

  /** The extension list of the per-RID sections: the RID and repaired-RID
      extensions dropped, the rest retagged, in order. */
  function OfferExtensions(exts: seq<RtpExtension>, ridId: int): (r: seq<RtpExtension>)
    ensures |r| <= |exts|
  {
    if exts == [] then []
    else
      var e := exts[|exts| - 1];
      OfferExtensions(exts[..|exts| - 1], ridId) + (if IsRidExtension(e) then [] else [Retagged(e, ridId)])
  }

  /** The media of the per-RID sections: the section's media with the
      offer's extension list, its single stream without RIDs and no
      simulcast description. */
  function OfferPrototype(media: MediaDescription, ridId: int): MediaDescription
    requires |media.streams| == 1
  {
    media.(extensions := OfferExtensions(media.extensions, ridId),
           streams := [media.streams[0].(rids := [])],
           simulcast := NoSimulcast)
  }

  /** One new section per RID, named after the RID, all sharing `media`. */
  function PerRidSections(rids: seq<string>, protocol: MediaProtocolType, media: MediaDescription): (r: seq<ContentInfo>)
    ensures Mids(r) == rids
  {
    seq(|rids|, k requires 0 <= k < |rids| => NewContent(rids[k], protocol, media))
  }

  /** The rewrite of one simulcast section: it is removed and its per-RID
      sections are appended. */
  function ExplodeSection(cs: seq<ContentInfo>, info: SimulcastSectionInfo): Result<seq<ContentInfo>> {
    match FindContent(cs, info.mid)
    case None => Failure(SectionMissing)
    case Some(c) =>
      match RemoveContent(cs, info.mid)
      case None => Failure(SectionMissing)
      case Some(rest) =>
        if |c.media.streams| != 1 then Failure(StreamCountNotOne)
        else if c.media.streams[0].rids == [] then Failure(StreamWithoutRids)
        else Success(rest + PerRidSections(info.rids, info.mediaProtocolType,
                                           OfferPrototype(c.media, info.ridExtension.id)))
  }

  /** The rewrite of every recorded section, in record order. */
  function ExplodeSections(cs: seq<ContentInfo>, infos: seq<SimulcastSectionInfo>): Result<seq<ContentInfo>> {
    if infos == [] then Success(cs)
    else match ExplodeSections(cs, infos[..|infos| - 1])
      case Failure(e) => Failure(e)
      case Success(cs') => ExplodeSection(cs', infos[|infos| - 1])
  }

  /** Reference definition of what the rewrite appends: for each record, in
      record order, its per-RID sections built from the section of the
      original list that carries its MID. */
  function Exploded(cs: seq<ContentInfo>, infos: seq<SimulcastSectionInfo>): seq<ContentInfo> {
    if infos == [] then []
    else
      var info := infos[|infos| - 1];
      var found := FindContent(cs, info.mid);
      Exploded(cs, infos[..|infos| - 1]) +
        (if found.Some? && |found.value.media.streams| == 1
         then PerRidSections(info.rids, info.mediaProtocolType, OfferPrototype(found.value.media, info.ridExtension.id))
         else [])
  }

  /** The groups after the BUNDLE rebuild: the first BUNDLE group removed and
      a BUNDLE group appended to which every section's name was added. */
  function BundleGroups(groups: seq<ContentGroup>, cs: seq<ContentInfo>): seq<ContentGroup> {
    RemoveGroup(groups, GroupTypeBundle) + [ContentGroup(GroupTypeBundle, GroupNames(cs))]
  }

  /** The transport bindings whose content name is not in `names`, in order. */
  function TransportsNotIn(ts: seq<TransportInfo>, names: set<string>): seq<TransportInfo> {
    if ts == [] then []
    else TransportsNotIn(ts[..|ts| - 1], names) +
         (if ts[|ts| - 1].contentName in names then [] else [ts[|ts| - 1]])
  }

  /** The bindings of one record's RIDs, all to the record's transport. */
  function RidTransports(info: SimulcastSectionInfo): seq<TransportInfo> {
    seq(|info.rids|, k requires 0 <= k < |info.rids| => TransportInfo(info.rids[k], info.transportDescription))
  }

  /** The bindings of every RID of every record, in record and RID order. */
  function FanOut(infos: seq<SimulcastSectionInfo>): seq<TransportInfo> {
    if infos == [] then [] else FanOut(infos[..|infos| - 1]) + RidTransports(infos[|infos| - 1])
  }

  function ContentNames(ts: seq<TransportInfo>): seq<string> {
    seq(|ts|, k requires 0 <= k < |ts| => ts[k].contentName)
  }

  /** The description PatchOffer sends: sections rewritten, BUNDLE rebuilt,
      the bindings of the recorded MIDs (the keys of `byMid`) replaced by the
      RID bindings. */
  function PatchedOfferDescription(desc: SessionDescription, infos: seq<SimulcastSectionInfo>, byMid: set<string>): Result<SessionDescription> {
    match ExplodeSections(desc.contents, infos)
    case Failure(e) => Failure(e)
    case Success(cs) =>
      Success(SessionDescription(cs, BundleGroups(desc.groups, cs),
                                 TransportsNotIn(desc.transportInfos, byMid) + FanOut(infos)))
  }

  // ---------------------------------------------------------------------
  // Properties of the rewrite

  /** An extension is in the offer's list exactly when it is the retagged
      form of an extension of the section that is not a RID extension. */
  lemma {:induction false} OfferExtensionsMembers(exts: seq<RtpExtension>, ridId: int, e: RtpExtension)
    ensures e in OfferExtensions(exts, ridId) <==>
              exists f :: f in exts && !IsRidExtension(f) && e == Retagged(f, ridId)
  {
    if exts != [] {
      var n := |exts| - 1;
      var prefix := exts[..n];
      OfferExtensionsMembers(prefix, ridId, e);
      assert exts == prefix + [exts[n]];
      if exists f :: f in exts && !IsRidExtension(f) && e == Retagged(f, ridId) {
        var f :| f in exts && !IsRidExtension(f) && e == Retagged(f, ridId);
        if f != exts[n] {
          assert f in prefix;
        }
      }
    }
  }

  /** No RID or repaired-RID extension survives, and every MID extension
      carries the RID extension's id. */
  lemma OfferExtensionsShape(exts: seq<RtpExtension>, ridId: int)
    ensures forall e :: e in OfferExtensions(exts, ridId) ==> !IsRidExtension(e)
    ensures forall e :: e in OfferExtensions(exts, ridId) && e.uri == MidUri ==> e.id == ridId
  {
    forall e | e in OfferExtensions(exts, ridId)
      ensures !IsRidExtension(e) && (e.uri == MidUri ==> e.id == ridId)
    {
      OfferExtensionsMembers(exts, ridId, e);
    }
  }

  lemma {:induction false} ExplodedMids(cs: seq<ContentInfo>, infos: seq<SimulcastSectionInfo>)
    requires AllNormalized(infos, cs)
    ensures Mids(Exploded(cs, infos)) == AllRids(infos)
  {
    if infos != [] {
      var n := |infos| - 1;
      NormalizedPrefix(cs, infos);
      ExplodedMids(cs, infos[..n]);
      ExplodedLast(cs, infos);
      MidsAppend(Exploded(cs, infos[..n]), RidSectionsOf(cs, infos[n]));
    }
  }

  lemma NormalizedPrefix(cs: seq<ContentInfo>, infos: seq<SimulcastSectionInfo>)
    requires infos != [] && AllNormalized(infos, cs)
    ensures AllNormalized(infos[..|infos| - 1], cs) && Normalized(infos[|infos| - 1], cs)
  {
    var prefix := infos[..|infos| - 1];
    assert forall i :: 0 <= i < |prefix| ==> prefix[i] == infos[i];
  }

  lemma AllHaveRidsPrefix(infos: seq<SimulcastSectionInfo>)
    requires infos != [] && AllHaveRids(infos)
    ensures AllHaveRids(infos[..|infos| - 1]) && infos[|infos| - 1].rids != []
  {
    var prefix := infos[..|infos| - 1];
    assert forall i :: 0 <= i < |prefix| ==> prefix[i] == infos[i];
  }

  /** One step of the rewrite on a list whose earlier records are already
      rewritten. */
  lemma ExplodeStep(cs: seq<ContentInfo>, done: set<string>, e: seq<ContentInfo>, info: SimulcastSectionInfo)
    requires NoDup(Mids(cs)) && info.mid !in done && info.rids != []
    requires Normalized(info, cs)
    ensures ExplodeSection(Without(cs, done) + e, info) == Success(Without(cs, done + {info.mid}) + e + RidSectionsOf(cs, info))
  {
    var m := info.mid;
    var kept := Without(cs, done);
    var c := FindContent(cs, m).value;
    WithoutMembers(cs, done, m);
    FindAppendLeft(kept, e, m);
    FindInWithout(cs, done, m);
    RemoveAppendLeft(kept, e, m);
    RemoveFromWithout(cs, done, m);
    assert |SendRids(info.rids)| == |info.rids| > 0;
  }

  /** With distinct section names and records Normalized in them, the
      rewrite succeeds: it filters the recorded sections out and appends
      their per-RID sections. */
  lemma {:induction false} ExplodeSectionsShape(cs: seq<ContentInfo>, infos: seq<SimulcastSectionInfo>)
    requires NoDup(Mids(cs)) && NoDup(MidsOf(infos)) && AllHaveRids(infos)
    requires AllNormalized(infos, cs)
    ensures ExplodeSections(cs, infos) == Success(Without(cs, SetOf(MidsOf(infos))) + Exploded(cs, infos))
  {
    if infos == [] {
      assert SetOf(MidsOf(infos)) == {};
      WithoutNothing(cs);
      assert Without(cs, SetOf(MidsOf(infos))) + Exploded(cs, infos) == cs;
    } else {
      var n := |infos| - 1;
      var prefix := infos[..n];
      assert NoDup(MidsOf(prefix)) && infos[n].mid !in MidsOf(prefix) by {
        assert MidsOf(infos) == MidsOf(prefix) + [infos[n].mid];
        NoDupLast(MidsOf(infos));
      }
      NormalizedPrefix(cs, infos);
      AllHaveRidsPrefix(infos);
      ExplodeSectionsShape(cs, prefix);
      ExplodeSectionsStep(cs, infos);
    }
  }

  lemma {:induction false} ExplodeSectionsStep(cs: seq<ContentInfo>, infos: seq<SimulcastSectionInfo>)
    requires infos != [] && NoDup(Mids(cs)) && AllHaveRids(infos)
    requires var n := |infos| - 1;
             && infos[n].mid !in MidsOf(infos[..n])
             && Normalized(infos[n], cs)
             && ExplodeSections(cs, infos[..n]) == Success(Without(cs, SetOf(MidsOf(infos[..n]))) + Exploded(cs, infos[..n]))
    ensures ExplodeSections(cs, infos) == Success(Without(cs, SetOf(MidsOf(infos))) + Exploded(cs, infos))
  {
    var n := |infos| - 1;
    var prefix := infos[..n];
    var info := infos[n];
    var done := SetOf(MidsOf(prefix));
    var e := Exploded(cs, prefix);
    var tail := RidSectionsOf(cs, info);
    var all := SetOf(MidsOf(infos));
    ExplodedLast(cs, infos);
    ExplodeSectionsLast(cs, infos, Without(cs, done) + e);
    ExplodeStep(cs, done, e, info);
    MidsOfLast(infos);
    assert Without(cs, done + {info.mid}) + e + tail == Without(cs, all) + (e + tail);
  }

  /** The per-RID sections of a record, built from its section in `cs`. */
  function RidSectionsOf(cs: seq<ContentInfo>, info: SimulcastSectionInfo): seq<ContentInfo>
    requires Normalized(info, cs)
  {
    var c := FindContent(cs, info.mid).value;
    PerRidSections(info.rids, info.mediaProtocolType, OfferPrototype(c.media, info.ridExtension.id))
  }

  lemma ExplodedLast(cs: seq<ContentInfo>, infos: seq<SimulcastSectionInfo>)
    requires infos != [] && Normalized(infos[|infos| - 1], cs)
    ensures Exploded(cs, infos) == Exploded(cs, infos[..|infos| - 1]) + RidSectionsOf(cs, infos[|infos| - 1])
  {
  }

  lemma ExplodeSectionsLast(cs: seq<ContentInfo>, infos: seq<SimulcastSectionInfo>, before: seq<ContentInfo>)
    requires infos != [] && ExplodeSections(cs, infos[..|infos| - 1]) == Success(before)
    ensures ExplodeSections(cs, infos) == ExplodeSection(before, infos[|infos| - 1])
  {
  }

  lemma MidsOfLast(infos: seq<SimulcastSectionInfo>)
    requires infos != []
    ensures SetOf(MidsOf(infos)) == SetOf(MidsOf(infos[..|infos| - 1])) + {infos[|infos| - 1].mid}
  {
    assert MidsOf(infos) == MidsOf(infos[..|infos| - 1]) + [infos[|infos| - 1].mid];
  }

  /** When no RID repeats a name of the original sections, the rewritten
      sections have distinct names: the kept sections, then every RID. */
  lemma ExplodedNamesDistinct(cs: seq<ContentInfo>, infos: seq<SimulcastSectionInfo>)
    requires NoDup(Mids(cs)) && UniqueKeys(infos)
    requires AllNormalized(infos, cs)
    requires forall r :: r in AllRids(infos) ==> r !in Mids(cs)
    ensures Mids(Without(cs, SetOf(MidsOf(infos))) + Exploded(cs, infos)) ==
              Mids(Without(cs, SetOf(MidsOf(infos)))) + AllRids(infos)
    ensures NoDup(Mids(Without(cs, SetOf(MidsOf(infos))) + Exploded(cs, infos)))
  {
    var kept := Without(cs, SetOf(MidsOf(infos)));
    MidsAppend(kept, Exploded(cs, infos));
    ExplodedMids(cs, infos);
    WithoutNoDup(cs, SetOf(MidsOf(infos)));
    forall x | x in Mids(kept) ensures x !in AllRids(infos) {
      WithoutMembers(cs, SetOf(MidsOf(infos)), x);
    }
    NoDupConcat(Mids(kept), AllRids(infos));
  }

  /** RemoveGroup removes one group of the given semantics when there is one
      and keeps every other group in order. */
  lemma {:induction false} RemoveGroupShape(groups: seq<ContentGroup>, semantics: string)
    ensures OtherGroups(RemoveGroup(groups, semantics), semantics) == OtherGroups(groups, semantics)
    ensures GroupCount(RemoveGroup(groups, semantics), semantics) ==
              if GroupCount(groups, semantics) == 0 then 0 else GroupCount(groups, semantics) - 1
  {
    if groups != [] && groups[0].semantics != semantics {
      RemoveGroupShape(groups[1..], semantics);
      var rest := RemoveGroup(groups[1..], semantics);
      assert ([groups[0]] + rest)[1..] == rest;
    }
  }

  function GroupCount(groups: seq<ContentGroup>, semantics: string): nat {
    if groups == [] then 0 else (if groups[0].semantics == semantics then 1 else 0) + GroupCount(groups[1..], semantics)
  }

  function OtherGroups(groups: seq<ContentGroup>, semantics: string): seq<ContentGroup> {
    if groups == [] then []
    else (if groups[0].semantics == semantics then [] else [groups[0]]) + OtherGroups(groups[1..], semantics)
  }

  lemma {:induction false} GroupCountAppend(a: seq<ContentGroup>, b: seq<ContentGroup>, semantics: string)
    ensures GroupCount(a + b, semantics) == GroupCount(a, semantics) + GroupCount(b, semantics)
  {
    if a != [] {
      assert (a + b)[1..] == a[1..] + b;
      GroupCountAppend(a[1..], b, semantics);
    } else {
      assert a + b == b;
    }
  }

  lemma {:induction false} OtherGroupsAppend(a: seq<ContentGroup>, b: seq<ContentGroup>, semantics: string)
    ensures OtherGroups(a + b, semantics) == OtherGroups(a, semantics) + OtherGroups(b, semantics)
  {
    if a != [] {
      assert (a + b)[1..] == a[1..] + b;
      OtherGroupsAppend(a[1..], b, semantics);
    } else {
      assert a + b == b;
    }
  }

  /** After the rebuild the last group is a BUNDLE group naming every
      section once, in the order the names first occur, and every section in
      order when the names are distinct; the groups of other semantics are
      kept in order, and the number of BUNDLE groups is one when there was at
      most one. */
  lemma BundleGroupsShape(groups: seq<ContentGroup>, cs: seq<ContentInfo>)
    ensures var r := BundleGroups(groups, cs);
            && r[|r| - 1] == ContentGroup(GroupTypeBundle, GroupNames(cs))
            && (forall x :: x in r[|r| - 1].contentNames <==> x in Mids(cs))
            && NoDup(r[|r| - 1].contentNames)
            && (forall k :: 0 <= k <= |cs| ==> GroupNames(cs[..k]) <= r[|r| - 1].contentNames)
            && (NoDup(Mids(cs)) ==> r[|r| - 1].contentNames == Mids(cs))
            && OtherGroups(r, GroupTypeBundle) == OtherGroups(groups, GroupTypeBundle)
            && (GroupCount(groups, GroupTypeBundle) <= 1 ==> GroupCount(r, GroupTypeBundle) == 1)
  {
    var bundle := [ContentGroup(GroupTypeBundle, GroupNames(cs))];
    GroupNamesShape(cs);
    forall k | 0 <= k <= |cs| ensures GroupNames(cs[..k]) <= GroupNames(cs) {
      GroupNamesPrefix(cs, k);
    }
    RemoveGroupShape(groups, GroupTypeBundle);
    GroupCountAppend(RemoveGroup(groups, GroupTypeBundle), bundle, GroupTypeBundle);
    OtherGroupsAppend(RemoveGroup(groups, GroupTypeBundle), bundle, GroupTypeBundle);
    assert bundle[1..] == [];
  }

  /** A binding is kept exactly when it is an input binding whose name is not
      filtered out; the kept ones stay in order. */
  lemma {:induction false} TransportsNotInMembers(ts: seq<TransportInfo>, names: set<string>)
    ensures forall t :: t in TransportsNotIn(ts, names) <==> t in ts && t.contentName !in names
  {
    if ts != [] {
      var n := |ts| - 1;
      TransportsNotInMembers(ts[..n], names);
      assert ts == ts[..n] + [ts[n]];
    }
  }

  /** The fanned-out bindings name every RID once, in record and RID order,
      and bind each RID to the transport of the record that owns it. */
  lemma {:induction false} FanOutShape(infos: seq<SimulcastSectionInfo>)
    ensures ContentNames(FanOut(infos)) == AllRids(infos)
    ensures forall i, k :: 0 <= i < |infos| && 0 <= k < |infos[i].rids| ==>
              TransportInfo(infos[i].rids[k], infos[i].transportDescription) in FanOut(infos)
  {
    if infos != [] {
      var n := |infos| - 1;
      var prefix := infos[..n];
      FanOutShape(prefix);
      var tail := RidTransports(infos[n]);
      assert ContentNames(FanOut(prefix) + tail) == ContentNames(FanOut(prefix)) + ContentNames(tail);
      assert ContentNames(tail) == infos[n].rids;
      forall i, k | 0 <= i < |infos| && 0 <= k < |infos[i].rids|
        ensures TransportInfo(infos[i].rids[k], infos[i].transportDescription) in FanOut(infos)
      {
        if i < n {
          assert prefix[i] == infos[i];
        } else {
          assert tail[k] == TransportInfo(infos[i].rids[k], infos[i].transportDescription);
        }
      }
    }
  }

  // ---------------------------------------------------------------------
  // The loops PatchOffer runs

  lemma OfferExtensionsSnoc(exts: seq<RtpExtension>, ridId: int, j: nat)
    requires j < |exts|
    ensures OfferExtensions(exts[..j + 1], ridId) ==
              OfferExtensions(exts[..j], ridId) + (if IsRidExtension(exts[j]) then [] else [Retagged(exts[j], ridId)])
  {
    assert exts[..j + 1][..j] == exts[..j];
  }

  /** Drops the RID and repaired-RID extensions and retags the MID extension,
      erasing in place while iterating. */
  method PatchOfferExtensions(exts: seq<RtpExtension>, ridId: int) returns (r: seq<RtpExtension>)
    ensures r == OfferExtensions(exts, ridId)
  {
    r := exts;
    var i := 0;
    ghost var j := 0;
    while i < |r|
      invariant 0 <= i <= |r| && 0 <= j <= |exts|
      invariant r[..i] == OfferExtensions(exts[..j], ridId)
      invariant r[i..] == exts[j..]
      decreases |r| - i
    {
      SuffixStep(r, exts, i, j);
      OfferExtensionsSnoc(exts, ridId, j);
      if r[i].uri == RidUri {
        EraseAt(r, i);
        r := r[..i] + r[i + 1..];
        j := j + 1;
        continue;
      }
      if r[i].uri == RepairedRidUri {
        EraseAt(r, i);
        r := r[..i] + r[i + 1..];
        j := j + 1;
        continue;
      }
      if r[i].uri == MidUri {
        ReplaceAt(r, i, r[i].(id := ridId));
        r := r[i := r[i].(id := ridId)];
      } else {
        KeepAt(r, i);
      }
      i := i + 1;
      j := j + 1;
    }
    assert exts[..j] == exts;
    assert r[..i] == r;
  }

  /** The names of the BUNDLE group, each section's name added in turn. */
  method CollectMids(cs: seq<ContentInfo>) returns (names: seq<string>)
    ensures names == GroupNames(cs)
  {
    names := [];
    for k := 0 to |cs|
      invariant names == GroupNames(cs[..k])
    {
      assert cs[..k + 1][..k] == cs[..k];
      names := AddContentName(names, cs[k].mid);
    }
    assert cs[..|cs|] == cs;
  }

  lemma TransportsNotInSnoc(ts: seq<TransportInfo>, names: set<string>, j: nat)
    requires j < |ts|
    ensures TransportsNotIn(ts[..j + 1], names) ==
              TransportsNotIn(ts[..j], names) + (if ts[j].contentName in names then [] else [ts[j]])
  {
    assert ts[..j + 1][..j] == ts[..j];
  }

  /** Erases, while iterating, the bindings whose name is in `names`. */
  method EraseTransports(ts: seq<TransportInfo>, names: set<string>) returns (r: seq<TransportInfo>)
    ensures r == TransportsNotIn(ts, names)
  {
    r := ts;
    var i := 0;
    ghost var j := 0;
    while i < |r|
      invariant 0 <= i <= |r| && 0 <= j <= |ts|
      invariant r[..i] == TransportsNotIn(ts[..j], names)
      invariant r[i..] == ts[j..]
      decreases |r| - i
    {
      SuffixStep(r, ts, i, j);
      TransportsNotInSnoc(ts, names, j);
      if r[i].contentName in names {
        EraseAt(r, i);
        r := r[..i] + r[i + 1..];
      } else {
        KeepAt(r, i);
        i := i + 1;
      }
      j := j + 1;
    }
    assert ts[..j] == ts;
    assert r[..i] == r;
  }

  /** Appends one binding per RID of every record. */
  method AppendFanOut(ts: seq<TransportInfo>, infos: seq<SimulcastSectionInfo>) returns (r: seq<TransportInfo>)
    ensures r == ts + FanOut(infos)
  {
    r := ts;
    for i := 0 to |infos|
      invariant r == ts + FanOut(infos[..i])
    {
      var info := infos[i];
      assert infos[..i + 1][..i] == infos[..i];
      for k := 0 to |info.rids|
        invariant r == ts + FanOut(infos[..i]) + RidTransports(info)[..k]
      {
        assert RidTransports(info)[..k + 1] == RidTransports(info)[..k] + [TransportInfo(info.rids[k], info.transportDescription)];
        r := r + [TransportInfo(info.rids[k], info.transportDescription)];
      }
      assert RidTransports(info)[..|info.rids|] == RidTransports(info);
    }
    assert infos[..|infos|] == infos;
  }

  /** AddContent of one section per RID, each with its own copy of the
      prototype media. */
  method AddPerRidSections(cs: seq<ContentInfo>, rids: seq<string>, protocol: MediaProtocolType, prototype: MediaDescription)
    returns (out: seq<ContentInfo>)
    ensures out == cs + PerRidSections(rids, protocol, prototype)
  {
    out := cs;
    for k := 0 to |rids|
      invariant out == cs + PerRidSections(rids[..k], protocol, prototype)
    {
      assert PerRidSections(rids[..k + 1], protocol, prototype) ==
             PerRidSections(rids[..k], protocol, prototype) + [NewContent(rids[k], protocol, prototype)];
      out := out + [NewContent(rids[k], protocol, prototype)];
    }
    assert rids[..|rids|] == rids;
  }

  /** The rewrite of one simulcast section, as the body of PatchOffer's loop
      runs it. */
  method ExplodeOne(cs: seq<ContentInfo>, info: SimulcastSectionInfo) returns (r: Result<seq<ContentInfo>>)
    ensures r == ExplodeSection(cs, info)
  {
    var simulcastContent := FindContent(cs, info.mid);
    if simulcastContent.None? {
      return Failure(SectionMissing);
    }
    var prototype := simulcastContent.value.media;
    var rest := RemoveContent(cs, info.mid);
    if rest.None? {
      return Failure(SectionMissing);
    }
    var extensions := PatchOfferExtensions(prototype.extensions, info.ridExtension.id);
    prototype := prototype.(extensions := extensions);
    if |prototype.streams| != 1 {
      return Failure(StreamCountNotOne);
    }
    if prototype.streams[0].rids == [] {
      return Failure(StreamWithoutRids);
    }
    prototype := prototype.(streams := [prototype.streams[0].(rids := [])]);
    prototype := prototype.(simulcast := NoSimulcast);
    assert prototype == OfferPrototype(simulcastContent.value.media, info.ridExtension.id);
    var out := AddPerRidSections(rest.value, info.rids, info.mediaProtocolType, prototype);
    return Success(out);
  }

  /** A failure on a prefix of the records is the failure of the whole
      rewrite. */
  lemma {:induction false} ExplodeSectionsPrefixFails(cs: seq<ContentInfo>, infos: seq<SimulcastSectionInfo>, k: nat)
    requires k <= |infos| && ExplodeSections(cs, infos[..k]).Failure?
    ensures ExplodeSections(cs, infos) == ExplodeSections(cs, infos[..k])
    decreases |infos|
  {
    if k < |infos| {
      var n := |infos| - 1;
      assert infos[..n][..k] == infos[..k];
      ExplodeSectionsPrefixFails(cs, infos[..n], k);
    } else {
      assert infos[..k] == infos;
    }
  }

  /** The rewrite of every recorded section, in record order. */
  method ExplodeAll(cs: seq<ContentInfo>, infos: seq<SimulcastSectionInfo>) returns (r: Result<seq<ContentInfo>>)
    ensures r == ExplodeSections(cs, infos)
  {
    var current := cs;
    for i := 0 to |infos|
      invariant ExplodeSections(cs, infos[..i]) == Success(current)
    {
      assert infos[..i + 1][..i] == infos[..i];
      var step := ExplodeOne(current, infos[i]);
      if step.Failure? {
        ExplodeSectionsPrefixFails(cs, infos, i + 1);
        return step;
      }
      current := step.value;
    }
    assert infos[..|infos|] == infos;
    return Success(current);
  }

  /** The description PatchOffer builds from a clone of the offer's: the
      sections rewritten, the BUNDLE group rebuilt over every section and the
      RID bindings put in place of the recorded MIDs' bindings. */
  method PatchOfferDescription(desc: SessionDescription, infos: seq<SimulcastSectionInfo>, byMid: set<string>)
    returns (r: Result<SessionDescription>)
    ensures r == PatchedOfferDescription(desc, infos, byMid)
  {
    var exploded := ExplodeAll(desc.contents, infos);
    if exploded.Failure? {
      return Failure(exploded.error);
    }
    var contents := exploded.value;
    var names := CollectMids(contents);
    var groups := RemoveGroup(desc.groups, GroupTypeBundle);
    groups := groups + [ContentGroup(GroupTypeBundle, names)];
    var transports := EraseTransports(desc.transportInfos, byMid);
    transports := AppendFanOut(transports, infos);
    return Success(SessionDescription(contents, groups, transports));
  }
}
