/** The session-description object model the rewriter works on: offers and
    answers, their media sections, header extensions, streams, simulcast
    layers, groups and transport bindings, as plain values.  The operations
    of that object model that the rewriter calls (look a section up by name,
    remove it, append one, remove a group) are the functions at the end of
    this module. */
module Sdp {

  /** A payload the rewriter copies but never inspects (ICE credentials and
      fingerprints, an ICE candidate, codec fields, other SDP attributes). */
  type Blob = seq<int>

  datatype Option<T> = None | Some(value: T)

  /** The fatal checks of the rewriter, one value per reason. */
  datatype Fatal =
    | UnsupportedCodec        // no supported codec matches the requested name and parameters
    | StreamCountNotOne       // a simulcast section without exactly one stream
    | StreamWithoutRids       // the stream of a simulcast section has no RIDs
    | RidExtensionMissing     // no RID header extension with a nonzero id
    | MidExtensionMissing     // no MID header extension with a nonzero id
    | TransportMissing        // no transport binding for a simulcast section
    | DuplicateMid            // a simulcast MID registered twice
    | DuplicateRid            // a RID registered twice
    | SectionMissing          // a section looked up or removed by name is absent
    | ExtraSections           // order restoration found sections outside the recorded order
    | AnswerHasStreams        // an exploded answer section already carries streams
    | AnswerTransportMissing  // no transport binding collected for a simulcast MID
    | NoCandidates            // a candidate remapping produced nothing

  datatype Result<T> = Success(value: T) | Failure(error: Fatal)

  datatype Outcome = Pass | Fail(error: Fatal)

  /** Header-extension URIs of RFC 8843 (MID) and RFC 8852 (RID, repaired RID). */
  const MidUri: string := "urn:ietf:params:rtp-hdrext:sdes:mid"
  const RidUri: string := "urn:ietf:params:rtp-hdrext:sdes:rtp-stream-id"
  const RepairedRidUri: string := "urn:ietf:params:rtp-hdrext:sdes:repaired-rtp-stream-id"

  /** Semantics of the BUNDLE group (RFC 8843). */
  const GroupTypeBundle: string := "BUNDLE"

  datatype RtpExtension = RtpExtension(uri: string, id: int, encrypt: bool)

  /** A default-constructed header extension: no URI, id 0. */
  const UnsetExtension := RtpExtension("", 0, false)

  datatype RidDirection = Send | Receive

  /** A RID with its direction; `restrictions` stands for its payload types
      and restrictions. */
  datatype RidDescription = RidDescription(rid: string, direction: RidDirection, restrictions: Blob)

  /** A stream of a media section; `attributes` stands for its SSRCs, CNAME
      and stream ids. */
  datatype StreamParams = StreamParams(rids: seq<RidDescription>, attributes: Blob)

  datatype SimulcastLayer = SimulcastLayer(rid: string, isPaused: bool)

  /** Simulcast description of RFC 8853: a list of layers per direction, each
      layer a list of alternatives. */
  datatype SimulcastDescription = SimulcastDescription(
    sendLayers: seq<seq<SimulcastLayer>>,
    receiveLayers: seq<seq<SimulcastLayer>>)
  {
    predicate IsEmpty() { sendLayers == [] && receiveLayers == [] }
  }

  const NoSimulcast := SimulcastDescription([], [])

  datatype MediaType = Audio | Video | Data

  datatype MediaProtocolType = Rtp | Sctp | OtherProtocol

  /** The media description of a section; `attributes` stands for codecs,
      direction, bandwidth and everything else the rewriter only copies. */
  datatype MediaDescription = MediaDescription(
    mediaType: MediaType,
    extensions: seq<RtpExtension>,
    streams: seq<StreamParams>,
    simulcast: SimulcastDescription,
    attributes: Blob)
  {
    predicate HasSimulcast() { !simulcast.IsEmpty() }
  }

  /** A media section ("m=" block) named by its MID. */
  datatype ContentInfo = ContentInfo(
    mid: string,
    protocol: MediaProtocolType,
    rejected: bool,
    bundleOnly: bool,
    media: MediaDescription)

  datatype ContentGroup = ContentGroup(semantics: string, contentNames: seq<string>)

  datatype TransportInfo = TransportInfo(contentName: string, description: Blob)

  datatype SessionDescription = SessionDescription(
    contents: seq<ContentInfo>,
    groups: seq<ContentGroup>,
    transportInfos: seq<TransportInfo>)

  datatype SdpType = Offer | PrAnswer | Answer | Rollback

  /** An offer or answer: a session description with its type, session id
      and session version. */
  datatype SessionDescriptionInterface = Jsep(
    sdpType: SdpType,
    description: SessionDescription,
    sessionId: string,
    sessionVersion: string)

  datatype IceCandidate = IceCandidate(sdpMid: string, sdpMlineIndex: int, candidate: Blob)

  ghost predicate NoDup<T>(s: seq<T>) {
    forall i, j :: 0 <= i < j < |s| ==> s[i] != s[j]
  }

  /** The section names of a list of sections, in order. */
  function Mids(cs: seq<ContentInfo>): (r: seq<string>)
    ensures |r| == |cs| && forall k {:trigger r[k]} :: 0 <= k < |cs| ==> r[k] == cs[k].mid
  {
    seq(|cs|, k requires 0 <= k < |cs| => cs[k].mid)
  }

  /** A section as AddContent creates it: not rejected, not bundle-only. */
  function NewContent(name: string, protocol: MediaProtocolType, media: MediaDescription): ContentInfo {
    ContentInfo(name, protocol, false, false, media)
  }

  /** GetContentByName: the first section with the given name. */
  function FindContent(cs: seq<ContentInfo>, name: string): (r: Option<ContentInfo>)
    ensures r.Some? <==> name in Mids(cs)
    ensures r.Some? ==> r.value in cs && r.value.mid == name
  {
    if cs == [] then None
    else
      MidsCons(cs);
      if cs[0].mid == name then Some(cs[0])
      else FindContent(cs[1..], name)
  }

  /** RemoveContentByName: removes the first section with the given name;
      None when there is none (the call then reports false). */
  function RemoveContent(cs: seq<ContentInfo>, name: string): (r: Option<seq<ContentInfo>>)
    ensures r.Some? <==> name in Mids(cs)
  {
    if cs == [] then None
    else
      MidsCons(cs);
      if cs[0].mid == name then Some(cs[1..])
      else match RemoveContent(cs[1..], name)
        case None => None
        case Some(rest) => Some([cs[0]] + rest)
  }

  /** Removes the named sections one after the other, failing as soon as one
      of them is absent. */
  function RemoveEach(cs: seq<ContentInfo>, names: seq<string>): Option<seq<ContentInfo>> {
    if names == [] then Some(cs)
    else match RemoveEach(cs, names[..|names| - 1])
      case None => None
      case Some(rest) => RemoveContent(rest, names[|names| - 1])
  }

  /** The sections whose names are not in `names`, in order. */
  function Without(cs: seq<ContentInfo>, names: set<string>): seq<ContentInfo> {
    if cs == [] then []
    else (if cs[0].mid in names then [] else [cs[0]]) + Without(cs[1..], names)
  }

  function SetOf(s: seq<string>): set<string> {
    set x | x in s
  }

  /** HasGroup followed by RemoveGroupByName: removes the first group with the
      given semantics, if any. */
  function RemoveGroup(groups: seq<ContentGroup>, semantics: string): seq<ContentGroup> {
    if groups == [] then []
    else if groups[0].semantics == semantics then groups[1..]
    else [groups[0]] + RemoveGroup(groups[1..], semantics)
  }

  /** ContentGroup::AddContentName: appends a name the group does not hold
      yet, and leaves the group as it is otherwise. */
  function AddContentName(names: seq<string>, name: string): seq<string> {
    if name in names then names else names + [name]
  }

  /** The names of a group built by adding each section's name in turn. */
  function GroupNames(cs: seq<ContentInfo>): seq<string> {
    if cs == [] then [] else AddContentName(GroupNames(cs[..|cs| - 1]), cs[|cs| - 1].mid)
  }

  // ---------------------------------------------------------------------
  // Lemmas about the section operations

  lemma MidsSnoc(cs: seq<ContentInfo>)
    requires cs != []
    ensures Mids(cs) == Mids(cs[..|cs| - 1]) + [cs[|cs| - 1].mid]
  {
    assert cs == cs[..|cs| - 1] + [cs[|cs| - 1]];
    MidsAppend(cs[..|cs| - 1], [cs[|cs| - 1]]);
  }

  /** A group built from the sections names every section exactly once; when
      the section names are distinct it lists them all in section order. */
  lemma {:induction false} GroupNamesShape(cs: seq<ContentInfo>)
    ensures forall x :: x in GroupNames(cs) <==> x in Mids(cs)
    ensures NoDup(GroupNames(cs))
    ensures NoDup(Mids(cs)) ==> GroupNames(cs) == Mids(cs)
  {
    if cs != [] {
      var init := cs[..|cs| - 1];
      GroupNamesShape(init);
      MidsSnoc(cs);
      var g := GroupNames(init);
      if cs[|cs| - 1].mid !in g {
        NoDupConcat(g, [cs[|cs| - 1].mid]);
      }
      if NoDup(Mids(cs)) {
        NoDupConcat(Mids(init), [cs[|cs| - 1].mid]);
      }
    }
  }

  /** The names the leading sections contribute come first, in the same
      order: names are listed in the order they first occur. */
  lemma {:induction false} GroupNamesPrefix(cs: seq<ContentInfo>, k: nat)
    requires k <= |cs|
    ensures GroupNames(cs[..k]) <= GroupNames(cs)
    decreases |cs| - k
  {
    if k < |cs| {
      var next := cs[..k + 1];
      assert next[..|next| - 1] == cs[..k];
      GroupNamesPrefix(cs, k + 1);
    } else {
      assert cs[..k] == cs;
    }
  }

  lemma MidsAppend(a: seq<ContentInfo>, b: seq<ContentInfo>)
    ensures Mids(a + b) == Mids(a) + Mids(b)
  {
  }

  lemma NoDupTail<T>(s: seq<T>)
    requires NoDup(s) && s != []
    ensures NoDup(s[1..]) && s[0] !in s[1..]
  {
  }

  lemma NoDupConcat<T>(a: seq<T>, b: seq<T>)
    ensures NoDup(a + b) <==> NoDup(a) && NoDup(b) && forall x :: x in a ==> x !in b
  {
    if NoDup(a) && NoDup(b) && forall x :: x in a ==> x !in b {
      forall i, j | 0 <= i < j < |a + b| ensures (a + b)[i] != (a + b)[j] {
        if j >= |a| && i < |a| {
          assert (a + b)[i] in a && (a + b)[j] in b;
        }
      }
    }
    if NoDup(a + b) {
      assert forall i :: 0 <= i < |a| ==> (a + b)[i] == a[i];
      assert forall i :: 0 <= i < |b| ==> (a + b)[|a| + i] == b[i];
    }
  }

  lemma NoDupCount<T>(s: seq<T>, x: T)
    requires NoDup(s)
    ensures multiset(s)[x] == if x in s then 1 else 0
  {
    if s != [] {
      assert s == [s[0]] + s[1..];
      NoDupTail(s);
      NoDupCount(s[1..], x);
    }
  }

  lemma {:induction false} WithoutMembers(cs: seq<ContentInfo>, names: set<string>, x: string)
    ensures x in Mids(Without(cs, names)) <==> x in Mids(cs) && x !in names
  {
    if cs != [] {
      MidsCons(cs);
      WithoutMembers(cs[1..], names, x);
      var head := if cs[0].mid in names then [] else [cs[0]];
      MidsAppend(head, Without(cs[1..], names));
      assert Mids(head) == if cs[0].mid in names then [] else [cs[0].mid];
    }
  }

  lemma {:induction false} WithoutCount(cs: seq<ContentInfo>, names: set<string>, x: string)
    ensures multiset(Mids(Without(cs, names)))[x] == if x in names then 0 else multiset(Mids(cs))[x]
  {
    if cs != [] {
      MidsMultisetCons(cs);
      WithoutCount(cs[1..], names, x);
      var head := if cs[0].mid in names then [] else [cs[0]];
      var rest := Without(cs[1..], names);
      MidsAppend(head, rest);
      assert Mids(head) == if cs[0].mid in names then [] else [cs[0].mid];
      assert multiset(Mids(Without(cs, names))) == multiset(Mids(head)) + multiset(Mids(rest));
    }
  }

  lemma {:induction false} WithoutNoDup(cs: seq<ContentInfo>, names: set<string>)
    requires NoDup(Mids(cs))
    ensures NoDup(Mids(Without(cs, names)))
  {
    if cs != [] {
      MidsCons(cs);
      NoDupTail(Mids(cs));
      WithoutNoDup(cs[1..], names);
      WithoutMembers(cs[1..], names, cs[0].mid);
      var head := if cs[0].mid in names then [] else [cs[0]];
      MidsAppend(head, Without(cs[1..], names));
    }
  }

  lemma {:induction false} WithoutAbsent(cs: seq<ContentInfo>, names: set<string>, m: string)
    requires m !in Mids(cs)
    ensures Without(cs, names + {m}) == Without(cs, names)
  {
    if cs != [] {
      MidsCons(cs);
      WithoutAbsent(cs[1..], names, m);
    }
  }

  lemma {:induction false} WithoutNothing(cs: seq<ContentInfo>)
    ensures Without(cs, {}) == cs
  {
    if cs != [] {
      WithoutNothing(cs[1..]);
    }
  }

  /** Looking a kept section up in a filtered list finds what the unfiltered
      list holds. */
  lemma {:induction false} FindInWithout(cs: seq<ContentInfo>, names: set<string>, m: string)
    requires m !in names
    ensures FindContent(Without(cs, names), m) == FindContent(cs, m)
  {
    if cs != [] {
      FindInWithout(cs[1..], names, m);
      if cs[0].mid in names {
        assert Without(cs, names) == Without(cs[1..], names);
      } else {
        assert Without(cs, names) == [cs[0]] + Without(cs[1..], names);
        assert ([cs[0]] + Without(cs[1..], names))[1..] == Without(cs[1..], names);
      }
    }
  }

  /** Removing a name from a filtered list with unique names filters it too. */
  lemma {:induction false} RemoveFromWithout(cs: seq<ContentInfo>, names: set<string>, m: string)
    requires NoDup(Mids(cs)) && m in Mids(cs) && m !in names
    ensures RemoveContent(Without(cs, names), m) == Some(Without(cs, names + {m}))
  {
    MidsCons(cs);
    NoDupTail(Mids(cs));
    var tail := cs[1..];
    var rest := Without(tail, names);
    if cs[0].mid == m {
      WithoutAbsent(tail, names, m);
      assert Without(cs, names) == [cs[0]] + rest;
      assert ([cs[0]] + rest)[1..] == rest;
      assert RemoveContent(Without(cs, names), m) == Some(rest);
      assert Without(cs, names + {m}) == Without(tail, names + {m});
    } else {
      RemoveFromWithout(tail, names, m);
      if cs[0].mid in names {
        assert Without(cs, names) == rest;
        assert Without(cs, names + {m}) == Without(tail, names + {m});
      } else {
        assert Without(cs, names) == [cs[0]] + rest;
        assert ([cs[0]] + rest)[1..] == rest;
        assert RemoveContent(Without(cs, names), m) == Some([cs[0]] + Without(tail, names + {m}));
        assert Without(cs, names + {m}) == [cs[0]] + Without(tail, names + {m});
      }
    }
  }

  /** In a list with unique names, looking a section's name up finds it. */
  lemma {:induction false} FindAt(cs: seq<ContentInfo>, k: nat)
    requires NoDup(Mids(cs)) && k < |cs|
    ensures FindContent(cs, cs[k].mid) == Some(cs[k])
  {
    if k > 0 {
      assert Mids(cs)[0] != Mids(cs)[k];
      MidsCons(cs);
      NoDupTail(Mids(cs));
      FindAt(cs[1..], k - 1);
    }
  }

  lemma {:induction false} FindAppendLeft(a: seq<ContentInfo>, b: seq<ContentInfo>, m: string)
    requires m in Mids(a)
    ensures FindContent(a + b, m) == FindContent(a, m)
  {
    MidsCons(a);
    if a[0].mid != m {
      assert (a + b)[1..] == a[1..] + b;
      FindAppendLeft(a[1..], b, m);
    }
  }

  lemma {:induction false} FindAppendRight(a: seq<ContentInfo>, b: seq<ContentInfo>, m: string)
    requires m !in Mids(a)
    ensures FindContent(a + b, m) == FindContent(b, m)
  {
    if a != [] {
      MidsCons(a);
      assert (a + b)[1..] == a[1..] + b;
      assert (a + b)[0] == a[0];
      FindAppendRight(a[1..], b, m);
    } else {
      assert a + b == b;
    }
  }

  lemma {:induction false} RemoveAppendLeft(a: seq<ContentInfo>, b: seq<ContentInfo>, m: string)
    requires m in Mids(a)
    ensures RemoveContent(a + b, m).Some? && RemoveContent(a, m).Some?
    ensures RemoveContent(a + b, m).value == RemoveContent(a, m).value + b
  {
    var ab := a + b;
    assert ab[0] == a[0] && ab[1..] == a[1..] + b;
    if a[0].mid == m {
      assert RemoveContent(ab, m) == Some(a[1..] + b);
    } else {
      MidsCons(a);
      RemoveAppendLeft(a[1..], b, m);
      var ra := RemoveContent(a[1..], m).value;
      RemoveCons(a, m, ra);
      RemoveCons(ab, m, ra + b);
      assert [a[0]] + (ra + b) == ([a[0]] + ra) + b;
    }
  }

  lemma RemoveCons(cs: seq<ContentInfo>, m: string, rest: seq<ContentInfo>)
    requires cs != [] && cs[0].mid != m && RemoveContent(cs[1..], m) == Some(rest)
    ensures RemoveContent(cs, m) == Some([cs[0]] + rest)
  {
  }

  lemma NoDupLast<T>(s: seq<T>)
    requires NoDup(s) && s != []
    ensures NoDup(s[..|s| - 1]) && s[|s| - 1] !in s[..|s| - 1]
  {
  }

  /** Removing distinct names that a filtered list holds, one after the
      other, filters them out; sections appended after it are untouched. */
  lemma {:induction false} RemoveEachFromWithout(cs: seq<ContentInfo>, names: set<string>, rm: seq<string>, tail: seq<ContentInfo>)
    requires NoDup(Mids(cs)) && NoDup(rm)
    requires forall x :: x in rm ==> x in Mids(cs) && x !in names
    ensures RemoveEach(Without(cs, names) + tail, rm) == Some(Without(cs, names + SetOf(rm)) + tail)
    decreases |rm|
  {
    if rm == [] {
      assert names + SetOf(rm) == names;
    } else {
      var n := |rm| - 1;
      var prefix := rm[..n];
      var last := rm[n];
      assert NoDup(prefix) && last !in prefix && last in rm by {
        NoDupLast(rm);
      }
      RemoveEachFromWithout(cs, names, prefix, tail);
      var done := names + SetOf(prefix);
      RemoveEachLast(Without(cs, names) + tail, rm, Without(cs, done) + tail);
      RemoveFromWithoutAppend(cs, done, last, tail);
      SetOfLast(rm);
      assert done + {last} == names + SetOf(rm);
    }
  }

  lemma RemoveEachLast(cs: seq<ContentInfo>, names: seq<string>, before: seq<ContentInfo>)
    requires names != [] && RemoveEach(cs, names[..|names| - 1]) == Some(before)
    ensures RemoveEach(cs, names) == RemoveContent(before, names[|names| - 1])
  {
  }

  /** Once a removal fails, removing more names fails too. */
  lemma {:induction false} RemoveEachPrefixFails(cs: seq<ContentInfo>, names: seq<string>, k: nat)
    requires k <= |names| && RemoveEach(cs, names[..k]).None?
    ensures RemoveEach(cs, names).None?
    decreases |names| - k
  {
    if k < |names| {
      assert names[..k + 1][..k] == names[..k];
      RemoveEachPrefixFails(cs, names, k + 1);
    } else {
      assert names[..k] == names;
    }
  }

  lemma SetOfLast(s: seq<string>)
    requires s != []
    ensures SetOf(s) == SetOf(s[..|s| - 1]) + {s[|s| - 1]}
  {
    assert s == s[..|s| - 1] + [s[|s| - 1]];
  }

  lemma RemoveFromWithoutAppend(cs: seq<ContentInfo>, names: set<string>, m: string, tail: seq<ContentInfo>)
    requires NoDup(Mids(cs)) && m in Mids(cs) && m !in names
    ensures RemoveContent(Without(cs, names) + tail, m) == Some(Without(cs, names + {m}) + tail)
  {
    RemoveFromWithout(cs, names, m);
    WithoutMembers(cs, names, m);
    RemoveAppendLeft(Without(cs, names), tail, m);
  }

  lemma MidsCons(cs: seq<ContentInfo>)
    requires cs != []
    ensures Mids(cs) == [cs[0].mid] + Mids(cs[1..])
  {
  }

  lemma MidsMultisetCons(cs: seq<ContentInfo>)
    requires cs != []
    ensures multiset(Mids(cs)) == multiset{cs[0].mid} + multiset(Mids(cs[1..]))
  {
    MidsCons(cs);
  }

  lemma {:induction false} RemoveContentCount(cs: seq<ContentInfo>, name: string)
    requires name in Mids(cs)
    ensures multiset(Mids(RemoveContent(cs, name).value)) == multiset(Mids(cs)) - multiset{name}
  {
    MidsMultisetCons(cs);
    if cs[0].mid != name {
      assert name in Mids(cs[1..]) by {
        MidsCons(cs);
      }
      RemoveContentCount(cs[1..], name);
      var rest := RemoveContent(cs[1..], name).value;
      RemoveCons(cs, name, rest);
      MidsMultisetCons([cs[0]] + rest);
      assert ([cs[0]] + rest)[1..] == rest;
      MultisetShift(cs[0].mid, multiset(Mids(cs[1..])), name);
    }
  }

  lemma MultisetShift(a: string, b: multiset<string>, name: string)
    requires name in b
    ensures multiset{a} + (b - multiset{name}) == (multiset{a} + b) - multiset{name}
  {
  }

  /** RemoveEach succeeds exactly when every removed name is there, counted
      with multiplicity, and leaves the remaining names. */
  lemma {:induction false} RemoveEachMultiset(cs: seq<ContentInfo>, names: seq<string>)
    ensures RemoveEach(cs, names).Some? <==> multiset(names) <= multiset(Mids(cs))
    ensures RemoveEach(cs, names).Some? ==>
              multiset(Mids(RemoveEach(cs, names).value)) == multiset(Mids(cs)) - multiset(names)
    decreases |names|
  {
    if names != [] {
      var n := |names| - 1;
      var prefix := names[..n];
      var m := names[n];
      assert multiset(names) == multiset(prefix) + multiset{m} by {
        assert names == prefix + [m];
      }
      RemoveEachMultiset(cs, prefix);
      match RemoveEach(cs, prefix)
      case None =>
        MultisetGrow(multiset(prefix), multiset(Mids(cs)), m);
      case Some(rest) =>
        RemoveEachLast(cs, names, rest);
        MultisetStep(multiset(prefix), multiset(Mids(cs)), m);
        if m in Mids(rest) {
          RemoveContentCount(rest, m);
        }
    }
  }

  lemma MultisetGrow(p: multiset<string>, all: multiset<string>, m: string)
    requires !(p <= all)
    ensures !(p + multiset{m} <= all)
  {
  }

  lemma MultisetStep(p: multiset<string>, all: multiset<string>, m: string)
    requires p <= all
    ensures (p + multiset{m} <= all) <==> m in all - p
    ensures p + multiset{m} <= all ==> (all - p) - multiset{m} == all - (p + multiset{m})
  {
    if m in all - p {
      assert (all - p)[m] > 0;
      forall x ensures (p + multiset{m})[x] <= all[x] {
      }
    }
  }

  // ---------------------------------------------------------------------
  // Steps of the erase-while-iterating loops

  /** Erasing the element at `i` keeps the part before it and shifts the
      rest down. */
  lemma EraseAt<T>(s: seq<T>, i: nat)
    requires i < |s|
    ensures (s[..i] + s[i + 1..])[..i] == s[..i]
    ensures (s[..i] + s[i + 1..])[i..] == s[i + 1..]
  {
  }

  /** Keeping the element at `i`, possibly replaced by `x`, extends the
      part before the cursor by it. */
  lemma ReplaceAt<T>(s: seq<T>, i: nat, x: T)
    requires i < |s|
    ensures s[i := x][..i + 1] == s[..i] + [x]
    ensures s[i := x][i + 1..] == s[i + 1..]
  {
  }

  lemma ConcatAssoc<T>(x: seq<T>, y: seq<T>, z: seq<T>)
    ensures x + (y + z) == x + y + z
  {
  }

  /** A sequence made of a `k`-long prefix and the rest of `s` from `k` on,
      read and replaced at `k`. */
  lemma SpliceAt<T>(p: seq<T>, s: seq<T>, k: nat, y: T)
    requires |p| == k < |s|
    ensures (p + s[k..])[k] == s[k]
    ensures (p + s[k..])[k := y] == p + [y] + s[k + 1..]
  {
    assert s[k..] == [s[k]] + s[k + 1..];
  }

  lemma KeepAt<T>(s: seq<T>, i: nat)
    requires i < |s|
    ensures s[..i + 1] == s[..i] + [s[i]]
  {
  }

  /** Two suffixes that agree agree on their first element and on the rest. */
  lemma SuffixStep<T>(s: seq<T>, t: seq<T>, i: nat, j: nat)
    requires i < |s| && j <= |t| && s[i..] == t[j..]
    ensures j < |t| && s[i] == t[j] && s[i + 1..] == t[j + 1..]
  {
    assert s[i..][0] == s[i];
    assert s[i..][1..] == s[i + 1..];
    assert t[j..][1..] == t[j + 1..];
  }

  /** A sequence that starts with `a` and continues with `b` is `a + b`. */
  lemma JoinAt<T>(r: seq<T>, a: seq<T>, b: seq<T>)
    requires |r| == |a| + |b| && r[..|a|] == a
    requires forall i :: 0 <= i < |b| ==> r[|a| + i] == b[i]
    ensures r == a + b
  {
    forall k | 0 <= k < |r| ensures r[k] == (a + b)[k] {
      if k < |a| {
        assert r[k] == r[..|a|][k];
      } else {
        assert r[|a| + (k - |a|)] == b[k - |a|];
      }
    }
  }
}
