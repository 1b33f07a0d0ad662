/** FilterCodecCapabilities: from the codecs a peer connection supports, the
    codecs with the requested name whose parameters include every required
    parameter, in supported order, followed by the RTX and FEC companion
    codecs the flags ask for, in supported order.  No matching codec is
    fatal. */
module CodecFilter {
  import opened Sdp

  /** A codec capability; `attributes` stands for the kind, clock rate,
      channels, preferred payload type and feedback the filter only copies. */
  datatype RtpCodecCapability = RtpCodecCapability(
    name: string,
    parameters: map<string, string>,
    attributes: Blob)

  const RtxCodecName: string := "rtx"
  const FlexfecCodecName: string := "flexfec-03"
  const RedCodecName: string := "red"
  const UlpfecCodecName: string := "ulpfec"

  /** Every required parameter is present in `parameters` with the required
      value. */
  predicate ParametersMatch(required: map<string, string>, parameters: map<string, string>) {
    forall key :: key in required ==> key in parameters && parameters[key] == required[key]
  }

  predicate IsMainCodec(c: RtpCodecCapability, name: string, required: map<string, string>) {
    c.name == name && ParametersMatch(required, c.parameters)
  }

  /** The codecs the second pass adds: RTX when `useRtx`, FlexFEC when
      `useFlexfec`, RED and ULPFEC when `useRed`. */
  predicate IsCompanion(c: RtpCodecCapability, useRtx: bool, useFlexfec: bool, useRed: bool) {
    || (c.name == RtxCodecName && useRtx)
    || (c.name == FlexfecCodecName && useFlexfec)
    || ((c.name == RedCodecName || c.name == UlpfecCodecName) && useRed)
  }

  /** The main codecs, in supported order. */
  function MainCodecs(supported: seq<RtpCodecCapability>, name: string, required: map<string, string>): seq<RtpCodecCapability> {
    if supported == [] then []
    else
      var c := supported[|supported| - 1];
      MainCodecs(supported[..|supported| - 1], name, required) + (if IsMainCodec(c, name, required) then [c] else [])
  }

  /** The companion codecs, in supported order. */
  function CompanionCodecs(supported: seq<RtpCodecCapability>, useRtx: bool, useFlexfec: bool, useRed: bool): seq<RtpCodecCapability> {
    if supported == [] then []
    else
      var c := supported[|supported| - 1];
      CompanionCodecs(supported[..|supported| - 1], useRtx, useFlexfec, useRed) + (if IsCompanion(c, useRtx, useFlexfec, useRed) then [c] else [])
  }

  /** The main codecs then the companions; no main codec is fatal. */
  function SelectedCodecs(name: string, required: map<string, string>, useRtx: bool, useFlexfec: bool, useRed: bool,
                          supported: seq<RtpCodecCapability>): Result<seq<RtpCodecCapability>> {
    var main := MainCodecs(supported, name, required);
    if main == [] then Failure(UnsupportedCodec)
    else Success(main + CompanionCodecs(supported, useRtx, useFlexfec, useRed))
  }

  /** The filter as written: RED and ULPFEC follow the FlexFEC flag and the
      ULPFEC flag takes no part. */
  function FilteredCodecs(name: string, required: map<string, string>, useRtx: bool, useUlpfec: bool, useFlexfec: bool,
                          supported: seq<RtpCodecCapability>): Result<seq<RtpCodecCapability>> {
    SelectedCodecs(name, required, useRtx, useFlexfec, useFlexfec, supported)
  }

  /** The filter as its comment describes it: RED and ULPFEC enabled or
      disabled together by the ULPFEC flag. */
  function IntendedFilteredCodecs(name: string, required: map<string, string>, useRtx: bool, useUlpfec: bool, useFlexfec: bool,
                                  supported: seq<RtpCodecCapability>): Result<seq<RtpCodecCapability>> {
    SelectedCodecs(name, required, useRtx, useFlexfec, useUlpfec, supported)
  }

  // ---------------------------------------------------------------------
  // Properties of the filter

  /** A codec is a main codec exactly when it is supported, has the
      requested name and carries every required parameter. */
  lemma {:induction false} MainCodecsMembers(supported: seq<RtpCodecCapability>, name: string, required: map<string, string>, c: RtpCodecCapability)
    ensures c in MainCodecs(supported, name, required) <==> c in supported && IsMainCodec(c, name, required)
  {
    if supported != [] {
      var n := |supported| - 1;
      MainCodecsMembers(supported[..n], name, required, c);
      assert supported == supported[..n] + [supported[n]];
    }
  }

  /** A codec is a companion exactly when it is supported and is an RTX codec
      with `useRtx`, a FlexFEC codec with `useFlexfec`, or a RED or ULPFEC
      codec with `useRed`. */
  lemma {:induction false} CompanionCodecsMembers(supported: seq<RtpCodecCapability>, useRtx: bool, useFlexfec: bool, useRed: bool,
                                                  c: RtpCodecCapability)
    ensures c in CompanionCodecs(supported, useRtx, useFlexfec, useRed) <==>
              && c in supported
              && ((c.name == RtxCodecName && useRtx) ||
                  (c.name == FlexfecCodecName && useFlexfec) ||
                  (c.name in [RedCodecName, UlpfecCodecName] && useRed))
  {
    if supported != [] {
      var n := |supported| - 1;
      CompanionCodecsMembers(supported[..n], useRtx, useFlexfec, useRed, c);
      assert supported == supported[..n] + [supported[n]];
    }
  }

  /** The main pass keeps supported order: filtering a concatenation is the
      concatenation of the filtered parts. */
  lemma {:induction false} MainCodecsAppend(a: seq<RtpCodecCapability>, b: seq<RtpCodecCapability>, name: string, required: map<string, string>)
    ensures MainCodecs(a + b, name, required) == MainCodecs(a, name, required) + MainCodecs(b, name, required)
    decreases |b|
  {
    if b == [] {
      assert a + b == a;
    } else {
      var n := |b| - 1;
      assert (a + b)[..|a + b| - 1] == a + b[..n];
      MainCodecsAppend(a, b[..n], name, required);
    }
  }

  /** The companion pass keeps supported order. */
  lemma {:induction false} CompanionCodecsAppend(a: seq<RtpCodecCapability>, b: seq<RtpCodecCapability>, useRtx: bool, useFlexfec: bool, useRed: bool)
    ensures CompanionCodecs(a + b, useRtx, useFlexfec, useRed) ==
              CompanionCodecs(a, useRtx, useFlexfec, useRed) + CompanionCodecs(b, useRtx, useFlexfec, useRed)
    decreases |b|
  {
    if b == [] {
      assert a + b == a;
    } else {
      var n := |b| - 1;
      assert (a + b)[..|a + b| - 1] == a + b[..n];
      CompanionCodecsAppend(a, b[..n], useRtx, useFlexfec, useRed);
    }
  }

  /** A codec is selected exactly when it is a supported main codec or
      companion. */
  lemma SelectedMember(main: seq<RtpCodecCapability>, companions: seq<RtpCodecCapability>, name: string, required: map<string, string>,
                       useRtx: bool, useFlexfec: bool, useRed: bool, supported: seq<RtpCodecCapability>, c: RtpCodecCapability)
    requires main == MainCodecs(supported, name, required)
    requires companions == CompanionCodecs(supported, useRtx, useFlexfec, useRed)
    ensures c in main + companions <==> c in supported && (IsMainCodec(c, name, required) || IsCompanion(c, useRtx, useFlexfec, useRed))
  {
    MainCodecsMembers(supported, name, required, c);
    CompanionCodecsMembers(supported, useRtx, useFlexfec, useRed, c);
  }

  /** The selection fails exactly when no supported codec is a main codec;
      on success the main codecs come first and every codec in the result is
      a supported main codec or companion. */
  lemma SelectedCodecsOutcome(name: string, required: map<string, string>, useRtx: bool, useFlexfec: bool, useRed: bool,
                              supported: seq<RtpCodecCapability>)
    ensures var r := SelectedCodecs(name, required, useRtx, useFlexfec, useRed, supported);
            && (r.Failure? <==> forall c :: c in supported ==> !IsMainCodec(c, name, required))
            && (r.Failure? ==> r.error == UnsupportedCodec)
    ensures var r := SelectedCodecs(name, required, useRtx, useFlexfec, useRed, supported);
            var main := MainCodecs(supported, name, required);
            r.Success? ==>
              && |main| > 0 && r.value[..|main|] == main
              && forall c :: c in r.value <==> c in supported && (IsMainCodec(c, name, required) || IsCompanion(c, useRtx, useFlexfec, useRed))
  {
    var main := MainCodecs(supported, name, required);
    var companions := CompanionCodecs(supported, useRtx, useFlexfec, useRed);
    if main == [] {
      forall c | c in supported ensures !IsMainCodec(c, name, required) {
        MainCodecsMembers(supported, name, required, c);
      }
    } else {
      MainCodecsMembers(supported, name, required, main[0]);
      assert SelectedCodecs(name, required, useRtx, useFlexfec, useRed, supported).value == main + companions;
      assert (main + companions)[..|main|] == main;
      forall c ensures c in main + companions <==> c in supported && (IsMainCodec(c, name, required) || IsCompanion(c, useRtx, useFlexfec, useRed)) {
        SelectedMember(main, companions, name, required, useRtx, useFlexfec, useRed, supported, c);
      }
    }
  }

  /** The filter as written gives the same result whatever the ULPFEC flag,
      and its RED and ULPFEC codecs are there exactly when FlexFEC is
      requested. */
  lemma FilteredCodecsOutcome(name: string, required: map<string, string>, useRtx: bool, useUlpfec: bool, useFlexfec: bool,
                              supported: seq<RtpCodecCapability>)
    ensures FilteredCodecs(name, required, useRtx, useUlpfec, useFlexfec, supported) ==
              FilteredCodecs(name, required, useRtx, !useUlpfec, useFlexfec, supported)
    ensures var r := FilteredCodecs(name, required, useRtx, useUlpfec, useFlexfec, supported);
            r.Success? ==> forall c :: c in supported && c.name in [RedCodecName, UlpfecCodecName] ==> (c in r.value <==> useFlexfec || IsMainCodec(c, name, required))
  {
    SelectedCodecsOutcome(name, required, useRtx, useFlexfec, useFlexfec, supported);
  }

  /** The intended filter: RED and ULPFEC codecs are there exactly when ULPFEC
      is requested (or they are themselves the requested codec), FlexFEC
      exactly when FlexFEC is, RTX exactly when RTX is. */
  lemma IntendedCodecsOutcome(name: string, required: map<string, string>, useRtx: bool, useUlpfec: bool, useFlexfec: bool,
                              supported: seq<RtpCodecCapability>)
    ensures var r := IntendedFilteredCodecs(name, required, useRtx, useUlpfec, useFlexfec, supported);
            && (r.Failure? <==> forall c :: c in supported ==> !IsMainCodec(c, name, required))
            && (r.Success? ==> forall c :: c in supported && !IsMainCodec(c, name, required) ==>
                  (c in r.value <==> (c.name == RtxCodecName && useRtx) || (c.name == FlexfecCodecName && useFlexfec) ||
                                     (c.name in [RedCodecName, UlpfecCodecName] && useUlpfec)))
  {
    SelectedCodecsOutcome(name, required, useRtx, useFlexfec, useUlpfec, supported);
  }

  /** VP8 with ULPFEC requested and FlexFEC not, over VP8, RED and ULPFEC: the
      filter as written drops RED and ULPFEC, the intended filter keeps them. */
  lemma UlpfecRequestDropped(attributes: Blob)
    ensures var vp8 := RtpCodecCapability("VP8", map[], attributes);
            var red := RtpCodecCapability(RedCodecName, map[], attributes);
            var ulpfec := RtpCodecCapability(UlpfecCodecName, map[], attributes);
            && FilteredCodecs("VP8", map[], false, true, false, [vp8, red, ulpfec]) == Success([vp8])
            && IntendedFilteredCodecs("VP8", map[], false, true, false, [vp8, red, ulpfec]) == Success([vp8, red, ulpfec])
  {
    var vp8 := RtpCodecCapability("VP8", map[], attributes);
    var red := RtpCodecCapability(RedCodecName, map[], attributes);
    var ulpfec := RtpCodecCapability(UlpfecCodecName, map[], attributes);
    var all := [vp8, red, ulpfec];
    assert "VP8" != RedCodecName && "VP8" != UlpfecCodecName;
    forall k | 0 < k <= 3 ensures all[..k][..k - 1] == all[..k - 1] {
    }
    assert MainCodecs(all[..1], "VP8", map[]) == [vp8];
    assert MainCodecs(all[..2], "VP8", map[]) == [vp8];
    assert MainCodecs(all[..3], "VP8", map[]) == [vp8];
    assert CompanionCodecs(all[..1], false, false, false) == [];
    assert CompanionCodecs(all[..2], false, false, false) == [];
    assert CompanionCodecs(all[..3], false, false, false) == [];
    assert CompanionCodecs(all[..1], false, false, true) == [];
    assert CompanionCodecs(all[..2], false, false, true) == [red];
    assert CompanionCodecs(all[..3], false, false, true) == [red, ulpfec];
    assert all[..3] == all;
    assert [vp8] + [red, ulpfec] == all;
  }

  /** VP8 with no required parameters, RTX and the new FEC requested, over
      VP8, RTX, FlexFEC, RED and ULPFEC: every codec is kept, VP8 first. */
  lemma Vp8WithCompanions(attributes: Blob)
    ensures var vp8 := RtpCodecCapability("VP8", map[], attributes);
            var rtx := RtpCodecCapability(RtxCodecName, map[], attributes);
            var flexfec := RtpCodecCapability(FlexfecCodecName, map[], attributes);
            var red := RtpCodecCapability(RedCodecName, map[], attributes);
            var ulpfec := RtpCodecCapability(UlpfecCodecName, map[], attributes);
            FilteredCodecs("VP8", map[], true, true, true, [vp8, rtx, flexfec, red, ulpfec]) ==
              Success([vp8, rtx, flexfec, red, ulpfec])
  {
    var vp8 := RtpCodecCapability("VP8", map[], attributes);
    var rtx := RtpCodecCapability(RtxCodecName, map[], attributes);
    var flexfec := RtpCodecCapability(FlexfecCodecName, map[], attributes);
    var red := RtpCodecCapability(RedCodecName, map[], attributes);
    var ulpfec := RtpCodecCapability(UlpfecCodecName, map[], attributes);
    var all := [vp8, rtx, flexfec, red, ulpfec];
    assert "VP8" != RtxCodecName && "VP8" != FlexfecCodecName && "VP8" != RedCodecName && "VP8" != UlpfecCodecName;
    forall k | 0 < k <= 5 ensures all[..k][..k - 1] == all[..k - 1] {
    }
    assert MainCodecs(all[..1], "VP8", map[]) == [vp8];
    assert MainCodecs(all[..2], "VP8", map[]) == [vp8];
    assert MainCodecs(all[..3], "VP8", map[]) == [vp8];
    assert MainCodecs(all[..4], "VP8", map[]) == [vp8];
    assert MainCodecs(all[..5], "VP8", map[]) == [vp8];
    assert CompanionCodecs(all[..1], true, true, true) == [];
    assert CompanionCodecs(all[..2], true, true, true) == [rtx];
    assert CompanionCodecs(all[..3], true, true, true) == [rtx, flexfec];
    assert CompanionCodecs(all[..4], true, true, true) == [rtx, flexfec, red];
    assert CompanionCodecs(all[..5], true, true, true) == [rtx, flexfec, red, ulpfec];
    assert all[..5] == all;
    assert MainCodecs(all, "VP8", map[]) == [vp8];
    assert CompanionCodecs(all, true, true, true) == [rtx, flexfec, red, ulpfec];
    assert [vp8] + [rtx, flexfec, red, ulpfec] == all;
    assert FilteredCodecs("VP8", map[], true, true, true, all) == Success(all);
  }

  // ---------------------------------------------------------------------
  // The loops

  /** The inner loop of the main pass: walks the required parameters and
      stops at the first that is missing or differs. */
  method MatchParameters(required: map<string, string>, parameters: map<string, string>) returns (matched: bool)
    ensures matched == ParametersMatch(required, parameters)
  {
    var remaining := required.Keys;
    matched := true;
    while remaining != {}
      invariant remaining <= required.Keys
      invariant forall key :: key in required && key !in remaining ==> key in parameters && parameters[key] == required[key]
      decreases remaining
    {
      var key :| key in remaining;
      if key !in parameters {
        matched := false;
        return;
      }
      if required[key] != parameters[key] {
        matched := false;
        return;
      }
      remaining := remaining - {key};
    }
  }

  lemma MainCodecsSnoc(supported: seq<RtpCodecCapability>, name: string, required: map<string, string>, k: nat)
    requires k < |supported|
    ensures MainCodecs(supported[..k + 1], name, required) ==
              MainCodecs(supported[..k], name, required) + (if IsMainCodec(supported[k], name, required) then [supported[k]] else [])
  {
    assert supported[..k + 1][..k] == supported[..k];
  }

  lemma CompanionCodecsSnoc(supported: seq<RtpCodecCapability>, useRtx: bool, useFlexfec: bool, useRed: bool, k: nat)
    requires k < |supported|
    ensures CompanionCodecs(supported[..k + 1], useRtx, useFlexfec, useRed) ==
              CompanionCodecs(supported[..k], useRtx, useFlexfec, useRed) +
                (if IsCompanion(supported[k], useRtx, useFlexfec, useRed) then [supported[k]] else [])
  {
    assert supported[..k + 1][..k] == supported[..k];
  }

  /** FilterCodecCapabilities: a main pass, the check that it found a codec,
      then a companion pass; `useUlpfec` is read by neither. */
  method FilterCodecCapabilities(name: string, required: map<string, string>, useRtx: bool, useUlpfec: bool, useFlexfec: bool,
                                 supported: seq<RtpCodecCapability>) returns (r: Result<seq<RtpCodecCapability>>)
    ensures r == FilteredCodecs(name, required, useRtx, useUlpfec, useFlexfec, supported)
  {
    var output: seq<RtpCodecCapability> := [];
    for k := 0 to |supported|
      invariant output == MainCodecs(supported[..k], name, required)
    {
      MainCodecsSnoc(supported, name, required, k);
      var codec := supported[k];
      if codec.name != name {
        continue;
      }
      var matched := MatchParameters(required, codec.parameters);
      if matched {
        output := output + [codec];
      }
    }
    assert supported[..|supported|] == supported;
    if |output| == 0 {
      return Failure(UnsupportedCodec);
    }
    ghost var main := output;
    for k := 0 to |supported|
      invariant output == main + CompanionCodecs(supported[..k], useRtx, useFlexfec, useFlexfec)
    {
      CompanionCodecsSnoc(supported, useRtx, useFlexfec, useFlexfec, k);
      var codec := supported[k];
      if codec.name == RtxCodecName && useRtx {
        output := output + [codec];
      } else if codec.name == FlexfecCodecName && useFlexfec {
        output := output + [codec];
      } else if (codec.name == RedCodecName || codec.name == UlpfecCodecName) && useFlexfec {
        output := output + [codec];
      }
    }
    return Success(output);
  }
}
