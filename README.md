# SignalingInterceptor: simulcast SDP rewriting for peer-connection end-to-end tests

The WebRTC end-to-end test framework connects two peers, one offering
simulcast video and one that cannot receive it. `SignalingInterceptor`
(test/pc/e2e/sdp/sdp_changer.cc) sits on the signalling path between them
and rewrites what passes through:

- **FillContext** walks the offer's media sections. It records every MID in
  order. Each simulcast video section must have a single stream with RIDs, a
  MID and a RID header extension with nonzero ids, and a transport binding.
  The section is rewritten in place to plain send RIDs and send layers, and
  its `SimulcastSectionInfo` record is registered in the `SignalingContext`.
- **PatchOffer** sends the answerer an offer in which every simulcast section
  becomes one ordinary section per RID:
  - the RID and repaired-RID extensions are dropped;
  - the MID extension takes the RID extension's id;
  - the BUNDLE group is rebuilt over all sections;
  - each RID inherits the transport binding of its section.
- **PatchAnswer** folds the answerer's per-RID sections back into one
  simulcast section per record, with receive RIDs and receive layers. It then
  restores the offer's section order (**RestoreMediaSectionsOrder**), rebuilds
  BUNDLE, and binds each MID to the transport of its first RID binding.
- **PatchOffererIceCandidates / PatchAnswererIceCandidates** re-address ICE
  candidates between the MID and RID namings.
- **FilterCodecCapabilities** picks the requested codec, plus RTX and FEC
  companions, from a peer's supported codecs.

Every `RTC_CHECK` of the source is a `Failure(...)` value of the `Fatal`
datatype, so each error path is modelled and not excluded by a precondition.

The modules follow the structure of the source file:

- `Sdp`: the session-description object model, as values.
- `Context`: `SimulcastSectionInfo`, and `SignalingContext` as a class with
  the source's fields.
- `Analysis`: the per-section work of FillContext.
- `OfferPatch`: PatchOffer's rewrite.
- `SectionOrder`: RestoreMediaSectionsOrder.
- `AnswerPatch`: PatchAnswer's rewrite.
- `Candidates`: candidate re-addressing.
- `CodecFilter`: codec selection.
- `Interceptor`: the `SignalingInterceptor` class tying them together.

Each loop of the source is a method proved equal to a specification
function, and the properties are lemmas about those functions.

## Model

| member | source | states |
|---|---|---|
| CodecFilter.MatchParameters | test/pc/e2e/sdp/sdp_changer.cc:50-61 | the inner loop reports a match exactly when every required parameter is present with the required value |
| CodecFilter.FilterCodecCapabilities | test/pc/e2e/sdp/sdp_changer.cc:37-86 | the two passes and the check between them compute the filter as written (`FilteredCodecs`) |
| CodecFilter.MainCodecsMembers | test/pc/e2e/sdp/sdp_changer.cc:45-65 | a codec is kept by the main pass iff it is supported, has the requested name and carries every required parameter |
| CodecFilter.CompanionCodecsMembers | test/pc/e2e/sdp/sdp_changer.cc:72-84 | a codec is added by the companion pass iff it is supported and is RTX with the RTX flag, FlexFEC with the FlexFEC flag, or RED/ULPFEC with the RED flag |
| CodecFilter.MainCodecsAppend | test/pc/e2e/sdp/sdp_changer.cc:46-65 | the main pass keeps supported order (it distributes over concatenation) |
| CodecFilter.CompanionCodecsAppend | test/pc/e2e/sdp/sdp_changer.cc:73-84 | the companion pass keeps supported order |
| CodecFilter.SelectedCodecsOutcome | test/pc/e2e/sdp/sdp_changer.cc:44-85 | the filter fails iff no supported codec matches name and parameters; otherwise the main codecs come first, and every codec in the result is a supported main codec or companion |
| CodecFilter.FilteredCodecsOutcome | test/pc/e2e/sdp/sdp_changer.cc:72-84 | the filter as written does not depend on `use_ulpfec`, and RED and ULPFEC (when not the main codec) are present iff `use_flexfec` |
| CodecFilter.IntendedCodecsOutcome | test/pc/e2e/sdp/sdp_changer.cc:78-82 | the corrected filter keeps RED and ULPFEC together iff `use_ulpfec`, FlexFEC iff `use_flexfec`, RTX iff `use_rtx` |
| CodecFilter.UlpfecRequestDropped | test/pc/e2e/sdp/sdp_changer.cc:76-82 | with ULPFEC requested and FlexFEC not, over VP8/RED/ULPFEC, the filter as written returns only VP8 and the corrected one returns all three |
| CodecFilter.Vp8WithCompanions | test/pc/e2e/sdp/sdp_changer.cc:37-86 | VP8 with RTX and both FEC flags keeps every supported companion, with VP8 first |
| Context.NewSimulcastSectionInfo | test/pc/e2e/sdp/sdp_changer.cc:427-435 | the record keeps the MID, the protocol and the RID names in order; every other field is default |
| Context.SignalingContext.AddSimulcastInfo | test/pc/e2e/sdp/sdp_changer.cc:437-448 | appends the record and indexes it under its MID and each RID; fails with DuplicateMid or DuplicateRid exactly when a key is taken; on success the context stays valid and old index entries are kept |
| Context.UniqueKeysAppend | test/pc/e2e/sdp/sdp_changer.cc:437-448 | a record can be registered iff its MID is new and its RIDs are distinct and new |
| Context.ContextBijection | test/pc/e2e/sdp/sdp_changer.cc:437-448 | in a valid context each record is found again under its MID and each of its RIDs, and a RID's owner is indexed under its own MID |
| Context.RidOwnerUnique | test/pc/e2e/sdp/sdp_changer.cc:443-447 | a RID belongs to at most one registered record |
| Context.DistinctMids | test/pc/e2e/sdp/sdp_changer.cc:440-442 | records with unique MIDs are told apart by their MIDs |
| Context.RidOwner | test/pc/e2e/sdp/sdp_changer.cc:409-416 | the record looked up under any of its RIDs is that record (its MID) |
| Context.FirstRidOwner | test/pc/e2e/sdp/sdp_changer.cc:387-393 | a recorded MID has a first RID, and that RID is owned by the MID again |
| Analysis.BuildSendLayers | test/pc/e2e/sdp/sdp_changer.cc:109-117 | one send RID and one unpaused single-alternative send layer per recorded RID, in order |
| Analysis.ScanExtensions | test/pc/e2e/sdp/sdp_changer.cc:120-128 | for each of the MID, RID and repaired-RID URIs, picks the last extension with that URI, or an unset one |
| Analysis.FindTransport | test/pc/e2e/sdp/sdp_changer.cc:131-139 | finds a binding iff one is named by the MID, and returns the first one's description |
| Analysis.AnalyzeOne | test/pc/e2e/sdp/sdp_changer.cc:95-139 | one section's checks, record and in-place rewrite, as `AnalyzeSection` defines them |
| Analysis.RewrittenShape | test/pc/e2e/sdp/sdp_changer.cc:96-141 | a checked section keeps its name; a non-simulcast-video section is untouched and unrecorded; a simulcast video section gives one record, under its MID, with RIDs |
| Analysis.AnalyzeContentsSucceeds | test/pc/e2e/sdp/sdp_changer.cc:93-143 | the walk fails iff some simulcast video section fails the checks |
| Analysis.AnalyzeContentsLayout | test/pc/e2e/sdp/sdp_changer.cc:93-117 | a successful walk keeps every section name and position and leaves the other sections untouched |
| Analysis.AnalyzeContentsRecords | test/pc/e2e/sdp/sdp_changer.cc:99-141 | a successful walk records exactly the simulcast video sections, in order, each with at least one RID |
| Analysis.AnalyzedSectionsNormalized | test/pc/e2e/sdp/sdp_changer.cc:105-119 | every record matches its rewritten section: one stream whose send RIDs are the record's RIDs, and the record's simulcast description |
| Interceptor.FilledOfferShape | test/pc/e2e/sdp/sdp_changer.cc:92-144 | FillContext's checks pass iff every simulcast video section is accepted; the rewrite keeps type, session id and version, groups, bindings and section names, and records the simulcast MIDs in order, each with RIDs |
| Interceptor.ScanAdvances | test/pc/e2e/sdp/sdp_changer.cc:93-141 | one more accepted section extends the walk by its rewritten form and its record |
| Interceptor.ScanStops | test/pc/e2e/sdp/sdp_changer.cc:101-141 | a section that fails a check, or whose record clashes with earlier ones, makes the whole FillContext fail |
| Interceptor.SignalingInterceptor.FillSection | test/pc/e2e/sdp/sdp_changer.cc:94-141 | records the MID; succeeds iff the section passes and its record registers; then returns the rewritten section and appends the record |
| Interceptor.SignalingInterceptor.FillContext | test/pc/e2e/sdp/sdp_changer.cc:92-144 | succeeds iff the checks pass and the new records register; it then returns the rewritten offer, appends every MID to the order and the records to the context, and keeps the context valid |
| Interceptor.SignalingInterceptor.PatchOffer | test/pc/e2e/sdp/sdp_changer.cc:146-252 | fails when FillContext fails; otherwise returns the filled offer and, for the remote peer, a copy (no simulcast) or the patched description under the offer's session id and version (which exists on a fresh interceptor, by `Interceptor.PatchOfferSucceeds`) |
| Interceptor.PatchedOfferSections | test/pc/e2e/sdp/sdp_changer.cc:159-215 | the rewrite of the filled sections succeeds: the sections that were not recorded, then one section per RID; the names are the kept names then every RID, all distinct when no RID is also a section name |
| Interceptor.PatchOfferSucceeds | test/pc/e2e/sdp/sdp_changer.cc:146-252 | on a fresh interceptor the remote offer always exists after FillContext: a copy when nothing is recorded, otherwise an offer under the local session id and version with those sections, a BUNDLE group naming each of them once after the other groups (every section in order when no RID is also a section name), and the unrecorded bindings followed by one binding per RID to its section's transport |
| Interceptor.PatchAnswerRestoresOffer | test/pc/e2e/sdp/sdp_changer.cc:270-380 | for an answer naming the sections of the patched offer in any order, the answer for the offerer exists iff every record has a binding for one of its RIDs; it then lists the original offer's section names in the original order, bundles them after the answer's other groups, and carries the folded bindings |
| Interceptor.SignalingInterceptor.PatchAnswer | test/pc/e2e/sdp/sdp_changer.cc:270-380 | returns the answer and, for the offerer, a copy (no simulcast) or the patched answer description under the answer's session id and version |
| Interceptor.SignalingInterceptor.PatchOffererIceCandidates | test/pc/e2e/sdp/sdp_changer.cc:382-402 | re-addresses through the interceptor's context, as `OffererCandidates` defines |
| Interceptor.SignalingInterceptor.PatchAnswererIceCandidates | test/pc/e2e/sdp/sdp_changer.cc:404-425 | re-addresses through the interceptor's context, as `AnswererCandidates` defines |
| OfferPatch.PatchOfferExtensions | test/pc/e2e/sdp/sdp_changer.cc:179-198 | the erase-while-iterating loop computes `OfferExtensions` |
| OfferPatch.OfferExtensionsMembers | test/pc/e2e/sdp/sdp_changer.cc:181-196 | an extension is in the offer's list iff it is the retagged form of a section extension that is not a RID or repaired-RID extension |
| OfferPatch.OfferExtensionsShape | test/pc/e2e/sdp/sdp_changer.cc:181-196 | no RID or repaired-RID extension survives, and every MID extension carries the RID extension's id |
| OfferPatch.AddPerRidSections | test/pc/e2e/sdp/sdp_changer.cc:210-214 | appends one section per RID, named by the RID, with the prototype media |
| OfferPatch.ExplodeOne | test/pc/e2e/sdp/sdp_changer.cc:164-214 | one loop turn removes the simulcast section and appends its per-RID sections; an absent section is fatal |
| OfferPatch.ExplodeAll | test/pc/e2e/sdp/sdp_changer.cc:159-215 | the loop over the records computes `ExplodeSections` |
| OfferPatch.ExplodeSectionsPrefixFails | test/pc/e2e/sdp/sdp_changer.cc:159-215 | a failure on the first records is the failure of the whole rewrite |
| OfferPatch.ExplodeSectionsShape | test/pc/e2e/sdp/sdp_changer.cc:159-215 | with distinct names and FillContext's records, the rewrite succeeds: the recorded sections are removed, and their per-RID sections are appended in record order |
| OfferPatch.ExplodedNamesDistinct | test/pc/e2e/sdp/sdp_changer.cc:210-221 | the rewritten sections are the kept names then every RID, with no name twice |
| OfferPatch.CollectMids | test/pc/e2e/sdp/sdp_changer.cc:218-221 | adding each section's name to the BUNDLE group in turn, skipping a name already there, gives `GroupNames` (also used for the answer, lines 344-347) |
| Sdp.GroupNamesShape | test/pc/e2e/sdp/sdp_changer.cc:218-221 | the BUNDLE group names exactly the section names, each once; with distinct section names it lists every section in order |
| Sdp.GroupNamesPrefix | test/pc/e2e/sdp/sdp_changer.cc:218-221 | the names added for the leading sections come first, in the same order: names appear in the order they first occur |
| OfferPatch.RemoveGroupShape | test/pc/e2e/sdp/sdp_changer.cc:222-224 | removing the BUNDLE group removes one BUNDLE group when present and keeps the others in order |
| OfferPatch.BundleGroupsShape | test/pc/e2e/sdp/sdp_changer.cc:217-225 | the rebuilt groups end with a BUNDLE group naming every section name once, in order of first occurrence (every section in order when names are distinct), keep the other groups in order, and hold one BUNDLE group when there was at most one |
| OfferPatch.EraseTransports | test/pc/e2e/sdp/sdp_changer.cc:228-238 | the erase-while-iterating loop computes `TransportsNotIn` |
| OfferPatch.TransportsNotInMembers | test/pc/e2e/sdp/sdp_changer.cc:229-238 | a binding is kept iff its name is not a recorded MID; kept bindings stay in order |
| OfferPatch.AppendFanOut | test/pc/e2e/sdp/sdp_changer.cc:239-243 | appends the fanned-out RID bindings after the kept ones |
| OfferPatch.FanOutShape | test/pc/e2e/sdp/sdp_changer.cc:239-243 | the new bindings name every RID in record and RID order, each bound to its record's transport |
| OfferPatch.PatchOfferDescription | test/pc/e2e/sdp/sdp_changer.cc:156-244 | builds `PatchedOfferDescription`: sections rewritten, BUNDLE rebuilt, bindings replaced |
| SectionOrder.RemoveRecorded | test/pc/e2e/sdp/sdp_changer.cc:258-260 | removes each recorded MID in turn, stopping at the first absent one |
| SectionOrder.ReAdd | test/pc/e2e/sdp/sdp_changer.cc:262-266 | re-adds a copy of each recorded section in recorded order, stopping at the first absent one |
| SectionOrder.RestoreMediaSectionsOrder | test/pc/e2e/sdp/sdp_changer.cc:254-268 | computes `RestoredOrder`; groups and bindings are copied unchanged |
| SectionOrder.RestoredContentsOutcome | test/pc/e2e/sdp/sdp_changer.cc:257-266 | the restore succeeds iff the recorded MIDs and the section names are the same multiset; otherwise it reports a missing name before leftovers |
| SectionOrder.RestoredContentsSections | test/pc/e2e/sdp/sdp_changer.cc:257-267 | the result has the recorded order and the same length, and holds (re-created) every source section and nothing else |
| SectionOrder.RestoredContentsIdempotent | test/pc/e2e/sdp/sdp_changer.cc:254-268 | restoring a second time changes nothing |
| SectionOrder.ReorderedFixed | test/pc/e2e/sdp/sdp_changer.cc:262-266 | re-adding re-created sections in their own order gives them back |
| AnswerPatch.PatchAnswerExtensions | test/pc/e2e/sdp/sdp_changer.cc:299-316 | the erase-then-append loop computes `AnswerExtensions` |
| AnswerPatch.WithoutSdesMembers | test/pc/e2e/sdp/sdp_changer.cc:302-310 | an extension is kept iff it is not a MID, RID or repaired-RID extension |
| AnswerPatch.AnswerExtensionsShape | test/pc/e2e/sdp/sdp_changer.cc:299-316 | the collapsed section ends with the recorded MID and RID extensions, and before them exactly the answer's other extensions |
| AnswerPatch.BuildReceiveRids | test/pc/e2e/sdp/sdp_changer.cc:320-323 | one receive RID per recorded RID, in order |
| AnswerPatch.BuildAnswerSimulcast | test/pc/e2e/sdp/sdp_changer.cc:331-335 | the offer's send layers become the receive layers, with no send layers |
| AnswerPatch.AnswerMediaShape | test/pc/e2e/sdp/sdp_changer.cc:318-335 | the collapsed media has one stream receiving every recorded RID in order, receive layers equal to the offer's send layers, and the answer section's type and attributes |
| AnswerPatch.CollapseOne | test/pc/e2e/sdp/sdp_changer.cc:281-338 | one loop turn removes the RID sections and appends the collapsed section; a missing RID section or a first section with streams is fatal |
| AnswerPatch.CollapseAll | test/pc/e2e/sdp/sdp_changer.cc:280-339 | the loop over the records computes `CollapseSections` |
| AnswerPatch.CollapseSectionsPrefixFails | test/pc/e2e/sdp/sdp_changer.cc:280-339 | a failure on the first records is the failure of the whole collapse |
| AnswerPatch.CollapseSectionsShape | test/pc/e2e/sdp/sdp_changer.cc:280-339 | with distinct names and RIDs all answered, the collapse removes every RID section and appends one collapsed section per record |
| AnswerPatch.CollapsedMids | test/pc/e2e/sdp/sdp_changer.cc:338 | the collapsed sections are named by the recorded MIDs in record order |
| AnswerPatch.CollapsedNames | test/pc/e2e/sdp/sdp_changer.cc:280-339 | collapsing an answer to the patched offer gives back the offer's section names as a multiset |
| AnswerPatch.CollapsedAnswerRestores | test/pc/e2e/sdp/sdp_changer.cc:280-341 | collapsing such an answer, in any section order, then restoring the order succeeds and gives the original offer's names in its order |
| AnswerPatch.CollectTransports | test/pc/e2e/sdp/sdp_changer.cc:354-368 | erases the RID bindings and collects, per owning MID, a description (`CollectedTransports`) |
| AnswerPatch.CollectedIsFirst | test/pc/e2e/sdp/sdp_changer.cc:357-368 | the collected description of a MID is that of the first binding of one of its RIDs (insert keeps the first) |
| AnswerPatch.AppendMidBindings | test/pc/e2e/sdp/sdp_changer.cc:369-372 | appends one binding per record; a record without a collected description is fatal |
| AnswerPatch.PatchAnswerTransports | test/pc/e2e/sdp/sdp_changer.cc:353-373 | the two loops compute `AnswerTransports` |
| AnswerPatch.AnswerTransportsOutcome | test/pc/e2e/sdp/sdp_changer.cc:369-372 | the fix succeeds iff every record has a binding for one of its RIDs; otherwise AnswerTransportMissing |
| AnswerPatch.AnswerTransportsShape | test/pc/e2e/sdp/sdp_changer.cc:353-373 | the non-RID bindings are kept in order, then each MID is bound to its record's first RID binding |
| AnswerPatch.AnswerTransportsRoundTrip | test/pc/e2e/sdp/sdp_changer.cc:353-373 | an answer echoing the offer's fanned-out bindings gets each record bound back to its own transport |
| AnswerPatch.PatchAnswerDescription | test/pc/e2e/sdp/sdp_changer.cc:277-373 | builds `PatchedAnswerDescription`: collapse, order restore, BUNDLE rebuild, binding fix |
| Candidates.PatchOffererIceCandidates | test/pc/e2e/sdp/sdp_changer.cc:382-402 | the loop computes `OffererCandidates` |
| Candidates.PatchAnswererIceCandidates | test/pc/e2e/sdp/sdp_changer.cc:404-425 | the loop computes `AnswererCandidates` |
| Candidates.OffererCandidatesShape | test/pc/e2e/sdp/sdp_changer.cc:382-402 | fails iff there are no candidates; otherwise keeps number, order and payload, copies unrecorded MIDs and moves a recorded MID to the first RID of its record (which it owns), at index 0 |
| Candidates.AnswererCandidatesShape | test/pc/e2e/sdp/sdp_changer.cc:404-425 | fails iff there are no candidates; otherwise keeps number, order and payload, copies non-RIDs and moves a RID to the MID of its owning record, at index 0 |
| Candidates.CandidateRoundTrip | test/pc/e2e/sdp/sdp_changer.cc:386-420 | offerer then answerer re-addressing gives a candidate back (at index 0 when it was re-addressed) |
| Candidates.CandidatesRoundTrip | test/pc/e2e/sdp/sdp_changer.cc:382-425 | the same round trip over a whole candidate list |

## Left out

- `CodecRequiredParamsToString` (lines 26-33) only formats the message of a fatal check. A fatal check is modelled as an error value without text.
- The session-description object model (`cricket::SessionDescription`, `JsepSessionDescription`, `CloneSessionDescription`, `CreateIceCandidate`) is not part of this model. It is modelled by value: a clone is the same value, and SDP attributes the rewriter only copies are opaque `Blob`s. Its `ContentGroup::AddContentName` is taken to append a name only when the group does not hold it yet (`Sdp.AddContentName`), so a BUNDLE group names a repeated section name once.
- SignalingContext.HasSimulcast: its header is not part of this model. It is taken to mean that at least one simulcast record is registered.
- Context.SignalingContext.AddSimulcastInfo: the indices map to positions in the record list, where the source stores `&simulcast_infos.back()`. A later `push_back` can invalidate those pointers, so a second simulcast section would leave dangling entries in the source. The model gives the evidently intended lookup and does not model the pointer aliasing.
- Fatal checks (`RTC_CHECK`) abort the process in the source. In the model they are `Failure` results, and a method that fails reports the first failing check. Interceptor.SignalingInterceptor.FillContext: on failure the contract does not say which check failed, and the context state is left as the walk left it.
- Interceptor.SignalingInterceptor.PatchOffer: a null result of `GetContentByName` (line 164), which the source dereferences, is modelled as `SectionMissing`.
- PatchAnswer does not put the recorded repaired-RID extension back (line 314 is commented out). The model follows the code.
- PatchAnswer's MID-to-transport map is filled with `insert`, so the first binding of a record's RIDs wins, although a later one might be expected. The model follows the code (AnswerPatch.CollectedIsFirst).
- Erasing from a vector while iterating (lines 184, 189, 234, 306, 364) is modelled as erasing the element and then examining the one that moves into its place. This is what `erase(it)` followed by `continue` does in practice, although the iterator is not reassigned and is formally invalidated.
- Session id and session version are copied through unchanged and not interpreted.
- Ownership (`std::unique_ptr`, `std::move`) and the validity of pointers after a section is removed are not modelled.

## Findings

| source | as written | input that shows it | evidently intended | confidence | as-written member | corrected member |
|---|---|---|---|---|---|---|
| test/pc/e2e/sdp/sdp_changer.cc:78-80 | RED and ULPFEC are added when `use_flexfec` is set; `use_ulpfec` is never read | `codec_name` VP8, no required parameters, `use_rtx` false, `use_ulpfec` true, `use_flexfec` false, supported VP8, RED, ULPFEC: the result is VP8 only | RED and ULPFEC enabled or disabled together by `use_ulpfec`, as the comment on line 81 says | medium, not executed | CodecFilter.UlpfecRequestDropped | CodecFilter.IntendedCodecsOutcome |
