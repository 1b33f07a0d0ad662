/** RestoreMediaSectionsOrder: the answer's sections are put back into the
    order in which the original offer listed them.  Every recorded MID is
    removed from a copy of the description, the copy must then be empty, and
    the sections are re-added in recorded order, each re-created from the
    section of the source that carries its MID. */
module SectionOrder {
  import opened Sdp

  /** The section AddContent re-creates from `c`: same name, protocol and
      media, not rejected and not bundle-only. */
  function Reset(c: ContentInfo): ContentInfo {
    NewContent(c.mid, c.protocol, c.media)
  }

  /** The sections named by `names`, in that order, each re-created from the
      first section of `cs` that carries the name; None when a name is
      missing. */
  function Reordered(names: seq<string>, cs: seq<ContentInfo>): (r: Option<seq<ContentInfo>>)
    ensures r.Some? <==> forall x :: x in names ==> x in Mids(cs)
    ensures r.Some? ==> Mids(r.value) == names
    ensures r.Some? ==> forall k {:trigger r.value[k]} :: 0 <= k < |names| ==>
              FindContent(cs, names[k]).Some? && r.value[k] == Reset(FindContent(cs, names[k]).value)
  {
    if names == [] then Some([])
    else
      var n := |names| - 1;
      assert names == names[..n] + [names[n]];
      match Reordered(names[..n], cs)
      case None =>
        assert !(forall x :: x in names ==> x in Mids(cs)) by {
          var x :| x in names[..n] && x !in Mids(cs);
          assert x in names;
        }
        None
      case Some(prefix) =>
        match FindContent(cs, names[n])
        case None =>
          assert names[n] in names;
          None
        case Some(c) => Some(prefix + [NewContent(names[n], c.protocol, c.media)])
  }

  /** The restored section list: a recorded MID missing from the sections is
      fatal, and so is a section left over once every recorded MID has been
      removed. */
  function RestoredContents(midsOrder: seq<string>, cs: seq<ContentInfo>): Result<seq<ContentInfo>> {
    match RemoveEach(cs, midsOrder)
    case None => Failure(SectionMissing)
    case Some(rest) =>
      if rest != [] then Failure(ExtraSections)
      else match Reordered(midsOrder, cs)
        case None => Failure(SectionMissing)
        case Some(r) => Success(r)
  }

  /** The whole description after the restore: groups and transport bindings
      are copied unchanged. */
  function RestoredOrder(midsOrder: seq<string>, desc: SessionDescription): Result<SessionDescription> {
    match RestoredContents(midsOrder, desc.contents)
    case Failure(e) => Failure(e)
    case Success(cs) => Success(desc.(contents := cs))
  }

  // ---------------------------------------------------------------------
  // Properties of the restore

  /** The restore succeeds exactly when the recorded MIDs and the section
      names are the same multiset; otherwise a missing name is reported
      before a left-over section. */
  lemma RestoredContentsOutcome(midsOrder: seq<string>, cs: seq<ContentInfo>)
    ensures RestoredContents(midsOrder, cs).Success? <==> multiset(midsOrder) == multiset(Mids(cs))
    ensures RestoredContents(midsOrder, cs).Failure? ==>
              RestoredContents(midsOrder, cs).error ==
                (if multiset(midsOrder) <= multiset(Mids(cs)) then ExtraSections else SectionMissing)
  {
    RemoveEachMultiset(cs, midsOrder);
    match RemoveEach(cs, midsOrder)
    case None =>
    case Some(rest) =>
      var left := multiset(Mids(cs)) - multiset(midsOrder);
      assert rest == [] <==> left == multiset{} by {
        if rest != [] {
          assert Mids(rest)[0] in multiset(Mids(rest));
        }
      }
      MultisetDifferenceEmpty(multiset(midsOrder), multiset(Mids(cs)));
      forall x | x in midsOrder ensures x in Mids(cs) {
        assert x in multiset(midsOrder);
      }
  }

  lemma MultisetDifferenceEmpty(a: multiset<string>, b: multiset<string>)
    requires a <= b
    ensures b - a == multiset{} <==> a == b
  {
    if b - a == multiset{} {
      forall x ensures a[x] == b[x] {
        assert (b - a)[x] == 0;
      }
    }
  }

  /** A restored list has the recorded order, and holds, with its flags
      reset, every section of a source with unique names and nothing else. */
  lemma RestoredContentsSections(midsOrder: seq<string>, cs: seq<ContentInfo>)
    requires RestoredContents(midsOrder, cs).Success? && NoDup(Mids(cs))
    ensures var r := RestoredContents(midsOrder, cs).value;
            && Mids(r) == midsOrder && |r| == |cs|
            && (forall c :: c in cs ==> Reset(c) in r)
            && (forall k :: 0 <= k < |r| ==> r[k] in ResetAll(cs))
  {
    RestoredContentsOutcome(midsOrder, cs);
    var r := Reordered(midsOrder, cs).value;
    assert |midsOrder| == |cs| by {
      assert |multiset(midsOrder)| == |multiset(Mids(cs))|;
    }
    forall c | c in cs ensures Reset(c) in r {
      var j :| 0 <= j < |cs| && cs[j] == c;
      FindAt(cs, j);
      assert c.mid in multiset(Mids(cs)) by {
        assert Mids(cs)[j] == c.mid;
      }
      assert c.mid in multiset(midsOrder);
      var k :| 0 <= k < |midsOrder| && midsOrder[k] == c.mid;
      assert r[k] == Reset(c);
    }
    forall k | 0 <= k < |r| ensures r[k] in ResetAll(cs) {
      var c := FindContent(cs, midsOrder[k]).value;
      var j :| 0 <= j < |cs| && cs[j] == c;
      assert ResetAll(cs)[j] == Reset(c);
    }
  }

  /** Every section with its flags reset, in order. */
  function ResetAll(cs: seq<ContentInfo>): seq<ContentInfo> {
    seq(|cs|, k requires 0 <= k < |cs| => Reset(cs[k]))
  }

  /** Restoring the recorded order a second time changes nothing. */
  lemma RestoredContentsIdempotent(midsOrder: seq<string>, cs: seq<ContentInfo>)
    requires RestoredContents(midsOrder, cs).Success? && NoDup(midsOrder)
    ensures RestoredContents(midsOrder, RestoredContents(midsOrder, cs).value) == RestoredContents(midsOrder, cs)
  {
    var r := RestoredContents(midsOrder, cs).value;
    assert Mids(r) == midsOrder;
    ReorderedFixed(r);
    RestoredContentsOutcome(midsOrder, r);
  }

  /** Re-creating a list of re-created sections with unique names, in its
      own order, gives it back. */
  lemma ReorderedFixed(r: seq<ContentInfo>)
    requires NoDup(Mids(r)) && forall k :: 0 <= k < |r| ==> Reset(r[k]) == r[k]
    ensures Reordered(Mids(r), r).Some?
    ensures |Reordered(Mids(r), r).value| == |r|
    ensures forall k :: 0 <= k < |r| ==> Reordered(Mids(r), r).value[k] == r[k]
    ensures Reordered(Mids(r), r).value == r
  {
    forall x | x in Mids(r) ensures x in Mids(r) {
    }
    var again := Reordered(Mids(r), r).value;
    forall k | 0 <= k < |r| ensures again[k] == r[k] {
      FindAt(r, k);
    }
  }

  // ---------------------------------------------------------------------
  // The loops RestoreMediaSectionsOrder runs

  /** Removes every recorded MID from a copy of the sections, checks that
      nothing is left, then re-adds the sections in recorded order. */
  method RestoreMediaSectionsOrder(midsOrder: seq<string>, source: SessionDescription)
    returns (r: Result<SessionDescription>)
    ensures r == RestoredOrder(midsOrder, source)
  {
    var out := RemoveRecorded(source.contents, midsOrder);
    if out.None? {
      return Failure(SectionMissing);
    }
    if out.value != [] {
      return Failure(ExtraSections);
    }
    var readded := ReAdd(source.contents, midsOrder);
    if readded.None? {
      return Failure(SectionMissing);
    }
    return Success(source.(contents := readded.value));
  }

  /** RemoveContentByName for every recorded MID, stopping at the first that
      is absent. */
  method RemoveRecorded(cs: seq<ContentInfo>, midsOrder: seq<string>) returns (out: Option<seq<ContentInfo>>)
    ensures out == RemoveEach(cs, midsOrder)
  {
    var rest := cs;
    for k := 0 to |midsOrder|
      invariant RemoveEach(cs, midsOrder[..k]) == Some(rest)
    {
      assert midsOrder[..k + 1][..k] == midsOrder[..k];
      RemoveEachLast(cs, midsOrder[..k + 1], rest);
      var removed := RemoveContent(rest, midsOrder[k]);
      if removed.None? {
        RemoveEachPrefixFails(cs, midsOrder, k + 1);
        return None;
      }
      rest := removed.value;
    }
    assert midsOrder[..|midsOrder|] == midsOrder;
    return Some(rest);
  }

  /** AddContent, in recorded order, of a copy of the section of `cs` that
      carries each recorded MID, stopping at the first that is absent. */
  method ReAdd(cs: seq<ContentInfo>, midsOrder: seq<string>) returns (out: Option<seq<ContentInfo>>)
    ensures out == Reordered(midsOrder, cs)
  {
    var added: seq<ContentInfo> := [];
    for k := 0 to |midsOrder|
      invariant Reordered(midsOrder[..k], cs) == Some(added)
    {
      assert midsOrder[..k + 1][..k] == midsOrder[..k];
      var content := FindContent(cs, midsOrder[k]);
      if content.None? {
        assert midsOrder[k] in midsOrder;
        return None;
      }
      added := added + [NewContent(midsOrder[k], content.value.protocol, content.value.media)];
    }
    assert midsOrder[..|midsOrder|] == midsOrder;
    return Some(added);
  }
}
