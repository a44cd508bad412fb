/**
 * `processUniProtData` (src/app/page.tsx): each raw UniProt record becomes a
 * table row whose sequence is the region of the first "Coiled coil" feature,
 * or one of three fixed labels when the data needed for it is missing.
 */
module FeatureExtractor {
  import opened Wrappers
  import opened Types
  import JsString

  const CoiledCoilType := "Coiled coil"
  const DataUnavailable := "N/A - Coiled coil data unavailable"
  const LocationInvalid := "N/A - Coiled coil location invalid"
  const SequenceUnavailable := "N/A - Full sequence unavailable"
  const NotAvailable := "N/A"

  predicate IsCoiledCoil(f: UniProtFeature)
  {
    f.featureType == CoiledCoilType
  }

  /** `i` is the position of the first coiled-coil feature of `fs`. */
  predicate IsFirstCoiledCoil(fs: seq<UniProtFeature>, i: nat)
  {
    i < |fs| && IsCoiledCoil(fs[i]) && forall j :: 0 <= j < i ==> !IsCoiledCoil(fs[j])
  }

  /** `features.find(f => f.type === 'Coiled coil')`. */
  function FindCoiledCoil(fs: seq<UniProtFeature>): (r: Option<UniProtFeature>)
    ensures r.None? <==> forall j :: 0 <= j < |fs| ==> !IsCoiledCoil(fs[j])
    ensures r.Some? ==> exists i: nat :: IsFirstCoiledCoil(fs, i) && fs[i] == r.value
  {
    if fs == [] then None
    else if IsCoiledCoil(fs[0]) then
      assert IsFirstCoiledCoil(fs, 0);
      Some(fs[0])
    else
      var r := FindCoiledCoil(fs[1..]);
      if r.Some? then
        ghost var i: nat :| IsFirstCoiledCoil(fs[1..], i) && fs[1..][i] == r.value;
        assert IsFirstCoiledCoil(fs, i + 1);
        r
      else r
  }

  /** The value of `location?.<end>?.value` when it is truthy (present and not 0). */
  function TruthyPosition(m: Option<LocationModifier>): Option<int>
  {
    if m.Some? && m.value.value.Some? && m.value.value.value != 0 then m.value.value else None
  }

  function StartOf(f: UniProtFeature): Option<int>
  {
    if f.location.Some? then TruthyPosition(f.location.value.start) else None
  }

  function EndOf(f: UniProtFeature): Option<int>
  {
    if f.location.Some? then TruthyPosition(f.location.value.end) else None
  }

  /** A string is truthy when it is present and not empty. */
  predicate IsTruthy(s: Option<string>)
  {
    s.Some? && s.value != ""
  }

  /** `entry.sequence?.value`. */
  function FullSequence(e: RawUniProtEntry): Option<string>
  {
    if e.sequence.Some? then Some(e.sequence.value.value) else None
  }

  /** The `sequence` column of the row made from `e` (page.tsx, lines 17-35). */
  function CoiledCoilSequence(e: RawUniProtEntry): (r: string)
    ensures || r == SequenceUnavailable || r == DataUnavailable || r == LocationInvalid
            || (IsTruthy(FullSequence(e)) && JsString.IsContiguousSubstring(r, FullSequence(e).value))
  {
    var fullSequence := FullSequence(e);
    if IsTruthy(fullSequence) && e.features.Some? && |e.features.value| > 0 then
      var feature := FindCoiledCoil(e.features.value);
      if feature.Some? && StartOf(feature.value).Some? && EndOf(feature.value).Some? then
        JsString.Substring(fullSequence.value, StartOf(feature.value).value - 1, EndOf(feature.value).value)
      else if feature.Some? then LocationInvalid
      else DataUnavailable
    else if !IsTruthy(fullSequence) then SequenceUnavailable
    else DataUnavailable
  }

  /** `a || b || 'N/A'` over optional strings: the first truthy candidate, else "N/A". */
  function FirstTruthy(candidates: seq<Option<string>>): (r: string)
    ensures r != ""
    ensures forall i :: 0 <= i < |candidates| && IsTruthy(candidates[i])
                        && (forall j :: 0 <= j < i ==> !IsTruthy(candidates[j]))
                        ==> r == candidates[i].value
    ensures (forall i :: 0 <= i < |candidates| ==> !IsTruthy(candidates[i])) ==> r == NotAvailable
  {
    if candidates == [] then NotAvailable
    else if IsTruthy(candidates[0]) then candidates[0].value
    else
      var r := FirstTruthy(candidates[1..]);
      assert forall i :: 1 <= i < |candidates| ==> candidates[i] == candidates[1..][i - 1];
      r
  }

  /** `proteinDescription?.recommendedName?.fullName?.value`. */
  function RecommendedName(e: RawUniProtEntry): Option<string>
  {
    if e.proteinDescription.Some? && e.proteinDescription.value.recommendedName.Some?
    then e.proteinDescription.value.recommendedName.value.fullName
    else None
  }

  /** `proteinDescription?.submissionNames?.[0]?.fullName?.value`. */
  function FirstSubmissionName(e: RawUniProtEntry): Option<string>
  {
    if e.proteinDescription.Some? && e.proteinDescription.value.submissionNames.Some?
       && |e.proteinDescription.value.submissionNames.value| > 0
    then e.proteinDescription.value.submissionNames.value[0].fullName
    else None
  }

  /** `organism?.scientificName`. */
  function ScientificName(e: RawUniProtEntry): Option<string>
  {
    if e.organism.Some? then Some(e.organism.value.scientificName) else None
  }

  /** The recommended name, else the first submitted name, else "N/A"; never empty. */
  function EntryName(e: RawUniProtEntry): (r: string)
    ensures r != ""
    ensures IsTruthy(RecommendedName(e)) ==> r == RecommendedName(e).value
    ensures !IsTruthy(RecommendedName(e)) && IsTruthy(FirstSubmissionName(e)) ==> r == FirstSubmissionName(e).value
    ensures !IsTruthy(RecommendedName(e)) && !IsTruthy(FirstSubmissionName(e)) ==> r == NotAvailable
  {
    var candidates := [RecommendedName(e), FirstSubmissionName(e)];
    assert candidates[1] == FirstSubmissionName(e);
    FirstTruthy(candidates)
  }

  /** The scientific name, else "N/A"; never empty. */
  function OrganismName(e: RawUniProtEntry): (r: string)
    ensures r != ""
    ensures IsTruthy(ScientificName(e)) ==> r == ScientificName(e).value
    ensures !IsTruthy(ScientificName(e)) ==> r == NotAvailable
  {
    FirstTruthy([ScientificName(e)])
  }

  /** The row made from one record. */
  function ProcessEntry(e: RawUniProtEntry): (r: ProcessedUniProtEntry)
    ensures r.id == e.primaryAccession && r.entry == e.primaryAccession
    ensures r.entryName != "" && r.organism != ""
    ensures r.sequence == CoiledCoilSequence(e)
  {
    ProcessedUniProtEntry(
      e.primaryAccession, e.primaryAccession, EntryName(e), OrganismName(e), CoiledCoilSequence(e))
  }

  /** `rawData.map(...)`: one row per record, in the same order. */
  function ProcessUniProtData(rawData: seq<RawUniProtEntry>): (r: seq<ProcessedUniProtEntry>)
    ensures |r| == |rawData|
    ensures forall i :: 0 <= i < |r| ==> r[i] == ProcessEntry(rawData[i])
  {
    seq(|rawData|, i requires 0 <= i < |rawData| => ProcessEntry(rawData[i]))
  }

  // ---------------------------------------------------------------------
  // Properties of the extraction.
  // ---------------------------------------------------------------------

  /** Each row keeps its record's accession as both `id` and `entry`, and its place in the list. */
  lemma RowsFollowRecords(rawData: seq<RawUniProtEntry>, i: nat)
    requires i < |rawData|
    ensures |ProcessUniProtData(rawData)| == |rawData|
    ensures ProcessUniProtData(rawData)[i].id == rawData[i].primaryAccession
    ensures ProcessUniProtData(rawData)[i].entry == rawData[i].primaryAccession
    ensures ProcessUniProtData(rawData)[i].sequence == CoiledCoilSequence(rawData[i])
  {
  }

  /** Records are processed independently: a malformed one affects only its own row. */
  lemma ProcessConcat(a: seq<RawUniProtEntry>, b: seq<RawUniProtEntry>)
    ensures ProcessUniProtData(a + b) == ProcessUniProtData(a) + ProcessUniProtData(b)
  {
    var l := ProcessUniProtData(a + b);
    var r := ProcessUniProtData(a) + ProcessUniProtData(b);
    assert |l| == |r|;
    forall i | 0 <= i < |l| ensures l[i] == r[i] {
      if i < |a| {
        assert (a + b)[i] == a[i];
      } else {
        assert (a + b)[i] == b[i - |a|];
      }
    }
  }

  /** With no sequence, or an empty one, the row reads "sequence unavailable" whatever the features. */
  lemma NoSequence(e: RawUniProtEntry)
    requires e.sequence.None? || e.sequence.value.value == ""
    ensures CoiledCoilSequence(e) == SequenceUnavailable
  {
  }

  /** A sequence but no feature of type exactly "Coiled coil" (or no features at all). */
  lemma NoCoiledCoilFeature(e: RawUniProtEntry)
    requires e.sequence.Some? && e.sequence.value.value != ""
    requires e.features.None? || forall j :: 0 <= j < |e.features.value| ==> !IsCoiledCoil(e.features.value[j])
    ensures CoiledCoilSequence(e) == DataUnavailable
  {
  }

  /** The first coiled-coil feature lacks a truthy start or end. */
  lemma MissingPosition(e: RawUniProtEntry, i: nat)
    requires e.sequence.Some? && e.sequence.value.value != ""
    requires e.features.Some? && IsFirstCoiledCoil(e.features.value, i)
    requires StartOf(e.features.value[i]).None? || EndOf(e.features.value[i]).None?
    ensures CoiledCoilSequence(e) == LocationInvalid
  {
    FirstCoiledCoilFound(e.features.value, i);
  }

  /** The first coiled-coil feature is what `find` returns. */
  lemma {:induction false} FirstCoiledCoilFound(fs: seq<UniProtFeature>, i: nat)
    requires IsFirstCoiledCoil(fs, i)
    ensures FindCoiledCoil(fs) == Some(fs[i])
  {
    if i > 0 {
      assert !IsCoiledCoil(fs[0]);
      assert IsFirstCoiledCoil(fs[1..], i - 1);
      FirstCoiledCoilFound(fs[1..], i - 1);
    }
  }

  /**
   * Only the first coiled-coil feature counts: whatever follows it, and
   * whatever other coiled-coil features there are, the row is the same.
   */
  lemma {:induction false} FirstMatchWins(before: seq<UniProtFeature>, f: UniProtFeature, after: seq<UniProtFeature>)
    requires forall j :: 0 <= j < |before| ==> !IsCoiledCoil(before[j])
    requires IsCoiledCoil(f)
    ensures FindCoiledCoil(before + [f] + after) == Some(f)
  {
    var fs := before + [f] + after;
    assert fs[|before|] == f;
    forall j | 0 <= j < |before| ensures !IsCoiledCoil(fs[j]) {
      assert fs[j] == before[j];
    }
    FirstCoiledCoilFound(fs, |before|);
  }

  /** For positions inside the sequence, the row is exactly residues `start..end` (1-based, inclusive). */
  lemma RegionInRange(e: RawUniProtEntry, i: nat, start: int, end: int)
    requires e.sequence.Some?
    requires e.features.Some? && IsFirstCoiledCoil(e.features.value, i)
    requires StartOf(e.features.value[i]) == Some(start) && EndOf(e.features.value[i]) == Some(end)
    requires 1 <= start <= end <= |e.sequence.value.value|
    ensures CoiledCoilSequence(e) == e.sequence.value.value[start - 1..end]
    ensures |CoiledCoilSequence(e)| == end - start + 1
  {
    FirstCoiledCoilFound(e.features.value, i);
  }

  /** For any positions at all, the clamped region is a run of consecutive residues of the sequence. */
  lemma RegionIsContiguous(e: RawUniProtEntry, i: nat)
    requires e.sequence.Some? && e.sequence.value.value != ""
    requires e.features.Some? && IsFirstCoiledCoil(e.features.value, i)
    requires StartOf(e.features.value[i]).Some? && EndOf(e.features.value[i]).Some?
    ensures JsString.IsContiguousSubstring(CoiledCoilSequence(e), e.sequence.value.value)
  {
    FirstCoiledCoilFound(e.features.value, i);
  }

  /** An end past the sequence is cut to the sequence's end. */
  lemma RegionPastEnd(e: RawUniProtEntry, i: nat, start: int, end: int)
    requires e.sequence.Some?
    requires e.features.Some? && IsFirstCoiledCoil(e.features.value, i)
    requires StartOf(e.features.value[i]) == Some(start) && EndOf(e.features.value[i]) == Some(end)
    requires 1 <= start <= |e.sequence.value.value| < end
    ensures CoiledCoilSequence(e) == e.sequence.value.value[start - 1..]
  {
    FirstCoiledCoilFound(e.features.value, i);
  }

  /** A start after the end is not rejected: `substring` swaps the two positions. */
  lemma RegionReversed(e: RawUniProtEntry, i: nat, start: int, end: int)
    requires e.sequence.Some? && e.sequence.value.value != ""
    requires e.features.Some? && IsFirstCoiledCoil(e.features.value, i)
    requires StartOf(e.features.value[i]) == Some(start) && EndOf(e.features.value[i]) == Some(end)
    requires 0 <= end <= start - 1 <= |e.sequence.value.value|
    ensures CoiledCoilSequence(e) == e.sequence.value.value[end..start - 1]
  {
    FirstCoiledCoilFound(e.features.value, i);
  }

  /**
   * The region is empty exactly when the two clamped positions meet: for
   * instance a start one past the end, or `start-1` and `end` both at least
   * the sequence's length.
   */
  lemma RegionEmptyIff(e: RawUniProtEntry, i: nat, start: int, end: int)
    requires e.sequence.Some? && e.sequence.value.value != ""
    requires e.features.Some? && IsFirstCoiledCoil(e.features.value, i)
    requires StartOf(e.features.value[i]) == Some(start) && EndOf(e.features.value[i]) == Some(end)
    ensures var n := |e.sequence.value.value|;
      CoiledCoilSequence(e) == "" <==> JsString.Clamp(start - 1, n) == JsString.Clamp(end, n)
  {
    FirstCoiledCoilFound(e.features.value, i);
  }

  /** Both positions past the end of the sequence leave nothing to show. */
  lemma RegionMayBeEmpty()
    ensures CoiledCoilSequence(RawUniProtEntry(
      "P00000", None, None,
      Some(SequenceInfo("MKV", 3, 0, "")),
      Some([UniProtFeature(CoiledCoilType,
        Some(FeatureLocation(Some(LocationModifier(Some(5), None)), Some(LocationModifier(Some(7), None)))),
        None)]))) == ""
  {
  }
}
