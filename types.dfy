/**
 * The record shapes of src/types/index.ts and the `sequenceFormSchema`
 * validation rule for the search form.
 */
module Types {
  import opened Wrappers

  /** One end of a feature's location: a 1-based position and an optional qualifier. */
  datatype LocationModifier = LocationModifier(value: Option<int>, modifier: Option<string>)

  datatype FeatureLocation = FeatureLocation(start: Option<LocationModifier>, end: Option<LocationModifier>)

  /** An annotated feature; only features of type "Coiled coil" are consulted. */
  datatype UniProtFeature = UniProtFeature(
    featureType: string,
    location: Option<FeatureLocation>,
    description: Option<string>)

  /** A protein name; `fullName` stands for the optional `fullName.value`. */
  datatype ProteinName = ProteinName(fullName: Option<string>)

  datatype ProteinDescription = ProteinDescription(
    recommendedName: Option<ProteinName>,
    submissionNames: Option<seq<ProteinName>>)

  datatype Organism = Organism(scientificName: string, taxonId: int)

  datatype SequenceInfo = SequenceInfo(value: string, length: int, molWeight: int, crc64: string)

  /** One search result as the UniProt REST service returns it. */
  datatype RawUniProtEntry = RawUniProtEntry(
    primaryAccession: string,
    proteinDescription: Option<ProteinDescription>,
    organism: Option<Organism>,
    sequence: Option<SequenceInfo>,
    features: Option<seq<UniProtFeature>>)

  /** One row of the results table. */
  datatype ProcessedUniProtEntry = ProcessedUniProtEntry(
    id: string,
    entry: string,
    entryName: string,
    organism: string,
    sequence: string)

  // ---------------------------------------------------------------------
  // The form rule: organism at least one character; count an integer in [1, 100].
  // ---------------------------------------------------------------------

  /** The form's values after the count has been coerced to a number. */
  datatype SequenceFormValues = SequenceFormValues(organism: string, count: real)

  datatype FormField = OrganismField | CountField

  /** A failed check: the field it is about and the message shown under it. */
  datatype Issue = Issue(path: FormField, message: string)

  datatype Validation = Accepted(values: SequenceFormValues) | Rejected(issues: seq<Issue>)

  const OrganismRequired := "Organism is required."
  /** The message the schema library gives a failed `.int()` check; the schema sets none. */
  const CountNotInteger := "Expected integer, received float"
  const CountTooSmall := "Count must be at least 1."
  const CountTooLarge := "Count cannot exceed 100."
  const MinCount := 1
  const MaxCount := 100

  predicate IsInteger(x: real)
  {
    x.Floor as real == x
  }

  /** Issues of `z.string().min(1)`. */
  function OrganismIssues(organism: string): (r: seq<Issue>)
    ensures forall i :: 0 <= i < |r| ==> r[i].path == OrganismField
    ensures r == [] <==> |organism| >= 1
  {
    if |organism| < 1 then [Issue(OrganismField, OrganismRequired)] else []
  }

  /**
   * Issues of `.int().min(1).max(100)`: every check runs, whether or not an
   * earlier one failed, and each failure adds its issue in that order.
   */
  function CountIssues(count: real): (r: seq<Issue>)
    ensures forall i :: 0 <= i < |r| ==> r[i].path == CountField
    ensures r == [] <==> IsInteger(count) && MinCount as real <= count <= MaxCount as real
    ensures |r| <= 2
  {
    (if IsInteger(count) then [] else [Issue(CountField, CountNotInteger)])
    + (if count < MinCount as real then [Issue(CountField, CountTooSmall)] else [])
    + (if count > MaxCount as real then [Issue(CountField, CountTooLarge)] else [])
  }

  /** `sequenceFormSchema.safeParse(values)`: the object's fields in declaration order. */
  function Validate(values: SequenceFormValues): (r: Validation)
    ensures r.Accepted? ==> r.values == values
    ensures r.Rejected? ==> |r.issues| > 0
  {
    var issues := OrganismIssues(values.organism) + CountIssues(values.count);
    if issues == [] then Accepted(values) else Rejected(issues)
  }

  /** The first message recorded for a field: the one shown beneath it. */
  function FieldMessage(issues: seq<Issue>, field: FormField): (r: Option<string>)
    ensures r.None? <==> forall i :: 0 <= i < |issues| ==> issues[i].path != field
    ensures r.Some? ==> exists i :: 0 <= i < |issues| && issues[i] == Issue(field, r.value)
                                    && forall j :: 0 <= j < i ==> issues[j].path != field
  {
    if issues == [] then None
    else if issues[0].path == field then Some(issues[0].message)
    else
      var r := FieldMessage(issues[1..], field);
      if r.Some? then
        ghost var i :| 0 <= i < |issues[1..]| && issues[1..][i] == Issue(field, r.value)
                       && forall j :: 0 <= j < i ==> issues[1..][j].path != field;
        assert issues[i + 1] == Issue(field, r.value);
        r
      else r
  }

  /** The message shown under a field, if the values are rejected. */
  function MessageFor(values: SequenceFormValues, field: FormField): (r: Option<string>)
    ensures Validate(values).Accepted? ==> r.None?
    ensures r.Some? ==> exists i :: 0 <= i < |Validate(values).issues|
                                    && Validate(values).issues[i] == Issue(field, r.value)
  {
    match Validate(values)
    case Accepted(_) => None
    case Rejected(issues) => FieldMessage(issues, field)
  }

  /** The form is submitted exactly when the organism is non-empty and the count an integer in [1, 100]. */
  lemma AcceptedIff(values: SequenceFormValues)
    ensures Validate(values).Accepted? <==>
      |values.organism| >= 1 && IsInteger(values.count)
      && MinCount as real <= values.count <= MaxCount as real
  {
  }

  /** "Organism is required." appears under the organism exactly when it is empty. */
  lemma OrganismMessage(values: SequenceFormValues)
    ensures MessageFor(values, OrganismField) ==
      if |values.organism| < 1 then Some(OrganismRequired) else None
  {
    var issues := OrganismIssues(values.organism) + CountIssues(values.count);
    if issues != [] && |values.organism| >= 1 {
      assert forall i :: 0 <= i < |issues| ==> issues[i] in CountIssues(values.count);
    }
  }

  /** The message under the count: the integer check first, then the lower, then the upper bound. */
  lemma CountMessage(values: SequenceFormValues)
    ensures MessageFor(values, CountField) ==
      if !IsInteger(values.count) then Some(CountNotInteger)
      else if values.count < MinCount as real then Some(CountTooSmall)
      else if values.count > MaxCount as real then Some(CountTooLarge)
      else None
  {
    var o := OrganismIssues(values.organism);
    var c := CountIssues(values.count);
    var issues := o + c;
    assert forall i :: 0 <= i < |o| ==> issues[i].path == OrganismField;
    if c != [] {
      assert issues[|o|] == c[0];
    } else {
      assert forall i :: 0 <= i < |issues| ==> issues[i].path != CountField;
    }
  }

  /** The form starts with an empty organism and a count of 10: only the organism is reported. */
  lemma DefaultValues()
    ensures Validate(SequenceFormValues("", 10.0)) == Rejected([Issue(OrganismField, OrganismRequired)])
    ensures CountIssues(10.0) == []
  {
    assert IsInteger(10.0) by { assert (10.0).Floor == 10; }
  }
}
