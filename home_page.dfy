/**
 * The page's state (src/app/page.tsx): the submit handler that clears the
 * page, awaits the search and stores its outcome, and the two handlers that
 * change which rows are selected.
 */
module HomePage {
  import opened Wrappers
  import opened Types
  import FeatureExtractor
  import Actions
  import SequenceTable
  import JsString

  datatype ToastVariant = Plain | Destructive

  /** A transient notification. */
  datatype Toast = Toast(variant: ToastVariant, title: string, description: string)

  const NoResultsText := "No sequences found for the given criteria."

  /** `new Set(sequences.map(s => s.id))`. */
  function RowIds(rows: seq<ProcessedUniProtEntry>): (r: set<string>)
    ensures forall id :: id in r <==> exists i :: 0 <= i < |rows| && rows[i].id == id
  {
    set i | 0 <= i < |rows| :: rows[i].id
  }

  /** The selection after row `id`'s checkbox is set to `isSelected`. */
  function WithMembership(selected: set<string>, id: string, isSelected: bool): (r: set<string>)
    ensures id in r <==> isSelected
    ensures forall x :: x != id ==> (x in r <==> x in selected)
  {
    if isSelected then selected + {id} else selected - {id}
  }

  /** Setting a checkbox to the value it already has changes nothing. */
  lemma SelectionIdempotent(selected: set<string>, id: string, isSelected: bool)
    ensures WithMembership(WithMembership(selected, id, isSelected), id, isSelected)
            == WithMembership(selected, id, isSelected)
  {
  }

  /** Ticking and then unticking a row leaves every other row as it was. */
  lemma SelectThenDeselect(selected: set<string>, id: string)
    ensures WithMembership(WithMembership(selected, id, true), id, false) == selected - {id}
  {
  }

  /** After "select all" on a non-empty table the header shows all rows selected. */
  lemma SelectAllChecksHeader(rows: seq<ProcessedUniProtEntry>)
    requires |rows| > 0
    ensures SequenceTable.AllSelected(rows, RowIds(rows))
    ensures !SequenceTable.SomeSelected(rows, RowIds(rows))
    ensures SequenceTable.HeaderChecked(rows, RowIds(rows))
  {
    assert forall i :: 0 <= i < |rows| ==> rows[i].id in RowIds(rows);
  }

  /** After "select none" (or a new submit) no row and not the header is checked. */
  lemma EmptySelectionUnchecksHeader(rows: seq<ProcessedUniProtEntry>)
    ensures !SequenceTable.AllSelected(rows, {})
    ensures !SequenceTable.SomeSelected(rows, {})
    ensures !SequenceTable.HeaderChecked(rows, {})
  {
    if |rows| > 0 {
      assert rows[0].id !in {};
    }
  }

  class HomePageState {
    var isLoading: bool
    var error: Option<string>
    var sequences: seq<ProcessedUniProtEntry>
    var apiUrl: Option<string>
    /** The records last received; the page shows them pretty-printed as JSON. */
    var apiResponse: Option<seq<RawUniProtEntry>>
    var selectedSequences: set<string>

    constructor ()
      ensures !isLoading && error == None && sequences == [] && apiUrl == None
      ensures apiResponse == None && selectedSequences == {}
    {
      isLoading := false;
      error := None;
      sequences := [];
      apiUrl := None;
      apiResponse := None;
      selectedSequences := {};
    }

    /** The first half of `handleFormSubmit`, up to the request: everything is cleared. */
    method BeginSubmit()
      modifies this
      ensures isLoading && error == None && sequences == [] && apiUrl == None
      ensures apiResponse == None && selectedSequences == {}
    {
      isLoading := true;
      error := None;
      sequences := [];
      apiUrl := None;
      apiResponse := None;
      selectedSequences := {};
    }

    /** The second half of `handleFormSubmit`, once the request has settled. */
    method FinishSubmit(result: Actions.FetchResult) returns (toast: Option<Toast>)
      modifies this
      ensures apiUrl == Some(result.apiUrl) && !isLoading
      ensures selectedSequences == old(selectedSequences)
      ensures FeatureExtractor.IsTruthy(result.error) ==>
        && error == result.error && sequences == old(sequences) && apiResponse == old(apiResponse)
        && toast == Some(Toast(Destructive, "Error", result.error.value))
      ensures !FeatureExtractor.IsTruthy(result.error) && result.data.Some? ==>
        && error == old(error) && apiResponse == result.data
        && sequences == FeatureExtractor.ProcessUniProtData(result.data.value)
        && toast == Some(if sequences == [] then Toast(Plain, "No Results", NoResultsText)
                         else Toast(Plain, "Success", "Fetched " + JsString.NatToString(|sequences|) + " sequences."))
      ensures !FeatureExtractor.IsTruthy(result.error) && result.data.None? ==>
        error == old(error) && sequences == old(sequences) && apiResponse == old(apiResponse) && toast == None
    {
      apiUrl := Some(result.apiUrl);
      toast := None;
      if FeatureExtractor.IsTruthy(result.error) {
        error := result.error;
        toast := Some(Toast(Destructive, "Error", result.error.value));
      } else if result.data.Some? {
        apiResponse := result.data;
        var processedData := FeatureExtractor.ProcessUniProtData(result.data.value);
        sequences := processedData;
        if |processedData| == 0 {
          toast := Some(Toast(Plain, "No Results", NoResultsText));
        } else {
          toast := Some(Toast(Plain, "Success", "Fetched " + JsString.NatToString(|processedData|) + " sequences."));
        }
      }
      isLoading := false;
    }

    /**
     * `handleFormSubmit(values)` for values the form has accepted, with the
     * request ending as `outcome`. The selection always starts empty again.
     */
    method HandleFormSubmit(values: SequenceFormValues, outcome: Actions.FetchOutcome) returns (toast: Option<Toast>)
      requires Validate(values).Accepted?
      modifies this
      ensures var result := Actions.FetchUniProtSequences(values.organism, values.count.Floor, outcome);
        && apiUrl == Some(Actions.ApiUrl(values.organism, values.count.Floor))
        && !isLoading && selectedSequences == {}
        && error == result.error
        && apiResponse == result.data
        && sequences == (if result.data.Some? then FeatureExtractor.ProcessUniProtData(result.data.value) else [])
        && (result.error.Some? ==> toast == Some(Toast(Destructive, "Error", result.error.value)))
        && (result.data.Some? ==> toast == Some(
              if sequences == [] then Toast(Plain, "No Results", NoResultsText)
              else Toast(Plain, "Success", "Fetched " + JsString.NatToString(|sequences|) + " sequences.")))
        && (result.error.None? && result.data.None? ==> toast == None)
    {
      BeginSubmit();
      var result := Actions.FetchUniProtSequences(values.organism, values.count.Floor, outcome);
      toast := FinishSubmit(result);
    }

    /** `handleSelectionChange(id, selected)`: only row `id` changes, to `isSelected`. */
    method HandleSelectionChange(id: string, isSelected: bool)
      modifies this
      ensures selectedSequences == WithMembership(old(selectedSequences), id, isSelected)
      ensures isLoading == old(isLoading) && error == old(error) && sequences == old(sequences)
      ensures apiUrl == old(apiUrl) && apiResponse == old(apiResponse)
    {
      var newSet := selectedSequences;
      if isSelected {
        newSet := newSet + {id};
      } else {
        newSet := newSet - {id};
      }
      selectedSequences := newSet;
    }

    /** `handleSelectAllChange(selected)`: every shown row, or none. */
    method HandleSelectAllChange(isSelected: bool)
      modifies this
      ensures selectedSequences == if isSelected then RowIds(sequences) else {}
      ensures isLoading == old(isLoading) && error == old(error) && sequences == old(sequences)
      ensures apiUrl == old(apiUrl) && apiResponse == old(apiResponse)
    {
      if isSelected {
        selectedSequences := RowIds(sequences);
      } else {
        selectedSequences := {};
      }
    }
  }

  /** Any accepted form, when the search returns three records: three rows, none selected. */
  method SubmitWithThreeResults(values: SequenceFormValues, results: seq<RawUniProtEntry>)
    returns (toast: Option<Toast>, rows: nat, selected: nat, failed: bool)
    requires Validate(values).Accepted?
    requires |results| == 3
    ensures toast == Some(Toast(Plain, "Success", "Fetched " + "3" + " sequences."))
    ensures rows == 3 && selected == 0 && !failed
  {
    var page := new HomePageState();
    ghost var result := Actions.FetchUniProtSequences(values.organism, values.count.Floor, Actions.Received(Some(results)));
    assert result.data == Some(results) && result.error == None;
    toast := page.HandleFormSubmit(values, Actions.Received(Some(results)));
    assert page.sequences == FeatureExtractor.ProcessUniProtData(results);
    rows := |page.sequences|;
    assert rows == 3 && page.sequences != [];
    assert JsString.NatToString(rows) == "3";
    selected := |page.selectedSequences|;
    failed := page.error.Some?;
  }

  /** The search answers 500 "server error": the message quotes both and no rows are shown. */
  method SubmitWithServerError(values: SequenceFormValues) returns (toast: Option<Toast>, rows: nat, error: Option<string>)
    requires Validate(values).Accepted?
    ensures toast.Some? && toast.value.variant == Destructive
    ensures error == Some(Actions.ErrorPrefix + "500" + " " + "server error")
    ensures toast.value.description == error.value
    ensures rows == 0
  {
    var page := new HomePageState();
    Actions.ServerErrorExample(values.organism, values.count.Floor);
    toast := page.HandleFormSubmit(values, Actions.HttpFailure(500, "server error"));
    rows := |page.sequences|;
    error := page.error;
  }

  /** The search returns no records: not an error, a "No Results" notice and no rows. */
  method SubmitWithNoResults(values: SequenceFormValues) returns (toast: Option<Toast>, rows: nat, failed: bool)
    requires Validate(values).Accepted?
    ensures toast == Some(Toast(Plain, "No Results", NoResultsText))
    ensures rows == 0 && !failed
  {
    var page := new HomePageState();
    toast := page.HandleFormSubmit(values, Actions.Received(Some([])));
    rows := |page.sequences|;
    failed := page.error.Some?;
  }

  /** The values of the scenarios above, "9606" and 5, pass the form's rule. */
  lemma ScenarioValuesAccepted()
    ensures Validate(SequenceFormValues("9606", 5.0)).Accepted?
  {
    assert IsInteger(5.0) by { assert (5.0).Floor == 5; }
  }
}
