/**
 * The results table (src/components/coiled-coil/sequence-table.tsx): the
 * header checkbox state derived from the selection, the expand/collapse
 * state of long rows, and the length rule that decides which rows can expand.
 */
module SequenceTable {
  import opened Types
  import FeatureExtractor

  /** `sequences.every(s => selected.has(s.id))`. */
  function EveryRowSelected(rows: seq<ProcessedUniProtEntry>, selected: set<string>): (r: bool)
    ensures r <==> forall i :: 0 <= i < |rows| ==> rows[i].id in selected
  {
    if rows == [] then true
    else
      var r := rows[0].id in selected && EveryRowSelected(rows[1..], selected);
      assert forall i :: 1 <= i < |rows| ==> rows[i] == rows[1..][i - 1];
      r
  }

  /** `sequences.some(s => selected.has(s.id))`. */
  function SomeRowSelected(rows: seq<ProcessedUniProtEntry>, selected: set<string>): (r: bool)
    ensures r <==> exists i :: 0 <= i < |rows| && rows[i].id in selected
  {
    if rows == [] then false
    else if rows[0].id in selected then true
    else
      var r := SomeRowSelected(rows[1..], selected);
      assert forall i :: 1 <= i < |rows| ==> rows[i] == rows[1..][i - 1];
      r
  }

  /** `allSelected`: the table has rows and every row is selected. */
  function AllSelected(rows: seq<ProcessedUniProtEntry>, selected: set<string>): (r: bool)
    ensures r <==> |rows| > 0 && forall i :: 0 <= i < |rows| ==> rows[i].id in selected
  {
    |rows| > 0 && EveryRowSelected(rows, selected)
  }

  /**
   * `someSelected`: some row is selected and some is not. It never holds
   * together with `allSelected`, and neither holds for an empty table.
   */
  function SomeSelected(rows: seq<ProcessedUniProtEntry>, selected: set<string>): (r: bool)
    ensures r <==>
      (exists i :: 0 <= i < |rows| && rows[i].id in selected)
      && (exists j :: 0 <= j < |rows| && rows[j].id !in selected)
    ensures !(r && AllSelected(rows, selected))
    ensures rows == [] ==> !r
  {
    SomeRowSelected(rows, selected) && !AllSelected(rows, selected)
  }

  /** The header checkbox's `checked` value: checked exactly when at least one row is selected. */
  function HeaderChecked(rows: seq<ProcessedUniProtEntry>, selected: set<string>): (r: bool)
    ensures r <==> exists i :: 0 <= i < |rows| && rows[i].id in selected
  {
    assert AllSelected(rows, selected) ==> rows[0].id in selected;
    AllSelected(rows, selected) || SomeSelected(rows, selected)
  }

  const LongSequence := 50

  /**
   * A row gets an expand control when its sequence is longer than 50
   * characters; the labels that stand in for a missing region never do.
   */
  predicate IsSequenceLong(sequence: string)
    ensures IsSequenceLong(sequence) ==>
      && sequence != FeatureExtractor.DataUnavailable
      && sequence != FeatureExtractor.LocationInvalid
      && sequence != FeatureExtractor.SequenceUnavailable
  {
    |sequence| > LongSequence
  }

  /** `expanded` with `id` removed if it was there and added if it was not. */
  function Toggled(expanded: set<string>, id: string): (r: set<string>)
    ensures id in r <==> id !in expanded
    ensures forall x :: x != id ==> (x in r <==> x in expanded)
  {
    if id in expanded then expanded - {id} else expanded + {id}
  }

  /** Toggling a row twice restores the set of expanded rows. */
  lemma ToggleTwice(expanded: set<string>, id: string)
    ensures Toggled(Toggled(expanded, id), id) == expanded
  {
  }

  /** The table's own state: the ids of the rows shown in full. */
  class ExpandedRows {
    var expanded: set<string>

    constructor ()
      ensures expanded == {}
    {
      expanded := {};
    }

    /** `handleToggleExpand(id)`: flips whether `id` is expanded and nothing else. */
    method HandleToggleExpand(id: string)
      modifies this
      ensures expanded == Toggled(old(expanded), id)
      ensures id in expanded <==> id !in old(expanded)
      ensures forall x :: x != id ==> (x in expanded <==> x in old(expanded))
    {
      var newSet := expanded;
      if id in newSet {
        newSet := newSet - {id};
      } else {
        newSet := newSet + {id};
      }
      expanded := newSet;
    }
  }
}
