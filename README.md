# Coiled Coil Explorer, modelled in Dafny

Coiled Coil Explorer is a small web page. A user enters an organism (a taxon
number or a scientific name) and a result count. The page asks the UniProt
search service for reviewed proteins of that organism that have a coiled-coil
annotation. It then shows one table row per protein. Each row holds the
residues of the protein's first "Coiled coil" feature, or a fixed label
saying which data was missing. Rows can be selected one by one or all
together, and rows longer than 50 characters can be expanded.

This project models the logic behind that page:

- `JsString` (`js_string.dfy`): JavaScript's `substring`, which clamps its
  indices and swaps them when out of order, and the decimal rendering of an
  integral number in a template literal.
- `Uri` (`uri.dfy`): `encodeURIComponent` and `decodeURIComponent` over
  Unicode scalar values with full UTF-8, as ECMA-262 defines them. It proves
  that decoding an encoding gives back the original string.
- `Types` (`types.dfy`): the record shapes of `src/types/index.ts` and the
  search form's validation rule, with the message shown under each field.
- `FeatureExtractor` (`feature_extractor.dfy`): `processUniProtData`, which
  finds the coiled-coil region, slices the sequence and picks the display
  name and organism.
- `Actions` (`actions.dfy`): the organism filter, the query and the request
  URL, the HTTP error text, and the result returned for each way the request
  can end.
- `SequenceTable` (`sequence-table` component, `sequence_table.dfy`): the
  header checkbox flags, the "long row" rule, and the expanded-rows state as
  a class.
- `HomePage` (`home_page.dfy`): the page's state as a class. It has the two
  halves of the submit handler around the request, and the two selection
  handlers.

The two state holders, the page's state and the table's expanded rows, are
classes whose methods change fields. Everything else is functions and lemmas.
The network request is a parameter: `Actions.FetchOutcome` says how it ended.

Some behaviours of the code are easy to miss:

- An empty sequence string counts as missing, not only an absent one.
- A location value of 0 counts as invalid, not only a missing one.
- The extracted region is not always non-empty. It is empty exactly when
  the start minus one and the end, each clamped into the sequence, are
  equal: for instance a start one past the end, or `start-1` and `end`
  both at least the sequence's length (`FeatureExtractor.RegionEmptyIff`). A start
  more than one past the end is not rejected: `substring` swaps the
  positions, so start 4 and end 1 on `ABCDE` give `BC`
  (`FeatureExtractor.RegionReversed`).
- The organism name is put between quotes without any escaping. A quote in
  the name reaches the query unchanged. Only the whole query is
  percent-encoded for the URL.

## Model

| member | source | states |
|---|---|---|
| `JsString.Clamp` | src/app/page.tsx:29 | an index is clamped into `[0, len]`, unchanged when already inside |
| `JsString.Substring` | src/app/page.tsx:29 | `substring` always returns a contiguous slice; in-range indices give exactly `s[start..end]` (swapped when reversed), an index past the end reads to the end, a negative one from the start; its length follows the clamped indices |
| `JsString.SubstringSymmetric` | src/app/page.tsx:29 | swapping the two indices of `substring` gives the same slice |
| `JsString.NatToString` | src/app/actions.ts:28 | `${n}` gives one or more digits with no leading zero |
| `JsString.NumberToString` | src/app/actions.ts:42 | the text starts with `-` exactly for a negative number, and the digits after the sign read back as the number's magnitude |
| `JsString.NatToStringRoundTrip` | src/app/actions.ts:28 | reading the rendered digits back gives the number |
| `JsString.DigitsRoundTrip` | src/app/actions.ts:19-20 | digit text without a leading zero is the rendering of the number it reads as |
| `Uri.HexValue` | src/app/actions.ts:22 | a character has a hexadecimal value exactly when it is a hex digit of either case, and the value is below 16 |
| `Uri.HexValueOfDigit` | src/app/actions.ts:28 | the upper-case digit written for `d` reads back as `d` |
| `Uri.EncodeComponent` | src/app/actions.ts:28 | `encodeURIComponent` output only holds unreserved characters, `%` and hex digits; a string of unreserved characters is unchanged |
| `Uri.DecodeComponent` | src/app/actions.ts:22 | a decoded string is never longer than its input, and text without `%` decodes to itself |
| `Uri.DecodeEscape` | src/app/actions.ts:22 | a decoded escape consumes at least one `%XY` and no more than the input |
| `Uri.Octets` | src/app/actions.ts:22 | reading `count` escapes yields `count` bytes |
| `Uri.OctetsOfEscapes` | src/app/actions.ts:22 | escaped bytes read back as the same bytes |
| `Uri.Utf8RoundTrip` | src/app/actions.ts:22 | the UTF-8 bytes of a non-ASCII code point pass the validity checks and decode back to it |
| `Uri.DecodeEncodedChar` | src/app/actions.ts:22 | decoding one encoded character followed by anything yields that character followed by the decoding of the rest |
| `Uri.DecodeEncode` | src/app/actions.ts:22 | `decodeURIComponent(encodeURIComponent(s)) === s` for every string |
| `Types.OrganismIssues` | src/types/index.ts:61 | the organism check only reports on the organism, and reports nothing exactly when the text is non-empty |
| `Types.CountIssues` | src/types/index.ts:62-66 | the count checks only report on the count, at most two issues, and none exactly for an integer in [1, 100] |
| `Types.Validate` | src/types/index.ts:60-67 | an accepted form is passed on unchanged; a rejected one has at least one issue |
| `Types.FieldMessage` | src/types/index.ts:60-67 | the message under a field is that of the field's first issue, and there is none exactly when no issue concerns the field |
| `Types.MessageFor` | src/types/index.ts:60-67 | an accepted form shows no message; any message shown is that of an issue of the validation for that field |
| `Types.AcceptedIff` | src/types/index.ts:60-67 | the form is accepted iff the organism is non-empty and the count is an integer in [1, 100] |
| `Types.OrganismMessage` | src/types/index.ts:61 | "Organism is required." is shown under the organism iff it is empty, and nothing otherwise |
| `Types.CountMessage` | src/types/index.ts:62-66 | under the count: the integer message for a non-integer, else "Count must be at least 1." below 1, else "Count cannot exceed 100." above 100, else nothing |
| `Types.DefaultValues` | src/components/coiled-coil/sequence-form.tsx:28-31 | the default count of 10 passes; the default empty organism is the only issue |
| `FeatureExtractor.FindCoiledCoil` | src/app/page.tsx:21-23 | `find` returns nothing iff no feature has type exactly "Coiled coil", and otherwise the first such feature |
| `FeatureExtractor.FirstTruthy` | src/app/page.tsx:41-45 | `a \|\| b \|\| 'N/A'`: the first non-empty present candidate, else "N/A"; never empty |
| `FeatureExtractor.EntryName` | src/app/page.tsx:41-44 | the recommended full name if non-empty, else the first submitted name if non-empty, else "N/A" |
| `FeatureExtractor.OrganismName` | src/app/page.tsx:45 | the scientific name if non-empty, else "N/A" |
| `FeatureExtractor.CoiledCoilSequence` | src/app/page.tsx:17-35 | a row's sequence is one of the three missing-data labels or a contiguous slice of a non-empty full sequence |
| `FeatureExtractor.ProcessEntry` | src/app/page.tsx:38-47 | a row's `id` and `entry` are the accession, its name and organism are never empty, and its sequence is the extracted region |
| `FeatureExtractor.ProcessUniProtData` | src/app/page.tsx:15-16 | one row per record, in the same order |
| `FeatureExtractor.RowsFollowRecords` | src/app/page.tsx:38-40 | each row's `id` and `entry` are its record's accession |
| `FeatureExtractor.ProcessConcat` | src/app/page.tsx:16 | records are processed independently, so a bad record affects only its own row |
| `FeatureExtractor.NoSequence` | src/app/page.tsx:18-34 | an absent or empty sequence gives "N/A - Full sequence unavailable" whatever the features |
| `FeatureExtractor.NoCoiledCoilFeature` | src/app/page.tsx:17-23 | with a sequence but no features, or none of type "Coiled coil", the row reads "N/A - Coiled coil data unavailable" |
| `FeatureExtractor.MissingPosition` | src/app/page.tsx:25-31 | a first coiled-coil feature whose start or end is missing or 0 gives "N/A - Coiled coil location invalid" |
| `FeatureExtractor.FirstCoiledCoilFound` | src/app/page.tsx:21-23 | the first coiled-coil feature is exactly what `find` returns |
| `FeatureExtractor.FirstMatchWins` | src/app/page.tsx:21-23 | everything after the first coiled-coil feature, other coiled-coil features included, is ignored |
| `FeatureExtractor.RegionInRange` | src/app/page.tsx:26-29 | for 1 <= start <= end <= length the row is exactly residues `start-1 .. end`, of length end-start+1 |
| `FeatureExtractor.RegionIsContiguous` | src/app/page.tsx:26-29 | for any positions the row is a run of consecutive residues of the full sequence |
| `FeatureExtractor.RegionPastEnd` | src/app/page.tsx:26-29 | an end past the sequence is cut: for 1 <= start <= length < end the row runs from residue `start-1` to the end |
| `FeatureExtractor.RegionReversed` | src/app/page.tsx:26-29 | a start after the end is not rejected: for 0 <= end <= start-1 <= length the row is residues `end .. start-1` |
| `FeatureExtractor.RegionEmptyIff` | src/app/page.tsx:26-29 | the row is empty exactly when `start-1` and `end`, clamped into the sequence, are equal |
| `FeatureExtractor.RegionMayBeEmpty` | src/app/page.tsx:29 | start 5 and end 7 on the sequence `MKV`, both past its end, give an empty region |
| `Actions.OrganismQueryPart` | src/app/actions.ts:18-23 | an all-digit organism gives `organism_id:<organism>`; anything else, the empty string included, gives `organism_name:"<organism>"` with the text unchanged |
| `Actions.DigitTextIsTaxonNumber` | src/app/actions.ts:19-20 | digit text without a leading zero filters on the taxon number it reads as |
| `Actions.TaxonNumberIsId` | src/app/actions.ts:19-20 | a taxon number as rendered in decimal is always taken as a taxon identifier |
| `Actions.Query` | src/app/actions.ts:25 | the query is `organism_id:<organism>` for all-digit text, else `organism_name:"<organism>"`, followed by ` AND reviewed:true AND ft_coiled:*` |
| `Actions.ApiUrl` | src/app/actions.ts:28 | the URL is the base, the encoded query, the fixed fields and format, and the limit; the encoded query has no space, quote, `&`, `=` or `#` and decodes back to the query |
| `Actions.EncodedQueryIsConfined` | src/app/actions.ts:28 | the encoded query has no space, quote, `&`, `=` or `#`, and decodes back to the query |
| `Actions.TruncatedErrorText` | src/app/actions.ts:42 | a body of at most 100 characters is quoted whole; a longer one as its first 100 characters plus "..." |
| `Actions.HttpErrorMessage` | src/app/actions.ts:42 | the message is the prefix, the status, a space, at most the first 100 body characters, and "..." exactly when the body is longer than 100 |
| `Actions.EllipsisAloneIsNotTruncation` | src/app/actions.ts:42 | a message may end in "..." without truncation, when the body itself does |
| `Actions.ServerErrorExample` | src/app/actions.ts:37-43 | status 500 with body "server error" gives "Failed to fetch data from UniProt: 500 server error" |
| `Actions.FetchUniProtSequences` | src/app/actions.ts:40-53 | every result carries the constructed URL; records on success and no error; an HTTP failure gives exactly `HttpErrorMessage` of its status and body; a thrown value gives "An error occurred: " and its message, or the unknown-error text when it has none |
| `SequenceTable.EveryRowSelected` | src/components/coiled-coil/sequence-table.tsx:34 | `every` holds iff each row's id is selected |
| `SequenceTable.SomeRowSelected` | src/components/coiled-coil/sequence-table.tsx:35 | `some` holds iff some row's id is selected |
| `SequenceTable.AllSelected` | src/components/coiled-coil/sequence-table.tsx:34 | `allSelected` iff the table has rows and every row is selected |
| `SequenceTable.SomeSelected` | src/components/coiled-coil/sequence-table.tsx:35 | `someSelected` iff one row is selected and one is not; never with `allSelected`; false for no rows |
| `SequenceTable.HeaderChecked` | src/components/coiled-coil/sequence-table.tsx:60 | the header checkbox is checked iff at least one row is selected |
| `SequenceTable.Toggled` | src/components/coiled-coil/sequence-table.tsx:39-45 | toggling flips the membership of `id` and of nothing else |
| `SequenceTable.ToggleTwice` | src/components/coiled-coil/sequence-table.tsx:37-47 | toggling twice restores the set |
| `SequenceTable.IsSequenceLong` | src/components/coiled-coil/sequence-table.tsx:50 | a row with an expand control never shows one of the three missing-data labels |
| `SequenceTable.ExpandedRows.constructor` | src/components/coiled-coil/sequence-table.tsx:32 | no row starts expanded |
| `SequenceTable.ExpandedRows.HandleToggleExpand` | src/components/coiled-coil/sequence-table.tsx:37-47 | the new set is the old one toggled at `id` |
| `HomePage.RowIds` | src/app/page.tsx:112 | the ids of the shown rows, and nothing else |
| `HomePage.WithMembership` | src/app/page.tsx:100-106 | `id` is in the new selection iff it was ticked; every other id keeps its membership |
| `HomePage.SelectionIdempotent` | src/app/page.tsx:98-108 | setting a checkbox to the value it has changes nothing |
| `HomePage.SelectThenDeselect` | src/app/page.tsx:98-108 | ticking then unticking a row only removes that row |
| `HomePage.SelectAllChecksHeader` | src/app/page.tsx:110-113 | after "select all" on a non-empty table every row is selected and the header is fully checked |
| `HomePage.EmptySelectionUnchecksHeader` | src/app/page.tsx:114-115 | after "select none" neither flag holds and the header is unchecked |
| `HomePage.HomePageState.constructor` | src/app/page.tsx:52-57 | the page starts idle, with no error, rows, URL, response or selection |
| `HomePage.HomePageState.BeginSubmit` | src/app/page.tsx:61-66 | a submit first sets the loading flag and clears the error, rows, URL, response and selection |
| `HomePage.HomePageState.FinishSubmit` | src/app/page.tsx:70-95 | the URL is always stored and loading ends; an error is stored and notified; records are processed into rows with a "No Results" or "Fetched N sequences." notice |
| `HomePage.HomePageState.HandleFormSubmit` | src/app/page.tsx:60-96 | after a submit the selection is empty and the page holds exactly what the built request returned |
| `HomePage.HomePageState.HandleSelectionChange` | src/app/page.tsx:98-108 | the selection becomes the old one with `id`'s membership set as ticked; nothing else changes |
| `HomePage.HomePageState.HandleSelectAllChange` | src/app/page.tsx:110-116 | the selection becomes all shown row ids, or empty; nothing else changes |
| `HomePage.SubmitWithThreeResults` | src/app/page.tsx:79-93 | three records give three unselected rows and "Fetched 3 sequences." |
| `HomePage.SubmitWithServerError` | src/app/page.tsx:72-78 | an HTTP 500 "server error" gives the page the error text with both, shows it as the text of a destructive notice, and no rows |
| `HomePage.SubmitWithNoResults` | src/app/page.tsx:83-87 | an empty result is not an error: a "No Results" notice and no rows |
| `HomePage.ScenarioValuesAccepted` | src/types/index.ts:60-67 | the values "9606" and 5 pass the form's rule |

## Left out

- The HTTP request, reading the response body and decoding its JSON, and
  `console.error` are left out. `Actions.FetchOutcome` stands for how the
  request ended: an HTTP failure with its status and body, the decoded
  `results` (possibly absent), or a thrown value with or without a message.
- React hooks, the loading spinner, toasts as UI, and all rendering (the
  diagnostic panel, the "Selected N of M" line, the table cells) are left
  out. The notifications are returned as `HomePage.Toast` values. The
  pretty-printed JSON response is stored as the records it would print.
- The race between two overlapping submits is left out: it is concurrency.
  `HomePage.HomePageState.HandleFormSubmit` runs both halves back to back,
  with nothing in between.
- The form glue (`sequence-form.tsx`) and the diagnostic panel
  (`api-info-display.tsx`) are presentation and are left out. Only the form's
  default values are used, in `Types.DefaultValues`.
- The parsing of the count text into a number is left out: `count` is an
  exact `real`, so NaN, infinities and floating-point rounding are not
  modelled. The request's `limit` is the integer the accepted count stands for.
- Location values are integers. A NaN or fractional position, which
  `substring` would truncate or treat as 0, is not modelled.
- Strings are sequences of Unicode scalar values, while JavaScript counts
  UTF-16 code units. Lengths, `substring` positions and the 50- and
  100-character limits agree for characters below U+10000, which covers
  amino-acid sequences. Lone surrogates, on which `encodeURIComponent`
  throws, cannot occur in this model.
- `JsString.NumberToString`: renders every integer in plain decimal.
  JavaScript switches to exponent notation from 10^21 up, far beyond any
  count or status here.
- The `evidences` field of a feature and the `modifier` of a position are
  carried or left out without effect, since the code never reads them.
- The header checkbox's change handler (which passes `!!checked` on to
  select-all) depends on the checkbox widget's own toggling and is left out;
  select-all itself is modelled.
