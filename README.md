# CT-WIN audit-log transformer, modelled in Dafny

The audit transform reads an export of the CT-WIN audit log. Each record has
a timestamp, the user, the table name and the action, plus two long strings
holding the old and the new values of a `T_ORDER` row as
`LABEL: value, LABEL: value, ...`. The transform keeps the `T_ORDER`
records and splits both strings into 55 labelled entries with a label-aware
splitter (`custom_split`). It reads each row's order number and sets aside
every row whose lists are not 55 entries wide as failed data. Then it
condenses both lists to 43 entries by folding sixteen address and contact
entries into four composite entries (`reformat_list`). From the result it
builds two tables:

- the activity trail (`build_trail`): one entry per changed position, with
  an activity text derived from the entry's label;
- the order metadata table (`build_meta`): fifteen fields read from fixed
  positions, with the warehouse id mapped to its hub through `hubDict`.

The combination step reformats the export dates `DD-MON-YY` into
`YYYY-MM-DD`, with a fixed `14:00:00` time for trail timestamps.

Modules, one per component:

- `Results`: `Option` and `Result`.
  - `None` stands for a pandas null cell or a caught per-row exception.
  - In `AuditLog.ReadOrderNumbers` and `AuditLog.BatchAsWritten`, `None` is
    instead the uncaught `IndexError` that stops the whole run.
  - `Failure` stands for an exception that would stop the script.
- `PyText`: the Python string operations the code relies on.
  - `str.find` returns -1 when the character is absent.
  - Slicing clamps out-of-range bounds and counts negative bounds from the end.
  - `strip` uses the full whitespace set of `str.isspace`.
  - `lower` is modelled for ASCII letters only.
- `Headers`: the 55 column labels (`build_return_list`, `headerList`).
- `Tokenizer`: `custom_split`.
  - Functions `ScanValue`, `Tokens` and `TrimTrailing` specify its loops.
  - Method `CustomSplit` is the loop program, proved equal to `Split`.
  - Lemmas prove the split is lossless and that rendering a list of fields
    and splitting it again gives the fields back, with trailing spaces
    trimmed.
- `Condenser`: `reformat_list` and its four composite builders.
  - Method `ReformatList` is the in-order deletion loop, proved equal to the
    function `Condensed`.
- `Trail`: `build_trail` as one turn per position (`StepAt`) folded by `Run`,
  with soundness and completeness lemmas.
- `Meta`: `hubDict`, `extract_order_number` and the metadata record of
  `build_meta`.
- `AuditLog`: the per-row pipeline.
  - The `T_ORDER` filter, splitting, the width check and order numbers.
  - The class `TrailTable`, whose `entries` the method `BuildTrail` (one
    row, the `for` loop) and `ApplyBuildTrail` (every row) append to, as
    `exportTRAIL.loc[len(exportTRAIL.index)] = ...` does.
  - The class `MetaTable`, whose `records` the methods `BuildMeta` and
    `ApplyBuildMeta` append to, as for `exportMETA`.
  - The whole transform `Transform`.
- `Dates`: `month_dict`, `transform_dates_timed` and `transform_dates_untimed`.

In `custom_split` the label list is the parameter `known`. The transform
always passes `Headers.HeaderList`, as the script uses its global
`headerList`.

Two properties of the code worth knowing:

- The status activity keeps the space after the ':'. `STATUS: Closed` gives
  `Order status - Closed` (`Trail.StatusActivityOf`).
- Condensing cannot be applied twice. A condensed list has 43 entries and
  `reformat_list` reads position 45, so it raises `IndexError`
  (`Condenser.Condensed` states `|r| == 43 < 46`). The model keeps the
  code's precondition.

## Model

| member | source | states |
|---|---|---|
| Headers.HeaderListWidth | audit_transform_ctwin.py:40-100 | the label list has exactly the 55 columns a valid row has |
| Headers.Names | audit_transform_ctwin.py:40-100 | the labels at positions 0, 1, 2, 11, 17, 19, 23, 24, 25, 27, 32, 35, 41, 46, 48, 49, 52 are ORDER_NUMBER … IWRS_ORDER, the columns the trail and metadata code read |
| PyText.Find | audit_transform_ctwin.py:122-128 | `find` gives -1 exactly when the character is absent, otherwise its first position |
| PyText.FindConcat | audit_transform_ctwin.py:122-128 | `find` on a concatenation looks in the left part first |
| PyText.Slice | audit_transform_ctwin.py:125-134 | Python slicing is the plain subsequence whenever the bounds are in range, and never longer than the string |
| PyText.StripKeeps | audit_transform_ctwin.py:314-315 | a string with a non-whitespace character does not strip to empty |
| PyText.StripStartRemovesSpace | audit_transform_ctwin.py:314-315 | `strip` removes whitespace only, at the front |
| PyText.StripEndRemovesSpace | audit_transform_ctwin.py:314-315 | `strip` removes whitespace only, at the back |
| Tokenizer.ScanValueDivides | audit_transform_ctwin.py:138-168 | the inner loop only extends the item, and either moves text from the input into the item or, in its last branch, leaves an input without ':' behind |
| Tokenizer.Tokens | audit_transform_ctwin.py:119-171 | every item of the outer loop holds a ':', and there is an item exactly when the input holds a ':' |
| Tokenizer.TrimTrailing | audit_transform_ctwin.py:174-178 | trimming removes only trailing ',' and ' ', keeps the ':' and leaves an item that ends in neither |
| Tokenizer.Split | audit_transform_ctwin.py:117-181 | one trimmed item per item of the outer loop, each a prefix of its untrimmed item, each holding a ':'; no ':' in the input gives no items |
| Tokenizer.ReadValue | audit_transform_ctwin.py:138-168 | the inner `while` loop computes what `ScanValue` specifies |
| Tokenizer.TrimItem | audit_transform_ctwin.py:176-178 | the trimming `while` computes `TrimTrailing` |
| Tokenizer.TrimItems | audit_transform_ctwin.py:174-179 | the clean-up loop trims every item, in order |
| Tokenizer.CustomSplit | audit_transform_ctwin.py:117-181 | the whole nested-loop program returns `Split(known, input)` |
| Tokenizer.TokensLossless | audit_transform_ctwin.py:103-171 | the splitter captures all of the data: the untrimmed items joined again are the input |
| Tokenizer.StopsAtLabel | audit_transform_ctwin.py:143-165 | a known label followed by ':' ends the current item |
| Tokenizer.AbsorbsColon | audit_transform_ctwin.py:161-163 | a ':' whose preceding text is not a known label belongs to the value |
| Tokenizer.AbsorbsComma | audit_transform_ctwin.py:143-153 | a ',' not followed by a known label belongs to the value |
| Tokenizer.TokensRender | audit_transform_ctwin.py:119-171 | the outer loop cuts a rendered list of well-formed fields exactly at the field boundaries |
| Tokenizer.SplitRender | audit_transform_ctwin.py:117-181 | splitting a rendered "LABEL: value, ..." string of known labels and separator-free values gives back each field's "LABEL: value" text with trailing spaces trimmed (round trip) |
| Tokenizer.RecoveredWellFormed | audit_transform_ctwin.py:174-178 | a value that is not empty and does not end in ' ' comes back unchanged |
| Tokenizer.RecoveredEmpty | audit_transform_ctwin.py:174-178 | a field with an empty value comes back as "LABEL:" |
| Tokenizer.SplitRenderExact | audit_transform_ctwin.py:117-181 | for such values the round trip gives back each "LABEL: value" exactly |
| Condenser.CompositeField | audit_transform_ctwin.py:229-259 | a composite entry reads like any other entry: its label, ':', a space, then the joined parts |
| Condenser.JoinInjective | audit_transform_ctwin.py:229-236 | joining parts without commas by ", " loses nothing |
| Condenser.DelivLocDetectsChange | audit_transform_ctwin.py:229-236 | the delivery location composite changes exactly when one of its six address entries changes |
| Condenser.DropOrderSorted | audit_transform_ctwin.py:279-280 | the deletion order is `index_drop_list`, same positions, strictly descending |
| Condenser.DeletedAll | audit_transform_ctwin.py:279-281 | the deletion loop removes exactly the sixteen positions of `index_drop_list` |
| Condenser.KeptLayout | audit_transform_ctwin.py:279-281 | after the deletions the list is positions 0-6, 11-12, 17-36, 41 and 46 onwards, in order |
| Condenser.Condensed | audit_transform_ctwin.py:271-287 | condensing removes 12 entries net, so 55 entries become 43, too few to be condensed again |
| Condenser.CondensedAt | audit_transform_ctwin.py:271-287 | where each condensed entry comes from, with the four composites at the end in the order delivery location, delivery contact, ship-to location, ship-to contact |
| Condenser.CondensedKeepsLabels | audit_transform_ctwin.py:271-287 | if every entry holds a ':', so does every condensed entry |
| Condenser.DeleteDropped | audit_transform_ctwin.py:279-281 | the in-order `del` loop leaves exactly the entries whose positions are not dropped |
| Condenser.ReformatList | audit_transform_ctwin.py:271-287 | `reformat_list` returns `Condensed(d)` |
| Trail.StepLogs | audit_transform_ctwin.py:307-330 | a turn logs only at a compared position whose stripped entries differ, with the activity that position calls for |
| Trail.StepStops | audit_transform_ctwin.py:317-320 | the loop breaks exactly at a changed order number |
| Trail.StepPasses | audit_transform_ctwin.py:308-317 | a turn continues exactly at a skipped position or at unchanged entries |
| Trail.StepRaises | audit_transform_ctwin.py:311-325 | a turn raises exactly on a missing new entry, or on a changed new entry other than order number and status that strips to empty |
| Trail.RunSound | audit_transform_ctwin.py:307-334 | every change a run logs is the one its position's turn logs, in strictly increasing order of position |
| Trail.RunComplete | audit_transform_ctwin.py:307-334 | a run that completes met no raising turn and logged every logging turn before any stop |
| Trail.TrailSound | audit_transform_ctwin.py:300-334 | every activity `build_trail` logs comes from a differing compared position, with its activity, and no position twice |
| Trail.TrailComplete | audit_transform_ctwin.py:300-334 | with the order number unchanged and no exception, every differing compared position is logged |
| Trail.OrderCreated | audit_transform_ctwin.py:318-320 | a changed order number yields exactly the one activity "Order Created" |
| Trail.TrailCompletes | audit_transform_ctwin.py:307-334 | when every new entry holds a ':' and the new list is no shorter, no exception occurs |
| Trail.StatusActivityOf | audit_transform_ctwin.py:321-323 | the status entry "STATUS: v" yields "Order status - v" |
| Trail.FieldActivityOf | audit_transform_ctwin.py:325-330 | any other change yields the label's first character and the rest lower-cased, then " added to order" exactly when the old value was empty, else " updated/changed" |
| Meta.HubDictFacts | audit_transform_ctwin.py:346-363 | "01" is Fisher Clinical Services Inc; "99", "1" and "" are not warehouses |
| Meta.FieldValueOfItem | audit_transform_ctwin.py:383-401 | `s[s.find(':') + 2:]` gives back the value of "LABEL: value" |
| Meta.FieldValueWithoutColon | audit_transform_ctwin.py:383-401 | an entry without ':' is read from its second character on |
| Meta.MetaFor | audit_transform_ctwin.py:371-406 | a record exists exactly when the list reaches position 36 and the warehouse id is a key of `hubDict`, and its hub is the one `hubDict` names |
| Meta.ExtractOrderNumber | audit_transform_ctwin.py:191-193 | the order number can be read exactly when the list is not empty |
| AuditLog.OrderTableRecords | audit_transform_ctwin.py:38 | the kept records are exactly the `T_ORDER` records |
| AuditLog.SplitRecord | audit_transform_ctwin.py:184-185 | the new list is non-empty exactly when the new value string holds a ':' |
| AuditLog.ValidationPartitions | audit_transform_ctwin.py:203-219 | each row is kept exactly when both lists have 55 entries and is a data failure otherwise, and together they hold every row once |
| AuditLog.ReadOrderNumbers | audit_transform_ctwin.py:191-196 | reading every order number succeeds exactly when no new list is empty, and then row `i` is record `i` with its lists and the value of its first new entry as order number |
| AuditLog.SurvivorsWide | audit_transform_ctwin.py:217-218 | every row left in the working table passed the width check |
| AuditLog.AttachOrderNumbers | audit_transform_ctwin.py:191-196 | order numbers of validated rows always read: each row keeps its record and lists and gets `extract_order_number` of its new list |
| AuditLog.UnreadRead | audit_transform_ctwin.py:191-196 | reading order numbers changes no record or list |
| AuditLog.BatchCorrected | audit_transform_ctwin.py:199-219 | with the width check first, both lists of every working row have 55 entries |
| AuditLog.BatchCorrectedTotal | audit_transform_ctwin.py:191-219 | validating first never stops: every record is a working row or a data failure, and none is lost |
| AuditLog.BatchAsWrittenStops | audit_transform_ctwin.py:191-219 | as written, the run stops exactly when some new value string holds no ':'; otherwise it agrees with the corrected order |
| AuditLog.NoLabelStopsBatch | audit_transform_ctwin.py:191-219 | a record whose new values hold no ':' stops the run as written, and is a data failure in the corrected order |
| AuditLog.DeletedOrderStopsBatch | audit_transform_ctwin.py:191-219 | the concrete record with new values "N/A" stops the whole run as written |
| AuditLog.CondenseRow | audit_transform_ctwin.py:289-290 | both lists of a row condensed to 43 entries, record and order number kept |
| AuditLog.CondenseRows | audit_transform_ctwin.py:289-290 | every working row condensed, in order |
| AuditLog.ValidatedTrailCompletes | audit_transform_ctwin.py:300-334 | a validated, condensed row never meets the exception of `build_trail` |
| AuditLog.RowEntriesSound | audit_transform_ctwin.py:319-330 | every trail entry of a row carries the row's order number and timestamp and the activity of a justified change |
| AuditLog.RowEntriesComplete | audit_transform_ctwin.py:300-334 | with the order number unchanged and no exception, every differing compared position of a row has its entry in the trail table |
| AuditLog.CompareAt | audit_transform_ctwin.py:308-330 | the body of the `for` loop takes the turn `StepAt` specifies |
| AuditLog.LogDifference | audit_transform_ctwin.py:317-330 | at differing entries: "Order Created" and a stop at position 0, the status activity at 30, otherwise an exception for an empty new entry or the field activity |
| AuditLog.Turn | audit_transform_ctwin.py:308-330 | one turn of the loop: a `continue` or a logged change resumes at the next position, an exception ends the row with what was logged so far, a changed order number ends it completed after "Order Created" |
| AuditLog.RunsOut | audit_transform_ctwin.py:307-334 | a loop that reaches the end of the old list has logged the whole trail of the row and completed |
| AuditLog.TrailTable.constructor | audit_transform_ctwin.py:293 | the trail table starts empty |
| AuditLog.TrailTable.LogChange | audit_transform_ctwin.py:319-330 | one trail row appended at the end, nothing else changed |
| AuditLog.TrailTable.TakeTurn | audit_transform_ctwin.py:308-330 | one pass of the loop body appends the entry of its turn, if any, and either resumes at the next position or ends the row with its whole trail logged |
| AuditLog.TrailTable.BuildTrail | audit_transform_ctwin.py:300-334 | the trail gains exactly the entries `Trail.Trail` specifies, kept even when an exception ends the row early |
| AuditLog.TrailTable.ApplyBuildTrail | audit_transform_ctwin.py:336 | applying `build_trail` to every row appends their entries row after row |
| AuditLog.MetaTable.constructor | audit_transform_ctwin.py:338 | the metadata table starts empty |
| AuditLog.MetaTable.BuildMeta | audit_transform_ctwin.py:371-409 | the metadata table gains the row's record exactly when the row has one, otherwise nothing |
| AuditLog.MetaTable.ApplyBuildMeta | audit_transform_ctwin.py:414 | applying `build_meta` to every row appends their records row after row |
| AuditLog.TrailColumns | audit_transform_ctwin.py:304-321 | after condensing, positions 0 and 30 hold the order number and the status, and the skipped 1, 2, 15, 16 hold the two actual dates, the confirm date and the creating user |
| AuditLog.MetaColumns | audit_transform_ctwin.py:383-401 | after condensing, each position `build_meta` reads holds the column its variable names |
| AuditLog.AllMetaHubs | audit_transform_ctwin.py:371-409 | at most one metadata record per row, each naming a warehouse of `hubDict` and its hub |
| AuditLog.SplitOne | audit_transform_ctwin.py:184-185 | both value strings of one record split by `custom_split` |
| AuditLog.SplitRecords | audit_transform_ctwin.py:184-185 | both value strings of every record split by `custom_split`, in order |
| AuditLog.ValidateBatch | audit_transform_ctwin.py:184-219 | splitting, the width check and the order numbers give the corrected batch |
| AuditLog.BuildTables | audit_transform_ctwin.py:293-414 | the trail and metadata tables, built from empty over the condensed rows, are exactly `AllEntries` and `AllMeta` of them |
| AuditLog.Transform | audit_transform_ctwin.py:38-414 | the transform exports the trail, metadata and failed rows `Exported` specifies |
| Dates.MonthDictInjective | audit_combination.py:38-51 | every month abbreviation maps to a number "01"-"12" that maps back to it |
| Dates.MonthDictOnto | audit_combination.py:38-51 | every number "01"-"12" is the number of some abbreviation |
| Dates.MonthNamesLong | audit_combination.py:38-70 | every abbreviation is three letters, so `month_dict` is always consulted for it |
| Dates.SplitDateOf | audit_combination.py:63-67 | splitting "day-month-year" gives back day, month and year |
| Dates.TimedDayMonYear | audit_combination.py:53-76 | "DD-MON-YY" with a known month becomes "20YY-MM-DD 14:00:00" |
| Dates.TimedExample | audit_combination.py:53-76 | "26-MAY-23" becomes "2023-05-26 14:00:00" |
| Dates.NumericMonthKept | audit_combination.py:69-98 | a month of at most two characters passes through unchanged |
| Dates.UnknownMonthFails | audit_combination.py:69-98 | a longer month missing from `month_dict` is a `KeyError` |
| Dates.YearRule | audit_combination.py:72-101 | only a two-character year gains the "20" |
| Dates.TimedIsUntimedPlusTime | audit_combination.py:75-103 | the timed date is the untimed one plus " 14:00:00", and both fail together |
| Dates.UntimedNull | audit_combination.py:86-87 | a null metadata date stays null |
| Dates.UndashedDate | audit_combination.py:63-67 | a date without '-' is read as day and month its characters but the last, year the whole string |

## Left out

- CSV reading and writing, Parquet output, `exit()` and every `print` in the `except` handlers: these are I/O. A caught exception is a `Raise` turn or a `None`.
- pandas `concat`, `sort_values` and `drop_duplicates`. These are the deduplication and sorting of rows before `build_meta` (audit_transform_ctwin.py:411-412) and the combination of several exports (audit_combination.py:27-36). `AuditLog.MetaTable.ApplyBuildMeta` and `AuditLog.Transform` take the rows in the order given.
- Detecting a NaN cell: `transform_dates_untimed`'s `isinstance(row, float)` test becomes `None`. Non-string values in the value columns are not modelled.
- Width and type of the dataframe columns; the script's column positions (`iloc[4]`, `iloc[5]`, `iloc[6]`) are the fields of `AuditLog.Row`.
- PyText.Lower: lower-cases the ASCII letters only; Python's `lower` also maps other Unicode letters.
- Meta.HubDictFacts: states a few keys and non-keys, not that `hubDict` has exactly 16 entries.
- Condenser.ReformatList: requires more than 45 entries. A shorter list raises an uncaught `IndexError` in the source; it is only ever called on validated 55-entry rows.
- Condenser.DelivLocDetectsChange: holds only for address entries without ','. With commas two different addresses can join to the same composite.
- Tokenizer.SplitRender: the round trip is stated for known labels and values with no ':' or ','. A value holding either can be mis-split, as the splitter's own documentation warns. Within that, trailing spaces of a value are lost and an empty value comes back as "LABEL:" (`Tokenizer.RecoveredEmpty`).
- AuditLog.OrderTableRecords: states which records are kept, not that they keep their order.
- AuditLog.Transform: reads order numbers after the width check, the corrected order of the finding below; the order as written is `AuditLog.BatchAsWritten`.

## Findings

| source | as written | input that shows it | evidently intended | confidence | as-written member | corrected member |
|---|---|---|---|---|---|---|
| audit_transform_ctwin.py:191-219 | `extract_order_number` reads `row[0]` of every new list before the 55-entry width check | a T_ORDER record whose new values hold no ':', e.g. "N/A" for a deleted order: `custom_split` gives `[]`, `row[0]` raises an uncaught `IndexError`, and the whole run stops | such a row is set aside as failed data like any other malformed row, and the run goes on | medium, not executed | AuditLog.DeletedOrderStopsBatch | AuditLog.BatchCorrectedTotal |
