# Anthias asset list: store, server ordering and row helpers, in Dafny

Anthias is a digital-signage player. It has a web dashboard that lists the
assets in the playlist: images, videos and web pages. This project models
three pieces of the code behind that list, and proves properties of each.

- **The `assets` slice of the dashboard's Redux store**
  (`static/src/store/assets/assets-list-slice.ts`).
  - The slice holds the list of assets, the status of the last fetch and
    the last fetch error.
  - It is modelled as the class `AssetsListSlice.AssetsStore`. Each reducer
    case is a method that updates the fields in place.
  - The payloads that the thunks deliver are method parameters.
- **The active-id ordering in the v1.2 asset views** (`api/views/v1_2.py`).
  - On create (`post`) and on update (`patch`, `put`), the server rebuilds
    the list of active asset ids. It takes the edited id out with
    `list.remove`, ignoring the `ValueError` raised for an absent id. It puts
    the id back with `list.insert` at the asset's `play_order`, and saves the
    result as the new play order.
  - `AssetModel`'s `Option` and the `ActiveOrdering.Outcome` datatype carry
    the error paths.
  - `list.insert` follows CPython: a negative index counts from the end, and
    an index outside the list is clamped to the nearer end.
- **The helpers of one asset row** (`static/src/components/asset-row.jsx`).
  - `formatDuration`. JavaScript's `parseInt` failing (NaN) is modelled as
    `None`, `Math.floor` as floor division, and `%` as a remainder that
    keeps the sign of the dividend.
  - The separator choice and field order of `formatDate`.
  - The value the enable switch requests, and when the switch is disabled.
  - The busy-flag protocol of `handleToggle` and `handleDelete`.
    - Whether the server call succeeds, and whether the confirmation dialog
      was confirmed, are parameters.
    - What a handler does is recorded in an effect log: busy-flag updates,
      dispatched actions, the HTTP request and dialogs.

Each operation has a partner that its contracts connect it to:

- The rendered duration is parsed back to the number of seconds
  (`AssetRowFormat.ParseDuration`).
- The rendered date splits back into the formatter's parts, in the order the
  format asks for.
- A toggle payload applied twice is the same as applied once, and a toggle
  back restores the list.
- The repositioning of an edited id is characterised by what it keeps and
  what it changes (`ActiveOrdering.RepositionedAfterEdit`).
- Every handler run keeps the row's protocol invariant
  (`AssetRow.AssetRowState.Valid`): every server call is made while the row
  is busy, and the busy flag is cleared afterwards.

Two behaviours of the code are worth knowing, and the model keeps both:

- A fulfilled fetch does not clear `error`
  (`static/src/store/assets/assets-list-slice.ts:28-31`), so an earlier
  rejection's message stays in place.
- `handleToggle` has no guard of its own against an asset that is still
  processing. Only the switch's `disabled` attribute
  (`static/src/components/asset-row.jsx:477`) stops such a click.

## Model

| member | source | states |
|---|---|---|
| AssetsListSlice.AssetsStore.constructor | static/src/store/assets/assets-list-slice.ts:9-13 | the initial state is an empty list, status idle, no error |
| AssetsListSlice.AssetsStore.AddAsset | static/src/store/assets/assets-list-slice.ts:19-21 | the payload is appended at the end: the old list is a prefix, the length grows by one, status and error are unchanged |
| AssetsListSlice.AssetsStore.FetchPending | static/src/store/assets/assets-list-slice.ts:25-27 | the status becomes loading; items and error are unchanged |
| AssetsListSlice.AssetsStore.FetchFulfilled | static/src/store/assets/assets-list-slice.ts:28-31 | the payload replaces the list and the status becomes succeeded; the earlier error is kept |
| AssetsListSlice.RejectionMessage | static/src/store/assets/assets-list-slice.ts:34 | the recorded error is never empty: it is the rejection's message when that is present and non-empty, otherwise the default text |
| AssetsListSlice.AssetsStore.FetchRejected | static/src/store/assets/assets-list-slice.ts:32-35 | the status becomes failed and the error is the rejection message or the default; the list stays as it was |
| AssetsListSlice.AssetsStore.ReorderFulfilled | static/src/store/assets/assets-list-slice.ts:36-38 | only the status changes, to succeeded |
| AssetsListSlice.FirstIndex | static/src/store/assets/assets-list-slice.ts:41 | `find` yields the first item with the id, or nothing exactly when no item has it |
| AssetsListSlice.FindAsset | static/src/store/assets/assets-list-slice.ts:41 | the linear search returns the position of the first item carrying the id, or none |
| AssetsListSlice.ToggledItems | static/src/store/assets/assets-list-slice.ts:39-46 | only the first item with the id changes, and only its `is_enabled` and `play_order`; an unknown id leaves the list as it was |
| AssetsListSlice.AssetsStore.ToggleFulfilled | static/src/store/assets/assets-list-slice.ts:39-46 | the two in-place writes leave the list equal to the toggled list; the ids, status and error are unchanged |
| AssetsListSlice.FirstMatchFollowsIds | static/src/store/assets/assets-list-slice.ts:41 | which item `find` picks depends only on the sequence of ids |
| AssetsListSlice.ToggleKeepsIds | static/src/store/assets/assets-list-slice.ts:39-46 | a toggle keeps every item's id, and their order |
| AssetsListSlice.ToggleKeepsIdsUnique | static/src/store/assets/assets-list-slice.ts:39-46 | a toggle never creates a repeated id |
| AssetsListSlice.ToggleIdempotent | static/src/store/assets/assets-list-slice.ts:39-46 | applying the same toggle payload twice is the same as applying it once |
| AssetsListSlice.ToggleRoundTrip | static/src/store/assets/assets-list-slice.ts:39-46 | toggling an item and then toggling it back to its former values restores the list exactly |
| AssetsListSlice.FetchFulfilledTwice | static/src/store/assets/assets-list-slice.ts:28-31 | a second fulfilment with the same payload leaves the store as one does |
| AssetsListSlice.ToggleFulfilledTwice | static/src/store/assets/assets-list-slice.ts:39-46 | a toggle payload delivered twice leaves the store as one delivery does |
| ActiveOrdering.ActiveIds | api/views/v1_2.py:26 | the comprehension keeps at most one id per asset read, so the list is no longer than the read |
| ActiveOrdering.ActiveIdsMembers | api/views/v1_2.py:26 | an id is in the active list exactly when some active asset read carries it |
| ActiveOrdering.ActiveIdsConcat | api/views/v1_2.py:55 | the comprehension keeps read order: the active ids of two reads joined are the two lists joined |
| ActiveOrdering.ActiveIdsUnique | api/views/v1_2.py:75 | when the stored ids have no repeats, neither do the active ids |
| ActiveOrdering.Without | api/views/v1_2.py:59-64 | filtering out an id drops every occurrence of it; an absent id changes nothing |
| ActiveOrdering.WithoutMembers | api/views/v1_2.py:59-64 | every other id occurs after the filtering exactly when it occurred before |
| ActiveOrdering.WithoutConcat | api/views/v1_2.py:59-64 | filtering distributes over concatenation |
| ActiveOrdering.IndexOf | api/views/v1_2.py:60 | the position `list.remove` deletes is that of the first occurrence (stated in its contract) |
| ActiveOrdering.ListRemove | api/views/v1_2.py:59-62 | the removal fails exactly when the id is absent; otherwise the first occurrence goes: the result is the list before it followed by the list after it, so the length and the multiset lose exactly that id and the other ids keep their order |
| ActiveOrdering.SpliceFacts | api/views/v1_2.py:60 | putting one id between two lists adds that id once to the multiset and nothing to the other ids' order |
| ActiveOrdering.InsertIndex | api/views/v1_2.py:64 | the insert position in a list of length n: in range it is the index; past the end it is n; a negative index counts from the end; below the start it is 0 |
| ActiveOrdering.ListInsert | api/views/v1_2.py:64 | the id lands at that position, the prefix before it and the suffix after it are the old ones, and the multiset gains exactly that id |
| ActiveOrdering.InsertPastEndAppends | api/views/v1_2.py:31 | a `play_order` at or past the end appends |
| ActiveOrdering.NoDuplicatesSplice | api/views/v1_2.py:59-64 | a list is free of repeats with an id spliced in exactly when it is free of repeats and does not contain that id without it |
| ActiveOrdering.NoDuplicatesRemove | api/views/v1_2.py:59-62 | removing from a list without repeats leaves one without repeats and without the id |
| ActiveOrdering.NoDuplicatesInsert | api/views/v1_2.py:63-64 | inserting an absent id into a list without repeats leaves one without repeats |
| ActiveOrdering.Reposition | api/views/v1_2.py:79-84 | remove-then-insert yields an ordering in which: the other ids keep their order and multiplicity; one edited id goes and one comes back exactly when the asset is active, at the `list.insert` position of the shortened list; with no repeats before there are none after, and then the edited id is present exactly when the asset is active |
| ActiveOrdering.RepositionFacts | api/views/v1_2.py:59-64 | the remove-then-insert composition satisfies `RepositionedAfterEdit` |
| ActiveOrdering.Post | api/views/v1_2.py:19-32 | a failing URL without the skip flag raises, and only then; otherwise an inactive asset leaves the active list as read, and an active one is inserted once at its `play_order` position with the other ids' order kept, and no repeats are introduced |
| ActiveOrdering.Patch | api/views/v1_2.py:45-66 | a missing asset raises not found, and only then; otherwise the saved ordering is the repositioned active list |
| ActiveOrdering.Put | api/views/v1_2.py:71-86 | the saved ordering is the repositioned active list, with no existence check |
| AssetRowFormat.FloorDiv | static/src/components/asset-row.jsx:103 | the quotient is the floor: q·d ≤ a < q·d + d |
| AssetRowFormat.JsRemainder | static/src/components/asset-row.jsx:108-113 | for a non-negative dividend it is the usual remainder; for a negative one it lies in (−d, 0]; in both cases it differs from the dividend by a multiple of d, which fixes it as a − d·trunc(a/d) |
| AssetRowFormat.DurationSplit | static/src/components/asset-row.jsx:103-113 | for non-negative seconds, hours·3600 + minutes·60 + seconds gives back the input, with minutes and seconds below 60 |
| AssetRowFormat.NegativeDurationSplit | static/src/components/asset-row.jsx:103-116 | a negative count gives no positive unit, so nothing is shown |
| AssetRowFormat.DigitChar | static/src/components/asset-row.jsx:105 | a digit below ten becomes the character with that value |
| AssetRowFormat.Decimal | static/src/components/asset-row.jsx:105-115 | a number's decimal rendering is a non-empty string of digits without leading zeros: only zero itself starts with `0` |
| AssetRowFormat.DecimalValue | static/src/components/asset-row.jsx:105 | reading the digits of a rendering back yields the number |
| AssetRowFormat.DigitRunEnd | static/src/components/asset-row.jsx:105-115 | the digit run from a position is all digits and ends at the end of the text or at the first non-digit |
| AssetRowFormat.DigitRunOf | static/src/components/asset-row.jsx:105-115 | in a numeral followed by a non-digit, the digit run ends exactly where the numeral does |
| AssetRowFormat.FormatDuration | static/src/components/asset-row.jsx:99-119 | the text is the hours, minutes and seconds segments, each present only when positive, which is the rendering of the positive pieces in unit order; it is empty exactly when the input is not a number or not positive; for non-negative seconds it parses back to the input |
| AssetRowFormat.RenderedDuration | static/src/components/asset-row.jsx:99-119 | the rendered pieces of a count of seconds are empty exactly when the count is not positive, and for a non-negative count they parse back to that count |
| AssetRowFormat.PiecesOfCount | static/src/components/asset-row.jsx:99-119 | a count of seconds has some unit to show exactly when it is positive |
| AssetRowFormat.PiecesEmpty | static/src/components/asset-row.jsx:103-116 | no unit is shown exactly when none of the three counts is positive |
| AssetRowFormat.UnitLabelAt | static/src/components/asset-row.jsx:105-115 | a recognised unit is one of hours, minutes and seconds, and its label starts the text |
| AssetRowFormat.UnitLabelOf | static/src/components/asset-row.jsx:105-115 | a unit's label followed by anything is recognised as that unit |
| AssetRowFormat.ParseSegment | static/src/components/asset-row.jsx:103-116 | a segment read is a positive count of a unit no earlier than the last one read, and leaves a strictly shorter rest |
| AssetRowFormat.SegmentReads | static/src/components/asset-row.jsx:105-115 | a rendered segment followed by any text reads back as its count and unit, leaving that text |
| AssetRowFormat.ParseStep | static/src/components/asset-row.jsx:103-116 | a text whose front reads as a segment is worth that segment plus what its rest reads as |
| AssetRowFormat.SegmentParses | static/src/components/asset-row.jsx:105-115 | a positive count with its unit label, then any text, parses to the count times the unit plus what the text parses to |
| AssetRowFormat.RenderParses | static/src/components/asset-row.jsx:99-119 | any list of positive counts in strictly increasing unit order renders as text that parses back to its total in seconds |
| AssetRowFormat.Pieces | static/src/components/asset-row.jsx:103-116 | the pieces shown for a split are positive counts in the order hours, minutes, seconds |
| AssetRowFormat.RenderEmpty | static/src/components/asset-row.jsx:99-119 | the rendering is empty exactly when there is no piece |
| AssetRowFormat.PiecesRender | static/src/components/asset-row.jsx:103-116 | the pieces of a split render exactly as the three segments the function appends |
| AssetRowFormat.PiecesTotal | static/src/components/asset-row.jsx:103-116 | the pieces of a non-negative split total hours·3600 + minutes·60 + seconds |
| AssetRowFormat.PiecesParse | static/src/components/asset-row.jsx:99-119 | the rendered pieces of any split read back as their total |
| AssetRowFormat.DurationParses | static/src/components/asset-row.jsx:103-116 | the rendered pieces of a non-negative split parse to hours·3600 + minutes·60 + seconds |
| AssetRowFormat.Separator | static/src/components/asset-row.jsx:131-137 | the separator is `/` if the format has one or has neither `-` nor `.`, `-` if it has `-` but no `/`, and `.` if it has `.` but no `/` or `-` |
| AssetRowFormat.FirstSegment | static/src/components/asset-row.jsx:140 | the first piece of the split format is a prefix with no separator, ending at the end or at a separator |
| AssetRowFormat.OrderOf | static/src/components/asset-row.jsx:180-189 | the first piece containing `mm` gives month-day-year; otherwise `dd` gives day-month-year; otherwise `yyyy` gives year-month-day; anything else gives month-day-year |
| AssetRowFormat.FormatDate | static/src/components/asset-row.jsx:121-128 | an absent or empty date renders as empty text, an invalid one as itself, and a valid one as non-empty text |
| AssetRowFormat.Split | static/src/components/asset-row.jsx:140 | splitting always yields at least one piece |
| AssetRowFormat.SplitWithout | static/src/components/asset-row.jsx:140 | a text without the separator splits into itself |
| AssetRowFormat.SplitAt | static/src/components/asset-row.jsx:140 | splitting at the first separator yields the text before it, then the split of the rest |
| AssetRowFormat.SplitThree | static/src/components/asset-row.jsx:181 | three separator-free fields joined by the separator split back into the three |
| AssetRowFormat.FormatDateLayout | static/src/components/asset-row.jsx:176-194 | for parts without spaces or separators, the rendered date splits on spaces into the date, the time and, on a 12-hour clock with a period, that period; the date splits on the separator into the fields in the format's order, and the time on `:` into hour, minute and second |
| AssetRow.ToggleTarget | static/src/components/asset-row.jsx:253 | the requested value is 0 or 1, and it is 1 exactly when the asset is not enabled |
| AssetRow.ToggleTargetTwice | static/src/components/asset-row.jsx:253 | taking a 0/1 target twice gives back the starting value |
| AssetRow.SwitchDisabled | static/src/components/asset-row.jsx:477 | a busy row's switch is disabled; an idle row's switch is disabled exactly when the asset is processing |
| AssetRow.AssetRowState.ToggleDisabled | static/src/components/asset-row.jsx:477 | between handler runs the switch is disabled exactly when the asset is processing |
| AssetRow.GuardedAppend | static/src/components/asset-row.jsx:252-264 | two guarded effect logs in a row form a guarded log |
| AssetRow.GuardedCons | static/src/components/asset-row.jsx:254-262 | one step of the guard: a busy update sets the flag that later calls are checked against |
| AssetRow.ToggleEffects | static/src/components/asset-row.jsx:252-264 | the handler marks the row busy, then requests the toggle target; it refetches only after a fulfilled toggle, and only after the request; it always clears the flag last |
| AssetRow.ToggleEffectsGuarded | static/src/components/asset-row.jsx:254-263 | the toggle request is made while busy, and the flag is cleared on both outcomes |
| AssetRow.DeleteEffects | static/src/components/asset-row.jsx:304-382 | the dialog always comes first, and after a confirmation the busy flag is cleared last |
| AssetRow.DeleteEffectsOutcomes | static/src/components/asset-row.jsx:324-379 | a request is made exactly when the dialog is confirmed; a refetch and a success notice happen exactly for a confirmed ok response; an error notice happens exactly for a confirmed non-ok status or network error |
| AssetRow.DeleteEffectsGuarded | static/src/components/asset-row.jsx:324-379 | the DELETE is issued while busy, and the flag is cleared on every outcome |
| AssetRow.AssetRowState.constructor | static/src/components/asset-row.jsx:252-264 | a new row is not busy and has done nothing |
| AssetRow.AssetRowState.SetIsDisabled | static/src/components/asset-row.jsx:254 | the busy flag takes the value, and the update is logged |
| AssetRow.AssetRowState.HandleToggle | static/src/components/asset-row.jsx:252-264 | the row keeps its invariant, and the log grows by exactly the toggle's effects |
| AssetRow.AssetRowState.HandleDelete | static/src/components/asset-row.jsx:304-382 | the row keeps its invariant, and the log grows by exactly the delete's effects |

## Left out

- Database access, the `save_ordering` write and the re-read of the created
  or updated asset are not modelled. The asset-helper reads are parameters,
  and the saved list is the result.
- `is_active`, which the asset helper computes from the asset's dates and
  its `is_enabled` flag, is an input field. The clock it depends on is not
  modelled.
- `prepare_asset_v1_2` and `update_asset` build the record a view stores.
  Both are outside this model: the stored record is a parameter.
- `ActiveOrdering.Post`: `url_fails` performs network I/O and is a boolean
  parameter. The exception it raises is modelled as `Raised(UrlUnreachable)`.
- `ActiveOrdering.Patch`: whether the first read found the asset is an
  `Option` parameter.
- A `play_order` that is not an integer (for instance `None`, where
  `list.insert` would raise `TypeError`) is not modelled. `play_order` is an
  integer field.
- The `get` views and the `delete` view are not modelled. Their orderings
  are not touched; the file removal in `delete` is file-system I/O.
- The store does not enforce unique ids, so neither does the model. The
  uniqueness lemmas take it as a precondition.
- The thunks `fetchAssets`, `updateAssetOrder` and `toggleAssetEnabled`
  perform HTTP requests. Only what their fulfilled and rejected cases
  deliver is modelled.
- `AssetRowFormat.FormatDate`: JavaScript `Date` parsing and
  `Intl.DateTimeFormat` are not modelled.
  - Whether the date is valid, and the formatter's part strings, are
    parameters.
  - Its own contract only says that a valid date renders as non-empty text.
    The layout of that text is stated by `AssetRowFormat.FormatDateLayout`.
- `AssetRowFormat.FormatDuration`: `parseInt` is modelled by its outcome, an
  `Option<int>`. The parsing of the prefix of the input string is not
  modelled.
- `AssetRowFormat.FormatDuration`: JavaScript numbers are IEEE doubles; the
  model uses unbounded integers. It does not capture a `parseInt` result of
  `Infinity` (which renders as `"Infinity hours "`), the exponent notation
  `${hours}` switches to from 1e21 hours on (`"1e+21"`), or the rounding of
  `parseInt` and `/` past 2^53. The contract holds for counts below 2^53.
- The device-settings request for the date format and the clock, the
  `handleDownload` and `handleEdit` handlers, and the rendering are not
  modelled. They are I/O or markup.
- `AssetRow.AssetRowState.HandleToggle` and `AssetRow.AssetRowState.HandleDelete`
  each run to completion in one call, so interleavings of the handlers'
  `await`s are not modelled. In particular, a toggle whose `finally` runs
  while a delete is in flight would clear the shared busy flag early.
- The contents of the dialogs (titles, texts, timers and styling) are not
  modelled. Only which dialog is shown is recorded.
