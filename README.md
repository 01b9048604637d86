# Modern Data Grid — a Dafny model of the grid component

Modern Data Grid is a Power Apps component framework (PCF) control that shows the records of a
host dataset in a paginated, filterable and selectable table. This project models the core of its
React component `DataGrid` (`ModernDataGrid/components/DataGrid.tsx`):

- the field-configuration mini-language `name=key:value|key:value,...` and its parser
  (`parseConfigurations`), with the JavaScript `split`, two-element destructuring, `trim` and
  `parseInt` semantics it depends on;
- the per-type cell formatters (`typeHandlers`) and the per-cell fallback to the raw value;
- the projection of the host's records, in sorted-id order, into display records
  (`mapRecordsToState`), including the rule that the cached records are replaced only when they
  or the columns changed;
- the header comparison `areColumnsEqual`, the filter rebuild `updateFilters` and the initial
  filters of the constructor;
- row selection (`onSelectionChange`, and the selection mode and selected rows computed in
  `render`);
- the `onPage` paging handler and the refresh-interval lifecycle (`checkAndStartInterval`,
  `clearRefreshInterval`, `componentWillUnmount`).

Modules: `Wrappers` (Option), `JsText` (string primitives), `JsObjects` (objects built by key
assignment, and ordered objects), `Values` (raw values and display cells), `FieldConfig`,
`Formatting`, `Columns`, `Projection`, `Filters`, `Selection`, `Paging`, and `Grid` (the component
class `DataGrid`, whose fields are the component state and whose host calls are appended to a log).

Two properties of the code are worth knowing; the model follows the code in both:

- Every handler receives the whole parsed configuration (DataGrid.tsx line 240), not the options of
  its own column. So `config?.currency` is the option object of a field literally named `currency`:
  when one exists the currency code becomes `"[object Object]"`, `Intl.NumberFormat` throws, and the
  raw value is shown; otherwise the code is `"USD"`. `parseInt(config?.decimalPlaces)` is always NaN,
  so decimals always get 2 places. `TwoOptions` shows the option object of a field named
  `trueLabel`/`falseLabel` when one exists, else `"Yes"`/`"No"`.
- An entry such as `a=x1`, whose option list has no `:`, still configures field `a`, with no
  options (`FieldConfig.EntryWithoutColon`): only its malformed pairs are dropped.

The formatters the grid calls but does not define (`Intl.NumberFormat`, `formatDate`,
`JSON.stringify`) are not modelled: a cell they produce is the symbolic `Formatted(format, input)`,
naming the arguments the grid passes. Calls into the host (paging, selection, timers, the delayed
refresh of `forceRefreshDataset`) are entries of the `DataGrid.calls` log. `setState` takes effect
at once.

## Model

| member | source | states |
|---|---|---|
| JsText.Split | ModernDataGrid/components/DataGrid.tsx:146 | `split` on one character always yields at least one piece, and no piece contains the separator |
| JsText.JoinSplit | ModernDataGrid/components/DataGrid.tsx:146 | joining the pieces of a split with the separator gives back the original text |
| JsText.SplitJoin | ModernDataGrid/components/DataGrid.tsx:146 | splitting a join of separator-free pieces gives back exactly those pieces |
| JsText.FirstTwoText | ModernDataGrid/components/DataGrid.tsx:148 | two-element destructuring of a split: the text before the first separator, and the text up to the next separator or `undefined` when there is no separator; anything after a second separator is ignored |
| JsText.TrimSpec | ModernDataGrid/components/DataGrid.tsx:153 | `trim` returns the slice of its input obtained by removing exactly the leading and trailing JavaScript whitespace and line terminators: everything before and after the slice is whitespace, and the slice neither starts nor ends with it |
| JsText.TrimmedAtUnique | ModernDataGrid/components/DataGrid.tsx:153 | only one slice of a text has that shape, so the facts `TrimSpec` states determine the trimmed text |
| JsText.TrimEnds | ModernDataGrid/components/DataGrid.tsx:153 | a trimmed text has no JavaScript whitespace or line terminator at either end |
| JsText.TrimIdempotent | ModernDataGrid/components/DataGrid.tsx:153 | trimming a trimmed key or value changes nothing |
| JsText.ParseIntOfWord | ModernDataGrid/components/DataGrid.tsx:188 | `parseInt` of a text starting with a letter g-z (such as `"undefined"`) is NaN |
| JsText.ParseIntOfBracket | ModernDataGrid/components/DataGrid.tsx:188 | `parseInt` of a text starting with `[` (such as `"[object Object]"`) is NaN |
| JsText.ParseIntOfIntToString | ModernDataGrid/components/DataGrid.tsx:188 | `parseInt` reads the decimal text of any integer back as that integer |
| JsObjects.AssignKeys | ModernDataGrid/components/DataGrid.tsx:150-156 | an object built by key assignment has a key exactly when some assigned entry names it |
| JsObjects.AssignLast | ModernDataGrid/components/DataGrid.tsx:150-156 | the last assignment to a key decides its value: later duplicates overwrite earlier ones |
| JsObjects.Get | ModernDataGrid/components/DataGrid.tsx:279 | reading a property is `undefined` exactly when the key is absent, and otherwise a value stored under that key |
| JsObjects.Put | ModernDataGrid/components/DataGrid.tsx:279 | assigning a property keeps an existing key in its position and appends a new key last |
| JsObjects.GetPut | ModernDataGrid/components/DataGrid.tsx:279 | after `acc[k] = v`, `acc[k]` is `v` and every other property reads as before |
| JsObjects.PutUnique | ModernDataGrid/components/DataGrid.tsx:277-284 | assigning a property keeps the object's keys distinct |
| FieldConfig.ParseConfigurations | ModernDataGrid/components/DataGrid.tsx:141-164 | the loop over the comma-separated entries returns exactly the configuration the text denotes (`Parsed`); the `catch` is never taken |
| FieldConfig.ParsedKeys | ModernDataGrid/components/DataGrid.tsx:146-157 | a field is configured exactly when some entry has non-empty text before its first `=` and between its first and second `=`, and that name trims to the field |
| FieldConfig.ParsedValue | ModernDataGrid/components/DataGrid.tsx:156 | the last such entry naming a field decides its options |
| FieldConfig.PairsKeys | ModernDataGrid/components/DataGrid.tsx:150-154 | an option key is set exactly when some `\|`-separated pair has a non-empty key and value around its first `:` and the key trims to it |
| FieldConfig.PairsValue | ModernDataGrid/components/DataGrid.tsx:153 | the last such pair naming a key decides its value, trimmed |
| FieldConfig.PairEntryRendered | ModernDataGrid/components/DataGrid.tsx:152-153 | `key:value` written from tokens parses back to that pair |
| FieldConfig.ParsePairsRendered | ModernDataGrid/components/DataGrid.tsx:150-154 | an option list written from tokens parses back to the options it lists |
| FieldConfig.FieldEntryRendered | ModernDataGrid/components/DataGrid.tsx:148-156 | `name=options` written from tokens parses back to the field and its options |
| FieldConfig.ParsedRendered | ModernDataGrid/components/DataGrid.tsx:141-164 | round trip: a configuration written out from tokens parses back to the configuration it lists, later duplicates winning |
| FieldConfig.PairsWithoutColon | ModernDataGrid/components/DataGrid.tsx:150-154 | an option list with no `:` sets no option |
| FieldConfig.EntryWithoutColon | ModernDataGrid/components/DataGrid.tsx:148-157 | an entry like `a=x1` still configures its field, with empty options |
| FieldConfig.ParseDefault | ModernDataGrid/components/DataGrid.tsx:176-177 | the default text `"{}"` configures nothing |
| Formatting.Handle | ModernDataGrid/components/DataGrid.tsx:182-195 | the handler table answers for exactly the nine listed column types |
| Formatting.FormatCell | ModernDataGrid/components/DataGrid.tsx:237-246 | a type without a handler, or a handler that throws, leaves the raw value in the cell; otherwise the handler's result is the cell |
| Formatting.CurrencyCell | ModernDataGrid/components/DataGrid.tsx:183 | a Currency cell is formatted in USD when no field is named `currency`, and falls back to the raw value when one is |
| Formatting.DecimalPlacesTwo | ModernDataGrid/components/DataGrid.tsx:188 | `parseInt(config?.decimalPlaces) \|\| 2` is 2 for every configuration, since an option object and `undefined` both parse as NaN |
| Formatting.DecimalAlwaysTwo | ModernDataGrid/components/DataGrid.tsx:188 | a Decimal cell is always formatted with 2 decimal places |
| Formatting.TwoOptionsCell | ModernDataGrid/components/DataGrid.tsx:189 | a TwoOptions cell shows "Yes"/"No" for a truthy/falsy value, or the option object of a field named `trueLabel`/`falseLabel` when one exists |
| Formatting.LinkCells | ModernDataGrid/components/DataGrid.tsx:190-192 | Email, Phone and URL cells are `mailto:`, `tel:` and an unescaped anchor around the value's text |
| Columns.AreColumnsEqual | ModernDataGrid/components/DataGrid.tsx:341-358 | true exactly when both lists have the same length and agree on name and display name at every position, i.e. exactly when their headers are equal |
| Columns.HeadersIgnoreOtherFields | ModernDataGrid/components/DataGrid.tsx:341-358 | changing only aliases, data types and the rest of the host column metadata leaves the headers equal |
| Projection.ProjectShape | ModernDataGrid/components/DataGrid.tsx:224-253 | the projection has one display record per sorted id that has a record, in sorted order, built from that record |
| Projection.PresentLength | ModernDataGrid/components/DataGrid.tsx:224-253 | the output length is the number of sorted ids minus those with no record |
| Projection.PresentMembers | ModernDataGrid/components/DataGrid.tsx:224-253 | an id appears in the output exactly when it is a sorted id with a record |
| Projection.PresentConcat | ModernDataGrid/components/DataGrid.tsx:253 | dropping the missing records keeps order: it distributes over concatenation |
| Projection.PresentAll | ModernDataGrid/components/DataGrid.tsx:224-253 | when every sorted id has a record, the output follows the sorted ids exactly |
| Projection.CellsKeys | ModernDataGrid/components/DataGrid.tsx:233-249 | a record's cells have exactly one key per column name |
| Projection.CellsValue | ModernDataGrid/components/DataGrid.tsx:239-245 | the cell under a name is the formatted value of the last column with that name |
| Projection.RecordKeys | ModernDataGrid/components/DataGrid.tsx:231-233 | a display record's keys are `id` and the column names; `id` holds the record id unless a column is named `id` |
| Filters.UpdateFiltersKeys | ModernDataGrid/components/DataGrid.tsx:277-284 | the rebuilt filters' keys are the column names in order of first occurrence, distinct, so any other key (such as `global`) is dropped |
| Filters.UpdateFiltersValue | ModernDataGrid/components/DataGrid.tsx:279 | each column keeps its previous filter when it had one and gets the default AND/contains filter otherwise |
| Filters.UpdateFiltersLocal | ModernDataGrid/components/DataGrid.tsx:277-284 | the rebuild depends on the previous filters only through the current column names |
| Filters.UpdateFiltersStable | ModernDataGrid/components/DataGrid.tsx:314-323 | rebuilding already rebuilt filters for the same columns changes nothing, so no second state change is requested |
| Filters.InitialFiltersDefault | ModernDataGrid/components/DataGrid.tsx:48-54 | the constructor's filters are the rebuild from no previous filters: the default filter for every column |
| Selection.Normalize | ModernDataGrid/components/DataGrid.tsx:431-432 | single mode keeps at most the first selected record; other modes keep them all; the result is always a prefix of the selection |
| Selection.SelectionMode | ModernDataGrid/components/DataGrid.tsx:512-515 | the table's mode is the parameter when it is one of single, multiple or checkbox, and multiple otherwise |
| Selection.SingleModeAgrees | ModernDataGrid/components/DataGrid.tsx:512-516 | the render-time mode is single exactly when the raw parameter that the selection handler tests is `"single"` |
| Selection.SelectedRowsMembers | ModernDataGrid/components/DataGrid.tsx:517 | a shown record is a selected row exactly when its id is among the selected ids |
| Selection.SelectedRowsConcat | ModernDataGrid/components/DataGrid.tsx:517 | the selected rows keep the records' order |
| Selection.SelectedRowsEmpty | ModernDataGrid/components/DataGrid.tsx:517 | no row is selected exactly when no record's id is among the selected ids |
| Selection.SelectedRowsFirst | ModernDataGrid/components/DataGrid.tsx:517-518 | the first selected row is the first record, in record order, whose id is selected |
| Selection.RenderSelection | ModernDataGrid/components/DataGrid.tsx:512-519 | with the raw mode `"single"` the table receives `null` when no record is selected and otherwise the first selected record in record order; with any other mode it receives every selected row; the selection column is single exactly in single mode |
| Paging.CeilDiv | ModernDataGrid/components/DataGrid.tsx:591 | `Math.ceil(t / r)` for a positive `r`: the least `q` with `t <= r * q` |
| Paging.WithinMeansFirstRowExists | ModernDataGrid/components/DataGrid.tsx:591-607 | for a positive page size, a target page is within the page count exactly when its first row exists |
| Grid.DataGrid.constructor | ModernDataGrid/components/DataGrid.tsx:41-62 | the initial state: no records or selection, the default filter for every column, enabled unless `IsEnabled` says otherwise, page 1, no interval running |
| Grid.DataGrid.MapRecordsToState | ModernDataGrid/components/DataGrid.tsx:171-274 | without a dataset, or while it loads unless forced, nothing changes; with no sorted ids the next page is requested; otherwise the cache holds the fresh projection and `needsRefresh` is cleared only when records or columns differed |
| Grid.DataGrid.ApplyRecords | ModernDataGrid/components/DataGrid.tsx:258-273 | the `setState` updater installs the new records and columns; `needsRefresh` is cleared when either differed from the state and kept otherwise |
| Grid.DataGrid.ComponentDidUpdateColumns | ModernDataGrid/components/DataGrid.tsx:314-323 | when the headers changed and the rebuilt filters differ, they are installed with `needsRefresh` set and one refresh scheduled; otherwise nothing changes; filter keys stay distinct |
| Grid.DataGrid.OnSelectionChange | ModernDataGrid/components/DataGrid.tsx:423-442 | ignored unless `IsEnabled` is true; otherwise the normalised selection and its ids are stored and the ids are sent to the host |
| Grid.DataGrid.OnPage | ModernDataGrid/components/DataGrid.tsx:586-637 | the first matching branch fires: a new page size resets to page 1; a later page within the count loads the next page; an earlier non-negative page loads the previous page; another page loads page `target + 1` exactly; the current page does nothing |
| Grid.DataGrid.ClearRefreshInterval | ModernDataGrid/components/DataGrid.tsx:105-111 | a running interval is cleared and forgotten |
| Grid.DataGrid.CheckAndStartInterval | ModernDataGrid/components/DataGrid.tsx:89-103 | while a refresh is needed exactly one interval runs, an existing one being kept; otherwise none runs |
| Grid.DataGrid.ComponentWillUnmount | ModernDataGrid/components/DataGrid.tsx:85-87 | after teardown no interval timer is left running |

## Left out

- `Intl.NumberFormat`, `formatDate` and `JSON.stringify` of a cell value are outside code: their results are symbolic cells, so two different inputs that print the same text are different cells here.
- `formatDate` throwing on an invalid date is not modelled: date cells always hold the symbolic formatted value.
- Numbers are integers; fractional, NaN and infinite cell values are not modelled, and the paging count `totalResultCount / rows` is computed exactly rather than in floating point.
- Strings are sequences of code points, not UTF-16 code units, and `parseInt` is modelled without a radix argument and without numbers beyond integer precision.
- Objects are plain maps from keys to values: inherited prototype properties and the special `__proto__` key are not modelled, nor the key order JavaScript gives integer-like keys. This covers cell values, the parser's `configs` and per-field option objects (an entry or pair named `__proto__` sets a prototype in JavaScript, lines 153 and 156), and the previous filters read at line 279 (a column named `constructor` or `toString` reads an inherited, truthy value there).
- Formatting.LinkCells: numbers are unbounded integers whose text is written digit by digit; JavaScript's `String(n)` switches to exponent notation from 10^21 up and loses precision beyond 2^53, and neither is modelled.
- Filters store `JSON.stringify`-relevant order; the comparison `JSON.stringify(a) !== JSON.stringify(b)` is modelled as equality of ordered entries.
- Grid.DataGrid.MapRecordsToState: `setState` is taken to apply at once rather than batched with its updater function; the `isEqual` deep comparison is equality of display records.
- The other branches of `componentDidUpdate` (rerunning the projection on a changed dataset, sorted ids, filters or configuration; restarting the interval when `needsRefresh` flips; re-mapping when no records are shown) are calls of the modelled methods and are not modelled as one method.
- `componentDidMount`, `shouldComponentUpdate`, `saveCurrentParametersToState` and `hasRawProperty` compare host parameters and touch the DOM and `window`; they are not part of this model.
- `onGlobalFilterChange`, `renderHeader`, `getFieldValue`, `getRecordsFromContext`, `onRenderItemColumn` and the JSX of `render` are presentation; they are not part of this model.
- `forceRefreshDataset`'s 300 ms timeout, `notifyOutputChanged` and `forceUpdate` are one `ScheduleRefresh` log entry; the forced projection it later runs is `MapRecordsToState` with `force` set.
- The interval's 5-second callback is not modelled as a running timer; it is the `StartInterval` log entry.
- The paging object is always present: the `if (paging)` and `dataSet.paging && loadNextPage` guards are not modelled.
- Console logging and the `totalResultCount === -1` warning are not modelled.
