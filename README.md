# Vehicle change history report

A Dafny model of the fleet-operations "vehicle change history" report
(`fleet_operations/report/vehicle_change_history.py`). The report has two
operations:

- `get_vehicle_history(date_range)` builds a search domain from the form's
  `date_from`, `date_to` and `fleet_id` entries. It walks the table of the five
  history models (engine, color, tire, battery, VIN) and searches only the one
  whose tag equals the form's `report` entry. It turns every record found into a
  row dictionary, then sorts the rows stably by their `seq` key.
- `_get_report_values(docids, data)` refuses to print unless the form, the
  active model and the active id are all given. Otherwise it returns the
  template context with the rows of `get_vehicle_history`.

Modules:

- `Wrappers`: `Option` and `Result`.
- `StringOrder`: Python's `<` on strings (lexicographic by code point), with its
  order laws.
- `HistoryRecords`: vehicles, work orders, the five kinds of change, the history
  records and the five stores, plus the table of models and their tags.
- `SearchDomain`: the form (Python truthiness, `dict.get` on a missing key) and
  the domain. The domain is built both as a specification function and as the
  source's step-by-step method. Search is an order-preserving filter.
- `ReportRows`: the row built for one record, and the rows for a sequence of
  records.
- `StableSort`: Python's stable `sorted(..., key=seq)`. It is specified as sorted,
  a permutation, and keeping the relative order of rows with equal keys. An
  insertion sort meets that specification, and the specification determines its
  result uniquely.
- `VehicleChangeHistory`: the two operations. `GetVehicleHistory` keeps the
  source's loop over the model table, its inner append loop and the final sort.

`format_date` (with the environment and the context's `lang`) is a parameter
`formatDate: Date -> string`. The dictionary key `seq` is the field `sortKey`,
because `seq` is a Dafny keyword.

Facts about the source that the model keeps:

- The refusal in `_get_report_values` raises `UserError` (line 104). It also
  fires when `form` is present but an empty dictionary (line 96).
- When `data` is left at its default `None`, `data.get` (line 96) raises
  `AttributeError`. The model returns the distinct error `NoReportData`.
- The engine, color, tire and battery entries of a row copy the record's raw
  field values (lines 67-74). An unset value stays false (`None` here) rather
  than becoming `""`. Only the `... or ""` entries default to `""`: the chained vehicle and
  work-order lookups and `rec.note or ""` (line 82).

## Model

| member | source | states |
|---|---|---|
| StringOrder.Below | fleet_operations/report/vehicle_change_history.py:87-90 | Python's `<` on the `seq` keys, lexicographic by code point with a proper prefix first; its order laws are the five lemmas below |
| StringOrder.BelowIrreflexive | fleet_operations/report/vehicle_change_history.py:87-90 | no key sorts before itself |
| StringOrder.BelowTransitive | fleet_operations/report/vehicle_change_history.py:87-90 | the string order on keys is transitive |
| StringOrder.BelowTotal | fleet_operations/report/vehicle_change_history.py:87-90 | any two distinct keys are ordered one way or the other |
| StringOrder.BelowAsymmetric | fleet_operations/report/vehicle_change_history.py:87-90 | two keys are never each below the other |
| StringOrder.NotAboveTransitive | fleet_operations/report/vehicle_change_history.py:87-90 | "not below" (the sorted order's `<=`) is transitive |
| HistoryRecords.TagInjective | fleet_operations/report/vehicle_change_history.py:18-24 | distinct models have distinct tags, so a `report` value selects at most one model |
| HistoryRecords.CategoriesListed | fleet_operations/report/vehicle_change_history.py:18-24 | every history model is in the table that the loop walks |
| HistoryRecords.CategoriesDistinct | fleet_operations/report/vehicle_change_history.py:18-35 | no model appears twice in the table, so the selected store is searched once |
| SearchDomain.Lookup | fleet_operations/report/vehicle_change_history.py:26-31 | `date_range.get(key)`: a missing key reads as a false value; used by every lemma about the form |
| SearchDomain.Truthy | fleet_operations/report/vehicle_change_history.py:26-31 | Python truthiness of a form value, which decides each `if` of the domain build; its meaning for the domain is stated by `DomainFor` |
| SearchDomain.Holds | fleet_operations/report/vehicle_change_history.py:27-31 | what one domain leaf means for a record: `>=`/`<=` on the change date and `=` on the vehicle, an unset field meeting no comparison; stated for the whole domain by `DomainFor` |
| SearchDomain.Admits | fleet_operations/report/vehicle_change_history.py:25-36 | a domain is the conjunction of its leaves, so the empty domain admits every record; `DomainFor` equates it with the form's filter and `Search` keeps exactly the admitted records |
| SearchDomain.DomainFor | fleet_operations/report/vehicle_change_history.py:25-31 | a leaf is in the domain exactly when its form key is truthy, and it carries that key's value; the domain is empty exactly when no filter key is truthy; a record meets the domain exactly when it meets each requested bound and the vehicle match |
| SearchDomain.BuildDomain | fleet_operations/report/vehicle_change_history.py:25-31 | appending leaf by leaf yields the domain `DomainFor` describes |
| SearchDomain.Search | fleet_operations/report/vehicle_change_history.py:36 | the search finds some of the store's records: exactly those the domain admits, each no more often than it is stored |
| SearchDomain.SearchAppend | fleet_operations/report/vehicle_change_history.py:36 | searching keeps store order: the search of a concatenation is the concatenation of the searches |
| SearchDomain.SearchSingle | fleet_operations/report/vehicle_change_history.py:36 | a single record is found exactly when the domain admits it |
| SearchDomain.SearchEmptyDomain | fleet_operations/report/vehicle_change_history.py:25-36 | an empty domain finds the whole store, in order |
| SearchDomain.DateFromDomain | fleet_operations/report/vehicle_change_history.py:26-27 | a form with only `date_from` yields the single leaf `changed_date >= date_from` |
| SearchDomain.DateFromExample | fleet_operations/report/vehicle_change_history.py:26-36 | the lower bound is inclusive: records changed on days -1, 0 and 152 against `date_from` day 0 leave the last two, in order |
| SearchDomain.SearchOfCategory | fleet_operations/report/vehicle_change_history.py:19-36 | searching a store of one model finds records of that model only |
| ReportRows.RowOf | fleet_operations/report/vehicle_change_history.py:38-84 | the row dictionary built for one record; its properties are stated by `ReportRows.RowShowsValues`, `ReportRows.RowWithoutVehicle`, `ReportRows.RowWithoutVehicleType`, `ReportRows.RowWithoutVehicleColor` and `ReportRows.RowCommonEntries` |
| ReportRows.RowsOf | fleet_operations/report/vehicle_change_history.py:37-85 | one row per record |
| ReportRows.RowsOfAt | fleet_operations/report/vehicle_change_history.py:37-85 | the k-th row is the row of the k-th record |
| ReportRows.RowsOfMembers | fleet_operations/report/vehicle_change_history.py:37-85 | a row is produced exactly when it is the row of some record |
| ReportRows.RowsOfAppend | fleet_operations/report/vehicle_change_history.py:37-85 | the rows of a concatenation of records are the concatenation of their rows |
| ReportRows.RowsOfSnoc | fleet_operations/report/vehicle_change_history.py:37-85 | handling one more record appends exactly its row |
| ReportRows.RowShowsValues | fleet_operations/report/vehicle_change_history.py:67-76 | the active model's before/after pair holds the record's values; every other model's pair is `""`; the VIN pair is always `""`, even for the VIN report |
| ReportRows.RowWithoutVehicle | fleet_operations/report/vehicle_change_history.py:38-66 | with no vehicle, description, type, color, VIN and plate are all `""` |
| ReportRows.RowWithoutVehicleType | fleet_operations/report/vehicle_change_history.py:55-58 | with no vehicle type, only the type entry becomes `""`; the rest of the row is unchanged |
| ReportRows.RowWithoutVehicleColor | fleet_operations/report/vehicle_change_history.py:59-62 | with no vehicle color, only the color entry becomes `""`; the rest of the row is unchanged |
| ReportRows.RowCommonEntries | fleet_operations/report/vehicle_change_history.py:38-83 | `seq` is the description followed by `"a"`; the change date is false exactly when the record has none; the close date is set exactly when the work order and its close date both are; work order and remarks are `""` when absent |
| StableSort.WithKeyMembers | fleet_operations/report/vehicle_change_history.py:87-90 | the rows with a given key are exactly the rows carrying that key |
| StableSort.WithKeyAppend | fleet_operations/report/vehicle_change_history.py:87-90 | picking the rows with a key distributes over concatenation |
| StableSort.WithKeyAbsent | fleet_operations/report/vehicle_change_history.py:87-90 | no row carries the key, so none is picked |
| StableSort.WithKeySingle | fleet_operations/report/vehicle_change_history.py:87-90 | a single row is picked exactly when it carries the key |
| StableSort.WithKeyHead | fleet_operations/report/vehicle_change_history.py:87-90 | picking rows by key walks the rows in order |
| StableSort.InsertKeepsSorted | fleet_operations/report/vehicle_change_history.py:87-90 | inserting a row after every key not above it and before every key above it keeps the rows sorted |
| StableSort.InsertKeepsKeyOrder | fleet_operations/report/vehicle_change_history.py:87-90 | inserting a row ahead of rows with other keys puts it last among the rows with its own key |
| StableSort.InsertStable | fleet_operations/report/vehicle_change_history.py:87-90 | inserting into sorted rows keeps them sorted, adds exactly that row, and puts it after every row with an equal key |
| StableSort.SortBySeq | fleet_operations/report/vehicle_change_history.py:87-90 | the result is non-decreasing in `seq`, a permutation of the input, and keeps input order among rows with equal `seq` |
| StableSort.FirstIsLeast | fleet_operations/report/vehicle_change_history.py:87-90 | no row of a sorted sequence has a key below the first row's |
| StableSort.SortedTail | fleet_operations/report/vehicle_change_history.py:87-90 | the tail of a sorted sequence is sorted |
| StableSort.StableSortUnique | fleet_operations/report/vehicle_change_history.py:87-90 | two sorted sequences that agree row for row on every key's rows are equal, so a stable sort has one possible result |
| VehicleChangeHistory.ActiveCategory | fleet_operations/report/vehicle_change_history.py:18-35 | a model is selected exactly when the form's `report` equals its tag |
| VehicleChangeHistory.HistoryRows | fleet_operations/report/vehicle_change_history.py:33-85 | the list built before sorting: the rows of the selected store's search result, empty when no model is selected; stated by `VehicleChangeHistory.HistoryRowsSelected`, `VehicleChangeHistory.HistoryRowsUnselected`, `VehicleChangeHistory.HistoryRowsPerRecord` and `VehicleChangeHistory.HistoryRowsFromSelectedStore` |
| VehicleChangeHistory.AppendRows | fleet_operations/report/vehicle_change_history.py:37-85 | the inner loop appends the rows of the records, in order, to the rows built so far |
| VehicleChangeHistory.GetVehicleHistory | fleet_operations/report/vehicle_change_history.py:16-91 | the result is the stable sort by `seq` of the rows of the records the search finds in the selected store, and is empty when no model is selected |
| VehicleChangeHistory.HistoryRowsSelected | fleet_operations/report/vehicle_change_history.py:33-37 | with `report` naming a model, the rows are those of that model's search result |
| VehicleChangeHistory.HistoryRowsUnselected | fleet_operations/report/vehicle_change_history.py:33-91 | with `report` absent or naming no model, there are no rows |
| VehicleChangeHistory.HistoryRowsPerRecord | fleet_operations/report/vehicle_change_history.py:36-85 | there are exactly as many rows as records found, and the k-th row is the k-th record's |
| VehicleChangeHistory.ReportedRowCount | fleet_operations/report/vehicle_change_history.py:36-91 | the sorted report has exactly as many rows as the search finds records in the selected store |
| VehicleChangeHistory.HistoryRowsFromSelectedStore | fleet_operations/report/vehicle_change_history.py:25-37 | a row is built exactly when it is the row of a record of the selected store that meets the form's filter |
| VehicleChangeHistory.ReportedRowShape | fleet_operations/report/vehicle_change_history.py:37-90 | every returned row is the row of a record of the selected store that meets the filter, and shows that model's values and `""` for the others |
| VehicleChangeHistory.GetVehicleHistoryDeterministic | fleet_operations/report/vehicle_change_history.py:87-90 | any two results for the same stores and form are equal |
| VehicleChangeHistory.GetReportValues | fleet_operations/report/vehicle_change_history.py:94-116 | fails exactly when the form, the active model or the active id is falsy (or `data` is `None`), an unregistered model name being left out; otherwise returns the report ids, the active model, the form itself and `get_vehicle_history(form)` |

## Left out

- The ORM (`self.env[...]`, record sets, related-field fetching) is not modelled: each history model is a sequence of records and `search` an order-preserving filter over it.
- Odoo's default search order is not modelled: the order of each store's sequence is taken as given.
- Record equality is value equality: two identical records of a store are not told apart.
- `format_date`, the environment and the context's `lang` are not modelled: they are a foreign library, and formatting is the parameter `formatDate`.
- Dates are whole day numbers, compared as integers.
- Form values other than the ones modelled are left out (`SearchDomain.WellTyped`): a truthy `date_from`/`date_to` is taken to be a date (`DateValue`, whatever its encoding) and a truthy `fleet_id` a record id. Other values, such as a date given as text or a vehicle given by name, are not modelled, whether the ORM would convert them, name-search them or reject them.
- Python's Timsort itself is not modelled: `StableSort.SortBySeq` is an insertion sort, and `StableSort.StableSortUnique` shows that any stable sort gives the same result.
- The translation call `_` and the message text of the `UserError` are not modelled; the refusal is the error value `FormContentMissing`.
- VehicleChangeHistory.GetReportValues: does not model the `docs` record set (the `browse` of the active record) or the `time` module in the returned context, which only the QWeb template uses; the `docids` argument is unused by the source and is not a parameter; an `active_model` that names no registered model makes `self.env[model]` (line 107) raise, which the model does not capture: it returns the context.
