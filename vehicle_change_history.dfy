/**
  The vehicle change history report: `get_vehicle_history`, which searches the
  history model selected by the form's `report` entry, turns each record into a
  row and sorts the rows by their `seq` key, and `_get_report_values`, the entry
  point that checks its context before calling it.
*/
module VehicleChangeHistory {
  import opened Wrappers
  import opened HistoryRecords
  import opened SearchDomain
  import opened ReportRows
  import opened StableSort

  /** The model whose tag equals the form's `report` entry; none when that entry is unset or unknown. */
  function ActiveCategory(form: Form): (active: Option<Category>)
    ensures forall c :: active == Some(c) <==> Lookup(form, "report") == TextValue(Tag(c))
  {
    var report := Lookup(form, "report");
    assert forall c, d :: Tag(c) == Tag(d) ==> c == d by {
      forall c, d ensures Tag(c) == Tag(d) ==> c == d {
        TagInjective(c, d);
      }
    }
    if report == TextValue(Tag(Engine)) then Some(Engine)
    else if report == TextValue(Tag(Color)) then Some(Color)
    else if report == TextValue(Tag(Tire)) then Some(Tire)
    else if report == TextValue(Tag(Battery)) then Some(Battery)
    else if report == TextValue(Tag(Vin)) then Some(Vin)
    else None
  }

  /** The rows before sorting: one per record of the selected store that the form's domain admits, in search order. */
  function HistoryRows(db: Database, form: Form, formatDate: Date -> string): seq<ReportRow>
    requires WellFormed(db) && WellTyped(form)
  {
    match ActiveCategory(form)
    case None => []
    case Some(c) => RowsOf(c, Search(Store(db, c), DomainFor(form)), formatDate)
  }

  /** The loop `for rec in records: vehicle_change_history.append(values)`, appending to `history`. */
  method AppendRows(history: seq<ReportRow>, c: Category, records: seq<HistoryRecord>, formatDate: Date -> string)
    returns (built: seq<ReportRow>)
    requires OfCategory(records, c)
    ensures built == history + RowsOf(c, records, formatDate)
  {
    built := history;
    var j := 0;
    while j < |records|
      invariant 0 <= j <= |records|
      invariant OfCategory(records[..j], c)
      invariant built == history + RowsOf(c, records[..j], formatDate)
    {
      var row := RowOf(c, records[j], formatDate);
      RowsOfSnoc(c, records, j, formatDate);
      assert history + RowsOf(c, records[..j], formatDate) + [row] == history + (RowsOf(c, records[..j], formatDate) + [row]);
      built := built + [row];
      j := j + 1;
    }
    assert records[..j] == records;
  }

  /**
    `get_vehicle_history(date_range)`: walks the table of models, searches the one
    whose tag is the form's `report`, appends one row per record found, and sorts
    the rows stably by `seq` when there are any.
  */
  method GetVehicleHistory(db: Database, form: Form, formatDate: Date -> string) returns (rows: seq<ReportRow>)
    requires WellFormed(db) && WellTyped(form)
    ensures StablySorted(rows, HistoryRows(db, form, formatDate))
    ensures ActiveCategory(form).None? ==> rows == []
  {
    var domain := BuildDomain(form);
    ghost var active := ActiveCategory(form);
    var built: seq<ReportRow> := [];
    var i := 0;
    while i < |Categories|
      invariant 0 <= i <= |Categories|
      invariant built == if active.Some? && active.value in Categories[..i] then HistoryRows(db, form, formatDate) else []
    {
      var c := Categories[i];
      assert Categories[..i + 1] == Categories[..i] + [c];
      if Lookup(form, "report") == TextValue(Tag(c)) {
        CategoriesDistinct(i);
        HistoryRowsSelected(db, form, formatDate, c);
        var records := Search(Store(db, c), domain);
        built := AppendRows(built, c, records, formatDate);
      }
      i := i + 1;
    }
    if active.Some? {
      CategoriesListed(active.value);
    }
    assert Categories[..i] == Categories;
    if built != [] {
      rows := SortBySeq(built);
    } else {
      rows := built;
    }
  }

  /** With `report` naming model `c`, the rows are those of the records the search finds in `c`'s store. */
  lemma HistoryRowsSelected(db: Database, form: Form, formatDate: Date -> string, c: Category)
    requires WellFormed(db) && WellTyped(form)
    requires Lookup(form, "report") == TextValue(Tag(c))
    ensures ActiveCategory(form) == Some(c)
    ensures OfCategory(Search(Store(db, c), DomainFor(form)), c)
    ensures HistoryRows(db, form, formatDate) == RowsOf(c, Search(Store(db, c), DomainFor(form)), formatDate)
  {
    SearchOfCategory(Store(db, c), DomainFor(form), c);
  }

  /** With no `report`, or one that names no model, nothing is searched and there are no rows. */
  lemma HistoryRowsUnselected(db: Database, form: Form, formatDate: Date -> string)
    requires WellFormed(db) && WellTyped(form)
    requires forall c :: Lookup(form, "report") != TextValue(Tag(c))
    ensures HistoryRows(db, form, formatDate) == []
  {
  }

  /** Exactly one row per record the search finds in the selected store, in search order. */
  lemma HistoryRowsPerRecord(db: Database, form: Form, formatDate: Date -> string, c: Category)
    requires WellFormed(db) && WellTyped(form)
    requires Lookup(form, "report") == TextValue(Tag(c))
    ensures var found := Search(Store(db, c), DomainFor(form));
      && |HistoryRows(db, form, formatDate)| == |found|
      && forall k :: 0 <= k < |found| ==> HistoryRows(db, form, formatDate)[k] == RowOf(c, found[k], formatDate)
  {
    var found := Search(Store(db, c), DomainFor(form));
    var rows := RowsOf(c, found, formatDate);
    assert HistoryRows(db, form, formatDate) == rows by {
      assert ActiveCategory(form) == Some(c);
    }
    forall k | 0 <= k < |found|
      ensures rows[k] == RowOf(c, found[k], formatDate)
    {
      RowsOfAt(c, found, formatDate, k);
    }
  }

  /** The report has exactly one row per record the search finds in the selected store. */
  lemma ReportedRowCount(db: Database, form: Form, formatDate: Date -> string, c: Category, rows: seq<ReportRow>)
    requires WellFormed(db) && WellTyped(form)
    requires Lookup(form, "report") == TextValue(Tag(c))
    requires StablySorted(rows, HistoryRows(db, form, formatDate))
    ensures |rows| == |Search(Store(db, c), DomainFor(form))|
  {
    HistoryRowsPerRecord(db, form, formatDate, c);
    assert |multiset(rows)| == |multiset(HistoryRows(db, form, formatDate))|;
  }

  /**
    The rows are exactly the rows of the records of the selected store that meet
    the form's filter: no other store is searched and no such record is missed.
  */
  lemma HistoryRowsFromSelectedStore(db: Database, form: Form, formatDate: Date -> string, c: Category)
    requires WellFormed(db) && WellTyped(form)
    requires Lookup(form, "report") == TextValue(Tag(c))
    ensures forall row :: row in HistoryRows(db, form, formatDate) <==>
      exists rec :: rec in Store(db, c) && WithinFilter(form, rec) && row == RowOf(c, rec, formatDate)
  {
    var found := Search(Store(db, c), DomainFor(form));
    assert HistoryRows(db, form, formatDate) == RowsOf(c, found, formatDate) by {
      assert ActiveCategory(form) == Some(c);
    }
    RowsOfMembers(c, found, formatDate);
  }

  /**
    What the report shows: each row it returns is the row of one record of the
    selected store that meets the filter, whose before/after entries are that
    model's values and "" for every other model (the VIN pair always "").
  */
  lemma ReportedRowShape(db: Database, form: Form, formatDate: Date -> string, c: Category, rows: seq<ReportRow>, row: ReportRow)
    requires WellFormed(db) && WellTyped(form)
    requires Lookup(form, "report") == TextValue(Tag(c))
    requires StablySorted(rows, HistoryRows(db, form, formatDate))
    requires row in rows
    ensures exists rec :: && rec in Store(db, c) && WithinFilter(form, rec) && row == RowOf(c, rec, formatDate)
                          && ShowsValuesOf(row, c, rec.change)
  {
    var history := HistoryRows(db, form, formatDate);
    assert row in multiset(history);
    assert row in history;
    HistoryRowsFromSelectedStore(db, form, formatDate, c);
    var rec :| rec in Store(db, c) && WithinFilter(form, rec) && row == RowOf(c, rec, formatDate);
    RowShowsValues(c, rec, formatDate);
  }

  /** Any two results of `get_vehicle_history` on the same stores and form are equal. */
  lemma GetVehicleHistoryDeterministic(db: Database, form: Form, formatDate: Date -> string, a: seq<ReportRow>, b: seq<ReportRow>)
    requires WellFormed(db) && WellTyped(form)
    requires StablySorted(a, HistoryRows(db, form, formatDate)) && StablySorted(b, HistoryRows(db, form, formatDate))
    ensures a == b
  {
    StableSortUnique(a, b);
  }

  /** The entries of the execution context that the entry point reads. */
  datatype Context = Context(activeModel: Option<string>, activeId: Option<int>)

  predicate ModelGiven(ctx: Context)
  {
    ctx.activeModel.Some? && ctx.activeModel.value != ""
  }

  predicate IdGiven(ctx: Context)
  {
    ctx.activeId.Some? && ctx.activeId.value != 0
  }

  /** The report's `data` argument: its `form` entry is None when missing, None or False. */
  datatype ReportData = ReportData(form: Option<Form>)

  /** `data.get("form")` is truthy: present and a non-empty dictionary. */
  predicate FormGiven(data: ReportData)
  {
    data.form.Some? && |data.form.value| != 0
  }

  datatype ReportError =
    | NoReportData         // `data` left at its default None: `data.get` raises AttributeError
    | FormContentMissing   // the UserError "Form content is missing, this report cannot be printed."

  /** The context handed to the report template. */
  datatype ReportValues = ReportValues(
    docIds: seq<int>,
    docModel: string,
    data: Form,
    vehicleHistory: seq<ReportRow>)

  /**
    `_get_report_values(docids, data)`: fails unless the form, the active model
    and the active id are all given; otherwise returns the form and the rows of
    `get_vehicle_history(data["form"])`. `reportIds` is the report's own `self.ids`.
  */
  method GetReportValues(reportIds: seq<int>, data: Option<ReportData>, ctx: Context, db: Database, formatDate: Date -> string)
    returns (result: Result<ReportValues, ReportError>)
    requires WellFormed(db)
    requires data.Some? && FormGiven(data.value) && ModelGiven(ctx) && IdGiven(ctx) ==> WellTyped(data.value.form.value)
    ensures data.None? ==> result == Failure(NoReportData)
    ensures data.Some? ==>
      (result.Failure? <==> !FormGiven(data.value) || !ModelGiven(ctx) || !IdGiven(ctx))
    ensures data.Some? && result.Failure? ==> result.error == FormContentMissing
    ensures data.Some? && result.Success? ==>
      && FormGiven(data.value)
      && result.value.docIds == reportIds
      && result.value.docModel == ctx.activeModel.value
      && result.value.data == data.value.form.value
      && StablySorted(result.value.vehicleHistory, HistoryRows(db, data.value.form.value, formatDate))
  {
    if data.None? {
      return Failure(NoReportData);
    }
    if !FormGiven(data.value) || !ModelGiven(ctx) || !IdGiven(ctx) {
      return Failure(FormContentMissing);
    }
    var form := data.value.form.value;
    var model := ctx.activeModel.value;
    var rows := GetVehicleHistory(db, form, formatDate);
    result := Success(ReportValues(reportIds, model, form, rows));
  }
}
