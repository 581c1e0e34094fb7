/**
  The flat row the report template receives for one history record, and the
  rows of a sequence of records.
*/
module ReportRows {
  import opened Wrappers
  import opened HistoryRecords

  /**
    One row of the report. A `None` in an `Option` field is Python's `False`.
    `sortKey` is the row's `seq` entry (`seq` is a Dafny keyword).
  */
  datatype ReportRow = ReportRow(
    description: string,
    vehicleType: string,
    colorId: string,
    vin: string,
    plate: string,
    newEngine: Option<string>,
    oldEngine: Option<string>,
    newColor: Option<string>,
    oldColor: Option<string>,
    newTire: Option<string>,
    oldTire: Option<string>,
    newBattery: Option<string>,
    oldBattery: Option<string>,
    oldVin: string,
    newVin: string,
    changeDate: Option<string>,
    workOrder: string,
    woCloseDate: Option<string>,
    remarks: string,
    sortKey: string)

  /** Python's `value or ""` on a text field that may be unset. */
  function OrEmpty(value: Option<string>): string
  {
    match value
    case None => ""
    case Some(text) => text
  }

  /** `link.name` on a many2one link: an empty link reads as False. */
  function NameOf(link: Option<NamedRef>): Option<string>
  {
    match link
    case None => None
    case Some(target) => target.name
  }

  /** `format_date(...) if date else False`. */
  function FormatIfSet(date: Option<Date>, formatDate: Date -> string): Option<string>
  {
    match date
    case None => None
    case Some(d) => Some(formatDate(d))
  }

  /** `rec.vehicle_id and rec.vehicle_id.name or ""`. */
  function VehicleName(rec: HistoryRecord): string
  {
    match rec.vehicle
    case None => ""
    case Some(v) => OrEmpty(v.name)
  }

  /**
    The row for record `rec` of the model selected by report type `c`. Only the
    before/after entries of `c` come from the record; `old_vin` and `new_vin` are
    always "". `formatDate` stands for `format_date` in the user's language.
  */
  function RowOf(c: Category, rec: HistoryRecord, formatDate: Date -> string): ReportRow
    requires CategoryOf(rec.change) == c
  {
    var description := VehicleName(rec);
    var ch := rec.change;
    ReportRow(
      description := description,
      vehicleType := if rec.vehicle.None? then "" else OrEmpty(NameOf(rec.vehicle.value.vehicleType)),
      colorId := if rec.vehicle.None? then "" else OrEmpty(NameOf(rec.vehicle.value.color)),
      vin := if rec.vehicle.None? then "" else OrEmpty(rec.vehicle.value.vinSn),
      plate := if rec.vehicle.None? then "" else OrEmpty(rec.vehicle.value.licensePlate),
      newEngine := if c == Engine then ch.newEngineNo else Some(""),
      oldEngine := if c == Engine then ch.previousEngineNo else Some(""),
      newColor := if c == Color then NameOf(ch.currentColor) else Some(""),
      oldColor := if c == Color then NameOf(ch.previousColor) else Some(""),
      newTire := if c == Tire then ch.newTireSize else Some(""),
      oldTire := if c == Tire then ch.previousTireSize else Some(""),
      newBattery := if c == Battery then ch.newBatterySize else Some(""),
      oldBattery := if c == Battery then ch.previousBatterySize else Some(""),
      oldVin := "",
      newVin := "",
      changeDate := FormatIfSet(rec.changedDate, formatDate),
      workOrder := if rec.workOrder.None? then "" else OrEmpty(rec.workOrder.value.name),
      woCloseDate := if rec.workOrder.None? then None else FormatIfSet(rec.workOrder.value.dateClose, formatDate),
      remarks := OrEmpty(rec.note),
      sortKey := description + "a")
  }

  /** One row per record, in record order. */
  function RowsOf(c: Category, records: seq<HistoryRecord>, formatDate: Date -> string): (rows: seq<ReportRow>)
    requires OfCategory(records, c)
    ensures |rows| == |records|
  {
    if records == [] then []
    else [RowOf(c, records[0], formatDate)] + RowsOf(c, records[1..], formatDate)
  }

  /** The k-th row is the row of the k-th record. */
  lemma {:induction false} RowsOfAt(c: Category, records: seq<HistoryRecord>, formatDate: Date -> string, k: nat)
    requires OfCategory(records, c) && k < |records|
    ensures RowsOf(c, records, formatDate)[k] == RowOf(c, records[k], formatDate)
    decreases k
  {
    if k > 0 {
      RowsOfAt(c, records[1..], formatDate, k - 1);
    }
  }

  /** A row is among the rows of `records` exactly when it is the row of one of them. */
  lemma {:induction false} RowsOfMembers(c: Category, records: seq<HistoryRecord>, formatDate: Date -> string)
    requires OfCategory(records, c)
    ensures forall row :: row in RowsOf(c, records, formatDate) <==> exists rec :: rec in records && row == RowOf(c, rec, formatDate)
    decreases |records|
  {
    if records != [] {
      RowsOfMembers(c, records[1..], formatDate);
      assert records == [records[0]] + records[1..];
    }
  }

  lemma {:induction false} RowsOfAppend(c: Category, a: seq<HistoryRecord>, b: seq<HistoryRecord>, formatDate: Date -> string)
    requires OfCategory(a, c) && OfCategory(b, c)
    ensures OfCategory(a + b, c)
    ensures RowsOf(c, a + b, formatDate) == RowsOf(c, a, formatDate) + RowsOf(c, b, formatDate)
    decreases |a|
  {
    if a == [] {
      assert a + b == b;
    } else {
      assert (a + b)[0] == a[0] && (a + b)[1..] == a[1..] + b;
      RowsOfAppend(c, a[1..], b, formatDate);
    }
  }

  /** The rows of one more record are the rows so far followed by its row. */
  lemma RowsOfSnoc(c: Category, records: seq<HistoryRecord>, j: nat, formatDate: Date -> string)
    requires OfCategory(records, c) && j < |records|
    ensures OfCategory(records[..j], c) && OfCategory(records[..j + 1], c)
    ensures RowsOf(c, records[..j + 1], formatDate) == RowsOf(c, records[..j], formatDate) + [RowOf(c, records[j], formatDate)]
  {
    assert records[..j + 1] == records[..j] + [records[j]];
    assert [records[j]][1..] == [];
    RowsOfAppend(c, records[..j], [records[j]], formatDate);
  }

  /** The before/after pair of one model, as a row shows it or as a record holds it. */
  datatype Values = Values(before: Option<string>, after: Option<string>)

  const Blank: Values := Values(Some(""), Some(""))

  /** The row's before/after entries for model `k`. */
  function RowValues(row: ReportRow, k: Category): Values
  {
    match k
    case Engine => Values(row.oldEngine, row.newEngine)
    case Color => Values(row.oldColor, row.newColor)
    case Tire => Values(row.oldTire, row.newTire)
    case Battery => Values(row.oldBattery, row.newBattery)
    case Vin => Values(Some(row.oldVin), Some(row.newVin))
  }

  /** The before/after values a record holds, colors read by name. */
  function RecordValues(ch: Change): Values
  {
    match ch
    case EngineChange(before, after) => Values(before, after)
    case ColorChange(before, after) => Values(NameOf(before), NameOf(after))
    case TireChange(before, after) => Values(before, after)
    case BatteryChange(before, after) => Values(before, after)
    case VinChange(before, after) => Values(before, after)
  }

  /**
    The row's before/after entries: model `c`'s pair holds the record's values,
    every other pair is "", and the VIN pair is "" even for a VIN history record.
  */
  predicate ShowsValuesOf(row: ReportRow, c: Category, ch: Change)
  {
    forall k :: RowValues(row, k) == if k == c && k != Vin then RecordValues(ch) else Blank
  }

  lemma RowShowsValues(c: Category, rec: HistoryRecord, formatDate: Date -> string)
    requires CategoryOf(rec.change) == c
    ensures ShowsValuesOf(RowOf(c, rec, formatDate), c, rec.change)
  {
  }

  /** A record without a vehicle yields "" for every vehicle-derived entry. */
  lemma RowWithoutVehicle(c: Category, rec: HistoryRecord, formatDate: Date -> string)
    requires CategoryOf(rec.change) == c && rec.vehicle.None?
    ensures var row := RowOf(c, rec, formatDate);
      row.description == "" && row.vehicleType == "" && row.colorId == "" && row.vin == "" && row.plate == ""
  {
  }

  /** Unlinking the vehicle's type blanks `vehicle_type` and changes nothing else. */
  lemma RowWithoutVehicleType(c: Category, rec: HistoryRecord, formatDate: Date -> string)
    requires CategoryOf(rec.change) == c && rec.vehicle.Some?
    ensures RowOf(c, rec.(vehicle := Some(rec.vehicle.value.(vehicleType := None))), formatDate)
         == RowOf(c, rec, formatDate).(vehicleType := "")
  {
  }

  /** Unlinking the vehicle's color blanks `color_id` and changes nothing else. */
  lemma RowWithoutVehicleColor(c: Category, rec: HistoryRecord, formatDate: Date -> string)
    requires CategoryOf(rec.change) == c && rec.vehicle.Some?
    ensures RowOf(c, rec.(vehicle := Some(rec.vehicle.value.(color := None))), formatDate)
         == RowOf(c, rec, formatDate).(colorId := "")
  {
  }

  /** The sort key, the dates, the work order and the remarks of a row. */
  lemma RowCommonEntries(c: Category, rec: HistoryRecord, formatDate: Date -> string)
    requires CategoryOf(rec.change) == c
    ensures var row := RowOf(c, rec, formatDate);
      && row.sortKey == row.description + "a"
      && (row.changeDate.None? <==> rec.changedDate.None?)
      && (row.woCloseDate.Some? <==> rec.workOrder.Some? && rec.workOrder.value.dateClose.Some?)
      && (rec.workOrder.None? ==> row.workOrder == "")
      && (rec.note.None? ==> row.remarks == "")
  {
  }
}
