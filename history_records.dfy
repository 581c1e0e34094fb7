/**
  The records the report reads: fleet vehicles, work orders and the five
  change-history models (engine, color, tire, battery, VIN), each of which is
  one store the report can search.
*/
module HistoryRecords {
  import opened Wrappers

  /** A calendar date, as a day number: the report only compares dates. */
  datatype Date = Date(day: int)

  /** A related record shown by its `name` (a vehicle type or a color); the name may be unset. */
  datatype NamedRef = NamedRef(name: Option<string>)

  /** The fields of `fleet.vehicle` that the report reads. */
  datatype Vehicle = Vehicle(
    id: int,
    name: Option<string>,
    vehicleType: Option<NamedRef>,  // vechical_type_id
    color: Option<NamedRef>,        // vehical_color_id
    vinSn: Option<string>,          // vin_sn
    licensePlate: Option<string>)   // license_plate

  /** A work order linked to a history entry. */
  datatype WorkOrder = WorkOrder(name: Option<string>, dateClose: Option<Date>)

  /** The five history models, one per report type. */
  datatype Category = Engine | Color | Tire | Battery | Vin

  /** The order in which the report walks its table of models. */
  const Categories: seq<Category> := [Engine, Color, Tire, Battery, Vin]

  /** The report-type tag that selects each model. */
  function Tag(c: Category): string
  {
    match c
    case Engine => "engine_history"
    case Color => "color_history"
    case Tire => "tire_history"
    case Battery => "battery_history"
    case Vin => "vin_history"
  }

  lemma TagInjective(c: Category, d: Category)
    ensures Tag(c) == Tag(d) ==> c == d
  {
    if c != d {
      // The tags of different models already differ in their first letter or in their length.
      assert Tag(c)[0] != Tag(d)[0] || |Tag(c)| != |Tag(d)|;
    }
  }

  lemma CategoriesListed(c: Category)
    ensures c in Categories
  {
  }

  /** The table lists each model once. */
  lemma CategoriesDistinct(i: nat)
    requires i < |Categories|
    ensures Categories[i] !in Categories[..i]
  {
    assert Categories[..i] == [Engine, Color, Tire, Battery, Vin][..i];
  }

  /** The before/after values that each history model carries. */
  datatype Change =
    | EngineChange(previousEngineNo: Option<string>, newEngineNo: Option<string>)
    | ColorChange(previousColor: Option<NamedRef>, currentColor: Option<NamedRef>)
    | TireChange(previousTireSize: Option<string>, newTireSize: Option<string>)
    | BatteryChange(previousBatterySize: Option<string>, newBatterySize: Option<string>)
    | VinChange(previousVin: Option<string>, newVin: Option<string>)

  /** The model a record's values belong to. */
  function CategoryOf(ch: Change): Category
  {
    match ch
    case EngineChange(_, _) => Engine
    case ColorChange(_, _) => Color
    case TireChange(_, _) => Tire
    case BatteryChange(_, _) => Battery
    case VinChange(_, _) => Vin
  }

  /** One history entry: the fields all five models share, and its own before/after values. */
  datatype HistoryRecord = HistoryRecord(
    vehicle: Option<Vehicle>,       // vehicle_id
    changedDate: Option<Date>,      // changed_date
    workOrder: Option<WorkOrder>,   // workorder_id
    note: Option<string>,
    change: Change)

  /** The five stores, each in the order the ORM's search returns them. */
  datatype Database = Database(
    engine: seq<HistoryRecord>,
    color: seq<HistoryRecord>,
    tire: seq<HistoryRecord>,
    battery: seq<HistoryRecord>,
    vin: seq<HistoryRecord>)

  function Store(db: Database, c: Category): seq<HistoryRecord>
  {
    match c
    case Engine => db.engine
    case Color => db.color
    case Tire => db.tire
    case Battery => db.battery
    case Vin => db.vin
  }

  /** Every record in `records` belongs to model `c`. */
  predicate OfCategory(records: seq<HistoryRecord>, c: Category)
  {
    forall r :: r in records ==> CategoryOf(r.change) == c
  }

  /** Each store holds records of its own model only, as the ORM guarantees. */
  predicate WellFormed(db: Database)
  {
    forall c :: OfCategory(Store(db, c), c)
  }
}
