/**
  The report wizard's form, Python truthiness of its values, the search domain
  built from it, and the ORM's search over one store.
*/
module SearchDomain {
  import opened Wrappers
  import opened HistoryRecords

  /** A value held by the form dictionary, as Python sees it. */
  datatype FormValue =
    | Falsy                     // None or False
    | DateValue(date: Date)     // a date; dates are always truthy
    | IdValue(id: int)          // a record id; 0 is falsy
    | TextValue(text: string)   // a string; "" is falsy

  /** The form dictionary (`data["form"]`). */
  type Form = map<string, FormValue>

  /** `form.get(key)`: a missing key reads as None. */
  function Lookup(form: Form, key: string): FormValue
  {
    if key in form then form[key] else Falsy
  }

  /** Python's `bool(v)`. */
  predicate Truthy(v: FormValue)
  {
    match v
    case Falsy => false
    case DateValue(_) => true
    case IdValue(id) => id != 0
    case TextValue(text) => text != ""
  }

  /** The forms the model covers: a truthy bound is a date and a truthy fleet is a record id. */
  predicate WellTyped(form: Form)
  {
    && (Truthy(Lookup(form, "date_from")) ==> Lookup(form, "date_from").DateValue?)
    && (Truthy(Lookup(form, "date_to")) ==> Lookup(form, "date_to").DateValue?)
    && (Truthy(Lookup(form, "fleet_id")) ==> Lookup(form, "fleet_id").IdValue?)
  }

  /** One domain leaf. */
  datatype Condition =
    | ChangedOnOrAfter(from: Date)    // ("changed_date", ">=", from)
    | ChangedOnOrBefore(to: Date)     // ("changed_date", "<=", to)
    | VehicleIs(vehicleId: int)       // ("vehicle_id", "=", vehicleId)

  /** A leaf holds of a record; an unset field (SQL NULL) meets no comparison. */
  predicate Holds(cond: Condition, rec: HistoryRecord)
  {
    match cond
    case ChangedOnOrAfter(from) => rec.changedDate.Some? && from.day <= rec.changedDate.value.day
    case ChangedOnOrBefore(to) => rec.changedDate.Some? && rec.changedDate.value.day <= to.day
    case VehicleIs(id) => rec.vehicle.Some? && rec.vehicle.value.id == id
  }

  /** A domain is the conjunction of its leaves. */
  predicate Admits(domain: seq<Condition>, rec: HistoryRecord)
  {
    forall cond :: cond in domain ==> Holds(cond, rec)
  }

  /** The leaves the form asks for: one per truthy filter key, carrying that key's value. */
  predicate Requested(form: Form, cond: Condition)
  {
    match cond
    case ChangedOnOrAfter(from) => Lookup(form, "date_from") == DateValue(from)
    case ChangedOnOrBefore(to) => Lookup(form, "date_to") == DateValue(to)
    case VehicleIs(id) => id != 0 && Lookup(form, "fleet_id") == IdValue(id)
  }

  /** The filter the form describes, read directly off its keys. */
  predicate WithinFilter(form: Form, rec: HistoryRecord)
    requires WellTyped(form)
  {
    var from, to, fleet := Lookup(form, "date_from"), Lookup(form, "date_to"), Lookup(form, "fleet_id");
    && (Truthy(from) ==> rec.changedDate.Some? && from.date.day <= rec.changedDate.value.day)
    && (Truthy(to) ==> rec.changedDate.Some? && rec.changedDate.value.day <= to.date.day)
    && (Truthy(fleet) ==> rec.vehicle.Some? && rec.vehicle.value.id == fleet.id)
  }

  /** The domain `get_vehicle_history` builds. */
  function DomainFor(form: Form): (domain: seq<Condition>)
    requires WellTyped(form)
    ensures forall cond :: cond in domain <==> Requested(form, cond)
    ensures domain == [] <==>
      !Truthy(Lookup(form, "date_from")) && !Truthy(Lookup(form, "date_to")) && !Truthy(Lookup(form, "fleet_id"))
    ensures forall rec :: Admits(domain, rec) <==> WithinFilter(form, rec)
  {
    var from, to, fleet := Lookup(form, "date_from"), Lookup(form, "date_to"), Lookup(form, "fleet_id");
    var domain :=
      (if Truthy(from) then [ChangedOnOrAfter(from.date)] else [])
      + (if Truthy(to) then [ChangedOnOrBefore(to.date)] else [])
      + (if Truthy(fleet) then [VehicleIs(fleet.id)] else []);
    assert forall rec :: Admits(domain, rec) <==> WithinFilter(form, rec) by {
      forall rec ensures Admits(domain, rec) <==> WithinFilter(form, rec) {
        if Truthy(from) { assert ChangedOnOrAfter(from.date) in domain; }
        if Truthy(to) { assert ChangedOnOrBefore(to.date) in domain; }
        if Truthy(fleet) { assert VehicleIs(fleet.id) in domain; }
      }
    }
    domain
  }

  /** Builds the domain leaf by leaf, as the source does. */
  method BuildDomain(form: Form) returns (domain: seq<Condition>)
    requires WellTyped(form)
    ensures domain == DomainFor(form)
  {
    domain := [];
    if Truthy(Lookup(form, "date_from")) {
      domain := domain + [ChangedOnOrAfter(Lookup(form, "date_from").date)];
    }
    if Truthy(Lookup(form, "date_to")) {
      domain := domain + [ChangedOnOrBefore(Lookup(form, "date_to").date)];
    }
    if Truthy(Lookup(form, "fleet_id")) {
      domain := domain + [VehicleIs(Lookup(form, "fleet_id").id)];
    }
  }

  /** `model.search(domain)`: the records of a store that the domain admits, in store order. */
  function Search(records: seq<HistoryRecord>, domain: seq<Condition>): (found: seq<HistoryRecord>)
    ensures |found| <= |records|
    ensures forall rec :: rec in found <==> rec in records && Admits(domain, rec)
    ensures multiset(found) <= multiset(records)
  {
    if records == [] then []
    else
      assert records == [records[0]] + records[1..];
      (if Admits(domain, records[0]) then [records[0]] else []) + Search(records[1..], domain)
  }

  /** Searching keeps store order: it maps concatenation to concatenation. */
  lemma {:induction false} SearchAppend(a: seq<HistoryRecord>, b: seq<HistoryRecord>, domain: seq<Condition>)
    ensures Search(a + b, domain) == Search(a, domain) + Search(b, domain)
    decreases |a|
  {
    if a == [] {
      assert a + b == b;
    } else {
      assert (a + b)[1..] == a[1..] + b;
      SearchAppend(a[1..], b, domain);
    }
  }

  /** On a single record, searching keeps it exactly when the domain admits it. */
  lemma SearchSingle(rec: HistoryRecord, domain: seq<Condition>)
    ensures Search([rec], domain) == if Admits(domain, rec) then [rec] else []
  {
    assert [rec][1..] == [];
  }

  /** An empty domain admits every record, so it finds the whole store. */
  lemma {:induction false} SearchEmptyDomain(records: seq<HistoryRecord>)
    ensures Search(records, []) == records
    decreases |records|
  {
    if records != [] {
      SearchEmptyDomain(records[1..]);
    }
  }

  /** A form carrying only `date_from` yields a single lower-bound leaf. */
  lemma DateFromDomain(from: Date)
    ensures DomainFor(map["date_from" := DateValue(from)]) == [ChangedOnOrAfter(from)]
  {
    var form: Form := map["date_from" := DateValue(from)];
    assert Lookup(form, "date_to") == Falsy && Lookup(form, "fleet_id") == Falsy;
  }

  /**
    A lower bound is inclusive: with `date_from` on day 0, records changed on
    days -1, 0 and 152 leave the last two, in store order.
  */
  lemma DateFromExample(before: HistoryRecord, on: HistoryRecord, after: HistoryRecord)
    requires before.changedDate == Some(Date(-1))
    requires on.changedDate == Some(Date(0))
    requires after.changedDate == Some(Date(152))
    ensures Search([before, on, after], DomainFor(map["date_from" := DateValue(Date(0))])) == [on, after]
  {
    assert [before] + [on, after] == [before, on, after];
    assert [on] + [after] == [on, after];
    DateFromDomain(Date(0));
    var domain := [ChangedOnOrAfter(Date(0))];
    assert !Admits(domain, before) && Admits(domain, on) && Admits(domain, after);
    SearchSingle(before, domain);
    SearchSingle(on, domain);
    SearchSingle(after, domain);
    SearchAppend([on], [after], domain);
    assert Search([on, after], domain) == [on, after];
    SearchAppend([before], [on, after], domain);
  }

  /** Searching a store of one model finds records of that model only. */
  lemma SearchOfCategory(records: seq<HistoryRecord>, domain: seq<Condition>, c: Category)
    requires OfCategory(records, c)
    ensures OfCategory(Search(records, domain), c)
  {
  }
}
