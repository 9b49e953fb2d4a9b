/** The equipment-request page (`src/app/request-equipment/page.tsx`): the form's
    validation, the message it sends to `POST /api/requests`, and the confirmation it shows.
    Its item search box is `InventoryUi.SearchItems`. */
module RequestForm {
  import opened Wrappers
  import opened Schema
  import opened Http
  import RequestTypes
  import RequestApi

  /** The date-range field: absent until a date is picked; each end may be cleared again. */
  datatype DateRange = DateRange(from: Option<Time>, to: Option<Time>)

  /** The form's values. The quantity box parses its text with `parseInt`, which gives `NaN`
      (here `None`) for text that is not a number. */
  datatype Form = Form(requestorEmail: string, inventoryId: string, quantity: Option<int>,
                       dateRange: Option<DateRange>)

  /** The form starts with empty text, quantity 1 and no dates. */
  const Initial := Form("", "", Some(1), None)

  /** The paths a validation message can be attached to. */
  datatype Path = EmailPath | InventoryIdPath | QuantityPath | DateRangePath | FromPath | ToPath

  /** The form's schema, read the way its validator does: every field is checked; a missing
      date range is reported on the range itself; a missing end is reported on that end; and
      the "end after start" rule, reported on the end, runs only when both ends are present,
      since a missing value stops the checks of the object that holds it. */
  function Errors(f: Form, isEmail: string -> bool): (e: set<Path>)
    ensures EmailPath in e <==> !isEmail(f.requestorEmail)
    ensures InventoryIdPath in e <==> f.inventoryId == ""
    ensures QuantityPath in e <==> f.quantity.None? || f.quantity.value < 1
    ensures DateRangePath in e <==> f.dateRange.None?
    ensures FromPath in e <==> f.dateRange.Some? && f.dateRange.value.from.None?
    ensures ToPath in e <==>
              && f.dateRange.Some?
              && (f.dateRange.value.to.None? ||
                  (f.dateRange.value.from.Some? && f.dateRange.value.to.value <= f.dateRange.value.from.value))
  {
    (if isEmail(f.requestorEmail) then {} else {EmailPath})
    + (if f.inventoryId == "" then {InventoryIdPath} else {})
    + (if f.quantity.None? || f.quantity.value < 1 then {QuantityPath} else {})
    + match f.dateRange
      case None => {DateRangePath}
      case Some(DateRange(from, to)) =>
        (if from.None? then {FromPath} else {})
        + (if to.None? then {ToPath} else {})
        + (if from.Some? && to.Some? && !(to.value > from.value) then {ToPath} else {})
  }

  predicate Valid(f: Form, isEmail: string -> bool) {
    Errors(f, isEmail) == {}
  }

  /** A form that passes validation has a positive quantity and a start strictly before its end. */
  lemma ValidFormShape(f: Form, isEmail: string -> bool)
    requires Valid(f, isEmail)
    ensures isEmail(f.requestorEmail) && f.inventoryId != ""
    ensures f.quantity.Some? && f.quantity.value >= 1
    ensures f.dateRange.Some? && f.dateRange.value.from.Some? && f.dateRange.value.to.Some?
    ensures f.dateRange.value.from.value < f.dateRange.value.to.value
  {
    assert EmailPath !in Errors(f, isEmail) && QuantityPath !in Errors(f, isEmail);
    assert DateRangePath !in Errors(f, isEmail) && FromPath !in Errors(f, isEmail);
    assert ToPath !in Errors(f, isEmail);
  }

  /** The untouched form cannot be sent: no item and no dates are chosen. */
  lemma InitialFormInvalid(isEmail: string -> bool)
    ensures InventoryIdPath in Errors(Initial, isEmail) && DateRangePath in Errors(Initial, isEmail)
    ensures QuantityPath !in Errors(Initial, isEmail)
  {
  }

  /** Position `k` holds the first item with this id. */
  ghost predicate FirstWithId(items: seq<InventoryItem>, id: string, k: int) {
    0 <= k < |items| && items[k].id == id && forall j :: 0 <= j < k ==> items[j].id != id
  }

  /** Past a leading item with another id, the first match moves up by one place. */
  lemma FirstWithIdShifts(items: seq<InventoryItem>, id: string, k: int)
    requires |items| > 0 && items[0].id != id && FirstWithId(items[1..], id, k)
    ensures FirstWithId(items, id, k + 1) && items[k + 1] == items[1..][k]
  {
    assert forall j :: 1 <= j < k + 1 ==> items[j] == items[1..][j - 1];
  }

  /** `items.find(item => item.id === id)`: the first item with that id. */
  function Find(items: seq<InventoryItem>, id: string): (r: Option<InventoryItem>)
    ensures r.Some? <==> HasItem(items, id)
    ensures r.Some? ==> r.value in items && r.value.id == id
    ensures r.Some? ==> exists k :: FirstWithId(items, id, k) && items[k] == r.value
  {
    if |items| == 0 then None
    else if items[0].id == id then Some(items[0])
    else
      var rest := Find(items[1..], id);
      assert HasItem(items, id) <==> HasItem(items[1..], id) by {
        if HasItem(items, id) {
          var k :| 0 <= k < |items| && items[k].id == id;
          assert items[1..][k - 1] == items[k];
        }
        if HasItem(items[1..], id) {
          var k :| 0 <= k < |items[1..]| && items[1..][k].id == id;
          assert items[k + 1] == items[1..][k];
        }
      }
      assert rest.Some? ==> exists k :: FirstWithId(items, id, k) && items[k] == rest.value by {
        if rest.Some? {
          var k :| FirstWithId(items[1..], id, k) && items[1..][k] == rest.value;
          FirstWithIdShifts(items, id, k);
        }
      }
      rest
  }

  /** `handleSubmit`, run only for a valid form: the message names the chosen item as found in
      the page's list; when the list has no such item nothing is sent and the page stays as is.
      The confirmation is shown exactly when a message was sent and the response was ok. */
  function Submit(items: seq<InventoryItem>, f: Form, isEmail: string -> bool, ok: bool)
    : (r: (Option<Call<RequestTypes.CreateMessage>>, bool))
    ensures r.0.Some? <==> Valid(f, isEmail) && HasItem(items, f.inventoryId)
    ensures r.0.Some? ==>
              var m := r.0.value.body;
              && r.0.value.verb == Post && r.0.value.path == "/api/requests"
              && m.requestorEmail == f.requestorEmail && m.inventoryId == f.inventoryId
              && Some(m.quantity) == f.quantity
              && Some(m.startDate) == f.dateRange.value.from && Some(m.endDate) == f.dateRange.value.to
              && exists it :: it in items && it.id == f.inventoryId && it.name == m.inventoryItemName
    ensures r.1 <==> r.0.Some? && ok
  {
    if !Valid(f, isEmail) then (None, false)
    else
      ValidFormShape(f, isEmail);
      match Find(items, f.inventoryId)
      case None => (None, false)
      case Some(it) =>
        var m := RequestTypes.CreateMessage(f.requestorEmail, f.inventoryId, it.name,
                                            f.quantity.value, f.dateRange.value.from.value,
                                            f.dateRange.value.to.value);
        (Some(Call(Post, "/api/requests", m)), ok)
  }

  /** The JSON body the message becomes: `JSON.stringify` writes each date with `iso`. */
  function Wire(m: RequestTypes.CreateMessage, iso: Time -> string): (b: RequestApi.CreateBody)
    ensures b.requestorEmail == Value(m.requestorEmail) && b.inventoryId == Value(m.inventoryId)
    ensures b.inventoryItemName == Value(m.inventoryItemName) && b.quantity == Value(m.quantity)
    ensures b.startDate == Value(iso(m.startDate)) && b.endDate == Value(iso(m.endDate))
  {
    RequestApi.CreateBody(Value(m.requestorEmail), Value(m.inventoryId), Value(m.inventoryItemName),
                          Value(m.quantity), Value(iso(m.startDate)), Value(iso(m.endDate)))
  }

  /** What the page sends passes the server's field check whenever the address check refuses
      the empty text, the item list has no nameless item, and dates are written as non-empty
      text; against the same items the request is created as pending with the form's values,
      provided the quantity fits the column and the id is fresh. */
  lemma SubmittedFormIsAccepted(db: Store, f: Form, isEmail: string -> bool, ok: bool,
                                iso: Time -> string, newId: string, now: Time)
    requires !isEmail("")
    requires forall it :: it in db.items ==> it.name != ""
    requires forall t :: iso(t) != ""
    requires Submit(db.items, f, isEmail, ok).0.Some?
    ensures
      var body := Wire(Submit(db.items, f, isEmail, ok).0.value.body, iso);
      var (reply, _) := RequestApi.Post(db, body, newId, now);
      && !reply.MissingFields? && !reply.ItemNotFound?
      && (IsInt4(f.quantity.value) && !HasRequestId(db.requests, newId) ==>
            reply.Created? && reply.row.status == "pending" && reply.row.quantity >= 1
            && reply.row.requestorEmail == f.requestorEmail && reply.row.inventoryId == f.inventoryId)
  {
    ValidFormShape(f, isEmail);
    var m := Submit(db.items, f, isEmail, ok).0.value.body;
    var it :| it in db.items && it.id == f.inventoryId && it.name == m.inventoryItemName;
    assert f.requestorEmail != "";
  }
}
