/** `src/app/api/requests/route.ts`: listing equipment requests and creating one. */
module RequestApi {
  import opened Wrappers
  import opened Schema
  import Ordering
  import Lists

  // ---------------------------------------------------------------- GET

  function CreatedAt(q: EquipmentRequest): int {
    q.createdAt
  }

  /** The status filter: `if (status)` skips it for a missing or empty parameter. */
  predicate Selected(status: Option<string>, q: EquipmentRequest) {
    status.None? || status.value == "" || q.status == status.value
  }

  /** `GET /api/requests[?status=s]`: the requests with that status (all of them when the
      parameter is absent or empty), newest first. */
  function List(rows: seq<EquipmentRequest>, status: Option<string>): (r: seq<EquipmentRequest>)
    ensures Ordering.SortedDesc(r, CreatedAt)
    ensures forall q :: multiset(r)[q] == if Selected(status, q) then multiset(rows)[q] else 0
    ensures forall q :: q in r <==> q in rows && Selected(status, q)
    ensures status.Some? && status.value != "" ==> forall q :: q in r ==> q.status == status.value
  {
    var kept := Lists.Filter(rows, q => Selected(status, q));
    var sorted := Ordering.SortDesc(kept, CreatedAt);
    assert forall q :: q in sorted <==> q in multiset(sorted);
    sorted
  }

  // ---------------------------------------------------------------- POST

  /** The parsed JSON body of `POST /api/requests`. */
  datatype CreateBody = CreateBody(
    requestorEmail: Field<string>, inventoryId: Field<string>, inventoryItemName: Field<string>,
    quantity: Field<int>, startDate: Field<string>, endDate: Field<string>)

  datatype PostReply =
    | MissingFields                     // 400 "All fields are required"
    | ItemNotFound                      // 404 "Inventory item not found"
    | Created(row: EquipmentRequest)    // 201 with the inserted row
    | Failed                            // 500: the insert threw

  function Code(r: PostReply): int {
    match r
    case MissingFields => 400
    case ItemNotFound => 404
    case Created(_) => 201
    case Failed => 500
  }

  /** `POST /api/requests`. Only falsy fields are rejected (so quantity 0 is, but a negative
      quantity or one above the item's stock is not), the item must exist, the row is inserted
      as `pending` with the client's item name and dates as sent, and the inventory table is
      never written. `newId` is the `uuidv4()` value and `now` the clock reading. */
  function Post(db: Store, body: CreateBody, newId: string, now: Time): (r: (PostReply, Store))
    ensures r.0.MissingFields? <==>
              !TruthyText(body.requestorEmail) || !TruthyText(body.inventoryId)
              || !TruthyText(body.inventoryItemName) || !TruthyNumber(body.quantity)
              || !TruthyText(body.startDate) || !TruthyText(body.endDate)
    ensures r.0.ItemNotFound? <==> !r.0.MissingFields? && !HasItem(db.items, body.inventoryId.v)
    ensures r.0.Created? <==> !r.0.MissingFields? && HasItem(db.items, body.inventoryId.v)
                              && IsInt4(body.quantity.v) && !HasRequestId(db.requests, newId)
    ensures r.0.Created? ==>
              var q := r.0.row;
              && q.id == newId && q.status == "pending" && q.denialReason.None?
              && q.createdAt == now && q.updatedAt == now
              && q.requestorEmail == body.requestorEmail.v && q.inventoryId == body.inventoryId.v
              && q.inventoryItemName == body.inventoryItemName.v && q.quantity == body.quantity.v
              && q.startDate == body.startDate.v && q.endDate == body.endDate.v
              && r.1.requests == db.requests + [q]
    ensures !r.0.Created? ==> r.1 == db
    ensures r.1.items == db.items
  {
    if !TruthyText(body.requestorEmail) || !TruthyText(body.inventoryId)
       || !TruthyText(body.inventoryItemName) || !TruthyNumber(body.quantity)
       || !TruthyText(body.startDate) || !TruthyText(body.endDate)
    then (MissingFields, db)
    else if !HasItem(db.items, body.inventoryId.v) then (ItemNotFound, db)
    else
      var values := RequestValues(newId, body.requestorEmail.v, body.inventoryId.v,
                                  body.inventoryItemName.v, body.quantity.v,
                                  body.startDate.v, body.endDate.v, Value("pending"),
                                  None, now, now);
      match RequestRow(values)
      case None => (Failed, db)
      case Some(row) =>
        if HasRequestId(db.requests, newId) then (Failed, db)
        else (Created(row), db.(requests := db.requests + [row]))
  }

  /** No stock comparison exists at creation: any non-zero 32-bit quantity is accepted for an
      existing item, whatever that item holds, and the stored dates need not be ordered. */
  lemma {:induction false} CreationIgnoresStockAndDates(db: Store, body: CreateBody, newId: string, now: Time, k: int)
    requires TruthyText(body.requestorEmail) && TruthyText(body.inventoryId)
    requires 0 <= k < |db.items| && db.items[k].id == body.inventoryId.v
    requires TruthyText(body.inventoryItemName) && TruthyText(body.startDate) && TruthyText(body.endDate)
    requires body.quantity.Value? && body.quantity.v != 0 && IsInt4(body.quantity.v)
    requires !HasRequestId(db.requests, newId)
    ensures Post(db, body, newId, now).0.Created?
    ensures Post(db, body, newId, now).1.items[k].quantity == db.items[k].quantity
  {
    assert HasItem(db.items, body.inventoryId.v);
  }

  /** Creation keeps the request table consistent: the new row references an item that
      exists, and its id is fresh. */
  lemma PostKeepsConsistent(db: Store, body: CreateBody, newId: string, now: Time)
    requires Consistent(db)
    ensures Consistent(Post(db, body, newId, now).1)
  {
    var (reply, after) := Post(db, body, newId, now);
    if reply.Created? {
      var rows := after.requests;
      assert rows[|rows| - 1] == reply.row;
      forall i, j | 0 <= i < j < |rows| ensures rows[i].id != rows[j].id {
        if j == |rows| - 1 {
          assert rows[i] == db.requests[i];
        } else {
          assert rows[i] == db.requests[i] && rows[j] == db.requests[j];
        }
      }
    }
  }
}
