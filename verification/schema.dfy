/** The Postgres tables the portal stores its records in, with the column defaults,
    NOT NULL constraints, primary and unique keys, integer width and the one cascading
    foreign key the schema declares (`src/db/schema.ts`). An insert either yields the
    stored row or is refused by the database, which the route handlers turn into a 500. */
module Schema {
  import opened Wrappers

  /** A timestamp, in milliseconds since the epoch. */
  type Time = int

  /** Postgres `integer` is a signed 32-bit column. */
  const Int4Min: int := -0x8000_0000
  const Int4Max: int := 0x7FFF_FFFF

  predicate IsInt4(n: int) {
    Int4Min <= n <= Int4Max
  }

  // ---------------------------------------------------------------- rows

  datatype User = User(
    id: string, name: string, email: string, emailVerified: bool,
    image: string, role: string, createdAt: Time, updatedAt: Time)

  datatype InventoryItem = InventoryItem(
    id: string, name: string, description: Option<string>, quantity: int,
    createdAt: Time, updatedAt: Time)

  datatype EquipmentRequest = EquipmentRequest(
    id: string, requestorEmail: string, inventoryId: string, inventoryItemName: string,
    quantity: int, startDate: string, endDate: string, status: string,
    denialReason: Option<string>, createdAt: Time, updatedAt: Time)

  datatype Asset = Asset(
    id: string, name: string, description: Option<string>, lng: real, lat: real,
    color: string, createdAt: Time, updatedAt: Time)

  datatype Complaint = Complaint(
    id: string, name: Option<string>, email: Option<string>, description: string,
    location: string, imageUrl: Option<string>, status: string, reviewed: bool,
    createdAt: Time, updatedAt: Time, resolved: Option<Time>)

  // ---------------------------------------------------------------- insert values
  // A column left out of `.values({...})` is `Missing` and takes its default; an explicit
  // `null` is `Null`; the NOT NULL columns refuse `Null`.

  datatype UserValues = UserValues(
    id: string, name: string, email: string, emailVerified: bool,
    image: Field<string>, role: Field<string>, createdAt: Time, updatedAt: Time)

  datatype ItemValues = ItemValues(
    id: string, name: string, description: Option<string>, quantity: Field<int>,
    createdAt: Time, updatedAt: Time)

  datatype RequestValues = RequestValues(
    id: string, requestorEmail: string, inventoryId: string, inventoryItemName: string,
    quantity: int, startDate: string, endDate: string, status: Field<string>,
    denialReason: Option<string>, createdAt: Time, updatedAt: Time)

  datatype AssetValues = AssetValues(
    id: string, name: string, description: Option<string>, lng: Field<real>, lat: Field<real>,
    color: string)

  datatype ComplaintValues = ComplaintValues(
    id: string, name: Option<string>, email: Option<string>, description: string,
    location: string, imageUrl: Option<string>, status: Field<string>, reviewed: Field<bool>,
    resolved: Option<Time>)

  /** A NOT NULL column with a default: the default when left out, refused when `null`. */
  function NotNullWithDefault<T>(f: Field<T>, default: T): (r: Option<T>)
    ensures f.Missing? ==> r == Some(default)
    ensures f.Null? ==> r.None?
    ensures f.Value? ==> r == Some(f.v)
  {
    match f
    case Missing => Some(default)
    case Null => None
    case Value(v) => Some(v)
  }

  // ---------------------------------------------------------------- user

  /** Inserts a user; `image` defaults to "", `role` to "field_staff", and a second
      account with an e-mail already present is refused (`user_email_unique`). */
  function InsertUser(users: seq<User>, v: UserValues): (r: Option<seq<User>>)
    ensures r.Some? <==> v.image != Null && v.role != Null
                         && (forall u :: u in users ==> u.email != v.email)
                         && (forall u :: u in users ==> u.id != v.id)
    ensures r.Some? ==> |r.value| == |users| + 1 && r.value[..|users|] == users
    ensures r.Some? ==> r.value[|users|].role == (if v.role.Missing? then "field_staff" else v.role.v)
  {
    var image := NotNullWithDefault(v.image, "");
    var role := NotNullWithDefault(v.role, "field_staff");
    if image.None? || role.None? then None
    else if exists u :: u in users && (u.email == v.email || u.id == v.id) then None
    else
      var row := User(v.id, v.name, v.email, v.emailVerified, image.value, role.value,
                      v.createdAt, v.updatedAt);
      Some(users + [row])
  }

  predicate UniqueEmails(users: seq<User>) {
    forall i, j :: 0 <= i < j < |users| ==> users[i].email != users[j].email
  }

  /** The unique key on `user.email` is an invariant of every insert. */
  lemma InsertUserKeepsEmailsUnique(users: seq<User>, v: UserValues)
    requires UniqueEmails(users)
    requires InsertUser(users, v).Some?
    ensures UniqueEmails(InsertUser(users, v).value)
  {
    var r := InsertUser(users, v).value;
    forall i, j | 0 <= i < j < |r| ensures r[i].email != r[j].email {
      if j == |users| {
        assert r[i] in users;
      } else {
        assert r[i] == users[i] && r[j] == users[j];
      }
    }
  }

  // ---------------------------------------------------------------- inventory item

  function ItemRow(v: ItemValues): (r: Option<InventoryItem>)
    ensures r.Some? <==> v.quantity != Null && (v.quantity.Value? ==> IsInt4(v.quantity.v))
    ensures r.Some? ==> r.value.quantity == (if v.quantity.Missing? then 0 else v.quantity.v)
    ensures r.Some? ==> r.value.id == v.id && r.value.name == v.name
                        && r.value.description == v.description
                        && r.value.createdAt == v.createdAt && r.value.updatedAt == v.updatedAt
  {
    var q := NotNullWithDefault(v.quantity, 0);
    if q.None? || !IsInt4(q.value) then None
    else Some(InventoryItem(v.id, v.name, v.description, q.value, v.createdAt, v.updatedAt))
  }

  // ---------------------------------------------------------------- equipment request

  function RequestRow(v: RequestValues): (r: Option<EquipmentRequest>)
    ensures r.Some? <==> v.status != Null && IsInt4(v.quantity)
    ensures r.Some? ==> r.value.status == (if v.status.Missing? then "pending" else v.status.v)
    ensures r.Some? ==> r.value.denialReason == v.denialReason && r.value.quantity == v.quantity
  {
    var status := NotNullWithDefault(v.status, "pending");
    if status.None? || !IsInt4(v.quantity) then None
    else Some(EquipmentRequest(v.id, v.requestorEmail, v.inventoryId, v.inventoryItemName,
                               v.quantity, v.startDate, v.endDate, status.value,
                               v.denialReason, v.createdAt, v.updatedAt))
  }

  /** The inventory table together with the requests that reference it. */
  datatype Store = Store(items: seq<InventoryItem>, requests: seq<EquipmentRequest>)

  predicate HasItem(items: seq<InventoryItem>, id: string) {
    exists i :: 0 <= i < |items| && items[i].id == id
  }

  predicate HasRequestId(requests: seq<EquipmentRequest>, id: string) {
    exists i :: 0 <= i < |requests| && requests[i].id == id
  }

  /** Deleting an item (`ON DELETE CASCADE` on `equipment_request.inventory_id`) removes the
      item and every request that references it, and nothing else. */
  function DeleteItem(db: Store, id: string): (r: Store)
    ensures !HasItem(r.items, id)
    ensures forall q :: q in r.requests ==> q.inventoryId != id
    ensures forall it :: it in db.items && it.id != id ==> it in r.items
    ensures forall it :: it in r.items ==> it in db.items
    ensures forall q :: q in db.requests && q.inventoryId != id <==> q in r.requests
  {
    var items := FilterItems(db.items, id);
    var requests := FilterRequests(db.requests, id);
    Store(items, requests)
  }

  function FilterItems(items: seq<InventoryItem>, id: string): (r: seq<InventoryItem>)
    ensures forall it :: it in r <==> it in items && it.id != id
    ensures !HasItem(r, id)
  {
    if |items| == 0 then []
    else if items[0].id == id then FilterItems(items[1..], id)
    else [items[0]] + FilterItems(items[1..], id)
  }

  function FilterRequests(requests: seq<EquipmentRequest>, itemId: string): (r: seq<EquipmentRequest>)
    ensures forall q :: q in r <==> q in requests && q.inventoryId != itemId
  {
    if |requests| == 0 then []
    else if requests[0].inventoryId == itemId then FilterRequests(requests[1..], itemId)
    else [requests[0]] + FilterRequests(requests[1..], itemId)
  }

  /** The foreign key and the primary key of `equipment_request`: every request references an
      existing item, and no two requests share an id. */
  predicate Consistent(db: Store) {
    && (forall q :: q in db.requests ==> HasItem(db.items, q.inventoryId))
    && DistinctRequestIds(db.requests)
  }

  predicate DistinctRequestIds(requests: seq<EquipmentRequest>) {
    forall i, j :: 0 <= i < j < |requests| ==> requests[i].id != requests[j].id
  }

  /** The cascade keeps the foreign key intact: no request is left pointing at the deleted item. */
  lemma DeleteItemKeepsConsistent(db: Store, id: string)
    requires Consistent(db)
    ensures Consistent(DeleteItem(db, id))
  {
    var r := DeleteItem(db, id);
    forall q | q in r.requests ensures HasItem(r.items, q.inventoryId) {
      var k :| 0 <= k < |db.items| && db.items[k].id == q.inventoryId;
      assert db.items[k] in r.items;
      var m :| 0 <= m < |r.items| && r.items[m] == db.items[k];
    }
    SubsequenceKeepsDistinctIds(db.requests, id);
    assert r.requests == FilterRequests(db.requests, id);
  }

  lemma {:induction false} SubsequenceKeepsDistinctIds(requests: seq<EquipmentRequest>, itemId: string)
    requires DistinctRequestIds(requests)
    ensures DistinctRequestIds(FilterRequests(requests, itemId))
  {
    if |requests| > 0 {
      SubsequenceKeepsDistinctIds(requests[1..], itemId);
      var rest := FilterRequests(requests[1..], itemId);
      forall q | q in rest ensures q.id != requests[0].id {
        var j :| 0 <= j < |requests[1..]| && requests[1..][j] == q;
        assert requests[j + 1] == q;
      }
      var r := FilterRequests(requests, itemId);
      if requests[0].inventoryId == itemId {
        assert r == rest;
      } else {
        assert r == [requests[0]] + rest;
        forall i, j | 0 <= i < j < |r| ensures r[i].id != r[j].id {
          if i == 0 {
            assert r[j] == rest[j - 1];
            assert r[j] in rest;
          } else {
            assert r[i] == rest[i - 1] && r[j] == rest[j - 1];
          }
        }
      }
    }
  }

  // ---------------------------------------------------------------- asset

  /** `lng` and `lat` are NOT NULL without a default, so leaving one out or sending `null`
      is refused; `createdAt` and `updatedAt` come from two separate `new Date()` calls. */
  function AssetRow(v: AssetValues, createdClock: Time, updatedClock: Time): (r: Option<Asset>)
    ensures r.Some? <==> v.lng.Value? && v.lat.Value?
    ensures r.Some? ==> r.value.id == v.id && r.value.name == v.name && r.value.color == v.color
                        && r.value.description == v.description
                        && r.value.lng == v.lng.v && r.value.lat == v.lat.v
  {
    if v.lng.Value? && v.lat.Value? then
      Some(Asset(v.id, v.name, v.description, v.lng.v, v.lat.v, v.color, createdClock, updatedClock))
    else None
  }

  // ---------------------------------------------------------------- complaint

  /** `status` defaults to "pending", `reviewed` to false; `resolved` is nullable. */
  function ComplaintRow(v: ComplaintValues, createdClock: Time, updatedClock: Time): (r: Option<Complaint>)
    ensures r.Some? <==> v.status != Null && v.reviewed != Null
    ensures r.Some? ==> r.value.status == (if v.status.Missing? then "pending" else v.status.v)
    ensures r.Some? ==> r.value.reviewed == (v.reviewed.Value? && v.reviewed.v)
    ensures r.Some? ==> r.value.resolved == v.resolved && r.value.id == v.id
                        && r.value.name == v.name && r.value.email == v.email
                        && r.value.description == v.description && r.value.location == v.location
                        && r.value.imageUrl == v.imageUrl
  {
    var status := NotNullWithDefault(v.status, "pending");
    var reviewed := NotNullWithDefault(v.reviewed, false);
    if status.None? || reviewed.None? then None
    else Some(Complaint(v.id, v.name, v.email, v.description, v.location, v.imageUrl,
                        status.value, reviewed.value, createdClock, updatedClock, v.resolved))
  }

  predicate UniqueComplaintIds(cs: seq<Complaint>) {
    forall i, j :: 0 <= i < j < |cs| ==> cs[i].id != cs[j].id
  }
}
