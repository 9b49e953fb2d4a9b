/** `src/app/api/inventory/route.ts`: listing and searching inventory items, and creating one.
    Both handlers refuse a caller without a signed-in user before reading anything else. */
module InventoryApi {
  import opened Wrappers
  import opened Schema
  import opened Text
  import Ordering
  import Lists

  /** The signed-in user's id, when `session?.user` is present. */
  type SessionUser = Option<string>

  function CreatedAt(it: InventoryItem): int {
    it.createdAt
  }

  /** `name ILIKE '%s%' OR description ILIKE '%s%'`; a null description matches nothing. */
  predicate SearchHit(search: string, it: InventoryItem) {
    Matches(it.name, search) || MatchesOptional(it.description, search)
  }

  /** A term with none of `LIKE`'s pattern characters: the wildcards `%` and `_`, and the
      escape character `\`. For such a term the pattern `%term%` is a plain substring test. */
  predicate PlainTerm(term: string) {
    forall i :: 0 <= i < |term| ==> term[i] != '%' && term[i] != '_' && term[i] != '\\'
  }

  predicate Selected(search: Option<string>, it: InventoryItem) {
    search.None? || search.value == "" || SearchHit(search.value, it)
  }

  datatype GetReply = Unauthorized | Items(rows: seq<InventoryItem>)

  /** `GET /api/inventory[?search=s]`: 401 without a user; otherwise the items whose name or
      present description contains the term ignoring case (all items for an absent or empty
      term), newest first. */
  function Get(user: SessionUser, items: seq<InventoryItem>, search: Option<string>): (r: GetReply)
    ensures r.Unauthorized? <==> user.None?
    ensures r.Items? ==> Ordering.SortedDesc(r.rows, CreatedAt)
    ensures r.Items? ==> forall it :: multiset(r.rows)[it] ==
                           if Selected(search, it) then multiset(items)[it] else 0
    ensures r.Items? ==> forall it :: it in r.rows <==> it in items && Selected(search, it)
  {
    if user.None? then Unauthorized
    else
      var kept := Lists.Filter(items, it => Selected(search, it));
      var sorted := Ordering.SortDesc(kept, CreatedAt);
      assert forall it :: it in sorted <==> it in multiset(sorted);
      Items(sorted)
  }

  /** The parsed JSON body of `POST /api/inventory`. */
  datatype CreateItemBody = CreateItemBody(name: Field<string>, description: Field<string>, quantity: Field<int>)

  datatype PostReply =
    | NotSignedIn                 // 401
    | MissingFields               // 400 "Name and quantity are required"
    | Created(item: InventoryItem)  // 201 with the inserted row
    | Failed                      // 500: the insert threw

  function Code(r: PostReply): int {
    match r
    case NotSignedIn => 401
    case MissingFields => 400
    case Created(_) => 201
    case Failed => 500
  }

  /** `POST /api/inventory`. The guard rejects a falsy name or an ABSENT quantity only, so
      0 and negative quantities are stored; a `null` quantity passes the guard and is then
      refused by the NOT NULL column (500), as is one outside the 32-bit column. An empty or
      absent description is stored as null. */
  function Post(user: SessionUser, items: seq<InventoryItem>, body: CreateItemBody, newId: string, now: Time)
    : (r: (PostReply, seq<InventoryItem>))
    ensures r.0.NotSignedIn? <==> user.None?
    ensures r.0.MissingFields? <==> user.Some? && (!TruthyText(body.name) || body.quantity.Missing?)
    ensures r.0.Created? <==> user.Some? && TruthyText(body.name) && body.quantity.Value?
                              && IsInt4(body.quantity.v) && !HasItem(items, newId)
    ensures r.0.Created? ==>
              var it := r.0.item;
              && it.id == newId && it.name == body.name.v && it.quantity == body.quantity.v
              && it.description == TextOrNull(body.description)
              && it.createdAt == now && it.updatedAt == now
              && r.1 == items + [it]
    ensures !r.0.Created? ==> r.1 == items
  {
    if user.None? then (NotSignedIn, items)
    else if !TruthyText(body.name) || body.quantity.Missing? then (MissingFields, items)
    else
      var values := ItemValues(newId, body.name.v, TextOrNull(body.description),
                               body.quantity, now, now);
      match ItemRow(values)
      case None => (Failed, items)
      case Some(it) =>
        if HasItem(items, newId) then (Failed, items) else (Created(it), items + [it])
  }

  /** Every item has a non-empty name. */
  predicate NamesNonEmpty(items: seq<InventoryItem>) {
    forall it :: it in items ==> it.name != ""
  }

  /** The creation route never stores an item without a name. */
  lemma PostKeepsNamesNonEmpty(user: SessionUser, items: seq<InventoryItem>, body: CreateItemBody,
                               newId: string, now: Time)
    requires NamesNonEmpty(items)
    ensures NamesNonEmpty(Post(user, items, body, newId, now).1)
  {
  }
}
