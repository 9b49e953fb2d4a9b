/** The inventory screens: the item table's search box, stock badge and delete action
    (`src/components/inventory/inventory-table.tsx`), the edit dialog
    (`src/components/inventory/edit-item-dialog.tsx`), and the summary figures of the
    inventory page (`src/app/inventory/page.tsx`). */
module InventoryUi {
  import opened Wrappers
  import opened Schema
  import opened Text
  import opened Http
  import Lists
  import InventoryApi

  // ---------------------------------------------------------------- search box

  /** The search box of the item table and of the equipment-request page: no filtering for an
      empty term, otherwise the items whose name, or whose non-empty description, contains the
      term ignoring case. */
  function SearchItems(items: seq<InventoryItem>, term: string): (r: seq<InventoryItem>)
    ensures forall it :: it in r <==> it in items && (term == "" || InventoryApi.SearchHit(term, it))
    ensures forall it :: multiset(r)[it] ==
              if term == "" || InventoryApi.SearchHit(term, it) then multiset(items)[it] else 0
    ensures |r| <= |items|
    ensures Lists.IsSubsequence(r, items)
  {
    if term == "" then Lists.IsSubsequenceRefl(items); items else Lists.Filter(items, it => InventoryApi.SearchHit(term, it))
  }

  /** The empty-term shortcut changes nothing: filtering with the empty term keeps every item. */
  lemma {:induction false} EmptyTermShortcutAgrees(items: seq<InventoryItem>)
    ensures SearchItems(items, "") == Lists.Filter(items, it => InventoryApi.SearchHit("", it))
  {
    forall it | it in items ensures InventoryApi.SearchHit("", it) {
      MatchesEmpty(it.name);
    }
    Lists.FilterKeepsAll(items, it => InventoryApi.SearchHit("", it));
  }

  /** For a term without pattern characters, searching in the browser over the full list holds
      the same items, with the same multiplicities, as asking the server to search. */
  lemma ClientSearchAgreesWithServer(user: string, items: seq<InventoryItem>, term: string)
    requires InventoryApi.PlainTerm(term)
    ensures
      var all := InventoryApi.Get(Some(user), items, None);
      var searched := InventoryApi.Get(Some(user), items, Some(term));
      all.Items? && searched.Items? && multiset(SearchItems(all.rows, term)) == multiset(searched.rows)
  {
    var all := InventoryApi.Get(Some(user), items, None).rows;
    var searched := InventoryApi.Get(Some(user), items, Some(term)).rows;
    var local := SearchItems(all, term);
    forall it ensures multiset(local)[it] == multiset(searched)[it] {
      assert InventoryApi.Selected(None, it);
    }
  }

  // ---------------------------------------------------------------- stock badge

  datatype StockBadge = OutOfStock | LowStock | InStock

  /** `getStockBadge`: out of stock at exactly zero, low at two or fewer (negative stock
      included), in stock above two. */
  function Badge(quantity: int): (b: StockBadge)
    ensures b == OutOfStock <==> quantity == 0
    ensures b == LowStock <==> quantity != 0 && quantity <= 2
    ensures b == InStock <==> quantity > 2
  {
    if quantity == 0 then OutOfStock
    else if quantity <= 2 then LowStock
    else InStock
  }

  // ---------------------------------------------------------------- page summary

  /** The items the table badges as out of stock or low. */
  predicate Flagged(it: InventoryItem) {
    Badge(it.quantity) != InStock
  }

  predicate LowStock5(it: InventoryItem) {
    it.quantity <= 5
  }

  function Quantity(it: InventoryItem): int {
    it.quantity
  }

  /** `lowStockCount`: the items holding five or fewer. */
  function LowStockCount(items: seq<InventoryItem>): (n: nat)
    ensures n <= |items|
  {
    Lists.Count(items, LowStock5)
  }

  /** `totalQuantity`: the sum of every item's quantity. */
  function TotalQuantity(items: seq<InventoryItem>): (t: int)
    ensures |items| == 0 ==> t == 0
  {
    Lists.SumBy(items, Quantity)
  }

  /** Adding items adds their quantities to the total. */
  lemma TotalQuantityAdds(a: seq<InventoryItem>, b: seq<InventoryItem>)
    ensures TotalQuantity(a + b) == TotalQuantity(a) + TotalQuantity(b)
  {
    Lists.SumByAppend(a, b, Quantity);
  }

  /** The total does not depend on the order the rows arrive in (the route sorts them by
      creation time, the search may drop some): the same items in any order give the same total. */
  lemma TotalIgnoresOrder(a: seq<InventoryItem>, b: seq<InventoryItem>)
    requires multiset(a) == multiset(b)
    ensures TotalQuantity(a) == TotalQuantity(b)
  {
    Lists.SumByPermutation(a, b, Quantity);
  }

  /** The page's low-stock figure (five or fewer) counts every item the table badges as out
      of stock or low, and possibly more. */
  lemma BadgedItemsAreCounted(items: seq<InventoryItem>)
    ensures Lists.Count(items, Flagged) <= LowStockCount(items)
  {
    Lists.CountMonotone(items, Flagged, LowStock5);
  }

  /** With no negative stock, the total is at least any one item's quantity. */
  lemma TotalBoundsEachItem(items: seq<InventoryItem>)
    requires forall it :: it in items ==> it.quantity >= 0
    ensures TotalQuantity(items) >= 0
    ensures forall i :: 0 <= i < |items| ==> items[i].quantity <= TotalQuantity(items)
  {
    Lists.SumByBoundsTerms(items, Quantity);
  }

  /** Creating an item through `POST /api/inventory` raises the total by its quantity and the
      low-stock figure by one exactly when it holds five or fewer; a refused creation changes
      neither. */
  lemma CreateMovesSummary(user: InventoryApi.SessionUser, items: seq<InventoryItem>,
                           body: InventoryApi.CreateItemBody, newId: string, now: Time)
    ensures
      var (reply, after) := InventoryApi.Post(user, items, body, newId, now);
      && (reply.Created? ==> TotalQuantity(after) == TotalQuantity(items) + reply.item.quantity)
      && (reply.Created? ==> LowStockCount(after) == LowStockCount(items) + (if reply.item.quantity <= 5 then 1 else 0))
      && (!reply.Created? ==> TotalQuantity(after) == TotalQuantity(items) && LowStockCount(after) == LowStockCount(items))
  {
    var (reply, after) := InventoryApi.Post(user, items, body, newId, now);
    if reply.Created? {
      var it := reply.item;
      Lists.SumByAppend(items, [it], Quantity);
      Lists.FilterAppend(items, [it], LowStock5);
      assert Lists.SumBy([it], Quantity) == it.quantity;
    }
  }

  // ---------------------------------------------------------------- delete

  /** `handleDeleteItem`: the user is asked first; only a confirmed delete issues
      `DELETE /api/inventory/{id}`, and the table is refreshed only when that succeeds. */
  function DeleteAction(id: string, confirmed: bool, ok: bool): (r: (Option<Call<()>>, bool))
    ensures r.0.Some? <==> confirmed
    ensures r.0.Some? ==> r.0.value == Call(Delete, "/api/inventory/" + id, ())
    ensures r.1 <==> confirmed && ok
  {
    if !confirmed then (None, false)
    else (Some(Call(Delete, "/api/inventory/" + id, ())), ok)
  }

  /** A confirmed delete addresses the same resource the edit dialog saves to, and the id can be
      read back from its path, so two different items are never confused. */
  lemma DeleteAddressesItem(id: string, other: string, ok: bool, f: EditForm)
    ensures DeleteAction(id, true, ok).0.value.path[|"/api/inventory/"|..] == id
    ensures other != id ==> DeleteAction(id, true, ok).0.value.path != DeleteAction(other, true, ok).0.value.path
    ensures EditErrors(f) == {} ==> SubmitEdit(id, f, ok).0.value.path == DeleteAction(id, true, ok).0.value.path
  {
    var p := "/api/inventory/";
    assert (p + id)[|p|..] == id;
    assert (p + other)[|p|..] == other;
  }

  // ---------------------------------------------------------------- edit dialog

  /** The edit dialog's fields. The description box always holds a string. */
  datatype EditForm = EditForm(name: string, description: string, quantity: int)

  datatype EditField = NameField | DescriptionField | QuantityField

  /** The dialog's schema: a name of 1 to 100 UTF-16 code units, a description of at most
      500, and a whole quantity of 0 or more. Every field is checked independently. */
  function EditErrors(f: EditForm): (e: set<EditField>)
    ensures NameField in e <==> Utf16Length(f.name) < 1 || Utf16Length(f.name) > 100
    ensures DescriptionField in e <==> Utf16Length(f.description) > 500
    ensures QuantityField in e <==> f.quantity < 0
  {
    (if Utf16Length(f.name) < 1 || Utf16Length(f.name) > 100 then {NameField} else {})
    + (if Utf16Length(f.description) > 500 then {DescriptionField} else {})
    + (if f.quantity < 0 then {QuantityField} else {})
  }

  /** The dialog's starting values for an item: a null description shows as "". */
  function InitialForm(it: InventoryItem): (f: EditForm)
    ensures f.name == it.name && f.quantity == it.quantity
    ensures f.description == it.description.GetOr("")
  {
    EditForm(it.name, it.description.GetOr(""), it.quantity)
  }

  /** The quantity box: `parseInt(text, 10) || 0`, so text that is not a number, and "0",
      both give 0. */
  function CoerceQuantity(text: string): (n: int)
    ensures ParseInt(text).None? ==> n == 0
    ensures ParseInt(text).Some? ==> n == ParseInt(text).value
  {
    ParseInt(text).GetOr(0)
  }

  /** Every whole number typed in its decimal form reaches the form unchanged. */
  lemma CoerceQuantityRoundTrip(n: int)
    ensures CoerceQuantity(IntText(n)) == n
  {
    ParseIntRoundTrip(n);
  }

  /** The body of `PUT /api/inventory/{id}`: an empty description is sent as absent. */
  datatype UpdateItemBody = UpdateItemBody(name: string, description: Option<string>, quantity: int)

  function EditPayload(f: EditForm): (b: UpdateItemBody)
    ensures b.name == f.name && b.quantity == f.quantity
    ensures b.description.Some? <==> f.description != ""
    ensures b.description.Some? ==> b.description.value == f.description
  {
    UpdateItemBody(f.name, NonEmptyOrAbsent(Some(f.description)), f.quantity)
  }

  /** Saving the dialog unchanged sends back the item's own name, quantity and description,
      except that an empty description is sent as absent rather than as "". */
  lemma UnchangedEditRoundTrip(it: InventoryItem)
    ensures EditPayload(InitialForm(it)).name == it.name
    ensures EditPayload(InitialForm(it)).quantity == it.quantity
    ensures EditPayload(InitialForm(it)).description == it.description <==> it.description != Some("")
  {
  }

  /** `handleSubmit` of the dialog: a form with errors sends nothing; a valid one sends
      `PUT /api/inventory/{id}` and refreshes the table only on success. */
  function SubmitEdit(id: string, f: EditForm, ok: bool): (r: (Option<Call<UpdateItemBody>>, bool))
    ensures r.0.Some? <==> EditErrors(f) == {}
    ensures r.0.Some? ==> r.0.value.verb == Put && r.0.value.path == "/api/inventory/" + id
                          && r.0.value.body.quantity >= 0 && 1 <= Utf16Length(r.0.value.body.name) <= 100
    ensures r.1 <==> EditErrors(f) == {} && ok
  {
    if EditErrors(f) != {} then (None, false)
    else (Some(Call(Put, "/api/inventory/" + id, EditPayload(f))), ok)
  }

  /** The creation route stores negative quantities, but such an item cannot be saved from
      the edit dialog until its quantity is raised to 0 or more. */
  lemma NegativeStockBlocksEdit(user: string, items: seq<InventoryItem>, name: string, q: int,
                                newId: string, now: Time, ok: bool)
    requires name != "" && Utf16Length(name) <= 100 && Int4Min <= q < 0 && !HasItem(items, newId)
    ensures
      var (reply, _) := InventoryApi.Post(Some(user), items,
                          InventoryApi.CreateItemBody(Value(name), Missing, Value(q)), newId, now);
      reply.Created? && reply.item.quantity == q
      && SubmitEdit(newId, InitialForm(reply.item), ok).0.None?
  {
    var (reply, _) := InventoryApi.Post(Some(user), items,
                        InventoryApi.CreateItemBody(Value(name), Missing, Value(q)), newId, now);
    assert QuantityField in EditErrors(InitialForm(reply.item));
  }
}
