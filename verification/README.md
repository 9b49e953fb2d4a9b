# cityflow: a Dafny model of the portal's domain logic

cityflow is a city administration portal built with Next.js and Postgres. Staff manage a stock of loanable equipment; citizens and staff file equipment requests, which an administrator approves or denies. Citizens file complaints, which staff review and resolve. Field staff keep a map of assets together with their maintenance logs. This project models the domain logic of that portal as pure Dafny functions over immutable data, and proves what each piece promises.

- **Tables** (`Schema`). Each Postgres table is a datatype. Each insert is a function that:
  - applies the column defaults;
  - refuses `null` in a NOT NULL column;
  - refuses an integer outside the 32-bit `integer` column;
  - refuses a duplicate key.

  A failed insert is what the route turns into a 500. The cascade from items to requests is modelled too.
- **JSON bodies** (`Wrappers`).
  - Each body property is a `Field`: absent, `null`, or a value.
  - The routes' `!x` guards are the JavaScript falsiness predicates `TruthyText` and `TruthyNumber`.
  - The `x || null` and `x || undefined` idioms are `TextOrNull` and `NonEmptyOrAbsent`.
- **Equipment requests.**
  - `RequestApi` is `GET`/`POST /api/requests`.
  - `RequestTypes` holds the message shapes.
  - `RequestForm` is the request page's form, with its validation and the message it sends. Its item search box is `InventoryUi.SearchItems`.
  - `RequestReview` is the administrator's table and the denial dialog.
- **Inventory.**
  - `InventoryApi` is `GET`/`POST /api/inventory`.
  - `InventoryUi` covers the item table's search, badge and delete action, the edit dialog, and the page's summary figures.
- **Complaints.**
  - `ComplaintApi` is `GET`/`POST /api/complaints` and `POST /api/complaints/resolve`.
  - `ComplaintUi` covers the complaints page, the complaint table and the public complaint form.
  - `Dates` is `isDateInMonthYear`.
- **Assets.**
  - `AssetApi` is `POST /api/assets/create`.
  - `AssetSidebar` covers the sidebar's search, and its local list updates after asset and log calls.
- **Accounts** (`Accounts`): the sign-up form and the role-dependent dashboard.
- **Helpers.** `Text` holds ASCII lower-casing, `ILIKE`-style matching, trimming, `replace`, `parseInt` and the UTF-16 length that JavaScript and the validation library count. `Lists` holds filter, count and sum. `Ordering` holds the newest-first sort. `Http` holds the client's `fetch` calls.

Some things the browser or the runtime decides are parameters of the functions that use them:
- the server's clock and generated ids;
- the signed-in session;
- the outcome of a `fetch` (ok, or its HTTP status);
- the e-mail check of the validation library;
- the engine's date parser and the browser's local calendar;
- `parseFloat`.

The code does not enforce the following:
- **Stock is never reserved or decremented** by any route modelled here. Creation compares nothing with the item's stock (`RequestApi.CreationIgnoresStockAndDates`).
- **Request status is not terminal in the creation path.** The approve/deny handler behind `PUT /api/requests/{id}` is not part of this model.
- **Resolving a complaint has no status precondition** (`ComplaintApi.ResolveTwiceIsResolveLater`).
- **Creating an inventory item stores zero and negative quantities.** Only an absent quantity is refused.

## Model

| member | source | states |
|---|---|---|
| `Schema.NotNullWithDefault` | src/db/schema.ts:82 | a NOT NULL column with a default takes the default when the property is left out, refuses an explicit `null`, and otherwise stores the value |
| `Schema.InsertUser` | src/db/schema.ts:74-89 | a user is stored only when image and role are not `null` and neither the e-mail nor the id is taken; the row is appended, and its role is `field_staff` unless one was given |
| `Schema.InsertUserKeepsEmailsUnique` | src/db/schema.ts:88 | the `user_email_unique` key holds after every successful insert |
| `Schema.ItemRow` | src/db/schema.ts:91-98 | an item row exists exactly when the quantity is not `null` and fits a 32-bit integer; an absent quantity becomes 0, and every other column is carried over |
| `Schema.RequestRow` | src/db/schema.ts:100-122 | a request row exists exactly when the status is not `null` and the quantity fits a 32-bit integer; the status defaults to `pending`, and the denial reason and quantity are kept |
| `Schema.DeleteItem` | src/db/schema.ts:115-121 | deleting an item removes it and exactly the requests that reference it; every other item and request survives, and nothing new appears |
| `Schema.FilterItems` | src/db/schema.ts:91-98 | the items left after a delete are exactly those with another id |
| `Schema.FilterRequests` | src/db/schema.ts:115-121 | the requests left by the cascade are exactly those referencing another item |
| `Schema.DeleteItemKeepsConsistent` | src/db/schema.ts:100-122 | the cascade preserves the foreign key, so every request still references an existing item, and it preserves distinct request ids |
| `Schema.SubsequenceKeepsDistinctIds` | src/db/schema.ts:101 | removing requests never makes two remaining requests share a primary key |
| `Schema.AssetRow` | src/db/schema.ts:124-137 | an asset row exists exactly when both coordinates are present and not `null`; the other columns are carried over |
| `Schema.ComplaintRow` | src/db/schema.ts:139-155 | a complaint row exists exactly when status and reviewed are not `null`; status defaults to `pending` and reviewed to false, and the remaining columns are carried over |
| `RequestTypes.ParseStatus` | src/types/request.ts:9 | reading a status accepts exactly the three names of the union and inverts `StatusText` |
| `RequestTypes.StatusRoundTrip` | src/types/request.ts:9 | every status survives a write to the text column and a read back |
| `RequestTypes.ViewOf` | src/types/request.ts:1-13 | a stored row has a typed view exactly when its status is one of the three; the view keeps the status text, the denial reason and the other columns |
| `RequestTypes.TargetStatus` | src/types/request.ts:24-28 | an update can only ask for approved or denied, never for pending |
| `RequestTypes.DecodeUpdate` | src/types/request.ts:24-28 | an update body is a typed message exactly when its status is `approved` or `denied`; the message keeps that status and the denial reason |
| `RequestApi.List` | src/app/api/requests/route.ts:8-43 | the listing is newest first, and holds every request with the asked status (all of them for an absent or empty filter) with its multiplicity, and nothing else |
| `RequestApi.Post` | src/app/api/requests/route.ts:45-97 | 400 exactly for a falsy field, including quantity 0; 404 exactly for an unknown item; otherwise a pending row with the sent values is appended when the quantity fits the column and the id is fresh. The inventory table is never written |
| `RequestApi.CreationIgnoresStockAndDates` | src/app/api/requests/route.ts:59-89 | any non-zero 32-bit quantity is accepted for an existing item, whatever that item holds, and the item's stock is left as it was |
| `RequestApi.PostKeepsConsistent` | src/app/api/requests/route.ts:59-87 | creation preserves the foreign key and the primary key of the request table |
| `RequestForm.Errors` | src/app/request-equipment/page.tsx:51-67 | one error per failing rule: a bad address, no item, a quantity below 1 or not a number, no range, a missing start, or a missing end. An end not after the start counts only when both ends are present |
| `RequestForm.ValidFormShape` | src/app/request-equipment/page.tsx:51-67 | a valid form has an address, an item, a quantity of at least 1, and a start strictly before its end |
| `RequestForm.InitialFormInvalid` | src/app/request-equipment/page.tsx:82-90 | the untouched form cannot be sent, because no item and no dates are chosen; its quantity of 1 is valid |
| `RequestForm.Find` | src/app/request-equipment/page.tsx:124-129 | an item is found exactly when the list holds one with that id, and what is found is the first such item in list order |
| `RequestForm.Submit` | src/app/request-equipment/page.tsx:121-158 | a message is sent exactly for a valid form whose item is in the list; it carries the form's values and that item's name. The confirmation is shown exactly when a message was sent and the reply was ok |
| `RequestForm.Wire` | src/app/request-equipment/page.tsx:131-145 | the JSON body carries each message property as a present value, with the dates written as text |
| `RequestForm.SubmittedFormIsAccepted` | src/app/request-equipment/page.tsx:121-158 | what the page sends passes the route's field check and finds its item. Given a fresh id and a 32-bit quantity, it is stored as pending with the form's address, item and a positive quantity |
| `RequestReview.SearchRequests` | src/components/requests/requests-table.tsx:37-45 | the rows shown are exactly those whose requestor address or item name contains the term ignoring case (all rows for an empty term), with their multiplicities and in their original order |
| `RequestReview.EmptyTermShortcutAgrees` | src/components/requests/requests-table.tsx:37-45 | the empty-term shortcut gives the same rows as filtering with the empty term |
| `RequestReview.FoundByRequestorEmail` | src/components/requests/requests-table.tsx:37-45 | typing a requestor's address, as stored or in lower case, finds every request of theirs |
| `RequestReview.Badge` | src/components/requests/requests-table.tsx:75-86 | the three known statuses get their own badge; any other text is shown as it is |
| `RequestReview.ActionsFor` | src/components/requests/requests-table.tsx:136-165 | approve and deny are offered exactly for a pending request |
| `RequestReview.DecidedRequestsOfferNoActions` | src/components/requests/requests-table.tsx:136-165 | a request at the status an update asks for offers no further action |
| `RequestReview.Approve` | src/components/requests/requests-table.tsx:47-65 | approving sends `PUT /api/requests/{id}`, whose body reads as an approval without a reason; the table refreshes only on an ok reply |
| `RequestReview.Deny` | src/components/requests/deny-request-dialog.tsx:27-80 | a denial is sent exactly when the reason is 1 to 500 UTF-16 code units long, and its body reads as a denial carrying that reason; the dialog closes exactly on an ok reply |
| `RequestReview.ReopenedDialogCannotDeny` | src/components/requests/deny-request-dialog.tsx:50-54 | the reason box emptied on reopening cannot be sent |
| `InventoryApi.Get` | src/app/api/inventory/route.ts:10-41 | 401 exactly without a signed-in user. Otherwise the rows are newest first, and are exactly the items whose name or present description contains the term ignoring case (all items for an absent or empty term), with their multiplicities |
| `InventoryApi.Post` | src/app/api/inventory/route.ts:43-84 | 401 exactly without a user, and 400 exactly for a falsy name or an absent quantity. A row is created exactly for a non-null 32-bit quantity and a fresh id; it carries the name and quantity, with an empty description stored as null. A refused call changes nothing |
| `InventoryApi.PostKeepsNamesNonEmpty` | src/app/api/inventory/route.ts:54-59 | the route never stores an item without a name |
| `InventoryUi.SearchItems` | src/components/inventory/inventory-table.tsx:38-46 | the items shown are exactly those whose name or present description contains the term ignoring case (all of them for an empty term), with their multiplicities and in their original order; for a term without `%`, `_` or `\` these are the items the server's search selects |
| `InventoryUi.EmptyTermShortcutAgrees` | src/components/inventory/inventory-table.tsx:38-46 | the empty-term shortcut gives the same items as filtering with the empty term |
| `InventoryUi.ClientSearchAgreesWithServer` | src/app/request-equipment/page.tsx:109-119 | for a term without `%`, `_` or `\`, searching the full list in the browser yields the same items, with the same multiplicities, as asking `GET /api/inventory?search=` |
| `InventoryUi.Badge` | src/components/inventory/inventory-table.tsx:76-84 | out of stock exactly at 0, low exactly for a non-zero quantity of at most 2 (negative included), and in stock exactly above 2 |
| `InventoryUi.LowStockCount` | src/app/inventory/page.tsx:39 | the low-stock figure never exceeds the number of items |
| `InventoryUi.BadgedItemsAreCounted` | src/app/inventory/page.tsx:39 | every item badged out of stock or low is included in the page's low-stock figure (five or fewer) |
| `InventoryUi.TotalQuantity` | src/app/inventory/page.tsx:40 | the total of no items is 0 |
| `InventoryUi.TotalQuantityAdds` | src/app/inventory/page.tsx:40 | the total of two lists together is the sum of their totals |
| `InventoryUi.TotalIgnoresOrder` | src/app/inventory/page.tsx:40 | the same items in any order have the same total |
| `InventoryUi.TotalBoundsEachItem` | src/app/inventory/page.tsx:40 | with no negative stock, the total is non-negative and at least each item's quantity |
| `InventoryUi.CreateMovesSummary` | src/app/inventory/page.tsx:39-40 | a created item raises the total by its quantity, and the low-stock figure by one exactly when it holds five or fewer; a refused creation moves neither |
| `InventoryUi.DeleteAction` | src/components/inventory/inventory-table.tsx:48-66 | `DELETE /api/inventory/{id}` is sent exactly when the user confirms, and the table refreshes exactly on a confirmed, ok delete |
| `InventoryUi.DeleteAddressesItem` | src/components/inventory/inventory-table.tsx:48-66 | the delete path names the item's id, so different ids give different paths, and it is the path the edit dialog saves to |
| `InventoryUi.EditErrors` | src/components/inventory/edit-item-dialog.tsx:27-31 | one error for each failing rule: a name outside 1 to 100 UTF-16 code units, a description over 500, or a quantity below 0 |
| `InventoryUi.InitialForm` | src/components/inventory/edit-item-dialog.tsx:45-62 | the dialog starts from the item's name and quantity, and shows a null description as empty text |
| `InventoryUi.CoerceQuantity` | src/components/inventory/edit-item-dialog.tsx:141 | text that does not parse as an integer gives 0; otherwise the parsed value is kept |
| `InventoryUi.CoerceQuantityRoundTrip` | src/components/inventory/edit-item-dialog.tsx:141 | every whole number typed in its decimal form reaches the form unchanged |
| `InventoryUi.EditPayload` | src/components/inventory/edit-item-dialog.tsx:67-71 | the body keeps name and quantity, and sends the description exactly when it is not empty |
| `InventoryUi.UnchangedEditRoundTrip` | src/components/inventory/edit-item-dialog.tsx:45-71 | saving the dialog unchanged sends back the item's name and quantity; the description comes back equal exactly when it was not stored as empty text |
| `InventoryUi.SubmitEdit` | src/components/inventory/edit-item-dialog.tsx:64-91 | `PUT /api/inventory/{id}` is sent exactly for an error-free form, so with a non-negative quantity and a name of 1 to 100 UTF-16 code units; the refresh happens exactly on an ok reply |
| `InventoryUi.NegativeStockBlocksEdit` | src/app/api/inventory/route.ts:54-74 | an item created with a negative quantity is stored, but the edit dialog cannot save it unchanged |
| `Dates.InstantOf` | src/lib/utils.ts:9-10 | no date and empty text denote no instant; a date object denotes itself |
| `Dates.IsDateInMonthYear` | src/lib/utils.ts:8-12 | true only for a readable date; never for a falsy one; for a date object, exactly when its local year and zero-based month are the ones asked |
| `Dates.TextAgreesWithInstant` | src/lib/utils.ts:10 | non-empty text and the instant it parses to fall in the same months |
| `Dates.AtMostOneMonth` | src/lib/utils.ts:11 | a date falls in at most one month of one year |
| `Dates.NoDateOutsideMonthRange` | src/lib/utils.ts:11 | with a calendar whose months run from 0 to 11, no date falls in a month outside that range |
| `ComplaintApi.List` | src/app/api/complaints/route.ts:8-29 | the listing is newest first, and holds every complaint with the asked status (all for an absent or empty filter) with its multiplicity, and nothing else |
| `ComplaintApi.Post` | src/app/api/complaints/route.ts:31-66 | 400 exactly for a falsy description or location. Given a fresh id, the row is stored pending, unreviewed and unresolved, with the sent texts; empty optional texts are stored as null. A refused call changes nothing |
| `ComplaintApi.PostKeepsIdsUnique` | src/app/api/complaints/route.ts:44-56 | filing keeps complaint ids unique |
| `ComplaintApi.MarkResolved` | src/app/api/complaints/resolve/route.ts:24-30 | a resolved complaint has status `resolved` and its resolution time set; every other column, `reviewed` and `updatedAt` included, is as it was |
| `ComplaintApi.ResolveRows` | src/app/api/complaints/resolve/route.ts:24-30 | the update resolves exactly the rows with that id and leaves every other row and the table's length unchanged |
| `ComplaintApi.Find` | src/app/api/complaints/resolve/route.ts:17-22 | a complaint is found exactly when one with that id exists, and what is found is the first such row in table order |
| `ComplaintApi.Resolve` | src/app/api/complaints/resolve/route.ts:9-59 | 400 exactly for a falsy id, and 404 exactly for an unknown one, both changing nothing. Otherwise the complaint is resolved at the given time whatever its status. A notice goes to its address exactly when it has a non-empty one |
| `ComplaintApi.ResolveTwiceIsResolveLater` | src/app/api/complaints/resolve/route.ts:17-30 | resolving again succeeds exactly when the first resolve did, and leaves the table as one resolve at the later time would |
| `ComplaintApi.ResolveRowsTwice` | src/app/api/complaints/resolve/route.ts:24-30 | a second update of the same rows overwrites the first, leaving only the later resolution time |
| `ComplaintApi.ResolveKeepsOtherColumns` | src/app/api/complaints/resolve/route.ts:24-30 | resolution changes only status and resolution time of the matching rows; the review flag, texts and update time stay |
| `ComplaintUi.FilterByReview` | src/app/complaints/page.tsx:48-57 | the "all" filter shows everything; the other two show exactly the reviewed complaints, or exactly the unreviewed ones, with their multiplicities and in their original order |
| `ComplaintUi.ReviewedCount` | src/app/complaints/page.tsx:67 | the reviewed figure never exceeds the number of complaints |
| `ComplaintUi.ToReviewCount` | src/app/complaints/page.tsx:66 | the to-review figure never exceeds the number of complaints |
| `ComplaintUi.ReviewCountsPartition` | src/app/complaints/page.tsx:48-67 | the two figures add up to the number of complaints, and each equals the length of the list its filter shows |
| `ComplaintUi.TotalThisMonth` | src/app/complaints/page.tsx:59-65 | the monthly figure never exceeds the number of complaints |
| `ComplaintUi.TotalThisMonthCountsJune2025` | src/app/complaints/page.tsx:59-65 | the "this month" figure counts exactly the complaints created in June 2025, whatever the current date |
| `ComplaintUi.SearchComplaints` | src/components/complaints/complaints-table.tsx:35-45 | the rows shown are exactly those whose description, location, or non-empty name or address contains the term ignoring case (all for an empty term), with their multiplicities and in their original order |
| `ComplaintUi.EmptyTermShortcutAgrees` | src/components/complaints/complaints-table.tsx:35-45 | the empty-term shortcut gives the same rows as filtering with the empty term |
| `ComplaintUi.Badge` | src/components/complaints/complaints-table.tsx:121-132 | pending, in progress and resolved get their own badge exactly; any other status text is shown as it is |
| `ComplaintUi.ResolvedRowsShowResolvedBadge` | src/app/api/complaints/resolve/route.ts:24-30 | every complaint the resolve route returns shows the resolved badge |
| `ComplaintUi.ReviewToggle` | src/components/complaints/complaints-table.tsx:218-234 | the menu offers "Mark as Not Reviewed" exactly for a reviewed complaint, and the body it sends flips the flag; the table refreshes only on an ok reply |
| `ComplaintUi.ToggleTwiceRestores` | src/components/complaints/complaints-table.tsx:47-109 | toggling twice asks for the flag the complaint started with and shows the other label |
| `ComplaintUi.FormErrors` | src/app/submit-complaint/page.tsx:30-36 | one error per failing rule: a present, non-empty, invalid address; a description under 10 UTF-16 code units; or a location under 5 |
| `ComplaintUi.ImageUrl` | src/app/submit-complaint/page.tsx:83-91 | an image address is sent exactly when an upload returned a non-empty URL; a failed upload files the complaint without one |
| `ComplaintUi.AsField` | src/app/submit-complaint/page.tsx:93-99 | a present value becomes a JSON property; an absent one is left out, never sent as `null` |
| `ComplaintUi.Submit` | src/app/submit-complaint/page.tsx:77-119 | `POST /api/complaints` is sent exactly for an error-free form, leaving empty name and address out; the confirmation shows exactly on an ok reply |
| `ComplaintUi.SubmittedComplaintIsFiled` | src/app/submit-complaint/page.tsx:77-119 | whatever happened to the image, a complaint the form sends is stored pending, given a fresh id, with its name and address, or null for those left empty |
| `AssetApi.Create` | src/app/api/assets/create/route.ts:5-37 | 400 exactly for a falsy id, name or colour, or an absent coordinate. The asset is stored, with HTTP 200 and body status 201, exactly when both coordinates are present and the id is free; it is appended with the sent values. Anything else changes nothing |
| `AssetApi.ZeroCoordinatesAccepted` | src/app/api/assets/create/route.ts:10-15 | an asset at longitude and latitude 0 is stored, since only absent coordinates are refused |
| `AssetApi.CreateKeepsIdsUnique` | src/app/api/assets/create/route.ts:17-27 | registration keeps asset ids unique |
| `AssetSidebar.FilterAssets` | src/lib/components/assets-sidebar.tsx:103-105 | the assets shown are exactly those whose name contains the query ignoring case, with their multiplicities and in their original order |
| `AssetSidebar.EmptyQueryKeepsAll` | src/lib/components/assets-sidebar.tsx:103-105 | an empty query shows every asset, in order |
| `AssetSidebar.CurrentAssetLogs` | src/lib/components/assets-sidebar.tsx:108-110 | exactly the logs of the asset being edited, with their multiplicities and in their original order; none when no asset is |
| `AssetSidebar.Apply` | src/lib/components/assets-sidebar.tsx:164-168 | an updated asset keeps its id and takes every field of the update |
| `AssetSidebar.ReplaceById` | src/lib/components/assets-sidebar.tsx:164-168 | exactly the assets with the edited id are updated; the others keep their place |
| `AssetSidebar.UpdateAsset` | src/lib/components/assets-sidebar.tsx:140-181 | the update is sent exactly when an asset is being edited and the name, trimmed of JavaScript white space and line terminators, is not blank, with the name as typed and the asset's colour. The list changes only on HTTP 200, and keeps its length |
| `AssetSidebar.ReplaceByIdIdempotent` | src/lib/components/assets-sidebar.tsx:164-168 | applying a successful update a second time changes nothing more |
| `AssetSidebar.UpdatedAssetFoundByNewName` | src/lib/components/assets-sidebar.tsx:103-168 | after an update, searching for the new name finds the updated asset |
| `AssetSidebar.RemoveAsset` | src/lib/components/assets-sidebar.tsx:202-204 | exactly the assets with that id leave the list; the rest keep their multiplicities and their order |
| `AssetSidebar.DeleteAsset` | src/lib/components/assets-sidebar.tsx:190-219 | `DELETE /api/assets/{id}` is sent exactly when an asset is marked for deletion; the list changes only on HTTP 200 |
| `AssetSidebar.RemoveAssetIdempotent` | src/lib/components/assets-sidebar.tsx:202-204 | removing an id twice is removing it once |
| `AssetSidebar.SaveLog` | src/lib/components/assets-sidebar.tsx:246-298 | `PUT /api/logs` is sent exactly when a log is being edited and every field is filled. On an ok reply exactly the edited log takes the returned values and editing ends; otherwise the list is unchanged |
| `AssetSidebar.SaveLogKeepsPlaces` | src/lib/components/assets-sidebar.tsx:268-285 | saving keeps every log's id and asset, so each asset's list keeps its length, and after a successful save the edited log is listed under its asset with the returned title |
| `AssetSidebar.DeleteLog` | src/lib/components/assets-sidebar.tsx:300-331 | `DELETE /api/logs?id=` is always sent. On an ok reply exactly the logs with that id leave the list, the rest keeping their multiplicities and order, and editing of that log ends; otherwise nothing changes |
| `AssetSidebar.Format` | src/lib/components/assets-sidebar.tsx:362-370 | the kept log keeps the record's id, title, description, technician and asset, takes the job type as its type, and the creation time when the update time is missing or empty |
| `AssetSidebar.AddLog` | src/lib/components/assets-sidebar.tsx:333-385 | `POST /api/logs` is sent exactly for a complete draft while an asset is edited; on an ok reply the record is appended and the draft cleared, otherwise both stay |
| `AssetSidebar.NoDoubleAdd` | src/lib/components/assets-sidebar.tsx:373-375 | after a successful add, a second click sends nothing |
| `AssetSidebar.AddedLogIsShown` | src/lib/components/assets-sidebar.tsx:108-110 | a log recorded for the edited asset shows among its logs right after it is added, and no earlier log disappears |
| `Accounts.SignUpErrors` | src/app/signup/page.tsx:47-60 | one error per failing rule: a name under 2 UTF-16 code units, a bad address, a password under 6, or a missing or unknown role. A password mismatch counts only when the role is valid |
| `Accounts.AcceptedSignUpShape` | src/app/signup/page.tsx:47-60 | an accepted form has matching passwords of at least 6 UTF-16 code units and one of the two roles |
| `Accounts.AfterSignUp` | src/app/signup/page.tsx:81-108 | the page moves to the dashboard exactly on success. Otherwise an error toast shows the server's non-empty message, or "Sign up failed", or a generic message after an exception |
| `Accounts.ActionsFor` | src/app/dashboard/page.tsx:111-190 | asset management is offered all three actions, field staff only the asset map, and any other role none |
| `Accounts.ActionsByPrivilege` | src/app/dashboard/page.tsx:55-56 | only asset management reaches complaints and inventory; exactly the two known roles reach the asset map |
| `Accounts.RoleLabel` | src/app/dashboard/page.tsx:205-207 | "Asset Management Staff" exactly for that role; every other role reads "Field Staff" |
| `Accounts.RoleBadge` | src/app/dashboard/page.tsx:214 | the badge has as many characters as the stored role |
| `Accounts.FieldStaffBadge` | src/app/dashboard/page.tsx:214 | the field-staff role shows as "field staff" |
| `Accounts.AssetManagementBadge` | src/app/dashboard/page.tsx:214 | the asset-management role shows as "asset management" |
| `Accounts.BadgeOfSplitRole` | src/app/dashboard/page.tsx:214 | a role shows with its first underscore as a space and the rest unchanged |
| `Accounts.RoleBadgeReplacesOnlyFirst` | src/app/dashboard/page.tsx:214 | only the first underscore is replaced; later ones stay |
| `Accounts.Dashboard` | src/app/dashboard/page.tsx:30-56 | a spinner exactly while the session loads, and a redirect exactly when it has loaded empty. Otherwise the page shows the role's actions, label and badge |
| `Accounts.AstralNameMeetsMinimum` | src/app/signup/page.tsx:47-60 | a one-character name outside the Basic Multilingual Plane passes the two-unit minimum |
| `Accounts.ToastNeverEmpty` | src/app/signup/page.tsx:81-108 | every outcome of the sign-up call shows a toast with some text |
| `Accounts.SignUpLeadsToActions` | src/app/signup/page.tsx:99-100 | a successful sign-up from an accepted form goes to the dashboard, which then offers that user the asset map |
| `Accounts.SignedUpUsersHaveActions` | src/app/signup/page.tsx:47-60 | every user who signs up through the form, with either role, sees at least one dashboard action |
| `Text.LowerIdempotent` | src/app/api/inventory/route.ts:22-29 | lower-casing twice is lower-casing once |
| `Text.MatchesIgnoresTermCase` | src/components/inventory/inventory-table.tsx:38-46 | matching does not depend on the case of the term |
| `Text.ParseIntRoundTrip` | src/components/inventory/edit-item-dialog.tsx:141 | `parseInt` reads back every integer written in decimal |
| `Text.TrimEmptyIffBlank` | src/lib/components/assets-sidebar.tsx:141 | a name trims to empty exactly when it is all JavaScript white space (every space separator, tab, vertical tab, form feed, byte-order mark) and line terminators |
| `Text.Trim` | src/lib/components/assets-sidebar.tsx:141 | `trim` removes only white space: no character is invented, every other character survives, and the result neither starts nor ends with white space |
| `Text.Matches` | src/components/inventory/inventory-table.tsx:38-46 | matching holds exactly when the lower-cased term occurs at some position of the lower-cased text |
| `Text.ParseInt` | src/components/inventory/edit-item-dialog.tsx:141 | `parseInt(s, 10)` gives no number when no digit follows the white space and the sign, and a negative number only after a minus sign |
| `Text.ParseIntSkipsLeadingSpace` | src/components/inventory/edit-item-dialog.tsx:141 | leading white space does not change what `parseInt` reads |
| `Text.ParseIntIgnoresTrailing` | src/components/inventory/edit-item-dialog.tsx:141 | `parseInt` stops at the first character after the digits, so trailing text is ignored |
| `Text.ReplaceFirst` | src/app/dashboard/page.tsx:214 | `replace` with a one-character pattern keeps the length and every character except the first occurrence of the pattern, which becomes the replacement |
| `Text.Utf16Length` | src/components/requests/deny-request-dialog.tsx:27-29 | a string's length as the validation library counts it lies between its number of characters and twice that, and equals it exactly when no character lies outside the Basic Multilingual Plane |
| `Text.Utf16LengthAppend` | src/components/requests/deny-request-dialog.tsx:27-29 | the UTF-16 length of a concatenation is the sum of the lengths |
| `Text.EmojiTakesTwoUnits` | src/app/signup/page.tsx:47-60 | one character outside the Basic Multilingual Plane counts as two |
| `Text.ReplaceFirstSplits` | src/app/dashboard/page.tsx:214 | `replace` rewrites exactly the first occurrence, the one after a prefix that has none |
| `Ordering.SortDesc` | src/app/api/requests/route.ts:33 | ordering by creation time descending yields a newest-first permutation of the rows |
| `Lists.CountPartition` | src/app/complaints/page.tsx:66-67 | two complementary conditions split a list's length between their counts |

## Left out

- The handlers behind `PUT /api/requests/{id}`, `PUT`/`DELETE /api/inventory/{id}`, `PUT /api/complaints/{id}`, `/api/assets/{id}`, `/api/assets/all` and `/api/logs` are not part of this model. The client side of each is modelled, and its reply is a parameter. Approval, with its stock decrement, is therefore not modelled.
- Concurrency and atomicity: every route is one step over an immutable table. Interleavings of simultaneous requests are not modelled.
- Sending the resolution e-mail: only the address a notice goes to is modelled. Delivery, its text and its failure are not; the route swallows that failure in any case.
- The image upload is a parameter (`ComplaintUi.UploadOutcome`); the storage call itself is not modelled.
- Authentication and the session lookup: the signed-in user is a parameter. The auth library's `signUp` internals are not modelled; `Schema.InsertUser` states only the table's own constraints.
- Presentation: layout, icons, toasts other than the sign-up page's texts, the map components, the manage and landing pages, the CSS `capitalize` of the role badge, and locale formatting of dates.
- Text.Lower: only ASCII letters are folded; the Unicode case mapping of `toLowerCase` and of `ILIKE` is not modelled.
- InventoryApi.SearchHit: `%`, `_` and `\` (LIKE's default escape character) typed in the search term are matched as literal characters, not as `ILIKE` pattern syntax.
- InventoryUi.ClientSearchAgreesWithServer: stated only for terms without `%`, `_` or `\` (`InventoryApi.PlainTerm`). For a term such as `_` the server selects every item with a non-empty name, while the browser's `includes` selects only the items containing an underscore.
- RequestApi.Post: stores the start and end dates as the text received. The route converts them with `new Date(...)`, and an unreadable date, which makes the insert fail with 500, is not modelled.
- Ids that are not UUIDs make Postgres refuse a lookup or insert (500). That failure is not modelled, and ids are plain strings.
- JSON values of the wrong type: a string quantity, or a fractional number in an `integer` column, is not modelled. Numbers are unbounded integers, bounded by the 32-bit column check only.
- InventoryUi.CoerceQuantity: reads decimal integers as `parseInt` does, skipping leading white space and stopping at the first non-digit; JavaScript's loss of precision above 2^53 is not modelled, so very long digit strings keep their exact value.
- AssetSidebar.UpdateAsset: `parseFloat` is a parameter, so `NaN` coordinates are whatever that parameter returns.
- The complaint table's `handleUpdateStatus` is never called by the table and is not modelled.
- Re-fetching lists after a successful call: the model states when a refresh happens, not what the next `GET` returns.
- InventoryUi.TotalQuantity: its own contract states only the empty case; additivity and order independence are the lemmas `TotalQuantityAdds` and `TotalIgnoresOrder`.
- Accounts.Dashboard: models the page after its effect has run. The single render in which a loaded session still shows the spinner is not distinguished.
- Email validity of the validation library, the engine's date parser and the browser's calendar are parameters (`isEmail`, `parse`, `calendar`).
