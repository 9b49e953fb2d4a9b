/** `POST /api/assets/create` (`src/app/api/assets/create/route.ts`): registering a map asset. */
module AssetApi {
  import opened Wrappers
  import opened Schema

  /** The parsed JSON body; the client chooses the id. */
  datatype AssetBody = AssetBody(
    id: Field<string>, name: Field<string>, description: Field<string>,
    lng: Field<real>, lat: Field<real>, color: Field<string>)

  datatype CreateReply =
    | MissingFields   // 400 "Missing required fields."
    | Stored          // HTTP 200 carrying the body `{status: 201}`
    | Failed          // 500: the insert threw

  /** The HTTP status of the reply. */
  function HttpStatus(r: CreateReply): int {
    match r
    case MissingFields => 400
    case Stored => 200
    case Failed => 500
  }

  /** The `status` property of the JSON body, which only a stored asset carries. */
  function BodyStatus(r: CreateReply): Option<int> {
    if r.Stored? then Some(201) else None
  }

  predicate HasAsset(table: seq<Asset>, id: string) {
    exists i :: 0 <= i < |table| && table[i].id == id
  }

  predicate UniqueAssetIds(table: seq<Asset>) {
    forall i, j :: 0 <= i < j < |table| ==> table[i].id != table[j].id
  }

  /** A falsy id, name or colour, or an ABSENT coordinate, is refused with 400; a zero
      coordinate is accepted, a `null` one passes the guard and is refused by the NOT NULL
      column (500), as is an id already taken. An empty description is stored as null. */
  function Create(table: seq<Asset>, body: AssetBody, createdClock: Time, updatedClock: Time)
    : (r: (CreateReply, seq<Asset>))
    ensures r.0.MissingFields? <==>
              !TruthyText(body.id) || !TruthyText(body.name) || body.lng.Missing?
              || body.lat.Missing? || !TruthyText(body.color)
    ensures r.0.Stored? <==>
              TruthyText(body.id) && TruthyText(body.name) && TruthyText(body.color)
              && body.lng.Value? && body.lat.Value? && !HasAsset(table, body.id.v)
    ensures r.0.Stored? ==>
              HttpStatus(r.0) == 200 && BodyStatus(r.0) == Some(201)
              && |r.1| == |table| + 1 && r.1[..|table|] == table
              && var a := r.1[|table|];
                 a.id == body.id.v && a.name == body.name.v && a.color == body.color.v
                 && a.lng == body.lng.v && a.lat == body.lat.v
                 && a.description == TextOrNull(body.description)
    ensures !r.0.Stored? ==> r.1 == table
  {
    if !TruthyText(body.id) || !TruthyText(body.name) || body.lng.Missing?
       || body.lat.Missing? || !TruthyText(body.color)
    then (MissingFields, table)
    else
      var values := AssetValues(body.id.v, body.name.v, TextOrNull(body.description),
                                body.lng, body.lat, body.color.v);
      match AssetRow(values, createdClock, updatedClock)
      case None => (Failed, table)
      case Some(a) =>
        if HasAsset(table, body.id.v) then (Failed, table)
        else
          assert (table + [a])[..|table|] == table;
          (Stored, table + [a])
  }

  /** An asset at longitude and latitude 0 is stored: only absent coordinates are refused. */
  lemma ZeroCoordinatesAccepted(table: seq<Asset>, id: string, name: string, color: string,
                                createdClock: Time, updatedClock: Time)
    requires id != "" && name != "" && color != "" && !HasAsset(table, id)
    ensures Create(table, AssetBody(Value(id), Value(name), Missing, Value(0.0), Value(0.0), Value(color)),
                   createdClock, updatedClock).0.Stored?
  {
  }

  /** Registration keeps asset ids unique. */
  lemma CreateKeepsIdsUnique(table: seq<Asset>, body: AssetBody, createdClock: Time, updatedClock: Time)
    requires UniqueAssetIds(table)
    ensures UniqueAssetIds(Create(table, body, createdClock, updatedClock).1)
  {
    var (reply, after) := Create(table, body, createdClock, updatedClock);
    if reply.Stored? {
      forall i, j | 0 <= i < j < |after| ensures after[i].id != after[j].id {
        if j == |table| {
          assert after[i] == table[i];
        } else {
          assert after[i] == table[i] && after[j] == table[j];
        }
      }
    }
  }
}

/** The asset sidebar (`src/lib/components/assets-sidebar.tsx`): the asset search, the logs of
    the asset being edited, and the local list updates that follow a successful call to the
    asset and log routes. Each handler is one step: it returns the call it issues (if any) and
    the lists afterwards, given the response. */
module AssetSidebar {
  import opened Wrappers
  import opened Text
  import opened Http
  import Lists

  /** The sidebar's asset record. */
  datatype AssetEntry = AssetEntry(id: string, name: string, description: string,
                                   lng: real, lat: real, color: string)

  /** The sidebar's log record; `updatedAt` may be absent when the server's record had none. */
  datatype LogEntry = LogEntry(id: string, title: string, logType: string, description: string,
                               technician: string, updatedAt: Option<string>, assetId: string)

  /** A log record as the log routes return it. */
  datatype ServerLog = ServerLog(id: string, title: string, jobType: string, description: string,
                                 technician: string, updatedAt: Option<string>, createdAt: string,
                                 assetId: string)

  // ---------------------------------------------------------------- search and selection

  predicate NameHit(query: string, a: AssetEntry) {
    Matches(a.name, query)
  }

  /** `filteredAssets`: the assets whose name contains the query, ignoring case. There is no
      shortcut for the empty query. */
  function FilterAssets(assets: seq<AssetEntry>, query: string): (r: seq<AssetEntry>)
    ensures forall a :: a in r <==> a in assets && Matches(a.name, query)
    ensures forall a :: multiset(r)[a] == if Matches(a.name, query) then multiset(assets)[a] else 0
    ensures Lists.IsSubsequence(r, assets)
  {
    Lists.Filter(assets, a => NameHit(query, a))
  }

  /** The empty query keeps every asset, in order. */
  lemma {:induction false} EmptyQueryKeepsAll(assets: seq<AssetEntry>)
    ensures FilterAssets(assets, "") == assets
  {
    forall a | a in assets ensures NameHit("", a) {
      MatchesEmpty(a.name);
    }
    Lists.FilterKeepsAll(assets, a => NameHit("", a));
  }

  /** `currentAssetLogs`: the logs of the asset being edited; none when no asset is. */
  function CurrentAssetLogs(logs: seq<LogEntry>, editing: Option<AssetEntry>): (r: seq<LogEntry>)
    ensures editing.None? ==> r == []
    ensures editing.Some? ==> forall l :: l in r <==> l in logs && l.assetId == editing.value.id
    ensures editing.Some? ==>
              forall l :: multiset(r)[l] == if l.assetId == editing.value.id then multiset(logs)[l] else 0
    ensures Lists.IsSubsequence(r, logs)
  {
    if editing.None? then [] else Lists.Filter(logs, (l: LogEntry) => l.assetId == editing.value.id)
  }

  // ---------------------------------------------------------------- asset update

  /** The edit sheet's text fields. */
  datatype AssetForm = AssetForm(name: string, description: string, lng: string, lat: string)

  /** The body of `PUT /api/assets/{id}`: coordinates read with `parseFloat`, colour unchanged. */
  datatype AssetUpdate = AssetUpdate(name: string, description: string, lng: real, lat: real, color: string)

  /** `{...asset, ...update}`: the update's fields over the asset's own id. */
  function Apply(a: AssetEntry, u: AssetUpdate): (r: AssetEntry)
    ensures r.id == a.id && r.name == u.name && r.description == u.description
    ensures r.lng == u.lng && r.lat == u.lat && r.color == u.color
  {
    AssetEntry(a.id, u.name, u.description, u.lng, u.lat, u.color)
  }

  /** Replaces every asset carrying `id` by its updated version; the others keep their place. */
  function ReplaceById(assets: seq<AssetEntry>, id: string, u: AssetUpdate): (r: seq<AssetEntry>)
    ensures |r| == |assets|
    ensures forall i :: 0 <= i < |assets| ==>
              r[i] == if assets[i].id == id then Apply(assets[i], u) else assets[i]
  {
    seq(|assets|, i requires 0 <= i < |assets| =>
          if assets[i].id == id then Apply(assets[i], u) else assets[i])
  }

  /** `handleUpdateAsset`: nothing happens without an asset being edited or with a name that is
      blank once trimmed; otherwise `PUT /api/assets/{id}` is sent with the name as typed (not
      trimmed) and the edited asset's colour, and on HTTP 200 the list is updated in place. */
  function UpdateAsset(assets: seq<AssetEntry>, editing: Option<AssetEntry>, form: AssetForm,
                       parseFloat: string -> real, status: int)
    : (r: (Option<Call<AssetUpdate>>, seq<AssetEntry>))
    ensures r.0.Some? <==> editing.Some? && Trim(form.name) != ""
    ensures r.0.Some? ==>
              && r.0.value.verb == Put && r.0.value.path == "/api/assets/" + editing.value.id
              && r.0.value.body == AssetUpdate(form.name, form.description, parseFloat(form.lng),
                                               parseFloat(form.lat), editing.value.color)
    ensures r.0.Some? && status == 200 ==> r.1 == ReplaceById(assets, editing.value.id, r.0.value.body)
    ensures r.0.None? || status != 200 ==> r.1 == assets
    ensures |r.1| == |assets|
  {
    if editing.None? || Trim(form.name) == "" then (None, assets)
    else
      var u := AssetUpdate(form.name, form.description, parseFloat(form.lng), parseFloat(form.lat),
                           editing.value.color);
      var call := Call(Put, "/api/assets/" + editing.value.id, u);
      if status == 200 then (Some(call), ReplaceById(assets, editing.value.id, u)) else (Some(call), assets)
  }

  /** Repeating a successful update changes nothing more. */
  lemma ReplaceByIdIdempotent(assets: seq<AssetEntry>, id: string, u: AssetUpdate)
    ensures ReplaceById(ReplaceById(assets, id, u), id, u) == ReplaceById(assets, id, u)
  {
  }

  /** After a successful update the asset is found by searching for its new name. */
  lemma {:induction false} UpdatedAssetFoundByNewName(assets: seq<AssetEntry>, i: int, u: AssetUpdate)
    requires 0 <= i < |assets|
    ensures Apply(assets[i], u) in FilterAssets(ReplaceById(assets, assets[i].id, u), u.name)
  {
    MatchesSelf(u.name);
    assert ReplaceById(assets, assets[i].id, u)[i] == Apply(assets[i], u);
  }

  // ---------------------------------------------------------------- asset delete

  function RemoveAsset(assets: seq<AssetEntry>, id: string): (r: seq<AssetEntry>)
    ensures forall a :: a in r <==> a in assets && a.id != id
    ensures forall a :: multiset(r)[a] == if a.id != id then multiset(assets)[a] else 0
    ensures Lists.IsSubsequence(r, assets)
  {
    Lists.Filter(assets, (a: AssetEntry) => a.id != id)
  }

  /** `handleConfirmDelete`: nothing happens unless an asset is marked for deletion; otherwise
      `DELETE /api/assets/{id}` is sent and, on HTTP 200, exactly the assets with that id leave
      the list, the rest keeping their order. */
  function DeleteAsset(assets: seq<AssetEntry>, toDelete: Option<string>, status: int)
    : (r: (Option<Call<()>>, seq<AssetEntry>))
    ensures r.0.Some? <==> PresentText(toDelete)
    ensures r.0.Some? ==> r.0.value == Call(Delete, "/api/assets/" + toDelete.value, ())
    ensures r.0.Some? && status == 200 ==> r.1 == RemoveAsset(assets, toDelete.value)
    ensures r.0.None? || status != 200 ==> r.1 == assets
  {
    if !PresentText(toDelete) then (None, assets)
    else
      var call := Call(Delete, "/api/assets/" + toDelete.value, ());
      if status == 200 then (Some(call), RemoveAsset(assets, toDelete.value)) else (Some(call), assets)
  }

  /** Removing an id twice is removing it once. */
  lemma {:induction false} RemoveAssetIdempotent(assets: seq<AssetEntry>, id: string)
    ensures RemoveAsset(RemoveAsset(assets, id), id) == RemoveAsset(assets, id)
  {
    Lists.FilterKeepsAll(RemoveAsset(assets, id), (a: AssetEntry) => a.id != id);
  }

  // ---------------------------------------------------------------- logs

  /** The text fields of a log being written or edited. */
  datatype LogDraft = LogDraft(title: string, logType: string, description: string, technician: string)

  const EmptyDraft := LogDraft("", "", "", "")

  /** Every field of the draft is filled in. */
  predicate Complete(d: LogDraft) {
    d.title != "" && d.logType != "" && d.description != "" && d.technician != ""
  }

  /** The body of `PUT /api/logs`. */
  datatype LogUpdateBody = LogUpdateBody(id: string, title: string, logType: string,
                                         description: string, technician: string)

  /** `handleSaveLog`: nothing happens without a log being edited or with an empty field;
      otherwise `PUT /api/logs` is sent and, on an ok response, the edited log takes the
      returned title, job type, description, technician and update time, and editing ends. */
  function SaveLog(logs: seq<LogEntry>, editingId: Option<string>, d: LogDraft, ok: bool, saved: ServerLog)
    : (r: (Option<Call<LogUpdateBody>>, seq<LogEntry>, bool))
    ensures r.0.Some? <==> PresentText(editingId) && Complete(d)
    ensures r.0.Some? ==> r.0.value == Call(Put, "/api/logs",
                                            LogUpdateBody(editingId.value, d.title, d.logType, d.description, d.technician))
    ensures |r.1| == |logs|
    ensures r.2 <==> r.0.Some? && ok
    ensures forall i :: 0 <= i < |logs| ==>
              r.1[i] == if r.2 && logs[i].id == editingId.value
                        then logs[i].(title := saved.title, logType := saved.jobType,
                                      description := saved.description, technician := saved.technician,
                                      updatedAt := saved.updatedAt)
                        else logs[i]
  {
    if !PresentText(editingId) || !Complete(d) then (None, logs, false)
    else
      var call := Call(Put, "/api/logs", LogUpdateBody(editingId.value, d.title, d.logType, d.description, d.technician));
      if !ok then (Some(call), logs, false)
      else
        var updated := seq(|logs|, i requires 0 <= i < |logs| =>
                             if logs[i].id == editingId.value
                             then logs[i].(title := saved.title, logType := saved.jobType,
                                           description := saved.description, technician := saved.technician,
                                           updatedAt := saved.updatedAt)
                             else logs[i]);
        (Some(call), updated, true)
  }

  /** Saving a log never moves a log to another asset or changes its id, so the sidebar's list
      for any asset keeps its length; after a successful save the edited log, where it belongs
      to that asset, is listed with the title the server returned. */
  lemma {:induction false} SaveLogKeepsPlaces(logs: seq<LogEntry>, editingId: Option<string>, d: LogDraft,
                                              ok: bool, saved: ServerLog, a: AssetEntry)
    ensures var after := SaveLog(logs, editingId, d, ok, saved).1;
            && (forall i :: 0 <= i < |logs| ==> after[i].id == logs[i].id && after[i].assetId == logs[i].assetId)
            && |CurrentAssetLogs(after, Some(a))| == |CurrentAssetLogs(logs, Some(a))|
    ensures var (_, after, done) := SaveLog(logs, editingId, d, ok, saved);
            forall i :: done && 0 <= i < |logs| && logs[i].id == editingId.value && logs[i].assetId == a.id ==>
              after[i].title == saved.title && after[i] in CurrentAssetLogs(after, Some(a))
  {
    var after := SaveLog(logs, editingId, d, ok, saved).1;
    Lists.FilterLengthAgrees(after, logs, (l: LogEntry) => l.assetId == a.id);
  }

  /** `handleDeleteLog`: `DELETE /api/logs?id=...` is always sent; on an ok response exactly the
      logs with that id leave the list, and editing ends if it was that log being edited. */
  function DeleteLog(logs: seq<LogEntry>, logId: string, editingId: Option<string>, ok: bool)
    : (r: (Call<()>, seq<LogEntry>, bool))
    ensures r.0 == Call(Delete, "/api/logs?id=" + logId, ())
    ensures ok ==> forall l :: l in r.1 <==> l in logs && l.id != logId
    ensures ok ==> forall l :: multiset(r.1)[l] == if l.id != logId then multiset(logs)[l] else 0
    ensures ok ==> Lists.IsSubsequence(r.1, logs)
    ensures !ok ==> r.1 == logs
    ensures r.2 <==> ok && editingId == Some(logId)
  {
    var call := Call(Delete, "/api/logs?id=" + logId, ());
    if ok then (call, Lists.Filter(logs, (l: LogEntry) => l.id != logId), editingId == Some(logId))
    else (call, logs, false)
  }

  /** The body of `POST /api/logs`. */
  datatype LogCreateBody = LogCreateBody(title: string, logType: string, description: string,
                                         technician: string, assetId: string)

  /** The created record as the sidebar keeps it: job type as the log type, and the creation
      time standing in for a missing update time. */
  function Format(created: ServerLog): (l: LogEntry)
    ensures l.id == created.id && l.logType == created.jobType && l.assetId == created.assetId
    ensures l.title == created.title && l.description == created.description
            && l.technician == created.technician
    ensures PresentText(created.updatedAt) ==> l.updatedAt == created.updatedAt
    ensures !PresentText(created.updatedAt) ==> l.updatedAt == Some(created.createdAt)
  {
    LogEntry(created.id, created.title, created.jobType, created.description, created.technician,
             if PresentText(created.updatedAt) then created.updatedAt else Some(created.createdAt),
             created.assetId)
  }

  /** `handleAddLog`: nothing happens with an empty field or without an asset being edited;
      otherwise `POST /api/logs` is sent for that asset and, on an ok response, the formatted
      record is appended and the draft cleared. */
  function AddLog(logs: seq<LogEntry>, d: LogDraft, editing: Option<AssetEntry>, ok: bool, created: ServerLog)
    : (r: (Option<Call<LogCreateBody>>, seq<LogEntry>, LogDraft))
    ensures r.0.Some? <==> Complete(d) && editing.Some?
    ensures r.0.Some? ==> r.0.value == Call(Post, "/api/logs",
                                            LogCreateBody(d.title, d.logType, d.description, d.technician, editing.value.id))
    ensures r.0.Some? && ok ==> r.1 == logs + [Format(created)] && r.2 == EmptyDraft
    ensures r.0.None? || !ok ==> r.1 == logs && r.2 == d
  {
    if !Complete(d) || editing.None? then (None, logs, d)
    else
      var call := Call(Post, "/api/logs", LogCreateBody(d.title, d.logType, d.description, d.technician, editing.value.id));
      if ok then (Some(call), logs + [Format(created)], EmptyDraft) else (Some(call), logs, d)
  }

  /** A cleared draft cannot be added again: a second click after a successful add sends nothing. */
  lemma NoDoubleAdd(logs: seq<LogEntry>, d: LogDraft, editing: Option<AssetEntry>, created: ServerLog,
                    ok2: bool, created2: ServerLog)
    requires AddLog(logs, d, editing, true, created).0.Some?
    ensures var (_, after, draft) := AddLog(logs, d, editing, true, created);
            AddLog(after, draft, editing, ok2, created2).0.None?
  {
  }

  /** A log the server records for the edited asset shows among that asset's logs right after
      it is added, and the logs of other assets are unaffected. */
  lemma {:induction false} AddedLogIsShown(logs: seq<LogEntry>, d: LogDraft, a: AssetEntry, created: ServerLog)
    requires Complete(d) && created.assetId == a.id
    ensures var after := AddLog(logs, d, Some(a), true, created).1;
            Format(created) in CurrentAssetLogs(after, Some(a))
            && forall l :: l in CurrentAssetLogs(logs, Some(a)) ==> l in CurrentAssetLogs(after, Some(a))
  {
    var after := AddLog(logs, d, Some(a), true, created).1;
    assert after[|logs|] == Format(created);
    assert forall l :: l in logs ==> l in after;
  }
}
