/** The complaint routes: listing and filing complaints (`src/app/api/complaints/route.ts`)
    and resolving one (`src/app/api/complaints/resolve/route.ts`). */
module ComplaintApi {
  import opened Wrappers
  import opened Schema
  import Ordering
  import Lists

  function CreatedAt(c: Complaint): int {
    c.createdAt
  }

  // ---------------------------------------------------------------- GET

  /** The status filter: skipped for a missing or empty parameter. */
  predicate Selected(status: Option<string>, c: Complaint) {
    status.None? || status.value == "" || c.status == status.value
  }

  /** `GET /api/complaints[?status=s]`: the complaints with that status (all of them when the
      parameter is absent or empty), newest first. */
  function List(table: seq<Complaint>, status: Option<string>): (r: seq<Complaint>)
    ensures Ordering.SortedDesc(r, CreatedAt)
    ensures forall c :: multiset(r)[c] == if Selected(status, c) then multiset(table)[c] else 0
    ensures forall c :: c in r <==> c in table && Selected(status, c)
  {
    var kept := Lists.Filter(table, c => Selected(status, c));
    var sorted := Ordering.SortDesc(kept, CreatedAt);
    assert forall c :: c in sorted <==> c in multiset(sorted);
    sorted
  }

  // ---------------------------------------------------------------- POST

  /** The parsed JSON body of `POST /api/complaints`. */
  datatype ComplaintBody = ComplaintBody(
    name: Field<string>, email: Field<string>, description: Field<string>,
    location: Field<string>, imageUrl: Field<string>)

  datatype PostReply =
    | MissingFields            // 400 "Description and location are required"
    | Created(c: Complaint)    // 201 with the inserted row
    | Failed                   // 500: the insert threw

  function Code(r: PostReply): int {
    match r
    case MissingFields => 400
    case Created(_) => 201
    case Failed => 500
  }

  predicate HasComplaint(table: seq<Complaint>, id: string) {
    exists i :: 0 <= i < |table| && table[i].id == id
  }

  /** `POST /api/complaints`: a falsy description or location is refused; otherwise the row is
      inserted as pending and unresolved, not yet reviewed, with empty optional texts stored as
      null. `createdClock` and `updatedClock` are the two default-value clock readings. */
  function Post(table: seq<Complaint>, body: ComplaintBody, newId: string,
                createdClock: Time, updatedClock: Time): (r: (PostReply, seq<Complaint>))
    ensures r.0.MissingFields? <==> !TruthyText(body.description) || !TruthyText(body.location)
    ensures r.0.Created? <==> TruthyText(body.description) && TruthyText(body.location)
                              && !HasComplaint(table, newId)
    ensures r.0.Created? ==>
              var c := r.0.c;
              && c.id == newId && c.status == "pending" && !c.reviewed && c.resolved.None?
              && c.description == body.description.v && c.location == body.location.v
              && c.name == TextOrNull(body.name) && c.email == TextOrNull(body.email)
              && c.imageUrl == TextOrNull(body.imageUrl)
              && r.1 == table + [c]
    ensures !r.0.Created? ==> r.1 == table
  {
    if !TruthyText(body.description) || !TruthyText(body.location) then (MissingFields, table)
    else
      var values := ComplaintValues(newId, TextOrNull(body.name), TextOrNull(body.email),
                                    body.description.v, body.location.v, TextOrNull(body.imageUrl),
                                    Value("pending"), Missing, None);
      match ComplaintRow(values, createdClock, updatedClock)
      case None => (Failed, table)
      case Some(c) =>
        if HasComplaint(table, newId) then (Failed, table) else (Created(c), table + [c])
  }

  /** Filing keeps complaint ids unique. */
  lemma PostKeepsIdsUnique(table: seq<Complaint>, body: ComplaintBody, newId: string,
                           createdClock: Time, updatedClock: Time)
    requires UniqueComplaintIds(table)
    ensures UniqueComplaintIds(Post(table, body, newId, createdClock, updatedClock).1)
  {
    var (reply, after) := Post(table, body, newId, createdClock, updatedClock);
    if reply.Created? {
      forall i, j | 0 <= i < j < |after| ensures after[i].id != after[j].id {
        if j == |table| {
          assert after[i] == table[i];
        } else {
          assert after[i] == table[i] && after[j] == table[j];
        }
      }
    }
  }

  // ---------------------------------------------------------------- resolve

  /** A complaint as the resolve route leaves it: status "resolved" and the resolution time
      set, every other column (`reviewed` and `updatedAt` included) as it was. */
  function MarkResolved(c: Complaint, now: Time): (r: Complaint)
    ensures r.status == "resolved" && r.resolved == Some(now)
    ensures r.(status := c.status, resolved := c.resolved) == c
  {
    c.(status := "resolved", resolved := Some(now))
  }

  /** `UPDATE complaint SET status, resolved WHERE id = ...` over the whole table. */
  function ResolveRows(table: seq<Complaint>, id: string, now: Time): (r: seq<Complaint>)
    ensures |r| == |table|
    ensures forall i :: 0 <= i < |table| ==>
              r[i] == if table[i].id == id then MarkResolved(table[i], now) else table[i]
  {
    seq(|table|, i requires 0 <= i < |table| =>
          if table[i].id == id then MarkResolved(table[i], now) else table[i])
  }

  /** Position `k` holds the first complaint with this id. */
  ghost predicate FirstWithId(table: seq<Complaint>, id: string, k: int) {
    0 <= k < |table| && table[k].id == id && forall j :: 0 <= j < k ==> table[j].id != id
  }

  /** Past a leading complaint with another id, the first match moves up by one place. */
  lemma FirstWithIdShifts(table: seq<Complaint>, id: string, k: int)
    requires |table| > 0 && table[0].id != id && FirstWithId(table[1..], id, k)
    ensures FirstWithId(table, id, k + 1) && table[k + 1] == table[1..][k]
  {
    assert forall j :: 1 <= j < k + 1 ==> table[j] == table[1..][j - 1];
  }

  /** The first complaint with this id, as `complaints[0]` of the lookup. */
  function Find(table: seq<Complaint>, id: string): (r: Option<Complaint>)
    ensures r.Some? <==> HasComplaint(table, id)
    ensures r.Some? ==> r.value in table && r.value.id == id
    ensures r.Some? ==> exists k :: FirstWithId(table, id, k) && table[k] == r.value
  {
    if |table| == 0 then None
    else if table[0].id == id then Some(table[0])
    else
      assert HasComplaint(table, id) <==> HasComplaint(table[1..], id) by {
        if HasComplaint(table, id) {
          var k :| 0 <= k < |table| && table[k].id == id;
          assert table[1..][k - 1] == table[k];
        }
        if HasComplaint(table[1..], id) {
          var k :| 0 <= k < |table[1..]| && table[1..][k].id == id;
          assert table[k + 1] == table[1..][k];
        }
      }
      var rest := Find(table[1..], id);
      assert rest.Some? ==> exists k :: FirstWithId(table, id, k) && table[k] == rest.value by {
        if rest.Some? {
          var k :| FirstWithId(table[1..], id, k) && table[1..][k] == rest.value;
          FirstWithIdShifts(table, id, k);
        }
      }
      rest
  }

  datatype ResolveReply =
    | MissingId                  // 400 "Complaint ID is required"
    | NotFound                   // 404 "Complaint not found"
    | Resolved(c: Complaint)     // 200 with the updated row

  function ResolveCode(r: ResolveReply): int {
    match r
    case MissingId => 400
    case NotFound => 404
    case Resolved(_) => 200
  }

  /** The outcome of `POST /api/complaints/resolve`: the reply, the table afterwards, and the
      address a resolution notice is sent to, if any. */
  datatype ResolveOutcome = ResolveOutcome(reply: ResolveReply, table: seq<Complaint>, noticeTo: Option<string>)

  /** `POST /api/complaints/resolve`: a falsy id is refused and an unknown one is not found;
      otherwise every row with that id is resolved at `now`, whatever its status was, and a
      notice goes to the complaint's address exactly when it has a non-empty one. A failure to
      send the notice is swallowed, so the reply never depends on it. */
  function Resolve(table: seq<Complaint>, id: Field<string>, now: Time): (r: ResolveOutcome)
    ensures r.reply.MissingId? <==> !TruthyText(id)
    ensures r.reply.NotFound? <==> TruthyText(id) && !HasComplaint(table, id.v)
    ensures !r.reply.Resolved? ==> r.table == table && r.noticeTo.None?
    ensures r.reply.Resolved? ==>
              && r.reply.c == MarkResolved(Find(table, id.v).value, now)
              && r.table == ResolveRows(table, id.v, now)
              && (r.noticeTo.Some? <==> PresentText(Find(table, id.v).value.email))
              && (r.noticeTo.Some? ==> r.noticeTo == Find(table, id.v).value.email)
  {
    if !TruthyText(id) then ResolveOutcome(MissingId, table, None)
    else
      match Find(table, id.v)
      case None => ResolveOutcome(NotFound, table, None)
      case Some(existing) =>
        var noticeTo := if PresentText(existing.email) then existing.email else None;
        ResolveOutcome(Resolved(MarkResolved(existing, now)), ResolveRows(table, id.v, now), noticeTo)
  }

  /** Resolving has no status precondition: resolving an already resolved complaint again
      succeeds and only moves its resolution time; the table ends as if it had been resolved
      once, at the later time. */
  lemma ResolveTwiceIsResolveLater(table: seq<Complaint>, id: string, t1: Time, t2: Time)
    requires id != ""
    ensures
      var first := Resolve(table, Value(id), t1);
      var second := Resolve(first.table, Value(id), t2);
      && (first.reply.Resolved? <==> second.reply.Resolved?)
      && second.table == Resolve(table, Value(id), t2).table
  {
    if HasComplaint(table, id) {
      var mid := ResolveRows(table, id, t1);
      assert HasComplaint(mid, id) by {
        var k :| 0 <= k < |table| && table[k].id == id;
        assert mid[k].id == id;
      }
      ResolveRowsTwice(table, id, t1, t2);
    }
  }

  /** A second update of the same rows overwrites the first. */
  lemma ResolveRowsTwice(table: seq<Complaint>, id: string, t1: Time, t2: Time)
    ensures ResolveRows(ResolveRows(table, id, t1), id, t2) == ResolveRows(table, id, t2)
  {
    var mid := ResolveRows(table, id, t1);
    forall i | 0 <= i < |table|
      ensures ResolveRows(mid, id, t2)[i] == ResolveRows(table, id, t2)[i]
    {
      assert mid[i].id == table[i].id;
    }
  }

  /** The resolved row keeps its review flag, text and creation data; only status and
      resolution time move. */
  lemma ResolveKeepsOtherColumns(table: seq<Complaint>, id: string, now: Time, i: int)
    requires id != "" && 0 <= i < |table|
    ensures
      var after := Resolve(table, Value(id), now).table;
      && |after| == |table|
      && after[i].reviewed == table[i].reviewed && after[i].updatedAt == table[i].updatedAt
      && after[i].description == table[i].description && after[i].email == table[i].email
      && (table[i].id != id ==> after[i] == table[i])
      && (table[i].id == id ==> after[i].status == "resolved" && after[i].resolved == Some(now))
  {
  }
}
