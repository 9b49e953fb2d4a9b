/** The administrator's request table (`src/components/requests/requests-table.tsx`) and its
    denial dialog (`src/components/requests/deny-request-dialog.tsx`): searching, the status
    badge, which rows offer actions, and the update messages the two actions send to
    `PUT /api/requests/{id}`. */
module RequestReview {
  import opened Wrappers
  import opened Schema
  import opened Text
  import opened Http
  import opened RequestTypes
  import Lists

  // ---------------------------------------------------------------- search box

  /** A request is found by a term contained in its requestor's address or its item's name,
      ignoring case. */
  predicate SearchHit(term: string, q: EquipmentRequest) {
    Matches(q.requestorEmail, term) || Matches(q.inventoryItemName, term)
  }

  function SearchRequests(rows: seq<EquipmentRequest>, term: string): (r: seq<EquipmentRequest>)
    ensures forall q :: q in r <==> q in rows && (term == "" || SearchHit(term, q))
    ensures forall q :: multiset(r)[q] == if term == "" || SearchHit(term, q) then multiset(rows)[q] else 0
    ensures Lists.IsSubsequence(r, rows)
  {
    if term == "" then Lists.IsSubsequenceRefl(rows); rows else Lists.Filter(rows, q => SearchHit(term, q))
  }

  /** The empty-term shortcut changes nothing: filtering with the empty term keeps every row. */
  lemma {:induction false} EmptyTermShortcutAgrees(rows: seq<EquipmentRequest>)
    ensures SearchRequests(rows, "") == Lists.Filter(rows, q => SearchHit("", q))
  {
    forall q | q in rows ensures SearchHit("", q) {
      MatchesEmpty(q.requestorEmail);
    }
    Lists.FilterKeepsAll(rows, q => SearchHit("", q));
  }

  /** Typing a requestor's address, in any case, finds every request of theirs. */
  lemma {:induction false} FoundByRequestorEmail(rows: seq<EquipmentRequest>, q: EquipmentRequest)
    requires q in rows
    ensures q in SearchRequests(rows, q.requestorEmail)
    ensures q in SearchRequests(rows, Lower(q.requestorEmail))
  {
    MatchesSelf(q.requestorEmail);
    MatchesIgnoresTermCase(q.requestorEmail, q.requestorEmail);
  }

  // ---------------------------------------------------------------- status badge

  datatype StatusBadge = KnownBadge(status: RequestStatus) | RawBadge(text: string)

  /** `getStatusBadge`: the three known statuses get their own badge; any other text is shown
      as it is. */
  function Badge(status: string): (b: StatusBadge)
    ensures b.KnownBadge? <==> ParseStatus(status).Some?
    ensures b.KnownBadge? ==> StatusText(b.status) == status
    ensures b.RawBadge? ==> b.text == status
  {
    match ParseStatus(status)
    case Some(s) => KnownBadge(s)
    case None => RawBadge(status)
  }

  // ---------------------------------------------------------------- row actions

  datatype Action = ApproveAction | DenyAction

  /** The action menu: approve and deny for a pending request, nothing otherwise. */
  function ActionsFor(status: string): (acts: seq<Action>)
    ensures |acts| > 0 <==> status == "pending"
    ensures status == "pending" ==> acts == [ApproveAction, DenyAction]
  {
    if status == "pending" then [ApproveAction, DenyAction] else []
  }

  /** A request that an update message has moved to its target offers no further action. */
  lemma DecidedRequestsOfferNoActions(t: UpdateTarget)
    ensures ActionsFor(StatusText(TargetStatus(t))) == []
  {
  }

  /** `handleApproveRequest`: `PUT /api/requests/{id}` with `{status: 'approved'}`, and a refresh
      of the table only when the response is ok. */
  function Approve(id: string, ok: bool): (r: (Call<UpdateBody>, bool))
    ensures r.0.verb == Put && r.0.path == "/api/requests/" + id
    ensures DecodeUpdate(id, r.0.body) == Some(UpdateMessage(id, ToApproved, None))
    ensures r.1 == ok
  {
    (Call(Put, "/api/requests/" + id, UpdateBody("approved", None)), ok)
  }

  // ---------------------------------------------------------------- denial dialog

  /** The dialog's schema: a reason of 1 to 500 UTF-16 code units. */
  predicate ReasonValid(reason: string) {
    1 <= Utf16Length(reason) <= 500
  }

  /** `handleSubmit` of the dialog, run only for a valid reason: `PUT /api/requests/{id}` with
      `{status: 'denied', denialReason}`. When the response is ok the table closes the dialog
      and refreshes; otherwise the dialog stays open. */
  function Deny(id: string, reason: string, ok: bool): (r: (Option<Call<UpdateBody>>, bool))
    ensures r.0.Some? <==> ReasonValid(reason)
    ensures r.0.Some? ==> r.0.value.verb == Put && r.0.value.path == "/api/requests/" + id
                          && DecodeUpdate(id, r.0.value.body) == Some(UpdateMessage(id, ToDenied, Some(reason)))
    ensures r.1 <==> ReasonValid(reason) && ok
  {
    if !ReasonValid(reason) then (None, false)
    else (Some(Call(Put, "/api/requests/" + id, UpdateBody("denied", Some(reason)))), ok)
  }

  /** The reason box is emptied each time the dialog opens, so a denial always needs a newly
      typed reason. */
  lemma ReopenedDialogCannotDeny(id: string, ok: bool)
    ensures Deny(id, "", ok).0.None?
  {
  }
}
