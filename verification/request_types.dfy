/** The equipment-request message shapes of `src/types/request.ts`: the record a client
    reads, the creation message, and the status-update message. */
module RequestTypes {
  import opened Wrappers
  import Schema

  /** `'pending' | 'approved' | 'denied'`. */
  datatype RequestStatus = Pending | Approved | Denied

  function StatusText(s: RequestStatus): string {
    match s
    case Pending => "pending"
    case Approved => "approved"
    case Denied => "denied"
  }

  /** Reads a stored status column back into the union; any other text has no status. */
  function ParseStatus(t: string): (r: Option<RequestStatus>)
    ensures r.Some? <==> t == "pending" || t == "approved" || t == "denied"
    ensures r.Some? ==> StatusText(r.value) == t
  {
    if t == "pending" then Some(Pending)
    else if t == "approved" then Some(Approved)
    else if t == "denied" then Some(Denied)
    else None
  }

  /** Every status survives being written to the text column and read back. */
  lemma StatusRoundTrip(s: RequestStatus)
    ensures ParseStatus(StatusText(s)) == Some(s)
  {
  }

  /** `EquipmentRequest` as the client types it: the status is one of the three, and the
      denial reason is a string or `null`. */
  datatype EquipmentRequestView = EquipmentRequestView(
    id: string, requestorEmail: string, inventoryId: string, inventoryItemName: string,
    quantity: int, startDate: string, endDate: string, status: RequestStatus,
    denialReason: Option<string>, createdAt: Schema.Time, updatedAt: Schema.Time)

  /** The typed view of a stored row: it exists exactly when the row's status is one of the
      three the interface names, and it carries every other column unchanged. */
  function ViewOf(row: Schema.EquipmentRequest): (r: Option<EquipmentRequestView>)
    ensures r.Some? <==> ParseStatus(row.status).Some?
    ensures r.Some? ==> StatusText(r.value.status) == row.status
                        && r.value.denialReason == row.denialReason
                        && r.value.id == row.id && r.value.quantity == row.quantity
                        && r.value.inventoryItemName == row.inventoryItemName
  {
    match ParseStatus(row.status)
    case None => None
    case Some(s) =>
      Some(EquipmentRequestView(row.id, row.requestorEmail, row.inventoryId,
                                row.inventoryItemName, row.quantity, row.startDate, row.endDate,
                                s, row.denialReason, row.createdAt, row.updatedAt))
  }

  /** `CreateEquipmentRequestRequest`: no id, status or denial reason; the server decides those. */
  datatype CreateMessage = CreateMessage(
    requestorEmail: string, inventoryId: string, inventoryItemName: string,
    quantity: int, startDate: Schema.Time, endDate: Schema.Time)

  /** The target of `UpdateRequestStatusRequest.status`: `'approved' | 'denied'` only. */
  datatype UpdateTarget = ToApproved | ToDenied

  /** `UpdateRequestStatusRequest`, with its optional denial reason. */
  datatype UpdateMessage = UpdateMessage(id: string, status: UpdateTarget, denialReason: Option<string>)

  /** The status an update asks for: never back to pending. */
  function TargetStatus(t: UpdateTarget): (s: RequestStatus)
    ensures s != Pending
    ensures s == Approved <==> t == ToApproved
  {
    match t
    case ToApproved => Approved
    case ToDenied => Denied
  }

  /** The JSON body a client sends to update a request: `{status, denialReason?}`. */
  datatype UpdateBody = UpdateBody(status: string, denialReason: Option<string>)

  /** Reads an update body as the typed message; bodies whose status is not one of the two
      targets have no typed reading. */
  function DecodeUpdate(id: string, b: UpdateBody): (r: Option<UpdateMessage>)
    ensures r.Some? <==> b.status == "approved" || b.status == "denied"
    ensures r.Some? ==> StatusText(TargetStatus(r.value.status)) == b.status
                        && r.value.denialReason == b.denialReason && r.value.id == id
  {
    if b.status == "approved" then Some(UpdateMessage(id, ToApproved, b.denialReason))
    else if b.status == "denied" then Some(UpdateMessage(id, ToDenied, b.denialReason))
    else None
  }
}
