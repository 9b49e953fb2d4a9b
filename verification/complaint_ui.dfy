/** The complaint screens: the complaints page's review filter and figures
    (`src/app/complaints/page.tsx`), the complaint table's search box, status badge and
    review toggle (`src/components/complaints/complaints-table.tsx`), and the public
    complaint form (`src/app/submit-complaint/page.tsx`). */
module ComplaintUi {
  import opened Wrappers
  import opened Schema
  import opened Text
  import opened Http
  import Lists
  import Dates
  import ComplaintApi

  // ---------------------------------------------------------------- review filter

  datatype ReviewFilter = All | ReviewedOnly | ToReview

  predicate IsReviewed(c: Complaint) {
    c.reviewed
  }

  predicate IsUnreviewed(c: Complaint) {
    !c.reviewed
  }

  /** `filteredComplaints` of the page: the reviewed ones, the ones still to review, or all. */
  function FilterByReview(cs: seq<Complaint>, f: ReviewFilter): (r: seq<Complaint>)
    ensures f == All ==> r == cs
    ensures f != All ==> forall c :: c in r <==> c in cs && (c.reviewed <==> f == ReviewedOnly)
    ensures forall c :: multiset(r)[c] == if f == All || (c.reviewed <==> f == ReviewedOnly) then multiset(cs)[c] else 0
    ensures Lists.IsSubsequence(r, cs)
  {
    match f
    case All => Lists.IsSubsequenceRefl(cs); cs
    case ReviewedOnly => Lists.Filter(cs, IsReviewed)
    case ToReview => Lists.Filter(cs, IsUnreviewed)
  }

  /** `reviewedCount` and `toReviewCount`. */
  function ReviewedCount(cs: seq<Complaint>): (n: nat)
    ensures n <= |cs|
  {
    Lists.Count(cs, IsReviewed)
  }

  function ToReviewCount(cs: seq<Complaint>): (n: nat)
    ensures n <= |cs|
  {
    Lists.Count(cs, IsUnreviewed)
  }

  /** Every complaint is counted exactly once by the two figures, and each figure is the length
      of the list its filter shows. */
  lemma ReviewCountsPartition(cs: seq<Complaint>)
    ensures ReviewedCount(cs) + ToReviewCount(cs) == |cs|
    ensures |FilterByReview(cs, ReviewedOnly)| == ReviewedCount(cs)
    ensures |FilterByReview(cs, ToReview)| == ToReviewCount(cs)
  {
    Lists.CountPartition(cs, IsReviewed, IsUnreviewed);
  }

  // ---------------------------------------------------------------- monthly figure

  /** The page counts a fixed month, not the current one: zero-based month 5 (June) of 2025. */
  const ShownMonth := 5
  const ShownYear := 2025

  /** `totalComplaints`: the complaints whose creation time, received as JSON text written by
      `wire`, falls in June 2025. */
  function TotalThisMonth(cs: seq<Complaint>, wire: Time -> string,
                          parse: string -> Option<Time>, calendar: Time -> Dates.YearMonth): (n: nat)
    ensures n <= |cs|
  {
    Lists.Count(cs, (c: Complaint) =>
      Dates.IsDateInMonthYear(Dates.Text(wire(c.createdAt)), ShownMonth, ShownYear, parse, calendar))
  }

  /** When the JSON text of every instant is non-empty and parses back to that instant, the
      figure counts exactly the complaints created in June 2025 by the browser's calendar. */
  lemma TotalThisMonthCountsJune2025(cs: seq<Complaint>, wire: Time -> string,
                                     parse: string -> Option<Time>, calendar: Time -> Dates.YearMonth)
    requires forall t :: wire(t) != "" && parse(wire(t)) == Some(t)
    ensures TotalThisMonth(cs, wire, parse, calendar)
            == Lists.Count(cs, (c: Complaint) => calendar(c.createdAt) == Dates.YearMonth(2025, 5))
  {
    var viaText := (c: Complaint) =>
      Dates.IsDateInMonthYear(Dates.Text(wire(c.createdAt)), ShownMonth, ShownYear, parse, calendar);
    var direct := (c: Complaint) => calendar(c.createdAt) == Dates.YearMonth(2025, 5);
    forall c: Complaint ensures viaText(c) == direct(c) {
      Dates.TextAgreesWithInstant(wire(c.createdAt), c.createdAt, ShownMonth, ShownYear, parse, calendar);
    }
    Lists.CountMonotone(cs, viaText, direct);
    Lists.CountMonotone(cs, direct, viaText);
  }

  // ---------------------------------------------------------------- search box

  /** A complaint is found by a term in its description, its location, or its non-empty name
      or address, ignoring case. */
  predicate SearchHit(term: string, c: Complaint) {
    Matches(c.description, term) || Matches(c.location, term)
    || MatchesOptional(c.name, term) || MatchesOptional(c.email, term)
  }

  function SearchComplaints(cs: seq<Complaint>, term: string): (r: seq<Complaint>)
    ensures forall c :: c in r <==> c in cs && (term == "" || SearchHit(term, c))
    ensures forall c :: multiset(r)[c] == if term == "" || SearchHit(term, c) then multiset(cs)[c] else 0
    ensures Lists.IsSubsequence(r, cs)
  {
    if term == "" then Lists.IsSubsequenceRefl(cs); cs else Lists.Filter(cs, c => SearchHit(term, c))
  }

  /** The empty-term shortcut changes nothing: filtering with the empty term keeps every complaint. */
  lemma {:induction false} EmptyTermShortcutAgrees(cs: seq<Complaint>)
    ensures SearchComplaints(cs, "") == Lists.Filter(cs, c => SearchHit("", c))
  {
    forall c | c in cs ensures SearchHit("", c) {
      MatchesEmpty(c.description);
    }
    Lists.FilterKeepsAll(cs, c => SearchHit("", c));
  }

  // ---------------------------------------------------------------- status badge

  datatype ComplaintStatus = StatusPending | StatusInProgress | StatusResolved

  function ComplaintStatusText(s: ComplaintStatus): string {
    match s
    case StatusPending => "pending"
    case StatusInProgress => "in_progress"
    case StatusResolved => "resolved"
  }

  datatype StatusBadge = KnownBadge(status: ComplaintStatus) | RawBadge(text: string)

  /** `getStatusBadge`: pending, in progress and resolved get their own badge; any other text
      is shown as it is. */
  function Badge(status: string): (b: StatusBadge)
    ensures b.KnownBadge? <==> status == "pending" || status == "in_progress" || status == "resolved"
    ensures b.KnownBadge? ==> ComplaintStatusText(b.status) == status
    ensures b.RawBadge? ==> b.text == status
  {
    if status == "pending" then KnownBadge(StatusPending)
    else if status == "in_progress" then KnownBadge(StatusInProgress)
    else if status == "resolved" then KnownBadge(StatusResolved)
    else RawBadge(status)
  }

  /** Every complaint the resolve route has touched shows the resolved badge. */
  lemma ResolvedRowsShowResolvedBadge(table: seq<Complaint>, id: string, now: Time)
    requires id != ""
    ensures var out := ComplaintApi.Resolve(table, Value(id), now);
            out.reply.Resolved? ==> Badge(out.reply.c.status) == KnownBadge(StatusResolved)
  {
  }

  // ---------------------------------------------------------------- review toggle

  datatype ToggleLabel = MarkReviewed | MarkNotReviewed

  /** The JSON body `{reviewed}` of `PUT /api/complaints/{id}`. */
  datatype ReviewBody = ReviewBody(reviewed: bool)

  /** The row menu offers the one action that flips the flag: "Mark as Not Reviewed" for a
      reviewed complaint, "Mark as Reviewed" otherwise; the body carries the flipped flag, and
      the table is refreshed only on an ok response. */
  function ReviewToggle(c: Complaint, ok: bool): (r: (ToggleLabel, Call<ReviewBody>, bool))
    ensures r.0 == MarkNotReviewed <==> c.reviewed
    ensures r.1.verb == Put && r.1.path == "/api/complaints/" + c.id
    ensures r.1.body.reviewed != c.reviewed
    ensures r.2 == ok
  {
    if c.reviewed then (MarkNotReviewed, Call(Put, "/api/complaints/" + c.id, ReviewBody(false)), ok)
    else (MarkReviewed, Call(Put, "/api/complaints/" + c.id, ReviewBody(true)), ok)
  }

  /** Toggling twice asks for the flag the complaint started with. */
  lemma ToggleTwiceRestores(c: Complaint, ok: bool)
    ensures var once := c.(reviewed := ReviewToggle(c, ok).1.body.reviewed);
            ReviewToggle(once, ok).1.body.reviewed == c.reviewed
            && ReviewToggle(once, ok).0 != ReviewToggle(c, ok).0
  {
  }

  // ---------------------------------------------------------------- complaint form

  /** The public form's values; name and address may be left empty. */
  datatype ComplaintForm = ComplaintForm(name: Option<string>, email: Option<string>,
                                         description: string, location: string)

  datatype FormField = EmailField | DescriptionField | LocationField

  /** The form's schema: the address may be absent, empty or valid; the description needs
      at least 10 UTF-16 code units and the location at least 5; the name is free. */
  function FormErrors(f: ComplaintForm, isEmail: string -> bool): (e: set<FormField>)
    ensures EmailField in e <==> f.email.Some? && f.email.value != "" && !isEmail(f.email.value)
    ensures DescriptionField in e <==> Utf16Length(f.description) < 10
    ensures LocationField in e <==> Utf16Length(f.location) < 5
  {
    (if f.email.Some? && f.email.value != "" && !isEmail(f.email.value) then {EmailField} else {})
    + (if Utf16Length(f.description) < 10 then {DescriptionField} else {})
    + (if Utf16Length(f.location) < 5 then {LocationField} else {})
  }

  /** How the optional image upload ended: no file chosen, an upload error, or an upload that
      returned a URL (possibly empty). */
  datatype UploadOutcome = NoFile | UploadFailed | Uploaded(url: Option<string>)

  /** The image address sent: only a non-empty uploaded URL; an upload error is logged and the
      complaint is filed without an image. */
  function ImageUrl(u: UploadOutcome): (r: Option<string>)
    ensures r.Some? <==> u.Uploaded? && PresentText(u.url)
    ensures r.Some? ==> r == u.url
  {
    if u.Uploaded? then NonEmptyOrAbsent(u.url) else None
  }

  /** A present optional value, as a property of the JSON body; an absent one is left out. */
  function AsField(o: Option<string>): (r: Field<string>)
    ensures r.Value? <==> o.Some?
    ensures r.Value? ==> r.v == o.value
    ensures r != Null
  {
    if o.Some? then Value(o.value) else Missing
  }

  /** `handleSubmit`, run only for a valid form: `POST /api/complaints` with empty name and
      address left out and the image address from the upload; the confirmation is shown only
      on an ok response. */
  function Submit(f: ComplaintForm, isEmail: string -> bool, upload: UploadOutcome, ok: bool)
    : (r: (Option<Call<ComplaintApi.ComplaintBody>>, bool))
    ensures r.0.Some? <==> FormErrors(f, isEmail) == {}
    ensures r.0.Some? ==>
              var b := r.0.value.body;
              && r.0.value.verb == Post && r.0.value.path == "/api/complaints"
              && b.name == AsField(NonEmptyOrAbsent(f.name)) && b.email == AsField(NonEmptyOrAbsent(f.email))
              && b.description == Value(f.description) && b.location == Value(f.location)
              && b.imageUrl == AsField(ImageUrl(upload))
    ensures r.1 <==> r.0.Some? && ok
  {
    if FormErrors(f, isEmail) != {} then (None, false)
    else
      var body := ComplaintApi.ComplaintBody(AsField(NonEmptyOrAbsent(f.name)),
                                             AsField(NonEmptyOrAbsent(f.email)),
                                             Value(f.description), Value(f.location),
                                             AsField(ImageUrl(upload)));
      (Some(Call(Post, "/api/complaints", body)), ok)
  }

  /** Whatever happened to the image, a complaint the form sends is accepted by the server
      given a fresh id, and the stored row carries the form's name and address when they were
      filled in, and null when they were left empty. */
  lemma SubmittedComplaintIsFiled(table: seq<Complaint>, f: ComplaintForm, isEmail: string -> bool,
                                  upload: UploadOutcome, ok: bool, newId: string,
                                  createdClock: Time, updatedClock: Time)
    requires Submit(f, isEmail, upload, ok).0.Some?
    requires !ComplaintApi.HasComplaint(table, newId)
    ensures
      var body := Submit(f, isEmail, upload, ok).0.value.body;
      var (reply, _) := ComplaintApi.Post(table, body, newId, createdClock, updatedClock);
      && reply.Created?
      && reply.c.name == NonEmptyOrAbsent(f.name) && reply.c.email == NonEmptyOrAbsent(f.email)
      && reply.c.imageUrl == ImageUrl(upload)
      && reply.c.description == f.description && reply.c.status == "pending"
  {
    assert DescriptionField !in FormErrors(f, isEmail) && LocationField !in FormErrors(f, isEmail);
  }
}
