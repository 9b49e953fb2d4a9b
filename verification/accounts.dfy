/** Accounts and roles: the sign-up form (`src/app/signup/page.tsx`) and the dashboard that a
    signed-in user lands on (`src/app/dashboard/page.tsx`). */
module Accounts {
  import opened Wrappers
  import opened Text

  const FieldStaff := "field_staff"
  const AssetManagement := "asset_management"

  // ---------------------------------------------------------------- sign-up form

  /** The form's values; no role is chosen at first. */
  datatype SignUpForm = SignUpForm(name: string, email: string, password: string,
                                   confirmPassword: string, role: Option<string>)

  datatype SignUpField = NameField | EmailField | PasswordField | RoleField | ConfirmField

  predicate KnownRole(role: Option<string>) {
    role.Some? && (role.value == FieldStaff || role.value == AssetManagement)
  }

  /** The form's schema: a name of at least 2 UTF-16 code units, a valid address, a password
      of at least 6, and one of the two roles. The "passwords match" rule, reported on the
      confirmation, runs only when the role is valid, because a missing or unknown role stops
      the object's refinement. */
  function SignUpErrors(f: SignUpForm, isEmail: string -> bool): (e: set<SignUpField>)
    ensures NameField in e <==> Utf16Length(f.name) < 2
    ensures EmailField in e <==> !isEmail(f.email)
    ensures PasswordField in e <==> Utf16Length(f.password) < 6
    ensures RoleField in e <==> !KnownRole(f.role)
    ensures ConfirmField in e <==> KnownRole(f.role) && f.password != f.confirmPassword
  {
    (if Utf16Length(f.name) < 2 then {NameField} else {})
    + (if isEmail(f.email) then {} else {EmailField})
    + (if Utf16Length(f.password) < 6 then {PasswordField} else {})
    + (if KnownRole(f.role) then (if f.password != f.confirmPassword then {ConfirmField} else {})
       else {RoleField})
  }

  /** Lengths are counted in UTF-16 code units, as JavaScript does: a single character outside
      the Basic Multilingual Plane already meets the two-unit minimum for a name. */
  lemma AstralNameMeetsMinimum(f: SignUpForm, isEmail: string -> bool)
    requires f.name == "\U{1F600}"
    ensures NameField !in SignUpErrors(f, isEmail)
  {
    EmojiTakesTwoUnits();
  }

  /** A form the schema accepts has matching passwords and one of the two roles. */
  lemma AcceptedSignUpShape(f: SignUpForm, isEmail: string -> bool)
    requires SignUpErrors(f, isEmail) == {}
    ensures f.password == f.confirmPassword && KnownRole(f.role) && Utf16Length(f.password) >= 6
  {
    assert RoleField !in SignUpErrors(f, isEmail);
    assert ConfirmField !in SignUpErrors(f, isEmail) && PasswordField !in SignUpErrors(f, isEmail);
  }

  /** How `signUp.email` ended: an error result (with or without a message), success, or a
      thrown exception. */
  datatype SignUpResult = ErrorResult(message: Option<string>) | Success | Threw

  datatype Toast = ErrorToast(text: string) | SuccessToast(text: string)

  /** What the page does after the call: an error result shows its message (or "Sign up
      failed") and stays; success announces itself and goes to the dashboard; an exception
      shows a generic message and stays. */
  function AfterSignUp(r: SignUpResult): (out: (Toast, Option<string>))
    ensures out.1.Some? <==> r.Success?
    ensures out.1.Some? ==> out.1.value == "/dashboard"
    ensures out.0.ErrorToast? <==> !r.Success?
    ensures r.ErrorResult? ==> out.0.text == if PresentText(r.message) then r.message.value else "Sign up failed"
    ensures r.Threw? ==> out.0.text == "An unexpected error occurred"
  {
    match r
    case ErrorResult(m) => (ErrorToast(if PresentText(m) then m.value else "Sign up failed"), None)
    case Success => (SuccessToast("Account created successfully!"), Some("/dashboard"))
    case Threw => (ErrorToast("An unexpected error occurred"), None)
  }

  /** Whatever the outcome, the toast has something to say: an empty error message from the
      server falls back to the generic text. */
  lemma ToastNeverEmpty(r: SignUpResult)
    ensures |AfterSignUp(r).0.text| > 0
  {
  }

  // ---------------------------------------------------------------- dashboard

  datatype SessionUser = SessionUser(name: string, role: string)

  datatype DashboardAction = ManageAssets | ReviewComplaints | ManageInventory

  /** The page each action links to. */
  function Target(a: DashboardAction): string {
    match a
    case ManageAssets => "/manage"
    case ReviewComplaints => "/complaints"
    case ManageInventory => "/inventory"
  }

  /** The actions a role is offered: all three for asset management, asset management only for
      field staff, and none for any other role. */
  function ActionsFor(role: string): (acts: seq<DashboardAction>)
    ensures role == AssetManagement ==> acts == [ManageAssets, ReviewComplaints, ManageInventory]
    ensures role == FieldStaff ==> acts == [ManageAssets]
    ensures role != AssetManagement && role != FieldStaff ==> acts == []
  {
    if role == AssetManagement then [ManageAssets, ReviewComplaints, ManageInventory]
    else if role == FieldStaff then [ManageAssets]
    else []
  }

  /** Only asset-management staff reach the complaint and inventory screens; every role with
      any action can reach the asset map. */
  lemma ActionsByPrivilege(role: string)
    ensures ReviewComplaints in ActionsFor(role) <==> role == AssetManagement
    ensures ManageInventory in ActionsFor(role) <==> role == AssetManagement
    ensures ManageAssets in ActionsFor(role) <==> role == AssetManagement || role == FieldStaff
  {
  }

  /** "You are logged in as": every role but asset management reads as field staff. */
  function RoleLabel(role: string): (s: string)
    ensures s == "Asset Management Staff" <==> role == AssetManagement
    ensures s != "Asset Management Staff" ==> s == "Field Staff"
  {
    if role == AssetManagement then "Asset Management Staff" else "Field Staff"
  }

  /** The role badge: the stored role with its first underscore shown as a space. */
  function RoleBadge(role: string): (s: string)
    ensures |s| == |role|
  {
    ReplaceFirst(role, '_', ' ')
  }

  /** Both roles the form offers show with a space in place of their one underscore. */
  lemma FieldStaffBadge()
    ensures RoleBadge(FieldStaff) == "field" + " " + "staff"
  {
    var a, b := "field", "staff";
    assert a + "_" + b == FieldStaff;
    BadgeOfSplitRole(a, b);
  }

  lemma AssetManagementBadge()
    ensures RoleBadge(AssetManagement) == "asset" + " " + "management"
  {
    var a, b := "asset", "management";
    assert a + "_" + b == AssetManagement;
    BadgeOfSplitRole(a, b);
  }

  /** A role whose first underscore follows `a` shows as `a`, a space, and the rest unchanged. */
  lemma BadgeOfSplitRole(a: string, b: string)
    requires '_' !in a
    ensures RoleBadge(a + "_" + b) == a + " " + b
  {
    ReplaceFirstSplits(a, b, '_', ' ');
  }

  /** Only the first underscore is replaced. */
  lemma RoleBadgeReplacesOnlyFirst(role: string, i: int, j: int)
    requires 0 <= i < j < |role| && role[i] == '_' && role[j] == '_'
    requires forall k :: 0 <= k < i ==> role[k] != '_'
    ensures RoleBadge(role)[i] == ' ' && RoleBadge(role)[j] == '_'
  {
  }

  /** What the dashboard shows: a spinner while the session loads, a redirect to the login
      page once it has loaded empty, and otherwise the user's actions, label and badge. */
  datatype DashboardView =
    | Loading
    | RedirectToLogin
    | Home(actions: seq<DashboardAction>, roleLabel: string, badge: string)

  function Dashboard(isPending: bool, session: Option<SessionUser>): (v: DashboardView)
    ensures v.Loading? <==> isPending
    ensures v.RedirectToLogin? <==> !isPending && session.None?
    ensures v.Home? ==> session.Some? && v.actions == ActionsFor(session.value.role)
                        && v.roleLabel == RoleLabel(session.value.role)
                        && v.badge == RoleBadge(session.value.role)
  {
    if isPending then Loading
    else if session.None? then RedirectToLogin
    else Home(ActionsFor(session.value.role), RoleLabel(session.value.role), RoleBadge(session.value.role))
  }

  /** A successful sign-up through a form the schema accepts leads to the dashboard, which,
      once the new session has loaded, shows that user at least one action. */
  lemma SignUpLeadsToActions(f: SignUpForm, isEmail: string -> bool, name: string)
    requires SignUpErrors(f, isEmail) == {}
    ensures AfterSignUp(Success).1 == Some("/dashboard")
    ensures var v := Dashboard(false, Some(SessionUser(name, f.role.value)));
            v.Home? && |v.actions| > 0 && ManageAssets in v.actions
  {
    AcceptedSignUpShape(f, isEmail);
  }

  /** Everyone who signs up through the form, with either role, sees at least one action. */
  lemma SignedUpUsersHaveActions(f: SignUpForm, isEmail: string -> bool, name: string)
    requires SignUpErrors(f, isEmail) == {}
    ensures Dashboard(false, Some(SessionUser(name, f.role.value))).Home?
    ensures |Dashboard(false, Some(SessionUser(name, f.role.value))).actions| > 0
  {
    AcceptedSignUpShape(f, isEmail);
  }
}
