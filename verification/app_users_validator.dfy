/**
 `AppAndUsersValidator`: the request that creates an app with its first
 users. Admin ids and user Synapse ids are looked up in Synapse; a lookup
 that fails for any reason other than "not found" aborts the validation.

 The Synapse client and `BridgeUtils.toSynapseFriendlyName` are parameters.
 */
module AppAndUsersValidation {
  import opened Common
  import opened Numerals

  /** A `Roles` constant, by name. */
  datatype Role = Role(name: string)

  const ADMIN := Role("ADMIN")
  const WORKER := Role("WORKER")
  const SUPERADMIN := Role("SUPERADMIN")

  /** Roles an app-and-users request may not grant. */
  const RESTRICTED_ROLES := {ADMIN, WORKER, SUPERADMIN}

  datatype Participant = Participant(synapseUserId: Option<string>, roles: Option<set<Role>>)

  datatype App = App(name: Option<string>, sponsorName: Option<string>, identifier: Option<string>)

  datatype AppAndUsers = AppAndUsers(adminIds: Option<seq<Option<string>>>,
                                     users: Option<seq<Participant>>,
                                     app: Option<App>)

  /** The outcome of `synapseClient.getUserProfile`: a profile, a
      `SynapseNotFoundException`, or any other `SynapseException`. */
  datatype Lookup = Found | NotFound | Failed

  datatype Synapse = Synapse(
    profile: Option<string> -> Lookup,
    // false when `toSynapseFriendlyName` throws NullPointerException or IllegalArgumentException
    friendlyName: Option<string> -> bool)

  /** `prefix + "[" + i + "]"`, the nested path of a list element. */
  function IndexedPath(prefix: string, i: nat): string {
    prefix + "[" + NatToString(i) + "]"
  }

  /** Distinct elements get distinct paths. */
  lemma IndexedPathInjective(prefix: string, i: nat, j: nat, suffix: string)
    ensures IndexedPath(prefix, i) + suffix == IndexedPath(prefix, j) + suffix <==> i == j
  {
    if IndexedPath(prefix, i) + suffix == IndexedPath(prefix, j) + suffix {
      var a := IndexedPath(prefix, i) + suffix;
      var n := |prefix| + 1;
      assert |NatToString(i)| == |NatToString(j)|;
      assert a[n..n + |NatToString(i)|] == NatToString(i);
      assert (IndexedPath(prefix, j) + suffix)[n..n + |NatToString(j)|] == NatToString(j);
      ParseNatToString(i);
      ParseNatToString(j);
    }
  }

  /** Validating each element of a list in turn; the first abort stops it. */
  function Each<T>(xs: seq<T>, from: nat, check: (nat, T) -> Result<seq<FieldError>>): (r: Result<seq<FieldError>>)
    requires from <= |xs|
    ensures r.Failure? <==> exists j :: from <= j < |xs| && check(j, xs[j]).Failure?
    ensures r.Failure? ==> exists j :: from <= j < |xs| && check(j, xs[j]) == Failure(r.error)
    ensures r.Success? ==> forall e :: e in r.value <==>
              exists j :: from <= j < |xs| && check(j, xs[j]).Success? && e in check(j, xs[j]).value
    ensures r.Success? && from < |xs| ==>
              && check(from, xs[from]).Success?
              && check(from, xs[from]).value <= r.value
              && r.value[|check(from, xs[from]).value|..] == Each(xs, from + 1, check).value
    decreases |xs| - from
  {
    if from == |xs| then Success([])
    else
      match check(from, xs[from])
      case Failure(err) => Failure(err)
      case Success(errs) =>
        var rest :- Each(xs, from + 1, check);
        Success(errs + rest)
  }

  // ---------------------------------------------------------------------
  // adminIds

  /** The errors of `adminIds[i]`: a blank id is rejected and still looked up. */
  function AdminIdErrors(synapse: Synapse, i: nat, adminId: Option<string>): (r: Result<seq<FieldError>>)
    ensures r.Failure? <==> synapse.profile(adminId) == Failed
    ensures r.Failure? ==> r.error == Runtime
    ensures r.Success? ==>
      && (FieldError(IndexedPath("adminIds", i), Text("cannot be blank or null")) in r.value <==> IsBlank(adminId))
      && (FieldError(IndexedPath("adminIds", i), Text("is invalid")) in r.value <==> synapse.profile(adminId) == NotFound)
      && forall e :: e in r.value ==> e.field == IndexedPath("adminIds", i)
  {
    var path := IndexedPath("adminIds", i);
    var blank := if IsBlank(adminId) then [FieldError(path, Text("cannot be blank or null"))] else [];
    match synapse.profile(adminId)
    case Found => Success(blank)
    case NotFound => Success(blank + [FieldError(path, Text("is invalid"))])
    case Failed => Failure(Runtime)
  }

  function AdminErrors(synapse: Synapse, adminIds: Option<seq<Option<string>>>): (r: Result<seq<FieldError>>)
    ensures adminIds.None? || adminIds.value == [] ==> r == Success([FieldError("adminIds", Text("are required"))])
  {
    if adminIds.None? || adminIds.value == [] then Success([FieldError("adminIds", Text("are required"))])
    else Each(adminIds.value, 0, (i, id) => AdminIdErrors(synapse, i, id))
  }

  /** With a non-empty list, every id is looked up, blank or not; the
      validation aborts iff a lookup fails; otherwise `adminIds[k]` is
      reported blank iff it is, and invalid iff Synapse does not know it. */
  lemma AdminIdsChecked(synapse: Synapse, ids: seq<Option<string>>, k: nat)
    requires |ids| > 0 && k < |ids|
    ensures var r := AdminErrors(synapse, Some(ids));
      && (r.Failure? <==> exists j :: 0 <= j < |ids| && synapse.profile(ids[j]) == Failed)
      && (r.Success? ==>
            && (FieldError(IndexedPath("adminIds", k), Text("cannot be blank or null")) in r.value <==> IsBlank(ids[k]))
            && ((FieldError(IndexedPath("adminIds", k), Text("is invalid")) in r.value)
                <==> synapse.profile(ids[k]) == NotFound)
            && FieldError("adminIds", Text("are required")) !in r.value)
  {
    var check := (i: nat, id: Option<string>) => AdminIdErrors(synapse, i, id);
    var r := AdminErrors(synapse, Some(ids));
    if r.Success? {
      assert check(k, ids[k]).Success?;
      forall e, j | 0 <= j < |ids| && check(j, ids[j]).Success? && e in check(j, ids[j]).value
                    && e.field == IndexedPath("adminIds", k)
        ensures j == k
      {
        IndexedPathInjective("adminIds", j, k, "");
        assert IndexedPath("adminIds", j) + "" == IndexedPath("adminIds", j);
        assert IndexedPath("adminIds", k) + "" == IndexedPath("adminIds", k);
      }
      forall e, j | 0 <= j < |ids| && check(j, ids[j]).Success? && e in check(j, ids[j]).value
        ensures e.field != "adminIds"
      {
        assert |e.field| > |"adminIds"|;
      }
    }
  }

  // ---------------------------------------------------------------------
  // users

  function UserField(i: nat, field: string): string {
    IndexedPath("users", i) + "." + field
  }

  /** The role errors of one user: missing roles, or a restricted role. */
  function RoleErrors(i: nat, roles: Option<set<Role>>): (r: seq<FieldError>)
    ensures |r| <= 1
    ensures (r == [FieldError(UserField(i, "roles"), Text("should have at least one role"))])
            <==> roles.None? || roles.value == {}
    ensures (r == [FieldError(UserField(i, "roles"), Text("can only have roles developer and/or researcher"))])
            <==> roles.Some? && roles.value != {} && roles.value * RESTRICTED_ROLES != {}
    ensures r == [] <==> roles.Some? && roles.value != {} && roles.value * RESTRICTED_ROLES == {}
  {
    if roles.None? || roles.value == {} then
      [FieldError(UserField(i, "roles"), Text("should have at least one role"))]
    else if roles.value * RESTRICTED_ROLES != {} then
      [FieldError(UserField(i, "roles"), Text("can only have roles developer and/or researcher"))]
    else []
  }

  /** The errors of `users[i]`: a blank Synapse id is reported and not
      looked up; the roles are checked either way. */
  function UserErrors(synapse: Synapse, i: nat, user: Participant): (r: Result<seq<FieldError>>)
    ensures r.Failure? <==> !IsBlank(user.synapseUserId) && synapse.profile(user.synapseUserId) == Failed
    ensures r.Failure? ==> r.error == Runtime
    ensures r.Success? ==>
      && (FieldError(UserField(i, "synapseUserId"), Text("cannot be blank")) in r.value <==> IsBlank(user.synapseUserId))
      && ((FieldError(UserField(i, "synapseUserId"), Text("is invalid")) in r.value)
          <==> !IsBlank(user.synapseUserId) && synapse.profile(user.synapseUserId) == NotFound)
      && |RoleErrors(i, user.roles)| <= |r.value|
      && r.value[|r.value| - |RoleErrors(i, user.roles)|..] == RoleErrors(i, user.roles)
  {
    var path := UserField(i, "synapseUserId");
    var idErrors :- if IsBlank(user.synapseUserId) then Success([FieldError(path, Text("cannot be blank"))])
                    else match synapse.profile(user.synapseUserId)
                         case Found => Success([])
                         case NotFound => Success([FieldError(path, Text("is invalid"))])
                         case Failed => Failure(Runtime);
    assert forall e :: e in RoleErrors(i, user.roles) ==> e.field == UserField(i, "roles");
    assert UserField(i, "roles") != path by {
      assert UserField(i, "roles")[|UserField(i, "roles")| - 1] == 's';
      assert path[|path| - 1] == 'd';
    }
    Success(idErrors + RoleErrors(i, user.roles))
  }

  function UsersErrors(synapse: Synapse, users: Option<seq<Participant>>): (r: Result<seq<FieldError>>)
    ensures users.None? || users.value == [] ==> r == Success([FieldError("users", Text("are required"))])
  {
    if users.None? || users.value == [] then Success([FieldError("users", Text("are required"))])
    else Each(users.value, 0, (i, u) => UserErrors(synapse, i, u))
  }

  /** With a non-empty list, the validation aborts iff a non-blank Synapse id
      fails to look up; otherwise each user's own checks are reported. */
  lemma UsersChecked(synapse: Synapse, users: seq<Participant>, k: nat)
    requires |users| > 0 && k < |users|
    ensures var r := UsersErrors(synapse, Some(users));
      && (r.Failure? <==> exists j :: 0 <= j < |users| && !IsBlank(users[j].synapseUserId)
                                     && synapse.profile(users[j].synapseUserId) == Failed)
      && (r.Success? ==> forall e :: e in UserErrors(synapse, k, users[k]).value ==> e in r.value)
  {
  }

  // ---------------------------------------------------------------------
  // app

  /** The position of an app field among the checks. */
  function AppRank(field: string): int {
    if field == "app.name" then 0 else if field == "app.sponsorName" then 1 else 2
  }

  function AppErrors(synapse: Synapse, app: Option<App>): (r: seq<FieldError>)
    ensures app.None? ==> r == [FieldError("app", Text("cannot be null"))]
    ensures app.Some? ==>
      && (FieldError("app.name", Text("is an invalid Synapse project name")) in r <==> !synapse.friendlyName(app.value.name))
      && (FieldError("app.sponsorName", Text("is required")) in r <==> IsBlank(app.value.sponsorName))
      && (FieldError("app.identifier", Text("is required")) in r <==> IsBlank(app.value.identifier))
      && |r| <= 3
    ensures app.Some? ==>
      && (forall i :: 0 <= i < |r| ==>
            r[i] in {FieldError("app.name", Text("is an invalid Synapse project name")),
                     FieldError("app.sponsorName", Text("is required")),
                     FieldError("app.identifier", Text("is required"))})
      && (forall i, j :: 0 <= i < j < |r| ==> AppRank(r[i].field) < AppRank(r[j].field))
  {
    match app
    case None => [FieldError("app", Text("cannot be null"))]
    case Some(a) =>
      (if !synapse.friendlyName(a.name) then [FieldError("app.name", Text("is an invalid Synapse project name"))] else [])
      + (if IsBlank(a.sponsorName) then [FieldError("app.sponsorName", Text("is required"))] else [])
      + (if IsBlank(a.identifier) then [FieldError("app.identifier", Text("is required"))] else [])
  }

  /** `validate`: the admin ids, then the users, then the app. An aborted
      lookup discards everything collected so far. */
  function Validate(synapse: Synapse, request: AppAndUsers): (r: Result<seq<FieldError>>)
    ensures r.Failure? ==> r.error == Runtime
    ensures r.Success? ==>
      && AdminErrors(synapse, request.adminIds).Success?
      && UsersErrors(synapse, request.users).Success?
      && r.value == AdminErrors(synapse, request.adminIds).value + UsersErrors(synapse, request.users).value
                    + AppErrors(synapse, request.app)
  {
    var admins :- AdminErrors(synapse, request.adminIds);
    var users :- UsersErrors(synapse, request.users);
    Success(admins + users + AppErrors(synapse, request.app))
  }

  /** The lookups `validate` performs: every admin id of a non-empty list,
      then every non-blank user Synapse id of a non-empty list. */
  predicate LookupFails(synapse: Synapse, request: AppAndUsers) {
    || (request.adminIds.Some? && exists j :: 0 <= j < |request.adminIds.value|
                                             && synapse.profile(request.adminIds.value[j]) == Failed)
    || (request.users.Some? && exists j :: 0 <= j < |request.users.value|
                                          && !IsBlank(request.users.value[j].synapseUserId)
                                          && synapse.profile(request.users.value[j].synapseUserId) == Failed)
  }

  /** Validation aborts iff one of its lookups fails with something other
      than "not found". */
  lemma AbortsIffLookupFails(synapse: Synapse, request: AppAndUsers)
    ensures Validate(synapse, request).Failure? <==> LookupFails(synapse, request)
  {
  }

  /** Missing lists and a missing app each give exactly their one error. */
  lemma EmptyRequest(synapse: Synapse)
    ensures Validate(synapse, AppAndUsers(None, Some([]), None))
         == Success([FieldError("adminIds", Text("are required")), FieldError("users", Text("are required")),
                     FieldError("app", Text("cannot be null"))])
  {
    assert [FieldError("adminIds", Text("are required"))] + [FieldError("users", Text("are required"))]
           + [FieldError("app", Text("cannot be null"))]
        == [FieldError("adminIds", Text("are required")), FieldError("users", Text("are required")),
            FieldError("app", Text("cannot be null"))];
  }
}
