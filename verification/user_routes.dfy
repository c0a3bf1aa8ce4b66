/**
 * Admin-only user management (server/routes/users.js): the account list with
 * per-account application counts, switching an account on or off, and
 * deleting an account together with its applications. An admin can neither
 * switch off nor delete their own account.
 */
module UserRoutes {
  import opened Wrappers
  import opened Seqs
  import opened Models
  import AuthMiddleware

  const UserNotFoundMessage: string := "User not found"
  const CannotDeactivateSelfMessage: string := "You cannot deactivate your own account"
  const CannotDeleteSelfMessage: string := "You cannot delete your own account"
  const UserDeletedMessage: string := "User and all associated data deleted successfully"

  /** An account as the admin sees it: every field but the password hash. */
  datatype Profile = Profile(
    id: Id, name: string, email: string, collegeName: string, role: Role,
    isActive: Option<bool>, createdAt: nat)

  function ProfileOf(u: User): Profile {
    Profile(u.id, u.name, u.email, u.collegeName, u.role, u.isActive, u.createdAt)
  }

  /** Two accounts show the same profile exactly when they differ at most in their password. */
  lemma ProfileHidesOnlyPassword(u: User, v: User)
    ensures ProfileOf(u) == ProfileOf(v) <==> u.(password := v.password) == v
  {
  }

  /** A listed account with the number of applications it submitted. */
  datatype UserStats = UserStats(profile: Profile, applicationCount: nat)

  function NotSubmittedBy(id: Id): Application -> bool {
    (a: Application) => a.studentId != id
  }

  /** `countDocuments({studentId})`. */
  function ApplicationCount(apps: seq<Application>, id: Id): (n: nat)
    ensures n <= |apps|
    ensures n == 0 <==> forall a :: a in apps ==> a.studentId != id
  {
    var submitted := Filter(apps, SubmittedBy(id));
    if submitted == [] then 0
    else
      assert submitted[0] in submitted;
      |submitted|
  }

  function StatsWith(apps: seq<Application>): User -> UserStats {
    (u: User) => UserStats(ProfileOf(u), ApplicationCount(apps, u.id))
  }

  /**
   * GET / (admin only): every account, newest first, without its password,
   * each with the number of applications whose `studentId` is that account.
   */
  function ListUsers(caller: Claims, users: seq<User>, apps: seq<Application>): (r: Response<seq<UserStats>>)
    ensures caller.role != "admin" <==> r == Error(403, AuthMiddleware.AdminsOnlyMessage)
    ensures r.Ok? <==> caller.role == "admin"
    ensures r.Ok? ==> |r.body| == |users|
    ensures r.Ok? ==> forall i :: 0 <= i < |users| ==>
      var u := users[|users| - 1 - i];
      r.body[i].profile == ProfileOf(u) && r.body[i].applicationCount == |Filter(apps, SubmittedBy(u.id))|
  {
    var gate := AuthMiddleware.AdminGate(caller.role);
    if gate.Deny? then Error(gate.status, gate.message)
    else Ok(Map(Reverse(users), StatsWith(apps)))
  }

  /** The account list is sorted by creation time, newest first. */
  lemma ListUsersNewestFirst(caller: Claims, users: seq<User>, apps: seq<Application>)
    requires Pairwise(users, UserPrecedes)
    requires ListUsers(caller, users, apps).Ok?
    ensures var listed := ListUsers(caller, users, apps).body;
      forall i, j :: 0 <= i < j < |listed| ==> listed[i].profile.createdAt > listed[j].profile.createdAt
  {
    var listed := ListUsers(caller, users, apps).body;
    var n := |users|;
    forall i, j | 0 <= i < j < |listed| ensures listed[i].profile.createdAt > listed[j].profile.createdAt {
      assert UserPrecedes(users[n - 1 - j], users[n - 1 - i]);
    }
  }

  /** The new `isActive` of a toggle: a missing flag counts as active, then it is negated. */
  function ToggledActive(isActive: Option<bool>): (b: bool)
    ensures isActive.None? ==> !b
    ensures isActive.Some? ==> b == !isActive.value
  {
    !isActive.GetOr(true)
  }

  /** Toggling twice gives back a defined flag, and turns a missing one into "active". */
  lemma ToggleTwice(isActive: Option<bool>)
    ensures ToggledActive(Some(ToggledActive(isActive))) == isActive.GetOr(true)
  {
  }

  function ToggleMessage(active: bool): string {
    if active then "User activated successfully" else "User deactivated successfully"
  }

  /** What a successful toggle answers: a message naming the new state and the account without its password. */
  datatype ToggleReply = ToggleReply(message: string, user: Profile)

  /** Changing the flag of one account keeps the collection valid. */
  lemma SetActiveKeepsValid(users: seq<User>, i: nat, active: bool, nextId: Id, clock: nat)
    requires ValidUsers(users, nextId, clock) && i < |users|
    ensures ValidUsers(users[i := users[i].(isActive := Some(active))], nextId, clock)
  {
    var updated := users[i := users[i].(isActive := Some(active))];
    forall a, b | 0 <= a < b < |updated| ensures UserPrecedes(updated[a], updated[b]) {
      assert UserPrecedes(users[a], users[b]);
    }
    forall u | u in updated ensures u.id < nextId && u.createdAt < clock {
      var k :| 0 <= k < |updated| && updated[k] == u;
      assert users[k] in users;
    }
  }

  /**
   * PATCH /:id/toggle-status (admin only): 404 for an unknown account, then
   * 400 for the caller's own account, both without change; otherwise only
   * the target's `isActive` changes, to the toggled value.
   */
  method ToggleStatus(db: Database, caller: Claims, target: Id) returns (r: Response<ToggleReply>)
    requires db.Valid()
    modifies db
    ensures db.Valid()
    ensures db.jobs == old(db.jobs) && db.applications == old(db.applications)
    ensures r.Error? ==> db.users == old(db.users)
    ensures caller.role != "admin" ==> r == Error(403, AuthMiddleware.AdminsOnlyMessage)
    ensures caller.role == "admin" && IndexOf(old(db.users), HasUserId(target)).None? ==>
      r == Error(404, UserNotFoundMessage)
    ensures caller.role == "admin" && IndexOf(old(db.users), HasUserId(target)).Some? && target == caller.id ==>
      r == Error(400, CannotDeactivateSelfMessage)
    ensures caller.role == "admin" && IndexOf(old(db.users), HasUserId(target)).Some? && target != caller.id ==>
      var i := IndexOf(old(db.users), HasUserId(target)).value;
      var active := ToggledActive(old(db.users)[i].isActive);
      && db.users == old(db.users)[i := old(db.users)[i].(isActive := Some(active))]
      && r == Ok(ToggleReply(ToggleMessage(active), ProfileOf(db.users[i])))
  {
    var gate := AuthMiddleware.AdminGate(caller.role);
    if gate.Deny? {
      return Error(gate.status, gate.message);
    }
    var found := IndexOf(db.users, HasUserId(target));
    if found.None? {
      return Error(404, UserNotFoundMessage);
    }
    var i := found.value;
    var user := db.users[i];
    if user.id == caller.id {
      return Error(400, CannotDeactivateSelfMessage);
    }
    if user.isActive.None? {
      user := user.(isActive := Some(true));
    }
    user := user.(isActive := Some(!user.isActive.value));
    SetActiveKeepsValid(db.users, i, user.isActive.value, db.nextId, db.clock);
    db.users := db.users[i := user];
    r := Ok(ToggleReply(ToggleMessage(user.isActive.value), ProfileOf(user)));
  }

  /** What a successful deletion answers: a message and the number of applications removed with the account. */
  datatype DeleteReply = DeleteReply(message: string, deletedApplications: nat)

  function NotUser(id: Id): User -> bool {
    (u: User) => u.id != id
  }

  /**
   * DELETE /:id (admin only): 404 for an unknown account, then 400 for the
   * caller's own account, both without change; otherwise every application
   * the account submitted and then the account itself are removed, and the
   * reply reports how many applications went.
   */
  method DeleteUser(db: Database, caller: Claims, target: Id) returns (r: Response<DeleteReply>)
    requires db.Valid()
    modifies db
    ensures db.Valid()
    ensures db.jobs == old(db.jobs)
    ensures r.Error? ==> db.users == old(db.users) && db.applications == old(db.applications)
    ensures caller.role != "admin" ==> r == Error(403, AuthMiddleware.AdminsOnlyMessage)
    ensures caller.role == "admin" && IndexOf(old(db.users), HasUserId(target)).None? ==>
      r == Error(404, UserNotFoundMessage)
    ensures caller.role == "admin" && IndexOf(old(db.users), HasUserId(target)).Some? && target == caller.id ==>
      r == Error(400, CannotDeleteSelfMessage)
    ensures caller.role == "admin" && IndexOf(old(db.users), HasUserId(target)).Some? && target != caller.id ==>
      && db.users == Filter(old(db.users), NotUser(target))
      && db.applications == Filter(old(db.applications), NotSubmittedBy(target))
      && r == Ok(DeleteReply(UserDeletedMessage, ApplicationCount(old(db.applications), target)))
    ensures r.Ok? ==> r.body.deletedApplications == |old(db.applications)| - |db.applications|
  {
    var gate := AuthMiddleware.AdminGate(caller.role);
    if gate.Deny? {
      return Error(gate.status, gate.message);
    }
    var found := IndexOf(db.users, HasUserId(target));
    if found.None? {
      return Error(404, UserNotFoundMessage);
    }
    var user := db.users[found.value];
    if user.id == caller.id {
      return Error(400, CannotDeleteSelfMessage);
    }
    var deletedCount := ApplicationCount(db.applications, user.id);
    FilterComplement(db.applications, SubmittedBy(user.id), NotSubmittedBy(user.id));
    FilterPairwise(db.applications, NotSubmittedBy(user.id), ApplicationPrecedes);
    db.applications := Filter(db.applications, NotSubmittedBy(user.id));
    FilterPairwise(db.users, NotUser(target), UserPrecedes);
    db.users := Filter(db.users, NotUser(target));
    r := Ok(DeleteReply(UserDeletedMessage, deletedCount));
  }

  /** The count a deletion reports is the count the account list showed for that account. */
  lemma DeletedCountMatchesListing(caller: Claims, users: seq<User>, apps: seq<Application>, i: nat)
    requires caller.role == "admin" && i < |users|
    ensures ListUsers(caller, users, apps).body[|users| - 1 - i].applicationCount == ApplicationCount(apps, users[i].id)
  {
  }
}
