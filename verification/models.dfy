/**
 * The three document collections of the portal (users, jobs, applications),
 * the identity a signed token carries, and the cryptographic primitives the
 * handlers use without looking inside them.
 */
module Models {
  import opened Wrappers
  import opened Seqs

  /** A document id. Fresh ids come from `Database.Stamp`. */
  type Id = nat

  /** The closed set of account roles. */
  datatype Role = Student | Staff | Admin

  function RoleName(r: Role): string {
    match r
    case Student => "student"
    case Staff => "staff"
    case Admin => "admin"
  }

  /** The role names an account may carry, in the order the registration check lists them. */
  const ValidRoles: seq<string> := ["student", "staff", "admin"]

  /** The role a name denotes, if it is one of the valid roles. */
  function ParseRole(s: string): (r: Option<Role>)
    ensures r.Some? <==> s in ValidRoles
    ensures r.Some? ==> RoleName(r.value) == s
  {
    if s == "student" then Some(Student)
    else if s == "staff" then Some(Staff)
    else if s == "admin" then Some(Admin)
    else None
  }

  /** A user account. `password` holds the bcrypt hash; `isActive` is missing on accounts created before the flag existed. */
  datatype User = User(
    id: Id, name: string, email: string, password: string, collegeName: string,
    role: Role, isActive: Option<bool>, createdAt: nat)

  /** A job posting, visible to students and staff of the colleges in `allowedColleges`. */
  datatype Job = Job(
    id: Id, title: string, company: string, location: string, salary: string,
    experience: string, description: string, skills: seq<string>,
    allowedColleges: seq<string>, formUrl: string, postedBy: Id, createdAt: nat)

  /** An application to a job; `studentId` is the account that submitted it. */
  datatype Application = Application(
    id: Id, jobId: Id, studentId: Id, studentName: string, email: string,
    phone: string, rollNumber: string, resumeUrl: string, appliedAt: nat)

  /** A handler's answer: a JSON body with status 200, or an error status with its message. */
  datatype Response<T> = Ok(body: T) | Error(status: nat, message: string)

  /** The payload of a signed token: who the caller is and the role they signed in with. */
  datatype Claims = Claims(id: Id, role: string)

  /**
   * The primitives the handlers call without depending on how they work:
   * bcrypt's `hash` and `compare`, and the JWT `sign` and `verify` with the
   * server's secret (`verify` gives None for a forged or expired token).
   */
  datatype Crypto = Crypto(
    hash: string -> string,
    compare: (string, string) -> bool,
    sign: Claims -> string,
    verify: string -> Option<Claims>)

  /** The `findById` / `findOne({_id})` filters. */
  function HasUserId(id: Id): User -> bool {
    (u: User) => u.id == id
  }

  function HasJobId(id: Id): Job -> bool {
    (j: Job) => j.id == id
  }

  /** The `{studentId}` filter: applications submitted by the account. */
  function SubmittedBy(id: Id): Application -> bool {
    (a: Application) => a.studentId == id
  }

  /** Decimal text of an id, standing in for the hexadecimal text of an ObjectId. */
  function IdText(id: Id): (r: string)
    ensures |r| >= 1 && (|r| == 1 <==> id < 10)
    ensures forall i :: 0 <= i < |r| ==> '0' <= r[i] <= '9'
  {
    var d := ['0' + (id % 10) as char];
    if id < 10 then d else IdText(id / 10) + d
  }

  /** Different ids have different texts, as ObjectId strings do. */
  lemma {:induction false} IdTextInjective(a: Id, b: Id)
    ensures IdText(a) == IdText(b) ==> a == b
  {
    if IdText(a) == IdText(b) {
      var t := IdText(a);
      assert t[|t| - 1] == '0' + (a % 10) as char;
      assert IdText(b)[|t| - 1] == '0' + (b % 10) as char;
      if a >= 10 {
        assert IdText(a / 10) == t[..|t| - 1] == IdText(b / 10);
        IdTextInjective(a / 10, b / 10);
      }
    }
  }

  /** The form URL a new job gets: "/apply/" followed by its id. */
  function ApplyPath(id: Id): (r: string)
    ensures |r| > 7 && r[..7] == "/apply/" && r[7..] == IdText(id)
  {
    "/apply/" + IdText(id)
  }

  /** Jobs with different ids have different form URLs. */
  lemma ApplyPathInjective(a: Id, b: Id)
    ensures ApplyPath(a) == ApplyPath(b) ==> a == b
  {
    if ApplyPath(a) == ApplyPath(b) {
      assert IdText(a) == ApplyPath(a)[7..] == IdText(b);
      IdTextInjective(a, b);
    }
  }

  /** Documents stored earlier have smaller ids and timestamps; emails are unique. */
  predicate UserPrecedes(a: User, b: User) {
    a.id < b.id && a.createdAt < b.createdAt && a.email != b.email
  }

  predicate JobPrecedes(a: Job, b: Job) {
    a.id < b.id && a.createdAt < b.createdAt
  }

  predicate ApplicationPrecedes(a: Application, b: Application) {
    a.id < b.id && a.appliedAt < b.appliedAt
  }

  ghost predicate ValidUsers(users: seq<User>, nextId: Id, clock: nat) {
    Pairwise(users, UserPrecedes) && forall u :: u in users ==> u.id < nextId && u.createdAt < clock
  }

  ghost predicate ValidJobs(jobs: seq<Job>, nextId: Id, clock: nat) {
    && Pairwise(jobs, JobPrecedes)
    && forall j :: j in jobs ==> j.id < nextId && j.createdAt < clock && j.formUrl == ApplyPath(j.id)
  }

  ghost predicate ValidApplications(apps: seq<Application>, nextId: Id, clock: nat) {
    Pairwise(apps, ApplicationPrecedes) && forall a :: a in apps ==> a.id < nextId && a.appliedAt < clock
  }

  /**
   * The document store. Each collection is kept in insertion order; `nextId`
   * and `clock` stand in for ObjectId generation and `Date.now`.
   */
  class Database {
    var users: seq<User>
    var jobs: seq<Job>
    var applications: seq<Application>
    var nextId: Id
    var clock: nat

    ghost predicate Valid()
      reads this
    {
      ValidUsers(users, nextId, clock)
      && ValidJobs(jobs, nextId, clock)
      && ValidApplications(applications, nextId, clock)
    }

    constructor ()
      ensures Valid()
      ensures users == [] && jobs == [] && applications == []
    {
      users, jobs, applications := [], [], [];
      nextId, clock := 0, 0;
    }

    /** A fresh id and the current time, as a new document receives them. */
    method Stamp() returns (id: Id, now: nat)
      requires Valid()
      modifies this`nextId, this`clock
      ensures Valid()
      ensures id == old(nextId) && now == old(clock)
      ensures nextId == id + 1 && clock == now + 1
      ensures forall u :: u in users ==> u.id < id && u.createdAt < now
      ensures forall j :: j in jobs ==> j.id < id && j.createdAt < now
      ensures forall a :: a in applications ==> a.id < id && a.appliedAt < now
    {
      id, now := nextId, clock;
      nextId, clock := nextId + 1, clock + 1;
    }
  }
}
