/**
 * Job routes (server/routes/jobs.js): the college list, the role-filtered
 * listing, job detail with its college check, and the admin-only creation
 * and deletion (which also removes the job's applications).
 */
module JobRoutes {
  import opened Seqs
  import opened Models
  import AuthMiddleware

  const JobNotFoundMessage: string := "Job not found"
  const NotAllowedToViewMessage: string := "You are not allowed to view this job"
  /** Mongoose's validation error for a new job, shortened to its first words. */
  const JobValidationFailedMessage: string := "Job validation failed"
  const JobDeletedMessage: string := "Job and all associated candidate data removed successfully"
  /** What Node reports when a handler reads `user.email` of a user lookup that found nobody. */
  const NullUserMessage: string := "Cannot read properties of null (reading 'email')"

  function CollegeOf(u: User): string {
    u.collegeName
  }

  /** GET /colleges: every college name some account carries, each once. */
  function Colleges(users: seq<User>): (r: seq<string>)
    ensures NoDuplicates(r)
    ensures forall c :: c in r <==> exists u :: u in users && u.collegeName == c
  {
    var names := Map(users, CollegeOf);
    forall c | c in names ensures exists u :: u in users && u.collegeName == c {
      var k :| 0 <= k < |names| && names[k] == c;
      assert users[k] in users;
    }
    forall u | u in users ensures u.collegeName in names {
      var k :| 0 <= k < |users| && users[k] == u;
      assert names[k] == u.collegeName;
    }
    Distinct(names)
  }

  /** Roles whose view of jobs is limited to their own college. */
  predicate CollegeScoped(role: string) {
    role == "student" || role == "staff"
  }

  /** Whether a caller with this role and college may see the job. */
  predicate MayView(role: string, college: string, job: Job) {
    !CollegeScoped(role) || college in job.allowedColleges
  }

  function VisibleTo(role: string, college: string): Job -> bool {
    (j: Job) => MayView(role, college, j)
  }

  /**
   * GET /: the caller's account is looked up first (a caller whose account
   * is gone makes the handler fail with 500); students and staff get the
   * jobs that allow their college, other roles get all jobs; newest first.
   */
  function ListJobs(users: seq<User>, jobs: seq<Job>, caller: Claims): (r: Response<seq<Job>>)
    ensures IndexOf(users, HasUserId(caller.id)).None? <==> r == Error(500, NullUserMessage)
    ensures r.Ok? <==> IndexOf(users, HasUserId(caller.id)).Some?
    ensures r.Ok? ==>
      var college := users[IndexOf(users, HasUserId(caller.id)).value].collegeName;
      forall j :: j in r.body <==> j in jobs && MayView(caller.role, college, j)
  {
    match IndexOf(users, HasUserId(caller.id))
    case None => Error(500, NullUserMessage)
    case Some(i) =>
      var body := Reverse(Filter(jobs, VisibleTo(caller.role, users[i].collegeName)));
      ReverseMembers(Filter(jobs, VisibleTo(caller.role, users[i].collegeName)));
      Ok(body)
  }

  /** `a` was created after `b`. */
  predicate JobNewer(a: Job, b: Job) {
    b.id < a.id && b.createdAt < a.createdAt
  }

  /** The listing is sorted by creation time, newest first. */
  lemma ListJobsNewestFirst(users: seq<User>, jobs: seq<Job>, caller: Claims)
    requires Pairwise(jobs, JobPrecedes)
    requires ListJobs(users, jobs, caller).Ok?
    ensures var listed := ListJobs(users, jobs, caller).body;
      forall i, j :: 0 <= i < j < |listed| ==> listed[i].createdAt > listed[j].createdAt
  {
    var college := users[IndexOf(users, HasUserId(caller.id)).value].collegeName;
    var selected := Filter(jobs, VisibleTo(caller.role, college));
    FilterPairwise(jobs, VisibleTo(caller.role, college), JobPrecedes);
    ReversePairwise(selected, JobPrecedes, JobNewer);
    var listed := ListJobs(users, jobs, caller).body;
    assert listed == Reverse(selected);
    forall i, j | 0 <= i < j < |listed| ensures listed[i].createdAt > listed[j].createdAt {
      assert JobNewer(listed[i], listed[j]);
    }
  }

  /** A caller who is neither student nor staff sees every job, newest first. */
  lemma ListJobsUnscoped(users: seq<User>, jobs: seq<Job>, caller: Claims)
    requires !CollegeScoped(caller.role)
    requires IndexOf(users, HasUserId(caller.id)).Some?
    ensures ListJobs(users, jobs, caller) == Ok(Reverse(jobs))
  {
    var college := users[IndexOf(users, HasUserId(caller.id)).value].collegeName;
    FilterAll(jobs, VisibleTo(caller.role, college));
  }

  /**
   * GET /:id: 404 when no job has the id, whoever asks; then the caller's
   * account lookup (500 if it is gone); then 403 for a student or staff
   * caller whose college the job does not allow; otherwise the job.
   */
  function GetJob(users: seq<User>, jobs: seq<Job>, caller: Claims, id: Id): (r: Response<Job>)
    ensures IndexOf(jobs, HasJobId(id)).None? <==> r == Error(404, JobNotFoundMessage)
    ensures IndexOf(jobs, HasJobId(id)).Some? && IndexOf(users, HasUserId(caller.id)).None? ==>
      r == Error(500, NullUserMessage)
    ensures r == Error(403, NotAllowedToViewMessage) <==>
      && IndexOf(jobs, HasJobId(id)).Some?
      && IndexOf(users, HasUserId(caller.id)).Some?
      && !MayView(caller.role, users[IndexOf(users, HasUserId(caller.id)).value].collegeName,
                  jobs[IndexOf(jobs, HasJobId(id)).value])
    ensures r.Ok? ==> r.body in jobs && r.body.id == id
  {
    match IndexOf(jobs, HasJobId(id))
    case None => Error(404, JobNotFoundMessage)
    case Some(k) =>
      match IndexOf(users, HasUserId(caller.id))
      case None => Error(500, NullUserMessage)
      case Some(i) =>
        if CollegeScoped(caller.role) && users[i].collegeName !in jobs[k].allowedColleges then
          Error(403, NotAllowedToViewMessage)
        else Ok(jobs[k])
  }

  /** Two positions of a valid job collection that hold the same id are the same position. */
  lemma JobIdsUnique(jobs: seq<Job>, m: nat, k: nat)
    requires Pairwise(jobs, JobPrecedes)
    requires m < |jobs| && k < |jobs|
    ensures jobs[m].id == jobs[k].id ==> m == k
  {
    if m < k { assert JobPrecedes(jobs[m], jobs[k]); }
    if k < m { assert JobPrecedes(jobs[k], jobs[m]); }
  }

  /** Every stored job has its own form URL ("unique form URL"). */
  lemma FormUrlsUnique(jobs: seq<Job>, nextId: Id, clock: nat, m: nat, k: nat)
    requires ValidJobs(jobs, nextId, clock)
    requires m < |jobs| && k < |jobs|
    ensures jobs[m].formUrl == jobs[k].formUrl ==> m == k
  {
    assert jobs[m] in jobs && jobs[k] in jobs;
    ApplyPathInjective(jobs[m].id, jobs[k].id);
    JobIdsUnique(jobs, m, k);
  }

  /** Detail and listing agree: a caller can open a job exactly when it is in their listing. */
  lemma GetJobAgreesWithListing(users: seq<User>, jobs: seq<Job>, caller: Claims, id: Id)
    requires Pairwise(jobs, JobPrecedes)
    requires IndexOf(users, HasUserId(caller.id)).Some?
    requires IndexOf(jobs, HasJobId(id)).Some?
    ensures GetJob(users, jobs, caller, id).Ok? <==> exists j :: j in ListJobs(users, jobs, caller).body && j.id == id
  {
    var k := IndexOf(jobs, HasJobId(id)).value;
    var college := users[IndexOf(users, HasUserId(caller.id)).value].collegeName;
    var listed := ListJobs(users, jobs, caller).body;
    if j :| j in listed && j.id == id {
      assert j in jobs && MayView(caller.role, college, j);
      var m :| 0 <= m < |jobs| && jobs[m] == j;
      JobIdsUnique(jobs, m, k);
    }
    if GetJob(users, jobs, caller, id).Ok? {
      assert jobs[k] in listed;
    }
  }

  /** The fields of a job posting as the admin submits them. */
  datatype JobForm = JobForm(
    title: string, company: string, location: string, salary: string, experience: string,
    description: string, skills: seq<string>, allowedColleges: seq<string>)

  /** The Job schema's required text fields: a missing or empty value fails validation. */
  predicate MissesRequiredJobField(form: JobForm) {
    form.title == "" || form.company == "" || form.location == "" || form.description == ""
  }

  /**
   * POST / (admin only): a posting missing a required field fails
   * validation on save with 500; otherwise stores the posting with the
   * caller as `postedBy` and "/apply/<id>" as its form URL, and answers
   * with it.
   */
  method CreateJob(db: Database, caller: Claims, form: JobForm) returns (r: Response<Job>)
    requires db.Valid()
    modifies db
    ensures db.Valid()
    ensures db.users == old(db.users) && db.applications == old(db.applications)
    ensures caller.role != "admin" ==> r == Error(403, AuthMiddleware.AdminsOnlyMessage) && db.jobs == old(db.jobs)
    ensures caller.role == "admin" && MissesRequiredJobField(form) ==>
      r == Error(500, JobValidationFailedMessage) && db.jobs == old(db.jobs)
    ensures caller.role == "admin" && !MissesRequiredJobField(form) ==>
      && r == Ok(Job(old(db.nextId), form.title, form.company, form.location, form.salary, form.experience,
                     form.description, form.skills, form.allowedColleges,
                     ApplyPath(old(db.nextId)), caller.id, old(db.clock)))
      && db.jobs == old(db.jobs) + [r.body]
  {
    var gate := AuthMiddleware.AdminGate(caller.role);
    if gate.Deny? {
      return Error(gate.status, gate.message);
    }
    if MissesRequiredJobField(form) {
      return Error(500, JobValidationFailedMessage);
    }
    var id, now := db.Stamp();
    var job := Job(id, form.title, form.company, form.location, form.salary, form.experience,
                   form.description, form.skills, form.allowedColleges, "", caller.id, now);
    job := job.(formUrl := ApplyPath(job.id));
    forall i | 0 <= i < |db.jobs| ensures JobPrecedes(db.jobs[i], job) {
      assert db.jobs[i] in db.jobs;
    }
    PairwiseAppend(db.jobs, job, JobPrecedes);
    db.jobs := db.jobs + [job];
    r := Ok(job);
  }

  function NotJob(id: Id): Job -> bool {
    (j: Job) => j.id != id
  }

  function NotForJob(id: Id): Application -> bool {
    (a: Application) => a.jobId != id
  }

  /**
   * DELETE /:id (admin only): 404 and no change when no job has the id;
   * otherwise the job and every application to it are removed and nothing
   * else is touched.
   */
  method DeleteJob(db: Database, caller: Claims, id: Id) returns (r: Response<string>)
    requires db.Valid()
    modifies db
    ensures db.Valid()
    ensures db.users == old(db.users)
    ensures caller.role != "admin" ==>
      r == Error(403, AuthMiddleware.AdminsOnlyMessage) && db.jobs == old(db.jobs) && db.applications == old(db.applications)
    ensures caller.role == "admin" && IndexOf(old(db.jobs), HasJobId(id)).None? ==>
      r == Error(404, JobNotFoundMessage) && db.jobs == old(db.jobs) && db.applications == old(db.applications)
    ensures caller.role == "admin" && IndexOf(old(db.jobs), HasJobId(id)).Some? ==>
      && r == Ok(JobDeletedMessage)
      && db.jobs == Filter(old(db.jobs), NotJob(id))
      && db.applications == Filter(old(db.applications), NotForJob(id))
    ensures r.Ok? ==> forall j :: j in db.jobs <==> j in old(db.jobs) && j.id != id
    ensures r.Ok? ==> forall a :: a in db.applications <==> a in old(db.applications) && a.jobId != id
  {
    var gate := AuthMiddleware.AdminGate(caller.role);
    if gate.Deny? {
      return Error(gate.status, gate.message);
    }
    if IndexOf(db.jobs, HasJobId(id)).None? {
      return Error(404, JobNotFoundMessage);
    }
    FilterPairwise(db.jobs, NotJob(id), JobPrecedes);
    FilterPairwise(db.applications, NotForJob(id), ApplicationPrecedes);
    db.jobs := Filter(db.jobs, NotJob(id));
    db.applications := Filter(db.applications, NotForJob(id));
    r := Ok(JobDeletedMessage);
  }
}
