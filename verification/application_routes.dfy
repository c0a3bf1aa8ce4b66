/**
 * Application submission, the per-job application list and its CSV export
 * (server/routes/applications.js). Every route needs only an authenticated
 * caller; a non-admin caller sees and exports only the applications it
 * submitted itself.
 */
module ApplicationRoutes {
  import opened Wrappers
  import opened Text
  import opened Seqs
  import opened Models
  import JobRoutes

  const SubmittedMessage: string := "Application submitted successfully"
  const ValidationFailedMessage: string := "Application validation failed"

  /** The request body of POST /submit. */
  datatype ApplicationForm = ApplicationForm(
    jobId: Id, studentName: string, email: string, phone: string, rollNumber: string, resumeUrl: string)

  /** The schema's required text fields: a missing or empty value fails validation. */
  predicate MissesRequired(form: ApplicationForm) {
    form.studentName == "" || form.email == "" || form.phone == ""
  }

  /**
   * The document `new Application({...})` builds before it is saved: the
   * form's fields and the owner in `studentId`, unset when the handler
   * does not provide it.
   */
  datatype ApplicationDraft = ApplicationDraft(form: ApplicationForm, studentId: Option<Id>)

  /**
   * The draft the handler builds as written: the caller's id is given as
   * `collegeId`, a path the schema does not declare, which Mongoose's
   * strict mode drops, so `studentId` stays unset.
   */
  function DraftAsWritten(caller: Claims, form: ApplicationForm): ApplicationDraft {
    ApplicationDraft(form, None)
  }

  /** The draft with the caller as owner, in the field the user routes count and delete by. */
  function OwnedDraft(caller: Claims, form: ApplicationForm): ApplicationDraft {
    ApplicationDraft(form, Some(caller.id))
  }

  /** Schema validation on save: the owner and the required text fields are present. */
  predicate PassesValidation(d: ApplicationDraft) {
    d.studentId.Some? && !MissesRequired(d.form)
  }

  /** As written, no submission passes validation, so every POST /submit answers 500. */
  lemma AsWrittenSubmitNeverValidates(caller: Claims, form: ApplicationForm)
    ensures !PassesValidation(DraftAsWritten(caller, form))
  {
  }

  /** With the caller as owner, a submission validates exactly when its required text fields are present. */
  lemma OwnedDraftValidates(caller: Claims, form: ApplicationForm)
    ensures PassesValidation(OwnedDraft(caller, form)) <==> !MissesRequired(form)
  {
  }

  datatype SubmitReply = SubmitReply(message: string, application: Application)

  /**
   * POST /submit with the caller stored as owner: the new application gets
   * a fresh id and the current time; a draft that fails validation (a form
   * missing a required field) is refused with 500 and nothing is stored.
   */
  method Submit(db: Database, caller: Claims, form: ApplicationForm) returns (r: Response<SubmitReply>)
    requires db.Valid()
    modifies db
    ensures db.Valid()
    ensures db.users == old(db.users) && db.jobs == old(db.jobs)
    ensures MissesRequired(form) ==> r == Error(500, ValidationFailedMessage) && db.applications == old(db.applications)
    ensures !MissesRequired(form) ==>
      && r == Ok(SubmitReply(SubmittedMessage,
                  Application(old(db.nextId), form.jobId, caller.id, form.studentName, form.email, form.phone,
                              form.rollNumber, form.resumeUrl, old(db.clock))))
      && db.applications == old(db.applications) + [r.body.application]
  {
    var draft := OwnedDraft(caller, form);
    if !PassesValidation(draft) {
      return Error(500, ValidationFailedMessage);
    }
    var id, now := db.Stamp();
    var application := Application(id, form.jobId, caller.id, form.studentName, form.email, form.phone,
                                   form.rollNumber, form.resumeUrl, now);
    forall i | 0 <= i < |db.applications| ensures ApplicationPrecedes(db.applications[i], application) {
      assert db.applications[i] in db.applications;
    }
    PairwiseAppend(db.applications, application, ApplicationPrecedes);
    db.applications := db.applications + [application];
    r := Ok(SubmitReply(SubmittedMessage, application));
  }

  /** The query of both read routes: the job's applications, only the caller's own unless it is an admin. */
  function InQuery(caller: Claims, jobId: Id): Application -> bool {
    (a: Application) => a.jobId == jobId && (caller.role == "admin" || a.studentId == caller.id)
  }

  /** An application with its owner populated down to the owner's college, null when the owner is gone. */
  datatype ListedApplication = ListedApplication(application: Application, ownerCollege: Option<string>)

  function OwnerCollege(users: seq<User>, owner: Id): (r: Option<string>)
    ensures r.Some? <==> exists u :: u in users && u.id == owner
    ensures r.Some? ==> exists u :: u in users && u.id == owner && u.collegeName == r.value
  {
    var found := IndexOf(users, HasUserId(owner));
    if found.None? then None
    else
      assert users[found.value] in users;
      Some(users[found.value].collegeName)
  }

  function Populate(users: seq<User>): Application -> ListedApplication {
    (a: Application) => ListedApplication(a, OwnerCollege(users, a.studentId))
  }

  /** GET /job/:jobId: the matching applications in stored order, owners populated. */
  function JobApplications(caller: Claims, users: seq<User>, apps: seq<Application>, jobId: Id): (r: seq<ListedApplication>)
    ensures |r| <= |apps|
    ensures forall i :: 0 <= i < |r| ==>
      && r[i].application in apps && r[i].application.jobId == jobId
      && (caller.role == "admin" || r[i].application.studentId == caller.id)
      && r[i].ownerCollege == OwnerCollege(users, r[i].application.studentId)
    ensures forall a :: a in apps && a.jobId == jobId && (caller.role == "admin" || a.studentId == caller.id) ==>
      exists i :: 0 <= i < |r| && r[i].application == a
  {
    var selected := Filter(apps, InQuery(caller, jobId));
    var r := Map(selected, Populate(users));
    forall i | 0 <= i < |r| ensures r[i].application in apps && InQuery(caller, jobId)(r[i].application) {
      assert selected[i] in selected;
    }
    forall a | a in apps && InQuery(caller, jobId)(a) ensures exists i :: 0 <= i < |r| && r[i].application == a {
      var i :| 0 <= i < |selected| && selected[i] == a;
      assert r[i].application == a;
    }
    r
  }

  /** An admin sees every application to the job; anyone else sees exactly their own. */
  lemma JobApplicationsScope(caller: Claims, users: seq<User>, apps: seq<Application>, jobId: Id, a: Application)
    requires a in apps && a.jobId == jobId
    ensures (exists i :: 0 <= i < |JobApplications(caller, users, apps, jobId)|
               && JobApplications(caller, users, apps, jobId)[i].application == a)
            <==> caller.role == "admin" || a.studentId == caller.id
  {
    var selected := Filter(apps, InQuery(caller, jobId));
    var listed := JobApplications(caller, users, apps, jobId);
    if caller.role == "admin" || a.studentId == caller.id {
      assert a in selected;
      var i :| 0 <= i < |selected| && selected[i] == a;
      assert listed[i].application == a;
    } else {
      forall i | 0 <= i < |listed| ensures listed[i].application != a {
        assert selected[i] in selected;
      }
    }
  }

  /** The listing keeps the stored order, which is submission order. */
  lemma JobApplicationsInSubmissionOrder(caller: Claims, users: seq<User>, apps: seq<Application>, jobId: Id)
    requires Pairwise(apps, ApplicationPrecedes)
    ensures var listed := JobApplications(caller, users, apps, jobId);
      forall i, j :: 0 <= i < j < |listed| ==> listed[i].application.appliedAt < listed[j].application.appliedAt
  {
    var selected := Filter(apps, InQuery(caller, jobId));
    FilterPairwise(apps, InQuery(caller, jobId), ApplicationPrecedes);
    var listed := JobApplications(caller, users, apps, jobId);
    forall i, j | 0 <= i < j < |listed| ensures listed[i].application.appliedAt < listed[j].application.appliedAt {
      assert ApplicationPrecedes(selected[i], selected[j]);
    }
  }

  /** The CSV columns, in order; `collegeId.collegeName` is the owner's college. */
  const ExportFields: seq<string> := ["studentName", "email", "phone", "rollNumber", "collegeId.collegeName", "appliedAt"]

  /** GET /export/:jobId: a `text/csv` attachment holding one row per listed application. */
  datatype CsvExport = CsvExport(contentType: string, filename: string, header: seq<string>, rows: seq<seq<string>>)

  /** The attachment's file name: "applications_job_", the job id, ".csv". */
  function ExportFilename(jobId: Id): (name: string)
    ensures StartsWith(name, "applications_job_") && EndsWith(name, ".csv")
    ensures |name| > |"applications_job_.csv"|
    ensures name[17..|name| - 4] == IdText(jobId)
  {
    "applications_job_" + IdText(jobId) + ".csv"
  }

  /** Exports of different jobs carry different file names. */
  lemma ExportFilenamesDistinct(a: Id, b: Id)
    ensures ExportFilename(a) == ExportFilename(b) ==> a == b
  {
    if ExportFilename(a) == ExportFilename(b) {
      var name := ExportFilename(a);
      assert IdText(a) == name[17..|name| - 4] == IdText(b);
      IdTextInjective(a, b);
    }
  }

  /** The row of one application, in the order of `ExportFields`; a null owner gives an empty cell. */
  function ExportRow(dateText: nat -> string): ListedApplication -> seq<string> {
    (l: ListedApplication) =>
      [l.application.studentName, l.application.email, l.application.phone, l.application.rollNumber,
       l.ownerCollege.GetOr(""), dateText(l.application.appliedAt)]
  }

  function Export(caller: Claims, users: seq<User>, apps: seq<Application>, jobId: Id, dateText: nat -> string): (r: CsvExport)
    ensures r.contentType == "text/csv" && r.filename == ExportFilename(jobId) && r.header == ExportFields
    ensures |r.rows| == |JobApplications(caller, users, apps, jobId)|
    ensures forall i :: 0 <= i < |r.rows| ==> |r.rows[i]| == |ExportFields|
  {
    CsvExport("text/csv", ExportFilename(jobId), ExportFields,
              Map(JobApplications(caller, users, apps, jobId), ExportRow(dateText)))
  }

  /**
   * The value json2csv reads for one field path of a listed application:
   * the populated owner's college for `collegeId.collegeName`, empty when
   * the owner is null or the path names nothing.
   */
  function Column(dateText: nat -> string, l: ListedApplication, field: string): string {
    if field == "studentName" then l.application.studentName
    else if field == "email" then l.application.email
    else if field == "phone" then l.application.phone
    else if field == "rollNumber" then l.application.rollNumber
    else if field == "collegeId.collegeName" then (if l.ownerCollege.Some? then l.ownerCollege.value else "")
    else if field == "appliedAt" then dateText(l.application.appliedAt)
    else ""
  }

  /** Each cell of a row holds the value its header names. */
  lemma ExportRowFollowsHeader(dateText: nat -> string, l: ListedApplication)
    ensures |ExportRow(dateText)(l)| == |ExportFields|
    ensures forall k :: 0 <= k < |ExportFields| ==> ExportRow(dateText)(l)[k] == Column(dateText, l, ExportFields[k])
  {
    var row := ExportRow(dateText)(l);
    assert ExportFields[0] == "studentName" && ExportFields[1] == "email" && ExportFields[2] == "phone";
    assert ExportFields[3] == "rollNumber" && ExportFields[4] == "collegeId.collegeName" && ExportFields[5] == "appliedAt";
    assert row[4] == l.ownerCollege.GetOr("");
  }

  /** The i-th exported row is the i-th listed application, cell by cell under its header. */
  lemma ExportMatchesListing(caller: Claims, users: seq<User>, apps: seq<Application>, jobId: Id, dateText: nat -> string, i: nat)
    requires i < |JobApplications(caller, users, apps, jobId)|
    ensures var l := JobApplications(caller, users, apps, jobId)[i];
      var row := Export(caller, users, apps, jobId, dateText).rows[i];
      forall k :: 0 <= k < |ExportFields| ==> row[k] == Column(dateText, l, ExportFields[k])
  {
    var listed := JobApplications(caller, users, apps, jobId);
    assert Export(caller, users, apps, jobId, dateText).rows[i] == ExportRow(dateText)(listed[i]);
    ExportRowFollowsHeader(dateText, listed[i]);
  }

  /** A non-admin's list is, in order, the admin's list of the job with everyone else's applications removed. */
  lemma NonAdminSeesOwnSubset(caller: Claims, admin: Claims, apps: seq<Application>, jobId: Id)
    requires caller.role != "admin" && admin.role == "admin"
    ensures Filter(apps, InQuery(caller, jobId)) == Filter(Filter(apps, InQuery(admin, jobId)), SubmittedBy(caller.id))
  {
    FilterFilter(apps, InQuery(admin, jobId), SubmittedBy(caller.id), InQuery(caller, jobId));
  }

  /** Once a job is deleted together with its applications, its list is empty for every caller. */
  lemma DeletedJobListsNothing(caller: Claims, users: seq<User>, apps: seq<Application>, jobId: Id)
    ensures JobApplications(caller, users, Filter(apps, JobRoutes.NotForJob(jobId)), jobId) == []
  {
    var remaining := Filter(apps, JobRoutes.NotForJob(jobId));
    FilterNone(remaining, InQuery(caller, jobId));
  }
}
