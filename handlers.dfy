/**
 * The route handlers of the job board as functions of the database and the session.
 *
 * A `Store` holds the four tables in insertion order, the next id each table assigns
 * (ids start at 1 and only grow), and the session cookie's two entries. A handler that
 * writes returns a `Response`: the HTTP status it sends and the store after its commit;
 * a handler that only reads returns a `Reply`: the status and the JSON body.
 *
 * Every handler that needs a login tests `session['user_id']` first and answers 401. Ids
 * start at 1, so the source's truth test on the id is the same as "the entry is present".
 */
module Handlers {
  import opened Optional
  import opened Seqs
  import opened Models

  /**
   * The JSON body of a job post or edit. Title, description and location are read
   * with `data[...]` (a missing one aborts the request, which is not modelled); the
   * other four with `data.get(...)`, so an absent field arrives as None.
   */
  datatype JobPayload = JobPayload(
    title: string,
    description: string,
    location: string,
    category: Option<string>,
    salary: Option<string>,
    experienceRequired: Option<string>,
    jobType: Option<string>)

  datatype Store = Store(
    users: seq<User>,
    jobs: seq<Job>,
    applications: seq<Application>,
    saved: seq<SavedJob>,
    nextUserId: nat,
    nextJobId: nat,
    nextApplicationId: nat,
    nextSavedId: nat,
    sessionUserId: Option<nat>,
    sessionRole: Option<Role>)

  /** The status a writing handler sends and the store it leaves. */
  datatype Response = Response(status: int, store: Store)

  /** The status a reading handler sends and its JSON body. */
  datatype Reply<T> = Reply(status: int, body: T)

  /** A user as `/api/auth/user` serialises it. */
  datatype UserView = UserView(id: nat, username: string, email: string, role: Role)

  /** A job as the public job list serialises it (every column but the active flag). */
  datatype JobView = JobView(
    id: nat,
    title: string,
    description: string,
    location: string,
    category: Option<string>,
    salary: Option<string>,
    experienceRequired: Option<string>,
    jobType: Option<string>,
    employerId: nat)

  /** An application as the application list serialises it, with its job's title and its applicant's name. */
  datatype ApplicationView = ApplicationView(
    id: nat, jobId: nat, jobTitle: string, status: Status, applicantId: nat, applicantName: string)

  /** A saved job as the saved-jobs list serialises it. */
  datatype SavedView = SavedView(jobId: nat, title: string, location: string, category: Option<string>)

  /** A freshly created database with nobody logged in. */
  const Empty: Store := Store([], [], [], [], 1, 1, 1, 1, None, None)

  // ---------------------------------------------------------------- invariant

  /** A table's ids are distinct, positive and below the next id to hand out. */
  predicate IdsAssigned<T>(s: seq<T>, id: T -> nat, next: nat) {
    1 <= next && Unique(s, id) && forall i :: 0 <= i < |s| ==> 1 <= id(s[i]) < next
  }

  /** The user with id `id` exists and has role `role`. */
  predicate HasRole(users: seq<User>, id: nat, role: Role) {
    exists i :: 0 <= i < |users| && users[i].id == id && users[i].role == role
  }

  /** A logged-in session names an existing user, and its role entry is that user's role. */
  predicate SessionValid(st: Store) {
    st.sessionUserId.Some? ==>
      exists i :: 0 <= i < |st.users| && st.users[i].id == st.sessionUserId.value &&
                  st.sessionRole == Some(st.users[i].role)
  }

  /**
   * What every handler keeps: unique ids and unique usernames and emails; jobs owned by
   * employers; applications made by jobseekers, at most one per (user, job) pair; saved
   * entries made by existing users, at most one per pair; a session naming a real user.
   * Jobs referenced by applications and saved entries need not exist: neither apply nor
   * save looks the job up.
   */
  predicate Valid(st: Store) {
    && IdsAssigned(st.users, UserId, st.nextUserId)
    && Unique(st.users, Username)
    && Unique(st.users, Email)
    && IdsAssigned(st.jobs, JobId, st.nextJobId)
    && IdsAssigned(st.applications, ApplicationId, st.nextApplicationId)
    && IdsAssigned(st.saved, SavedId, st.nextSavedId)
    && (forall i :: 0 <= i < |st.jobs| ==> HasRole(st.users, st.jobs[i].employerId, Employer))
    && (forall i :: 0 <= i < |st.applications| ==> HasRole(st.users, st.applications[i].userId, Jobseeker))
    && (forall i :: 0 <= i < |st.saved| ==> HasKey(st.users, UserId, st.saved[i].userId))
    && Unique(st.applications, ApplicationPair)
    && Unique(st.saved, SavedPair)
    && SessionValid(st)
  }

  // ---------------------------------------------------------------- lookups

  /** `User.query.get(session['user_id'])`: the logged-in user. */
  function SessionUser(st: Store): (u: Option<User>)
    requires Valid(st)
    ensures u.None? <==> st.sessionUserId.None?
    ensures u.Some? ==> u.value in st.users && u.value.id == st.sessionUserId.value
    ensures u.Some? ==> st.sessionRole == Some(u.value.role)
  {
    match st.sessionUserId
    case None => None
    case Some(id) =>
      match IndexOfKey(st.users, UserId, id)
      case Some(i) =>
        IndexOfUniqueKey(st.users, UserId, i);
        Some(st.users[i])
      case None => assert false; None
  }

  /** `User.query.get(id)` for an id known to exist. */
  function UserById(users: seq<User>, id: nat): User
    requires HasKey(users, UserId, id)
  {
    users[IndexOfKey(users, UserId, id).value]
  }

  /** `Job.query.get(id)` for an id known to exist. */
  function JobById(jobs: seq<Job>, id: nat): Job
    requires HasKey(jobs, JobId, id)
  {
    jobs[IndexOfKey(jobs, JobId, id).value]
  }

  /** The owner of the job with id `id`, if that job exists. */
  function JobOwner(jobs: seq<Job>, id: nat): Option<nat> {
    match IndexOfKey(jobs, JobId, id)
    case None => None
    case Some(i) => Some(jobs[i].employerId)
  }

  /** The status value of an update request: `.get('status')`, checked against the four names. */
  function StatusField(field: Option<string>): Option<Status> {
    if field.Some? then ParseStatus(field.value) else None
  }

  // ---------------------------------------------------------------- auth

  /**
   * POST /api/auth/signup. The hash of the password is computed outside the model and
   * passed in. A username or email already taken makes the insert fail; the session is
   * rolled back and 400 is sent.
   */
  function Signup(st: Store, username: string, email: string, passwordHash: string, role: Role): Response {
    if HasKey(st.users, Username, username) || HasKey(st.users, Email, email) then
      Response(400, st)
    else
      var user := User(st.nextUserId, username, email, passwordHash, role);
      Response(201, st.(users := st.users + [user], nextUserId := st.nextUserId + 1))
  }

  /**
   * POST /api/auth/login. `passwordMatches(hash, password)` stands for the hash check,
   * a foreign library call. An unknown email and a wrong password get the same answer.
   */
  function Login(st: Store, email: Option<string>, password: Option<string>,
                 passwordMatches: (string, string) -> bool): Response
  {
    if email.None? || password.None? then Response(400, st)
    else
      match IndexOfKey(st.users, Email, email.value)
      case None => Response(401, st)
      case Some(i) =>
        if !passwordMatches(st.users[i].passwordHash, password.value) then Response(401, st)
        else Response(200, st.(sessionUserId := Some(st.users[i].id), sessionRole := Some(st.users[i].role)))
  }

  /** POST /api/auth/logout: drops the user id from the session (the role entry stays). */
  function Logout(st: Store): Response {
    Response(200, st.(sessionUserId := None))
  }

  /** GET /api/auth/user. */
  function GetCurrentUser(st: Store): Reply<Option<UserView>>
    requires Valid(st)
  {
    match SessionUser(st)
    case None => Reply(401, None)
    case Some(u) => Reply(200, Some(UserView(u.id, u.username, u.email, u.role)))
  }

  // ---------------------------------------------------------------- jobs

  function JobViewOf(j: Job): JobView {
    JobView(j.id, j.title, j.description, j.location, j.category, j.salary,
            j.experienceRequired, j.jobType, j.employerId)
  }

  function JobViews(jobs: seq<Job>): seq<JobView> {
    seq(|jobs|, k requires 0 <= k < |jobs| => JobViewOf(jobs[k]))
  }

  /** `Job.query.filter_by(is_active=True).all()`. */
  function ActiveJobs(jobs: seq<Job>): seq<Job> {
    Filter(jobs, IsActive)
  }

  /** GET /api/jobs: public, every active job. */
  function GetAllJobs(st: Store): Reply<seq<JobView>> {
    Reply(200, JobViews(ActiveJobs(st.jobs)))
  }

  /** The row a post creates: active, owned by the poster, every payload field copied. */
  function NewJob(id: nat, p: JobPayload, employerId: nat): Job {
    Job(id, p.title, p.description, p.location, p.salary, p.jobType, p.category,
        p.experienceRequired, employerId, true)
  }

  /** POST /api/jobs: employers only. */
  function PostJob(st: Store, p: JobPayload): Response
    requires Valid(st)
  {
    match SessionUser(st)
    case None => Response(401, st)
    case Some(u) =>
      if u.role != Employer then Response(403, st)
      else Response(201, st.(jobs := st.jobs + [NewJob(st.nextJobId, p, u.id)], nextJobId := st.nextJobId + 1))
  }

  /** A job after an edit: each of the seven payload fields overwrites its column. */
  function Edited(j: Job, p: JobPayload): Job {
    j.(title := p.title, description := p.description, location := p.location,
       category := p.category, salary := p.salary, experienceRequired := p.experienceRequired,
       jobType := p.jobType)
  }

  /** PUT /api/jobs/<id>: 404 for an unknown job, then 403 unless the caller owns it. */
  function EditJob(st: Store, jobId: nat, p: JobPayload): Response {
    match st.sessionUserId
    case None => Response(401, st)
    case Some(uid) =>
      match IndexOfKey(st.jobs, JobId, jobId)
      case None => Response(404, st)
      case Some(i) =>
        if st.jobs[i].employerId != uid then Response(403, st)
        else Response(200, st.(jobs := st.jobs[i := Edited(st.jobs[i], p)]))
  }

  /** DELETE /api/jobs/<id>: the same guards as an edit; the job is only marked inactive. */
  function DeleteJob(st: Store, jobId: nat): Response {
    match st.sessionUserId
    case None => Response(401, st)
    case Some(uid) =>
      match IndexOfKey(st.jobs, JobId, jobId)
      case None => Response(404, st)
      case Some(i) =>
        if st.jobs[i].employerId != uid then Response(403, st)
        else Response(200, st.(jobs := st.jobs[i := st.jobs[i].(isActive := false)]))
  }

  /**
   * Deleting a job row outright, as the ORM's delete-orphan cascade does: its
   * applications and saved entries go with it. The cascade starts from an existing
   * job row, so the job must be in the table. No route does this.
   */
  function HardDeleteJob(st: Store, jobId: nat): Store
    requires HasKey(st.jobs, JobId, jobId)
  {
    st.(jobs := Filter(st.jobs, (j: Job) => j.id != jobId),
        applications := Filter(st.applications, (a: Application) => a.jobId != jobId),
        saved := Filter(st.saved, (s: SavedJob) => s.jobId != jobId))
  }

  // ---------------------------------------------------------------- applications

  /** POST /api/apply/<job_id>: jobseekers only, once per job; the job itself is not looked up. */
  function ApplyToJob(st: Store, jobId: nat): Response
    requires Valid(st)
  {
    match SessionUser(st)
    case None => Response(401, st)
    case Some(u) =>
      if u.role != Jobseeker then Response(403, st)
      else if HasKey(st.applications, ApplicationPair, (u.id, jobId)) then Response(400, st)
      else
        var a := Application(st.nextApplicationId, DefaultStatus, u.id, jobId);
        Response(201, st.(applications := st.applications + [a], nextApplicationId := st.nextApplicationId + 1))
  }

  /**
   * The applications a user sees: a jobseeker their own, anyone else those to the jobs
   * they own (an inner join with the job table).
   */
  function VisibleApplications(st: Store, u: User): seq<Application> {
    if u.role == Jobseeker then Filter(st.applications, (a: Application) => a.userId == u.id)
    else Filter(st.applications, (a: Application) => JobOwner(st.jobs, a.jobId) == Some(u.id))
  }

  /** An application can be serialised: its job and its applicant exist. */
  predicate Presentable(st: Store, a: Application) {
    HasKey(st.jobs, JobId, a.jobId) && HasKey(st.users, UserId, a.userId)
  }

  function ApplicationViewOf(st: Store, a: Application): ApplicationView
    requires Presentable(st, a)
  {
    ApplicationView(a.id, a.jobId, JobById(st.jobs, a.jobId).title, a.status, a.userId,
                    UserById(st.users, a.userId).username)
  }

  function ApplicationViews(st: Store, apps: seq<Application>): seq<ApplicationView>
    requires forall k :: 0 <= k < |apps| ==> Presentable(st, apps[k])
  {
    seq(|apps|, k requires 0 <= k < |apps| => ApplicationViewOf(st, apps[k]))
  }

  /**
   * The logged-in user's own applications all name existing jobs. Otherwise the
   * application list dereferences a missing job and the request fails with an error the
   * handler does not produce itself.
   */
  predicate OwnApplicationsHaveJobs(st: Store) {
    st.sessionUserId.Some? ==>
      forall i :: 0 <= i < |st.applications| && st.applications[i].userId == st.sessionUserId.value ==>
        HasKey(st.jobs, JobId, st.applications[i].jobId)
  }

  lemma VisiblePresentable(st: Store, u: User)
    requires Valid(st) && OwnApplicationsHaveJobs(st)
    requires u in st.users && st.sessionUserId == Some(u.id)
    ensures forall k :: 0 <= k < |VisibleApplications(st, u)| ==> Presentable(st, VisibleApplications(st, u)[k])
  {
    var apps := VisibleApplications(st, u);
    forall k | 0 <= k < |apps| ensures Presentable(st, apps[k]) {
      var a := apps[k];
      assert a in st.applications;
      var i :| 0 <= i < |st.applications| && st.applications[i] == a;
      assert HasRole(st.users, a.userId, Jobseeker);
      if u.role != Jobseeker {
        assert JobOwner(st.jobs, a.jobId) == Some(u.id);
      }
    }
  }

  /** GET /api/applications. */
  function GetApplications(st: Store): Reply<seq<ApplicationView>>
    requires Valid(st) && OwnApplicationsHaveJobs(st)
  {
    match SessionUser(st)
    case None => Reply(401, [])
    case Some(u) =>
      VisiblePresentable(st, u);
      Reply(200, ApplicationViews(st, VisibleApplications(st, u)))
  }

  /**
   * The application with id `appId`, if the caller is logged in and it exists, names an
   * existing job. Otherwise the status update dereferences a missing job and the request
   * fails with an error the handler does not produce itself.
   */
  predicate StatusUpdateDefined(st: Store, appId: nat) {
    st.sessionUserId.Some? ==>
      forall i :: 0 <= i < |st.applications| && st.applications[i].id == appId ==>
        HasKey(st.jobs, JobId, st.applications[i].jobId)
  }

  /**
   * PUT /api/applications/<id>: 404 for an unknown application, then 403 unless the
   * caller owns its job, then 400 for a value outside the four statuses. Any of the four
   * overwrites the current one, `pending` included.
   */
  function UpdateApplicationStatus(st: Store, appId: nat, newStatus: Option<string>): Response
    requires StatusUpdateDefined(st, appId)
  {
    match st.sessionUserId
    case None => Response(401, st)
    case Some(uid) =>
      match IndexOfKey(st.applications, ApplicationId, appId)
      case None => Response(404, st)
      case Some(i) =>
        if JobById(st.jobs, st.applications[i].jobId).employerId != uid then Response(403, st)
        else
          match StatusField(newStatus)
          case None => Response(400, st)
          case Some(s) =>
            Response(200, st.(applications := st.applications[i := st.applications[i].(status := s)]))
  }

  /** DELETE /api/applications/<id>: only the applicant, whatever the status. */
  function WithdrawApplication(st: Store, appId: nat): Response {
    match st.sessionUserId
    case None => Response(401, st)
    case Some(uid) =>
      match IndexOfKey(st.applications, ApplicationId, appId)
      case None => Response(404, st)
      case Some(i) =>
        if st.applications[i].userId != uid then Response(403, st)
        else Response(200, st.(applications := RemoveAt(st.applications, i)))
  }

  // ---------------------------------------------------------------- saved jobs

  /** POST /api/saved/<job_id>: any logged-in user, once per job; the job is not looked up. */
  function SaveJob(st: Store, jobId: nat): Response {
    match st.sessionUserId
    case None => Response(401, st)
    case Some(uid) =>
      if HasKey(st.saved, SavedPair, (uid, jobId)) then Response(400, st)
      else
        var s := SavedJob(st.nextSavedId, uid, jobId);
        Response(201, st.(saved := st.saved + [s], nextSavedId := st.nextSavedId + 1))
  }

  /** DELETE /api/saved/<job_id>: 404 unless the caller saved that job. */
  function UnsaveJob(st: Store, jobId: nat): Response {
    match st.sessionUserId
    case None => Response(401, st)
    case Some(uid) =>
      match IndexOfKey(st.saved, SavedPair, (uid, jobId))
      case None => Response(404, st)
      case Some(i) => Response(200, st.(saved := RemoveAt(st.saved, i)))
  }

  /** The saved entries of user `uid`. */
  function SavedBy(st: Store, uid: nat): seq<SavedJob> {
    Filter(st.saved, (s: SavedJob) => s.userId == uid)
  }

  /**
   * The logged-in user's saved entries all name existing jobs. Otherwise the saved-jobs
   * list dereferences a missing job and the request fails with an error the handler does
   * not produce itself.
   */
  predicate OwnSavedHaveJobs(st: Store) {
    st.sessionUserId.Some? ==>
      forall i :: 0 <= i < |st.saved| && st.saved[i].userId == st.sessionUserId.value ==>
        HasKey(st.jobs, JobId, st.saved[i].jobId)
  }

  function SavedViewOf(st: Store, s: SavedJob): SavedView
    requires HasKey(st.jobs, JobId, s.jobId)
  {
    var j := JobById(st.jobs, s.jobId);
    SavedView(j.id, j.title, j.location, j.category)
  }

  function SavedViews(st: Store, entries: seq<SavedJob>): seq<SavedView>
    requires forall k :: 0 <= k < |entries| ==> HasKey(st.jobs, JobId, entries[k].jobId)
  {
    seq(|entries|, k requires 0 <= k < |entries| => SavedViewOf(st, entries[k]))
  }

  /** GET /api/saved. */
  function GetSavedJobs(st: Store): Reply<seq<SavedView>>
    requires OwnSavedHaveJobs(st)
  {
    match st.sessionUserId
    case None => Reply(401, [])
    case Some(uid) =>
      var entries := SavedBy(st, uid);
      assert forall k :: 0 <= k < |entries| ==> entries[k] in st.saved && entries[k].userId == uid;
      Reply(200, SavedViews(st, entries))
  }
}
