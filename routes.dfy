/**
 * The Flask route handlers as methods of one server object. The object holds the
 * database's four tables, the id each table hands out next, and the session cookie of
 * the client making the requests. Every method returns the HTTP status the handler
 * sends, and its postcondition says that the status and the new state are exactly
 * those of the matching function in `Handlers`, whose properties are proved in
 * `HandlerProperties` and `Invariants`.
 */
module Routes {
  import opened Optional
  import opened Seqs
  import opened Models
  import opened Handlers
  import opened Invariants

  class Server {
    var users: seq<User>
    var jobs: seq<Job>
    var applications: seq<Application>
    var saved: seq<SavedJob>
    var nextUserId: nat
    var nextJobId: nat
    var nextApplicationId: nat
    var nextSavedId: nat
    var sessionUserId: Option<nat>  // session['user_id']
    var sessionRole: Option<Role>   // session['role']

    /** The server's state as a value. */
    function Current(): Store
      reads this
    {
      Store(users, jobs, applications, saved, nextUserId, nextJobId, nextApplicationId, nextSavedId,
            sessionUserId, sessionRole)
    }

    predicate Valid()
      reads this
    {
      Handlers.Valid(Current())
    }

    /** A freshly created database and a client with an empty cookie. */
    constructor ()
      ensures Valid() && Current() == Empty
    {
      users, jobs, applications, saved := [], [], [], [];
      nextUserId, nextJobId, nextApplicationId, nextSavedId := 1, 1, 1, 1;
      sessionUserId, sessionRole := None, None;
      EmptyValid();
    }

    method Signup(username: string, email: string, passwordHash: string, role: Role) returns (status: int)
      requires Valid()
      modifies this
      ensures Valid()
      ensures Response(status, Current()) == Handlers.Signup(old(Current()), username, email, passwordHash, role)
    {
      SignupPreservesValid(Current(), username, email, passwordHash, role);
      if HasKey(users, Username, username) || HasKey(users, Email, email) {
        // the insert violates a unique column; the transaction is rolled back
        return 400;
      }
      users := users + [User(nextUserId, username, email, passwordHash, role)];
      nextUserId := nextUserId + 1;
      return 201;
    }

    method Login(email: Option<string>, password: Option<string>, passwordMatches: (string, string) -> bool)
      returns (status: int)
      requires Valid()
      modifies this
      ensures Valid()
      ensures Response(status, Current()) == Handlers.Login(old(Current()), email, password, passwordMatches)
    {
      LoginPreservesValid(Current(), email, password, passwordMatches);
      if email.None? || password.None? {
        return 400;
      }
      var found := IndexOfKey(users, Email, email.value);
      if found.None? {
        return 401;
      }
      var user := users[found.value];
      if !passwordMatches(user.passwordHash, password.value) {
        return 401;
      }
      sessionUserId := Some(user.id);
      sessionRole := Some(user.role);
      return 200;
    }

    method Logout() returns (status: int)
      requires Valid()
      modifies this
      ensures Valid()
      ensures Response(status, Current()) == Handlers.Logout(old(Current()))
    {
      LogoutPreservesValid(Current());
      sessionUserId := None;
      return 200;
    }

    method GetCurrentUser() returns (status: int, profile: Option<UserView>)
      requires Valid()
      ensures Reply(status, profile) == Handlers.GetCurrentUser(Current())
    {
      if sessionUserId.None? {
        return 401, None;
      }
      var user := SessionUser(Current()).value;
      return 200, Some(UserView(user.id, user.username, user.email, user.role));
    }

    /** GET /api/jobs: the active jobs, serialised one by one. */
    method GetAllJobs() returns (status: int, result: seq<JobView>)
      ensures Reply(status, result) == Handlers.GetAllJobs(Current())
    {
      var active := ActiveJobs(jobs);
      result := [];
      var k := 0;
      while k < |active|
        invariant 0 <= k <= |active|
        invariant |result| == k
        invariant forall m :: 0 <= m < k ==> result[m] == JobViewOf(active[m])
      {
        var job := active[k];
        result := result + [JobView(job.id, job.title, job.description, job.location, job.category,
                                    job.salary, job.experienceRequired, job.jobType, job.employerId)];
        k := k + 1;
      }
      assert result == JobViews(active);
      status := 200;
    }

    method PostJob(p: JobPayload) returns (status: int)
      requires Valid()
      modifies this
      ensures Valid()
      ensures Response(status, Current()) == Handlers.PostJob(old(Current()), p)
    {
      PostJobPreservesValid(Current(), p);
      if sessionUserId.None? {
        return 401;
      }
      var user := SessionUser(Current()).value;
      if user.role != Employer {
        return 403;
      }
      jobs := jobs + [NewJob(nextJobId, p, user.id)];
      nextJobId := nextJobId + 1;
      return 201;
    }

    method EditJob(jobId: nat, p: JobPayload) returns (status: int)
      requires Valid()
      modifies this
      ensures Valid()
      ensures Response(status, Current()) == Handlers.EditJob(old(Current()), jobId, p)
    {
      EditJobPreservesValid(Current(), jobId, p);
      if sessionUserId.None? {
        return 401;
      }
      var found := IndexOfKey(jobs, JobId, jobId);
      if found.None? {
        return 404;
      }
      var i := found.value;
      var job := jobs[i];
      if job.employerId != sessionUserId.value {
        return 403;
      }
      job := job.(title := p.title);
      job := job.(description := p.description);
      job := job.(location := p.location);
      job := job.(category := p.category);
      job := job.(salary := p.salary);
      job := job.(experienceRequired := p.experienceRequired);
      job := job.(jobType := p.jobType);
      jobs := jobs[i := job];
      return 200;
    }

    method DeleteJob(jobId: nat) returns (status: int)
      requires Valid()
      modifies this
      ensures Valid()
      ensures Response(status, Current()) == Handlers.DeleteJob(old(Current()), jobId)
    {
      DeleteJobPreservesValid(Current(), jobId);
      if sessionUserId.None? {
        return 401;
      }
      var found := IndexOfKey(jobs, JobId, jobId);
      if found.None? {
        return 404;
      }
      var i := found.value;
      if jobs[i].employerId != sessionUserId.value {
        return 403;
      }
      jobs := jobs[i := jobs[i].(isActive := false)];
      return 200;
    }

    method ApplyToJob(jobId: nat) returns (status: int)
      requires Valid()
      modifies this
      ensures Valid()
      ensures Response(status, Current()) == Handlers.ApplyToJob(old(Current()), jobId)
    {
      ApplyPreservesValid(Current(), jobId);
      if sessionUserId.None? {
        return 401;
      }
      var user := SessionUser(Current()).value;
      if user.role != Jobseeker {
        return 403;
      }
      var uid := sessionUserId.value;
      if HasKey(applications, ApplicationPair, (uid, jobId)) {
        return 400;
      }
      applications := applications + [Application(nextApplicationId, DefaultStatus, uid, jobId)];
      nextApplicationId := nextApplicationId + 1;
      return 201;
    }

    /** GET /api/applications: the visible applications, serialised one by one. */
    method GetApplications() returns (status: int, result: seq<ApplicationView>)
      requires Valid() && OwnApplicationsHaveJobs(Current())
      ensures Reply(status, result) == Handlers.GetApplications(Current())
    {
      if sessionUserId.None? {
        return 401, [];
      }
      var st := Current();
      var user := SessionUser(st).value;
      var apps := VisibleApplications(st, user);
      VisiblePresentable(st, user);
      result := SerialiseApplications(st, apps);
      status := 200;
    }

    method UpdateApplicationStatus(appId: nat, newStatus: Option<string>) returns (status: int)
      requires Valid() && StatusUpdateDefined(Current(), appId)
      modifies this
      ensures Valid()
      ensures Response(status, Current()) == Handlers.UpdateApplicationStatus(old(Current()), appId, newStatus)
    {
      UpdateStatusPreservesValid(Current(), appId, newStatus);
      if sessionUserId.None? {
        return 401;
      }
      var found := IndexOfKey(applications, ApplicationId, appId);
      if found.None? {
        return 404;
      }
      var i := found.value;
      var job := JobById(jobs, applications[i].jobId);
      if job.employerId != sessionUserId.value {
        return 403;
      }
      var parsed := StatusField(newStatus);
      if parsed.None? {
        return 400;
      }
      applications := applications[i := applications[i].(status := parsed.value)];
      return 200;
    }

    method WithdrawApplication(appId: nat) returns (status: int)
      requires Valid()
      modifies this
      ensures Valid()
      ensures Response(status, Current()) == Handlers.WithdrawApplication(old(Current()), appId)
    {
      WithdrawPreservesValid(Current(), appId);
      if sessionUserId.None? {
        return 401;
      }
      var found := IndexOfKey(applications, ApplicationId, appId);
      if found.None? {
        return 404;
      }
      var i := found.value;
      if applications[i].userId != sessionUserId.value {
        return 403;
      }
      applications := RemoveAt(applications, i);
      return 200;
    }

    method SaveJob(jobId: nat) returns (status: int)
      requires Valid()
      modifies this
      ensures Valid()
      ensures Response(status, Current()) == Handlers.SaveJob(old(Current()), jobId)
    {
      SavePreservesValid(Current(), jobId);
      if sessionUserId.None? {
        return 401;
      }
      var uid := sessionUserId.value;
      if HasKey(saved, SavedPair, (uid, jobId)) {
        return 400;
      }
      saved := saved + [SavedJob(nextSavedId, uid, jobId)];
      nextSavedId := nextSavedId + 1;
      return 201;
    }

    method UnsaveJob(jobId: nat) returns (status: int)
      requires Valid()
      modifies this
      ensures Valid()
      ensures Response(status, Current()) == Handlers.UnsaveJob(old(Current()), jobId)
    {
      UnsavePreservesValid(Current(), jobId);
      if sessionUserId.None? {
        return 401;
      }
      var found := IndexOfKey(saved, SavedPair, (sessionUserId.value, jobId));
      if found.None? {
        return 404;
      }
      saved := RemoveAt(saved, found.value);
      return 200;
    }

    /** GET /api/saved: the caller's saved entries, each projected onto its job. */
    method GetSavedJobs() returns (status: int, result: seq<SavedView>)
      requires OwnSavedHaveJobs(Current())
      ensures Reply(status, result) == Handlers.GetSavedJobs(Current())
    {
      if sessionUserId.None? {
        return 401, [];
      }
      var uid := sessionUserId.value;
      var entries := SavedBy(Current(), uid);
      assert forall k :: 0 <= k < |entries| ==> entries[k] in saved && entries[k].userId == uid;
      return 200, SavedViews(Current(), entries);
    }
  }

  /** The loop of GET /api/applications: one JSON object per application, in query order. */
  method SerialiseApplications(st: Store, apps: seq<Application>) returns (result: seq<ApplicationView>)
    requires forall k :: 0 <= k < |apps| ==> Presentable(st, apps[k])
    ensures result == ApplicationViews(st, apps)
  {
    result := [];
    var k := 0;
    while k < |apps|
      invariant 0 <= k <= |apps|
      invariant |result| == k
      invariant forall m :: 0 <= m < k ==> result[m] == ApplicationViewOf(st, apps[m])
    {
      var a := apps[k];
      var job := JobById(st.jobs, a.jobId);
      var applicant := UserById(st.users, a.userId);
      result := result + [ApplicationView(a.id, a.jobId, job.title, a.status, a.userId, applicant.username)];
      k := k + 1;
    }
  }
}
