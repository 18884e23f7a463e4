/**
 * What the handlers promise, stated without reference to how they compute it: the
 * order of the 401/404/403/400 guards, what each success writes and that nothing else
 * changes, and what sequences of requests do.
 */
module HandlerProperties {
  import opened Optional
  import opened Seqs
  import opened Models
  import opened Handlers
  import opened Invariants

  /** User `uid` owns an existing job with id `jobId`. */
  predicate OwnsJob(jobs: seq<Job>, uid: nat, jobId: nat) {
    exists k :: 0 <= k < |jobs| && jobs[k].id == jobId && jobs[k].employerId == uid
  }

  /** `a` is one of the applications `u` may see: their own, or one to a job they own. */
  predicate Shown(st: Store, u: User, a: Application) {
    if u.role == Jobseeker then a.userId == u.id else OwnsJob(st.jobs, u.id, a.jobId)
  }

  /** `v` shows the job with id `jobId`: its id, title, location and category. */
  predicate ShowsJob(jobs: seq<Job>, jobId: nat, v: SavedView) {
    exists j :: j in jobs && j.id == jobId && v == SavedView(j.id, j.title, j.location, j.category)
  }

  /** `j` is the row a post of `p` by `uid` creates: active, owned by `uid`, every field from `p`. */
  predicate PostedFrom(j: Job, p: JobPayload, uid: nat) {
    && j.employerId == uid && j.isActive
    && j.title == p.title && j.description == p.description && j.location == p.location
    && j.salary == p.salary && j.jobType == p.jobType && j.category == p.category
    && j.experienceRequired == p.experienceRequired
  }

  /** `after` is `before` with every payload field written over it, id, owner and flag kept. */
  predicate Overwritten(before: Job, after: Job, p: JobPayload) {
    && after.id == before.id && after.employerId == before.employerId && after.isActive == before.isActive
    && after.title == p.title && after.description == p.description && after.location == p.location
    && after.salary == p.salary && after.jobType == p.jobType && after.category == p.category
    && after.experienceRequired == p.experienceRequired
  }

  /** In a valid store the logged-in user is the one row with the session's id. */
  lemma SessionUserIs(st: Store, i: nat)
    requires Valid(st) && st.sessionUserId.Some?
    requires i < |st.users| && st.users[i].id == st.sessionUserId.value
    ensures SessionUser(st) == Some(st.users[i])
  {
    IndexOfUniqueKey(st.users, UserId, i);
  }

  // ---------------------------------------------------------------- auth

  /** With nobody logged in, every handler that reads the session's user id answers 401 and writes nothing. */
  lemma UnauthenticatedRejected(st: Store, jobId: nat, appId: nat, p: JobPayload, newStatus: Option<string>)
    requires Valid(st) && st.sessionUserId.None?
    ensures PostJob(st, p) == Response(401, st)
    ensures EditJob(st, jobId, p) == Response(401, st)
    ensures DeleteJob(st, jobId) == Response(401, st)
    ensures ApplyToJob(st, jobId) == Response(401, st)
    ensures UpdateApplicationStatus(st, appId, newStatus) == Response(401, st)
    ensures WithdrawApplication(st, appId) == Response(401, st)
    ensures SaveJob(st, jobId) == Response(401, st)
    ensures UnsaveJob(st, jobId) == Response(401, st)
    ensures GetApplications(st) == Reply(401, [])
    ensures GetSavedJobs(st) == Reply(401, [])
    ensures GetCurrentUser(st) == Reply(401, None)
  {
  }

  /** A username or email already on file is refused with 400 and nothing written; otherwise exactly one user is added. */
  lemma SignupOutcome(st: Store, username: string, email: string, passwordHash: string, role: Role)
    requires Valid(st)
    ensures var r := Signup(st, username, email, passwordHash, role);
      && (r.status == 400 <==>
            exists i :: 0 <= i < |st.users| && (st.users[i].username == username || st.users[i].email == email))
      && (r.status == 400 ==> r.store == st)
      && (r.status != 400 ==>
            && r.status == 201
            && |r.store.users| == |st.users| + 1
            && r.store.users[..|st.users|] == st.users
            && r.store.users[|st.users|].username == username
            && r.store.users[|st.users|].email == email
            && r.store.users[|st.users|].passwordHash == passwordHash
            && r.store.users[|st.users|].role == role
            && !HasKey(st.users, UserId, r.store.users[|st.users|].id)
            && r.store.(users := st.users, nextUserId := st.nextUserId) == st)
  {
    var r := Signup(st, username, email, passwordHash, role);
    if r.status != 400 {
      FreshId(st.users, UserId, st.nextUserId);
      assert r.store.users[..|st.users|] == st.users;
    } else if HasKey(st.users, Username, username) {
      var i :| 0 <= i < |st.users| && Username(st.users[i]) == username;
    } else {
      var i :| 0 <= i < |st.users| && Email(st.users[i]) == email;
    }
  }

  /** A second signup with an email that just signed up is refused. */
  lemma SignupTwiceRefused(st: Store, username: string, otherName: string, email: string,
                           hash: string, otherHash: string, role: Role, otherRole: Role)
    requires Valid(st) && Signup(st, username, email, hash, role).status == 201
    ensures var s := Signup(st, username, email, hash, role).store;
      Signup(s, otherName, email, otherHash, otherRole) == Response(400, s)
  {
    var s := Signup(st, username, email, hash, role).store;
    assert Email(s.users[|st.users|]) == email;
  }

  /**
   * A login with an unknown email and one with a wrong password get the same answer,
   * 401 with nothing written.
   */
  lemma LoginFailuresIndistinguishable(st: Store, email: string, password: string,
                                       passwordMatches: (string, string) -> bool)
    requires Valid(st)
    ensures !HasKey(st.users, Email, email) ==>
              Login(st, Some(email), Some(password), passwordMatches) == Response(401, st)
    ensures forall i :: 0 <= i < |st.users| && st.users[i].email == email &&
                        !passwordMatches(st.users[i].passwordHash, password) ==>
              Login(st, Some(email), Some(password), passwordMatches) == Response(401, st)
  {
    forall i | 0 <= i < |st.users| && st.users[i].email == email &&
               !passwordMatches(st.users[i].passwordHash, password)
      ensures Login(st, Some(email), Some(password), passwordMatches) == Response(401, st)
    {
      IndexOfUniqueKey(st.users, Email, i);
    }
  }

  /** The right password for a known email logs that user in: the session gets their id and role. */
  lemma LoginSucceeds(st: Store, email: string, password: string,
                      passwordMatches: (string, string) -> bool, i: nat)
    requires Valid(st) && i < |st.users| && st.users[i].email == email
    requires passwordMatches(st.users[i].passwordHash, password)
    ensures var r := Login(st, Some(email), Some(password), passwordMatches);
      && r.status == 200
      && r.store.sessionUserId == Some(st.users[i].id)
      && r.store.sessionRole == Some(st.users[i].role)
      && r.store.(sessionUserId := st.sessionUserId, sessionRole := st.sessionRole) == st
  {
    IndexOfUniqueKey(st.users, Email, i);
  }

  /** A login request without an email or a password is refused with 400 before any lookup. */
  lemma LoginNeedsBothFields(st: Store, email: Option<string>, password: Option<string>,
                             passwordMatches: (string, string) -> bool)
    requires email.None? || password.None?
    ensures Login(st, email, password, passwordMatches) == Response(400, st)
  {
  }

  /** Logout leaves nobody logged in and touches no table, so every guarded handler then answers 401. */
  lemma LogoutEndsSession(st: Store, jobId: nat, appId: nat, p: JobPayload, newStatus: Option<string>)
    requires Valid(st)
    ensures Valid(Logout(st).store)
    ensures var s := Logout(st).store;
      && Logout(st).status == 200
      && s.sessionUserId.None?
      && s.(sessionUserId := st.sessionUserId) == st
      && PostJob(s, p) == Response(401, s)
      && EditJob(s, jobId, p) == Response(401, s)
      && DeleteJob(s, jobId) == Response(401, s)
      && ApplyToJob(s, jobId) == Response(401, s)
      && UpdateApplicationStatus(s, appId, newStatus) == Response(401, s)
      && WithdrawApplication(s, appId) == Response(401, s)
      && SaveJob(s, jobId) == Response(401, s)
      && UnsaveJob(s, jobId) == Response(401, s)
      && GetApplications(s) == Reply(401, [])
      && GetSavedJobs(s) == Reply(401, [])
      && GetCurrentUser(s) == Reply(401, None)
  {
    LogoutPreservesValid(st);
    UnauthenticatedRejected(Logout(st).store, jobId, appId, p, newStatus);
  }

  /** The current user is the session's user. */
  lemma CurrentUserOutcome(st: Store, i: nat)
    requires Valid(st) && st.sessionUserId.Some?
    requires i < |st.users| && st.users[i].id == st.sessionUserId.value
    ensures GetCurrentUser(st).status == 200
    ensures GetCurrentUser(st).body == Some(UserView(st.users[i].id, st.users[i].username, st.users[i].email, st.users[i].role))
  {
    SessionUserIs(st, i);
  }

  // ---------------------------------------------------------------- jobs

  /** The public job list shows exactly the active jobs. */
  lemma GetAllJobsListsActive(st: Store)
    ensures GetAllJobs(st).status == 200
    ensures forall v :: v in GetAllJobs(st).body <==>
              exists i :: 0 <= i < |st.jobs| && st.jobs[i].isActive && v == JobViewOf(st.jobs[i])
    ensures |GetAllJobs(st).body| == |Matching(st.jobs, IsActive)|
  {
    var active := ActiveJobs(st.jobs);
    FilterLength(st.jobs, IsActive);
    var body := GetAllJobs(st).body;
    forall v | v in body
      ensures exists i :: 0 <= i < |st.jobs| && st.jobs[i].isActive && v == JobViewOf(st.jobs[i])
    {
      var k :| 0 <= k < |body| && body[k] == v;
      assert active[k] in st.jobs && IsActive(active[k]);
      var i :| 0 <= i < |st.jobs| && st.jobs[i] == active[k];
    }
    forall i | 0 <= i < |st.jobs| && st.jobs[i].isActive
      ensures JobViewOf(st.jobs[i]) in body
    {
      assert IsActive(st.jobs[i]);
      var k :| 0 <= k < |active| && active[k] == st.jobs[i];
      assert body[k] == JobViewOf(st.jobs[i]);
    }
  }

  /** Only an employer may post; a post adds exactly one job, owned by the poster, and changes nothing else. */
  lemma PostJobOutcome(st: Store, p: JobPayload)
    requires Valid(st) && st.sessionUserId.Some?
    ensures var r := PostJob(st, p); var uid := st.sessionUserId.value;
      && (r.status == 403 <==> !HasRole(st.users, uid, Employer))
      && (r.status == 403 ==> r.store == st)
      && (r.status != 403 ==>
            && r.status == 201
            && |r.store.jobs| == |st.jobs| + 1
            && r.store.jobs[..|st.jobs|] == st.jobs
            && PostedFrom(r.store.jobs[|st.jobs|], p, uid)
            && !HasKey(st.jobs, JobId, r.store.jobs[|st.jobs|].id)
            && r.store.(jobs := st.jobs, nextJobId := st.nextJobId) == st)
  {
    var uid := st.sessionUserId.value;
    var i :| 0 <= i < |st.users| && st.users[i].id == uid && st.sessionRole == Some(st.users[i].role);
    SessionUserIs(st, i);
    FreshId(st.jobs, JobId, st.nextJobId);
    var r := PostJob(st, p);
    if r.status == 201 {
      assert r.store.jobs[..|st.jobs|] == st.jobs;
    }
  }

  /**
   * An edit answers 404 for an unknown job, then 403 to anyone but its owner, writing
   * nothing; the owner's edit overwrites that job's fields and nothing else.
   */
  lemma EditJobOutcome(st: Store, jobId: nat, p: JobPayload)
    requires Valid(st) && st.sessionUserId.Some?
    ensures var r := EditJob(st, jobId, p); var uid := st.sessionUserId.value;
      && r.status in {404, 403, 200}
      && (r.status == 404 <==> !HasKey(st.jobs, JobId, jobId))
      && (r.status == 403 <==> exists i :: 0 <= i < |st.jobs| && st.jobs[i].id == jobId && st.jobs[i].employerId != uid)
      && (r.status != 200 ==> r.store == st)
      && (r.status == 200 ==>
            && |r.store.jobs| == |st.jobs|
            && r.store.(jobs := st.jobs) == st
            && forall k :: 0 <= k < |st.jobs| ==>
                 if st.jobs[k].id == jobId then Overwritten(st.jobs[k], r.store.jobs[k], p)
                 else r.store.jobs[k] == st.jobs[k])
  {
    var r := EditJob(st, jobId, p);
    var uid := st.sessionUserId.value;
    match IndexOfKey(st.jobs, JobId, jobId)
    case None =>
    case Some(i) =>
      forall k | 0 <= k < |st.jobs| && st.jobs[k].id == jobId ensures k == i {
        IndexOfUniqueKey(st.jobs, JobId, k);
      }
  }

  /**
   * A delete has the same guards as an edit; the owner's delete only clears that job's
   * active flag. Applications and saved entries for the job stay.
   */
  lemma DeleteJobOutcome(st: Store, jobId: nat)
    requires Valid(st) && st.sessionUserId.Some?
    ensures var r := DeleteJob(st, jobId); var uid := st.sessionUserId.value;
      && r.status in {404, 403, 200}
      && (r.status == 404 <==> !HasKey(st.jobs, JobId, jobId))
      && (r.status == 403 <==> exists i :: 0 <= i < |st.jobs| && st.jobs[i].id == jobId && st.jobs[i].employerId != uid)
      && (r.status != 200 ==> r.store == st)
      && (r.status == 200 ==>
            && r.store.applications == st.applications
            && r.store.saved == st.saved
            && |r.store.jobs| == |st.jobs|
            && r.store.(jobs := st.jobs) == st
            && forall k :: 0 <= k < |st.jobs| ==>
                 r.store.jobs[k] == if st.jobs[k].id == jobId then st.jobs[k].(isActive := false) else st.jobs[k])
  {
    var r := DeleteJob(st, jobId);
    match IndexOfKey(st.jobs, JobId, jobId)
    case None =>
    case Some(i) =>
      forall k | 0 <= k < |st.jobs| && st.jobs[k].id == jobId ensures k == i {
        IndexOfUniqueKey(st.jobs, JobId, k);
      }
  }

  /** A deleted job disappears from the public list. */
  lemma DeletedJobNotListed(st: Store, jobId: nat)
    requires Valid(st) && st.sessionUserId.Some? && DeleteJob(st, jobId).status == 200
    ensures forall v :: v in GetAllJobs(DeleteJob(st, jobId).store).body ==> v.id != jobId
  {
    var s := DeleteJob(st, jobId).store;
    DeleteJobOutcome(st, jobId);
    GetAllJobsListsActive(s);
    forall v | v in GetAllJobs(s).body ensures v.id != jobId {
      var i :| 0 <= i < |s.jobs| && s.jobs[i].isActive && v == JobViewOf(s.jobs[i]);
    }
  }

  /** Hard-deleting a job leaves no row that refers to it and keeps every row that does not. */
  lemma HardDeleteCascades(st: Store, jobId: nat)
    requires HasKey(st.jobs, JobId, jobId)
    ensures var s := HardDeleteJob(st, jobId);
      && !HasKey(s.jobs, JobId, jobId)
      && (forall i :: 0 <= i < |s.applications| ==> s.applications[i].jobId != jobId)
      && (forall i :: 0 <= i < |s.saved| ==> s.saved[i].jobId != jobId)
      && (forall i :: 0 <= i < |st.jobs| && st.jobs[i].id != jobId ==> st.jobs[i] in s.jobs)
      && (forall i :: 0 <= i < |st.applications| && st.applications[i].jobId != jobId ==> st.applications[i] in s.applications)
      && (forall i :: 0 <= i < |st.saved| && st.saved[i].jobId != jobId ==> st.saved[i] in s.saved)
      && (forall j :: j in s.jobs ==> j in st.jobs)
      && (forall a :: a in s.applications ==> a in st.applications)
      && (forall e :: e in s.saved ==> e in st.saved)
      && s.(jobs := st.jobs, applications := st.applications, saved := st.saved) == st
  {
  }

  // ---------------------------------------------------------------- applications

  /**
   * Only a jobseeker may apply, and only once per job; an application starts pending
   * and nothing else changes.
   */
  lemma ApplyOutcome(st: Store, jobId: nat)
    requires Valid(st) && st.sessionUserId.Some?
    ensures var r := ApplyToJob(st, jobId); var uid := st.sessionUserId.value; var apps := st.applications;
      && (r.status == 403 <==> !HasRole(st.users, uid, Jobseeker))
      && (r.status == 400 <==> HasRole(st.users, uid, Jobseeker) &&
                               exists i :: 0 <= i < |apps| && apps[i].userId == uid && apps[i].jobId == jobId)
      && (r.status != 201 ==> r.store == st)
      && (r.status != 400 && r.status != 403 ==>
            && r.status == 201
            && |r.store.applications| == |apps| + 1
            && r.store.applications[..|apps|] == apps
            && r.store.applications[|apps|].status == Pending
            && r.store.applications[|apps|].userId == uid
            && r.store.applications[|apps|].jobId == jobId
            && !HasKey(apps, ApplicationId, r.store.applications[|apps|].id)
            && r.store.(applications := apps, nextApplicationId := st.nextApplicationId) == st)
  {
    var uid := st.sessionUserId.value;
    var i :| 0 <= i < |st.users| && st.users[i].id == uid && st.sessionRole == Some(st.users[i].role);
    SessionUserIs(st, i);
    FreshId(st.applications, ApplicationId, st.nextApplicationId);
    var r := ApplyToJob(st, jobId);
    if r.status == 201 {
      assert r.store.applications[..|st.applications|] == st.applications;
    }
    if HasKey(st.applications, ApplicationPair, (uid, jobId)) {
      var k :| 0 <= k < |st.applications| && ApplicationPair(st.applications[k]) == (uid, jobId);
    }
  }

  /** Applying twice to the same job: the second request gets 400 and the one application stays. */
  lemma ApplyTwice(st: Store, jobId: nat)
    requires Valid(st) && st.sessionUserId.Some? && ApplyToJob(st, jobId).status == 201
    ensures Valid(ApplyToJob(st, jobId).store)
    ensures var s := ApplyToJob(st, jobId).store;
      && ApplyToJob(s, jobId) == Response(400, s)
      && HasKey(s.applications, ApplicationPair, (st.sessionUserId.value, jobId))
  {
    ApplyPreservesValid(st, jobId);
    var s := ApplyToJob(st, jobId).store;
    assert ApplicationPair(s.applications[|st.applications|]) == (st.sessionUserId.value, jobId);
  }

  /** The applications a user is shown: a jobseeker their own, an employer those to jobs they own. */
  lemma VisibleApplicationsScope(st: Store, u: User)
    requires Valid(st)
    ensures forall i :: 0 <= i < |st.applications| ==>
              (st.applications[i] in VisibleApplications(st, u) <==> Shown(st, u, st.applications[i]))
    ensures forall k :: 0 <= k < |VisibleApplications(st, u)| ==> VisibleApplications(st, u)[k] in st.applications
    ensures |VisibleApplications(st, u)| == |set i: nat | i < |st.applications| && Shown(st, u, st.applications[i])|
  {
    VisibleMembership(st, u);
    VisibleLength(st, u);
    var apps := st.applications;
    var vis := VisibleApplications(st, u);
    assert (set i: nat | i < |apps| && apps[i] in vis) == set i: nat | i < |apps| && Shown(st, u, apps[i]);
  }

  /** An application is in the list exactly when the user may see it. */
  lemma VisibleMembership(st: Store, u: User)
    requires Valid(st)
    ensures forall i :: 0 <= i < |st.applications| ==>
              (st.applications[i] in VisibleApplications(st, u) <==> Shown(st, u, st.applications[i]))
  {
    forall i | 0 <= i < |st.applications|
      ensures st.applications[i] in VisibleApplications(st, u) <==> Shown(st, u, st.applications[i])
    {
      var a := st.applications[i];
      if u.role != Jobseeker {
        match IndexOfKey(st.jobs, JobId, a.jobId)
        case None =>
        case Some(j) =>
          forall k | 0 <= k < |st.jobs| && st.jobs[k].id == a.jobId ensures k == j {
            IndexOfUniqueKey(st.jobs, JobId, k);
          }
      }
    }
  }

  /** The list has one entry for each row of the table that is in it. */
  lemma VisibleLength(st: Store, u: User)
    ensures |VisibleApplications(st, u)| ==
            |set i: nat | i < |st.applications| && st.applications[i] in VisibleApplications(st, u)|
  {
    var p := if u.role == Jobseeker then (a: Application) => a.userId == u.id
             else (a: Application) => JobOwner(st.jobs, a.jobId) == Some(u.id);
    var vis := VisibleApplications(st, u);
    assert vis == Filter(st.applications, p);
    FilterLength(st.applications, p);
    forall i: nat | i < |st.applications| ensures p(st.applications[i]) <==> st.applications[i] in vis {
      if st.applications[i] in vis {
        var k :| 0 <= k < |vis| && vis[k] == st.applications[i];
      }
    }
    assert Matching(st.applications, p) == set i: nat | i < |st.applications| && st.applications[i] in vis;
  }

  /** The application list shows each visible application once, with its own id, job and status. */
  lemma GetApplicationsOutcome(st: Store, i: nat)
    requires Valid(st) && OwnApplicationsHaveJobs(st) && st.sessionUserId.Some?
    requires i < |st.users| && st.users[i].id == st.sessionUserId.value
    ensures var r := GetApplications(st); var vis := VisibleApplications(st, st.users[i]);
      && r.status == 200
      && |r.body| == |vis|
      && forall k :: 0 <= k < |vis| ==>
           && r.body[k].id == vis[k].id && r.body[k].jobId == vis[k].jobId
           && r.body[k].status == vis[k].status && r.body[k].applicantId == vis[k].userId
           && (exists j :: j in st.jobs && j.id == vis[k].jobId && r.body[k].jobTitle == j.title)
           && (exists a :: a in st.users && a.id == vis[k].userId && r.body[k].applicantName == a.username)
  {
    SessionUserIs(st, i);
    var vis := VisibleApplications(st, st.users[i]);
    VisiblePresentable(st, st.users[i]);
    forall k | 0 <= k < |vis|
      ensures JobById(st.jobs, vis[k].jobId) in st.jobs && JobById(st.jobs, vis[k].jobId).id == vis[k].jobId
      ensures UserById(st.users, vis[k].userId) in st.users && UserById(st.users, vis[k].userId).id == vis[k].userId
    {
    }
  }

  /**
   * A status update answers 404 for an unknown application, then 403 to anyone but
   * the owner of its job whatever value is sent, then 400 for a value outside the four
   * statuses, writing nothing in each case.
   */
  lemma UpdateStatusGuards(st: Store, appId: nat, newStatus: Option<string>)
    requires Valid(st) && st.sessionUserId.Some? && StatusUpdateDefined(st, appId)
    ensures var r := UpdateApplicationStatus(st, appId, newStatus); var uid := st.sessionUserId.value;
      var apps := st.applications;
      && r.status in {404, 403, 400, 200}
      && (r.status == 404 <==> !HasKey(apps, ApplicationId, appId))
      && (r.status == 403 <==>
            exists i :: 0 <= i < |apps| && apps[i].id == appId && !OwnsJob(st.jobs, uid, apps[i].jobId))
      && (r.status == 400 <==>
            (exists i :: 0 <= i < |apps| && apps[i].id == appId && OwnsJob(st.jobs, uid, apps[i].jobId)) &&
            forall s: Status :: newStatus != Some(StatusName(s)))
      && (r.status != 200 ==> r.store == st)
  {
    var uid := st.sessionUserId.value;
    match IndexOfKey(st.applications, ApplicationId, appId)
    case None =>
    case Some(i) =>
      forall k | 0 <= k < |st.applications| && st.applications[k].id == appId ensures k == i {
        IndexOfUniqueKey(st.applications, ApplicationId, k);
      }
      var jobId := st.applications[i].jobId;
      var j := IndexOfKey(st.jobs, JobId, jobId).value;
      forall k | 0 <= k < |st.jobs| && st.jobs[k].id == jobId ensures k == j {
        IndexOfUniqueKey(st.jobs, JobId, k);
      }
      if newStatus.Some? && ParseStatus(newStatus.value).Some? {
        assert newStatus == Some(StatusName(ParseStatus(newStatus.value).value));
      }
  }

  /**
   * The owner of an application's job may set any of the four statuses, `pending`
   * included, from whatever status it has; only that application's status changes.
   */
  lemma SetAnyStatus(st: Store, appId: nat, s: Status)
    requires Valid(st) && st.sessionUserId.Some? && StatusUpdateDefined(st, appId)
    requires exists i :: 0 <= i < |st.applications| && st.applications[i].id == appId &&
                         OwnsJob(st.jobs, st.sessionUserId.value, st.applications[i].jobId)
    ensures var r := UpdateApplicationStatus(st, appId, Some(StatusName(s))); var apps := st.applications;
      && r.status == 200
      && r.store.(applications := apps) == st
      && |r.store.applications| == |apps|
      && forall k :: 0 <= k < |apps| ==>
           r.store.applications[k] == if apps[k].id == appId then apps[k].(status := s) else apps[k]
  {
    UpdateStatusGuards(st, appId, Some(StatusName(s)));
    ParseStatusName(s);
    var i := IndexOfKey(st.applications, ApplicationId, appId).value;
    forall k | 0 <= k < |st.applications| && st.applications[k].id == appId ensures k == i {
      IndexOfUniqueKey(st.applications, ApplicationId, k);
    }
  }

  /**
   * Withdrawal answers 404 for an unknown application, then 403 to anyone but its
   * applicant; the applicant's withdrawal removes exactly that application, whatever
   * its status.
   */
  lemma WithdrawOutcome(st: Store, appId: nat)
    requires Valid(st) && st.sessionUserId.Some?
    ensures var r := WithdrawApplication(st, appId); var uid := st.sessionUserId.value;
      var apps := st.applications;
      && r.status in {404, 403, 200}
      && (r.status == 404 <==> !HasKey(apps, ApplicationId, appId))
      && (r.status == 403 <==> exists i :: 0 <= i < |apps| && apps[i].id == appId && apps[i].userId != uid)
      && (r.status != 200 ==> r.store == st)
      && (r.status == 200 ==>
            && r.store.(applications := apps) == st
            && |r.store.applications| == |apps| - 1
            && (forall k :: 0 <= k < |r.store.applications| ==> r.store.applications[k].id != appId)
            && (forall k :: 0 <= k < |apps| && apps[k].id != appId ==> apps[k] in r.store.applications)
            && (forall a :: a in r.store.applications ==> a in apps))
  {
    var r := WithdrawApplication(st, appId);
    match IndexOfKey(st.applications, ApplicationId, appId)
    case None =>
    case Some(i) =>
      forall k | 0 <= k < |st.applications| && st.applications[k].id == appId ensures k == i {
        IndexOfUniqueKey(st.applications, ApplicationId, k);
      }
      if r.status == 200 {
        var rest := r.store.applications;
        forall k | 0 <= k < |rest| ensures rest[k].id != appId && rest[k] in st.applications {
          var k' := if k < i then k else k + 1;
          assert rest[k] == st.applications[k'];
        }
        forall k | 0 <= k < |st.applications| && st.applications[k].id != appId
          ensures st.applications[k] in rest
        {
          if k < i { assert rest[k] == st.applications[k]; }
          else { assert rest[k - 1] == st.applications[k]; }
        }
      }
  }

  /** Once withdrawn, an application is gone: updating or withdrawing it again answers 404. */
  lemma WithdrawnApplicationIsGone(st: Store, appId: nat, newStatus: Option<string>)
    requires Valid(st) && st.sessionUserId.Some? && WithdrawApplication(st, appId).status == 200
    ensures var s := WithdrawApplication(st, appId).store;
      && StatusUpdateDefined(s, appId)
      && UpdateApplicationStatus(s, appId, newStatus) == Response(404, s)
      && WithdrawApplication(s, appId) == Response(404, s)
  {
    WithdrawOutcome(st, appId);
  }

  // ---------------------------------------------------------------- saved jobs

  /** Saving an already saved job answers 400; otherwise exactly one entry for the pair is added. */
  lemma SaveOutcome(st: Store, jobId: nat)
    requires Valid(st) && st.sessionUserId.Some?
    ensures var r := SaveJob(st, jobId); var uid := st.sessionUserId.value;
      && (r.status == 400 <==> exists i :: 0 <= i < |st.saved| && st.saved[i].userId == uid && st.saved[i].jobId == jobId)
      && (r.status == 400 ==> r.store == st)
      && (r.status != 400 ==>
            && r.status == 201
            && |r.store.saved| == |st.saved| + 1
            && r.store.saved[..|st.saved|] == st.saved
            && r.store.saved[|st.saved|].userId == uid
            && r.store.saved[|st.saved|].jobId == jobId
            && !HasKey(st.saved, SavedId, r.store.saved[|st.saved|].id)
            && r.store.(saved := st.saved, nextSavedId := st.nextSavedId) == st)
  {
    var uid := st.sessionUserId.value;
    FreshId(st.saved, SavedId, st.nextSavedId);
    var r := SaveJob(st, jobId);
    if r.status == 201 {
      assert r.store.saved[..|st.saved|] == st.saved;
    } else {
      var k :| 0 <= k < |st.saved| && SavedPair(st.saved[k]) == (uid, jobId);
    }
  }

  /** Unsaving a job that is not saved answers 404; otherwise exactly that entry is removed. */
  lemma UnsaveOutcome(st: Store, jobId: nat)
    requires Valid(st) && st.sessionUserId.Some?
    ensures var r := UnsaveJob(st, jobId); var uid := st.sessionUserId.value;
      && (r.status == 404 <==> !exists i :: 0 <= i < |st.saved| && st.saved[i].userId == uid && st.saved[i].jobId == jobId)
      && (r.status == 404 ==> r.store == st)
      && (r.status != 404 ==>
            && r.status == 200
            && r.store.(saved := st.saved) == st
            && |r.store.saved| == |st.saved| - 1
            && (forall k :: 0 <= k < |r.store.saved| ==> SavedPair(r.store.saved[k]) != (uid, jobId))
            && (forall k :: 0 <= k < |st.saved| && SavedPair(st.saved[k]) != (uid, jobId) ==> st.saved[k] in r.store.saved))
  {
    var uid := st.sessionUserId.value;
    var r := UnsaveJob(st, jobId);
    match IndexOfKey(st.saved, SavedPair, (uid, jobId))
    case None =>
    case Some(i) =>
      assert SavedPair(st.saved[i]) == (uid, jobId);
      var rest := r.store.saved;
      forall k | 0 <= k < |rest| ensures SavedPair(rest[k]) != (uid, jobId) {
        var k' := if k < i then k else k + 1;
        assert rest[k] == st.saved[k'];
      }
      forall k | 0 <= k < |st.saved| && SavedPair(st.saved[k]) != (uid, jobId) ensures st.saved[k] in rest {
        if k < i { assert rest[k] == st.saved[k]; }
        else { assert rest[k - 1] == st.saved[k]; }
      }
  }

  /** Unsaving undoes a save: the saved table is as before (only the id counter moved on). */
  lemma UnsaveUndoesSave(st: Store, jobId: nat)
    requires Valid(st) && SaveJob(st, jobId).status == 201
    ensures UnsaveJob(SaveJob(st, jobId).store, jobId) ==
              Response(200, st.(nextSavedId := st.nextSavedId + 1))
  {
    var s := SaveJob(st, jobId).store;
    var uid := st.sessionUserId.value;
    assert SavedPair(s.saved[|st.saved|]) == (uid, jobId);
    assert IndexOfKey(s.saved, SavedPair, (uid, jobId)) == Some(|st.saved|);
    assert RemoveAt(s.saved, |st.saved|) == st.saved;
  }

  /** Save, unsave, save on a pair not yet saved all succeed and leave exactly one entry for the pair. */
  lemma SaveUnsaveSave(st: Store, jobId: nat)
    requires Valid(st) && st.sessionUserId.Some?
    requires !HasKey(st.saved, SavedPair, (st.sessionUserId.value, jobId))
    ensures Valid(SaveJob(st, jobId).store)
    ensures Valid(UnsaveJob(SaveJob(st, jobId).store, jobId).store)
    ensures var r1 := SaveJob(st, jobId);
      var r2 := UnsaveJob(r1.store, jobId);
      var r3 := SaveJob(r2.store, jobId);
      && r1.status == 201 && r2.status == 200 && r3.status == 201
      && Valid(r3.store)
      && HasKey(r3.store.saved, SavedPair, (st.sessionUserId.value, jobId))
  {
    var uid := st.sessionUserId.value;
    SavePreservesValid(st, jobId);
    UnsaveUndoesSave(st, jobId);
    var s2 := UnsaveJob(SaveJob(st, jobId).store, jobId).store;
    UnsavePreservesValid(SaveJob(st, jobId).store, jobId);
    SavePreservesValid(s2, jobId);
    var s3 := SaveJob(s2, jobId).store;
    assert SavedPair(s3.saved[|s2.saved|]) == (uid, jobId);
  }

  /** The saved-jobs list shows one entry for each job the user saved, with its title, location and category. */
  lemma GetSavedJobsOutcome(st: Store)
    requires OwnSavedHaveJobs(st) && st.sessionUserId.Some?
    ensures var r := GetSavedJobs(st); var uid := st.sessionUserId.value;
      && r.status == 200
      && (forall v :: v in r.body ==>
            exists i :: 0 <= i < |st.saved| && st.saved[i].userId == uid && ShowsJob(st.jobs, st.saved[i].jobId, v))
      && (forall i :: 0 <= i < |st.saved| && st.saved[i].userId == uid ==>
            exists v :: v in r.body && ShowsJob(st.jobs, st.saved[i].jobId, v))
      && |r.body| == |set i: nat | i < |st.saved| && st.saved[i].userId == uid|
  {
    var uid := st.sessionUserId.value;
    var entries := SavedBy(st, uid);
    assert forall k :: 0 <= k < |entries| ==> entries[k] in st.saved && entries[k].userId == uid;
    var body := GetSavedJobs(st).body;
    assert body == SavedViews(st, entries);
    SavedViewsShowJobs(st, entries);
    ListedSavedAreOwn(st, uid, entries, body);
    OwnSavedAreListed(st, uid, entries, body);
    SavedByLength(st, uid);
  }

  /** Every view in the list shows a job the user saved. */
  lemma ListedSavedAreOwn(st: Store, uid: nat, entries: seq<SavedJob>, body: seq<SavedView>)
    requires forall k :: 0 <= k < |entries| ==> entries[k] in st.saved && entries[k].userId == uid
    requires |body| == |entries| && forall k :: 0 <= k < |body| ==> ShowsJob(st.jobs, entries[k].jobId, body[k])
    ensures forall v :: v in body ==>
              exists i :: 0 <= i < |st.saved| && st.saved[i].userId == uid && ShowsJob(st.jobs, st.saved[i].jobId, v)
  {
    forall v | v in body
      ensures exists i :: 0 <= i < |st.saved| && st.saved[i].userId == uid && ShowsJob(st.jobs, st.saved[i].jobId, v)
    {
      var k :| 0 <= k < |body| && body[k] == v;
      var i :| 0 <= i < |st.saved| && st.saved[i] == entries[k];
    }
  }

  /** Every job the user saved is shown in the list. */
  lemma OwnSavedAreListed(st: Store, uid: nat, entries: seq<SavedJob>, body: seq<SavedView>)
    requires entries == SavedBy(st, uid)
    requires |body| == |entries| && forall k :: 0 <= k < |body| ==> ShowsJob(st.jobs, entries[k].jobId, body[k])
    ensures forall i :: 0 <= i < |st.saved| && st.saved[i].userId == uid ==>
              exists v :: v in body && ShowsJob(st.jobs, st.saved[i].jobId, v)
  {
    forall i | 0 <= i < |st.saved| && st.saved[i].userId == uid
      ensures exists v :: v in body && ShowsJob(st.jobs, st.saved[i].jobId, v)
    {
      var k :| 0 <= k < |entries| && entries[k] == st.saved[i];
      assert body[k] in body;
    }
  }

  /** Each saved view shows its entry's job. */
  lemma SavedViewsShowJobs(st: Store, entries: seq<SavedJob>)
    requires forall k :: 0 <= k < |entries| ==> HasKey(st.jobs, JobId, entries[k].jobId)
    ensures forall k :: 0 <= k < |entries| ==> ShowsJob(st.jobs, entries[k].jobId, SavedViews(st, entries)[k])
  {
    forall k | 0 <= k < |entries| ensures ShowsJob(st.jobs, entries[k].jobId, SavedViews(st, entries)[k]) {
      var j := JobById(st.jobs, entries[k].jobId);
      assert j in st.jobs && j.id == entries[k].jobId;
    }
  }

  /** A user's saved entries are as many as the table's rows with that user. */
  lemma SavedByLength(st: Store, uid: nat)
    ensures |SavedBy(st, uid)| == |set i: nat | i < |st.saved| && st.saved[i].userId == uid|
  {
    var p := (s: SavedJob) => s.userId == uid;
    assert SavedBy(st, uid) == Filter(st.saved, p);
    FilterLength(st.saved, p);
    assert Matching(st.saved, p) == set i: nat | i < |st.saved| && st.saved[i].userId == uid;
  }
}
