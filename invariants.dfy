/**
 * Every handler keeps the store invariant `Valid`: unique ids and unique account keys,
 * role-consistent ownership, at most one application and one saved entry per
 * (user, job) pair, and a session that names a real user.
 */
module Invariants {
  import opened Optional
  import opened Seqs
  import opened Models
  import opened Handlers

  lemma EmptyValid()
    ensures Valid(Empty)
  {
  }

  /** An id at or above the next one to hand out is not in the table. */
  lemma FreshId<T>(s: seq<T>, id: T -> nat, next: nat)
    requires IdsAssigned(s, id, next)
    ensures !HasKey(s, id, next)
  {
  }

  /** Appending a user keeps every role and user fact about the existing ids. */
  lemma UsersGrow(users: seq<User>, u: User)
    ensures forall id, role :: HasRole(users, id, role) ==> HasRole(users + [u], id, role)
    ensures forall id :: HasKey(users, UserId, id) ==> HasKey(users + [u], UserId, id)
  {
    forall id, role | HasRole(users, id, role) ensures HasRole(users + [u], id, role) {
      var i :| 0 <= i < |users| && users[i].id == id && users[i].role == role;
      assert (users + [u])[i] == users[i];
    }
    forall id | HasKey(users, UserId, id) ensures HasKey(users + [u], UserId, id) {
      var i :| 0 <= i < |users| && UserId(users[i]) == id;
      assert (users + [u])[i] == users[i];
    }
  }

  lemma SignupPreservesValid(st: Store, username: string, email: string, passwordHash: string, role: Role)
    requires Valid(st)
    ensures Valid(Signup(st, username, email, passwordHash, role).store)
  {
    var r := Signup(st, username, email, passwordHash, role);
    if r.status == 201 {
      var u := User(st.nextUserId, username, email, passwordHash, role);
      var users := st.users + [u];
      FreshId(st.users, UserId, st.nextUserId);
      UniqueAppend(st.users, UserId, u);
      UniqueAppend(st.users, Username, u);
      UniqueAppend(st.users, Email, u);
      UsersGrow(st.users, u);
      if st.sessionUserId.Some? {
        var i :| 0 <= i < |st.users| && st.users[i].id == st.sessionUserId.value &&
                 st.sessionRole == Some(st.users[i].role);
        assert users[i] == st.users[i];
      }
    }
  }

  lemma LoginPreservesValid(st: Store, email: Option<string>, password: Option<string>,
                            passwordMatches: (string, string) -> bool)
    requires Valid(st)
    ensures Valid(Login(st, email, password, passwordMatches).store)
  {
  }

  lemma LogoutPreservesValid(st: Store)
    requires Valid(st)
    ensures Valid(Logout(st).store)
  {
  }

  lemma PostJobPreservesValid(st: Store, p: JobPayload)
    requires Valid(st)
    ensures Valid(PostJob(st, p).store)
  {
    var r := PostJob(st, p);
    if r.status == 201 {
      var u := SessionUser(st).value;
      var job := NewJob(st.nextJobId, p, u.id);
      FreshId(st.jobs, JobId, st.nextJobId);
      UniqueAppend(st.jobs, JobId, job);
      var i :| 0 <= i < |st.users| && st.users[i] == u;
      assert HasRole(st.users, job.employerId, Employer);
    }
  }

  lemma EditJobPreservesValid(st: Store, jobId: nat, p: JobPayload)
    requires Valid(st)
    ensures Valid(EditJob(st, jobId, p).store)
  {
    var r := EditJob(st, jobId, p);
    if r.status == 200 {
      var i := IndexOfKey(st.jobs, JobId, jobId).value;
      UniqueUpdate(st.jobs, JobId, i, Edited(st.jobs[i], p));
    }
  }

  lemma DeleteJobPreservesValid(st: Store, jobId: nat)
    requires Valid(st)
    ensures Valid(DeleteJob(st, jobId).store)
  {
    var r := DeleteJob(st, jobId);
    if r.status == 200 {
      var i := IndexOfKey(st.jobs, JobId, jobId).value;
      UniqueUpdate(st.jobs, JobId, i, st.jobs[i].(isActive := false));
    }
  }

  lemma ApplyPreservesValid(st: Store, jobId: nat)
    requires Valid(st)
    ensures Valid(ApplyToJob(st, jobId).store)
  {
    var r := ApplyToJob(st, jobId);
    if r.status == 201 {
      var u := SessionUser(st).value;
      var a := Application(st.nextApplicationId, DefaultStatus, u.id, jobId);
      FreshId(st.applications, ApplicationId, st.nextApplicationId);
      UniqueAppend(st.applications, ApplicationId, a);
      UniqueAppend(st.applications, ApplicationPair, a);
      var i :| 0 <= i < |st.users| && st.users[i] == u;
      assert HasRole(st.users, a.userId, Jobseeker);
    }
  }

  lemma UpdateStatusPreservesValid(st: Store, appId: nat, newStatus: Option<string>)
    requires Valid(st) && StatusUpdateDefined(st, appId)
    ensures Valid(UpdateApplicationStatus(st, appId, newStatus).store)
  {
    var r := UpdateApplicationStatus(st, appId, newStatus);
    if r.status == 200 {
      var i := IndexOfKey(st.applications, ApplicationId, appId).value;
      var a := st.applications[i].(status := StatusField(newStatus).value);
      UniqueUpdate(st.applications, ApplicationId, i, a);
      UniqueUpdate(st.applications, ApplicationPair, i, a);
    }
  }

  lemma WithdrawPreservesValid(st: Store, appId: nat)
    requires Valid(st)
    ensures Valid(WithdrawApplication(st, appId).store)
  {
    var r := WithdrawApplication(st, appId);
    if r.status == 200 {
      var i := IndexOfKey(st.applications, ApplicationId, appId).value;
      UniqueRemoveAt(st.applications, ApplicationId, i);
      UniqueRemoveAt(st.applications, ApplicationPair, i);
    }
  }

  lemma SavePreservesValid(st: Store, jobId: nat)
    requires Valid(st)
    ensures Valid(SaveJob(st, jobId).store)
  {
    var r := SaveJob(st, jobId);
    if r.status == 201 {
      var s := SavedJob(st.nextSavedId, st.sessionUserId.value, jobId);
      FreshId(st.saved, SavedId, st.nextSavedId);
      UniqueAppend(st.saved, SavedId, s);
      UniqueAppend(st.saved, SavedPair, s);
      var i :| 0 <= i < |st.users| && st.users[i].id == st.sessionUserId.value &&
               st.sessionRole == Some(st.users[i].role);
      assert HasKey(st.users, UserId, s.userId);
    }
  }

  lemma UnsavePreservesValid(st: Store, jobId: nat)
    requires Valid(st)
    ensures Valid(UnsaveJob(st, jobId).store)
  {
    var r := UnsaveJob(st, jobId);
    if r.status == 200 {
      var i := IndexOfKey(st.saved, SavedPair, (st.sessionUserId.value, jobId)).value;
      UniqueRemoveAt(st.saved, SavedId, i);
      UniqueRemoveAt(st.saved, SavedPair, i);
    }
  }

  lemma HardDeletePreservesValid(st: Store, jobId: nat)
    requires Valid(st) && HasKey(st.jobs, JobId, jobId)
    ensures Valid(HardDeleteJob(st, jobId))
  {
    var jp := (j: Job) => j.id != jobId;
    var ap := (a: Application) => a.jobId != jobId;
    var sp := (s: SavedJob) => s.jobId != jobId;
    UniqueFilter(st.jobs, JobId, jp);
    UniqueFilter(st.applications, ApplicationId, ap);
    UniqueFilter(st.applications, ApplicationPair, ap);
    UniqueFilter(st.saved, SavedId, sp);
    UniqueFilter(st.saved, SavedPair, sp);
    var r := HardDeleteJob(st, jobId);
    assert r.jobs == Filter(st.jobs, jp);
    assert r.applications == Filter(st.applications, ap);
    assert r.saved == Filter(st.saved, sp);
  }
}
