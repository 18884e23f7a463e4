# Job board: access control and application lifecycle

This project models the back end of a job board where employers post jobs and jobseekers apply to them and bookmark them. It covers the Flask route handlers in `server/routes.py` and the four tables declared in `server/models.py`: users, jobs, applications and saved jobs.

Structure:

- `option.dfy`, module `Optional`: the `Option` type, used for nullable columns, optional JSON fields and lookups that can miss.
- `seqs.dfy`, module `Seqs`: tables as sequences of rows. `IndexOfKey` is a query's `.first()` or `.get(id)`. `Filter` is a query's `.all()`. `RemoveAt` is `db.session.delete`. `Unique` states a unique column.
- `models.dfy`, module `Models`: the four entities as datatypes. The role has two values and the status has four. Nullable columns are `Option`s.
- `handlers.dfy`, module `Handlers`: a `Store` value holds the four tables, the next id of each table and the session's `user_id` and `role` entries. Each route handler is a function from a store to the HTTP status it sends and the store it commits. Read-only handlers return the status and the JSON body instead. `Valid` is the store invariant.
- `invariants.dfy`, module `Invariants`: every writing handler preserves `Valid`.
- `properties.dfy`, module `HandlerProperties`: what the handlers promise, stated independently of their bodies. This covers the order of the 401/404/403/400 guards, what each success writes, that nothing else changes, and what sequences of requests do.
- `routes.dfy`, module `Routes`: class `Server`, whose fields are the tables, the id counters and the session. Each route handler is a method that updates the fields step by step. Each method is proved to produce exactly the status and new state of the matching `Handlers` function. The two list handlers that loop in the source keep their loops.

Names. The route file and the model file disagree on three column names. This model uses one name for each:

- Job owner: `employerId`. The routes say `employer_id`; the ORM class says `user_id`.
- Job visibility: `isActive`. The routes say `is_active`; the ORM class has `is_expired`, its negation, which defaults to False, so a new job is active.
- User name: `username`. The routes pass `name`.

As written, the two files do not name the same columns. The model assumes one consistent schema.

Behaviour of the code that the model keeps as written:

- Setting an application to `pending` is accepted from any status.
- Deleting a job only clears its active flag.
- Editing a job overwrites all seven fields. An optional field missing from the request becomes None.
- Neither apply nor save checks that the job exists or is active.
- Job titles, descriptions and locations may be empty.
- Signup never validates the role.
- A duplicate signup answers 400.
- The ORM's cascade, which deletes a job's applications and saved entries with the job, is modelled as `Handlers.HardDeleteJob`. It starts from an existing job row, so it requires the job to be in the table. No route calls it.

## Model

| member | source | states |
|---|---|---|
| Seqs.IndexOfKey | server/routes.py:40 | a lookup returns the first row with the key, or None exactly when no row has it |
| Seqs.Filter | server/routes.py:77 | a filtered query returns only rows of the table satisfying the condition, every such row, and no more rows than the table |
| Seqs.FilterCounts | server/routes.py:77 | a filtered query holds each satisfying row exactly as often as the table does, and no other row |
| Seqs.FilterLength | server/routes.py:77 | a filtered query has one row for each index of the table whose row satisfies the condition |
| Seqs.RemoveAt | server/routes.py:229 | deleting a row shortens the table by one and keeps every other row in order |
| Models.ParseStatus | server/routes.py:210-212 | a status string is accepted exactly when it names one of the four statuses, and is then read as that status |
| Handlers.SessionUser | server/routes.py:97-100 | the logged-in user exists exactly when the session has a user id; it has that id and the session's role |
| Invariants.SignupPreservesValid | server/routes.py:16-31 | signup keeps ids unique and usernames and emails unique |
| Invariants.LoginPreservesValid | server/routes.py:34-49 | login keeps the session naming a real user with that user's role |
| Invariants.LogoutPreservesValid | server/routes.py:54-56 | logout keeps the invariant |
| Invariants.PostJobPreservesValid | server/routes.py:96-117 | posting keeps job ids unique and every job owned by an employer |
| Invariants.EditJobPreservesValid | server/routes.py:121-138 | editing keeps the invariant |
| Invariants.DeleteJobPreservesValid | server/routes.py:142-151 | soft deletion keeps the invariant |
| Invariants.ApplyPreservesValid | server/routes.py:157-170 | applying keeps at most one application per (user, job) pair, each by a jobseeker |
| Invariants.UpdateStatusPreservesValid | server/routes.py:200-216 | a status update keeps the invariant |
| Invariants.WithdrawPreservesValid | server/routes.py:220-231 | withdrawal keeps the invariant |
| Invariants.SavePreservesValid | server/routes.py:237-246 | saving keeps at most one saved entry per (user, job) pair |
| Invariants.UnsavePreservesValid | server/routes.py:250-259 | unsaving keeps the invariant |
| Invariants.HardDeletePreservesValid | server/models.py:41-42 | the cascading hard delete of an existing job keeps the invariant |
| HandlerProperties.UnauthenticatedRejected | server/routes.py:97-99 | with no user id in the session, every handler that reads it answers 401 and writes nothing |
| HandlerProperties.SignupOutcome | server/routes.py:16-31 | a taken username or email gives 400 and no change; otherwise exactly one user with the given fields and a fresh id is appended |
| HandlerProperties.SignupTwiceRefused | server/routes.py:29-31 | a second signup with an email that just signed up gives 400 |
| HandlerProperties.LoginFailuresIndistinguishable | server/routes.py:40-45 | an unknown email and a wrong password both give the same 401 with no change |
| HandlerProperties.LoginSucceeds | server/routes.py:44-49 | the right password sets the session's user id and role to that user's and changes nothing else |
| HandlerProperties.LoginNeedsBothFields | server/routes.py:37-38 | a request without email or password gives 400 |
| HandlerProperties.LogoutEndsSession | server/routes.py:54-56 | logout clears the user id, keeps the tables, and all eleven handlers that read the user id then answer 401 and write nothing |
| HandlerProperties.CurrentUserOutcome | server/routes.py:60-70 | a logged-in user is shown their own id, name, email and role |
| HandlerProperties.GetAllJobsListsActive | server/routes.py:76-92 | the public job list shows exactly the active jobs, one entry for each active row |
| HandlerProperties.PostJobOutcome | server/routes.py:96-117 | a non-employer gets 403 and no change; an employer adds exactly one active job they own, with the payload's fields and a fresh id, and nothing else changes |
| HandlerProperties.EditJobOutcome | server/routes.py:121-138 | 404 exactly for an unknown job, then 403 exactly for a non-owner, with no change; an owner's edit overwrites that job's seven fields and nothing else |
| HandlerProperties.DeleteJobOutcome | server/routes.py:142-151 | the same guards as edit; an owner's delete only clears that job's active flag, and its applications and saved entries remain |
| HandlerProperties.DeletedJobNotListed | server/routes.py:77 | after a delete, the job is not in the public list |
| HandlerProperties.HardDeleteCascades | server/models.py:41-42 | deleting an existing job leaves no job, application or saved entry with that job id, keeps every other row, adds no row, and changes nothing outside the three tables |
| HandlerProperties.ApplyOutcome | server/routes.py:157-170 | a non-jobseeker gets 403; an existing application for the pair gives 400; both write nothing; otherwise one pending application by the caller for the job is appended |
| HandlerProperties.ApplyTwice | server/routes.py:164-166 | applying to the same job twice gives 400 the second time and leaves the application in place |
| HandlerProperties.VisibleApplicationsScope | server/routes.py:180-183 | a jobseeker is shown exactly their own applications; anyone else is shown exactly the applications to jobs they own; the list has one entry per such row |
| HandlerProperties.GetApplicationsOutcome | server/routes.py:185-196 | the list has one entry per visible application, with its id, job id, status, applicant id, the title of its job and the applicant's name |
| HandlerProperties.UpdateStatusGuards | server/routes.py:200-216 | 404 exactly for an unknown application; then 403 exactly when the caller does not own its job, whatever status is sent; then 400 exactly for an unknown status; no change in each case |
| HandlerProperties.SetAnyStatus | server/routes.py:210-214 | the job's owner may set any of the four statuses, pending included, from any status; only that application's status changes |
| HandlerProperties.WithdrawOutcome | server/routes.py:220-231 | 404 exactly for an unknown application, then 403 exactly for anyone but its applicant; the applicant's withdrawal removes exactly that application, whatever its status |
| HandlerProperties.WithdrawnApplicationIsGone | server/routes.py:225-229 | after a withdrawal, updating or withdrawing that application gives 404 |
| HandlerProperties.SaveOutcome | server/routes.py:237-246 | an already saved pair gives 400 and no change; otherwise exactly one entry for the caller and the job is appended |
| HandlerProperties.UnsaveOutcome | server/routes.py:250-259 | an unsaved pair gives 404 and no change; otherwise exactly that pair's entry is removed |
| HandlerProperties.UnsaveUndoesSave | server/routes.py:241-259 | unsave after save restores the saved table |
| HandlerProperties.SaveUnsaveSave | server/routes.py:241-257 | save, unsave, save on a new pair answer 201, 200, 201 and leave exactly one entry for the pair |
| HandlerProperties.GetSavedJobsOutcome | server/routes.py:263-274 | the saved list has one entry for each of the caller's saved rows, and only those, each showing the saved job's id, title, location and category |
| Routes.Server.constructor | server/models.py:10-55 | a new server has empty tables, ids starting at 1 and nobody logged in |
| Routes.Server.Signup | server/routes.py:16-31 | the status and new state are those of `Handlers.Signup`, and the invariant holds |
| Routes.Server.Login | server/routes.py:34-49 | the status and new session are those of `Handlers.Login` |
| Routes.Server.Logout | server/routes.py:54-56 | the user id is removed from the session, as in `Handlers.Logout` |
| Routes.Server.GetCurrentUser | server/routes.py:60-70 | returns the status and profile of `Handlers.GetCurrentUser` |
| Routes.Server.GetAllJobs | server/routes.py:76-92 | the loop serialises exactly the active jobs, in table order |
| Routes.Server.PostJob | server/routes.py:96-117 | the status and new state are those of `Handlers.PostJob` |
| Routes.Server.EditJob | server/routes.py:121-138 | the field-by-field edit gives the status and state of `Handlers.EditJob` |
| Routes.Server.DeleteJob | server/routes.py:142-151 | the status and new state are those of `Handlers.DeleteJob` |
| Routes.Server.ApplyToJob | server/routes.py:157-170 | the status and new state are those of `Handlers.ApplyToJob` |
| Routes.Server.GetApplications | server/routes.py:174-196 | returns the status and list of `Handlers.GetApplications` |
| Routes.SerialiseApplications | server/routes.py:185-195 | the loop produces one view per application, in order, with its job's title and its applicant's name |
| Routes.Server.UpdateApplicationStatus | server/routes.py:200-216 | the status and new state are those of `Handlers.UpdateApplicationStatus` |
| Routes.Server.WithdrawApplication | server/routes.py:220-231 | the status and new state are those of `Handlers.WithdrawApplication` |
| Routes.Server.SaveJob | server/routes.py:237-246 | the status and new state are those of `Handlers.SaveJob` |
| Routes.Server.UnsaveJob | server/routes.py:250-259 | the status and new state are those of `Handlers.UnsaveJob` |
| Routes.Server.GetSavedJobs | server/routes.py:263-274 | returns the status and list of `Handlers.GetSavedJobs` |

## Left out

- HTTP, JSON and Flask plumbing are not modelled: routing, CORS, cookies and JSON parsing and serialisation. Request bodies arrive as typed parameters. Handlers return the status code and, for reads, the listed data.
- `server/app.py` (configuration and bootstrap) and `server/seed.py` (a fixture script) are not part of this model.
- Password hashing is a foreign library call. Signup takes the finished hash as a parameter. Login takes the hash check as a function parameter, `passwordMatches(hash, password)`.
- A required JSON key missing from signup, post or edit aborts the request with a server error. This is not modelled: the payload types always carry the required fields.
- Roles are not checked at signup. The source stores any role string; the model allows only employer and jobseeker.
- String length limits on the columns are not modelled.
- `created_at` and `applied_at` are not modelled. The list handlers serialise them, but the table classes do not define them.
- Dangling job references can crash three handlers. Apply and save do not check the job, so an application or saved entry can name a job that does not exist. Listing such an application, updating its status, or listing such a saved entry then dereferences a missing job. These three crash paths are excluded by the preconditions `Handlers.StatusUpdateDefined`, `Handlers.OwnApplicationsHaveJobs` and `Handlers.OwnSavedHaveJobs`. The user lookups cannot crash, because `Valid` keeps the session's user in the table.
- Ids come from per-table counters that start at 1 and only grow. SQLite reuses the largest id after that row is deleted. That reuse is not modelled.
- The model has one client session. Several clients with separate cookies are not modelled.
- Concurrent requests are not modelled. Apply and save check and then insert without a lock, so the pair uniqueness holds only for requests handled one at a time.
- The source's queries have no ORDER BY. The model lists rows in table order.
- Routes.Server.Login: returns only the status. The JSON body's role and email are not modelled.
