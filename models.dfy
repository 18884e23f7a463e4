/**
 * The four tables of the job board: users, jobs, applications and saved jobs.
 *
 * The ORM classes and the route handlers name some columns differently. This model
 * uses one name for each throughout:
 *   - a user's display name is `username` (the routes pass it as `name`);
 *   - a job's owner is `employerId` (the routes' `employer_id`, the class's `user_id`);
 *   - a job's visibility is `isActive` (the routes' `is_active`; the class's column is
 *     `is_expired`, its negation, defaulting to False, so a new job is active).
 */
module Models {
  import opened Optional

  /** The two roles a user signs up with; the role never changes afterwards. */
  datatype Role = Employer | Jobseeker

  /** The four values an application's status column holds. */
  datatype Status = Pending | Accepted | Rejected | Interview

  /** The status a new application receives when none is given (the column default). */
  const DefaultStatus: Status := Pending

  /** The spelling of a status in requests and responses. */
  function StatusName(s: Status): string {
    match s
    case Pending => "pending"
    case Accepted => "accepted"
    case Rejected => "rejected"
    case Interview => "interview"
  }

  /** The check `new_status in ['pending', 'accepted', 'rejected', 'interview']`, as a parse. */
  function ParseStatus(name: string): (r: Option<Status>)
    ensures r.Some? ==> StatusName(r.value) == name
    ensures r.None? <==> forall s: Status :: StatusName(s) != name
  {
    if name == "pending" then Some(Pending)
    else if name == "accepted" then Some(Accepted)
    else if name == "rejected" then Some(Rejected)
    else if name == "interview" then Some(Interview)
    else None
  }

  /** Every status is accepted by the parse, as itself. */
  lemma ParseStatusName(s: Status)
    ensures ParseStatus(StatusName(s)) == Some(s)
  {
  }

  /** An account. The password column holds a hash produced outside this model. */
  datatype User = User(id: nat, username: string, email: string, passwordHash: string, role: Role)

  /**
   * A posting. Title, description, location and owner are required columns; salary,
   * job type, category and experience are nullable.
   */
  datatype Job = Job(
    id: nat,
    title: string,
    description: string,
    location: string,
    salary: Option<string>,
    jobType: Option<string>,
    category: Option<string>,
    experienceRequired: Option<string>,
    employerId: nat,
    isActive: bool)

  /** A jobseeker's application to a job; both references are required columns. */
  datatype Application = Application(id: nat, status: Status, userId: nat, jobId: nat)

  /** A bookmark of a job by a user; both references are required columns. */
  datatype SavedJob = SavedJob(id: nat, userId: nat, jobId: nat)

  // Keys under which rows are looked up and kept unique.

  function UserId(u: User): nat { u.id }
  function Username(u: User): string { u.username }
  function Email(u: User): string { u.email }
  function JobId(j: Job): nat { j.id }
  predicate IsActive(j: Job) { j.isActive }
  function ApplicationId(a: Application): nat { a.id }
  /** The (user, job) pair an application is for. */
  function ApplicationPair(a: Application): (nat, nat) { (a.userId, a.jobId) }
  function SavedId(s: SavedJob): nat { s.id }
  /** The (user, job) pair a saved entry is for. */
  function SavedPair(s: SavedJob): (nat, nat) { (s.userId, s.jobId) }
}
