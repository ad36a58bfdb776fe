/**
 The job service as a state machine over sequences of calls, each of which the store may refuse. The
 history records what each successful call stored; the event log is what was dispatched.
 */
module JobModel {
  import opened Wrappers
  import opened CustomForm
  import opened Job
  import Slug

  datatype Kind = JobPublished | JobArchived

  datatype Event = Event(kind: Kind, job: Job)

  /** One successful write: what was stored before, if anything, and after. */
  datatype Change = Change(before: Option<Job>, after: Job, at: int)

  datatype Board = Board(jobs: map<string, Job>, usedIds: set<string>, events: seq<Event>, history: seq<Change>)

  const INITIAL := Board(map[], {}, [], [])

  datatype Error = NotFound | Invalid(details: seq<JobDetail>) | StoreFailed

  /** Absent fields keep their value. */
  datatype UpdateInput = UpdateInput(
    slug: Option<string>,
    title: Option<string>,
    department: Option<string>,
    location: Option<string>,
    employmentType: Option<EmploymentType>,
    experience: Option<string>,
    salaryMin: Option<real>,
    salaryMax: Option<real>,
    currency: Option<string>,
    description: Option<string>,
    customFields: Option<seq<Field>>,
    status: Option<Status>)

  // ---------- CreateJob ----------

  function OrElse(s: string, default_: string): string {
    if s == "" then default_ else s
  }

  /** The posting CreateJob validates: slug, type and currency get their defaults. */
  function CheckedPosting(lib: Library, p: Posting): Posting {
    p.(slug := OrElse(lib.Trimmed(p.slug), Slug.Generated(lib.u, p.title)),
       employmentType := if p.employmentType == NoType then FullTime else p.employmentType,
       currency := OrElse(lib.Trimmed(p.currency), "USD"))
  }

  /** The posting it stores: the required texts are trimmed. */
  function StoredPosting(lib: Library, p: Posting): Posting {
    CheckedPosting(lib, p).(
      title := lib.Trimmed(p.title), department := lib.Trimmed(p.department),
      location := lib.Trimmed(p.location), description := lib.Trimmed(p.description))
  }

  function CreatedStatus(status: Status): Status {
    if status == NoStatus then Draft else status
  }

  function CreatedJob(lib: Library, p: Posting, status: Status, id: string, now: int): Job {
    var st := CreatedStatus(status);
    Job(id, StoredPosting(lib, p), st, if st == Published then Some(now) else None)
  }

  // ---------- UpdateJob ----------

  function Keep<T>(change: Option<T>, old_: T): T {
    if change.Some? then change.value else old_
  }

  function KeepTrimmed(lib: Library, change: Option<string>, old_: string): string {
    if change.Some? then lib.Trimmed(change.value) else old_
  }

  function KeepSome<T>(change: Option<T>, old_: Option<T>): Option<T> {
    if change.Some? then change else old_
  }

  function UpdatedPosting(lib: Library, p: Posting, input: UpdateInput): Posting {
    Posting(
      KeepTrimmed(lib, input.slug, p.slug),
      KeepTrimmed(lib, input.title, p.title),
      KeepTrimmed(lib, input.department, p.department),
      KeepTrimmed(lib, input.location, p.location),
      Keep(input.employmentType, p.employmentType),
      KeepSome(input.experience, p.experience),
      KeepSome(input.salaryMin, p.salaryMin),
      KeepSome(input.salaryMax, p.salaryMax),
      KeepTrimmed(lib, input.currency, p.currency),
      KeepTrimmed(lib, input.description, p.description),
      Keep(input.customFields, p.customFields))
  }

  function UpdatedJob(lib: Library, job: Job, input: UpdateInput, now: int): Job {
    Job(job.id, UpdatedPosting(lib, job.posting, input), Keep(input.status, job.status),
        if input.status == Some(Published) && job.publishedAt.None? then Some(now) else job.publishedAt)
  }

  // ---------- Events ----------

  /** The event a change calls for. A job created as archived calls for none. */
  function EventsOf(c: Change): seq<Event> {
    var was := if c.before.Some? then c.before.value.status else NoStatus;
    if was != Published && c.after.status == Published then [Event(JobPublished, c.after)]
    else if c.before.Some? && was != Archived && c.after.status == Archived then [Event(JobArchived, c.after)]
    else []
  }

  function Record(b: Board, c: Change): Board {
    Board(b.jobs[c.after.id := c.after], b.usedIds + {c.after.id}, b.events + EventsOf(c), b.history + [c])
  }

  // ---------- Calls ----------

  datatype Call =
    | Create(posting: Posting, status: Status, newId: string, at: int, stored: bool)
    | Update(id: string, input: UpdateInput, at: int, found: bool, stored: bool)
    | Delete(id: string, stored: bool)

  /** Ids are made by NewID and never come back. */
  predicate Enabled(b: Board, c: Call) {
    c.Create? ==> c.newId !in b.usedIds
  }

  /** The change a call stores, or why it stores none. */
  function Outcome(lib: Library, b: Board, c: Call): Result<Change, Error>
    requires !c.Delete?
  {
    match c
    case Create(p, status, newId, at, stored) =>
      var details := JobDetails(lib, CheckedPosting(lib, p), CreatedStatus(status));
      if details != [] then Err(Invalid(details))
      else if !stored then Err(StoreFailed)
      else Ok(Change(None, CreatedJob(lib, p, status, newId, at), at))
    case Update(id, input, at, found, stored) =>
      if !found then Err(StoreFailed)
      else if id !in b.jobs then Err(NotFound)
      else
        var after := UpdatedJob(lib, b.jobs[id], input, at);
        var details := JobDetails(lib, after.posting, after.status);
        if details != [] then Err(Invalid(details))
        else if !stored then Err(StoreFailed)
        else Ok(Change(Some(b.jobs[id]), after, at))
  }

  function Next(lib: Library, b: Board, c: Call): Board {
    if c.Delete? then (if c.stored then b.(jobs := b.jobs - {c.id}) else b)
    else
      var o := Outcome(lib, b, c);
      if o.Ok? then Record(b, o.value) else b
  }

  predicate Runnable(lib: Library, b: Board, calls: seq<Call>)
    decreases |calls|
  {
    calls == [] || (Enabled(b, calls[0]) && Runnable(lib, Next(lib, b, calls[0]), calls[1..]))
  }

  function Run(lib: Library, b: Board, calls: seq<Call>): Board
    requires Runnable(lib, b, calls)
    decreases |calls|
  {
    if calls == [] then b else Run(lib, Next(lib, b, calls[0]), calls[1..])
  }
}
