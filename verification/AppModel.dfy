/**
 The application service as a state machine over sequences of calls whose storage and database steps
 may each fail.
 */
module AppModel {
  import opened Text
  import opened Utf8
  import opened Wrappers
  import opened CustomForm
  import Filename
  import Resume
  import Job

  datatype Stage = Applied | Screening | Interviewing | Offer | Hired | Rejected | OtherStage(name: string)

  datatype Application = Application(
    id: string,
    jobId: string,
    resumeKey: string,
    resumeFilename: string,
    answers: map<string, Value>,
    stage: Stage,
    reason: Option<string>)

  datatype Event =
    | Created(appId: string, stage: Stage)
    | StageUpdated(appId: string, from: Stage, to: Stage)
    | RejectedEvent(appId: string, reason: Option<string>)

  /** An update that was stored. */
  datatype Update = Update(appId: string, stage: Stage, reason: Option<string>)

  datatype Office = Office(
    jobs: map<string, Job.Job>,
    apps: map<string, Application>,
    objects: map<string, Str>,
    // history
    usedIds: set<string>,
    submitted: map<string, Str>,
    events: seq<Event>,
    updates: seq<Update>)

  const INITIAL := Office(map[], map[], map[], {}, map[], [], [])

  // ---------- Apply ----------

  /** What a candidate sends. `target` is the id the job key resolves to; `stream` the resume, if any. */
  datatype Submission = Submission(
    target: string,
    candidateOk: bool,
    answers: map<string, Value>,
    filename: string,
    size: int,
    stream: Option<Stream>)

  /** The bytes a reader delivers, and whether it breaks off with an error after them. */
  datatype Stream = Stream(content: Str, broken: bool)

  datatype ResumeIssue = ResumeRequired | ResumeTooLarge

  datatype Error =
    | NotFound
    | Invalid(badCandidate: bool, answers: seq<AnswerDetail>, resume: Option<ResumeIssue>)
    | BadResume(error: Resume.Error)
    | UnsupportedMediaType
    | UploadFailed
    | CreateFailed
    | StoreFailed
    | InvalidStage

  function ResumeIssueOf(in_: Submission): Option<ResumeIssue> {
    if in_.stream.None? || in_.filename == "" || in_.size == 0 then Some(ResumeRequired)
    else if in_.size > Resume.MAX_RESUME_SIZE then Some(ResumeTooLarge)
    else None
  }

  /** Everything Apply checks before it touches a store; the accepted name on success. */
  function Admit(lib: Library, o: Office, in_: Submission): Result<string, Error> {
    if in_.target !in o.jobs || o.jobs[in_.target].status != Job.Published then Err(NotFound)
    else
      var answers := AnswerDetails(lib, o.jobs[in_.target].posting.customFields, in_.answers);
      var resume := ResumeIssueOf(in_);
      if !in_.candidateOk || answers != [] || resume.Some? then Err(Invalid(!in_.candidateOk, answers, resume))
      else
        match Resume.Judge(lib.u, in_.filename, in_.size, in_.stream.value.content, in_.stream.value.broken)
        case Reject(UnsupportedMediaType) => Err(UnsupportedMediaType)
        case Reject(e) => Err(BadResume(e))
        case Accept(name, _, _) => Ok(name)
  }

  function NewApplication(lib: Library, in_: Submission, appId: string, name: string): Application {
    Application(appId, in_.target, Filename.ResumeKey(lib.u, in_.target, appId, name), name, in_.answers, Applied, None)
  }

  datatype Call =
    | Apply(in_: Submission, appId: string, uploads: bool, creates: bool, deletes: bool)
    | UpdateStage(id: string, stage: Stage, reason: Option<string>, found: bool, stored: bool)
    | ChangeJobs(jobs: map<string, Job.Job>)

  /** Storage after an upload, its compensation, or neither. */
  function DoApply(lib: Library, o: Office, c: Call): (Office, Result<Application, Error>)
    requires c.Apply?
  {
    match Admit(lib, o, c.in_)
    case Err(e) => (o, Err(e))
    case Ok(name) =>
      var app := NewApplication(lib, c.in_, c.appId, name);
      var o1 := o.(usedIds := o.usedIds + {c.appId});
      if !c.uploads || c.in_.stream.value.broken then (o1, Err(UploadFailed))
      else
        var content := c.in_.stream.value.content;
        var uploaded := o.objects[app.resumeKey := content];
        if !c.creates then
          (o1.(objects := if c.deletes then uploaded - {app.resumeKey} else uploaded), Err(CreateFailed))
        else
          (o1.(objects := uploaded, apps := o.apps[app.id := app], submitted := o.submitted[app.id := content],
               events := o.events + [Created(app.id, Applied)]),
           Ok(app))
  }

  // ---------- UpdateStage ----------

  predicate StageInputOk(lib: Library, stage: Stage, reason: Option<string>) {
    !stage.OtherStage? && (reason.Some? ==> ByteLength(lib.Trimmed(reason.value)) <= 255)
  }

  /** The events of a stored stage update. */
  function StageEvents(before: Application, stage: Stage, reason: Option<string>): seq<Event> {
    if before.stage != stage then
      [StageUpdated(before.id, before.stage, stage)]
      + if stage == Rejected then [RejectedEvent(before.id, reason)] else []
    else if stage == Rejected && reason.Some? && before.reason != reason then [RejectedEvent(before.id, reason)]
    else []
  }

  function DoUpdateStage(lib: Library, o: Office, c: Call): (Office, Result<Application, Error>)
    requires c.UpdateStage?
  {
    if !c.found then (o, Err(StoreFailed))
    else if c.id !in o.apps then (o, Err(NotFound))
    else if !StageInputOk(lib, c.stage, c.reason) then (o, Err(InvalidStage))
    else if !c.stored then (o, Err(StoreFailed))
    else
      var before := o.apps[c.id];
      var after := before.(stage := c.stage, reason := c.reason);
      (o.(apps := o.apps[c.id := after], events := o.events + StageEvents(before, c.stage, c.reason),
          updates := o.updates + [Update(c.id, c.stage, c.reason)]),
       Ok(after))
  }

  // ---------- Runs ----------

  /** Ids come from NewID: fresh, without separators. Deleting a job deletes its applications' rows. */
  predicate Enabled(lib: Library, o: Office, c: Call) {
    match c
    case Apply(_, appId, _, _, _) => appId !in o.usedIds && Filename.PlainId(lib.u, appId)
    case UpdateStage(_, _, _, _, _) => true
    case ChangeJobs(jobs) => forall id :: id in jobs ==> Filename.PlainId(lib.u, id)
  }

  function Next(lib: Library, o: Office, c: Call): Office {
    match c
    case Apply(_, _, _, _, _) => DoApply(lib, o, c).0
    case UpdateStage(_, _, _, _, _) => DoUpdateStage(lib, o, c).0
    case ChangeJobs(jobs) =>
      o.(jobs := jobs, apps := map id | id in o.apps && o.apps[id].jobId in jobs :: o.apps[id])
  }

  predicate Runnable(lib: Library, o: Office, calls: seq<Call>)
    decreases |calls|
  {
    calls == [] || (Enabled(lib, o, calls[0]) && Runnable(lib, Next(lib, o, calls[0]), calls[1..]))
  }

  function Run(lib: Library, o: Office, calls: seq<Call>): Office
    requires Runnable(lib, o, calls)
    decreases |calls|
  {
    if calls == [] then o else Run(lib, Next(lib, o, calls[0]), calls[1..])
  }
}
