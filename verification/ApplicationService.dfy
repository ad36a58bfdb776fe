/**
 The application service: its methods over the storage and the tables they update in place, each
 proved to do what the state machine says.
 */
module ApplicationService {
  import opened Utf8
  import opened Wrappers
  import opened CustomForm
  import opened AppModel
  import opened AppConsistency
  import Filename
  import Resume
  import Job

  class ApplicationService {
    const lib: Library
    var jobs: map<string, Job.Job>
    var apps: map<string, Application>
    var objects: map<string, Str>
    // history
    ghost var usedIds: set<string>
    ghost var submitted: map<string, Str>
    ghost var events: seq<Event>
    ghost var updates: seq<Update>

    ghost function View(): Office
      reads this
    {
      Office(jobs, apps, objects, usedIds, submitted, events, updates)
    }

    /** The service is in a state that a sequence of calls leads to. */
    ghost predicate Valid()
      reads this
    {
      Reachable(lib, View())
    }

    constructor (lib: Library)
      ensures Valid() && View() == INITIAL && this.lib == lib
    {
      this.lib := lib;
      jobs, apps, objects := map[], map[], map[];
      usedIds, submitted, events, updates := {}, map[], [], [];
      new;
      InitialReachable(lib);
    }

    /** Storage.Upload: reads the whole stream, and stores it or nothing. */
    method Upload(key: string, body: Resume.Rejoined, works: bool) returns (ok: bool, ghost data: Str)
      modifies this`objects, body.rest`chunks
      ensures ok == (works && !body.rest.broken) && data == body.header + old(body.rest.Content())
      ensures objects == if ok then old(objects)[key := data] else old(objects)
    {
      var bytes, broken := Resume.ReadAll(body);
      data := bytes;
      ok := works && !broken;
      if ok {
        objects := objects[key := bytes];
      }
    }

    /** Storage.Delete. */
    method DeleteObject(key: string, works: bool)
      modifies this`objects
      ensures objects == if works then old(objects) - {key} else old(objects)
    {
      if works {
        objects := objects - {key};
      }
    }

    /** The checks of Apply, up to and with the look at the resume. */
    method Check(in_: Submission, r: Resume.Reader?)
      returns (checked: Result<string, Error>, body: Option<Resume.Rejoined>)
      requires in_.stream == if r == null then None else Some(Stream(r.Content(), r.broken))
      modifies if r == null then {} else {r}
      ensures checked == Admit(lib, View(), in_)
      ensures checked.Ok? <==> body.Some?
      ensures body.Some? ==>
        r != null && body.value.rest == r && body.value.header + r.Content() == in_.stream.value.content
    {
      hide Resume.Judge, Resume.Reader.Content;
      body := None;
      if in_.target !in jobs || jobs[in_.target].status != Job.Published {
        return Err(NotFound), None;
      }
      var details := ValidateCustomAnswers(lib, jobs[in_.target].posting.customFields, in_.answers);
      var resume := None;
      if r == null || in_.filename == "" || in_.size == 0 {
        resume := Some(ResumeRequired);
      } else if in_.size > Resume.MAX_RESUME_SIZE {
        resume := Some(ResumeTooLarge);
      }
      if !in_.candidateOk || details != [] || resume.Some? {
        return Err(Invalid(!in_.candidateOk, details, resume)), None;
      }
      var verdict;
      verdict, body := Resume.ValidateResume(lib.u, in_.filename, in_.size, r);
      match verdict {
        case Reject(UnsupportedMediaType) => checked := Err(UnsupportedMediaType);
        case Reject(e) => checked := Err(BadResume(e));
        case Accept(name, _, _) => checked := Ok(name);
      }
    }

    /**
     `in_.stream` is what `r` will deliver. `appId` is NewID's result; `uploads`, `creates` and
     `deletes` say whether storage and database accept their steps.
     */
    method Apply(in_: Submission, r: Resume.Reader?, appId: string, uploads: bool, creates: bool, deletes: bool)
      returns (res: Result<Application, Error>)
      requires in_.stream == if r == null then None else Some(Stream(r.Content(), r.broken))
      requires Valid() && appId !in usedIds && Filename.PlainId(lib.u, appId)
      modifies this, if r == null then {} else {r}
      ensures (View(), res) == DoApply(lib, old(View()), AppModel.Apply(in_, appId, uploads, creates, deletes))
      ensures Valid()
    {
      hide Admit, Filename.ResumeKey, Filename.PlainId, Resume.Reader.Content, Reachable, Enabled;
      ApplyReachable(lib, View(), AppModel.Apply(in_, appId, uploads, creates, deletes));
      var checked, body := Check(in_, r);
      if checked.Err? {
        return Err(checked.error);
      }
      var app := NewApplication(lib, in_, appId, checked.value);
      usedIds := usedIds + {appId};
      ghost var data;
      var ok;
      ok, data := Upload(app.resumeKey, body.value, uploads);
      if !ok {
        return Err(UploadFailed);
      }
      if !creates {
        DeleteObject(app.resumeKey, deletes);
        return Err(CreateFailed);
      }
      apps := apps[app.id := app];
      submitted := submitted[app.id := data];
      events := events + [Created(app.id, app.stage)];
      return Ok(app);
    }

    /** `found` is whether the read succeeds, `stored` whether the write does. */
    method UpdateStage(id: string, stage: Stage, reason: Option<string>, found: bool, stored: bool)
      returns (res: Result<Application, Error>)
      requires Valid()
      modifies this`apps, this`events, this`updates
      ensures (View(), res) == DoUpdateStage(lib, old(View()), AppModel.UpdateStage(id, stage, reason, found, stored))
      ensures Valid()
    {
      hide StageInputOk, Reachable;
      ReachableNext(lib, View(), AppModel.UpdateStage(id, stage, reason, found, stored));
      if !found {
        return Err(StoreFailed);
      }
      if id !in apps {
        return Err(NotFound);
      }
      var app := apps[id];
      ghost var before := app;
      var oldStage, oldReason := app.stage, app.reason;
      if !StageInputOk(lib, stage, reason) {
        return Err(InvalidStage);
      }
      if !stored {
        return Err(StoreFailed);
      }
      app := app.(stage := stage, reason := reason);
      apps := apps[id := app];
      updates := updates + [Update(id, stage, reason)];
      if oldStage != stage {
        events := events + [StageUpdated(app.id, oldStage, stage)];
        if stage == Rejected {
          events := events + [RejectedEvent(app.id, reason)];
        }
      } else if stage == Rejected && reason.Some? && (oldReason.None? || oldReason.value != reason.value) {
        events := events + [RejectedEvent(app.id, reason)];
      }
      assert events == old(events) + StageEvents(before, stage, reason);
      return Ok(app);
    }

    /** The job table changes; rows of applications to deleted jobs go with them. */
    method JobsChange(to: map<string, Job.Job>)
      requires Valid() && forall id :: id in to ==> Filename.PlainId(lib.u, id)
      modifies this`jobs, this`apps
      ensures Valid() && View() == Next(lib, old(View()), ChangeJobs(to))
    {
      ReachableNext(lib, View(), ChangeJobs(to));
      jobs := to;
      apps := map id | id in apps && apps[id].jobId in jobs :: apps[id];
    }
  }
}
