/**
 Which submissions are taken, why others are not, and what becomes of the ones that are.
 */
module AppAdmission {
  import opened Text
  import opened Wrappers
  import opened CustomForm
  import opened AppModel
  import opened AppConsistency
  import FormRules
  import Filename
  import Resume
  import Job

  // ---------- Admission ----------

  predicate Open(o: Office, target: string) {
    target in o.jobs && o.jobs[target].status == Job.Published
  }

  /** Every required question is answered, and every answer that is not blank fits its question. */
  predicate FormOk(lib: Library, fields: seq<Field>, answers: map<string, Value>) {
    forall i :: 0 <= i < |fields| ==>
      var v := if fields[i].id in answers then answers[fields[i].id] else Null;
      && (fields[i].required ==> !FormRules.Blank(lib, v))
      && (!FormRules.Blank(lib, v) ==> FormRules.Fits(lib, fields[i], v))
  }

  /** A file that is there, of at most 10 MB, and bears the signature of its name's extension. */
  predicate FileOk(lib: Library, in_: Submission) {
    && in_.stream.Some? && in_.filename != "" && in_.size != 0 && in_.size <= 10485760
    && !(in_.stream.value.broken && |in_.stream.value.content| < 512)
    && Resume.Signed(Lower(lib.u, Filename.Ext(Filename.Sanitized(lib.u, in_.filename))), in_.stream.value.content)
  }

  lemma FormOkExactly(lib: Library, fields: seq<Field>, answers: map<string, Value>)
    ensures AnswerDetails(lib, fields, answers) == [] <==> FormOk(lib, fields, answers)
  {
    hide FormRules.Blank, FormRules.Fits, AnswerIssues;
    FormRules.AnswersAcceptedExactly(lib, fields, answers);
  }

  /**
   A submission is admitted if and only if its job is published, the candidate's data are in order, the
   answers keep the rules of the form, and the file is one that may be stored.
   */
  lemma AdmittedExactly(lib: Library, o: Office, in_: Submission)
    requires lib.Laws()
    ensures Admit(lib, o, in_).Ok? <==>
      && in_.target in o.jobs && o.jobs[in_.target].status == Job.Published
      && in_.candidateOk
      && FormOk(lib, o.jobs[in_.target].posting.customFields, in_.answers)
      && FileOk(lib, in_)
  {
    hide FormOk, AnswerDetails, Resume.Judge, Resume.Signed, Filename.Sanitized, Filename.Ext, Filename.SafeName, Lower;
    if Open(o, in_.target) {
      FormOkExactly(lib, o.jobs[in_.target].posting.customFields, in_.answers);
    }
    if in_.stream.Some? {
      var stream := in_.stream.value;
      Resume.AcceptedExactly(lib.u, in_.filename, in_.size, stream.content, stream.broken);
    }
  }

  predicate FileGiven(in_: Submission) {
    in_.stream.Some? && in_.filename != "" && in_.size != 0
  }

  /** Is a submission refused before its file is looked at? */
  predicate FormRefused(lib: Library, o: Office, in_: Submission) {
    || !Open(o, in_.target)
    || !in_.candidateOk
    || !FormOk(lib, o.jobs[in_.target].posting.customFields, in_.answers)
    || !FileGiven(in_)
    || in_.size > 10485760
  }

  /** Refused before its file is looked at, a submission is told that there is no such job, or all that is wrong. */
  lemma FormRefusedExactly(lib: Library, o: Office, in_: Submission)
    requires FormRefused(lib, o, in_)
    ensures !Open(o, in_.target) ==> Admit(lib, o, in_) == Err(NotFound)
    ensures Open(o, in_.target) ==>
      && Admit(lib, o, in_).Err? && Admit(lib, o, in_).error.Invalid?
      && var error := Admit(lib, o, in_).error;
         && (error.badCandidate <==> !in_.candidateOk)
         && (error.answers != [] <==> !FormOk(lib, o.jobs[in_.target].posting.customFields, in_.answers))
         && error.answers == AnswerDetails(lib, o.jobs[in_.target].posting.customFields, in_.answers)
         && error.resume == (if !FileGiven(in_) then Some(ResumeRequired)
                             else if in_.size > 10485760 then Some(ResumeTooLarge)
                             else None)
  {
    hide FormOk, AnswerDetails, Resume.Judge;
    if Open(o, in_.target) {
      FormOkExactly(lib, o.jobs[in_.target].posting.customFields, in_.answers);
    }
  }

  /** Else it is refused only for its file: the first of these reasons that holds. */
  lemma FileRefusedExactly(lib: Library, o: Office, in_: Submission)
    requires lib.Laws() && !FormRefused(lib, o, in_) && Admit(lib, o, in_).Err?
    ensures var ext, stream := Lower(lib.u, Filename.Ext(Filename.Sanitized(lib.u, in_.filename))), in_.stream.value;
      Admit(lib, o, in_).error ==
        if ext !in {".pdf", ".doc", ".docx"} then UnsupportedMediaType
        else if stream.broken && |stream.content| < 512 then BadResume(Resume.ReadFailed)
        else if |stream.content| == 0 then BadResume(Resume.FileEmpty)
        else UnsupportedMediaType
  {
    hide FormOk, AnswerDetails, Resume.Judge, Filename.Sanitized, Filename.Ext, Lower;
    FormOkExactly(lib, o.jobs[in_.target].posting.customFields, in_.answers);
    var stream := in_.stream.value;
    Resume.RefusedExactly(lib.u, in_.filename, in_.size, stream.content, stream.broken);
  }

  // ---------- Apply ----------

  /** Apply succeeds if and only if the submission is admitted, its stream can be read, and both stores accept it. */
  lemma AppliedExactly(lib: Library, o: Office, c: Call)
    requires lib.Laws() && c.Apply?
    ensures DoApply(lib, o, c).1.Ok? <==>
      && c.in_.target in o.jobs && o.jobs[c.in_.target].status == Job.Published
      && c.in_.candidateOk
      && FormOk(lib, o.jobs[c.in_.target].posting.customFields, c.in_.answers)
      && FileOk(lib, c.in_)
      && c.uploads && !c.in_.stream.value.broken && c.creates
    ensures Admit(lib, o, c.in_).Err? ==>
      Next(lib, o, c) == o && DoApply(lib, o, c).1 == Err(Admit(lib, o, c.in_).error)
    ensures Admit(lib, o, c.in_).Ok? && DoApply(lib, o, c).1.Err? ==>
      DoApply(lib, o, c).1.error == if !c.uploads || c.in_.stream.value.broken then UploadFailed else CreateFailed
  {
    hide FormOk, FileOk, Admit, Filename.ResumeKey;
    AdmittedExactly(lib, o, c.in_);
    if Admit(lib, o, c.in_).Ok? {
      AdmittedJob(lib, o, c.in_);
    }
  }

  /** What a successful Apply leaves behind: the row as submitted, the file, and one event. */
  lemma AppliedStores(lib: Library, o: Office, c: Call, o': Office, app: Application)
    requires c.Apply? && DoApply(lib, o, c) == (o', Ok(app))
    ensures app.id == c.appId && app.jobId == c.in_.target && app.answers == c.in_.answers
    ensures app.resumeFilename == Filename.Sanitized(lib.u, c.in_.filename)
    ensures app.stage == Applied && app.reason == None
    ensures app.resumeKey == "resumes/" + Trim(app.jobId, lib.u.isSpace) + "/" + Trim(app.id, lib.u.isSpace) + "/"
                             + Filename.Sanitized(lib.u, app.resumeFilename)
    ensures o'.apps == o.apps[c.appId := app]
    ensures c.in_.stream.Some?
    ensures o'.objects == o.objects[app.resumeKey := c.in_.stream.value.content]
    ensures o'.submitted == o.submitted[c.appId := c.in_.stream.value.content]
    ensures o'.events == o.events + [Created(c.appId, Applied)] && o'.jobs == o.jobs
  {
    hide Admit, Filename.Sanitized, Trim, Filename.Accepted;
    AdmittedName(lib, o, c.in_);
    AdmittedJob(lib, o, c.in_);
  }

  // ---------- UpdateStage ----------

  /** A stage update is stored if and only if the stage is one of the six and the reason is short enough. */
  lemma StageUpdatedExactly(lib: Library, o: Office, c: Call)
    requires c.UpdateStage?
    ensures DoUpdateStage(lib, o, c).1.Ok? <==>
      && c.found && c.id in o.apps
      && c.stage in {Applied, Screening, Interviewing, Offer, Hired, Rejected}
      && (c.reason.Some? ==> ByteLength(Trim(c.reason.value, lib.u.isSpace)) <= 255)
      && c.stored
    ensures DoUpdateStage(lib, o, c).1.Ok? ==>
      var app, o' := DoUpdateStage(lib, o, c).1.value, Next(lib, o, c);
      && app == o.apps[c.id].(stage := c.stage, reason := c.reason)
      && o'.apps == o.apps[c.id := app] && o'.objects == o.objects && o'.jobs == o.jobs
      && o'.updates == o.updates + [Update(c.id, c.stage, c.reason)]
    ensures DoUpdateStage(lib, o, c).1.Err? ==> Next(lib, o, c) == o
    ensures c.found && c.id !in o.apps ==> DoUpdateStage(lib, o, c).1 == Err(NotFound)
    ensures DoUpdateStage(lib, o, c).1 == Err(InvalidStage) <==>
      && c.found && c.id in o.apps
      && !(c.stage in {Applied, Screening, Interviewing, Offer, Hired, Rejected}
           && (c.reason.Some? ==> ByteLength(Trim(c.reason.value, lib.u.isSpace)) <= 255))
  {
    hide Trim, ByteLength;
  }

  /** The events of a stored update: its move, if it moves, and its rejection, if that is new or has a new reason. */
  lemma StageAnnouncedExactly(lib: Library, o: Office, c: Call)
    requires c.UpdateStage? && DoUpdateStage(lib, o, c).1.Ok? && o.apps[c.id].id == c.id
    ensures var before := o.apps[c.id];
      Next(lib, o, c).events == o.events
        + (if before.stage != c.stage then [StageUpdated(c.id, before.stage, c.stage)] else [])
        + (if c.stage == Rejected && (before.stage != Rejected || (c.reason != None && c.reason != before.reason))
           then [RejectedEvent(c.id, c.reason)] else [])
  {
    hide StageInputOk;
  }

  // ---------- Over all runs ----------

  /** Call `k` of the run took the application in: its job was published then, and this was submitted. */
  ghost predicate TakenBy(lib: Library, calls: seq<Call>, k: nat, app: Application)
    requires k < |calls| && Runnable(lib, INITIAL, calls[..k])
  {
    && calls[k].Apply? && calls[k].appId == app.id
    && var o, in_ := Run(lib, INITIAL, calls[..k]), calls[k].in_;
       && in_.target == app.jobId && in_.answers == app.answers
       && in_.target in o.jobs && o.jobs[in_.target].status == Job.Published
       && in_.candidateOk && FormOk(lib, o.jobs[in_.target].posting.customFields, app.answers) && FileOk(lib, in_)
  }

  lemma {:induction false} RunPrefix(lib: Library, o: Office, calls: seq<Call>, k: nat)
    requires Runnable(lib, o, calls) && k <= |calls|
    ensures Runnable(lib, o, calls[..k])
    ensures k < |calls| ==>
      var before := Run(lib, o, calls[..k]);
      && Enabled(lib, before, calls[k])
      && Runnable(lib, o, calls[..k + 1]) && Run(lib, o, calls[..k + 1]) == Next(lib, before, calls[k])
    decreases k
  {
    hide Enabled, Next;
    if k == 0 {
      assert calls[..0] == [];
      if calls != [] {
        assert calls[..1] == [calls[0]] && [calls[0]][1..] == [];
        assert Runnable(lib, Next(lib, o, calls[0]), []);
      }
    } else {
      var o1, rest := Next(lib, o, calls[0]), calls[1..];
      RunPrefix(lib, o1, rest, k - 1);
      assert calls[..k][1..] == rest[..k - 1];
      if k < |calls| {
        assert calls[..k + 1][1..] == rest[..k] && rest[k - 1] == calls[k];
      }
    }
  }

  predicate SameSubmission(a: Application, b: Application) {
    a.id == b.id && a.jobId == b.jobId && a.answers == b.answers
  }

  /** The call takes `app` in. */
  predicate Takes(lib: Library, o: Office, c: Call, app: Application) {
    && c.Apply? && c.appId == app.id && c.in_.target == app.jobId && c.in_.answers == app.answers
    && Open(o, c.in_.target) && c.in_.candidateOk && FileOk(lib, c.in_)
    && FormOk(lib, o.jobs[c.in_.target].posting.customFields, app.answers)
  }

  lemma ApplyTakes(lib: Library, o: Office, c: Call, id: string)
    requires lib.Laws() && c.Apply? && id in DoApply(lib, o, c).0.apps
    ensures var app := DoApply(lib, o, c).0.apps[id];
      (id in o.apps && app == o.apps[id]) || (app.id == id && Takes(lib, o, c, app))
  {
    hide Admit, FormOk, FileOk, DoApply, Filename.ResumeKey, Filename.Sanitized, Trim;
    AppliedExactly(lib, o, c);
    if DoApply(lib, o, c).1.Ok? {
      AppliedStores(lib, o, c, DoApply(lib, o, c).0, DoApply(lib, o, c).1.value);
    } else {
      FailedKeepsApps(lib, o, c);
    }
  }

  lemma FailedKeepsApps(lib: Library, o: Office, c: Call)
    requires c.Apply? && DoApply(lib, o, c).1.Err?
    ensures DoApply(lib, o, c).0.apps == o.apps
  {
    hide Admit, Filename.ResumeKey;
  }

  lemma OthersTakeNone(lib: Library, o: Office, c: Call, id: string)
    requires !c.Apply? && id in Next(lib, o, c).apps
    ensures id in o.apps && SameSubmission(Next(lib, o, c).apps[id], o.apps[id])
  {
    hide DoApply, StageInputOk, StageEvents;
  }

  /** A step keeps an application's job and answers, or takes the application in. */
  lemma StepTakes(lib: Library, o: Office, c: Call, id: string)
    requires lib.Laws() && id in Next(lib, o, c).apps
    ensures var app := Next(lib, o, c).apps[id];
      || (id in o.apps && SameSubmission(app, o.apps[id]))
      || (app.id == id && Takes(lib, o, c, app))
  {
    hide DoApply, Takes, DoUpdateStage;
    if c.Apply? {
      ApplyTakes(lib, o, c, id);
    } else {
      OthersTakeNone(lib, o, c, id);
    }
  }

  /** Every stored application was taken in by a call of the run, while its job was published. */
  lemma {:induction false} TakenWhilePublished(lib: Library, calls: seq<Call>, n: nat, id: string) returns (k: nat)
    requires lib.Laws() && Runnable(lib, INITIAL, calls) && n <= |calls| && Runnable(lib, INITIAL, calls[..n])
    requires id in Run(lib, INITIAL, calls[..n]).apps
    ensures k < n && Runnable(lib, INITIAL, calls[..k])
    ensures TakenBy(lib, calls, k, Run(lib, INITIAL, calls[..n]).apps[id])
    decreases n
  {
    hide Next, Enabled, FormOk, FileOk, Stored, Logged;
    var none := calls[..0];
    assert none == [];
    if n == 0 {
      assert false;
    } else {
      RunPrefix(lib, INITIAL, calls, n - 1);
      var o := Run(lib, INITIAL, calls[..n - 1]);
      StepTakes(lib, o, calls[n - 1], id);
      var app := Run(lib, INITIAL, calls[..n]).apps[id];
      if id in o.apps && SameSubmission(app, o.apps[id]) {
        k := TakenWhilePublished(lib, calls, n - 1, id);
      } else {
        k := n - 1;
      }
    }
  }

  /** In every run, each stored application holds what was submitted to a job that was published at the time. */
  lemma ApplicationsWereAdmitted(lib: Library, calls: seq<Call>, id: string)
    requires lib.Laws() && Runnable(lib, INITIAL, calls) && id in Run(lib, INITIAL, calls).apps
    ensures var app := Run(lib, INITIAL, calls).apps[id];
      exists k :: 0 <= k < |calls| && Runnable(lib, INITIAL, calls[..k]) && TakenBy(lib, calls, k, app)
  {
    hide TakenBy, Run, Runnable;
    assert calls[..|calls|] == calls;
    var k := TakenWhilePublished(lib, calls, |calls|, id);
  }
}
