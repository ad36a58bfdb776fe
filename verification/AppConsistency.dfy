/**
 What every sequence of Apply and UpdateStage calls keeps, whichever of their steps fail: storage and
 database agree, and the event log replays to the stored stages.
 */
module AppConsistency {
  import opened Text
  import opened Wrappers
  import opened CustomForm
  import opened AppModel
  import Filename

  // ---------- Storage and database ----------

  /** An object key that some used application id accounts for. */
  ghost predicate Accounted(lib: Library, usedIds: set<string>, key: string) {
    exists job, id, name ::
      id in usedIds && Filename.PlainId(lib.u, job) && Filename.PlainId(lib.u, id)
      && key == Filename.ResumeKey(lib.u, job, id, name)
  }

  ghost predicate AppStored(lib: Library, o: Office, a: Application) {
    && a.id in o.usedIds && Filename.PlainId(lib.u, a.id) && Filename.PlainId(lib.u, a.jobId)
    && a.resumeKey == Filename.ResumeKey(lib.u, a.jobId, a.id, a.resumeFilename)
    && a.resumeKey in o.objects && a.id in o.submitted && o.objects[a.resumeKey] == o.submitted[a.id]
  }

  ghost predicate Stored(lib: Library, o: Office) {
    && (forall id :: id in o.jobs ==> Filename.PlainId(lib.u, id))
    && (forall id :: id in o.apps ==> o.apps[id].id == id && AppStored(lib, o, o.apps[id]))
    && (forall key :: key in o.objects ==> Accounted(lib, o.usedIds, key))
  }

  lemma FreshKey(lib: Library, usedIds: set<string>, job: string, id: string, name: string, key: string)
    requires id !in usedIds && Filename.PlainId(lib.u, job) && Filename.PlainId(lib.u, id)
    requires Accounted(lib, usedIds, key)
    ensures key != Filename.ResumeKey(lib.u, job, id, name)
  {
    hide Filename.PlainId, Filename.ResumeKey;
    var job', id', name' :|
      id' in usedIds && Filename.PlainId(lib.u, job') && Filename.PlainId(lib.u, id')
      && key == Filename.ResumeKey(lib.u, job', id', name');
    Filename.KeysDiffer(lib.u, job, id, name, job', id', name');
  }

  lemma StillAccounted(lib: Library, usedIds: set<string>, more: set<string>, key: string)
    requires Accounted(lib, usedIds, key)
    ensures Accounted(lib, usedIds + more, key)
  {
    hide Filename.PlainId, Filename.ResumeKey;
  }

  lemma NewAccounted(lib: Library, usedIds: set<string>, job: string, id: string, name: string)
    requires id in usedIds && Filename.PlainId(lib.u, job) && Filename.PlainId(lib.u, id)
    ensures Accounted(lib, usedIds, Filename.ResumeKey(lib.u, job, id, name))
  {
    hide Filename.PlainId, Filename.ResumeKey;
  }

  /** The new key collides with no object, so neither the upload nor its undoing touches another one. */
  lemma ApplyKeyFresh(lib: Library, o: Office, c: Call)
    requires Stored(lib, o) && Enabled(lib, o, c) && c.Apply? && Admit(lib, o, c.in_).Ok?
    ensures NewApplication(lib, c.in_, c.appId, Admit(lib, o, c.in_).value).resumeKey !in o.objects
  {
    hide Filename.PlainId, Filename.ResumeKey, Admit, Accounted;
    AdmittedJob(lib, o, c.in_);
    var name := Admit(lib, o, c.in_).value;
    var key := NewApplication(lib, c.in_, c.appId, name).resumeKey;
    if key in o.objects {
      FreshKey(lib, o.usedIds, c.in_.target, c.appId, name, key);
    }
  }

  lemma AdmittedJob(lib: Library, o: Office, in_: Submission)
    requires Admit(lib, o, in_).Ok?
    ensures in_.target in o.jobs && in_.stream.Some?
  {
  }

  lemma ApplyStored(lib: Library, o: Office, c: Call)
    requires Stored(lib, o) && Enabled(lib, o, c) && c.Apply?
    ensures Stored(lib, Next(lib, o, c))
  {
    hide Filename.PlainId, Filename.ResumeKey, Admit, Accounted;
    if Admit(lib, o, c.in_).Ok? {
      AdmittedJob(lib, o, c.in_);
      ApplyKeyFresh(lib, o, c);
      var o', name := Next(lib, o, c), Admit(lib, o, c.in_).value;
      var key := NewApplication(lib, c.in_, c.appId, name).resumeKey;
      NewAccounted(lib, o'.usedIds, c.in_.target, c.appId, name);
      forall k | k in o'.objects
        ensures Accounted(lib, o'.usedIds, k)
      {
        if k != key {
          StillAccounted(lib, o.usedIds, {c.appId}, k);
        }
      }
      forall id | id in o'.apps
        ensures o'.apps[id].id == id && AppStored(lib, o', o'.apps[id])
      {
        assert id in o.apps ==> AppStored(lib, o, o.apps[id]);
      }
    }
  }

  lemma StepStored(lib: Library, o: Office, c: Call)
    requires Stored(lib, o) && Enabled(lib, o, c)
    ensures Stored(lib, Next(lib, o, c))
  {
    if c.Apply? {
      ApplyStored(lib, o, c);
    } else {
      OthersStored(lib, o, c);
    }
  }

  lemma OthersStored(lib: Library, o: Office, c: Call)
    requires Stored(lib, o) && Enabled(lib, o, c) && !c.Apply?
    ensures Stored(lib, Next(lib, o, c))
  {
    hide Filename.PlainId, Filename.ResumeKey, Accounted, DoApply;
    var o' := Next(lib, o, c);
    forall id | id in o'.apps
      ensures o'.apps[id].id == id && AppStored(lib, o', o'.apps[id])
    {
      assert AppStored(lib, o, o.apps[id]);
    }
  }

  /** The upload went through, the row could not be created, and the upload could not be undone. */
  predicate Orphans(lib: Library, o: Office, c: Call)
    requires c.Apply?
  {
    Admit(lib, o, c.in_).Ok? && c.uploads && !c.in_.stream.value.broken && !c.creates && !c.deletes
  }

  /** A failed Apply never changes the database, and it changes storage if and only if it leaves an orphan there. */
  lemma FailedApplyChangesNothing(lib: Library, o: Office, c: Call)
    requires Stored(lib, o) && Enabled(lib, o, c) && c.Apply? && DoApply(lib, o, c).1.Err?
    ensures Next(lib, o, c).apps == o.apps && Next(lib, o, c).jobs == o.jobs
    ensures Next(lib, o, c).objects == o.objects <==> !Orphans(lib, o, c)
  {
    hide Filename.PlainId, Filename.ResumeKey, Admit, Accounted;
    if Admit(lib, o, c.in_).Ok? {
      ApplyKeyFresh(lib, o, c);
      AdmittedJob(lib, o, c.in_);
      var name := Admit(lib, o, c.in_).value;
      var key := NewApplication(lib, c.in_, c.appId, name).resumeKey;
      var uploaded := o.objects[key := c.in_.stream.value.content];
      assert uploaded - {key} == o.objects;
      assert key in uploaded && key !in o.objects;
    }
  }

  // ---------- The event log ----------

  /** The stage of an application according to its events. */
  function Replayed(events: seq<Event>, id: string): Option<Stage> {
    if events == [] then None
    else
      match events[|events| - 1]
      case Created(i, stage) => if i == id then Some(stage) else Replayed(events[..|events| - 1], id)
      case StageUpdated(i, _, to) => if i == id then Some(to) else Replayed(events[..|events| - 1], id)
      case RejectedEvent(_, _) => Replayed(events[..|events| - 1], id)
  }

  /** The reason in the last rejection of an application. */
  function LastRejection(events: seq<Event>, id: string): Option<Option<string>> {
    if events == [] then None
    else
      match events[|events| - 1]
      case RejectedEvent(i, reason) => if i == id then Some(reason) else LastRejection(events[..|events| - 1], id)
      case _ => LastRejection(events[..|events| - 1], id)
  }

  /** The reasons given in the updates of an application since it last entered rejected. */
  function ReasonsGiven(updates: seq<Update>, id: string): seq<Option<string>> {
    if updates == [] then []
    else
      var u, front := updates[|updates| - 1], updates[..|updates| - 1];
      if u.appId != id then ReasonsGiven(front, id)
      else if u.stage == Rejected then ReasonsGiven(front, id) + [u.reason]
      else []
  }

  /** The last of them that is not nil. */
  function LastGiven(reasons: seq<Option<string>>): Option<string> {
    if reasons == [] then None
    else if reasons[|reasons| - 1].Some? then reasons[|reasons| - 1]
    else LastGiven(reasons[..|reasons| - 1])
  }

  /** Entry `k` continues its application's chain: creation opens it at applied, an update goes on and elsewhere. */
  predicate Continues(events: seq<Event>, e: Event) {
    match e
    case Created(id, stage) => stage == Applied && Replayed(events, id) == None
    case StageUpdated(id, from, to) => from != to && Replayed(events, id) == Some(from)
    case RejectedEvent(id, _) => Replayed(events, id) == Some(Rejected)
  }

  predicate Chained(events: seq<Event>) {
    forall k :: 0 <= k < |events| ==> Continues(events[..k], events[k])
  }

  /** The log and the updates agree with what is stored. */
  ghost predicate AppLogged(o: Office, a: Application) {
    && Replayed(o.events, a.id) == Some(a.stage)
    && ReasonsLogged(a, ReasonsGiven(o.updates, a.id), LastRejection(o.events, a.id))
  }

  /** While an application is rejected, its last announced reason is the last one given. */
  ghost predicate ReasonsLogged(a: Application, reasons: seq<Option<string>>, announced: Option<Option<string>>) {
    if a.stage == Rejected then
      reasons != [] && a.reason == reasons[|reasons| - 1] && announced == Some(LastGiven(reasons))
    else reasons == []
  }

  ghost predicate Logged(o: Office) {
    && Chained(o.events)
    && (forall id :: id in o.apps ==> o.apps[id].id == id && id in o.usedIds && AppLogged(o, o.apps[id]))
    && (forall id :: id !in o.usedIds ==> Replayed(o.events, id) == None && ReasonsGiven(o.updates, id) == [])
  }

  lemma LogAppend(events: seq<Event>, e: Event, id: string)
    ensures Replayed(events + [e], id) ==
      match e
      case Created(i, stage) => if i == id then Some(stage) else Replayed(events, id)
      case StageUpdated(i, _, to) => if i == id then Some(to) else Replayed(events, id)
      case RejectedEvent(_, _) => Replayed(events, id)
    ensures LastRejection(events + [e], id) ==
      if e.RejectedEvent? && e.appId == id then Some(e.reason) else LastRejection(events, id)
  {
    assert (events + [e])[..|events|] == events;
  }

  lemma ChainedAppend(events: seq<Event>, e: Event)
    requires Chained(events) && Continues(events, e)
    ensures Chained(events + [e])
  {
    hide Continues;
    var all := events + [e];
    assert all[..|events|] == events;
    forall k | 0 <= k < |all|
      ensures Continues(all[..k], all[k])
    {
      if k < |events| {
        assert all[k] == events[k] && all[..k] == events[..k];
      }
    }
  }

  predicate Announces(before: Application, stage: Stage, reason: Option<string>) {
    stage == Rejected && (before.stage != Rejected || (reason.Some? && before.reason != reason))
  }

  /** The events of one update, for the application itself and for any other. */
  lemma UpdateLog(events: seq<Event>, before: Application, stage: Stage, reason: Option<string>, id: string)
    ensures var after := events + StageEvents(before, stage, reason);
      if id == before.id then
        && (Replayed(events, id) == Some(before.stage) ==> Replayed(after, id) == Some(stage))
        && LastRejection(after, id) ==
           if Announces(before, stage, reason) then Some(reason) else LastRejection(events, id)
      else Replayed(after, id) == Replayed(events, id) && LastRejection(after, id) == LastRejection(events, id)
  {
    hide Replayed, LastRejection;
    var es := StageEvents(before, stage, reason);
    if |es| == 0 {
      assert events + es == events;
    } else if |es| == 1 {
      LogAppend(events, es[0], id);
      assert es == [es[0]];
    } else {
      LogAppend(events, es[0], id);
      LogAppend(events + [es[0]], es[1], id);
      assert events + es == (events + [es[0]]) + [es[1]];
    }
  }

  lemma UpdateChained(events: seq<Event>, before: Application, stage: Stage, reason: Option<string>)
    requires Chained(events) && Replayed(events, before.id) == Some(before.stage)
    ensures Chained(events + StageEvents(before, stage, reason))
  {
    hide Replayed, Chained;
    var es := StageEvents(before, stage, reason);
    if |es| == 0 {
      assert events + es == events;
    } else {
      ChainedAppend(events, es[0]);
      LogAppend(events, es[0], before.id);
      if |es| == 2 {
        ChainedAppend(events + [es[0]], es[1]);
        assert events + es == (events + [es[0]]) + [es[1]];
      } else {
        assert es == [es[0]];
      }
    }
  }

  lemma UpdatesAppend(updates: seq<Update>, u: Update, id: string)
    ensures ReasonsGiven(updates + [u], id) ==
      if u.appId != id then ReasonsGiven(updates, id)
      else if u.stage == Rejected then ReasonsGiven(updates, id) + [u.reason]
      else []
  {
    assert (updates + [u])[..|updates|] == updates;
  }

  /** What is announced, if anything, is the reason given last. */
  lemma ReasonsAfter(before: Application, stage: Stage, reason: Option<string>,
                     reasons: seq<Option<string>>, announced: Option<Option<string>>)
    requires ReasonsLogged(before, reasons, announced)
    ensures ReasonsLogged(before.(stage := stage, reason := reason),
                          if stage == Rejected then reasons + [reason] else [],
                          if Announces(before, stage, reason) then Some(reason) else announced)
  {
    if stage == Rejected {
      assert (reasons + [reason])[..|reasons|] == reasons;
    }
  }

  lemma UpdateLogged(lib: Library, o: Office, c: Call)
    requires Logged(o) && c.UpdateStage?
    ensures Logged(Next(lib, o, c))
  {
    hide Replayed, LastRejection, Chained, StageEvents, StageInputOk, ReasonsGiven, ReasonsLogged;
    var o' := Next(lib, o, c);
    if o' != o {
      var before := o.apps[c.id];
      UpdateChained(o.events, before, c.stage, c.reason);
      forall id | id in o'.apps
        ensures o'.apps[id].id == id && AppLogged(o', o'.apps[id])
      {
        assert AppLogged(o, o.apps[id]);
        UpdateLog(o.events, before, c.stage, c.reason, id);
        UpdatesAppend(o.updates, Update(c.id, c.stage, c.reason), id);
        if id == c.id {
          ReasonsAfter(before, c.stage, c.reason, ReasonsGiven(o.updates, id), LastRejection(o.events, id));
        }
      }
      forall id | id !in o'.usedIds
        ensures Replayed(o'.events, id) == None && ReasonsGiven(o'.updates, id) == []
      {
        UpdateLog(o.events, before, c.stage, c.reason, id);
        UpdatesAppend(o.updates, Update(c.id, c.stage, c.reason), id);
      }
    }
  }

  lemma ApplyLogged(lib: Library, o: Office, c: Call)
    requires Logged(o) && c.Apply? && Enabled(lib, o, c)
    ensures Logged(Next(lib, o, c))
  {
    hide Replayed, LastRejection, Chained, ReasonsGiven, Admit, Filename.ResumeKey, Filename.PlainId;
    var o' := Next(lib, o, c);
    if o'.events != o.events {
      var e := Created(c.appId, Applied);
      assert o'.events == o.events + [e];
      ChainedAppend(o.events, e);
      forall id | id in o'.apps
        ensures o'.apps[id].id == id && AppLogged(o', o'.apps[id])
      {
        LogAppend(o.events, e, id);
        assert id in o.apps ==> AppLogged(o, o.apps[id]);
      }
      forall id | id !in o'.usedIds
        ensures Replayed(o'.events, id) == None
      {
        LogAppend(o.events, e, id);
      }
    } else {
      ApplyFailedLogged(lib, o, c);
    }
  }

  lemma ApplyFailedLogged(lib: Library, o: Office, c: Call)
    requires Logged(o) && c.Apply? && Next(lib, o, c).events == o.events
    ensures Logged(Next(lib, o, c))
  {
    hide Replayed, LastRejection, Chained, ReasonsGiven, ReasonsLogged, Admit, Filename.ResumeKey;
    var o' := Next(lib, o, c);
    assert |o.events + [Created(c.appId, Applied)]| != |o.events|;
    assert o'.apps == o.apps;
    forall id | id in o'.apps
      ensures AppLogged(o', o'.apps[id])
    {
      assert AppLogged(o, o.apps[id]);
    }
  }

  lemma StepLogged(lib: Library, o: Office, c: Call)
    requires Logged(o) && Enabled(lib, o, c)
    ensures Logged(Next(lib, o, c))
  {
    hide Chained, Replayed, LastRejection, Admit, Filename.ResumeKey, Filename.PlainId, DoApply, DoUpdateStage;
    match c
    case Apply(_, _, _, _, _) => ApplyLogged(lib, o, c);
    case UpdateStage(_, _, _, _, _) => UpdateLogged(lib, o, c);
    case ChangeJobs(jobs) =>
      forall id | id in Next(lib, o, c).apps
        ensures AppLogged(Next(lib, o, c), o.apps[id])
      {
        assert AppLogged(o, o.apps[id]);
      }
  }

  // ---------- Over all runs ----------

  ghost predicate Inv(lib: Library, o: Office) {
    Stored(lib, o) && Logged(o)
  }

  lemma {:induction false} RunKeepsInv(lib: Library, o: Office, calls: seq<Call>)
    requires Inv(lib, o) && Runnable(lib, o, calls)
    ensures Inv(lib, Run(lib, o, calls))
    decreases |calls|
  {
    hide Stored, Logged, Next, Enabled;
    if calls != [] {
      StepStored(lib, o, calls[0]);
      StepLogged(lib, o, calls[0]);
      RunKeepsInv(lib, Next(lib, o, calls[0]), calls[1..]);
    }
  }

  /** What some sequence of calls leads to. */
  ghost predicate Reachable(lib: Library, o: Office) {
    exists calls :: Runnable(lib, INITIAL, calls) && Run(lib, INITIAL, calls) == o
  }

  lemma {:induction false} RunMore(lib: Library, o: Office, calls: seq<Call>, c: Call)
    requires Runnable(lib, o, calls) && Enabled(lib, Run(lib, o, calls), c)
    ensures Runnable(lib, o, calls + [c]) && Run(lib, o, calls + [c]) == Next(lib, Run(lib, o, calls), c)
    decreases |calls|
  {
    hide Next, Enabled;
    if calls == [] {
      assert [] + [c] == [c] && [c][1..] == [];
      assert Runnable(lib, Next(lib, o, c), []);
    } else {
      assert (calls + [c])[1..] == calls[1..] + [c];
      RunMore(lib, Next(lib, o, calls[0]), calls[1..], c);
    }
  }

  lemma ReachableNext(lib: Library, o: Office, c: Call)
    requires Reachable(lib, o) && Enabled(lib, o, c)
    ensures Reachable(lib, Next(lib, o, c))
  {
    hide Next, Enabled;
    var calls :| Runnable(lib, INITIAL, calls) && Run(lib, INITIAL, calls) == o;
    RunMore(lib, INITIAL, calls, c);
  }

  lemma ApplyReachable(lib: Library, o: Office, c: Call)
    requires Reachable(lib, o) && c.Apply? && c.appId !in o.usedIds && Filename.PlainId(lib.u, c.appId)
    ensures Reachable(lib, DoApply(lib, o, c).0)
  {
    hide Reachable, DoApply;
    ReachableNext(lib, o, c);
  }

  lemma InitialReachable(lib: Library)
    ensures Reachable(lib, INITIAL)
  {
    assert Runnable(lib, INITIAL, []) && Run(lib, INITIAL, []) == INITIAL;
  }

  /**
   Every stored application's resume is in storage, byte for byte as submitted, under a key no other
   application has.
   */
  lemma ResumesStored(lib: Library, calls: seq<Call>, id: string, other: string)
    requires Runnable(lib, INITIAL, calls)
    requires id in Run(lib, INITIAL, calls).apps
    ensures var o := Run(lib, INITIAL, calls);
      && o.apps[id].resumeKey in o.objects && id in o.submitted
      && o.objects[o.apps[id].resumeKey] == o.submitted[id]
      && (other in o.apps && other != id ==> o.apps[other].resumeKey != o.apps[id].resumeKey)
  {
    hide Next, Enabled, Filename.PlainId, Filename.ResumeKey, Accounted, Logged;
    assert Inv(lib, INITIAL) by { InitialInv(lib); }
    RunKeepsInv(lib, INITIAL, calls);
    var o := Run(lib, INITIAL, calls);
    var a := o.apps[id];
    if other in o.apps && other != id {
      var b := o.apps[other];
      Filename.KeysDiffer(lib.u, a.jobId, a.id, a.resumeFilename, b.jobId, b.id, b.resumeFilename);
    }
  }

  lemma InitialInv(lib: Library)
    ensures Inv(lib, INITIAL)
  {
  }

  /**
   The events of each application form one chain: it opens once, at applied, each stage update goes on
   from where the last one led and never to the same stage, rejections are announced only when it has
   led to rejected, and it ends at the stored stage. A stored rejection reason is the one last announced.
   */
  lemma EventsReplay(lib: Library, calls: seq<Call>, id: string)
    requires Runnable(lib, INITIAL, calls)
    ensures var o := Run(lib, INITIAL, calls);
      && Chained(o.events)
      && (id in o.apps ==>
            && Replayed(o.events, id) == Some(o.apps[id].stage)
            && (o.apps[id].stage == Rejected && o.apps[id].reason.Some? ==>
                  LastRejection(o.events, id) == Some(o.apps[id].reason)))
  {
    hide Next, Enabled, Stored, Replayed, LastRejection, Chained;
    InitialInv(lib);
    RunKeepsInv(lib, INITIAL, calls);
  }

  lemma {:induction false} LastGivenIs(reasons: seq<Option<string>>)
    requires reasons != []
    ensures LastGiven(reasons) == reasons[|reasons| - 1] <==>
      reasons[|reasons| - 1].Some? || forall k :: 0 <= k < |reasons| ==> reasons[k].None?
  {
    var last := |reasons| - 1;
    if last > 0 && reasons[last].None? {
      LastGivenIs(reasons[..last]);
    }
  }

  /**
   The last announced reason of a rejected application is the last non-nil one given since it was
   rejected. So it differs from the stored reason exactly if the last update took back a reason that
   an earlier one gave: the last one gave none, and not all of them gave none.
   */
  lemma ReasonAnnouncedExactly(lib: Library, calls: seq<Call>, id: string)
    requires Runnable(lib, INITIAL, calls)
    requires id in Run(lib, INITIAL, calls).apps && Run(lib, INITIAL, calls).apps[id].stage == Rejected
    ensures var o := Run(lib, INITIAL, calls);
      var reasons := ReasonsGiven(o.updates, id);
      && reasons != []
      && LastRejection(o.events, id) == Some(LastGiven(reasons))
      && (LastRejection(o.events, id) == Some(o.apps[id].reason) <==>
            reasons[|reasons| - 1].Some? || forall k :: 0 <= k < |reasons| ==> reasons[k].None?)
  {
    hide Next, Enabled, Stored, Replayed, LastRejection, Chained, ReasonsGiven, LastGiven;
    InitialInv(lib);
    RunKeepsInv(lib, INITIAL, calls);
    LastGivenIs(ReasonsGiven(Run(lib, INITIAL, calls).updates, id));
  }

  // ---------- The key and the stored file name ----------

  /**
   The last segment of the storage key is the stored file name if and only if sanitising the given
   name once settles it.
   */
  lemma KeyNamesFileExactly(lib: Library, o: Office, in_: Submission, appId: string)
    requires lib.Laws() && Admit(lib, o, in_).Ok?
    ensures var name := Admit(lib, o, in_).value;
      var prefix := "resumes/" + lib.Trimmed(in_.target) + "/" + lib.Trimmed(appId) + "/";
      && Filename.SafeName(name)
      && (NewApplication(lib, in_, appId, name).resumeKey == prefix + name <==>
            Filename.SettlesAtOnce(lib.u, in_.filename))
  {
    hide Filename.Sanitized, Filename.SettlesAtOnce, Filename.SafeName, Trim, Admit, Filename.Accepted;
    var name := Admit(lib, o, in_).value;
    AdmittedName(lib, o, in_);
    Filename.TwiceIffSettled(lib.u, in_.filename);
    Filename.AcceptedIsSafe(lib.u, in_.filename);
    var prefix := "resumes/" + lib.Trimmed(in_.target) + "/" + lib.Trimmed(appId) + "/";
    if prefix + Filename.Sanitized(lib.u, name) == prefix + name {
      Filename.SamePrefix(prefix, Filename.Sanitized(lib.u, name), name);
    }
  }

  lemma AdmittedName(lib: Library, o: Office, in_: Submission)
    requires Admit(lib, o, in_).Ok?
    ensures Admit(lib, o, in_).value == Filename.Sanitized(lib.u, in_.filename)
    ensures Filename.Accepted(lib.u, Filename.Sanitized(lib.u, in_.filename))
  {
    hide Filename.Sanitized, Filename.Ext, Filename.IsAllowedExtension, AnswerDetails;
  }
}
