/**
 The failure counters, the deactivation requests and the subscription records, each tied to the
 history, and the invariant that puts all the parts together.
 */
module WebhookCounters {
  import opened WebhookModel
  import opened WebhookInvariant
  import opened WebhookHistory

  // ---------- Failure counters ----------

  /** Failed attempts for `id` since its last delivery; a 410 is neither. */
  function Streak(log: seq<Attempt>, id: Id): nat {
    if log == [] then 0
    else
      var a, before := log[|log| - 1], Streak(log[..|log| - 1], id);
      if a.subId != id then before
      else if Succeeded(a) then 0
      else if FailedPost(a) then before + 1
      else before
  }

  function StreakAfter(before: nat, reply: Reply): nat {
    match reply
    case NoReply => before + 1
    case Status(code) => if 200 <= code <= 299 then 0 else if code == 410 then before else before + 1
  }

  ghost predicate Counted(s: State) {
    forall id :: FailureCount(s.failures, id) == Streak(s.log, id)
  }

  lemma StreakAppend(log: seq<Attempt>, a: Attempt, id: Id)
    ensures a.subId != id ==> Streak(log + [a], id) == Streak(log, id)
    ensures a.subId == id ==> Streak(log + [a], id) == StreakAfter(Streak(log, id), a.reply)
  {
    assert (log + [a])[..|log|] == log;
  }

  lemma CountAfter(failures: map<Id, nat>, subId: Id, reply: Reply, id: Id)
    ensures FailureCount(CountOutcome(failures, subId, Classify(reply)), id)
         == if id == subId then StreakAfter(FailureCount(failures, id), reply) else FailureCount(failures, id)
  {
  }

  lemma FinishCounted(cfg: Config, s: State, reply: Reply)
    requires s.worker.Posting? && Counted(s)
    ensures Counted(DoFinish(cfg, s, reply))
  {
    hide FailureCount, CountOutcome, Classify, FateOf, StreakAfter, Streak;
    var s' := DoFinish(cfg, s, reply);
    forall id
      ensures FailureCount(s'.failures, id) == Streak(s'.log, id)
    {
      assert FailureCount(s.failures, id) == Streak(s.log, id);
      CountAfter(s.failures, s.worker.task.sub.id, reply, id);
      StreakAppend(s.log, AttemptOf(s, reply), id);
      assert s'.log == s.log + [AttemptOf(s, reply)];
    }
  }

  // ---------- Deactivation requests ----------

  /** Does POST number `k` call for deactivation: a 410, or a failure that brings the streak to the threshold? */
  predicate CallsForDeactivation(cfg: Config, log: seq<Attempt>, k: nat)
    requires k < |log|
  {
    || log[k].reply == Status(410)
    || (FailedPost(log[k]) && Streak(log[..k + 1], log[k].subId) >= cfg.maxFailures)
  }

  ghost predicate RequestsExact(cfg: Config, log: seq<Attempt>, requests: seq<nat>) {
    && (forall k :: k in requests ==> k < |log| && CallsForDeactivation(cfg, log, k))
    && (forall k :: 0 <= k < |log| && CallsForDeactivation(cfg, log, k) ==> k in requests)
    && (forall i, j :: 0 <= i < j < |requests| ==> requests[i] < requests[j])
  }

  lemma CallsPrefix(cfg: Config, log: seq<Attempt>, a: Attempt, k: nat)
    requires k < |log|
    ensures CallsForDeactivation(cfg, log + [a], k) <==> CallsForDeactivation(cfg, log, k)
  {
    assert (log + [a])[..k + 1] == log[..k + 1];
  }

  lemma RequestsAppend(cfg: Config, log: seq<Attempt>, requests: seq<nat>, a: Attempt)
    requires RequestsExact(cfg, log, requests)
    ensures var calls := CallsForDeactivation(cfg, log + [a], |log|);
      RequestsExact(cfg, log + [a], if calls then requests + [|log|] else requests)
  {
    hide CallsForDeactivation;
    forall k | 0 <= k < |log|
      ensures CallsForDeactivation(cfg, log + [a], k) <==> CallsForDeactivation(cfg, log, k)
    {
      CallsPrefix(cfg, log, a, k);
    }
    assert forall i :: 0 <= i < |requests| ==> requests[i] in requests;
  }

  lemma FateDeactivates(cfg: Config, failures: map<Id, nat>, t: Task, a: Attempt)
    ensures var fate := FateOf(cfg, failures, t, Classify(a.reply));
      fate.Over? && fate.deactivate <==>
        a.reply == Status(410) || (FailedPost(a) && FailureCount(failures, t.sub.id) + 1 >= cfg.maxFailures)
  {
  }

  lemma CountedUp(before: nat, a: Attempt)
    ensures FailedPost(a) ==> StreakAfter(before, a.reply) == before + 1
  {
  }

  lemma FinishRequests(cfg: Config, s: State, reply: Reply)
    requires s.worker.Posting? && Counted(s) && RequestsExact(cfg, s.log, s.requests)
    ensures RequestsExact(cfg, DoFinish(cfg, s, reply).log, DoFinish(cfg, s, reply).requests)
  {
    hide FateOf, CountOutcome, Classify, FailureCount, Streak, StreakAfter, RequestsExact;
    var s', a := DoFinish(cfg, s, reply), AttemptOf(s, reply);
    RequestsAppend(cfg, s.log, s.requests, a);
    FateDeactivates(cfg, s.failures, s.worker.task, a);
    CountedUp(Streak(s.log, a.subId), a);
    assert FailureCount(s.failures, a.subId) == Streak(s.log, a.subId);
    StreakAppend(s.log, a, a.subId);
    assert (s.log + [a])[..|s.log| + 1] == s.log + [a];
  }

  // ---------- Subscription records ----------

  predicate SameRecord(a: Subscription, b: Subscription) {
    a.(isActive := b.isActive) == b
  }

  /** A copy of a record that was stored once: the record, if still stored, differs at most in isActive. */
  ghost predicate CopyOf(subs: map<Id, Subscription>, usedIds: set<Id>, sub: Subscription) {
    sub.id in usedIds && (sub.id in subs ==> SameRecord(subs[sub.id], sub))
  }

  ghost predicate RecordsOk(subs: map<Id, Subscription>, usedIds: set<Id>) {
    forall id :: id in subs ==> subs[id].id == id && id in usedIds
  }

  ghost predicate CopiesOk(subs: map<Id, Subscription>, usedIds: set<Id>, tickets: seq<Ticket>) {
    forall i :: 0 <= i < |tickets| ==> CopyOf(subs, usedIds, tickets[i].sub)
  }

  ghost predicate Records(s: State) {
    && RecordsOk(s.subs, s.usedIds)
    && CopiesOk(s.subs, s.usedIds, s.tickets)
    && (s.worker.Deactivating? ==> CopyOf(s.subs, s.usedIds, s.worker.sub))
  }

  lemma DeactivateRecords(s: State, stored: bool)
    requires Records(s) && s.worker.Deactivating?
    ensures Records(DoDeactivate(s, stored))
  {
    var s' := DoDeactivate(s, stored);
    forall i | 0 <= i < |s.tickets|
      ensures CopyOf(s'.subs, s.usedIds, s.tickets[i].sub)
    {
      assert CopyOf(s.subs, s.usedIds, s.tickets[i].sub);
    }
  }

  lemma FinishRecords(cfg: Config, s: State, reply: Reply)
    requires Records(s) && s.worker.Posting? && Genuine(cfg, s.tickets, s.worker.task)
    ensures Records(DoFinish(cfg, s, reply))
  {
    var s' := DoFinish(cfg, s, reply);
    assert CopyOf(s.subs, s.usedIds, s.tickets[s.worker.task.ticket].sub);
    assert s'.subs == s.subs && s'.usedIds == s.usedIds && s'.tickets == s.tickets;
    assert s'.worker.Deactivating? ==> s'.worker.sub == s.worker.task.sub;
  }

  lemma StepRecords(cfg: Config, s: State, step: Step)
    requires Enabled(cfg, s, step) && Records(s) && Consistent(cfg, s)
    ensures Records(Next(cfg, s, step))
  {
    match step
    case Finish(reply) => FinishRecords(cfg, s, reply);
    case Deactivate(stored) => DeactivateRecords(s, stored);
    case Subscribe(sub) =>
      forall i | 0 <= i < |s.tickets|
        ensures CopyOf(s.subs[sub.id := sub], s.usedIds + {sub.id}, s.tickets[i].sub)
      {
        assert CopyOf(s.subs, s.usedIds, s.tickets[i].sub);
      }
    case Unsubscribe(id) =>
      forall i | 0 <= i < |s.tickets|
        ensures CopyOf(s.subs - {id}, s.usedIds, s.tickets[i].sub)
      {
        assert CopyOf(s.subs, s.usedIds, s.tickets[i].sub);
      }
    case _ =>
  }

  // ---------- The whole invariant ----------

  ghost predicate Inv(cfg: Config, s: State) {
    && Conserved(s)
    && Consistent(cfg, s)
    && Counted(s)
    && RequestsExact(cfg, s.log, s.requests)
    && Records(s)
    && |s.queue| <= cfg.capacity
    && (s.worker.Exited? ==> s.Closing())
  }

  lemma StepCounters(cfg: Config, s: State, step: Step)
    requires Enabled(cfg, s, step) && Counted(s) && RequestsExact(cfg, s.log, s.requests)
    ensures Counted(Next(cfg, s, step))
    ensures RequestsExact(cfg, Next(cfg, s, step).log, Next(cfg, s, step).requests)
  {
    if step.Finish? {
      FinishCounted(cfg, s, step.reply);
      FinishRequests(cfg, s, step.reply);
    } else {
      var s' := Next(cfg, s, step);
      assert s'.log == s.log && s'.failures == s.failures && s'.requests == s.requests;
    }
  }

  lemma StepControl(cfg: Config, s: State, step: Step)
    requires Enabled(cfg, s, step) && |s.queue| <= cfg.capacity && (s.worker.Exited? ==> s.Closing())
    ensures |Next(cfg, s, step).queue| <= cfg.capacity
    ensures Next(cfg, s, step).worker.Exited? ==> Next(cfg, s, step).Closing()
  {
  }

  /** Every step of every goroutine keeps the invariant. */
  lemma StepKeepsInv(cfg: Config, s: State, step: Step)
    requires Enabled(cfg, s, step) && Inv(cfg, s)
    ensures Inv(cfg, Next(cfg, s, step))
  {
    StepConserves(cfg, s, step);
    StepConsistent(cfg, s, step);
    StepCounters(cfg, s, step);
    StepRecords(cfg, s, step);
    StepControl(cfg, s, step);
  }

  lemma InitialInv(cfg: Config)
    ensures Inv(cfg, INITIAL)
  {
    forall n: nat
      ensures PlacesOf(INITIAL, n) == 0
    {
      assert RetryTasks([]) == [];
    }
  }

  /** Every reachable state satisfies the invariant, whatever the interleaving. */
  lemma {:induction false} RunKeepsInv(cfg: Config, s: State, steps: seq<Step>)
    requires Runnable(cfg, s, steps) && Inv(cfg, s)
    ensures Inv(cfg, Run(cfg, s, steps))
    decreases |steps|
  {
    if steps != [] {
      StepKeepsInv(cfg, s, steps[0]);
      RunKeepsInv(cfg, Next(cfg, s, steps[0]), steps[1..]);
    }
  }
}
