/**
 How deliveries end. The recorded end of a ticket always agrees with its last POST, and a delivery is
 dropped only at a full queue.
 */
module WebhookEnds {
  import opened WebhookModel
  import opened WebhookInvariant
  import opened WebhookHistory
  import opened WebhookCounters
  import opened WebhookTheorems

  /** The position of the last POST of ticket `n`. */
  function LastPost(log: seq<Attempt>, n: nat): (k: int)
    ensures -1 <= k < |log| && (k >= 0 ==> log[k].ticket == n)
    ensures forall j :: k < j < |log| ==> log[j].ticket != n
  {
    if log == [] then -1
    else if log[|log| - 1].ticket == n then |log| - 1
    else LastPost(log[..|log| - 1], n)
  }

  /** The last POST of ticket `n`, at position `k`, accounts for its end `e`. */
  predicate Accounts(cfg: Config, log: seq<Attempt>, k: nat, e: End)
    requires k < |log|
  {
    var a := log[k];
    var streak := Streak(log[..k + 1], a.subId);
    match e
    case Dropped => false
    case Success => Succeeded(a)
    case EndpointGone => a.reply == Status(410)
    case Threshold => FailedPost(a) && streak >= cfg.maxFailures
    case Exhausted => FailedPost(a) && streak < cfg.maxFailures && a.attempt == |cfg.delays|
    case Discarded => FailedPost(a) && streak < cfg.maxFailures
  }

  /** A dropped ticket was never POSTed; any other end follows from the last POST; discarding needs a shutdown. */
  predicate EndOk(cfg: Config, log: seq<Attempt>, closing: bool, n: nat, e: End) {
    var k := LastPost(log, n);
    && (e == Dropped <==> k == -1)
    && (k >= 0 ==> Accounts(cfg, log, k, e))
    && (e == Discarded ==> closing)
  }

  ghost predicate EndsOk(cfg: Config, s: State) {
    forall n :: n in s.ended ==> EndOk(cfg, s.log, s.Closing(), n, s.ended[n])
  }

  /** The last POST of a waiting task failed below the threshold. */
  ghost predicate WaitsForRetry(cfg: Config, log: seq<Attempt>, t: Task) {
    var k := LastPost(log, t.ticket);
    k >= 0 && Accounts(cfg, log, k, Discarded)
  }

  ghost predicate RetriesWait(cfg: Config, s: State) {
    forall r :: r in s.retries ==> WaitsForRetry(cfg, s.log, r.task)
  }

  /** Deliveries still to be offered are at their first attempt, those with a retry goroutine have failed. */
  ghost predicate Staged(cfg: Config, s: State) {
    RetriesWait(cfg, s) && forall t :: t in s.offers ==> t.attempt == 0
  }

  lemma LastPostAppend(log: seq<Attempt>, a: Attempt, n: nat)
    ensures LastPost(log + [a], n) == if a.ticket == n then |log| else LastPost(log, n)
  {
    assert (log + [a])[..|log|] == log;
  }

  lemma NeverPosted(log: seq<Attempt>, n: nat)
    requires Posts(log, n) == 0
    ensures LastPost(log, n) == -1
    decreases |log|
  {
    if log != [] {
      NeverPosted(log[..|log| - 1], n);
    }
  }

  lemma AccountsLater(cfg: Config, log: seq<Attempt>, a: Attempt, k: nat, e: End)
    requires k < |log|
    ensures Accounts(cfg, log + [a], k, e) <==> Accounts(cfg, log, k, e)
  {
    assert (log + [a])[..k + 1] == log[..k + 1];
  }

  lemma EndOkLater(cfg: Config, log: seq<Attempt>, a: Attempt, closing: bool, n: nat, e: End)
    requires EndOk(cfg, log, closing, n, e) && a.ticket != n
    ensures EndOk(cfg, log + [a], closing, n, e)
  {
    hide Accounts;
    LastPostAppend(log, a, n);
    if LastPost(log, n) >= 0 {
      AccountsLater(cfg, log, a, LastPost(log, n), e);
    }
  }

  lemma WaitsLater(cfg: Config, log: seq<Attempt>, a: Attempt, t: Task)
    requires WaitsForRetry(cfg, log, t) && a.ticket != t.ticket
    ensures WaitsForRetry(cfg, log + [a], t)
  {
    hide Accounts;
    LastPostAppend(log, a, t.ticket);
    AccountsLater(cfg, log, a, LastPost(log, t.ticket), Discarded);
  }

  /** A live ticket has not ended. */
  lemma LiveNotEnded(s: State, t: Task)
    requires Conserved(s)
    requires t in s.offers || t in RetryTasks(s.retries) || t in WorkerTasks(s.worker)
    ensures t.ticket !in s.ended
  {
    var f := TicketIs(t.ticket);
    assert PlacesOf(s, t.ticket) <= 1;
    if t in s.offers {
      SumMember(s.offers, t, f);
    } else if t in RetryTasks(s.retries) {
      SumMember(RetryTasks(s.retries), t, f);
    } else {
      SumMember(WorkerTasks(s.worker), t, f);
    }
  }

  lemma OfferEnds(cfg: Config, s: State, i: nat)
    requires Inv(cfg, s) && EndsOk(cfg, s) && Staged(cfg, s) && i < |s.offers|
    ensures EndsOk(cfg, DoOffer(cfg, s, i)) && Staged(cfg, DoOffer(cfg, s, i))
  {
    hide Accounts, Posts, Conserved, RequestsExact, Records, Counted, Preceded;
    var t := s.offers[i];
    assert t in s.offers && Ready(cfg, s.tickets, s.log, t, s.now);
    NeverPosted(s.log, t.ticket);
  }

  /** What the worker's POST settles, the failure counter agreeing with the log. */
  lemma FinishAccounts(cfg: Config, s: State, reply: Reply)
    requires Counted(s) && s.worker.Posting?
    requires s.worker.task.attempt <= |cfg.delays|
    ensures var log', t := s.log + [AttemptOf(s, reply)], s.worker.task;
      var fate := FateOf(cfg, s.failures, t, Classify(reply));
      && LastPost(log', t.ticket) == |s.log|
      && (fate.Over? ==> EndOk(cfg, log', s.Closing(), t.ticket, fate.end))
      && (fate.RetryIn? ==> WaitsForRetry(cfg, log', t))
  {
    var a, t := AttemptOf(s, reply), s.worker.task;
    LastPostAppend(s.log, a, t.ticket);
    StreakAppend(s.log, a, t.sub.id);
    assert FailureCount(s.failures, t.sub.id) == Streak(s.log, t.sub.id);
    assert (s.log + [a])[..|s.log| + 1] == s.log + [a];
  }

  lemma FinishEnds(cfg: Config, s: State, reply: Reply)
    requires Inv(cfg, s) && EndsOk(cfg, s) && RetriesWait(cfg, s) && s.worker.Posting?
    ensures EndsOk(cfg, DoFinish(cfg, s, reply)) && RetriesWait(cfg, DoFinish(cfg, s, reply))
  {
    hide FateOf, CountOutcome, EndOk, WaitsForRetry, Conserved, Classify;
    var s', a, t := DoFinish(cfg, s, reply), AttemptOf(s, reply), s.worker.task;
    FinishAccounts(cfg, s, reply);
    forall n | n in s'.ended
      ensures EndOk(cfg, s'.log, s'.Closing(), n, s'.ended[n])
    {
      if n != t.ticket {
        EndOkLater(cfg, s.log, a, s.Closing(), n, s.ended[n]);
      } else {
        LiveNotEnded(s, t);
      }
    }
    forall r | r in s'.retries
      ensures WaitsForRetry(cfg, s'.log, r.task)
    {
      if r in s.retries {
        var k :| 0 <= k < |s.retries| && s.retries[k] == r;
        assert RetryTasks(s.retries)[k] == r.task;
        WorkerAlone(s, r.task);
        WaitsLater(cfg, s.log, a, r.task);
      }
    }
  }

  lemma FireEnds(cfg: Config, s: State, i: nat)
    requires EndsOk(cfg, s) && RetriesWait(cfg, s) && i < |s.retries|
    ensures EndsOk(cfg, DoFire(s, i)) && RetriesWait(cfg, DoFire(s, i))
  {
    hide Accounts;
    assert s.retries[i] in s.retries && WaitsForRetry(cfg, s.log, s.retries[i].task);
  }

  lemma QuitEnds(cfg: Config, s: State, i: nat)
    requires EndsOk(cfg, s) && RetriesWait(cfg, s) && i < |s.retries| && s.Closing()
    ensures EndsOk(cfg, DoQuit(s, i)) && RetriesWait(cfg, DoQuit(s, i))
  {
    hide Accounts;
    assert s.retries[i] in s.retries && WaitsForRetry(cfg, s.log, s.retries[i].task);
  }

  lemma StepEnds(cfg: Config, s: State, step: Step)
    requires Inv(cfg, s) && EndsOk(cfg, s) && Staged(cfg, s) && Enabled(cfg, s, step)
    ensures EndsOk(cfg, Next(cfg, s, step)) && Staged(cfg, Next(cfg, s, step))
  {
    hide Accounts, DoFinish, Conserved, Consistent, LastPost, WaitsForRetry;
    match step
    case Offer(i) => OfferEnds(cfg, s, i);
    case Finish(reply) => FinishEnds(cfg, s, reply); FinishFrame(cfg, s, reply);
    case Fire(i) => FireEnds(cfg, s, i);
    case Quit(i) => QuitEnds(cfg, s, i);
    case _ =>
  }

  lemma {:induction false} RunEnds(cfg: Config, s: State, steps: seq<Step>)
    requires Runnable(cfg, s, steps) && Inv(cfg, s) && EndsOk(cfg, s) && Staged(cfg, s)
    ensures EndsOk(cfg, Run(cfg, s, steps))
    decreases |steps|
  {
    hide Next, Enabled, Inv, EndsOk, Staged;
    if steps != [] {
      StepKeepsInv(cfg, s, steps[0]);
      StepEnds(cfg, s, steps[0]);
      RunEnds(cfg, Next(cfg, s, steps[0]), steps[1..]);
    }
  }

  /**
   In every reachable state the end of each ended ticket is the right one: success after a delivery,
   EndpointGone after a 410, Threshold after a failure that brought the streak to the threshold, Exhausted
   after a failed last attempt below it, Discarded only in a shutdown while waiting to retry, and
   Dropped if and only if it was never POSTed.
   */
  lemma EndsTellTheTruth(cfg: Config, s: State, n: nat)
    requires Reachable(cfg, s) && n in s.ended
    ensures EndOk(cfg, s.log, s.Closing(), n, s.ended[n])
  {
    hide EndOk, Inv;
    var steps :| Runnable(cfg, INITIAL, steps) && Run(cfg, INITIAL, steps) == s;
    InitialInv(cfg);
    RunEnds(cfg, INITIAL, steps);
  }

  /** A step drops a ticket if and only if it offers it to a full queue. */
  lemma DroppedExactlyWhenFull(cfg: Config, s: State, step: Step, n: nat)
    requires Inv(cfg, s) && Enabled(cfg, s, step)
    ensures n !in s.ended && n in Next(cfg, s, step).ended && Next(cfg, s, step).ended[n] == Dropped
       <==> step.Offer? && s.offers[step.i].ticket == n && |s.queue| == cfg.capacity
  {
    hide Consistent, Conserved, RequestsExact, Records;
    if step.Offer? {
      LiveNotEnded(s, s.offers[step.i]);
    }
  }
}
