/**
 What the dispatcher promises over whole runs, from its initial state and under every interleaving
 of Dispatch calls, the worker, retry goroutines, shutdown, the clock and the subscription store.
 */
module WebhookTheorems {
  import opened WebhookModel
  import opened WebhookInvariant
  import opened WebhookHistory
  import opened WebhookCounters

  ghost predicate Reachable(cfg: Config, s: State) {
    exists steps :: Runnable(cfg, INITIAL, steps) && Run(cfg, INITIAL, steps) == s
  }

  lemma ReachableInv(cfg: Config, s: State)
    requires Reachable(cfg, s)
    ensures Inv(cfg, s)
  {
    var steps :| Runnable(cfg, INITIAL, steps) && Run(cfg, INITIAL, steps) == s;
    InitialInv(cfg);
    RunKeepsInv(cfg, INITIAL, steps);
  }

  // ---------- Safety ----------

  /** Each (Dispatch call, subscription) pair is in exactly one place, and the queue stays within its capacity. */
  lemma TicketsConserved(cfg: Config, s: State, n: nat)
    requires Reachable(cfg, s)
    ensures |s.queue| <= cfg.capacity
    ensures n < |s.tickets| ==>
      Sum(s.offers, TicketIs(n)) + Sum(s.queue, TicketIs(n)) + Sum(RetryTasks(s.retries), TicketIs(n))
      + (if s.worker.Posting? && s.worker.task.ticket == n then 1 else 0) + (if n in s.ended then 1 else 0) == 1
  {
    ReachableInv(cfg, s);
    assert PlacesOf(s, n) == if n < |s.tickets| then 1 else 0;
    assert Sum(WorkerTasks(s.worker), TicketIs(n)) == if s.worker.Posting? && s.worker.task.ticket == n then 1 else 0;
  }

  /** No task is POSTed more often than once plus once for each retry delay. */
  lemma PostsBounded(cfg: Config, s: State, n: nat)
    requires Reachable(cfg, s)
    ensures Posts(s.log, n) <= |cfg.delays| + 1
  {
    ReachableInv(cfg, s);
    LogPostsBounded(cfg, s.tickets, s.log, n);
  }

  lemma {:induction false} LogPostsBounded(cfg: Config, tickets: seq<Ticket>, log: seq<Attempt>, n: nat)
    requires Entries(cfg, tickets, log)
    ensures Posts(log, n) <= |cfg.delays| + 1
  {
    if log != [] {
      var last := |log| - 1;
      assert EntryOk(cfg, tickets, log, last);
      EntriesPrefix(cfg, tickets, log, last);
      LogPostsBounded(cfg, tickets, log[..last], n);
    }
  }

  function DelaySum(delays: seq<real>, from: nat, to: nat): real
    requires from <= to <= |delays|
  {
    if from == to then 0.0 else DelaySum(delays, from, to - 1) + delays[to - 1]
  }

  lemma {:induction false} PostsMonotone(log: seq<Attempt>, j: nat, k: nat, n: nat)
    requires j <= k <= |log|
    ensures Posts(log[..j], n) <= Posts(log[..k], n)
  {
    if j < k {
      assert log[..k][..k - 1] == log[..k - 1];
      PostsMonotone(log, j, k - 1, n);
    }
  }

  lemma AttemptsIncrease(cfg: Config, tickets: seq<Ticket>, log: seq<Attempt>, j: nat, k: nat)
    requires Entries(cfg, tickets, log) && j < k < |log| && log[j].ticket == log[k].ticket
    ensures log[j].attempt < log[k].attempt
  {
    assert EntryOk(cfg, tickets, log, j) && EntryOk(cfg, tickets, log, k);
    assert log[..j + 1][..j] == log[..j];
    PostsMonotone(log, j + 1, k, log[j].ticket);
  }

  /**
   Two POSTs of one ticket carry the same body to the same subscription, and between the end of the
   earlier and the start of the later lie all the retry delays between their attempt numbers.
   */
  lemma Backoff(cfg: Config, s: State, j: nat, k: nat)
    requires Reachable(cfg, s) && j < k < |s.log| && s.log[j].ticket == s.log[k].ticket
    ensures s.log[j].body == s.log[k].body && s.log[j].subId == s.log[k].subId
    ensures s.log[j].attempt < s.log[k].attempt <= |cfg.delays|
    ensures s.log[j].finished + DelaySum(cfg.delays, s.log[j].attempt, s.log[k].attempt) <= s.log[k].started
  {
    ReachableInv(cfg, s);
    assert EntryOk(cfg, s.tickets, s.log, j) && EntryOk(cfg, s.tickets, s.log, k);
    AttemptsIncrease(cfg, s.tickets, s.log, j, k);
    LogBackoff(cfg, s.tickets, s.log, j, k);
  }

  lemma {:induction false} LogBackoff(cfg: Config, tickets: seq<Ticket>, log: seq<Attempt>, j: nat, k: nat)
    requires Entries(cfg, tickets, log) && j < k < |log| && log[j].ticket == log[k].ticket
    requires log[j].attempt < log[k].attempt <= |cfg.delays|
    ensures log[j].finished + DelaySum(cfg.delays, log[j].attempt, log[k].attempt) <= log[k].started
    decreases k
  {
    var a, b := log[j].attempt, log[k].attempt;
    assert EntryOk(cfg, tickets, log, k);
    var i :| 0 <= i < |log[..k]| && Precedes(cfg, log[..k][i], log[k].ticket, b, log[k].started);
    if a + 1 == b {
      if i < j {
        AttemptsIncrease(cfg, tickets, log, i, j);
      } else if j < i {
        AttemptsIncrease(cfg, tickets, log, j, i);
      }
      assert DelaySum(cfg.delays, a, b) == DelaySum(cfg.delays, a, a) + cfg.delays[a];
    } else {
      if i < j {
        AttemptsIncrease(cfg, tickets, log, i, j);
      }
      LogBackoff(cfg, tickets, log, j, i);
      assert EntryOk(cfg, tickets, log, i);
    }
  }

  // ---------- Deactivation ----------

  /**
   The counters refine the history of replies, and deactivation is requested on a 410, and on any other
   failure that brings the streak to the threshold, else never.
   */
  lemma RequestsRefineHistory(cfg: Config, s: State)
    requires Reachable(cfg, s)
    ensures forall id :: FailureCount(s.failures, id) == Streak(s.log, id)
    ensures forall k: nat :: k in s.requests <==>
      && k < |s.log|
      && var reply := s.log[k].reply;
         || reply == Status(410)
         || ((reply.NoReply? || reply.code < 200 || reply.code > 299)
             && Streak(s.log[..k + 1], s.log[k].subId) >= cfg.maxFailures)
  {
    ReachableInv(cfg, s);
  }

  lemma {:induction false} StreakFrom(log: seq<Attempt>, id: Id, m: nat)
    requires 0 < m <= Streak(log, id)
    ensures exists j :: 0 <= j < |log| && Reaches(log, id, m, j)
  {
    var last := |log| - 1;
    if log[last].subId == id && FailedPost(log[last]) && Streak(log, id) == m {
      assert log[..last + 1] == log;
      assert Reaches(log, id, m, last);
    } else {
      StreakFrom(log[..last], id, m);
      var j :| 0 <= j < last && Reaches(log[..last], id, m, j);
      assert log[..last][..j + 1] == log[..j + 1];
      assert Reaches(log, id, m, j);
    }
  }

  /** POST `j` failed for `id`, brought its streak to exactly `m`, and nothing was delivered to it since. */
  ghost predicate Reaches(log: seq<Attempt>, id: Id, m: nat, j: nat)
    requires j < |log|
  {
    && log[j].subId == id && FailedPost(log[j]) && Streak(log[..j + 1], id) == m
    && forall k :: j < k < |log| && log[k].subId == id ==> !Succeeded(log[k])
  }

  /**
   Every threshold request belongs to a streak that was first asked to end at exactly the configured
   count: either POST `k` itself has that count, or an earlier POST of the same streak had it.
   */
  lemma FirstRequestAtThreshold(cfg: Config, s: State, k: nat)
    requires Reachable(cfg, s) && cfg.Valid()
    requires k < |s.log| && k in s.requests && FailedPost(s.log[k])
    ensures exists j :: 0 <= j <= k && j in s.requests && Reaches(s.log[..k + 1], s.log[k].subId, cfg.maxFailures, j)
  {
    ReachableInv(cfg, s);
    var log, id := s.log[..k + 1], s.log[k].subId;
    StreakFrom(log, id, cfg.maxFailures);
    var j :| 0 <= j < |log| && Reaches(log, id, cfg.maxFailures, j);
    assert log[..j + 1] == s.log[..j + 1];
    assert CallsForDeactivation(cfg, s.log, j);
  }

  /** `id` is no longer a target: its record is inactive or deleted. */
  ghost predicate Muted(s: State, id: Id) {
    id in s.usedIds && (id in s.subs ==> !s.subs[id].isActive)
  }

  function SubIs(id: Id): Task -> nat {
    (t: Task) => if t.sub.id == id then 1 else 0
  }

  /** Tickets ever issued for `id`. */
  function Issued(tickets: seq<Ticket>, id: Id): nat {
    if tickets == [] then 0
    else (if tickets[|tickets| - 1].sub.id == id then 1 else 0) + Issued(tickets[..|tickets| - 1], id)
  }

  lemma {:induction false} IssuedNone(tickets: seq<Ticket>, more: seq<Ticket>, id: Id)
    requires forall t :: t in more ==> t.sub.id != id
    ensures Issued(tickets + more, id) == Issued(tickets, id)
  {
    if more == [] {
      assert tickets + more == tickets;
    } else {
      var last := |more| - 1;
      assert (tickets + more)[..|tickets| + last] == tickets + more[..last];
      IssuedNone(tickets, more[..last], id);
    }
  }

  lemma StepMuted(cfg: Config, s: State, step: Step, id: Id)
    requires Enabled(cfg, s, step) && Records(s) && Muted(s, id)
    ensures Muted(Next(cfg, s, step), id)
    ensures Issued(Next(cfg, s, step).tickets, id) == Issued(s.tickets, id)
  {
    if step.Publish? {
      var all := DoPublish(s, step.body, step.listed).tickets;
      assert all == s.tickets + all[|s.tickets|..];
      IssuedNone(s.tickets, all[|s.tickets|..], id);
    } else {
      assert Next(cfg, s, step).tickets == s.tickets;
    }
  }

  /** Once muted, always muted: no later Dispatch call makes a ticket for the subscription. */
  lemma {:induction false} MutedForever(cfg: Config, s: State, steps: seq<Step>, id: Id)
    requires Runnable(cfg, s, steps) && Inv(cfg, s) && Muted(s, id)
    ensures Muted(Run(cfg, s, steps), id)
    ensures Issued(Run(cfg, s, steps).tickets, id) == Issued(s.tickets, id)
    decreases |steps|
  {
    if steps != [] {
      StepKeepsInv(cfg, s, steps[0]);
      StepMuted(cfg, s, steps[0], id);
      MutedForever(cfg, Next(cfg, s, steps[0]), steps[1..], id);
    }
  }

  /** A deactivation that the store accepts mutes the subscription, and changes no other field of any record. */
  lemma DeactivationMutes(cfg: Config, s: State)
    requires Reachable(cfg, s) && s.worker.Deactivating?
    ensures var s', sub := Next(cfg, s, Deactivate(true)), s.worker.sub;
      && Muted(s', sub.id)
      && s'.subs.Keys == s.subs.Keys
      && (forall id :: id in s.subs ==>
            s'.subs[id] == if id == sub.id then s.subs[id].(isActive := false) else s.subs[id])
  {
    ReachableInv(cfg, s);
  }

  // ---------- Draining a failing subscription ----------

  /** POSTs made to `id`. */
  function PostsTo(log: seq<Attempt>, id: Id): nat {
    if log == [] then 0
    else PostsTo(log[..|log| - 1], id) + if log[|log| - 1].subId == id then 1 else 0
  }

  lemma PostsToAppend(log: seq<Attempt>, a: Attempt, id: Id)
    ensures PostsTo(log + [a], id) == PostsTo(log, id) + if a.subId == id then 1 else 0
  {
    assert (log + [a])[..|log|] == log;
  }

  /** Accepted tasks of `id` that have not ended: queued, in the worker, or with a retry goroutine. */
  function Held(s: State, id: Id): nat {
    Sum(s.queue, SubIs(id)) + Sum(RetryTasks(s.retries), SubIs(id)) + Sum(WorkerTasks(s.worker), SubIs(id))
  }

  /** The step puts no new task of `id` into the queue and delivers nothing to it. */
  predicate Barren(cfg: Config, s: State, step: Step, id: Id)
    requires Enabled(cfg, s, step)
  {
    match step
    case Offer(i) => s.offers[i].sub.id == id ==> |s.queue| >= cfg.capacity
    case Finish(reply) => s.worker.task.sub.id == id ==> reply.NoReply? || reply.code < 200 || reply.code > 299
    case _ => true
  }

  predicate BarrenRun(cfg: Config, s: State, steps: seq<Step>, id: Id)
    requires Runnable(cfg, s, steps)
    decreases |steps|
  {
    steps != [] ==> Barren(cfg, s, steps[0], id) && BarrenRun(cfg, Next(cfg, s, steps[0]), steps[1..], id)
  }

  /** At the threshold every attempt ends its task: no branch schedules a retry. */
  lemma NoRetryAtThreshold(cfg: Config, s: State, reply: Reply)
    requires s.worker.Posting? && Counted(s)
    requires Streak(s.log, s.worker.task.sub.id) >= cfg.maxFailures
    ensures DoFinish(cfg, s, reply).retries == s.retries
  {
    assert FailureCount(s.failures, s.worker.task.sub.id) == Streak(s.log, s.worker.task.sub.id);
  }

  lemma FinishDrains(cfg: Config, s: State, reply: Reply, id: Id)
    requires s.worker.Posting? && Counted(s) && Streak(s.log, id) >= cfg.maxFailures
    requires s.worker.task.sub.id == id ==> reply.NoReply? || reply.code < 200 || reply.code > 299
    ensures var s' := DoFinish(cfg, s, reply);
      && PostsTo(s'.log, id) + Held(s', id) <= PostsTo(s.log, id) + Held(s, id)
      && Streak(s'.log, id) >= cfg.maxFailures
  {
    hide DoFinish;
    var a := AttemptOf(s, reply);
    FinishFlow(cfg, s, reply, SubIs(id));
    FinishFrame(cfg, s, reply);
    if a.subId == id {
      NoRetryAtThreshold(cfg, s, reply);
    }
    PostsToAppend(s.log, a, id);
    StreakAppend(s.log, a, id);
  }

  /** Held counts every live task of `id` but those still to be offered. */
  lemma HeldFlow(cfg: Config, s: State, step: Step, id: Id)
    requires Enabled(cfg, s, step) && !step.Finish? && Barren(cfg, s, step, id)
    ensures Held(Next(cfg, s, step), id) <= Held(s, id)
  {
    hide DoPublish, DoTake, DoFinish, DoFire, DoPush, DoQuit, Sum;
    match step
    case Publish(_, body, listed) => PublishHolds(s, body, listed);
    case Offer(i) => OfferHolds(cfg, s, i, id);
    case Take => TakeFlow(s, SubIs(id)); OffersKept(cfg, s, step);
    case Fire(i) => FireFlow(s, i, SubIs(id)); OffersKept(cfg, s, step);
    case Push(i) => PushFlow(s, i, SubIs(id)); OffersKept(cfg, s, step);
    case Quit(i) => QuitFlow(s, i, SubIs(id)); OffersKept(cfg, s, step);
    case _ =>
  }

  lemma PublishHolds(s: State, body: string, listed: seq<Id>)
    requires forall id :: id in listed ==> id in s.subs
    ensures forall id :: Held(DoPublish(s, body, listed), id) == Held(s, id)
  {
  }

  lemma OfferHolds(cfg: Config, s: State, i: nat, id: Id)
    requires i < |s.offers| && (s.offers[i].sub.id == id ==> |s.queue| >= cfg.capacity)
    ensures Held(DoOffer(cfg, s, i), id) == Held(s, id)
  {
    SumAppend(s.queue, [s.offers[i]], SubIs(id));
  }

  lemma OffersKept(cfg: Config, s: State, step: Step)
    requires Enabled(cfg, s, step) && !step.Publish? && !step.Offer?
    ensures Next(cfg, s, step).offers == s.offers
  {
    hide DoPublish, DoOffer;
  }

  lemma StepDrains(cfg: Config, s: State, step: Step, id: Id)
    requires Enabled(cfg, s, step) && Counted(s) && Streak(s.log, id) >= cfg.maxFailures
    requires Barren(cfg, s, step, id)
    ensures PostsTo(Next(cfg, s, step).log, id) + Held(Next(cfg, s, step), id) <= PostsTo(s.log, id) + Held(s, id)
    ensures Streak(Next(cfg, s, step).log, id) >= cfg.maxFailures
  {
    if step.Finish? {
      FinishDrains(cfg, s, step.reply, id);
    } else {
      HeldFlow(cfg, s, step, id);
      LogKept(cfg, s, step);
    }
  }

  lemma LogKept(cfg: Config, s: State, step: Step)
    requires Enabled(cfg, s, step) && !step.Finish?
    ensures Next(cfg, s, step).log == s.log
  {
    hide DoFinish;
  }

  /**
   From the moment the failure count is at the threshold, and as long as nothing is delivered to the
   subscription and no new task of it is accepted, it gets at most as many further POSTs as it has
   tasks queued, in the worker or awaiting retry at that moment.
   */
  lemma {:induction false} ThresholdDrains(cfg: Config, s: State, steps: seq<Step>, id: Id)
    requires Runnable(cfg, s, steps) && Inv(cfg, s) && FailureCount(s.failures, id) >= cfg.maxFailures
    requires BarrenRun(cfg, s, steps, id)
    ensures PostsTo(Run(cfg, s, steps).log, id) + Held(Run(cfg, s, steps), id) <= PostsTo(s.log, id) + Held(s, id)
    decreases |steps|
  {
    if steps != [] {
      StepDrains(cfg, s, steps[0], id);
      StepKeepsInv(cfg, s, steps[0]);
      assert FailureCount(Next(cfg, s, steps[0]).failures, id) == Streak(Next(cfg, s, steps[0]).log, id);
      ThresholdDrains(cfg, Next(cfg, s, steps[0]), steps[1..], id);
    }
  }
}
