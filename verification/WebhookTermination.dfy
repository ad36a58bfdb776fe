/**
 The dispatcher comes to rest. Each step of its own goroutines lowers a measure that only a new
 Dispatch call can raise, and a state in which none of them can ever move again has nothing left to do.
 */
module WebhookTermination {
  import opened WebhookModel
  import opened WebhookInvariant
  import opened WebhookHistory
  import opened WebhookCounters
  import opened WebhookTheorems

  function Remaining(cfg: Config, t: Task): nat {
    if t.attempt <= |cfg.delays| then |cfg.delays| - t.attempt else 0
  }

  /** Steps a task may still cost when it is `stage` steps away from the end of its present attempt. */
  function Cost(cfg: Config, stage: nat): Task -> nat {
    (t: Task) => 5 * Remaining(cfg, t) + stage
  }

  function RetryCost(cfg: Config, r: Retry): nat {
    Cost(cfg, if r.Sleeping? then 1 else 4)(r.task)
  }

  function RetriesCost(cfg: Config, rs: seq<Retry>): nat {
    if rs == [] then 0 else RetryCost(cfg, rs[0]) + RetriesCost(cfg, rs[1..])
  }

  function WorkerCost(cfg: Config, w: Worker): nat {
    match w
    case Posting(t, _) => 1 + Cost(cfg, 2)(t)
    case Deactivating(_) => 2
    case Idle => 1
    case Exited => 0
  }

  function Measure(cfg: Config, s: State): nat {
    Sum(s.offers, Cost(cfg, 4)) + Sum(s.queue, Cost(cfg, 3)) + RetriesCost(cfg, s.retries) + WorkerCost(cfg, s.worker)
  }

  lemma {:induction false} RetriesCostAppend(cfg: Config, a: seq<Retry>, b: seq<Retry>)
    ensures RetriesCost(cfg, a + b) == RetriesCost(cfg, a) + RetriesCost(cfg, b)
  {
    if a == [] {
      assert a + b == b;
    } else {
      assert (a + b)[1..] == a[1..] + b;
      RetriesCostAppend(cfg, a[1..], b);
    }
  }

  lemma RetriesCostAt(cfg: Config, rs: seq<Retry>, i: nat)
    requires i < |rs|
    ensures RetriesCost(cfg, rs) == RetriesCost(cfg, Without(rs, i)) + RetryCost(cfg, rs[i])
    ensures forall r :: RetriesCost(cfg, rs[i := r]) == RetriesCost(cfg, Without(rs, i)) + RetryCost(cfg, r)
  {
    RetriesCostAppend(cfg, rs[..i], rs[i + 1..]);
    forall r
      ensures RetriesCost(cfg, rs[i := r]) == RetriesCost(cfg, Without(rs, i)) + RetryCost(cfg, r)
    {
      assert rs[i := r] == rs[..i] + ([r] + rs[i + 1..]);
      RetriesCostAppend(cfg, rs[..i], [r] + rs[i + 1..]);
      RetriesCostAppend(cfg, [r], rs[i + 1..]);
    }
    assert rs[i := rs[i]] == rs;
  }

  lemma OfferCosts(cfg: Config, s: State, i: nat)
    requires i < |s.offers|
    ensures Measure(cfg, DoOffer(cfg, s, i)) < Measure(cfg, s)
  {
    SumWithout(s.offers, i, Cost(cfg, 4));
    SumAppend(s.queue, [s.offers[i]], Cost(cfg, 3));
  }

  lemma FinishCosts(cfg: Config, s: State, reply: Reply)
    requires s.worker.Posting?
    ensures Measure(cfg, DoFinish(cfg, s, reply)) < Measure(cfg, s)
  {
    hide DoFinish;
    FinishFrame(cfg, s, reply);
    FinishShape(cfg, s, reply);
    var s', t := DoFinish(cfg, s, reply), s.worker.task;
    if s'.retries != s.retries {
      var r := Sleeping(t, s.now + cfg.delays[t.attempt]);
      assert s'.retries == s.retries + [r];
      RetriesCostAppend(cfg, s.retries, [r]);
      assert RetriesCost(cfg, [r]) == RetryCost(cfg, r);
      assert s'.worker == Idle;
    }
  }

  lemma FireCosts(cfg: Config, s: State, i: nat)
    requires i < |s.retries| && s.retries[i].Sleeping? && s.retries[i].task.attempt < |cfg.delays|
    ensures Measure(cfg, DoFire(s, i)) < Measure(cfg, s)
  {
    RetriesCostAt(cfg, s.retries, i);
    var t := s.retries[i].task;
    assert RetryCost(cfg, Pushing(t.(attempt := t.attempt + 1))) < RetryCost(cfg, s.retries[i]);
  }

  lemma PushCosts(cfg: Config, s: State, i: nat)
    requires i < |s.retries| && s.retries[i].Pushing?
    ensures Measure(cfg, DoPush(s, i)) < Measure(cfg, s)
  {
    RetriesCostAt(cfg, s.retries, i);
    SumAppend(s.queue, [s.retries[i].task], Cost(cfg, 3));
  }

  lemma QuitCosts(cfg: Config, s: State, i: nat)
    requires i < |s.retries|
    ensures Measure(cfg, DoQuit(s, i)) < Measure(cfg, s)
  {
    RetriesCostAt(cfg, s.retries, i);
  }

  lemma TakeCosts(cfg: Config, s: State)
    requires s.queue != [] && s.worker.Idle?
    ensures Measure(cfg, DoTake(s)) < Measure(cfg, s)
  {
    assert Sum(s.queue, Cost(cfg, 3)) == Cost(cfg, 3)(s.queue[0]) + Sum(s.queue[1..], Cost(cfg, 3));
  }

  /** Every step of a goroutine of the dispatcher lowers the measure. */
  lemma WorkLowersMeasure(cfg: Config, s: State, step: Step)
    requires Enabled(cfg, s, step) && Inv(cfg, s) && step.IsWork()
    ensures Measure(cfg, Next(cfg, s, step)) < Measure(cfg, s)
  {
    match step
    case Offer(i) => OfferCosts(cfg, s, i);
    case Take => TakeCosts(cfg, s);
    case Finish(reply) => FinishCosts(cfg, s, reply);
    case Fire(i) =>
      assert s.retries[i] in s.retries && RetryOk(cfg, s.tickets, s.log, s.retries[i], s.now);
      FireCosts(cfg, s, i);
    case Push(i) => PushCosts(cfg, s, i);
    case Quit(i) => QuitCosts(cfg, s, i);
    case _ =>
  }

  /** What the Dispatch calls so far allow: a fixed amount for each ticket. */
  function Allowance(cfg: Config, tickets: nat): nat {
    if tickets == 0 then 0 else Allowance(cfg, tickets - 1) + 5 * |cfg.delays| + 4
  }

  lemma {:induction false} AllowanceProduct(cfg: Config, tickets: nat)
    ensures Allowance(cfg, tickets) == (5 * |cfg.delays| + 4) * tickets
  {
    if tickets > 0 {
      AllowanceProduct(cfg, tickets - 1);
    }
  }

  lemma {:induction false} FreshCost(cfg: Config, ts: seq<Task>, tickets: nat)
    requires forall t :: t in ts ==> t.attempt == 0
    ensures Sum(ts, Cost(cfg, 4)) + Allowance(cfg, tickets) == Allowance(cfg, tickets + |ts|)
  {
    if ts != [] {
      FreshCost(cfg, ts[1..], tickets);
    }
  }

  lemma PublishCosts(cfg: Config, s: State, body: string, listed: seq<Id>)
    requires forall id :: id in listed ==> id in s.subs
    ensures var s' := DoPublish(s, body, listed);
      Measure(cfg, s') + Allowance(cfg, |s.tickets|) == Measure(cfg, s) + Allowance(cfg, |s'.tickets|)
  {
    var s' := DoPublish(s, body, listed);
    var added := s'.offers[|s.offers|..];
    assert s'.offers == s.offers + added;
    SumAppend(s.offers, added, Cost(cfg, 4));
    FreshCost(cfg, added, |s.tickets|);
  }

  /** The environment raises the measure by exactly the allowance of the new tickets. */
  lemma OthersRaiseMeasure(cfg: Config, s: State, step: Step)
    requires Enabled(cfg, s, step) && !step.IsWork()
    ensures Measure(cfg, Next(cfg, s, step)) + Allowance(cfg, |s.tickets|)
         == Measure(cfg, s) + Allowance(cfg, |Next(cfg, s, step).tickets|)
  {
    hide DoPublish, DoOffer, DoTake, DoFinish, DoDeactivate, DoFire, DoPush, DoQuit, Sum, RetriesCost, Allowance;
    if step.Publish? {
      PublishCosts(cfg, s, step.body, step.listed);
    }
  }

  function WorkSteps(steps: seq<Step>): nat {
    if steps == [] then 0 else (if steps[0].IsWork() then 1 else 0) + WorkSteps(steps[1..])
  }

  lemma StepWork(cfg: Config, s: State, step: Step)
    requires Enabled(cfg, s, step) && Inv(cfg, s)
    ensures var s' := Next(cfg, s, step);
      (if step.IsWork() then 1 else 0) + Measure(cfg, s') + Allowance(cfg, |s.tickets|)
      <= Measure(cfg, s) + Allowance(cfg, |s'.tickets|)
  {
    if step.IsWork() {
      WorkLowersMeasure(cfg, s, step);
      assert Next(cfg, s, step).tickets == s.tickets;
    } else {
      OthersRaiseMeasure(cfg, s, step);
    }
  }

  lemma {:induction false} RunWork(cfg: Config, s: State, steps: seq<Step>)
    requires Runnable(cfg, s, steps) && Inv(cfg, s)
    ensures WorkSteps(steps) + Measure(cfg, Run(cfg, s, steps)) + Allowance(cfg, |s.tickets|)
         <= Measure(cfg, s) + Allowance(cfg, |Run(cfg, s, steps).tickets|)
    decreases |steps|
  {
    if steps != [] {
      StepKeepsInv(cfg, s, steps[0]);
      StepWork(cfg, s, steps[0]);
      RunWork(cfg, Next(cfg, s, steps[0]), steps[1..]);
    }
  }

  /**
   Bounded work: over any run from the start, the goroutines of the dispatcher take at most a fixed
   number of steps for each ticket, and one for the worker's return.
   */
  lemma WorkBounded(cfg: Config, steps: seq<Step>)
    requires Runnable(cfg, INITIAL, steps)
    ensures WorkSteps(steps) <= (5 * |cfg.delays| + 4) * |Run(cfg, INITIAL, steps).tickets| + 1
  {
    InitialInv(cfg);
    RunWork(cfg, INITIAL, steps);
    AllowanceProduct(cfg, |Run(cfg, INITIAL, steps).tickets|);
  }

  /** No goroutine of the dispatcher can move, now or at any later time. */
  ghost predicate Stuck(cfg: Config, s: State) {
    forall step: Step, to: real :: step.IsWork() && s.now <= to ==> !Enabled(cfg, s.(now := to), step)
  }

  /**
   At rest everything has ended. With the dispatcher running, nothing is left anywhere and every
   ticket has ended; after a shutdown only tasks still queued when the worker returned are left.
   */
  lemma AtRestAllEnded(cfg: Config, s: State, n: nat)
    requires Reachable(cfg, s) && cfg.Valid() && Stuck(cfg, s)
    ensures s.offers == [] && s.retries == []
    ensures if s.Closing() then s.worker.Exited? else s.worker.Idle? && s.queue == []
    ensures n < |s.tickets| ==> n in s.ended || (s.Closing() && exists t :: t in s.queue && t.ticket == n)
  {
    ReachableInv(cfg, s);
    assert s.(now := s.now) == s;
    assert !Enabled(cfg, s, Offer(0));
    assert !Enabled(cfg, s, WorkerExit);
    assert !Enabled(cfg, s, Take);
    assert !Enabled(cfg, s, Finish(NoReply));
    assert !Enabled(cfg, s, Deactivate(true));
    if s.retries != [] {
      RetryCanMove(cfg, s);
    }
    assert RetryTasks([]) == [];
    assert PlacesOf(s, n) == if n < |s.tickets| then 1 else 0;
    if n < |s.tickets| && n !in s.ended {
      SumWitness(s.queue, n);
    }
  }

  lemma RetryCanMove(cfg: Config, s: State)
    requires s.retries != [] && cfg.Valid() && Inv(cfg, s)
    requires s.worker.Exited? || (s.worker.Idle? && s.queue == [])
    ensures !Stuck(cfg, s)
  {
    if s.worker.Exited? {
      assert Enabled(cfg, s.(now := s.now), Quit(0));
      assert Quit(0).IsWork();
    } else if s.retries[0].Pushing? {
      assert Enabled(cfg, s.(now := s.now), Push(0));
      assert Push(0).IsWork();
    } else {
      var to := if s.retries[0].due <= s.now then s.now else s.retries[0].due;
      assert Enabled(cfg, s.(now := to), Fire(0));
      assert Fire(0).IsWork();
    }
  }

  lemma {:induction false} SumWitness(ts: seq<Task>, n: nat)
    requires Sum(ts, TicketIs(n)) > 0
    ensures exists t :: t in ts && t.ticket == n
  {
    if ts[0].ticket == n {
      assert ts[0] in ts;
    } else {
      SumWitness(ts[1..], n);
      var t :| t in ts[1..] && t.ticket == n;
      assert t in ts;
    }
  }

  lemma ReturnedIsFinal(cfg: Config, s: State, step: Step)
    requires Enabled(cfg, s, step) && s.worker.Exited?
    ensures var s' := Next(cfg, s, step);
      s'.worker.Exited? && s'.log == s.log && s'.failures == s.failures && s'.requests == s.requests
  {
    hide Next;
    assert !step.Take? && !step.Finish? && !step.Deactivate? && !step.WorkerExit?;
    OthersLeaveWorker(cfg, s, step);
  }

  lemma OthersLeaveWorker(cfg: Config, s: State, step: Step)
    requires Enabled(cfg, s, step)
    requires !step.Take? && !step.Finish? && !step.Deactivate? && !step.WorkerExit?
    ensures var s' := Next(cfg, s, step);
      s'.worker == s.worker && s'.log == s.log && s'.failures == s.failures && s'.requests == s.requests
  {
    hide DoFinish, DoTake, DoDeactivate, Enabled;
  }

  /**
   Once the worker has returned, which is what Stop waits for, no run makes another POST, counts another
   failure or asks for another deactivation, whatever is dispatched meanwhile.
   */
  lemma {:induction false} NothingAfterReturn(cfg: Config, s: State, steps: seq<Step>)
    requires Runnable(cfg, s, steps) && s.worker.Exited?
    ensures var s' := Run(cfg, s, steps);
      s'.worker.Exited? && s'.log == s.log && s'.failures == s.failures && s'.requests == s.requests
    decreases |steps|
  {
    hide Next, Enabled;
    if steps != [] {
      ReturnedIsFinal(cfg, s, steps[0]);
      NothingAfterReturn(cfg, Next(cfg, s, steps[0]), steps[1..]);
    }
  }
}
