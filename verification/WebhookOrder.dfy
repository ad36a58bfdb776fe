/**
 Who gets a delivery, and in which order deliveries are POSTed.
 */
module WebhookOrder {
  import opened WebhookModel
  import opened WebhookInvariant
  import opened WebhookHistory
  import opened WebhookCounters
  import opened WebhookTheorems

  // ---------- First in, first out ----------

  /** POST number `k` was of the task taken `k`-th. */
  predicate PostOf(a: Attempt, t: Task) {
    a.ticket == t.ticket && a.attempt == t.attempt && a.subId == t.sub.id && a.body == t.body
  }

  /** What was put into the queue is, in this order, what was taken from it and what is still in it. */
  ghost predicate InOrder(s: State) {
    && s.pushed == s.taken + s.queue
    && |s.taken| == |s.log| + (if s.worker.Posting? then 1 else 0)
    && (forall k :: 0 <= k < |s.log| ==> PostOf(s.log[k], s.taken[k]))
    && (s.worker.Posting? ==> s.taken[|s.taken| - 1] == s.worker.task)
  }

  lemma QueueGrows(s: State, s': State, t: Task)
    requires InOrder(s)
    requires s' == s.(queue := s.queue + [t], pushed := s.pushed + [t], offers := s'.offers, retries := s'.retries)
    ensures InOrder(s')
  {
    assert (s.taken + s.queue) + [t] == s.taken + (s.queue + [t]);
  }

  lemma TakeInOrder(s: State)
    requires InOrder(s) && s.worker.Idle? && s.queue != []
    ensures InOrder(DoTake(s))
  {
    var t := s.queue[0];
    assert s.queue == [t] + s.queue[1..];
    assert s.taken + s.queue == (s.taken + [t]) + s.queue[1..];
  }

  lemma FinishInOrder(cfg: Config, s: State, reply: Reply)
    requires InOrder(s) && s.worker.Posting?
    ensures InOrder(DoFinish(cfg, s, reply))
  {
    hide FateOf, CountOutcome, Classify;
    var s' := DoFinish(cfg, s, reply);
    assert s'.log == s.log + [AttemptOf(s, reply)];
    assert s'.pushed == s.pushed && s'.taken == s.taken && s'.queue == s.queue && !s'.worker.Posting?;
  }

  lemma StepInOrder(cfg: Config, s: State, step: Step)
    requires Enabled(cfg, s, step) && InOrder(s)
    ensures InOrder(Next(cfg, s, step))
  {
    hide DoFinish, DoTake, PostOf;
    match step
    case Offer(i) =>
      if |s.queue| < cfg.capacity {
        QueueGrows(s, Next(cfg, s, step), s.offers[i]);
      }
    case Take => TakeInOrder(s);
    case Finish(reply) => FinishInOrder(cfg, s, reply);
    case Push(i) => QueueGrows(s, Next(cfg, s, step), s.retries[i].task);
    case _ =>
  }

  lemma {:induction false} RunInOrder(cfg: Config, s: State, steps: seq<Step>)
    requires Runnable(cfg, s, steps) && InOrder(s)
    ensures InOrder(Run(cfg, s, steps))
    decreases |steps|
  {
    hide Next, Enabled, InOrder;
    if steps != [] {
      StepInOrder(cfg, s, steps[0]);
      RunInOrder(cfg, Next(cfg, s, steps[0]), steps[1..]);
    }
  }

  /**
   First in, first out: in every reachable state the k-th POST was of the task that was put into the
   queue k-th, the task being POSTed is the one after those, and the queue holds the rest in order.
   */
  lemma FirstInFirstOut(cfg: Config, s: State)
    requires Reachable(cfg, s)
    ensures |s.log| <= |s.pushed|
    ensures forall k :: 0 <= k < |s.log| ==>
      && s.log[k].ticket == s.pushed[k].ticket && s.log[k].attempt == s.pushed[k].attempt
      && s.log[k].subId == s.pushed[k].sub.id && s.log[k].body == s.pushed[k].body
    ensures s.worker.Posting? ==>
      |s.log| < |s.pushed| && s.pushed[|s.log|] == s.worker.task && s.pushed[|s.log| + 1..] == s.queue
    ensures !s.worker.Posting? ==> s.pushed[|s.log|..] == s.queue
  {
    hide Run, Runnable;
    var steps :| Runnable(cfg, INITIAL, steps) && Run(cfg, INITIAL, steps) == s;
    RunInOrder(cfg, INITIAL, steps);
    assert forall k :: 0 <= k < |s.log| ==> s.pushed[k] == s.taken[k];
  }

  // ---------- Who gets a delivery ----------

  /**
   A Dispatch call makes one delivery for each active subscription that lists the event or "*", and for
   no other, with the record as it is then and the body of the call.
   */
  lemma DispatchReachesExactly(cfg: Config, s: State, event: string, body: string, listed: seq<Id>, id: Id)
    requires Reachable(cfg, s) && Enabled(cfg, s, Publish(event, body, listed))
    ensures var s' := Next(cfg, s, Publish(event, body, listed));
      && s.tickets <= s'.tickets && |s'.tickets| == |s.tickets| + |listed| && s'.queue == s.queue
      && (forall k :: |s.tickets| <= k < |s'.tickets| ==> s'.tickets[k].body == body)
      && (id in s.subs && s.subs[id].isActive && (event in s.subs[id].events || "*" in s.subs[id].events) <==>
            exists k :: |s.tickets| <= k < |s'.tickets| && s'.tickets[k].sub.id == id)
      && (forall k :: |s.tickets| <= k < |s'.tickets| && s'.tickets[k].sub.id == id ==>
            id in s.subs && s'.tickets[k].sub == s.subs[id])
      && (forall j, k :: |s.tickets| <= j < k < |s'.tickets| ==> s'.tickets[j].sub.id != s'.tickets[k].sub.id)
  {
    hide Conserved, Consistent, Counted, RequestsExact;
    ReachableInv(cfg, s);
    var s', n := DoPublish(s, body, listed), |s.tickets|;
    assert forall k :: n <= k < n + |listed| ==> s'.tickets[k] == Ticket(s.subs[listed[k - n]], body);
    assert forall k :: 0 <= k < |listed| ==> listed[k] in listed;
    if id in listed {
      var i :| 0 <= i < |listed| && listed[i] == id;
      assert s'.tickets[n + i].sub.id == id;
    }
  }

  /** The deliveries it will offer are those tickets, in order, each at its first attempt. */
  lemma DispatchOffers(cfg: Config, s: State, event: string, body: string, listed: seq<Id>, k: nat)
    requires Enabled(cfg, s, Publish(event, body, listed)) && k < |listed|
    ensures var s' := Next(cfg, s, Publish(event, body, listed));
      && |s'.offers| == |s.offers| + |listed| && s.offers <= s'.offers
      && var n := |s.tickets| + k;
         s'.offers[|s.offers| + k] == Task(n, s'.tickets[n].sub, s'.tickets[n].body, 0)
  {
  }
}
