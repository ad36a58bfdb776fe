/**
 What every step of the dispatcher keeps. First a flow equation: whatever is summed over the live
 tasks, a step changes the sum only by the tasks that enter and leave in it. Then three invariants:
 tickets are conserved, tasks agree with the history of attempts, and the failure counters
 summarise that history.
 */
module WebhookInvariant {
  import opened WebhookModel

  // ---------- Sums over tasks ----------

  function Sum(ts: seq<Task>, f: Task -> nat): nat {
    if ts == [] then 0 else f(ts[0]) + Sum(ts[1..], f)
  }

  lemma {:induction false} SumAppend(a: seq<Task>, b: seq<Task>, f: Task -> nat)
    ensures Sum(a + b, f) == Sum(a, f) + Sum(b, f)
  {
    if a == [] {
      assert a + b == b;
    } else {
      assert (a + b)[1..] == a[1..] + b;
      SumAppend(a[1..], b, f);
    }
  }

  lemma {:induction false} SumWithout(ts: seq<Task>, i: nat, f: Task -> nat)
    requires i < |ts|
    ensures Sum(ts, f) == Sum(Without(ts, i), f) + f(ts[i])
  {
    if i == 0 {
      assert Without(ts, 0) == ts[1..];
    } else {
      assert Without(ts, i)[0] == ts[0] && Without(ts, i)[1..] == Without(ts[1..], i - 1);
      SumWithout(ts[1..], i - 1, f);
    }
  }

  lemma SumSingle(t: Task, f: Task -> nat)
    ensures Sum([t], f) == f(t) && Sum([], f) == 0
  {
    assert [t][1..] == [];
  }

  lemma SumMember(ts: seq<Task>, t: Task, f: Task -> nat)
    requires t in ts
    ensures Sum(ts, f) >= f(t)
  {
    var k :| 0 <= k < |ts| && ts[k] == t;
    SumWithout(ts, k, f);
  }

  function RetryTasks(rs: seq<Retry>): (ts: seq<Task>)
    ensures |ts| == |rs| && forall k :: 0 <= k < |rs| ==> ts[k] == rs[k].task
  {
    seq(|rs|, k requires 0 <= k < |rs| => rs[k].task)
  }

  function WorkerTasks(w: Worker): seq<Task> {
    if w.Posting? then [w.task] else []
  }

  /** The sum over every task that some goroutine or the queue holds. */
  function Total(s: State, f: Task -> nat): nat {
    Sum(s.offers, f) + Sum(s.queue, f) + Sum(RetryTasks(s.retries), f) + Sum(WorkerTasks(s.worker), f)
  }

  /** The tasks a step lets in and the tasks that come to an end in it. */
  function Entering(s: State, step: Step): seq<Task>
    requires step.Publish? ==> Lists(s.subs, step.event, step.listed)
  {
    if step.Publish? then DoPublish(s, step.body, step.listed).offers[|s.offers|..] else []
  }

  function Leaving(cfg: Config, s: State, step: Step): seq<Task>
    requires Enabled(cfg, s, step)
  {
    match step
    case Offer(i) => if |s.queue| < cfg.capacity then [] else [s.offers[i]]
    case Finish(reply) => if |DoFinish(cfg, s, reply).retries| > |s.retries| then [] else [s.worker.task]
    case Quit(i) => [s.retries[i].task]
    case _ => []
  }

  /** `f` does not look at the attempt number, the one field a retry changes. */
  ghost predicate AttemptBlind(f: Task -> nat) {
    forall t: Task, a: nat :: f(t.(attempt := a)) == f(t)
  }

  lemma {:induction false} SumAgrees(a: seq<Task>, b: seq<Task>, f: Task -> nat)
    requires |a| == |b| && forall k :: 0 <= k < |a| ==> f(a[k]) == f(b[k])
    ensures Sum(a, f) == Sum(b, f)
  {
    if a != [] {
      SumAgrees(a[1..], b[1..], f);
    }
  }

  lemma RetrySumWithout(rs: seq<Retry>, i: nat, f: Task -> nat)
    requires i < |rs|
    ensures Sum(RetryTasks(rs), f) == Sum(RetryTasks(Without(rs, i)), f) + f(rs[i].task)
  {
    SumWithout(RetryTasks(rs), i, f);
    assert RetryTasks(Without(rs, i)) == Without(RetryTasks(rs), i);
  }

  lemma PublishFlow(s: State, body: string, listed: seq<Id>, f: Task -> nat)
    requires forall id :: id in listed ==> id in s.subs
    ensures Total(DoPublish(s, body, listed), f)
         == Total(s, f) + Sum(DoPublish(s, body, listed).offers[|s.offers|..], f)
  {
    var all := DoPublish(s, body, listed).offers;
    assert all == s.offers + all[|s.offers|..];
    SumAppend(s.offers, all[|s.offers|..], f);
  }

  lemma OfferFlow(cfg: Config, s: State, i: nat, f: Task -> nat)
    requires i < |s.offers|
    ensures Total(DoOffer(cfg, s, i), f) + (if |s.queue| < cfg.capacity then 0 else f(s.offers[i])) == Total(s, f)
  {
    SumWithout(s.offers, i, f);
    SumAppend(s.queue, [s.offers[i]], f);
  }

  lemma TakeFlow(s: State, f: Task -> nat)
    requires s.queue != [] && s.worker.Idle?
    ensures Total(DoTake(s), f) == Total(s, f)
  {
    assert WorkerTasks(DoTake(s).worker) == [s.queue[0]] && WorkerTasks(s.worker) == [];
    SumSingle(s.queue[0], f);
  }

  /** All that the end of an attempt leaves alone, and the entry it logs. */
  lemma FinishFrame(cfg: Config, s: State, reply: Reply)
    requires s.worker.Posting?
    ensures var s' := DoFinish(cfg, s, reply);
      && s'.offers == s.offers && s'.queue == s.queue && s'.tickets == s.tickets && s'.now == s.now
      && s'.subs == s.subs && s'.usedIds == s.usedIds && s'.stopped == s.stopped && s'.cancelled == s.cancelled
      && s'.log == s.log + [AttemptOf(s, reply)]
  {
  }

  /** The end of an attempt either leaves one more retry goroutine or ends the ticket. */
  lemma FinishShape(cfg: Config, s: State, reply: Reply)
    requires s.worker.Posting?
    ensures var s', t := DoFinish(cfg, s, reply), s.worker.task;
      && s'.worker in {Idle, Deactivating(t.sub)}
      && if |s'.retries| > |s.retries| then
           && Classify(reply) == Failed && t.attempt < |cfg.delays|
           && FailureCount(s.failures, t.sub.id) + 1 < cfg.maxFailures
           && s'.retries == s.retries + [Sleeping(t, s.now + cfg.delays[t.attempt])]
           && s'.ended == s.ended && s'.worker == Idle
         else
           s'.retries == s.retries && s'.ended.Keys == s.ended.Keys + {t.ticket}
  {
  }

  lemma FinishFlow(cfg: Config, s: State, reply: Reply, f: Task -> nat)
    requires s.worker.Posting?
    ensures var s' := DoFinish(cfg, s, reply);
      Total(s', f) + (if |s'.retries| > |s.retries| then 0 else f(s.worker.task)) == Total(s, f)
  {
    hide DoFinish;
    FinishFrame(cfg, s, reply);
    FinishShape(cfg, s, reply);
    var s', t := DoFinish(cfg, s, reply), s.worker.task;
    SumSingle(t, f);
    assert WorkerTasks(s.worker) == [t] && WorkerTasks(s'.worker) == [];
    if |s'.retries| > |s.retries| {
      assert RetryTasks(s'.retries) == RetryTasks(s.retries) + [t];
      SumAppend(RetryTasks(s.retries), [t], f);
    }
  }

  lemma FireFlow(s: State, i: nat, f: Task -> nat)
    requires i < |s.retries| && AttemptBlind(f)
    ensures Total(DoFire(s, i), f) == Total(s, f)
  {
    SumAgrees(RetryTasks(DoFire(s, i).retries), RetryTasks(s.retries), f);
  }

  lemma PushFlow(s: State, i: nat, f: Task -> nat)
    requires i < |s.retries|
    ensures Total(DoPush(s, i), f) == Total(s, f)
  {
    RetrySumWithout(s.retries, i, f);
    SumAppend(s.queue, [s.retries[i].task], f);
  }

  lemma QuitFlow(s: State, i: nat, f: Task -> nat)
    requires i < |s.retries|
    ensures Total(DoQuit(s, i), f) + f(s.retries[i].task) == Total(s, f)
  {
    RetrySumWithout(s.retries, i, f);
  }

  /** The flow equation, for every quantity that a retry does not change. */
  lemma StepFlow(cfg: Config, s: State, step: Step, f: Task -> nat)
    requires Enabled(cfg, s, step) && AttemptBlind(f)
    ensures Total(Next(cfg, s, step), f) + Sum(Leaving(cfg, s, step), f) == Total(s, f) + Sum(Entering(s, step), f)
  {
    hide DoPublish, DoOffer, DoTake, DoFinish, DoFire, DoPush, DoQuit;
    match step
    case Publish(_, body, listed) => PublishFlow(s, body, listed, f);
    case Offer(i) => OfferFlow(cfg, s, i, f);
    case Take => TakeFlow(s, f);
    case Finish(reply) => FinishFlow(cfg, s, reply, f);
    case Fire(i) => FireFlow(s, i, f);
    case Push(i) => PushFlow(s, i, f);
    case Quit(i) => QuitFlow(s, i, f);
    case _ =>
  }

  // ---------- Conservation of tickets ----------

  function TicketIs(n: nat): Task -> nat {
    (t: Task) => if t.ticket == n then 1 else 0
  }

  /** In how many places ticket `n` is: live somewhere, or ended. */
  function PlacesOf(s: State, n: nat): nat {
    Total(s, TicketIs(n)) + if n in s.ended then 1 else 0
  }

  ghost predicate Conserved(s: State) {
    forall n: nat :: PlacesOf(s, n) == if n < |s.tickets| then 1 else 0
  }

  lemma {:induction false} SumRange(ts: seq<Task>, from: nat, n: nat)
    requires forall k :: 0 <= k < |ts| ==> ts[k].ticket == from + k
    ensures Sum(ts, TicketIs(n)) == if from <= n < from + |ts| then 1 else 0
  {
    if ts != [] {
      SumRange(ts[1..], from + 1, n);
    }
  }

  lemma LeavingEnds(cfg: Config, s: State, step: Step)
    requires Enabled(cfg, s, step)
    ensures |Leaving(cfg, s, step)| <= 1
    ensures Next(cfg, s, step).ended.Keys
         == s.ended.Keys + (if Leaving(cfg, s, step) == [] then {} else {Leaving(cfg, s, step)[0].ticket})
  {
    hide DoFinish;
    if step.Finish? {
      FinishShape(cfg, s, step.reply);
    }
  }

  lemma LeavingIsLive(cfg: Config, s: State, step: Step, f: Task -> nat)
    requires Enabled(cfg, s, step) && Leaving(cfg, s, step) != []
    ensures Total(s, f) >= f(Leaving(cfg, s, step)[0])
  {
    hide DoFinish, Next;
    var t := Leaving(cfg, s, step)[0];
    match step
    case Offer(i) => SumMember(s.offers, t, f);
    case Finish(_) => SumMember(WorkerTasks(s.worker), t, f);
    case Quit(i) =>
      assert t == RetryTasks(s.retries)[i];
      SumMember(RetryTasks(s.retries), t, f);
  }

  lemma StepPlaces(cfg: Config, s: State, step: Step, n: nat)
    requires Enabled(cfg, s, step) && Conserved(s)
    ensures PlacesOf(Next(cfg, s, step), n) == PlacesOf(s, n) + Sum(Entering(s, step), TicketIs(n))
  {
    hide Next, Enabled;
    StepFlow(cfg, s, step, TicketIs(n));
    LeavingEnds(cfg, s, step);
    var out := Leaving(cfg, s, step);
    if out != [] {
      var m := out[0].ticket;
      LeavingIsLive(cfg, s, step, TicketIs(m));
      assert PlacesOf(s, m) <= 1;
    }
  }

  lemma EnteringTickets(cfg: Config, s: State, step: Step, n: nat)
    requires Enabled(cfg, s, step)
    ensures |s.tickets| <= |Next(cfg, s, step).tickets|
    ensures Sum(Entering(s, step), TicketIs(n)) == if |s.tickets| <= n < |Next(cfg, s, step).tickets| then 1 else 0
  {
    hide DoFinish;
    if step.Finish? {
      FinishFrame(cfg, s, step.reply);
    }
    SumRange(Entering(s, step), |s.tickets|, n);
  }

  lemma StepConserves(cfg: Config, s: State, step: Step)
    requires Enabled(cfg, s, step) && Conserved(s)
    ensures Conserved(Next(cfg, s, step))
  {
    hide Next, Enabled;
    var s' := Next(cfg, s, step);
    forall n: nat
      ensures PlacesOf(s', n) == if n < |s'.tickets| then 1 else 0
    {
      assert PlacesOf(s, n) == if n < |s.tickets| then 1 else 0;
      StepPlaces(cfg, s, step, n);
      EnteringTickets(cfg, s, step, n);
    }
  }
}
