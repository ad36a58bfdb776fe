/**
 The dispatcher itself: fields updated in place by its methods. Each method is one goroutine running
 without interruption, and its contract says which run of the state machine that is.
 */
module WebhookDispatcher {
  import opened WebhookModel
  import opened WebhookReplies
  import opened WebhookTheorems
  import opened Wrappers

  const DEFAULT_DELAYS: seq<real> := [30.0, 300.0, 1800.0]
  const DEFAULT_CAPACITY := 1024
  const DEFAULT_MAX_FAILURES := 50

  lemma {:induction false} RunAppend(cfg: Config, s: State, a: seq<Step>, b: seq<Step>)
    requires Runnable(cfg, s, a) && Runnable(cfg, Run(cfg, s, a), b)
    ensures Runnable(cfg, s, a + b) && Run(cfg, s, a + b) == Run(cfg, Run(cfg, s, a), b)
    decreases |a|
  {
    if a == [] {
      assert a + b == b;
    } else {
      assert (a + b)[1..] == a[1..] + b;
      RunAppend(cfg, Next(cfg, s, a[0]), a[1..], b);
    }
  }

  lemma RunOneMore(cfg: Config, s: State, a: seq<Step>, step: Step)
    requires Runnable(cfg, s, a) && Enabled(cfg, Run(cfg, s, a), step)
    ensures Runnable(cfg, s, a + [step]) && Run(cfg, s, a + [step]) == Next(cfg, Run(cfg, s, a), step)
  {
    var t := Run(cfg, s, a);
    assert [step][1..] == [];
    assert Runnable(cfg, Next(cfg, t, step), []) && Run(cfg, Next(cfg, t, step), []) == Next(cfg, t, step);
    RunAppend(cfg, s, a, [step]);
  }

  lemma ReachableRun(cfg: Config, s: State, steps: seq<Step>)
    requires Reachable(cfg, s) && Runnable(cfg, s, steps)
    ensures Reachable(cfg, Run(cfg, s, steps))
  {
    hide Runnable, Run;
    var before :| Runnable(cfg, INITIAL, before) && Run(cfg, INITIAL, before) == s;
    RunAppend(cfg, INITIAL, before, steps);
  }

  lemma ReachableNext(cfg: Config, s: State, step: Step)
    requires Reachable(cfg, s) && Enabled(cfg, s, step)
    ensures Reachable(cfg, Next(cfg, s, step))
  {
    hide Next, Enabled;
    assert [step][1..] == [];
    assert Runnable(cfg, Next(cfg, s, step), []);
    assert Runnable(cfg, s, [step]) && Run(cfg, s, [step]) == Next(cfg, s, step);
    ReachableRun(cfg, s, [step]);
  }

  lemma InitialReachable(cfg: Config)
    ensures Reachable(cfg, INITIAL)
  {
    assert Runnable(cfg, INITIAL, []) && Run(cfg, INITIAL, []) == INITIAL;
  }

  /** An uninterrupted Dispatch call: list, then offer each task in turn, `at` calls being in flight already. */
  function DispatchRun(event: string, body: string, listed: seq<Id>, at: nat, offered: nat): seq<Step> {
    [Publish(event, body, listed)] + seq(offered, _ => Offer(at))
  }

  lemma RunPublish(cfg: Config, s: State, event: string, body: string, listed: seq<Id>)
    requires Lists(s.subs, event, listed)
    ensures Runnable(cfg, s, DispatchRun(event, body, listed, |s.offers|, 0))
    ensures Run(cfg, s, DispatchRun(event, body, listed, |s.offers|, 0)) == DoPublish(s, body, listed)
  {
    assert DispatchRun(event, body, listed, |s.offers|, 0) == [Publish(event, body, listed)];
    RunOneMore(cfg, s, [], Publish(event, body, listed));
  }

  /** Offering the first of `rest`, behind the calls in flight. */
  lemma OfferFirst(cfg: Config, s: State, base: seq<Task>, rest: seq<Task>)
    requires s.offers == base + rest && rest != []
    ensures Enabled(cfg, s, Offer(|base|))
    ensures var t, s1 := rest[0], s.(offers := base + rest[1..]);
      Next(cfg, s, Offer(|base|))
      == if |s.queue| < cfg.capacity then s1.(queue := s.queue + [t], pushed := s.pushed + [t])
         else s1.(ended := s.ended[t.ticket := Dropped])
  {
    assert Without(s.offers, |base|) == base + rest[1..];
  }

  class Dispatcher {
    const cfg: Config
    var queue: seq<Task>
    var failures: map<Id, nat>
    var stopped: bool
    var cancelled: bool
    // goroutines
    var offers: seq<Task>
    var retries: seq<Retry>
    var worker: Worker
    // the subscription store and the clock
    var subs: map<Id, Subscription>
    var now: real
    // history
    ghost var usedIds: set<Id>
    ghost var tickets: seq<Ticket>
    ghost var ended: map<nat, End>
    ghost var log: seq<Attempt>
    ghost var requests: seq<nat>
    ghost var pushed: seq<Task>
    ghost var taken: seq<Task>
    var issued: nat

    /** What holds even in the middle of a Dispatch call. */
    ghost predicate Wired()
      reads this
    {
      cfg.Valid() && issued == |tickets|
    }

    /** The dispatcher is in a state that a run of the machine leads to. */
    ghost predicate Valid()
      reads this
    {
      Wired() && Reachable(cfg, View())
    }

    ghost function View(): State
      reads this
    {
      State(subs, offers, queue, retries, worker, failures, stopped, cancelled, now,
            usedIds, tickets, ended, log, requests, pushed, taken)
    }

    /** NewDispatcher: an absent delay list and non-positive limits are replaced by the defaults. */
    constructor (delays: Option<seq<real>>, capacity: int, maxFailures: int)
      ensures Valid() && View() == INITIAL
      ensures cfg.delays == if delays.Some? then delays.value else [30.0, 300.0, 1800.0]
      ensures cfg.capacity == if capacity > 0 then capacity else 1024
      ensures cfg.maxFailures == if maxFailures > 0 then maxFailures else 50
    {
      cfg := Config(if delays.Some? then delays.value else DEFAULT_DELAYS,
                    if capacity <= 0 then DEFAULT_CAPACITY else capacity,
                    if maxFailures <= 0 then DEFAULT_MAX_FAILURES else maxFailures);
      queue, failures, stopped, cancelled := [], map[], false, false;
      offers, retries, worker, subs, now := [], [], Idle, map[], 0.0;
      usedIds, tickets, ended, log, requests, issued := {}, [], map[], [], [], 0;
      pushed, taken := [], [];
      new;
      InitialReachable(cfg);
    }

    /** `listed` is the store's answer, None its failure; `body` is the marshalled payload, None a failure of that. */
    method Dispatch(event: string, body: Option<string>, listed: Option<seq<Id>>) returns (ok: bool)
      requires Valid()
      requires listed.Some? ==> Lists(subs, event, listed.value)
      modifies this`queue, this`pushed, this`tickets, this`ended, this`issued
      ensures Valid()
      ensures ok <==> listed.Some? && (listed.value == [] || body.Some?)
      ensures !ok || listed.value == [] ==> View() == old(View())
      ensures ok && listed.value != [] ==>
        var steps := DispatchRun(event, body.value, listed.value, |offers|, |listed.value|);
        Runnable(cfg, old(View()), steps) && View() == Run(cfg, old(View()), steps)
    {
      if listed.None? {
        return false;
      }
      var targets := listed.value;
      if targets == [] {
        return true;
      }
      if body.None? {
        return false;
      }
      hide Next, Enabled, Run, Runnable, DoPublish, Lists, Reachable;
      ghost var s0, at := View(), |offers|;
      var first := issued;
      ghost var added := StartCall(body.value, targets);
      RunPublish(cfg, s0, event, body.value, targets);
      SendAll(event, body.value, targets, first, s0, added);
      ReachableRun(cfg, s0, DispatchRun(event, body.value, targets, at, |targets|));
      return true;
    }

    /** The loop of Dispatch. `s0` is the state it was called in. */
    method SendAll(ghost event: string, body: string, targets: seq<Id>, first: nat,
                   ghost s0: State, ghost added: seq<Task>)
      requires Wired() && |added| == |targets| && forall id :: id in targets ==> id in subs
      requires forall k :: 0 <= k < |targets| ==> added[k] == Task(first + k, subs[targets[k]], body, 0)
      requires var steps := DispatchRun(event, body, targets, |offers|, 0);
        Runnable(cfg, s0, steps) && Run(cfg, s0, steps) == View().(offers := offers + added)
      modifies this`queue, this`pushed, this`ended
      ensures Wired()
      ensures var steps := DispatchRun(event, body, targets, |offers|, |targets|);
        Runnable(cfg, s0, steps) && Run(cfg, s0, steps) == View()
    {
      hide Next, Enabled, Run, Runnable, DoPublish, Lists, Reachable;
      ghost var steps := DispatchRun(event, body, targets, |offers|, 0);
      assert added[0..] == added;
      for k := 0 to |targets|
        invariant Wired()
        invariant steps == DispatchRun(event, body, targets, |offers|, k)
        invariant Runnable(cfg, s0, steps)
        invariant Run(cfg, s0, steps) == View().(offers := offers + added[k..])
      {
        var t := Task(first + k, subs[targets[k]], body, 0);
        OfferFirst(cfg, Run(cfg, s0, steps), offers, added[k..]);
        RunOneMore(cfg, s0, steps, Offer(|offers|));
        steps := steps + [Offer(|offers|)];
        assert added[k..][1..] == added[k + 1..];
        Send(t);
      }
      assert offers + added[|targets|..] == offers;
    }

    /** A non-blocking send. */
    method Send(t: Task)
      requires Wired()
      modifies this`queue, this`pushed, this`ended
      ensures Wired()
      ensures View() == if |old(queue)| < cfg.capacity
                        then old(View()).(queue := old(queue) + [t], pushed := old(pushed) + [t])
                        else old(View()).(ended := old(ended)[t.ticket := Dropped])
    {
      if |queue| < cfg.capacity {
        queue, pushed := queue + [t], pushed + [t];
      } else {
        ended := ended[t.ticket := Dropped];
      }
    }

    /** Number the tickets of a new call; `added` are its tasks in the order of its loop. */
    method StartCall(body: string, targets: seq<Id>) returns (ghost added: seq<Task>)
      requires Wired() && forall id :: id in targets ==> id in subs
      modifies this`tickets, this`issued
      ensures Wired() && issued == old(issued) + |targets|
      ensures |added| == |targets|
      ensures forall k :: 0 <= k < |targets| ==> added[k] == Task(old(issued) + k, subs[targets[k]], body, 0)
      ensures View().(offers := offers + added) == DoPublish(old(View()), body, targets)
    {
      ghost var s := DoPublish(View(), body, targets);
      added := s.offers[|offers|..];
      assert s.offers == offers + added;
      tickets := s.tickets;
      issued := issued + |targets|;
    }

    /** The worker's select takes the oldest task. */
    method TakeTask()
      requires Valid() && worker.Idle? && queue != []
      modifies this`queue, this`worker, this`taken
      ensures Valid() && View() == DoTake(old(View()))
      ensures worker == Posting(old(queue)[0], now) && queue == old(queue)[1..]
    {
      ReachableNext(cfg, View(), Take);
      worker := Posting(queue[0], now);
      queue, taken := queue[1..], taken + [queue[0]];
    }

    /** processTask, with the reply to its POST and the success of the store update as inputs. */
    method ProcessTask(reply: Reply, stored: bool)
      requires Valid() && worker.Posting?
      modifies this`worker, this`failures, this`retries, this`subs, this`ended, this`log, this`requests
      ensures Valid()
      ensures var s1 := DoFinish(cfg, old(View()), reply);
        View() == if s1.worker.Deactivating? then DoDeactivate(s1, stored) else s1
      ensures ReplySettles(cfg, old(View()), View(), reply)
      ensures if Deactivates(cfg, old(View()), reply) && stored && old(worker).task.sub.id in old(subs)
        then subs == old(subs)[old(worker).task.sub.id := old(worker).task.sub.(isActive := false)]
        else subs == old(subs)
    {
      hide DoFinish, Reachable, Deactivates, ReplySettles;
      ghost var s0 := View();
      FinishReachable(s0, reply, stored);
      ReplyDecides(cfg, s0, reply);
      SettlesLater(s0, DoFinish(cfg, s0, reply), stored, reply);
      var task, deactivate := FinishPost(reply);
      if deactivate {
        DeactivateSubscription(task.sub, stored);
      }
    }

    /** Deactivating changes nothing that the reply settles. */
    lemma SettlesLater(s: State, s1: State, stored: bool, reply: Reply)
      requires s.worker.Posting?
      ensures s1.worker.Deactivating? ==>
        (ReplySettles(cfg, s, DoDeactivate(s1, stored), reply) <==> ReplySettles(cfg, s, s1, reply))
    {
    }

    /** processTask but for the update of the subscription. */
    method FinishPost(reply: Reply) returns (task: Task, deactivate: bool)
      requires Wired() && worker.Posting?
      modifies this`worker, this`failures, this`retries, this`ended, this`log, this`requests
      ensures Wired() && task == old(worker).task
      ensures var s1 := DoFinish(cfg, old(View()), reply);
        && View() == s1.(worker := Idle)
        && deactivate == s1.worker.Deactivating? && s1.worker in {Idle, Deactivating(task.sub)}
    {
      hide FateOf, CountOutcome, Classify, Reachable;
      ghost var position := |log|;
      task := LogAttempt(reply);
      deactivate := Settle(task, reply, position);
    }

    lemma FinishReachable(s: State, reply: Reply, stored: bool)
      requires Reachable(cfg, s) && s.worker.Posting?
      ensures var s1 := DoFinish(cfg, s, reply);
        Reachable(cfg, if s1.worker.Deactivating? then DoDeactivate(s1, stored) else s1)
    {
      hide DoFinish, DoDeactivate, Reachable;
      ReachableNext(cfg, s, Finish(reply));
      var s1 := DoFinish(cfg, s, reply);
      if s1.worker.Deactivating? {
        ReachableNext(cfg, s1, Deactivate(stored));
      }
    }

    /** The branches of processTask: success, 410, and a counted failure. */
    method Settle(task: Task, reply: Reply, ghost position: nat) returns (deactivate: bool)
      requires Wired()
      modifies this`failures, this`retries, this`ended, this`requests
      ensures Wired()
      ensures failures == CountOutcome(old(failures), task.sub.id, Classify(reply))
      ensures var fate := FateOf(cfg, old(failures), task, Classify(reply));
        && deactivate == (fate.Over? && fate.deactivate)
        && retries == (if fate.RetryIn? then old(retries) + [Sleeping(task, now + fate.delay)] else old(retries))
        && ended == (if fate.Over? then old(ended)[task.ticket := fate.end] else old(ended))
        && requests == (if deactivate then old(requests) + [position] else old(requests))
    {
      if reply.Status? && 200 <= reply.code < 300 {
        failures := failures[task.sub.id := 0];
        ended := ended[task.ticket := Success];
        return false;
      }
      if reply == Status(410) {
        ended, requests := ended[task.ticket := EndpointGone], requests + [position];
        return true;
      }
      var consecutive := FailureCount(failures, task.sub.id) + 1;
      failures := failures[task.sub.id := consecutive];
      if consecutive >= cfg.maxFailures {
        ended, requests := ended[task.ticket := Threshold], requests + [position];
        return true;
      }
      if task.attempt < |cfg.delays| {
        retries := retries + [Sleeping(task, now + cfg.delays[task.attempt])];
      } else {
        ended := ended[task.ticket := Exhausted];
      }
      return false;
    }

    /** The POST is over. */
    method LogAttempt(reply: Reply) returns (task: Task)
      requires Wired() && worker.Posting?
      modifies this`worker, this`log
      ensures Wired() && task == old(worker).task
      ensures worker == Idle && log == old(log) + [AttemptOf(old(View()), reply)]
    {
      task := worker.task;
      log := log + [AttemptOf(View(), reply)];
      worker := Idle;
    }

    method DeactivateSubscription(sub: Subscription, stored: bool)
      requires Wired()
      modifies this`subs
      ensures Wired() && View().(worker := Idle) == DoDeactivate(old(View()).(worker := Deactivating(sub)), stored)
      ensures worker == old(worker)
    {
      var updated := sub.(isActive := false);
      if stored && sub.id in subs {
        subs := subs[sub.id := updated];
      }
    }

    /** A retry goroutine's timer wins its first select. */
    method RetryTimer(i: nat)
      requires Valid() && i < |retries| && retries[i].Sleeping? && retries[i].due <= now
      modifies this`retries
      ensures Valid() && View() == DoFire(old(View()), i)
      ensures var t := old(retries)[i].task;
        retries == old(retries)[i := Pushing(t.(attempt := t.attempt + 1))]
    {
      ReachableNext(cfg, View(), Fire(i));
      var t := retries[i].task;
      retries := retries[i := Pushing(t.(attempt := t.attempt + 1))];
    }

    /** The queue wins its second select. */
    method RetryPush(i: nat)
      requires Valid() && i < |retries| && retries[i].Pushing? && |queue| < cfg.capacity
      modifies this`retries, this`queue, this`pushed
      ensures Valid() && View() == DoPush(old(View()), i)
      ensures queue == old(queue) + [old(retries)[i].task]
    {
      ReachableNext(cfg, View(), Push(i));
      queue, pushed := queue + [retries[i].task], pushed + [retries[i].task];
      retries := Without(retries, i);
    }

    /** Shutdown wins either select. */
    method RetryQuit(i: nat)
      requires Valid() && i < |retries| && (stopped || cancelled)
      modifies this`retries, this`ended
      ensures Valid() && View() == DoQuit(old(View()), i)
    {
      ReachableNext(cfg, View(), Quit(i));
      ended := ended[retries[i].task.ticket := Discarded];
      retries := Without(retries, i);
    }

    /** Stop up to its wait for the worker; the channel is closed once however often it is called. */
    method SignalStop()
      requires Valid()
      modifies this`stopped
      ensures Valid() && View() == old(View()).(stopped := true)
    {
      ReachableNext(cfg, View(), Stop);
      if stopped {
        return;
      }
      stopped := true;
    }

    /** The context of the worker and of the retry goroutines is cancelled. */
    method CancelContext()
      requires Valid()
      modifies this`cancelled
      ensures Valid() && View() == old(View()).(cancelled := true)
    {
      ReachableNext(cfg, View(), Cancel);
      cancelled := true;
    }

    /** The worker's select sees a shutdown and it returns, which is what Stop waits for. */
    method WorkerReturn()
      requires Valid() && worker.Idle? && (stopped || cancelled)
      modifies this`worker
      ensures Valid() && View() == old(View()).(worker := Exited)
    {
      ReachableNext(cfg, View(), WorkerExit);
      worker := Exited;
    }

    // ---------- The clock and the subscription store ----------

    method AdvanceClock(to: real)
      requires Valid() && now <= to
      modifies this`now
      ensures Valid() && View() == old(View()).(now := to)
    {
      ReachableNext(cfg, View(), Tick(to));
      now := to;
    }

    method CreateSubscription(sub: Subscription)
      requires Valid() && sub.id !in usedIds && sub.isActive
      modifies this`subs, this`usedIds
      ensures Valid() && View() == Next(cfg, old(View()), Subscribe(sub))
    {
      ReachableNext(cfg, View(), Subscribe(sub));
      subs := subs[sub.id := sub];
      usedIds := usedIds + {sub.id};
    }

    method DeleteSubscription(id: Id)
      requires Valid() && id in subs
      modifies this`subs
      ensures Valid() && View() == old(View()).(subs := old(subs) - {id})
    {
      ReachableNext(cfg, View(), Unsubscribe(id));
      subs := subs - {id};
    }
  }
}
