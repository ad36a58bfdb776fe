/**
 The webhook dispatcher as a state machine. A state holds everything the dispatcher shares
 between goroutines (the queue, the failure counters, the stop flags), the program counters of
 the goroutines themselves (Dispatch calls in flight, the worker, the retry goroutines), the
 subscription store, and a history that no branch ever reads.

 A step is one atomic action of one goroutine or of the environment; a run is any sequence of
 enabled steps, so a statement about all runs covers every interleaving.
 */
module WebhookModel {

  type Id = string

  datatype Subscription = Subscription(id: Id, url: string, secret: string, events: seq<string>, isActive: bool) {
    /** Does ListActiveByEvent return this record for `event`? */
    predicate Wants(event: string) {
      isActive && (event in events || "*" in events)
    }
  }

  /** One (Dispatch call, subscription) pair, as it was when the call listed its targets. */
  datatype Ticket = Ticket(sub: Subscription, body: string)

  /** A deliveryTask. `ticket` names the pair it stands for; no branch reads it. */
  datatype Task = Task(ticket: nat, sub: Subscription, body: string, attempt: nat)

  /** A retry goroutine: waiting for its timer, or blocked on the queue. */
  datatype Retry =
    | Sleeping(task: Task, due: real)
    | Pushing(task: Task)

  datatype Worker =
    | Idle
    | Posting(task: Task, started: real)
    | Deactivating(sub: Subscription)
    | Exited

  /** What executeDelivery saw: no response at all, or a status code. */
  datatype Reply = NoReply | Status(code: int)

  datatype Outcome = Delivered | Gone | Failed

  function Classify(reply: Reply): Outcome {
    match reply
    case NoReply => Failed
    case Status(code) => if 200 <= code < 300 then Delivered else if code == 410 then Gone else Failed
  }

  /** How a ticket left the system. */
  datatype End = Dropped | Success | EndpointGone | Threshold | Exhausted | Discarded

  /** One finished POST of the worker. */
  datatype Attempt = Attempt(ticket: nat, attempt: nat, subId: Id, body: string,
                             started: real, finished: real, reply: Reply)

  datatype Config = Config(delays: seq<real>, capacity: nat, maxFailures: nat) {
    predicate Valid() {
      capacity > 0 && maxFailures > 0
    }
  }

  datatype State = State(
    subs: map<Id, Subscription>,
    offers: seq<Task>,
    queue: seq<Task>,
    retries: seq<Retry>,
    worker: Worker,
    failures: map<Id, nat>,
    stopped: bool,
    cancelled: bool,
    now: real,
    // history
    usedIds: set<Id>,
    tickets: seq<Ticket>,
    ended: map<nat, End>,
    log: seq<Attempt>,
    requests: seq<nat>,
    pushed: seq<Task>,
    taken: seq<Task>)
  {
    predicate Closing() {
      stopped || cancelled
    }
  }

  const INITIAL := State(map[], [], [], [], Idle, map[], false, false, 0.0, {}, [], map[], [], [], [], [])

  datatype Step =
    | Publish(event: string, body: string, listed: seq<Id>)
    | Offer(i: nat)
    | Take
    | Finish(reply: Reply)
    | Deactivate(stored: bool)
    | Fire(i: nat)
    | Push(i: nat)
    | Quit(i: nat)
    | WorkerExit
    | Stop
    | Cancel
    | Tick(to: real)
    | Subscribe(sub: Subscription)
    | Unsubscribe(id: Id)
  {
    /** Steps of the dispatcher's own goroutines, as against its callers, the clock and the store. */
    predicate IsWork() {
      Offer? || Take? || Finish? || Deactivate? || Fire? || Push? || Quit? || WorkerExit?
    }
  }

  function Without<T>(s: seq<T>, i: nat): (r: seq<T>)
    requires i < |s|
    ensures |r| == |s| - 1
    ensures forall x :: x in r ==> x in s
  {
    s[..i] + s[i + 1..]
  }

  function FailureCount(failures: map<Id, nat>, id: Id): nat {
    if id in failures then failures[id] else 0
  }

  /** `listed` is a possible answer of ListActiveByEvent: each matching active record once. */
  predicate Lists(subs: map<Id, Subscription>, event: string, listed: seq<Id>) {
    && (forall i, j :: 0 <= i < j < |listed| ==> listed[i] != listed[j])
    && (forall id :: id in listed ==> id in subs && subs[id].Wants(event))
    && (forall id :: id in subs && subs[id].Wants(event) ==> id in listed)
  }

  predicate Enabled(cfg: Config, s: State, step: Step) {
    match step
    case Publish(event, _, listed) => Lists(s.subs, event, listed)
    case Offer(i) => i < |s.offers|
    case Take => s.worker.Idle? && s.queue != []
    case Finish(_) => s.worker.Posting?
    case Deactivate(_) => s.worker.Deactivating?
    case Fire(i) => i < |s.retries| && s.retries[i].Sleeping? && s.retries[i].due <= s.now
    case Push(i) => i < |s.retries| && s.retries[i].Pushing? && |s.queue| < cfg.capacity
    case Quit(i) => i < |s.retries| && s.Closing()
    case WorkerExit => s.worker.Idle? && s.Closing()
    case Stop => true
    case Cancel => true
    case Tick(to) => s.now <= to
    case Subscribe(sub) => sub.id !in s.usedIds && sub.isActive
    case Unsubscribe(id) => id in s.subs
  }

  /** Dispatch up to its loop: list the targets and marshal the payload once. */
  function DoPublish(s: State, body: string, listed: seq<Id>): State
    requires forall id :: id in listed ==> id in s.subs
  {
    var n := |s.tickets|;
    s.(tickets := s.tickets + seq(|listed|, k requires 0 <= k < |listed| => Ticket(s.subs[listed[k]], body)),
       offers := s.offers + seq(|listed|, k requires 0 <= k < |listed| => Task(n + k, s.subs[listed[k]], body, 0)))
  }

  /** One pass of Dispatch's loop: a non-blocking send. */
  function DoOffer(cfg: Config, s: State, i: nat): State
    requires i < |s.offers|
  {
    var t := s.offers[i];
    var s1 := s.(offers := Without(s.offers, i));
    if |s.queue| < cfg.capacity then s1.(queue := s.queue + [t], pushed := s.pushed + [t])
    else s1.(ended := s.ended[t.ticket := Dropped])
  }

  function DoTake(s: State): State
    requires s.queue != []
  {
    s.(queue := s.queue[1..], worker := Posting(s.queue[0], s.now), taken := s.taken + [s.queue[0]])
  }

  function AttemptOf(s: State, reply: Reply): Attempt
    requires s.worker.Posting?
  {
    var t := s.worker.task;
    Attempt(t.ticket, t.attempt, t.sub.id, t.body, s.worker.started, s.now, reply)
  }

  /** What processTask decides about a task: another attempt, or its end. */
  datatype Fate = RetryIn(delay: real) | Over(end: End, deactivate: bool)

  function FateOf(cfg: Config, failures: map<Id, nat>, t: Task, outcome: Outcome): Fate {
    match outcome
    case Delivered => Over(Success, false)
    case Gone => Over(EndpointGone, true)
    case Failed =>
      if FailureCount(failures, t.sub.id) + 1 >= cfg.maxFailures then Over(Threshold, true)
      else if t.attempt < |cfg.delays| then RetryIn(cfg.delays[t.attempt])
      else Over(Exhausted, false)
  }

  function CountOutcome(failures: map<Id, nat>, id: Id, outcome: Outcome): map<Id, nat> {
    match outcome
    case Delivered => failures[id := 0]
    case Gone => failures
    case Failed => failures[id := FailureCount(failures, id) + 1]
  }

  /** processTask after the POST, up to the call of deactivateSubscription or the start of a retry goroutine. */
  function DoFinish(cfg: Config, s: State, reply: Reply): State
    requires s.worker.Posting?
  {
    var t, outcome := s.worker.task, Classify(reply);
    var fate := FateOf(cfg, s.failures, t, outcome);
    var deactivate := fate.Over? && fate.deactivate;
    s.(log := s.log + [AttemptOf(s, reply)],
       failures := CountOutcome(s.failures, t.sub.id, outcome),
       worker := if deactivate then Deactivating(t.sub) else Idle,
       retries := if fate.RetryIn? then s.retries + [Sleeping(t, s.now + fate.delay)] else s.retries,
       ended := if fate.Over? then s.ended[t.ticket := fate.end] else s.ended,
       requests := if deactivate then s.requests + [|s.log|] else s.requests)
  }

  /** deactivateSubscription writes back the copy of the record taken at listing; Update touches existing ids only. */
  function DoDeactivate(s: State, stored: bool): State
    requires s.worker.Deactivating?
  {
    var sub := s.worker.sub;
    s.(worker := Idle,
       subs := if stored && sub.id in s.subs then s.subs[sub.id := sub.(isActive := false)] else s.subs)
  }

  function DoFire(s: State, i: nat): State
    requires i < |s.retries|
  {
    var t := s.retries[i].task;
    s.(retries := s.retries[i := Pushing(t.(attempt := t.attempt + 1))])
  }

  function DoPush(s: State, i: nat): State
    requires i < |s.retries|
  {
    var t := s.retries[i].task;
    s.(retries := Without(s.retries, i), queue := s.queue + [t], pushed := s.pushed + [t])
  }

  function DoQuit(s: State, i: nat): State
    requires i < |s.retries|
  {
    s.(retries := Without(s.retries, i), ended := s.ended[s.retries[i].task.ticket := Discarded])
  }

  function Next(cfg: Config, s: State, step: Step): State
    requires Enabled(cfg, s, step)
  {
    match step
    case Publish(_, body, listed) => DoPublish(s, body, listed)
    case Offer(i) => DoOffer(cfg, s, i)
    case Take => DoTake(s)
    case Finish(reply) => DoFinish(cfg, s, reply)
    case Deactivate(stored) => DoDeactivate(s, stored)
    case Fire(i) => DoFire(s, i)
    case Push(i) => DoPush(s, i)
    case Quit(i) => DoQuit(s, i)
    case WorkerExit => s.(worker := Exited)
    case Stop => s.(stopped := true)
    case Cancel => s.(cancelled := true)
    case Tick(to) => s.(now := to)
    case Subscribe(sub) => s.(subs := s.subs[sub.id := sub], usedIds := s.usedIds + {sub.id})
    case Unsubscribe(id) => s.(subs := s.subs - {id})
  }

  predicate Runnable(cfg: Config, s: State, steps: seq<Step>)
    decreases |steps|
  {
    steps == [] || (Enabled(cfg, s, steps[0]) && Runnable(cfg, Next(cfg, s, steps[0]), steps[1..]))
  }

  function Run(cfg: Config, s: State, steps: seq<Step>): State
    requires Runnable(cfg, s, steps)
    decreases |steps|
  {
    if steps == [] then s else Run(cfg, Next(cfg, s, steps[0]), steps[1..])
  }
}
