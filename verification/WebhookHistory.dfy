/**
 The live tasks and the log of POSTs tell the same story: how often each ticket was POSTed, with
 which body, and how long after the attempt before.
 */
module WebhookHistory {
  import opened WebhookModel
  import opened WebhookInvariant

  /** The endpoint answered with a status of 200 to 299. */
  predicate Succeeded(a: Attempt) {
    a.reply.Status? && 200 <= a.reply.code <= 299
  }

  /** It did not answer, or with another status than those and 410. */
  predicate FailedPost(a: Attempt) {
    !Succeeded(a) && a.reply != Status(410)
  }

  /** How often ticket `n` was POSTed. */
  function Posts(log: seq<Attempt>, n: nat): nat {
    if log == [] then 0
    else Posts(log[..|log| - 1], n) + if log[|log| - 1].ticket == n then 1 else 0
  }

  /** `a` is the failed attempt that attempt number `next` of ticket `n` retries, its delay over at `time`. */
  predicate Precedes(cfg: Config, a: Attempt, n: nat, next: nat, time: real) {
    && a.ticket == n && FailedPost(a) && a.attempt + 1 == next
    && a.attempt < |cfg.delays| && a.finished + cfg.delays[a.attempt] <= time
  }

  ghost predicate Preceded(cfg: Config, log: seq<Attempt>, n: nat, attempt: nat, time: real) {
    attempt == 0 || exists j :: 0 <= j < |log| && Precedes(cfg, log[j], n, attempt, time)
  }

  predicate Genuine(cfg: Config, tickets: seq<Ticket>, t: Task) {
    t.ticket < |tickets| && tickets[t.ticket] == Ticket(t.sub, t.body) && t.attempt <= |cfg.delays|
  }

  /** `t` is about to make attempt number `t.attempt`, its earlier ones are logged, and it may start from `time` on. */
  ghost predicate Ready(cfg: Config, tickets: seq<Ticket>, log: seq<Attempt>, t: Task, time: real) {
    Genuine(cfg, tickets, t) && Posts(log, t.ticket) == t.attempt && Preceded(cfg, log, t.ticket, t.attempt, time)
  }

  ghost predicate RetryOk(cfg: Config, tickets: seq<Ticket>, log: seq<Attempt>, r: Retry, now: real) {
    match r
    case Sleeping(t, due) =>
      && t.attempt < |cfg.delays|
      && Genuine(cfg, tickets, t) && Posts(log, t.ticket) == t.attempt + 1
      && Preceded(cfg, log, t.ticket, t.attempt + 1, due)
    case Pushing(t) => Ready(cfg, tickets, log, t, now)
  }

  ghost predicate WorkerOk(cfg: Config, tickets: seq<Ticket>, log: seq<Attempt>, w: Worker, now: real) {
    w.Posting? ==> w.started <= now && Ready(cfg, tickets, log, w.task, w.started)
  }

  /** Entry `k` of the log was made by a genuine task, in turn and in time. */
  ghost predicate EntryOk(cfg: Config, tickets: seq<Ticket>, log: seq<Attempt>, k: nat)
    requires k < |log|
  {
    var a := log[k];
    && a.ticket < |tickets| && tickets[a.ticket].sub.id == a.subId && tickets[a.ticket].body == a.body
    && a.attempt <= |cfg.delays| && a.started <= a.finished
    && Posts(log[..k], a.ticket) == a.attempt
    && Preceded(cfg, log[..k], a.ticket, a.attempt, a.started)
  }

  ghost predicate Entries(cfg: Config, tickets: seq<Ticket>, log: seq<Attempt>) {
    forall k :: 0 <= k < |log| ==> EntryOk(cfg, tickets, log, k)
  }

  ghost predicate AllReady(cfg: Config, tickets: seq<Ticket>, log: seq<Attempt>, ts: seq<Task>, now: real) {
    forall t :: t in ts ==> Ready(cfg, tickets, log, t, now)
  }

  ghost predicate RetriesOk(cfg: Config, tickets: seq<Ticket>, log: seq<Attempt>, rs: seq<Retry>, now: real) {
    forall r :: r in rs ==> RetryOk(cfg, tickets, log, r, now)
  }

  ghost predicate Consistent(cfg: Config, s: State) {
    && AllReady(cfg, s.tickets, s.log, s.offers, s.now)
    && AllReady(cfg, s.tickets, s.log, s.queue, s.now)
    && RetriesOk(cfg, s.tickets, s.log, s.retries, s.now)
    && WorkerOk(cfg, s.tickets, s.log, s.worker, s.now)
    && Entries(cfg, s.tickets, s.log)
    && (forall k :: 0 <= k < |s.log| ==> s.log[k].finished <= s.now)
  }

  // ---------- The log only grows ----------

  lemma PrecededLater(cfg: Config, log: seq<Attempt>, more: seq<Attempt>, n: nat, attempt: nat, time: real, later: real)
    requires Preceded(cfg, log, n, attempt, time) && time <= later
    ensures Preceded(cfg, log + more, n, attempt, later)
  {
    if attempt != 0 {
      var j :| 0 <= j < |log| && Precedes(cfg, log[j], n, attempt, time);
      assert (log + more)[j] == log[j];
      assert Precedes(cfg, (log + more)[j], n, attempt, later);
    }
  }

  lemma PostsAppend(log: seq<Attempt>, a: Attempt, n: nat)
    ensures Posts(log + [a], n) == Posts(log, n) + if a.ticket == n then 1 else 0
  {
    assert (log + [a])[..|log|] == log;
  }

  /** A ticket that was never issued was never POSTed. */
  lemma {:induction false} NoPosts(cfg: Config, tickets: seq<Ticket>, log: seq<Attempt>, n: nat)
    requires Entries(cfg, tickets, log) && n >= |tickets|
    ensures Posts(log, n) == 0
  {
    if log != [] {
      var last := |log| - 1;
      assert EntryOk(cfg, tickets, log, last);
      EntriesPrefix(cfg, tickets, log, last);
      NoPosts(cfg, tickets, log[..last], n);
    }
  }

  lemma EntriesPrefix(cfg: Config, tickets: seq<Ticket>, log: seq<Attempt>, k: nat)
    requires Entries(cfg, tickets, log) && k <= |log|
    ensures Entries(cfg, tickets, log[..k])
  {
    forall j | 0 <= j < k
      ensures EntryOk(cfg, tickets, log[..k], j)
    {
      assert EntryOk(cfg, tickets, log, j);
      assert log[..k][..j] == log[..j];
    }
  }

  lemma EntriesAppend(cfg: Config, tickets: seq<Ticket>, log: seq<Attempt>, a: Attempt)
    requires Entries(cfg, tickets, log)
    requires EntryOk(cfg, tickets, log + [a], |log|)
    ensures Entries(cfg, tickets, log + [a])
  {
    var log' := log + [a];
    forall k | 0 <= k < |log'|
      ensures EntryOk(cfg, tickets, log', k)
    {
      if k < |log| {
        assert EntryOk(cfg, tickets, log, k);
        assert log'[..k] == log[..k] && log'[k] == log[k];
      }
    }
  }

  // ---------- Steps that leave the log alone ----------

  lemma TimePasses(cfg: Config, s: State, to: real)
    requires Consistent(cfg, s) && s.now <= to
    ensures Consistent(cfg, s.(now := to))
  {
    forall t | t in s.offers || t in s.queue
      ensures Ready(cfg, s.tickets, s.log, t, to)
    {
      Waits(cfg, s.tickets, s.log, t, s.now, to);
    }
    forall r | r in s.retries
      ensures RetryOk(cfg, s.tickets, s.log, r, to)
    {
      assert RetryOk(cfg, s.tickets, s.log, r, s.now);
      if r.Pushing? {
        Waits(cfg, s.tickets, s.log, r.task, s.now, to);
      }
    }
  }

  lemma Waits(cfg: Config, tickets: seq<Ticket>, log: seq<Attempt>, t: Task, time: real, later: real)
    requires Ready(cfg, tickets, log, t, time) && time <= later
    ensures Ready(cfg, tickets, log, t, later)
  {
    PrecededLater(cfg, log, [], t.ticket, t.attempt, time, later);
    assert log + [] == log;
  }

  lemma PublishConsistent(cfg: Config, s: State, body: string, listed: seq<Id>)
    requires Consistent(cfg, s)
    requires forall id :: id in listed ==> id in s.subs
    ensures Consistent(cfg, DoPublish(s, body, listed))
  {
    var s' := DoPublish(s, body, listed);
    forall t | t in s'.offers
      ensures Ready(cfg, s'.tickets, s.log, t, s.now)
    {
      if t in s.offers {
        assert Ready(cfg, s.tickets, s.log, t, s.now);
      } else {
        NoPosts(cfg, s.tickets, s.log, t.ticket);
      }
    }
    forall r | r in s.retries
      ensures RetryOk(cfg, s'.tickets, s.log, r, s.now)
    {
      assert RetryOk(cfg, s.tickets, s.log, r, s.now);
    }
    forall k | 0 <= k < |s.log|
      ensures EntryOk(cfg, s'.tickets, s.log, k)
    {
      assert EntryOk(cfg, s.tickets, s.log, k);
    }
  }

  lemma FireConsistent(cfg: Config, s: State, i: nat)
    requires Consistent(cfg, s) && Enabled(cfg, s, Fire(i))
    ensures Consistent(cfg, DoFire(s, i))
  {
    var r := s.retries[i];
    assert r in s.retries && RetryOk(cfg, s.tickets, s.log, r, s.now);
    PrecededLater(cfg, s.log, [], r.task.ticket, r.task.attempt + 1, r.due, s.now);
    assert s.log + [] == s.log;
    assert RetryOk(cfg, s.tickets, s.log, DoFire(s, i).retries[i], s.now);
  }

  lemma PushConsistent(cfg: Config, s: State, i: nat)
    requires Consistent(cfg, s) && Enabled(cfg, s, Push(i))
    ensures Consistent(cfg, DoPush(s, i))
  {
    var r := s.retries[i];
    assert r in s.retries && RetryOk(cfg, s.tickets, s.log, r, s.now);
  }

  lemma TakeConsistent(cfg: Config, s: State)
    requires Consistent(cfg, s) && s.queue != []
    ensures Consistent(cfg, DoTake(s))
  {
    assert s.queue[0] in s.queue;
    assert forall t :: t in s.queue[1..] ==> t in s.queue;
  }

  // ---------- A POST ----------

  /** The worker's ticket is held nowhere else. */
  lemma WorkerAlone(s: State, t: Task)
    requires Conserved(s) && s.worker.Posting?
    requires t in s.offers || t in s.queue || t in RetryTasks(s.retries)
    ensures t.ticket != s.worker.task.ticket
  {
    var f := TicketIs(s.worker.task.ticket);
    assert PlacesOf(s, s.worker.task.ticket) <= 1;
    SumMember(WorkerTasks(s.worker), s.worker.task, f);
    if t in s.offers {
      SumMember(s.offers, t, f);
    } else if t in s.queue {
      SumMember(s.queue, t, f);
    } else {
      SumMember(RetryTasks(s.retries), t, f);
    }
  }

  lemma ReadyAfterOther(cfg: Config, tickets: seq<Ticket>, log: seq<Attempt>, a: Attempt, t: Task, time: real)
    requires Ready(cfg, tickets, log, t, time) && t.ticket != a.ticket
    ensures Ready(cfg, tickets, log + [a], t, time)
  {
    PostsAppend(log, a, t.ticket);
    PrecededLater(cfg, log, [a], t.ticket, t.attempt, time, time);
  }

  lemma RetryAfterOther(cfg: Config, tickets: seq<Ticket>, log: seq<Attempt>, a: Attempt, r: Retry, now: real)
    requires RetryOk(cfg, tickets, log, r, now) && r.task.ticket != a.ticket
    ensures RetryOk(cfg, tickets, log + [a], r, now)
  {
    match r
    case Sleeping(t, due) =>
      PostsAppend(log, a, t.ticket);
      PrecededLater(cfg, log, [a], t.ticket, t.attempt + 1, due, due);
    case Pushing(t) => ReadyAfterOther(cfg, tickets, log, a, t, now);
  }

  lemma OthersAfterPost(cfg: Config, s: State, reply: Reply)
    requires Consistent(cfg, s) && Conserved(s) && s.worker.Posting?
    ensures var log' := s.log + [AttemptOf(s, reply)];
      && AllReady(cfg, s.tickets, log', s.offers, s.now)
      && AllReady(cfg, s.tickets, log', s.queue, s.now)
      && RetriesOk(cfg, s.tickets, log', s.retries, s.now)
  {
    var a := AttemptOf(s, reply);
    forall t | t in s.offers || t in s.queue
      ensures Ready(cfg, s.tickets, s.log + [a], t, s.now)
    {
      WorkerAlone(s, t);
      ReadyAfterOther(cfg, s.tickets, s.log, a, t, s.now);
    }
    forall r | r in s.retries
      ensures RetryOk(cfg, s.tickets, s.log + [a], r, s.now)
    {
      var k :| 0 <= k < |s.retries| && s.retries[k] == r;
      assert RetryTasks(s.retries)[k] == r.task;
      WorkerAlone(s, r.task);
      RetryAfterOther(cfg, s.tickets, s.log, a, r, s.now);
    }
  }

  lemma EntryAfterPost(cfg: Config, s: State, reply: Reply)
    requires Consistent(cfg, s) && s.worker.Posting?
    ensures Entries(cfg, s.tickets, s.log + [AttemptOf(s, reply)])
    ensures Posts(s.log + [AttemptOf(s, reply)], s.worker.task.ticket) == s.worker.task.attempt + 1
  {
    var a, t := AttemptOf(s, reply), s.worker.task;
    assert Ready(cfg, s.tickets, s.log, t, s.worker.started);
    assert (s.log + [a])[..|s.log|] == s.log;
    assert EntryOk(cfg, s.tickets, s.log + [a], |s.log|);
    EntriesAppend(cfg, s.tickets, s.log, a);
    PostsAppend(s.log, a, t.ticket);
  }

  /** A failed attempt below the threshold leaves a retry goroutine that will wait out its delay. */
  lemma RetriesAfterPost(cfg: Config, s: State, reply: Reply)
    requires Consistent(cfg, s) && Conserved(s) && s.worker.Posting?
    ensures var s' := DoFinish(cfg, s, reply);
      RetriesOk(cfg, s.tickets, s.log + [AttemptOf(s, reply)], s'.retries, s.now)
  {
    var s', log', t := DoFinish(cfg, s, reply), s.log + [AttemptOf(s, reply)], s.worker.task;
    OthersAfterPost(cfg, s, reply);
    if s'.retries != s.retries {
      EntryAfterPost(cfg, s, reply);
      var r := Sleeping(t, s.now + cfg.delays[t.attempt]);
      assert s'.retries == s.retries + [r];
      assert Precedes(cfg, log'[|s.log|], t.ticket, t.attempt + 1, r.due);
      assert RetryOk(cfg, s.tickets, log', r, s.now);
    }
  }

  lemma FinishConsistent(cfg: Config, s: State, reply: Reply)
    requires Consistent(cfg, s) && Conserved(s) && s.worker.Posting?
    ensures Consistent(cfg, DoFinish(cfg, s, reply))
  {
    var s' := DoFinish(cfg, s, reply);
    OthersAfterPost(cfg, s, reply);
    EntryAfterPost(cfg, s, reply);
    RetriesAfterPost(cfg, s, reply);
    assert s'.log == s.log + [AttemptOf(s, reply)];
    assert s'.offers == s.offers && s'.queue == s.queue && s'.tickets == s.tickets && s'.now == s.now;
    assert !s'.worker.Posting?;
  }

  lemma StepConsistent(cfg: Config, s: State, step: Step)
    requires Enabled(cfg, s, step) && Conserved(s) && Consistent(cfg, s)
    ensures Consistent(cfg, Next(cfg, s, step))
  {
    match step
    case Publish(_, body, listed) => PublishConsistent(cfg, s, body, listed);
    case Take => TakeConsistent(cfg, s);
    case Finish(reply) => FinishConsistent(cfg, s, reply);
    case Fire(i) => FireConsistent(cfg, s, i);
    case Push(i) => PushConsistent(cfg, s, i);
    case Tick(to) => TimePasses(cfg, s, to);
    case _ =>
  }
}
