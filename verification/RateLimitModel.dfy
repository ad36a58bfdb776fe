/**
 The per-IP rate limiter as a state machine. A request is two steps, since GetLimiter and the bucket
 each read the clock and other goroutines may run in between: Get looks the bucket up, Use draws
 on it. Sweep is one run of Cleanup. Limiters are named by their IP and the order in which they
 were made for it, so that a limiter that was evicted while a request still held it keeps its identity.
 */
module RateLimitModel {

  type Ip = string

  datatype Policy = Policy(rps: real, burst: nat, ttl: real) {
    predicate Valid() {
      rps >= 0.0 && ttl >= 0.0
    }
  }

  // ---------- The token bucket ----------

  datatype Bucket = Bucket(tokens: real, last: real)

  /** What flows in during `dt`. */
  function Inflow(p: Policy, dt: real): real {
    p.rps * dt
  }

  function Capped(p: Policy, x: real): real {
    if x > p.burst as real then p.burst as real else x
  }

  function Level(p: Policy, b: Bucket, at: real): real {
    Capped(p, b.tokens + Inflow(p, at - b.last))
  }

  /** A new bucket is full. */
  function FullBucket(p: Policy, at: real): Bucket {
    Bucket(p.burst as real, at)
  }

  predicate Admits(p: Policy, b: Bucket, at: real) {
    Level(p, b, at) >= 1.0
  }

  /** One request takes one token; a refused one takes nothing. */
  function Spend(p: Policy, b: Bucket, at: real): Bucket {
    if Admits(p, b, at) then Bucket(Level(p, b, at) - 1.0, at) else b
  }

  // ---------- The table of visitors ----------

  datatype Visitor = Visitor(lim: nat, lastSeen: real)

  datatype Table = Table(limiters: map<Ip, seq<Bucket>>, visitors: map<Ip, Visitor>) {
    /** All limiters ever made for `ip`, oldest first. */
    function Made(ip: Ip): seq<Bucket> {
      if ip in limiters then limiters[ip] else []
    }
  }

  /** GetLimiter: the limiter is afterwards the one the visitor names. */
  function Lookup(p: Policy, tbl: Table, ip: Ip, at: real): Table {
    if ip in tbl.visitors then
      tbl.(visitors := tbl.visitors[ip := tbl.visitors[ip].(lastSeen := at)])
    else
      Table(tbl.limiters[ip := tbl.Made(ip) + [FullBucket(p, at)]],
            tbl.visitors[ip := Visitor(|tbl.Made(ip)|, at)])
  }

  function Draw(p: Policy, tbl: Table, ip: Ip, lim: nat, at: real): Table
    requires lim < |tbl.Made(ip)|
  {
    tbl.(limiters := tbl.limiters[ip := tbl.Made(ip)[lim := Spend(p, tbl.Made(ip)[lim], at)]])
  }

  predicate Stale(p: Policy, v: Visitor, at: real) {
    at - v.lastSeen > p.ttl
  }

  /** Cleanup. */
  function Evict(p: Policy, tbl: Table, at: real): Table {
    tbl.(visitors := map ip | ip in tbl.visitors && !Stale(p, tbl.visitors[ip], at) :: tbl.visitors[ip])
  }

  // ---------- Runs ----------

  /** A request between its two steps. */
  datatype Pending = Pending(ip: Ip, lim: nat, got: real)

  datatype Verdict = Verdict(req: nat, ip: Ip, time: real, admitted: bool)

  datatype State = State(table: Table, pending: map<nat, Pending>, now: real, trace: seq<Verdict>)

  const INITIAL := State(Table(map[], map[]), map[], 0.0, [])

  datatype Event =
    | Get(req: nat, ip: Ip, at: real)
    | Use(req: nat, ip: Ip, at: real)
    | Sweep(at: real)

  /** `gap` bounds the time between the two steps of a request. */
  predicate Enabled(gap: real, s: State, e: Event) {
    && s.now <= e.at
    && match e
       case Get(req, _, _) => req !in s.pending
       case Use(req, ip, at) =>
         && req in s.pending && s.pending[req].ip == ip && at <= s.pending[req].got + gap
         && s.pending[req].lim < |s.table.Made(ip)|
       case Sweep(_) => true
  }

  function Next(p: Policy, gap: real, s: State, e: Event): State
    requires Enabled(gap, s, e)
  {
    match e
    case Get(req, ip, at) =>
      var tbl := Lookup(p, s.table, ip, at);
      s.(table := tbl, pending := s.pending[req := Pending(ip, tbl.visitors[ip].lim, at)], now := at)
    case Use(req, ip, at) =>
      var lim := s.pending[req].lim;
      var ok := Admits(p, s.table.Made(ip)[lim], at);
      State(Draw(p, s.table, ip, lim, at), s.pending - {req}, at, s.trace + [Verdict(req, ip, at, ok)])
    case Sweep(at) =>
      s.(table := Evict(p, s.table, at), now := at)
  }

  predicate Runnable(p: Policy, gap: real, s: State, es: seq<Event>)
    decreases |es|
  {
    es == [] || (Enabled(gap, s, es[0]) && Runnable(p, gap, Next(p, gap, s, es[0]), es[1..]))
  }

  function Run(p: Policy, gap: real, s: State, es: seq<Event>): State
    requires Runnable(p, gap, s, es)
    decreases |es|
  {
    if es == [] then s else Run(p, gap, Next(p, gap, s, es[0]), es[1..])
  }

  /** The same requests at the same times, to a limiter that never evicts. */
  function WithoutSweeps(es: seq<Event>): seq<Event> {
    if es == [] then [] else (if es[0].Sweep? then [] else [es[0]]) + WithoutSweeps(es[1..])
  }

  lemma {:induction false} RunAppend(p: Policy, gap: real, s: State, a: seq<Event>, b: seq<Event>)
    requires Runnable(p, gap, s, a) && Runnable(p, gap, Run(p, gap, s, a), b)
    ensures Runnable(p, gap, s, a + b) && Run(p, gap, s, a + b) == Run(p, gap, Run(p, gap, s, a), b)
    decreases |a|
  {
    if a == [] {
      assert a + b == b;
    } else {
      assert (a + b)[1..] == a[1..] + b;
      RunAppend(p, gap, Next(p, gap, s, a[0]), a[1..], b);
    }
  }
}
