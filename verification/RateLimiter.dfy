/**
 The rate limiter itself: a map of visitors, each with a token bucket shared by reference with the
 requests that looked it up, and a cleanup loop that deletes from the map.
 */
module RateLimiter {
  import opened RateLimitModel

  /** A token bucket, with the contract golang.org/x/time/rate documents. */
  class Limiter {
    const policy: Policy
    ghost const owner: Ip
    ghost const index: nat
    var tokens: real
    var last: real

    ghost function Contents(): Bucket
      reads this
    {
      Bucket(tokens, last)
    }

    constructor (policy: Policy, at: real, ghost owner: Ip, ghost index: nat)
      ensures this.policy == policy && Contents() == FullBucket(policy, at)
      ensures this.owner == owner && this.index == index
    {
      this.policy, this.owner, this.index := policy, owner, index;
      tokens, last := policy.burst as real, at;
    }

    method Allow(at: real) returns (ok: bool)
      modifies this
      ensures ok == Admits(policy, old(Contents()), at)
      ensures Contents() == Spend(policy, old(Contents()), at)
      ensures ok <==> policy.burst >= 1 && old(tokens) + policy.rps * (at - old(last)) >= 1.0
      ensures !ok ==> tokens == old(tokens) && last == old(last)
      ensures var level := old(tokens) + policy.rps * (at - old(last));
        ok ==> last == at && tokens == (if level > policy.burst as real then policy.burst as real else level) - 1.0
    {
      var level := tokens + Inflow(policy, at - last);
      if level > policy.burst as real {
        level := policy.burst as real;
      }
      assert level == Level(policy, Contents(), at);
      ok := level >= 1.0;
      if ok {
        tokens, last := level - 1.0, at;
      }
    }
  }

  datatype Entry = Entry(limiter: Limiter, lastSeen: real)

  class IPRateLimiter {
    const policy: Policy
    var visitors: map<Ip, Entry>
    // the abstract table, and the limiter objects behind it
    ghost var table: Table
    ghost var made: map<Ip, seq<Limiter>>
    ghost var Repr: set<Limiter>

    /** Limiter `k` of `ip` is an object of its own, and holds what the table says. */
    ghost predicate Names(l: Limiter, ip: Ip, k: nat)
      reads this`table, this`Repr, l
      requires ip in table.limiters && k < |table.limiters[ip]|
    {
      l in Repr && l.policy == policy && l.owner == ip && l.index == k && l.Contents() == table.limiters[ip][k]
    }

    ghost predicate Objects()
      reads this`table, this`made, this`Repr, Repr
    {
      && made.Keys == table.limiters.Keys
      && (forall ip :: ip in made ==> |made[ip]| == |table.limiters[ip]|)
      && (forall ip, k :: ip in made && 0 <= k < |made[ip]| ==> made[ip][k] in Repr && Names(made[ip][k], ip, k))
    }

    /** The map of visitors is the table's, name for name. */
    ghost predicate Entries()
      reads this
    {
      && visitors.Keys == table.visitors.Keys
      && (forall ip :: ip in visitors ==>
            && visitors[ip].lastSeen == table.visitors[ip].lastSeen
            && ip in made && table.visitors[ip].lim < |made[ip]|
            && visitors[ip].limiter == made[ip][table.visitors[ip].lim])
    }

    ghost predicate Valid()
      reads this, Repr
    {
      Objects() && Entries()
    }

    constructor (policy: Policy)
      ensures Valid() && table == Table(map[], map[]) && this.policy == policy && Repr == {}
    {
      this.policy := policy;
      visitors, made, table, Repr := map[], map[], Table(map[], map[]), {};
    }

    method GetLimiter(ip: Ip, now: real) returns (limiter: Limiter)
      requires Valid()
      modifies this
      ensures Valid() && fresh(Repr - old(Repr))
      ensures table == Lookup(policy, old(table), ip, now)
      ensures visitors == old(visitors)[ip := Entry(limiter, now)]
      ensures ip in old(visitors) ==> limiter == old(visitors)[ip].limiter
      ensures ip !in old(visitors) ==>
        fresh(limiter) && limiter.policy == policy && limiter.tokens == policy.burst as real && limiter.last == now
    {
      hide Level, Inflow;
      if ip !in visitors {
        limiter := Make(ip, now);
        SetVisitor(ip, limiter, now, limiter.index);
      } else {
        limiter := visitors[ip].limiter;
        SetVisitor(ip, limiter, now, table.visitors[ip].lim);
      }
    }

    method SetVisitor(ip: Ip, limiter: Limiter, now: real, ghost lim: nat)
      requires Valid() && ip in made && lim < |made[ip]| && made[ip][lim] == limiter
      modifies this`table, this`visitors
      ensures Valid()
      ensures table == old(table).(visitors := old(table).visitors[ip := Visitor(lim, now)])
      ensures visitors == old(visitors)[ip := Entry(limiter, now)]
    {
      visitors := visitors[ip := Entry(limiter, now)];
      table := table.(visitors := table.visitors[ip := Visitor(lim, now)]);
    }

    /** rate.NewLimiter, entered into the history of limiters. */
    method Make(ip: Ip, now: real) returns (limiter: Limiter)
      requires Valid()
      modifies this`table, this`made, this`Repr
      ensures Valid() && fresh(limiter) && Repr == old(Repr) + {limiter}
      ensures limiter.policy == policy && limiter.Contents() == FullBucket(policy, now)
      ensures table == old(table).(
        limiters := old(table).limiters[ip := old(table).Made(ip) + [FullBucket(policy, now)]])
      ensures limiter.index == |old(table).Made(ip)|
      ensures ip in made && |made[ip]| == limiter.index + 1 && made[ip][limiter.index] == limiter
    {
      hide Level, Inflow, Lookup, Draw, Evict;
      limiter := new Limiter(policy, now, ip, |table.Made(ip)|);
      Enter(ip, limiter);
    }

    ghost method Enter(ip: Ip, limiter: Limiter)
      requires Valid() && limiter.policy == policy && limiter.owner == ip && limiter.index == |table.Made(ip)|
      modifies this`table, this`made, this`Repr
      ensures Valid() && Repr == old(Repr) + {limiter}
      ensures table == old(table).(limiters := old(table).limiters[ip := old(table).Made(ip) + [limiter.Contents()]])
      ensures ip in made && |made[ip]| == limiter.index + 1 && made[ip][limiter.index] == limiter
    {
      var ls := if ip in made then made[ip] else [];
      table := table.(limiters := table.limiters[ip := table.Made(ip) + [limiter.Contents()]]);
      made := made[ip := ls + [limiter]];
      Repr := Repr + {limiter};
    }

    /** Both steps of a request, the second at its own reading of the clock. */
    method Allow(ip: Ip, seen: real, at: real) returns (ok: bool)
      requires Valid()
      modifies this, Repr
      ensures Valid() && fresh(Repr - old(Repr))
      ensures var tbl := Lookup(policy, old(table), ip, seen);
        && var lim := tbl.visitors[ip].lim;
        && lim < |tbl.Made(ip)|
        && ok == Admits(policy, tbl.Made(ip)[lim], at)
        && table == Draw(policy, tbl, ip, lim, at)
    {
      hide Level, Inflow, Admits, Spend, Lookup, Draw;
      var limiter := GetLimiter(ip, seen);
      ok := DrawOn(ip, limiter, at, table.visitors[ip].lim);
    }

    /** A request draws on the limiter it holds, whether or not a visitor still names it. */
    method DrawOn(ip: Ip, limiter: Limiter, at: real, ghost lim: nat) returns (ok: bool)
      requires Valid() && ip in made && lim < |made[ip]| && made[ip][lim] == limiter
      modifies this`table, limiter
      ensures Valid() && lim < |old(table).Made(ip)|
      ensures ok == Admits(policy, old(table).Made(ip)[lim], at)
      ensures table == Draw(policy, old(table), ip, lim, at)
    {
      hide Level, Inflow, Admits, Spend, Lookup;
      assert Names(limiter, ip, lim);
      ok := limiter.Allow(at);
      table := Draw(policy, table, ip, lim, at);
    }

    method Cleanup(now: real)
      requires Valid()
      modifies this`visitors, this`table
      ensures Valid() && table == Evict(policy, old(table), now)
      ensures visitors ==
        map ip | ip in old(visitors) && now - old(visitors)[ip].lastSeen <= policy.ttl :: old(visitors)[ip]
    {
      hide Level, Inflow, Lookup, Draw;
      DeleteStale(now);
      table := Evict(policy, table, now);
    }

    /** The loop over the map deletes while it iterates; the order of iteration is arbitrary. */
    method DeleteStale(now: real)
      modifies this`visitors
      ensures visitors ==
        map ip | ip in old(visitors) && !(now - old(visitors)[ip].lastSeen > policy.ttl) :: old(visitors)[ip]
    {
      var todo := visitors.Keys;
      while todo != {}
        invariant todo <= visitors.Keys <= old(visitors).Keys
        invariant forall ip :: ip in visitors ==> visitors[ip] == old(visitors)[ip]
        invariant forall ip :: ip in old(visitors) && ip !in todo ==>
          (ip in visitors <==> !(now - old(visitors)[ip].lastSeen > policy.ttl))
        decreases todo
      {
        var ip :| ip in todo;
        if now - visitors[ip].lastSeen > policy.ttl {
          visitors := visitors - {ip};
        }
        todo := todo - {ip};
      }
    }
  }
}
