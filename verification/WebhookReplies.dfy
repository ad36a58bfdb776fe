/**
 What the dispatcher makes of a reply, said in status codes.
 */
module WebhookReplies {
  import opened WebhookModel

  /** A 410, and any other failure that makes the count of failures reach the limit, deactivates. */
  predicate Deactivates(cfg: Config, s: State, reply: Reply)
    requires s.worker.Posting?
  {
    var id := s.worker.task.sub.id;
    var before := if id in s.failures then s.failures[id] else 0;
    || reply == Status(410)
    || ((reply.NoReply? || reply.code < 200 || reply.code > 299) && before + 1 >= cfg.maxFailures)
  }

  /**
   From 200 to 299 the delivery has succeeded and the count is back at 0. A 410 ends it and leaves the
   count alone. Anything else, or no reply at all, counts as a failure; below the limit the delivery is
   tried again after the next delay, if there is one.
   */
  predicate ReplySettles(cfg: Config, s: State, s': State, reply: Reply)
    requires s.worker.Posting?
  {
    var t := s.worker.task;
    var before := if t.sub.id in s.failures then s.failures[t.sub.id] else 0;
    && s'.requests == (if Deactivates(cfg, s, reply) then s.requests + [|s.log|] else s.requests)
    && if reply.Status? && 200 <= reply.code <= 299 then
         && s'.failures == s.failures[t.sub.id := 0]
         && s'.ended == s.ended[t.ticket := Success] && s'.retries == s.retries
       else if reply == Status(410) then
         && s'.failures == s.failures
         && s'.ended == s.ended[t.ticket := EndpointGone] && s'.retries == s.retries
       else
         && s'.failures == s.failures[t.sub.id := before + 1]
         && if before + 1 >= cfg.maxFailures then
              s'.ended == s.ended[t.ticket := Threshold] && s'.retries == s.retries
            else if t.attempt < |cfg.delays| then
              s'.ended == s.ended && s'.retries == s.retries + [Sleeping(t, s.now + cfg.delays[t.attempt])]
            else
              s'.ended == s.ended[t.ticket := Exhausted] && s'.retries == s.retries
  }

  /** The end of a POST does with each status code what it should. */
  lemma ReplyDecides(cfg: Config, s: State, reply: Reply)
    requires s.worker.Posting?
    ensures ReplySettles(cfg, s, DoFinish(cfg, s, reply), reply)
    ensures DoFinish(cfg, s, reply).worker
         == if Deactivates(cfg, s, reply) then Deactivating(s.worker.task.sub) else Idle
  {
    assert FailureCount(s.failures, s.worker.task.sub.id)
        == if s.worker.task.sub.id in s.failures then s.failures[s.worker.task.sub.id] else 0;
  }
}
