/** Lazy expiry is eager expiry: on the message plane nobody can tell whether, or when, the sweep runs. */
module Expiry {
  import opened Octets
  import opened Collections
  import opened Shard
  import opened Invariant
  import opened Runs
  import opened ReadOnly

  /** The replies that do not depend on sweeping. Registering a mailbox tells whether a record was still there,
      the bare secret check ignores the clock, and a sweep reports what it found: these are left out, see
      `RegistrationSeesSweep` and `SecretCheckSeesSweep`. */
  function Observed(call: Call, r: Reply): Option<Reply> {
    if call.DoCreateMailbox? || call.DoCheckReadSecret? || call.DoSweep? then None else Some(r)
  }

  function ObservedAll(evs: seq<Event>, rs: seq<Reply>): seq<Option<Reply>>
    requires |evs| == |rs|
  {
    seq(|evs|, i requires 0 <= i < |evs| => Observed(evs[i].call, rs[i]))
  }

  /** The same unexpired mailboxes with the same unexpired messages. */
  ghost predicate SameLive(m: map<Id, Mailbox>, n: map<Id, Mailbox>, now: int) {
    forall mid: Id ::
      && LiveMailbox(m, mid, now) == LiveMailbox(n, mid, now)
      && (LiveMailbox(m, mid, now) ==> Prune(m[mid], now) == Prune(n[mid], now))
  }

  ghost predicate Twins(s: State, u: State, now: int) {
    SameLive(s.mailboxes, u.mailboxes, now) && LiveKeys(s.replay, now) == LiveKeys(u.replay, now)
  }

  // ---- time passes ----

  lemma PruneLater(mb: Mailbox, clock: int, now: int)
    requires clock <= now
    ensures Prune(mb, now) == Prune(Prune(mb, clock), now)
  {
    FilterWeaker(mb.messages, Unexpired(clock), Unexpired(now));
  }

  lemma SameLiveLater(m: map<Id, Mailbox>, n: map<Id, Mailbox>, clock: int, now: int)
    requires SameLive(m, n, clock) && clock <= now
    ensures SameLive(m, n, now)
  {
    forall mid: Id
      ensures LiveMailbox(m, mid, now) == LiveMailbox(n, mid, now)
      ensures LiveMailbox(m, mid, now) ==> Prune(m[mid], now) == Prune(n[mid], now)
    {
      if LiveMailbox(m, mid, clock) {
        PruneLater(m[mid], clock, now);
        PruneLater(n[mid], clock, now);
      }
    }
  }

  lemma LiveKeysLater(r: map<Digest, int>, q: map<Digest, int>, clock: int, now: int)
    requires LiveKeys(r, clock) == LiveKeys(q, clock) && clock <= now
    ensures LiveKeys(r, now) == LiveKeys(q, now)
  {
    assert LiveKeys(r, now) == LiveKeys(LiveKeys(r, clock), now);
    assert LiveKeys(q, now) == LiveKeys(LiveKeys(q, clock), now);
  }

  lemma TwinsLater(s: State, u: State, clock: int, now: int)
    requires Twins(s, u, clock) && clock <= now
    ensures Twins(s, u, now)
  {
    SameLiveLater(s.mailboxes, u.mailboxes, clock, now);
    LiveKeysLater(s.replay, u.replay, clock, now);
  }

  // ---- one operation ----

  lemma SameLiveSet(m: map<Id, Mailbox>, n: map<Id, Mailbox>, mid: Id, a: Mailbox, b: Mailbox, now: int)
    requires SameLive(m, n, now) && a.expiresAt == b.expiresAt && Prune(a, now) == Prune(b, now)
    ensures SameLive(m[mid := a], n[mid := b], now)
  {
  }

  ghost predicate SameMail(call: Call, o: MailOutcome, p: MailOutcome, now: int) {
    Observed(call, o.reply) == Observed(call, p.reply) && SameLive(o.mailboxes, p.mailboxes, now)
  }

  /** A stale record holds nothing that is still alive, so refreshing it is like starting afresh. */
  lemma RegisterTwins(m: map<Id, Mailbox>, n: map<Id, Mailbox>, mid: Id, h: Digest, now: int)
    requires SameLive(m, n, now)
    requires mid in m ==> MailboxOk(m[mid], now)
    requires mid in n ==> MailboxOk(n[mid], now)
    ensures SameMail(DoCreateMailbox(mid, h), Register(m, mid, h, now), Register(n, mid, h, now), now)
  {
    var a, b := Register(m, mid, h, now).mailboxes[mid], Register(n, mid, h, now).mailboxes[mid];
    if LiveMailbox(m, mid, now) {
      assert Prune(m[mid], now) == Prune(n[mid], now);
    } else {
      assert !LiveMailbox(n, mid, now);
      FilterNone(a.messages, Unexpired(now));
      FilterNone(b.messages, Unexpired(now));
    }
    SameLiveSet(m, n, mid, a, b, now);
  }

  lemma SendTwins(m: map<Id, Mailbox>, n: map<Id, Mailbox>, msg: SendMessage, id: Id, now: int)
    requires SameLive(m, n, now)
    ensures SameMail(DoSend(msg, id), Send(m, msg, id, now), Send(n, msg, id, now), now)
  {
    if CheckSend(msg).None? && LiveMailbox(m, msg.mailboxID, now) {
      var mid: Id := msg.mailboxID;
      assert LiveMailbox(n, mid, now) && Prune(m[mid], now) == Prune(n[mid], now);
      var a := Send(m, msg, id, now).mailboxes[mid];
      SameLiveSet(m, n, mid, a, a, now);
    } else if |msg.mailboxID| == 16 {
      assert LiveMailbox(m, msg.mailboxID, now) == LiveMailbox(n, msg.mailboxID, now);
    }
  }

  lemma ReceiveTwins(sha: Hash, m: map<Id, Mailbox>, n: map<Id, Mailbox>, call: Call, now: int)
    requires SameLive(m, n, now) && call.DoReceive?
    ensures SameMail(call, Receive(sha, m, call.mid, call.secret, call.limit, call.peek, now),
                     Receive(sha, n, call.mid, call.secret, call.limit, call.peek, now), now)
  {
    assert LiveMailbox(m, call.mid, now) == LiveMailbox(n, call.mid, now);
    if LiveMailbox(m, call.mid, now) {
      assert Prune(m[call.mid], now) == Prune(n[call.mid], now);
      var a := Receive(sha, m, call.mid, call.secret, call.limit, call.peek, now).mailboxes[call.mid];
      SameLiveSet(m, n, call.mid, a, a, now);
    }
  }

  lemma AckTwins(sha: Hash, m: map<Id, Mailbox>, n: map<Id, Mailbox>, call: Call, now: int)
    requires SameLive(m, n, now) && call.DoAck?
    ensures SameMail(call, Ack(sha, m, call.mid, call.secret, call.ids, call.disposition, now),
                     Ack(sha, n, call.mid, call.secret, call.ids, call.disposition, now), now)
  {
    assert LiveMailbox(m, call.mid, now) == LiveMailbox(n, call.mid, now);
    if LiveMailbox(m, call.mid, now) {
      assert Prune(m[call.mid], now) == Prune(n[call.mid], now);
      var a := Ack(sha, m, call.mid, call.secret, call.ids, call.disposition, now).mailboxes[call.mid];
      SameLiveSet(m, n, call.mid, a, a, now);
    }
  }

  lemma ReplayTwins(s: State, u: State, key: Digest, now: int)
    requires LiveKeys(s.replay, now) == LiveKeys(u.replay, now)
    ensures ReplayStep(s, key, now).reply == ReplayStep(u, key, now).reply
    ensures LiveKeys(ReplayStep(s, key, now).next.replay, now) == LiveKeys(ReplayStep(u, key, now).next.replay, now)
  {
    assert key in LiveKeys(s.replay, now) <==> key in LiveKeys(u.replay, now);
  }

  /** A sweep changes nothing that is alive. */
  lemma SweepTwins(sha: Hash, s: State, u: State, now: int)
    requires Inv(sha, s, now) && Twins(s, u, now)
    ensures Twins(SweepStep(s, now).next, u, now)
  {
    var s' := SweepStep(s, now).next;
    SweepKeepsExactlyTheLive(sha, s, now, now);
    forall mid: Id
      ensures LiveMailbox(s'.mailboxes, mid, now) == LiveMailbox(u.mailboxes, mid, now)
      ensures LiveMailbox(s'.mailboxes, mid, now) ==> Prune(s'.mailboxes[mid], now) == Prune(u.mailboxes[mid], now)
    {
      assert LiveMailbox(s.mailboxes, mid, now) == LiveMailbox(u.mailboxes, mid, now);
      if mid in s.mailboxes {
        PruneTwice(s.mailboxes[mid], now);
      }
    }
    assert LiveKeys(s'.replay, now) == LiveKeys(s.replay, now);
  }

  lemma SweepStepTwins(sha: Hash, s: State, u: State, now: int)
    requires Inv(sha, s, now) && Inv(sha, u, now) && Twins(s, u, now)
    ensures Twins(SweepStep(s, now).next, SweepStep(u, now).next, now)
  {
    SweepTwins(sha, s, u, now);
    SweepTwins(sha, u, SweepStep(s, now).next, now);
  }

  /** Twins give the same observed reply and stay twins. */
  ghost predicate SameStep(sha: Hash, s: State, u: State, call: Call, now: int) {
    var o, p := Step(sha, s, call, now), Step(sha, u, call, now);
    Observed(call, o.reply) == Observed(call, p.reply) && Twins(o.next, p.next, now)
  }

  lemma EnqueueStepTwins(sha: Hash, s: State, u: State, call: Call, now: int)
    requires Inv(sha, s, now) && Inv(sha, u, now) && Twins(s, u, now) && (call.DoCreateMailbox? || call.DoSend?)
    ensures SameStep(sha, s, u, call, now)
  {
    if call.DoSend? {
      SendTwins(s.mailboxes, u.mailboxes, call.message, call.minted, now);
    } else {
      RegisterTwins(s.mailboxes, u.mailboxes, call.mid, call.secretHash, now);
    }
  }

  lemma ReceiveStepTwins(sha: Hash, s: State, u: State, call: Call, now: int)
    requires Twins(s, u, now) && call.DoReceive?
    ensures SameStep(sha, s, u, call, now)
  {
    ReceiveTwins(sha, s.mailboxes, u.mailboxes, call, now);
  }

  lemma AckStepTwins(sha: Hash, s: State, u: State, call: Call, now: int)
    requires Twins(s, u, now) && call.DoAck?
    ensures SameStep(sha, s, u, call, now)
  {
    AckTwins(sha, s.mailboxes, u.mailboxes, call, now);
  }

  lemma LookStepTwins(sha: Hash, s: State, u: State, call: Call, now: int)
    requires Twins(s, u, now) && (call.DoMailboxExists? || call.DoCheckReadSecret? || call.DoReplay?)
    ensures SameStep(sha, s, u, call, now)
  {
    if call.DoMailboxExists? {
      assert LiveMailbox(s.mailboxes, call.mid, now) == LiveMailbox(u.mailboxes, call.mid, now);
    } else if call.DoReplay? {
      ReplayTwins(s, u, call.key, now);
    }
  }

  lemma StepTwins(sha: Hash, s: State, u: State, call: Call, now: int)
    requires Inv(sha, s, now) && Inv(sha, u, now) && Twins(s, u, now)
    requires MessagePlane(call)
    ensures SameStep(sha, s, u, call, now)
  {
    if call.DoSweep? {
      SweepStepTwins(sha, s, u, now);
    } else if call.DoReceive? {
      ReceiveStepTwins(sha, s, u, call, now);
    } else if call.DoAck? {
      AckStepTwins(sha, s, u, call, now);
    } else if call.DoCreateMailbox? || call.DoSend? {
      EnqueueStepTwins(sha, s, u, call, now);
    } else {
      LookStepTwins(sha, s, u, call, now);
    }
  }

  // ---- whole runs ----

  predicate MessageRun(evs: seq<Event>) { forall e <- evs :: MessagePlane(e.call) }

  /** One more pair of replies that look alike. */
  lemma ObservedCons(e: Event, evs: seq<Event>, r: Reply, rs: seq<Reply>, q: Reply, qs: seq<Reply>)
    requires |evs| == |rs| == |qs| && ObservedAll(evs, rs) == ObservedAll(evs, qs)
    requires Observed(e.call, r) == Observed(e.call, q)
    ensures ObservedAll([e] + evs, [r] + rs) == ObservedAll([e] + evs, [q] + qs)
  {
    var all, left, right := [e] + evs, [r] + rs, [q] + qs;
    forall i | 0 <= i < |all|
      ensures ObservedAll(all, left)[i] == ObservedAll(all, right)[i]
    {
      if i > 0 {
        assert ObservedAll(evs, rs)[i - 1] == ObservedAll(evs, qs)[i - 1];
      }
    }
  }

  lemma KeptTwins(sha: Hash, s: State, u: State, call: Call, clock: int, now: int)
    requires Inv(sha, s, clock) && Inv(sha, u, clock) && Twins(s, u, clock) && clock <= now && MessagePlane(call)
    ensures SameStep(sha, s, u, call, now)
    ensures Inv(sha, Step(sha, s, call, now).next, now) && Inv(sha, Step(sha, u, call, now).next, now)
  {
    TwinsLater(s, u, clock, now);
    InvLater(sha, s, clock, now);
    InvLater(sha, u, clock, now);
    StepKeepsNow(sha, s, call, now);
    StepKeepsNow(sha, u, call, now);
    StepTwins(sha, s, u, call, now);
  }

  lemma SkippedTwins(sha: Hash, s: State, u: State, clock: int, now: int)
    requires Inv(sha, s, clock) && Inv(sha, u, clock) && Twins(s, u, clock) && clock <= now
    ensures var s' := SweepStep(s, now).next;
            Inv(sha, s', now) && Inv(sha, u, now) && Twins(s', u, now)
  {
    TwinsLater(s, u, clock, now);
    InvLater(sha, s, clock, now);
    InvLater(sha, u, clock, now);
    SweepKeeps(sha, s, now);
    SweepTwins(sha, s, u, now);
  }

  lemma KeptReplies(sha: Hash, s: State, u: State, evs: seq<Event>, mask: seq<bool>)
    requires |evs| == |mask| && evs != [] && mask[0]
    ensures var o, p := Step(sha, s, evs[0].call, evs[0].now), Step(sha, u, evs[0].call, evs[0].now);
            var rest := Select(evs[1..], mask[1..]);
            && Select(evs, mask) == [evs[0]] + rest
            && Select(Replies(sha, s, evs), mask) == [o.reply] + Select(Replies(sha, o.next, evs[1..]), mask[1..])
            && Replies(sha, u, Select(evs, mask)) == [p.reply] + Replies(sha, p.next, rest)
  {
    var rest := Select(evs[1..], mask[1..]);
    assert ([evs[0]] + rest)[1..] == rest;
  }

  /** The kept events get the same observed replies in the whole run from `s` as in the run without the others from
      `u`. */
  ghost predicate Agree(sha: Hash, s: State, u: State, evs: seq<Event>, mask: seq<bool>)
    requires |mask| == |evs|
  {
    && |Select(Replies(sha, s, evs), mask)| == |Select(evs, mask)|
    && ObservedAll(Select(evs, mask), Select(Replies(sha, s, evs), mask)) ==
       ObservedAll(Select(evs, mask), Replies(sha, u, Select(evs, mask)))
  }

  lemma AgreeKept(sha: Hash, s: State, u: State, evs: seq<Event>, mask: seq<bool>)
    requires |evs| == |mask| && evs != [] && mask[0]
    requires var o, p := Step(sha, s, evs[0].call, evs[0].now), Step(sha, u, evs[0].call, evs[0].now);
             && Observed(evs[0].call, o.reply) == Observed(evs[0].call, p.reply)
             && Agree(sha, o.next, p.next, evs[1..], mask[1..])
    ensures Agree(sha, s, u, evs, mask)
  {
    var o, p := Step(sha, s, evs[0].call, evs[0].now), Step(sha, u, evs[0].call, evs[0].now);
    var rest := Select(evs[1..], mask[1..]);
    KeptReplies(sha, s, u, evs, mask);
    ObservedCons(evs[0], rest, o.reply, Select(Replies(sha, o.next, evs[1..]), mask[1..]),
                 p.reply, Replies(sha, p.next, rest));
  }

  lemma AgreeSkipped(sha: Hash, s: State, u: State, evs: seq<Event>, mask: seq<bool>)
    requires |evs| == |mask| && evs != [] && !mask[0] && evs[0].call.DoSweep?
    requires Agree(sha, SweepStep(s, evs[0].now).next, u, evs[1..], mask[1..])
    ensures Agree(sha, s, u, evs, mask)
  {
    var s' := SweepStep(s, evs[0].now).next;
    assert Select(evs, mask) == Select(evs[1..], mask[1..]);
    assert Select(Replies(sha, s, evs), mask) == Select(Replies(sha, s', evs[1..]), mask[1..]);
  }

  /** What the rest of a run asks of its events. */
  lemma RunTail(clock: int, evs: seq<Event>, mask: seq<bool>)
    requires Timed(clock, evs) && MessageRun(evs) && |mask| == |evs| && evs != []
    requires forall i :: 0 <= i < |evs| ==> mask[i] || evs[i].call.DoSweep?
    ensures Timed(evs[0].now, evs[1..]) && MessageRun(evs[1..]) && clock <= evs[0].now && MessagePlane(evs[0].call)
    ensures forall i :: 0 <= i < |evs[1..]| ==> mask[1..][i] || evs[1..][i].call.DoSweep?
  {
    assert evs[0] in evs;
  }

  /** Sweeps may be inserted into or dropped from a message-plane run anywhere: every reply to a send, receive,
      ack, existence or replay check stays the same. `mask` marks the events that are kept. */
  lemma {:induction false} SweepsAreInvisible(
    sha: Hash, s: State, u: State, clock: int, evs: seq<Event>, mask: seq<bool>)
    requires Inv(sha, s, clock) && Inv(sha, u, clock) && Twins(s, u, clock)
    requires Timed(clock, evs) && MessageRun(evs) && |mask| == |evs|
    requires forall i :: 0 <= i < |evs| ==> mask[i] || evs[i].call.DoSweep?
    ensures Agree(sha, s, u, evs, mask)
    decreases |evs|
  {
    if evs != [] {
      var call, now := evs[0].call, evs[0].now;
      RunTail(clock, evs, mask);
      if mask[0] {
        KeptTwins(sha, s, u, call, clock, now);
        SweepsAreInvisible(sha, Step(sha, s, call, now).next, Step(sha, u, call, now).next, now, evs[1..], mask[1..]);
        AgreeKept(sha, s, u, evs, mask);
      } else {
        SkippedTwins(sha, s, u, clock, now);
        SweepsAreInvisible(sha, SweepStep(s, now).next, u, now, evs[1..], mask[1..]);
        AgreeSkipped(sha, s, u, evs, mask);
      }
    }
  }

  // ---- eager expiry ----

  /** The run in which everything expired is dropped just before it could be looked at. */
  function Eager(evs: seq<Event>): seq<Event> {
    if evs == [] then [] else [Event(evs[0].now, DoSweep), evs[0]] + Eager(evs[1..])
  }

  function EagerMask(evs: seq<Event>): (mask: seq<bool>)
    ensures |mask| == |Eager(evs)|
  {
    if evs == [] then [] else [false, true] + EagerMask(evs[1..])
  }

  lemma {:induction false} EagerShape(clock: int, evs: seq<Event>)
    requires Timed(clock, evs) && MessageRun(evs)
    ensures Timed(clock, Eager(evs)) && MessageRun(Eager(evs))
    ensures Select(Eager(evs), EagerMask(evs)) == evs
    ensures forall i :: 0 <= i < |Eager(evs)| ==> EagerMask(evs)[i] || Eager(evs)[i].call.DoSweep?
    decreases |evs|
  {
    if evs != [] {
      EagerShape(evs[0].now, evs[1..]);
      var all, mask := Eager(evs), EagerMask(evs);
      assert all[1..] == [evs[0]] + Eager(evs[1..]) && all[1..][1..] == Eager(evs[1..]);
      assert mask[1..] == [true] + EagerMask(evs[1..]) && mask[1..][1..] == EagerMask(evs[1..]);
    }
  }

  /** Lazy expiry gives the same observable replies as eager expiry, on every message-plane run. */
  lemma LazyIsEager(sha: Hash, s: State, clock: int, evs: seq<Event>)
    requires Inv(sha, s, clock) && Timed(clock, evs) && MessageRun(evs)
    ensures |Select(Replies(sha, s, Eager(evs)), EagerMask(evs))| == |evs|
    ensures ObservedAll(evs, Replies(sha, s, evs)) ==
            ObservedAll(evs, Select(Replies(sha, s, Eager(evs)), EagerMask(evs)))
  {
    EagerShape(clock, evs);
    SweepsAreInvisible(sha, s, s, clock, Eager(evs), EagerMask(evs));
  }

  // ---- the two replies that do see a sweep ----

  lemma RegistrationSeesSweep(sha: Hash, s: State, clock: int, mid: Id, h: Digest, now: int)
    requires Inv(sha, s, clock) && clock <= now
    ensures Register(s.mailboxes, mid, h, now).reply != Register(SweepStep(s, now).next.mailboxes, mid, h, now).reply
            <==> mid in s.mailboxes && now >= s.mailboxes[mid].expiresAt
  {
    SweepKeepsExactlyTheLive(sha, s, clock, now);
  }

  lemma SecretCheckSeesSweep(sha: Hash, s: State, clock: int, mid: Id, secret: Bytes, now: int)
    requires Inv(sha, s, clock) && clock <= now
    ensures SecretOpens(sha, s.mailboxes, mid, secret) !=
            SecretOpens(sha, SweepStep(s, now).next.mailboxes, mid, secret)
            <==> SecretOpens(sha, s.mailboxes, mid, secret) && now >= s.mailboxes[mid].expiresAt
  {
    SweepKeepsExactlyTheLive(sha, s, clock, now);
  }
}
