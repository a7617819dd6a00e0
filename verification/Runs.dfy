/** Whole runs of the shard: a sequence of operations whose clock reads never go back. What holds in
    every reachable state, and what a sweep does to it. */
module Runs {
  import opened Octets
  import opened Limits
  import opened Collections
  import opened Shard
  import opened Invariant
  import opened Census

  datatype Event = Event(now: int, call: Call)

  predicate Timed(clock: int, evs: seq<Event>)
    decreases |evs|
  {
    evs == [] || (clock <= evs[0].now && Timed(evs[0].now, evs[1..]))
  }

  function ClockAfter(clock: int, evs: seq<Event>): int
    decreases |evs|
  {
    if evs == [] then clock else ClockAfter(evs[0].now, evs[1..])
  }

  ghost function After(sha: Hash, s: State, evs: seq<Event>): State
    decreases |evs|
  {
    if evs == [] then s
    else After(sha, Step(sha, s, evs[0].call, evs[0].now).next, evs[1..])
  }

  ghost function Replies(sha: Hash, s: State, evs: seq<Event>): (r: seq<Reply>)
    ensures |r| == |evs|
    decreases |evs|
  {
    if evs == [] then []
    else
      var o := Step(sha, s, evs[0].call, evs[0].now);
      [o.reply] + Replies(sha, o.next, evs[1..])
  }

  lemma {:induction false} RunKeeps(sha: Hash, s: State, clock: int, evs: seq<Event>)
    requires Inv(sha, s, clock) && Timed(clock, evs)
    ensures Inv(sha, After(sha, s, evs), ClockAfter(clock, evs))
    decreases |evs|
  {
    if evs != [] {
      StepKeeps(sha, s, evs[0].call, clock, evs[0].now);
      RunKeeps(sha, Step(sha, s, evs[0].call, evs[0].now).next, evs[0].now, evs[1..]);
    }
  }

  /** A run may be cut anywhere. */
  lemma {:induction false} RunAppends(sha: Hash, s: State, clock: int, a: seq<Event>, b: seq<Event>)
    ensures After(sha, s, a + b) == After(sha, After(sha, s, a), b)
    ensures Timed(clock, a + b) <==> Timed(clock, a) && Timed(ClockAfter(clock, a), b)
    ensures ClockAfter(clock, a + b) == ClockAfter(ClockAfter(clock, a), b)
    decreases |a|
  {
    if a == [] {
      assert a + b == b;
    } else {
      assert (a + b)[0] == a[0] && (a + b)[1..] == a[1..] + b;
      RunAppends(sha, Step(sha, s, a[0].call, a[0].now).next, a[0].now, a[1..], b);
    }
  }

  lemma RunSnoc(sha: Hash, s: State, clock: int, evs: seq<Event>, e: Event)
    ensures After(sha, s, evs + [e]) == Step(sha, After(sha, s, evs), e.call, e.now).next
    ensures Timed(clock, evs + [e]) <==> Timed(clock, evs) && ClockAfter(clock, evs) <= e.now
  {
    RunAppends(sha, s, clock, evs, [e]);
    assert [e][1..] == [];
  }

  lemma RepliesTail(sha: Hash, s: State, s': State, evs: seq<Event>, i: nat)
    requires 0 < i < |evs| && s' == Step(sha, s, evs[0].call, evs[0].now).next
    ensures Replies(sha, s, evs)[i] == Replies(sha, s', evs[1..])[i - 1]
  {
  }

  lemma AfterTail(sha: Hash, s: State, s': State, evs: seq<Event>, i: nat)
    requires 0 < i <= |evs| && s' == Step(sha, s, evs[0].call, evs[0].now).next
    ensures After(sha, s, evs[..i]) == After(sha, s', evs[1..][..i - 1])
  {
    assert evs[..i][1..] == evs[1..][..i - 1] && evs[..i][0] == evs[0];
  }

  lemma {:induction false} ReplyIn(sha: Hash, s: State, evs: seq<Event>, i: nat, before: State, e: Event)
    requires i < |evs| && before == After(sha, s, evs[..i]) && e == evs[i]
    ensures Replies(sha, s, evs)[i] == Step(sha, before, e.call, e.now).reply
    decreases |evs|
  {
    if i > 0 {
      var s' := Step(sha, s, evs[0].call, evs[0].now).next;
      RepliesTail(sha, s, s', evs, i);
      AfterTail(sha, s, s', evs, i);
      ReplyIn(sha, s', evs[1..], i - 1, before, e);
    }
  }

  /** The reply to one operation of a run is what it is answered in the state the run has reached. */
  lemma ReplyAt(sha: Hash, s: State, evs: seq<Event>, i: nat)
    requires i < |evs|
    ensures Replies(sha, s, evs)[i] == Step(sha, After(sha, s, evs[..i]), evs[i].call, evs[i].now).reply
  {
    ReplyIn(sha, s, evs, i, After(sha, s, evs[..i]), evs[i]);
  }

  lemma AfterNext(sha: Hash, s: State, evs: seq<Event>, i: nat)
    requires i < |evs|
    ensures After(sha, s, evs[..i + 1]) == Step(sha, After(sha, s, evs[..i]), evs[i].call, evs[i].now).next
  {
    assert evs[..i + 1] == evs[..i] + [evs[i]];
    RunSnoc(sha, s, 0, evs[..i], evs[i]);
  }

  lemma TimedPrefix(sha: Hash, s: State, clock: int, evs: seq<Event>, i: nat)
    requires Timed(clock, evs) && i < |evs|
    ensures Timed(clock, evs[..i]) && ClockAfter(clock, evs[..i]) <= evs[i].now
  {
    assert evs == evs[..i] + evs[i..] && evs[i..][0] == evs[i];
    RunAppends(sha, s, clock, evs[..i], evs[i..]);
  }

  // ---- quotas ----

  lemma {:induction false} SumBytesBound(ms: seq<Message>, n: nat)
    requires forall m <- ms :: |m.envelope| <= n
    ensures SumBytes(ms) <= |ms| * n
  {
    if ms != [] {
      SumBytesBound(ms[..|ms| - 1], n);
      assert (|ms| - 1) * n + n == |ms| * n;
    }
  }

  /** Counted from the records themselves. */
  ghost predicate WithinQuotas(s: State, mid: Id, now: int) {
    && ChunksIn(s.transfers, mid) <= 16 * 1024 * 1024
    && ChunksAndManifestsIn(s.transfers, mid) <= 16 * 1024 * 1024 + 4095
    && (mid in s.mailboxes ==> |s.mailboxes[mid].messages| <= 100)
    && (mid in s.mailboxes ==> Envelopes(s.mailboxes[mid].messages) <= 100 * 32768)
    && |set tid | tid in s.transfers && s.transfers[tid].hasMailbox && s.transfers[tid].mailboxID == mid
                  && (s.transfers[tid].phase == Created || s.transfers[tid].phase == Uploading)
                  && now < s.transfers[tid].expiresAt| <= 16
  }

  /** The byte quotas that really hold of every mailbox in every reachable state, and the number of
      transfers that accept chunks at any later moment. */
  lemma ReachableQuotas(sha: Hash, evs: seq<Event>, start: int, mid: Id, later: int)
    requires Timed(start, evs) && ClockAfter(start, evs) <= later
    ensures WithinQuotas(After(sha, EMPTY, evs), mid, later)
  {
    InvEmpty(sha, start);
    RunKeeps(sha, EMPTY, start, evs);
    InvWithinQuotas(sha, After(sha, EMPTY, evs), ClockAfter(start, evs), mid, later);
  }

  lemma QueueWithinQuotas(mb: Mailbox, clock: int)
    requires MailboxOk(mb, clock)
    ensures |mb.messages| <= 100 && Envelopes(mb.messages) <= 100 * 32768
  {
    EnvelopesSummed(mb.messages);
    SumBytesBound(mb.messages, MAX_MESSAGE_BYTES);
  }

  lemma OpenWithinQuotas(ts: map<Id, Transfer>, mid: Id, now: int)
    requires QuotaOk(ts, mid, now)
    ensures |set tid | tid in ts && ts[tid].hasMailbox && ts[tid].mailboxID == mid
                       && (ts[tid].phase == Created || ts[tid].phase == Uploading) && now < ts[tid].expiresAt| <= 16
  {
    OpenCounted(ts, mid, now);
    assert OpenIn(ts, mid, now) ==
           set tid | tid in ts && ts[tid].hasMailbox && ts[tid].mailboxID == mid
                     && (ts[tid].phase == Created || ts[tid].phase == Uploading) && now < ts[tid].expiresAt;
  }

  lemma InvWithinQuotas(sha: Hash, s: State, clock: int, mid: Id, later: int)
    requires Inv(sha, s, clock) && clock <= later
    ensures WithinQuotas(s, mid, later)
  {
    QuotaLater(s.transfers, mid, clock, later);
    OpenWithinQuotas(s.transfers, mid, later);
    BytesCounted(sha, s, clock, mid);
    if mid in s.mailboxes {
      QueueWithinQuotas(s.mailboxes[mid], clock);
    }
  }

  /** A well-formed send to a live mailbox is refused exactly when 100 unexpired messages are queued:
      the byte quota of the message plane never bites. */
  lemma ByteQuotaNeverFires(sha: Hash, s: State, clock: int, m: SendMessage, id: Id, now: int)
    requires Inv(sha, s, clock) && clock <= now
    requires CheckSend(m).None? && LiveMailbox(s.mailboxes, m.mailboxID, now)
    ensures var queued := |Filter(s.mailboxes[m.mailboxID].messages, Unexpired(now))|;
            Send(s.mailboxes, m, id, now).reply ==
              if queued >= MAX_QUEUED then Err(QuotaExceeded) else Sent(id, queued + 1)
  {
    var mb := s.mailboxes[m.mailboxID];
    assert MailboxOk(mb, clock);
    FilterMembers(mb.messages, Unexpired(now));
    SumBytesBound(Filter(mb.messages, Unexpired(now)), MAX_MESSAGE_BYTES);
  }

  // ---- lifetimes and sweeps ----

  /** A mailbox outlives everything bound to it. */
  lemma MailboxOutlives(sha: Hash, s: State, clock: int)
    requires Inv(sha, s, clock)
    ensures forall mid <- s.mailboxes ::
              forall m <- s.mailboxes[mid].messages :: m.expiresAt <= s.mailboxes[mid].expiresAt
    ensures forall tid <- s.transfers ::
              var t := s.transfers[tid];
              && t.expiresAt <= t.createdAt + 21 * 24 * 3600 * 1000
              && (t.hasMailbox ==> t.mailboxID in s.mailboxes && t.expiresAt <= s.mailboxes[t.mailboxID].expiresAt)
  {
    forall mid <- s.mailboxes
      ensures forall m <- s.mailboxes[mid].messages :: m.expiresAt <= s.mailboxes[mid].expiresAt
    {
      assert MailboxOk(s.mailboxes[mid], clock);
    }
    forall tid <- s.transfers
      ensures var t := s.transfers[tid];
              && t.expiresAt <= t.createdAt + 21 * 24 * 3600 * 1000
              && (t.hasMailbox ==> t.mailboxID in s.mailboxes && t.expiresAt <= s.mailboxes[t.mailboxID].expiresAt)
    {
      assert TransferOk(sha, s.transfers[tid], clock) && OwnerOk(s.mailboxes, s.transfers[tid]);
    }
  }

  function QueueLength(): Mailbox -> int { (mb: Mailbox) => |mb.messages| }

  /** A sweep keeps exactly what has not expired: in particular it never reclaims a mailbox that still has
      a live message or transfer, and leaves nothing expired behind. */
  lemma SweepKeepsExactlyTheLive(sha: Hash, s: State, clock: int, now: int)
    requires Inv(sha, s, clock) && clock <= now
    ensures var s' := SweepStep(s, now).next;
            && (forall mid: Id :: mid in s'.mailboxes <==> LiveMailbox(s.mailboxes, mid, now))
            && (forall mid <- s'.mailboxes :: s'.mailboxes[mid] == Prune(s.mailboxes[mid], now))
            && (forall tid: Id :: tid in s'.transfers <==> tid in s.transfers && now < s.transfers[tid].expiresAt)
            && (forall tid <- s'.transfers :: s'.transfers[tid] == s.transfers[tid])
            && s'.replay == LiveKeys(s.replay, now)
  {
    InvLater(sha, s, clock, now);
    forall mid <- s.mailboxes
      ensures Reclaimed(s.mailboxes[mid], s.transfers, mid, now) <==> now >= s.mailboxes[mid].expiresAt
    {
      if now >= s.mailboxes[mid].expiresAt {
        ExpiredMailboxIsIdle(sha, s, mid, now);
      }
    }
  }

  /** The sum over a map splits into what is dropped and what is left. */
  lemma {:induction false} TotalSplit<K, V>(m: map<K, V>, n: map<K, V>, w: V -> int, u: V -> int)
    requires n.Keys <= m.Keys
    requires forall k <- m :: w(m[k]) == u(m[k]) + if k in n then w(n[k]) else 0
    ensures Total(m, w) == Total(m, u) + Total(n, w)
    decreases |m|
  {
    if m == map[] {
      assert n == map[];
    } else {
      var k :| k in m;
      MapRemove(m, k);
      TotalRemove(m, k, w);
      TotalRemove(m, k, u);
      if k in n {
        MapRemove(n, k);
        TotalRemove(n, k, w);
        TotalSplit(m - {k}, n - {k}, w, u);
      } else {
        TotalSplit(m - {k}, n, w, u);
      }
    }
  }

  lemma MessagesDropped(mbs: map<Id, Mailbox>, left: map<Id, Mailbox>, now: int)
    requires left.Keys <= mbs.Keys
    requires forall mid <- left :: left[mid] == Prune(mbs[mid], now)
    requires forall mid <- mbs :: mid in left || Prune(mbs[mid], now).messages == []
    ensures Total(mbs, LapsedCount(now)) == Total(mbs, QueueLength()) - Total(left, QueueLength())
  {
    TotalSplit(mbs, left, QueueLength(), LapsedCount(now));
  }

  lemma NothingLiveDropped(sha: Hash, s: State, clock: int, now: int, left: map<Id, Mailbox>)
    requires Inv(sha, s, clock) && clock <= now
    requires forall mid: Id :: mid in left <==> LiveMailbox(s.mailboxes, mid, now)
    ensures forall mid <- s.mailboxes :: mid in left || Prune(s.mailboxes[mid], now).messages == []
  {
    InvLater(sha, s, clock, now);
    forall mid <- s.mailboxes
      ensures mid in left || Prune(s.mailboxes[mid], now).messages == []
    {
      if mid !in left {
        ExpiredMailboxIsIdle(sha, s, mid, now);
      }
    }
  }

  lemma SweepDrops(sha: Hash, s: State, clock: int, now: int, left: map<Id, Mailbox>)
    requires Inv(sha, s, clock) && clock <= now && left == SweepStep(s, now).next.mailboxes
    ensures Total(s.mailboxes, LapsedCount(now)) ==
            Total(s.mailboxes, QueueLength()) - Total(left, QueueLength())
  {
    SweepKeepsExactlyTheLive(sha, s, clock, now);
    NothingLiveDropped(sha, s, clock, now, left);
    MessagesDropped(s.mailboxes, left, now);
  }

  /** The counts of a sweep are the numbers of messages, transfers and mailboxes that disappear. */
  lemma SweepCountsExact(sha: Hash, s: State, clock: int, now: int)
    requires Inv(sha, s, clock) && clock <= now
    ensures var s' := SweepStep(s, now).next;
            SweepStep(s, now).reply ==
              Swept(Total(s.mailboxes, QueueLength()) - Total(s'.mailboxes, QueueLength()),
                    |s.transfers| - |s'.transfers|, |s.mailboxes| - |s'.mailboxes|)
  {
    SweepDrops(sha, s, clock, now, SweepStep(s, now).next.mailboxes);
  }

  ghost predicate NothingExpired(s: State, now: int) {
    && (forall mid <- s.mailboxes :: now < s.mailboxes[mid].expiresAt)
    && (forall mid <- s.mailboxes :: Prune(s.mailboxes[mid], now) == s.mailboxes[mid])
    && (forall tid <- s.transfers :: now < s.transfers[tid].expiresAt)
    && (forall k <- s.replay :: now < s.replay[k])
  }

  lemma PruneTwice(mb: Mailbox, now: int)
    ensures Prune(Prune(mb, now), now) == Prune(mb, now)
  {
    FilterMembers(mb.messages, Unexpired(now));
    FilterAll(Filter(mb.messages, Unexpired(now)), Unexpired(now));
  }

  lemma SweepLeavesNothingExpired(sha: Hash, s: State, clock: int, now: int)
    requires Inv(sha, s, clock) && clock <= now
    ensures NothingExpired(SweepStep(s, now).next, now)
  {
    SweepKeepsExactlyTheLive(sha, s, clock, now);
    forall mid <- s.mailboxes {
      PruneTwice(s.mailboxes[mid], now);
    }
  }

  lemma SweepIdle(s: State, now: int)
    requires NothingExpired(s, now)
    ensures SweptState(s, now) == s
    ensures SweepCounts(s, s, now) == Swept(0, 0, 0)
  {
    assert SweptMailboxes(s.mailboxes, s.transfers, {}, now) == s.mailboxes;
    assert SweptTransfers(s.transfers, {}, now) == s.transfers;
    assert LiveKeys(s.replay, now) == s.replay;
    MessagesDropped(s.mailboxes, s.mailboxes, now);
  }

  /** A second sweep at the same time finds nothing. */
  lemma SweepAgain(sha: Hash, s: State, s': State, clock: int, now: int)
    requires Inv(sha, s, clock) && clock <= now && s' == SweepStep(s, now).next
    ensures SweepStep(s', now) == Outcome(s', Swept(0, 0, 0))
  {
    SweepLeavesNothingExpired(sha, s, clock, now);
    SweepIdle(s', now);
  }
}
