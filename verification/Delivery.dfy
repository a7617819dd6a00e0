/** What becomes of the messages of one mailbox over a whole run: none is lost, none is delivered twice,
    and those drained come out in the order they went in. */
module Delivery {
  import opened Octets
  import opened Limits
  import opened Collections
  import opened Geometry
  import opened Shard
  import opened Runs

  /** The history of a mailbox. `sent` and `drained` are read off the replies. */
  datatype Log = Log(sent: seq<Message>, drained: seq<Message>, consumed: seq<Message>, expired: seq<Message>)

  const NOTHING := Log([], [], [], [])

  function Queue(mbs: map<Id, Mailbox>, mid: Id): seq<Message> {
    if mid in mbs then mbs[mid].messages else []
  }

  function Among(ids: set<Bytes>): Message -> bool { (m: Message) => m.id in ids }

  /** The operation gets as far as dropping the expired messages of `mid`. */
  predicate Reaches(sha: Hash, mbs: map<Id, Mailbox>, mid: Id, call: Call, now: int) {
    match call
    case DoSend(m, _) => CheckSend(m).None? && m.mailboxID == mid && LiveMailbox(mbs, mid, now)
    case DoReceive(to, secret, _, _) => to == mid && LiveMailbox(mbs, mid, now) && SecretOpens(sha, mbs, mid, secret)
    case DoAck(to, secret, ids, d) =>
      && to == mid && !d.Unknown? && 1 <= |ids| <= MAX_BATCH
      && LiveMailbox(mbs, mid, now) && SecretOpens(sha, mbs, mid, secret)
    case DoSweep => mid in mbs
    case _ => false
  }

  function NewlySent(mid: Id, call: Call, r: Reply, now: int): seq<Message> {
    if call.DoSend? && call.message.mailboxID == mid && r.Sent?
    then [Message(r.id, call.message.envelope, call.message.senderPub, now, now + MSG_TTL)]
    else []
  }

  function NewlyDrained(mid: Id, call: Call, r: Reply): seq<Message> {
    if call.DoReceive? && call.mid == mid && r.Batch? && r.consumed then r.messages else []
  }

  function NewlyConsumed(mbs: map<Id, Mailbox>, mid: Id, call: Call, r: Reply, now: int): seq<Message> {
    if call.DoAck? && call.mid == mid && r.Acked? && call.disposition.Consumed?
    then Filter(Filter(Queue(mbs, mid), Unexpired(now)), Among(IdSet(call.ids)))
    else []
  }

  function NewlyExpired(sha: Hash, mbs: map<Id, Mailbox>, mid: Id, call: Call, now: int): seq<Message> {
    if Reaches(sha, mbs, mid, call, now) then Filter(Queue(mbs, mid), Lapsed(now)) else []
  }

  ghost function LogStep(sha: Hash, log: Log, s: State, mid: Id, call: Call, now: int): Log {
    var r := Step(sha, s, call, now).reply;
    Log(log.sent + NewlySent(mid, call, r, now),
        log.drained + NewlyDrained(mid, call, r),
        log.consumed + NewlyConsumed(s.mailboxes, mid, call, r, now),
        log.expired + NewlyExpired(sha, s.mailboxes, mid, call, now))
  }

  /** Every message sent is queued, drained, consumed or expired, counted with multiplicity; what was drained,
      followed by what is queued, is in the order of sending. */
  ghost predicate Ledger(log: Log, queue: seq<Message>) {
    && multiset(log.sent) == multiset(log.drained) + multiset(queue) + multiset(log.consumed) + multiset(log.expired)
    && Subseq(log.drained + queue, log.sent)
  }

  // ---- the four kinds of bookkeeping ----

  lemma LedgerPrune(log: Log, queue: seq<Message>, now: int)
    requires Ledger(log, queue)
    ensures Ledger(log.(expired := log.expired + Filter(queue, Lapsed(now))), Filter(queue, Unexpired(now)))
  {
    var live := Filter(queue, Unexpired(now));
    FilterSplits(queue, Unexpired(now), Lapsed(now));
    FilterSubseq(queue, Unexpired(now));
    SubseqRefl(log.drained);
    SubseqConcat(log.drained, log.drained, live, queue);
    SubseqTrans(log.drained + live, log.drained + queue, log.sent);
  }

  lemma LedgerSend(log: Log, queue: seq<Message>, m: Message)
    requires Ledger(log, queue)
    ensures Ledger(log.(sent := log.sent + [m]), queue + [m])
  {
    SubseqRefl([m]);
    SubseqConcat(log.drained + queue, log.sent, [m], [m]);
    assert log.drained + (queue + [m]) == log.drained + queue + [m];
  }

  lemma LedgerDrain(log: Log, queue: seq<Message>, n: nat)
    requires Ledger(log, queue) && n <= |queue|
    ensures Ledger(log.(drained := log.drained + queue[..n]), queue[n..])
  {
    assert queue == queue[..n] + queue[n..];
    assert log.drained + queue[..n] + queue[n..] == log.drained + queue;
  }

  lemma LedgerConsume(log: Log, queue: seq<Message>, ids: set<Bytes>)
    requires Ledger(log, queue)
    ensures Ledger(log.(consumed := log.consumed + Filter(queue, Among(ids))), Filter(queue, NotAmong(ids)))
  {
    var left := Filter(queue, NotAmong(ids));
    FilterSplits(queue, NotAmong(ids), Among(ids));
    FilterSubseq(queue, NotAmong(ids));
    SubseqRefl(log.drained);
    SubseqConcat(log.drained, log.drained, left, queue);
    SubseqTrans(log.drained + left, log.drained + queue, log.sent);
  }

  // ---- operations ----

  lemma QuietTransferStep(sha: Hash, s: State, mid: Id, call: Call, now: int)
    requires !MessagePlane(call)
    ensures Queue(Step(sha, s, call, now).next.mailboxes, mid) == Queue(s.mailboxes, mid)
  {
  }

  lemma QuietMessageStep(sha: Hash, s: State, mid: Id, call: Call, now: int)
    requires MessagePlane(call) && !Reaches(sha, s.mailboxes, mid, call, now)
    ensures Queue(Step(sha, s, call, now).next.mailboxes, mid) == Queue(s.mailboxes, mid)
    ensures var r := Step(sha, s, call, now).reply;
            && NewlySent(mid, call, r, now) == [] && NewlyDrained(mid, call, r) == []
            && NewlyConsumed(s.mailboxes, mid, call, r, now) == []
  {
  }

  lemma SentQueue(sha: Hash, mbs: map<Id, Mailbox>, mid: Id, call: Call, now: int)
    requires call.DoSend? && Reaches(sha, mbs, mid, call, now)
    ensures var o := Send(mbs, call.message, call.minted, now);
            var new_ := NewlySent(mid, call, o.reply, now);
            |new_| <= 1 && Queue(o.mailboxes, mid) == Filter(Queue(mbs, mid), Unexpired(now)) + new_
  {
    var o := Send(mbs, call.message, call.minted, now);
    if !o.reply.Sent? {
      assert Queue(o.mailboxes, mid) + [] == Queue(o.mailboxes, mid);
    }
  }

  lemma SendLedger(sha: Hash, log: Log, mbs: map<Id, Mailbox>, mid: Id, call: Call, now: int)
    requires Ledger(log, Queue(mbs, mid)) && call.DoSend? && Reaches(sha, mbs, mid, call, now)
    ensures var o := Send(mbs, call.message, call.minted, now);
            Ledger(log.(sent := log.sent + NewlySent(mid, call, o.reply, now),
                        expired := log.expired + NewlyExpired(sha, mbs, mid, call, now)), Queue(o.mailboxes, mid))
  {
    SentQueue(sha, mbs, mid, call, now);
    LedgerPrune(log, Queue(mbs, mid), now);
    LedgerSentAll(log.(expired := log.expired + Filter(Queue(mbs, mid), Lapsed(now))),
                  Filter(Queue(mbs, mid), Unexpired(now)),
                  NewlySent(mid, call, Send(mbs, call.message, call.minted, now).reply, now));
  }

  lemma LedgerSentAll(log: Log, queue: seq<Message>, new_: seq<Message>)
    requires Ledger(log, queue) && |new_| <= 1
    ensures Ledger(log.(sent := log.sent + new_), queue + new_)
  {
    if new_ == [] {
      assert log.sent + new_ == log.sent && queue + new_ == queue;
    } else {
      LedgerSend(log, queue, new_[0]);
      assert new_ == [new_[0]];
    }
  }

  lemma ReceiveLedger(sha: Hash, log: Log, mbs: map<Id, Mailbox>, mid: Id, call: Call, now: int)
    requires Ledger(log, Queue(mbs, mid)) && call.DoReceive? && Reaches(sha, mbs, mid, call, now)
    ensures var o := Receive(sha, mbs, mid, call.secret, call.limit, call.peek, now);
            Ledger(log.(drained := log.drained + NewlyDrained(mid, call, o.reply),
                        expired := log.expired + NewlyExpired(sha, mbs, mid, call, now)), Queue(o.mailboxes, mid))
  {
    LedgerPrune(log, Queue(mbs, mid), now);
    var log' := log.(expired := log.expired + Filter(Queue(mbs, mid), Lapsed(now)));
    var live := Filter(Queue(mbs, mid), Unexpired(now));
    if call.peek {
      assert log'.drained + [] == log'.drained;
    } else {
      LedgerDrain(log', live, Min(BatchLimit(call.limit), |live|));
    }
  }

  lemma AckLedger(sha: Hash, log: Log, mbs: map<Id, Mailbox>, mid: Id, call: Call, now: int)
    requires Ledger(log, Queue(mbs, mid)) && call.DoAck? && Reaches(sha, mbs, mid, call, now)
    ensures var o := Ack(sha, mbs, mid, call.secret, call.ids, call.disposition, now);
            Ledger(log.(consumed := log.consumed + NewlyConsumed(mbs, mid, call, o.reply, now),
                        expired := log.expired + NewlyExpired(sha, mbs, mid, call, now)), Queue(o.mailboxes, mid))
  {
    LedgerPrune(log, Queue(mbs, mid), now);
    var log' := log.(expired := log.expired + Filter(Queue(mbs, mid), Lapsed(now)));
    if WellFormedIds(call.ids) && call.disposition.Consumed? {
      LedgerConsume(log', Filter(Queue(mbs, mid), Unexpired(now)), IdSet(call.ids));
    } else {
      assert log'.consumed + [] == log'.consumed;
    }
  }

  /** An acknowledgement that consumes reports the number of messages it removed. */
  lemma ConsumedCounted(sha: Hash, mbs: map<Id, Mailbox>, mid: Id, call: Call, now: int)
    requires call.DoAck? && call.mid == mid && call.disposition.Consumed?
    ensures var r := Ack(sha, mbs, mid, call.secret, call.ids, call.disposition, now).reply;
            r.Acked? ==> r.acked == |NewlyConsumed(mbs, mid, call, r, now)|
  {
    var live := Filter(Queue(mbs, mid), Unexpired(now));
    FilterSplits(live, NotAmong(IdSet(call.ids)), Among(IdSet(call.ids)));
    assert |live| == |multiset(live)|;
  }

  lemma SweptQueue(mbs: map<Id, Mailbox>, ts: map<Id, Transfer>, mid: Id, now: int)
    requires mid in mbs
    ensures Queue(SweptMailboxes(mbs, ts, {}, now), mid) == Filter(Queue(mbs, mid), Unexpired(now))
  {
    if Reclaimed(mbs[mid], ts, mid, now) {
      assert mid !in SweptMailboxes(mbs, ts, {}, now);
    } else {
      assert SweptMailboxes(mbs, ts, {}, now)[mid] == Prune(mbs[mid], now);
    }
  }

  lemma SweepLedger(sha: Hash, log: Log, s: State, mid: Id, now: int)
    requires Ledger(log, Queue(s.mailboxes, mid)) && mid in s.mailboxes
    ensures Ledger(log.(expired := log.expired + NewlyExpired(sha, s.mailboxes, mid, DoSweep, now)),
                   Queue(SweptMailboxes(s.mailboxes, s.transfers, {}, now), mid))
  {
    SweptQueue(s.mailboxes, s.transfers, mid, now);
    assert NewlyExpired(sha, s.mailboxes, mid, DoSweep, now) == Filter(Queue(s.mailboxes, mid), Lapsed(now));
    LedgerPrune(log, Queue(s.mailboxes, mid), now);
  }

  /** Conservation and order survive every operation. */
  lemma StepLedger(sha: Hash, log: Log, s: State, mid: Id, call: Call, now: int)
    requires Ledger(log, Queue(s.mailboxes, mid))
    ensures Ledger(LogStep(sha, log, s, mid, call, now), Queue(Step(sha, s, call, now).next.mailboxes, mid))
  {
    var log' := LogStep(sha, log, s, mid, call, now);
    assert log.sent + [] == log.sent && log.drained + [] == log.drained;
    assert log.consumed + [] == log.consumed && log.expired + [] == log.expired;
    if !MessagePlane(call) {
      QuietTransferStep(sha, s, mid, call, now);
    } else if !Reaches(sha, s.mailboxes, mid, call, now) {
      QuietMessageStep(sha, s, mid, call, now);
    } else if call.DoSend? {
      SendLedger(sha, log, s.mailboxes, mid, call, now);
    } else if call.DoReceive? {
      ReceiveLedger(sha, log, s.mailboxes, mid, call, now);
    } else if call.DoAck? {
      AckLedger(sha, log, s.mailboxes, mid, call, now);
    } else {
      SweepLedger(sha, log, s, mid, now);
    }
  }

  // ---- whole runs ----

  ghost function LogAfter(sha: Hash, log: Log, s: State, mid: Id, evs: seq<Event>): Log
    decreases |evs|
  {
    if evs == [] then log
    else
      var e := evs[0];
      LogAfter(sha, LogStep(sha, log, s, mid, e.call, e.now), Step(sha, s, e.call, e.now).next, mid, evs[1..])
  }

  /** Over any run: each accepted message is queued, drained, consumed or expired, as often as it was sent, and
      the drained ones followed by the queued ones form a subsequence of those sent. */
  lemma {:induction false} RunLedger(sha: Hash, log: Log, s: State, mid: Id, evs: seq<Event>)
    requires Ledger(log, Queue(s.mailboxes, mid))
    ensures Ledger(LogAfter(sha, log, s, mid, evs), Queue(After(sha, s, evs).mailboxes, mid))
    decreases |evs|
  {
    if evs != [] {
      var e := evs[0];
      StepLedger(sha, log, s, mid, e.call, e.now);
      RunLedger(sha, LogStep(sha, log, s, mid, e.call, e.now), Step(sha, s, e.call, e.now).next, mid, evs[1..]);
    }
  }

  /** A message is declared expired only once its time is up. */
  ghost predicate ExpiredInTime(log: Log, clock: int) { forall m <- log.expired :: m.expiresAt <= clock }

  lemma {:induction false} RunExpiredInTime(sha: Hash, log: Log, s: State, mid: Id, clock: int, evs: seq<Event>)
    requires ExpiredInTime(log, clock) && Timed(clock, evs)
    ensures ExpiredInTime(LogAfter(sha, log, s, mid, evs), ClockAfter(clock, evs))
    decreases |evs|
  {
    if evs != [] {
      var e := evs[0];
      FilterMembers(Queue(s.mailboxes, mid), Lapsed(e.now));
      RunExpiredInTime(sha, LogStep(sha, log, s, mid, e.call, e.now), Step(sha, s, e.call, e.now).next, mid, e.now,
                       evs[1..]);
    }
  }

  // ---- each message exactly once ----

  predicate Distinct(ms: seq<Message>) { forall i, j :: 0 <= i < j < |ms| ==> ms[i].id != ms[j].id }

  /** Identifiers handed out by sends are never repeated; they are random. */
  predicate FreshIds(evs: seq<Event>) {
    forall i, j :: 0 <= i < j < |evs| && evs[i].call.DoSend? && evs[j].call.DoSend? ==>
      evs[i].call.minted != evs[j].call.minted
  }

  predicate NotYetMinted(ms: seq<Message>, evs: seq<Event>) {
    forall m <- ms, e <- evs :: e.call.DoSend? ==> m.id != e.call.minted
  }

  lemma SentIsMinted(sha: Hash, s: State, mid: Id, call: Call, now: int)
    ensures var new_ := NewlySent(mid, call, Step(sha, s, call, now).reply, now);
            new_ == [] || (|new_| == 1 && call.DoSend? && new_[0].id == call.minted)
  {
  }

  lemma {:induction false} RunDistinct(sha: Hash, log: Log, s: State, mid: Id, evs: seq<Event>)
    requires Distinct(log.sent) && FreshIds(evs) && NotYetMinted(log.sent, evs)
    ensures Distinct(LogAfter(sha, log, s, mid, evs).sent)
    decreases |evs|
  {
    if evs != [] {
      var e := evs[0];
      SentIsMinted(sha, s, mid, e.call, e.now);
      var log' := LogStep(sha, log, s, mid, e.call, e.now);
      forall m <- log'.sent, x <- evs[1..]
        ensures x.call.DoSend? ==> m.id != x.call.minted
      {
        assert x in evs;
      }
      RunDistinct(sha, log', Step(sha, s, e.call, e.now).next, mid, evs[1..]);
    }
  }

  lemma {:induction false} DistinctOnce(ms: seq<Message>, m: Message)
    requires Distinct(ms)
    ensures multiset(ms)[m] <= 1
  {
    if ms != [] {
      assert ms == [ms[0]] + ms[1..];
      DistinctOnce(ms[1..], m);
      if m == ms[0] {
        assert m !in ms[1..];
      }
    }
  }

  function Count(b: bool): int { if b then 1 else 0 }

  lemma OneFate(log: Log, queue: seq<Message>, m: Message)
    requires Ledger(log, queue) && Distinct(log.sent) && m in log.sent
    ensures Count(m in queue) + Count(m in log.drained) + Count(m in log.consumed) + Count(m in log.expired) == 1
    ensures multiset(log.drained)[m] <= 1
  {
    DistinctOnce(log.sent, m);
    assert multiset(log.sent)[m] == 1;
  }

  /** In every reachable state, each message ever accepted has exactly one fate, is delivered at most once, and is
      still queued if it has not expired and was neither drained nor consumed. */
  lemma ExactlyOneFate(sha: Hash, mid: Id, start: int, evs: seq<Event>, m: Message)
    requires Timed(start, evs) && FreshIds(evs)
    requires m in LogAfter(sha, NOTHING, EMPTY, mid, evs).sent
    ensures var log := LogAfter(sha, NOTHING, EMPTY, mid, evs);
            var queue := Queue(After(sha, EMPTY, evs).mailboxes, mid);
            && Count(m in queue) + Count(m in log.drained) + Count(m in log.consumed) + Count(m in log.expired) == 1
            && multiset(log.drained)[m] <= 1
            && (ClockAfter(start, evs) < m.expiresAt && m !in log.drained && m !in log.consumed ==> m in queue)
  {
    var log := LogAfter(sha, NOTHING, EMPTY, mid, evs);
    RunLedger(sha, NOTHING, EMPTY, mid, evs);
    RunDistinct(sha, NOTHING, EMPTY, mid, evs);
    RunExpiredInTime(sha, NOTHING, EMPTY, mid, start, evs);
    OneFate(log, Queue(After(sha, EMPTY, evs).mailboxes, mid), m);
  }

  // ---- the replies account for what was consumed ----

  /** What the replies to consuming acknowledgements of `mid` add up to. */
  ghost function AckedTotal(sha: Hash, s: State, mid: Id, evs: seq<Event>): nat
    decreases |evs|
  {
    if evs == [] then 0
    else
      var call, o := evs[0].call, Step(sha, s, evs[0].call, evs[0].now);
      (if call.DoAck? && call.mid == mid && call.disposition.Consumed? && o.reply.Acked? then o.reply.acked else 0)
      + AckedTotal(sha, o.next, mid, evs[1..])
  }

  /** Over any run, the counts the owner was told add up to the messages that were consumed. */
  lemma {:induction false} AcksAddUp(sha: Hash, log: Log, s: State, mid: Id, evs: seq<Event>)
    ensures |LogAfter(sha, log, s, mid, evs).consumed| == |log.consumed| + AckedTotal(sha, s, mid, evs)
    decreases |evs|
  {
    if evs != [] {
      var call, now := evs[0].call, evs[0].now;
      if call.DoAck? && call.mid == mid && call.disposition.Consumed? {
        ConsumedCounted(sha, s.mailboxes, mid, call, now);
      }
      AcksAddUp(sha, LogStep(sha, log, s, mid, call, now), Step(sha, s, call, now).next, mid, evs[1..]);
    }
  }

  // ---- what left the queue never comes back ----

  lemma {:induction false} LogConcat(sha: Hash, log: Log, s: State, mid: Id, a: seq<Event>, b: seq<Event>)
    ensures LogAfter(sha, log, s, mid, a + b) == LogAfter(sha, LogAfter(sha, log, s, mid, a), After(sha, s, a), mid, b)
    decreases |a|
  {
    if a == [] {
      assert a + b == b;
    } else {
      var e := a[0];
      assert (a + b)[0] == e && (a + b)[1..] == a[1..] + b;
      LogConcat(sha, LogStep(sha, log, s, mid, e.call, e.now), Step(sha, s, e.call, e.now).next, mid, a[1..], b);
    }
  }

  /** The history only grows. */
  lemma {:induction false} LogGrows(sha: Hash, log: Log, s: State, mid: Id, evs: seq<Event>)
    ensures var after := LogAfter(sha, log, s, mid, evs);
            && log.sent <= after.sent && log.drained <= after.drained
            && log.consumed <= after.consumed && log.expired <= after.expired
    decreases |evs|
  {
    if evs != [] {
      var e := evs[0];
      LogGrows(sha, LogStep(sha, log, s, mid, e.call, e.now), Step(sha, s, e.call, e.now).next, mid, evs[1..]);
    }
  }

  lemma LeftForGood(log: Log, queue: seq<Message>, m: Message, q: Message)
    requires Ledger(log, queue) && Distinct(log.sent) && (m in log.drained || m in log.consumed) && q in queue
    ensures q.id != m.id
  {
    assert q in multiset(log.sent) && m in multiset(log.sent);
    OneFate(log, queue, m);
    OneFate(log, queue, q);
  }

  /** Once a message has been drained or consumed, no message with its identifier is ever queued again. */
  lemma NeverReappears(sha: Hash, mid: Id, evs: seq<Event>, more: seq<Event>, m: Message, q: Message)
    requires FreshIds(evs + more)
    requires var log := LogAfter(sha, NOTHING, EMPTY, mid, evs); m in log.drained || m in log.consumed
    requires q in Queue(After(sha, EMPTY, evs + more).mailboxes, mid)
    ensures q.id != m.id
  {
    LogConcat(sha, NOTHING, EMPTY, mid, evs, more);
    LogGrows(sha, LogAfter(sha, NOTHING, EMPTY, mid, evs), After(sha, EMPTY, evs), mid, more);
    RunLedger(sha, NOTHING, EMPTY, mid, evs + more);
    RunDistinct(sha, NOTHING, EMPTY, mid, evs + more);
    var log := LogAfter(sha, NOTHING, EMPTY, mid, evs + more);
    LeftForGood(log, Queue(After(sha, EMPTY, evs + more).mailboxes, mid), m, q);
  }
}
