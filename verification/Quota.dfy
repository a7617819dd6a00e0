/** The documented quota: what a mailbox stores, messages and chunks together, stays within 16 MiB. The code checks
    less than that; here is exactly which operations break it, and that nothing else does. */
module Quota {
  import opened Octets
  import opened Limits
  import opened Collections
  import opened Geometry
  import opened Shard
  import opened Invariant
  import opened Census
  import opened Runs
  import opened Lifecycle

  // ---- what never adds to a mailbox ----

  lemma {:induction false} SumBytesConcat(a: seq<Message>, b: seq<Message>)
    ensures SumBytes(a + b) == SumBytes(a) + SumBytes(b)
    decreases |b|
  {
    if b == [] {
      assert a + b == a;
    } else {
      var n := |b| - 1;
      SumBytesConcat(a, b[..n]);
      assert (a + b)[..|a + b| - 1] == a + b[..n];
    }
  }

  lemma {:induction false} SumBytesFilter(ms: seq<Message>, p: Message -> bool)
    ensures SumBytes(Filter(ms, p)) <= SumBytes(ms)
  {
    if ms != [] {
      SumBytesFilter(ms[1..], p);
      assert ms == [ms[0]] + ms[1..];
      SumBytesConcat([ms[0]], ms[1..]);
      SumBytesConcat([ms[0]], Filter(ms[1..], p));
    }
  }

  /** What the mailbox part of the charge is. */
  function MailBytes(mbs: map<Id, Mailbox>, mid: Id): int {
    if mid in mbs then mbs[mid].storedBytes else 0
  }

  lemma DrainShrinks(ms: seq<Message>, n: nat)
    requires n <= |ms|
    ensures SumBytes(ms[n..]) <= SumBytes(ms)
  {
    assert ms == ms[..n] + ms[n..];
    SumBytesConcat(ms[..n], ms[n..]);
  }

  lemma ReceiveShrinks(sha: Hash, mbs: map<Id, Mailbox>, call: Call, now: int, mid: Id)
    requires call.DoReceive? && (mid in mbs ==> mbs[mid].storedBytes == SumBytes(mbs[mid].messages))
    ensures MailBytes(Receive(sha, mbs, call.mid, call.secret, call.limit, call.peek, now).mailboxes, mid) <=
            MailBytes(mbs, mid)
  {
    if mid in mbs {
      var live := Filter(mbs[mid].messages, Unexpired(now));
      SumBytesFilter(mbs[mid].messages, Unexpired(now));
      DrainShrinks(live, Min(BatchLimit(call.limit), |live|));
    }
  }

  lemma AckShrinks(sha: Hash, mbs: map<Id, Mailbox>, call: Call, now: int, mid: Id)
    requires call.DoAck? && (mid in mbs ==> mbs[mid].storedBytes == SumBytes(mbs[mid].messages))
    ensures MailBytes(Ack(sha, mbs, call.mid, call.secret, call.ids, call.disposition, now).mailboxes, mid) <=
            MailBytes(mbs, mid)
  {
    if mid in mbs {
      SumBytesFilter(mbs[mid].messages, Unexpired(now));
      SumBytesFilter(Filter(mbs[mid].messages, Unexpired(now)), NotAmong(IdSet(call.ids)));
    }
  }

  lemma SweepShrinks(mbs: map<Id, Mailbox>, ts: map<Id, Transfer>, now: int, mid: Id)
    requires mid in mbs ==> mbs[mid].storedBytes == SumBytes(mbs[mid].messages)
    ensures MailBytes(SweptMailboxes(mbs, ts, {}, now), mid) <= MailBytes(mbs, mid)
  {
    if mid in mbs {
      SumBytesFilter(mbs[mid].messages, Unexpired(now));
    }
  }

  /** Only a send adds to the queue of a mailbox. */
  lemma MailShrinks(sha: Hash, s: State, call: Call, now: int, mid: Id)
    requires Inv(sha, s, now) && !(call.DoSend? && call.message.mailboxID == mid)
    ensures MailBytes(Step(sha, s, call, now).next.mailboxes, mid) <= MailBytes(s.mailboxes, mid)
  {
    assert mid in s.mailboxes ==> MailboxOk(s.mailboxes[mid], now);
    if call.DoReceive? {
      ReceiveShrinks(sha, s.mailboxes, call, now, mid);
    } else if call.DoAck? {
      AckShrinks(sha, s.mailboxes, call, now, mid);
    } else if call.DoSweep? {
      SweepShrinks(s.mailboxes, s.transfers, now, mid);
    } else {
      OtherMailSame(sha, s, call, now, mid);
    }
  }

  lemma OtherMailSame(sha: Hash, s: State, call: Call, now: int, mid: Id)
    requires !call.DoReceive? && !call.DoAck? && !call.DoSweep? && !(call.DoSend? && call.message.mailboxID == mid)
    ensures MailBytes(Step(sha, s, call, now).next.mailboxes, mid) == MailBytes(s.mailboxes, mid)
  {
  }

  /** The operation may add to what is charged to `mid`. */
  predicate StoresIn(s: State, call: Call, mid: Id) {
    match call
    case DoSend(m, _) => m.mailboxID == mid
    case DoCreateTransfer(c, _, _) => c.mailboxID == mid
    case DoPut(c) => c.transferID in s.transfers && BoundTo(s.transfers[c.transferID], mid)
    case _ => false
  }

  lemma MovedCharge(sha: Hash, s: State, ts': map<Id, Transfer>, call: Call, now: int, mid: Id, k: Id)
    requires !StoresIn(s, call, mid) && !call.DoCreateTransfer?
    requires StepOn(sha, s.transfers, ts', k, call, now) && k in ts'
    ensures k in s.transfers && ChargeOf(mid)(ts'[k]) == ChargeOf(mid)(s.transfers[k])
  {
  }

  lemma MovedCharges(sha: Hash, s: State, ts': map<Id, Transfer>, call: Call, now: int, mid: Id)
    requires Inv(sha, s, now) && !StoresIn(s, call, mid) && !call.DoCreateTransfer?
    requires forall k: Id :: StepOn(sha, s.transfers, ts', k, call, now)
    ensures Total(ts', ChargeOf(mid)) <= Total(s.transfers, ChargeOf(mid))
  {
    forall k <- ts'
      ensures k in s.transfers && ChargeOf(mid)(ts'[k]) == ChargeOf(mid)(s.transfers[k])
    {
      assert StepOn(sha, s.transfers, ts', k, call, now);
      MovedCharge(sha, s, ts', call, now, mid, k);
    }
    ChargesNonNegative(sha, s, now, mid);
    TotalLe(ts', s.transfers, ChargeOf(mid), ChargeOf(mid));
  }

  lemma ChargesNonNegative(sha: Hash, s: State, now: int, mid: Id)
    requires Inv(sha, s, now)
    ensures forall k <- s.transfers :: 0 <= ChargeOf(mid)(s.transfers[k])
  {
    forall k <- s.transfers
      ensures 0 <= ChargeOf(mid)(s.transfers[k])
    {
      assert TransferOk(sha, s.transfers[k], now);
    }
  }

  lemma RecordsCharge(sha: Hash, s: State, call: Call, now: int, mid: Id)
    requires Inv(sha, s, now) && !StoresIn(s, call, mid) && !call.DoCreateTransfer?
    ensures Total(Step(sha, s, call, now).next.transfers, ChargeOf(mid)) <= Total(s.transfers, ChargeOf(mid))
  {
    var ts' := Step(sha, s, call, now).next.transfers;
    forall k: Id
      ensures StepOn(sha, s.transfers, ts', k, call, now)
    {
      StepMoves(sha, s, call, now, k);
    }
    MovedCharges(sha, s, ts', call, now, mid);
  }

  lemma CreateCharges(sha: Hash, s: State, call: Call, now: int, mid: Id)
    requires Inv(sha, s, now) && call.DoCreateTransfer? && call.create.mailboxID != mid
    ensures Total(Step(sha, s, call, now).next.transfers, ChargeOf(mid)) <= Total(s.transfers, ChargeOf(mid))
  {
    if Step(sha, s, call, now).next != s {
      var t := NewTransfer(sha, call.create, call.ticket.value, now);
      assert Step(sha, s, call, now).next.transfers == s.transfers[call.minted := t];
      FreshCharges(sha, s, call.minted, t, now, mid);
    }
  }

  lemma FreshCharges(sha: Hash, s: State, tid: Id, t: Transfer, now: int, mid: Id)
    requires Inv(sha, s, now) && !BoundTo(t, mid)
    ensures Total(s.transfers[tid := t], ChargeOf(mid)) <= Total(s.transfers, ChargeOf(mid))
  {
    assert tid in s.transfers ==> TransferOk(sha, s.transfers[tid], now);
    TotalUpdate(s.transfers, tid, t, ChargeOf(mid));
  }

  /** Without such storing, what the quota counts never grows. */
  lemma ChargeShrinks(sha: Hash, s: State, call: Call, now: int, mid: Id)
    requires Inv(sha, s, now) && !StoresIn(s, call, mid)
    ensures StoredBytes(Step(sha, s, call, now).next, mid) <= StoredBytes(s, mid)
  {
    MailShrinks(sha, s, call, now, mid);
    if call.DoCreateTransfer? {
      CreateCharges(sha, s, call, now, mid);
    } else {
      RecordsCharge(sha, s, call, now, mid);
    }
  }

  // ---- what does ----

  /** What the quota would count without the expired messages. */
  ghost function LiveBytes(s: State, mid: Id, now: int): int {
    (if mid in s.mailboxes then SumBytes(Filter(s.mailboxes[mid].messages, Unexpired(now))) else 0)
    + Total(s.transfers, ChargeOf(mid))
  }

  /** The code accepts the message: it is well formed, its mailbox is live and has fewer than 100 live messages. */
  predicate TakesMessage(s: State, m: SendMessage, mid: Id, now: int) {
    && CheckSend(m).None? && m.mailboxID == mid && LiveMailbox(s.mailboxes, mid, now)
    && |Filter(s.mailboxes[mid].messages, Unexpired(now))| < MAX_QUEUED
  }

  /** The code opens the transfer in the mailbox. */
  ghost predicate TakesTransfer(s: State, c: TransferCreate, ticket: Option<Digest>, mid: Id, now: int) {
    && CheckCreate(c).None? && c.mailboxID == mid
    && CreateRefusal(s.mailboxes, c, ActiveTransfers(s, mid, now), StoredBytes(s, mid), ticket, now).None?
  }

  /** The charge of the record an identifier names, if any; identifiers are random, so a new one names none. */
  ghost function ChargeAt(s: State, mid: Id, tid: Id): int {
    if tid in s.transfers then ChargeOf(mid)(s.transfers[tid]) else 0
  }

  /** Before the call: it will be accepted, and what it adds does not fit. */
  ghost predicate Overfills(s: State, call: Call, mid: Id, now: int) {
    match call
    case DoSend(m, _) => TakesMessage(s, m, mid, now) && LiveBytes(s, mid, now) + |m.envelope| > MAX_STORED_BYTES
    case DoCreateTransfer(c, id, ticket) =>
      && TakesTransfer(s, c, ticket, mid, now)
      && StoredBytes(s, mid) - ChargeAt(s, mid, id) + |c.manifest| > MAX_STORED_BYTES
    case _ => false
  }

  /** An accepted message is charged whatever the mailbox stores already; a refused one adds nothing. */
  lemma SendCharge(sha: Hash, s: State, m: SendMessage, id: Id, mid: Id, now: int)
    requires Inv(sha, s, now) && m.mailboxID == mid
    ensures var after := StoredBytes(Lift(s, Send(s.mailboxes, m, id, now)).next, mid);
            if TakesMessage(s, m, mid, now) then after == LiveBytes(s, mid, now) + |m.envelope|
            else after <= StoredBytes(s, mid)
  {
    if mid in s.mailboxes {
      var mb := s.mailboxes[mid];
      var live := Filter(mb.messages, Unexpired(now));
      assert MailboxOk(mb, now);
      SumBytesFilter(mb.messages, Unexpired(now));
      if CheckSend(m).None? && LiveMailbox(s.mailboxes, mid, now) {
        ByteQuotaNeverFires(sha, s, now, m, id, now);
        SumBytesConcat(live, [Message(id, m.envelope, m.senderPub, now, now + MSG_TTL)]);
      }
    }
  }

  lemma OpenCharge(sha: Hash, s: State, c: TransferCreate, id: Id, ticket: Option<Digest>, mid: Id, now: int)
    requires c.mailboxID == mid
    ensures var after := StoredBytes(CreateTransferStep(sha, s, c, id, ticket, now).next, mid);
            after == StoredBytes(s, mid) +
                     if TakesTransfer(s, c, ticket, mid, now) then |c.manifest| - ChargeAt(s, mid, id) else 0
  {
    if TakesTransfer(s, c, ticket, mid, now) {
      TotalUpdate(s.transfers, id, NewTransfer(sha, c, ticket.value, now), ChargeOf(mid));
    }
  }

  lemma AcceptedCharge(s: State, tid: Id, t': Transfer, now: int)
    requires tid in s.transfers && t'.hasMailbox == s.transfers[tid].hasMailbox &&
             t'.mailboxID == s.transfers[tid].mailboxID
    requires t'.hasMailbox && t'.manifest == s.transfers[tid].manifest
    ensures StoredBytes(SlideOwner(SetTransfer(s, tid, t'), t', now), t'.mailboxID) ==
            StoredBytes(s, t'.mailboxID) + t'.storedBytes - s.transfers[tid].storedBytes
  {
    TotalUpdate(s.transfers, tid, t', ChargeOf(t'.mailboxID));
  }

  lemma MarkCharge(s: State, tid: Bytes, mid: Id, now: int)
    ensures StoredBytes(Mark(s, tid, now), mid) == StoredBytes(s, mid)
  {
    if Mark(s, tid, now) != s {
      var id: Id := tid;
      var t: Transfer := s.transfers[id].(phase := Expired);
      TotalUpdate(s.transfers, id, t, ChargeOf(mid));
    }
  }

  lemma AcceptCharge(sha: Hash, s: State, c: ChunkUpload, tid: Id, now: int)
    requires tid in s.transfers && s.transfers[tid].hasMailbox && c.index < s.transfers[tid].chunkCount
    ensures var t' := WithChunk(sha, s.transfers[tid], c, now);
            StoredBytes(SlideOwner(SetTransfer(s, tid, t'), t', now), t'.mailboxID)
            <= StoredBytes(s, t'.mailboxID) + |c.payload|
  {
    AcceptedCharge(s, tid, WithChunk(sha, s.transfers[tid], c, now), now);
  }

  lemma PutCharge(sha: Hash, s: State, c: ChunkUpload, mid: Id, now: int)
    requires c.transferID in s.transfers && BoundTo(s.transfers[c.transferID], mid)
    requires StoredBytes(s, mid) <= MAX_STORED_BYTES
    ensures StoredBytes(PutStep(sha, s, c, now).next, mid) <= MAX_STORED_BYTES
  {
    var t := s.transfers[c.transferID];
    MarkCharge(s, c.transferID, mid, now);
    if Judge(sha, t, c, StoredBytes(s, mid)).Accept? {
      AcceptCharge(sha, s, c, c.transferID, now);
    }
  }

  lemma CountedStep(sha: Hash, s: State, clock: int, call: Call, now: int, mid: Id)
    requires Inv(sha, s, clock) && clock <= now && StoredBytes(s, mid) <= MAX_STORED_BYTES
    ensures StoredBytes(Step(sha, s, call, now).next, mid) <= MAX_STORED_BYTES <==> !Overfills(s, call, mid, now)
  {
    InvLater(sha, s, clock, now);
    if !StoresIn(s, call, mid) {
      ChargeShrinks(sha, s, call, now, mid);
    } else if call.DoSend? {
      SendCharge(sha, s, call.message, call.minted, mid, now);
    } else if call.DoCreateTransfer? {
      OpenCharge(sha, s, call.create, call.minted, call.ticket, mid, now);
    } else {
      PutCharge(sha, s, call.chunk, mid, now);
    }
  }

  /** Envelopes, chunks and manifests together are within 16 MiB. */
  ghost predicate Within(s: State, mid: Id) { BytesIn(s, mid) <= 16 * 1024 * 1024 }

  lemma WithinCounted(sha: Hash, s: State, clock: int, mid: Id)
    requires Inv(sha, s, clock)
    ensures Within(s, mid) <==> StoredBytes(s, mid) <= MAX_STORED_BYTES
  {
    BytesCounted(sha, s, clock, mid);
  }

  /** From a state within the documented quota an operation leaves it exactly when it is an accepted send or creation
      whose bytes do not fit; in particular no put, and no other operation, ever does. */
  lemma QuotaStep(sha: Hash, s: State, clock: int, call: Call, now: int, mid: Id)
    requires Inv(sha, s, clock) && clock <= now && Within(s, mid)
    ensures Within(Step(sha, s, call, now).next, mid) <==> !Overfills(s, call, mid, now)
  {
    WithinCounted(sha, s, clock, mid);
    CountedStep(sha, s, clock, call, now, mid);
    StepKeeps(sha, s, call, clock, now);
    WithinCounted(sha, Step(sha, s, call, now).next, now, mid);
  }

  ghost predicate WithinThroughout(sha: Hash, s: State, evs: seq<Event>, mid: Id)
    decreases |evs|
  {
    && Within(s, mid)
    && (evs != [] ==> WithinThroughout(sha, Step(sha, s, evs[0].call, evs[0].now).next, evs[1..], mid))
  }

  ghost predicate NeverOverfills(sha: Hash, s: State, evs: seq<Event>, mid: Id)
    decreases |evs|
  {
    evs == [] ||
    (&& !Overfills(s, evs[0].call, mid, evs[0].now)
     && NeverOverfills(sha, Step(sha, s, evs[0].call, evs[0].now).next, evs[1..], mid))
  }

  /** A run from a state within the documented quota stays within it throughout exactly when none of its operations
      overfills the mailbox. */
  lemma {:induction false} QuotaRun(sha: Hash, s: State, clock: int, evs: seq<Event>, mid: Id)
    requires Inv(sha, s, clock) && Timed(clock, evs) && Within(s, mid)
    ensures WithinThroughout(sha, s, evs, mid) <==> NeverOverfills(sha, s, evs, mid)
    decreases |evs|
  {
    if evs != [] {
      var e := evs[0];
      var s' := Step(sha, s, e.call, e.now).next;
      QuotaStep(sha, s, clock, e.call, e.now, mid);
      StepKeeps(sha, s, e.call, clock, e.now);
      if Within(s', mid) {
        QuotaRun(sha, s', e.now, evs[1..], mid);
      }
    }
  }
}
