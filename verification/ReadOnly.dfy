/** Reads that never slide a mailbox are invisible: erasing them from a run changes no other reply,
    even though they may mark a transfer as expired. */
module ReadOnly {
  import opened Octets
  import opened Limits
  import opened Collections
  import opened Shard
  import opened Runs

  function Select<T>(xs: seq<T>, mask: seq<bool>): seq<T>
    requires |xs| == |mask|
  {
    if xs == [] then []
    else if mask[0] then [xs[0]] + Select(xs[1..], mask[1..])
    else Select(xs[1..], mask[1..])
  }

  predicate IsReadOnly(call: Call) {
    || call.DoProgress? || call.DoResumeByTicket? || call.DoGetByTicket? || call.DoGetTransfer?
    || call.DoMailboxExists? || call.DoCheckReadSecret?
  }

  /** A record as any later operation will see it. */
  function Settle(t: Transfer, now: int): Transfer {
    if Dead(t, now) then t.(phase := Expired) else t
  }

  ghost predicate AlikeTransfers(ts: map<Id, Transfer>, us: map<Id, Transfer>, now: int) {
    ts.Keys == us.Keys && forall tid <- ts :: Settle(ts[tid], now) == Settle(us[tid], now)
  }

  /** Equal up to marks on dead transfers. */
  ghost predicate Alike(s: State, u: State, now: int) {
    s.mailboxes == u.mailboxes && s.replay == u.replay && AlikeTransfers(s.transfers, u.transfers, now)
  }

  lemma AlikeLater(s: State, u: State, clock: int, now: int)
    requires Alike(s, u, clock) && clock <= now
    ensures Alike(s, u, now)
  {
    forall tid <- s.transfers
      ensures Settle(s.transfers[tid], now) == Settle(u.transfers[tid], now)
    {
      assert Settle(s.transfers[tid], clock) == Settle(u.transfers[tid], clock);
    }
  }

  lemma AlikeTotals(s: State, u: State, mid: Id, now: int)
    requires Alike(s, u, now)
    ensures ActiveTransfers(s, mid, now) == ActiveTransfers(u, mid, now)
    ensures StoredBytes(s, mid) == StoredBytes(u, mid)
  {
    forall tid <- s.transfers
      ensures ActiveOf(mid, now)(s.transfers[tid]) == ActiveOf(mid, now)(u.transfers[tid])
      ensures ChargeOf(mid)(s.transfers[tid]) == ChargeOf(mid)(u.transfers[tid])
    {
      assert Settle(s.transfers[tid], now) == Settle(u.transfers[tid], now);
    }
    TotalSame(s.transfers, u.transfers, ActiveOf(mid, now));
    TotalSame(s.transfers, u.transfers, ChargeOf(mid));
  }

  lemma AlikeMark(s: State, u: State, tid: Bytes, now: int)
    requires Alike(s, u, now)
    ensures Alike(Mark(s, tid, now), u, now)
  {
    if tid in s.transfers {
      assert Settle(s.transfers[tid], now) == Settle(u.transfers[tid], now);
    }
  }

  lemma AlikeSym(s: State, u: State, now: int)
    requires Alike(s, u, now)
    ensures Alike(u, s, now)
  {
    forall tid <- u.transfers
      ensures Settle(u.transfers[tid], now) == Settle(s.transfers[tid], now)
    {
      assert tid in s.transfers;
    }
  }

  lemma AlikeRecord(s: State, u: State, tid: Bytes, now: int)
    requires Alike(s, u, now)
    ensures Found(s, tid, now) == Found(u, tid, now) && (tid in s.transfers <==> tid in u.transfers)
    ensures Found(s, tid, now) ==> s.transfers[tid] == u.transfers[tid]
    ensures Alike(Mark(s, tid, now), Mark(u, tid, now), now)
    ensures Alike(Mark(s, tid, now), u, now)
  {
    if tid in s.transfers {
      assert Settle(s.transfers[tid], now) == Settle(u.transfers[tid], now);
    }
    AlikeMark(s, u, tid, now);
    AlikeSym(Mark(s, tid, now), u, now);
    AlikeMark(u, Mark(s, tid, now), tid, now);
    AlikeSym(Mark(u, tid, now), Mark(s, tid, now), now);
  }

  /** Two outcomes that no later operation can tell apart. */
  ghost predicate SameOutcome(o: Outcome, p: Outcome, now: int) {
    o.reply == p.reply && Alike(o.next, p.next, now)
  }

  lemma AlikeSet(s: State, u: State, tid: Id, t: Transfer, now: int)
    requires Alike(s, u, now)
    ensures Alike(SetTransfer(s, tid, t), SetTransfer(u, tid, t), now)
  {
  }

  lemma AlikeSlide(s: State, u: State, t: Transfer, now: int)
    requires Alike(s, u, now)
    ensures Alike(SlideOwner(s, t, now), SlideOwner(u, t, now), now)
  {
  }

  lemma AlikeSetSlide(s: State, u: State, tid: Id, t: Transfer, now: int)
    requires Alike(s, u, now)
    ensures Alike(SlideOwner(SetTransfer(s, tid, t), t, now), SlideOwner(SetTransfer(u, tid, t), t, now), now)
  {
    AlikeSet(s, u, tid, t, now);
    AlikeSlide(SetTransfer(s, tid, t), SetTransfer(u, tid, t), t, now);
  }

  lemma LiftAlike(s: State, u: State, m: MailOutcome, now: int)
    requires Alike(s, u, now)
    ensures SameOutcome(Lift(s, m), Lift(u, m), now)
  {
  }

  lemma MessageAlike(sha: Hash, s: State, u: State, call: Call, now: int)
    requires Alike(s, u, now) && MessagePlane(call) && !call.DoSweep?
    ensures SameOutcome(Step(sha, s, call, now), Step(sha, u, call, now), now)
  {
    match call
    case DoCreateMailbox(mid, h) => LiftAlike(s, u, Register(s.mailboxes, mid, h, now), now);
    case DoMailboxExists(mid) =>
    case DoCheckReadSecret(mid, secret) =>
    case DoSend(m, id) => LiftAlike(s, u, Send(s.mailboxes, m, id, now), now);
    case DoReceive(mid, secret, limit, peek) =>
      LiftAlike(s, u, Receive(sha, s.mailboxes, mid, secret, limit, peek, now), now);
    case DoAck(mid, secret, ids, d) => LiftAlike(s, u, Ack(sha, s.mailboxes, mid, secret, ids, d, now), now);
    case DoReplay(key) => ReplayAlike(s, u, key, now);
  }

  lemma ReplayAlike(s: State, u: State, key: Digest, now: int)
    requires Alike(s, u, now)
    ensures SameOutcome(ReplayStep(s, key, now), ReplayStep(u, key, now), now)
  {
  }

  lemma SweptTransfersAlike(ts: map<Id, Transfer>, us: map<Id, Transfer>, now: int)
    requires AlikeTransfers(ts, us, now)
    ensures SweptTransfers(ts, {}, now) == SweptTransfers(us, {}, now)
    ensures forall mid: Id :: HasLiveTransfer(ts, mid, now) == HasLiveTransfer(us, mid, now)
  {
    forall tid <- ts
      ensures ts[tid].expiresAt == us[tid].expiresAt
      ensures now < ts[tid].expiresAt ==> ts[tid] == us[tid]
    {
      assert Settle(ts[tid], now) == Settle(us[tid], now);
    }
  }

  lemma SweptStateAlike(s: State, u: State, now: int)
    requires Alike(s, u, now)
    ensures SweptState(s, now) == SweptState(u, now)
  {
    SweptTransfersAlike(s.transfers, u.transfers, now);
  }

  lemma CountsAlike(s: State, u: State, after: State, now: int)
    requires Alike(s, u, now)
    ensures SweepCounts(s, after, now) == SweepCounts(u, after, now)
  {
    assert |s.transfers| == |s.transfers.Keys| == |u.transfers|;
  }

  lemma SweepAlike(s: State, u: State, now: int)
    requires Alike(s, u, now)
    ensures SameOutcome(SweepStep(s, now), SweepStep(u, now), now)
  {
    SweptStateAlike(s, u, now);
    CountsAlike(s, u, SweptState(s, now), now);
  }

  lemma CreateAlike(sha: Hash, s: State, u: State, t: TransferCreate, id: Id, ticket: Option<Digest>, now: int)
    requires Alike(s, u, now)
    ensures SameOutcome(CreateTransferStep(sha, s, t, id, ticket, now),
                        CreateTransferStep(sha, u, t, id, ticket, now), now)
  {
    var mid: Id := if |t.mailboxID| == 16 then t.mailboxID else NO_MAILBOX;
    AlikeTotals(s, u, mid, now);
    var refusal := CreateRefusal(s.mailboxes, t, ActiveTransfers(s, mid, now), StoredBytes(s, mid), ticket, now);
    if CheckCreate(t).None? && refusal.None? {
      AlikeSetSlide(s, u, id, NewTransfer(sha, t, ticket.value, now), now);
    }
  }

  lemma PutAlike(sha: Hash, s: State, u: State, c: ChunkUpload, now: int)
    requires Alike(s, u, now)
    ensures SameOutcome(PutStep(sha, s, c, now), PutStep(sha, u, c, now), now)
  {
    AlikeRecord(s, u, c.transferID, now);
    if CheckChunk(c).None? && Found(s, c.transferID, now) {
      var t := s.transfers[c.transferID];
      AlikeTotals(s, u, t.mailboxID, now);
      if Judge(sha, t, c, StoredBytes(s, t.mailboxID)).Accept? {
        AlikeSetSlide(s, u, c.transferID, WithChunk(sha, t, c, now), now);
      }
    }
  }

  lemma CompleteAlike(s: State, u: State, c: TransferComplete, now: int)
    requires Alike(s, u, now)
    ensures SameOutcome(CompleteStep(s, c, now), CompleteStep(u, c, now), now)
  {
    AlikeRecord(s, u, c.transferID, now);
    if CheckComplete(c).None? && Found(s, c.transferID, now) {
      AlikeSet(s, u, c.transferID, s.transfers[c.transferID].(phase := Complete, expiresAt := now + COMPLETE_TTL), now);
    }
  }

  /** Cancelling does not look at the phase. */
  lemma AlikeRemove(s: State, u: State, tid: Id, now: int)
    requires Alike(s, u, now)
    ensures Alike(s.(transfers := s.transfers - {tid}), u.(transfers := u.transfers - {tid}), now)
  {
  }

  lemma CancelAlike(sha: Hash, s: State, u: State, tid: Id, mid: Id, secret: Bytes, now: int)
    requires Alike(s, u, now)
    ensures SameOutcome(CancelStep(sha, s, tid, mid, secret, now), CancelStep(sha, u, tid, mid, secret, now), now)
  {
    if tid in s.transfers {
      var t, t' := s.transfers[tid], u.transfers[tid];
      assert Settle(t, now) == Settle(t', now);
      AlikeSlide(s, u, t, now);
      AlikeRemove(SlideOwner(s, t, now), SlideOwner(u, t, now), tid, now);
    }
  }

  lemma GetAlike(sha: Hash, s: State, u: State, tid: Id, mid: Id, secret: Bytes, index: nat, now: int)
    requires Alike(s, u, now)
    ensures SameOutcome(GetStep(sha, s, tid, mid, secret, index, now),
                        GetStep(sha, u, tid, mid, secret, index, now), now)
  {
    AlikeRecord(s, u, tid, now);
    if Found(s, tid, now) {
      AlikeSlide(s, u, s.transfers[tid], now);
    }
  }

  lemma ResumeAlike(sha: Hash, s: State, u: State, tid: Id, mid: Id, secret: Bytes, now: int)
    requires Alike(s, u, now)
    ensures SameOutcome(ResumeStep(sha, s, tid, mid, secret, now), ResumeStep(sha, u, tid, mid, secret, now), now)
  {
    AlikeRecord(s, u, tid, now);
    if Found(s, tid, now) {
      AlikeSlide(s, u, s.transfers[tid], now);
    }
  }

  lemma LookupAlike(sha: Hash, s: State, u: State, tid: Id, ticket: Bytes, index: nat, now: int)
    requires Alike(s, u, now)
    ensures SameOutcome(ProgressStep(s, tid, now), ProgressStep(u, tid, now), now)
    ensures SameOutcome(GetTransferStep(s, tid, now), GetTransferStep(u, tid, now), now)
    ensures SameOutcome(GetByTicketStep(sha, s, tid, ticket, index, now),
                        GetByTicketStep(sha, u, tid, ticket, index, now), now)
    ensures SameOutcome(ResumeByTicketStep(sha, s, tid, ticket, now), ResumeByTicketStep(sha, u, tid, ticket, now), now)
  {
    AlikeRecord(s, u, tid, now);
  }

  lemma TransferAlike(sha: Hash, s: State, u: State, call: Call, now: int)
    requires Alike(s, u, now) && !MessagePlane(call)
    ensures SameOutcome(Step(sha, s, call, now), Step(sha, u, call, now), now)
  {
    match call
    case DoCreateTransfer(t, id, ticket) => CreateAlike(sha, s, u, t, id, ticket, now);
    case DoPut(c) => PutAlike(sha, s, u, c, now);
    case DoComplete(c) => CompleteAlike(s, u, c, now);
    case DoCancel(tid, mid, secret) => CancelAlike(sha, s, u, tid, mid, secret, now);
    case _ =>
      if IsReadOnly(call) {
        PureLookupAlike(sha, s, u, call, now);
      } else {
        OwnerReadAlike(sha, s, u, call, now);
      }
  }

  lemma OwnerReadAlike(sha: Hash, s: State, u: State, call: Call, now: int)
    requires Alike(s, u, now) && (call.DoGet? || call.DoResume?)
    ensures SameOutcome(Step(sha, s, call, now), Step(sha, u, call, now), now)
  {
    GetAlike(sha, s, u, call.tid, call.mid, call.secret, if call.DoGet? then call.index else 0, now);
    ResumeAlike(sha, s, u, call.tid, call.mid, call.secret, now);
  }

  lemma PureLookupAlike(sha: Hash, s: State, u: State, call: Call, now: int)
    requires Alike(s, u, now) && IsReadOnly(call) && !MessagePlane(call)
    ensures SameOutcome(Step(sha, s, call, now), Step(sha, u, call, now), now)
  {
    LookupAlike(sha, s, u, call.tid, if call.DoProgress? || call.DoGetTransfer? then [] else call.credential,
                if call.DoGetByTicket? then call.index else 0, now);
  }

  /** States that differ only by marks on dead transfers give the same replies and stay that way. */
  lemma StepAlike(sha: Hash, s: State, u: State, call: Call, now: int)
    requires Alike(s, u, now)
    ensures SameOutcome(Step(sha, s, call, now), Step(sha, u, call, now), now)
  {
    if call.DoSweep? {
      SweepAlike(s, u, now);
    } else if MessagePlane(call) {
      MessageAlike(sha, s, u, call, now);
    } else {
      TransferAlike(sha, s, u, call, now);
    }
  }

  lemma ReadAlike(sha: Hash, s: State, u: State, call: Call, clock: int, now: int)
    requires Alike(s, u, clock) && clock <= now && IsReadOnly(call)
    ensures Alike(Step(sha, s, call, now).next, u, now)
  {
    AlikeLater(s, u, clock, now);
    if !MessagePlane(call) {
      AlikeRecord(s, u, call.tid, now);
    }
  }

  /** Erasing any read-only calls from a run leaves the replies of all remaining calls as they were. */
  lemma {:induction false} ReadsAreInvisible(
    sha: Hash, s: State, u: State, clock: int, evs: seq<Event>, mask: seq<bool>)
    requires Alike(s, u, clock) && Timed(clock, evs) && |mask| == |evs|
    requires forall i :: 0 <= i < |evs| ==> mask[i] || IsReadOnly(evs[i].call)
    ensures Select(Replies(sha, s, evs), mask) == Replies(sha, u, Select(evs, mask))
    decreases |evs|
  {
    if evs != [] {
      var call, now := evs[0].call, evs[0].now;
      var s' := Step(sha, s, call, now).next;
      if mask[0] {
        AlikeLater(s, u, clock, now);
        StepAlike(sha, s, u, call, now);
        ReadsAreInvisible(sha, s', Step(sha, u, call, now).next, now, evs[1..], mask[1..]);
        assert Select(evs, mask)[1..] == Select(evs[1..], mask[1..]);
      } else {
        ReadAlike(sha, s, u, call, clock, now);
        ReadsAreInvisible(sha, s', u, now, evs[1..], mask[1..]);
      }
    }
  }
}
