/** How a transfer record may change from one operation to the next and over a whole run. */
module Lifecycle {
  import opened Octets
  import opened Limits
  import opened Geometry
  import opened Shard
  import opened Invariant
  import opened Runs

  predicate Mints(call: Call, tid: Id) { call.DoCreateTransfer? && call.minted == tid }

  /** No operation of the run hands the identifier out again; identifiers are random. */
  predicate NeverMints(evs: seq<Event>, tid: Id) { forall e <- evs :: !Mints(e.call, tid) }

  // ---- the four things an operation can do to a record ----

  predicate StoresChunk(sha: Hash, t: Transfer, t': Transfer, tid: Id, call: Call, now: int) {
    && call.DoPut? && call.chunk.transferID == tid && CheckChunk(call.chunk).None?
    && !Dead(t, now) && ChunkRefusal(sha, t, call.chunk).None? && call.chunk.index !in t.chunks
    && t' == WithChunk(sha, t, call.chunk, now)
  }

  predicate Seals(t: Transfer, t': Transfer, tid: Id, call: Call, now: int) {
    && call.DoComplete? && call.complete.transferID == tid
    && !Dead(t, now) && t.phase != Complete && t.phase != Cancelled && t.presentCount == t.chunkCount
    && t' == t.(phase := Complete, expiresAt := now + COMPLETE_TTL)
  }

  predicate Moves(sha: Hash, t: Transfer, t': Transfer, tid: Id, call: Call, now: int) {
    || t' == t
    || (Dead(t, now) && t' == t.(phase := Expired))
    || StoresChunk(sha, t, t', tid, call, now)
    || Seals(t, t', tid, call, now)
  }

  predicate Removes(t: Transfer, tid: Id, call: Call, now: int) {
    (call.DoCancel? && call.tid == tid) || (call.DoSweep? && now >= t.expiresAt)
  }

  ghost predicate StepOn(sha: Hash, ts: map<Id, Transfer>, ts': map<Id, Transfer>, tid: Id, call: Call, now: int) {
    if tid !in ts then tid !in ts'
    else if tid !in ts' then Removes(ts[tid], tid, call, now)
    else Moves(sha, ts[tid], ts'[tid], tid, call, now)
  }

  lemma PutStepOn(sha: Hash, s: State, c: ChunkUpload, now: int, tid: Id)
    ensures StepOn(sha, s.transfers, PutStep(sha, s, c, now).next.transfers, tid, DoPut(c), now)
  {
  }

  lemma MarkStepOn(sha: Hash, s: State, other: Bytes, call: Call, now: int, tid: Id)
    ensures StepOn(sha, s.transfers, Mark(s, other, now).transfers, tid, call, now)
  {
  }

  lemma SweepStepOn(sha: Hash, s: State, now: int, tid: Id)
    ensures StepOn(sha, s.transfers, SweepStep(s, now).next.transfers, tid, DoSweep, now)
  {
  }

  lemma CompleteStepOn(sha: Hash, s: State, c: TransferComplete, now: int, tid: Id)
    ensures StepOn(sha, s.transfers, CompleteStep(s, c, now).next.transfers, tid, DoComplete(c), now)
  {
  }

  lemma CreateStepOn(sha: Hash, s: State, call: Call, now: int, tid: Id)
    requires call.DoCreateTransfer? && call.minted != tid
    ensures var s' := CreateTransferStep(sha, s, call.create, call.minted, call.ticket, now).next;
            StepOn(sha, s.transfers, s'.transfers, tid, call, now)
  {
  }

  lemma CancelStepOn(sha: Hash, s: State, call: Call, now: int, tid: Id)
    requires call.DoCancel?
    ensures var s' := CancelStep(sha, s, call.tid, call.mid, call.secret, now).next;
            StepOn(sha, s.transfers, s'.transfers, tid, call, now)
  {
  }

  lemma MessageStepOn(sha: Hash, s: State, call: Call, now: int, tid: Id)
    requires MessagePlane(call)
    ensures StepOn(sha, s.transfers, Step(sha, s, call, now).next.transfers, tid, call, now)
  {
    if call.DoSweep? {
      SweepStepOn(sha, s, now, tid);
    } else {
      assert Step(sha, s, call, now).next.transfers == s.transfers;
    }
  }

  lemma LookupStepOn(sha: Hash, s: State, call: Call, now: int, tid: Id)
    requires !MessagePlane(call) && !call.DoPut? && !call.DoCreateTransfer? && !call.DoComplete? && !call.DoCancel?
    ensures StepOn(sha, s.transfers, Step(sha, s, call, now).next.transfers, tid, call, now)
  {
    MarkStepOn(sha, s, call.tid, call, now, tid);
    assert Step(sha, s, call, now).next.transfers == Mark(s, call.tid, now).transfers;
  }

  /** Every operation leaves a record alone, marks it dead, stores one chunk in it, seals it, or removes it. */
  lemma StepMoves(sha: Hash, s: State, call: Call, now: int, tid: Id)
    requires !Mints(call, tid)
    ensures StepOn(sha, s.transfers, Step(sha, s, call, now).next.transfers, tid, call, now)
  {
    if MessagePlane(call) {
      MessageStepOn(sha, s, call, now, tid);
    } else if call.DoPut? {
      PutStepOn(sha, s, call.chunk, now, tid);
    } else if call.DoCreateTransfer? {
      CreateStepOn(sha, s, call, now, tid);
    } else if call.DoComplete? {
      CompleteStepOn(sha, s, call.complete, now, tid);
    } else if call.DoCancel? {
      CancelStepOn(sha, s, call, now, tid);
    } else {
      LookupStepOn(sha, s, call, now, tid);
    }
  }

  // ---- over a run ----

  predicate PhaseReaches(a: Phase, b: Phase) {
    || a == b
    || (a == Created && (b == Uploading || b == Complete || b == Expired))
    || (a == Uploading && (b == Complete || b == Expired))
  }

  /** What an earlier record says about a later one: the declaration never changes, a stored chunk keeps its
      bytes and hash, the phase only advances, an open record's deadline never moves back, and a sealed or
      expired record is frozen. */
  ghost predicate Evolves(t: Transfer, t': Transfer) {
    && t'.mailboxID == t.mailboxID && t'.hasMailbox == t.hasMailbox && t'.ticketHash == t.ticketHash
    && t'.totalSize == t.totalSize && t'.chunkSize == t.chunkSize && t'.chunkCount == t.chunkCount
    && t'.manifest == t.manifest && t'.senderPub == t.senderPub && t'.createdAt == t.createdAt
    && (forall i <- t.chunks :: i in t'.chunks && t'.chunks[i] == t.chunks[i])
    && (forall i <- t.hashes :: i in t'.hashes && t'.hashes[i] == t.hashes[i])
    && (forall i :: 0 <= i < t.chunkCount && t.present[i] ==> t'.present[i])
    && PhaseReaches(t.phase, t'.phase)
    && (Open(t) && Open(t') ==> t.expiresAt <= t'.expiresAt)
    && (t.phase == Complete || t.phase == Expired ==> t' == t)
  }

  lemma MovesEvolves(sha: Hash, t: Transfer, t': Transfer, tid: Id, call: Call, clock: int, now: int)
    requires TransferOk(sha, t, clock) && clock <= now && Moves(sha, t, t', tid, call, now)
    ensures Evolves(t, t')
    ensures t.phase == Created ==> t'.phase != Complete
  {
    if StoresChunk(sha, t, t', tid, call, now) {
      StoresEvolves(sha, t, t', tid, call, clock, now);
    } else if t.phase == Created {
      CountTrueFull(t.present);
      assert 0 !in t.chunks && !t.present[0];
    }
  }

  lemma StoresEvolves(sha: Hash, t: Transfer, t': Transfer, tid: Id, call: Call, clock: int, now: int)
    requires TransferOk(sha, t, clock) && clock <= now && StoresChunk(sha, t, t', tid, call, now)
    ensures Evolves(t, t') && t'.phase == Uploading
  {
    WithChunkLifetime(sha, t, call.chunk, clock, now);
  }

  lemma EvolvesTrans(t: Transfer, t': Transfer, t'': Transfer)
    requires Evolves(t, t') && Evolves(t', t'')
    ensures Evolves(t, t'')
  {
  }

  lemma {:induction false} StaysAbsent(sha: Hash, s: State, evs: seq<Event>, tid: Id)
    requires tid !in s.transfers && NeverMints(evs, tid)
    ensures tid !in After(sha, s, evs).transfers
    decreases |evs|
  {
    if evs != [] {
      StepMoves(sha, s, evs[0].call, evs[0].now, tid);
      StaysAbsent(sha, Step(sha, s, evs[0].call, evs[0].now).next, evs[1..], tid);
    }
  }

  /** Over any run in which a record survives, it only evolves. */
  lemma {:induction false} RunEvolves(sha: Hash, s: State, clock: int, evs: seq<Event>, tid: Id)
    requires Inv(sha, s, clock) && Timed(clock, evs) && NeverMints(evs, tid)
    requires tid in s.transfers && tid in After(sha, s, evs).transfers
    ensures Evolves(s.transfers[tid], After(sha, s, evs).transfers[tid])
    decreases |evs|
  {
    if evs != [] {
      var s' := Step(sha, s, evs[0].call, evs[0].now).next;
      StepMoves(sha, s, evs[0].call, evs[0].now, tid);
      StepKeeps(sha, s, evs[0].call, clock, evs[0].now);
      if tid !in s'.transfers {
        StaysAbsent(sha, s', evs[1..], tid);
      }
      MovesEvolves(sha, s.transfers[tid], s'.transfers[tid], tid, evs[0].call, clock, evs[0].now);
      RunEvolves(sha, s', evs[0].now, evs[1..], tid);
      EvolvesTrans(s.transfers[tid], s'.transfers[tid], After(sha, s, evs).transfers[tid]);
    }
  }

  // ---- sealed and dead records ----

  /** A sealed record holds every chunk, and they add up to the file. */
  lemma SealedIsWhole(sha: Hash, t: Transfer, clock: int)
    requires TransferOk(sha, t, clock) && t.phase == Complete
    ensures forall i: nat :: i < t.chunkCount ==> i in t.chunks
    ensures t.storedBytes == t.totalSize
  {
    CountTrueFull(t.present);
    HeldBytesTile(t.chunks, t.chunkCount, t.totalSize, t.chunkSize, t.chunkCount);
  }

  predicate Gone(s: State, tid: Id, now: int) { tid !in s.transfers || Dead(s.transfers[tid], now) }

  /** The operations that act on one transfer by its identifier, apart from cancelling it. */
  predicate Addresses(call: Call, tid: Id) {
    || (call.DoPut? && call.chunk.transferID == tid)
    || (call.DoComplete? && call.complete.transferID == tid)
    || (call.DoGet? && call.tid == tid) || (call.DoResume? && call.tid == tid) || (call.DoProgress? && call.tid == tid)
    || (call.DoGetByTicket? && call.tid == tid) || (call.DoResumeByTicket? && call.tid == tid)
    || (call.DoGetTransfer? && call.tid == tid)
  }

  lemma GoneStep(sha: Hash, s: State, call: Call, clock: int, now: int, tid: Id)
    requires Gone(s, tid, clock) && clock <= now && !Mints(call, tid)
    ensures Gone(Step(sha, s, call, now).next, tid, now)
    ensures Addresses(call, tid) ==> Step(sha, s, call, now).reply.Err?
  {
    StepMoves(sha, s, call, now, tid);
    GoneStays(sha, s.transfers, Step(sha, s, call, now).next.transfers, call, clock, now, tid);
    if Addresses(call, tid) {
      NotFoundRefused(sha, s, call, now, tid);
    }
  }

  lemma GoneStays(sha: Hash, ts: map<Id, Transfer>, ts': map<Id, Transfer>, call: Call, clock: int, now: int, tid: Id)
    requires StepOn(sha, ts, ts', tid, call, now) && clock <= now && (tid !in ts || Dead(ts[tid], clock))
    ensures tid !in ts' || Dead(ts'[tid], now)
  {
  }

  lemma NotFoundRefused(sha: Hash, s: State, call: Call, now: int, tid: Id)
    requires !Found(s, tid, now) && Addresses(call, tid)
    ensures Step(sha, s, call, now).reply.Err?
  {
  }

  /** Once a transfer is gone or past its deadline unsealed, no put, read or seal of it ever succeeds again. */
  lemma {:induction false} DeadForGood(sha: Hash, s: State, clock: int, evs: seq<Event>, tid: Id, i: nat)
    requires Gone(s, tid, clock) && Timed(clock, evs) && NeverMints(evs, tid)
    requires i < |evs| && Addresses(evs[i].call, tid)
    ensures Replies(sha, s, evs)[i].Err?
    decreases |evs|
  {
    GoneStep(sha, s, evs[0].call, clock, evs[0].now, tid);
    if i > 0 {
      DeadForGood(sha, Step(sha, s, evs[0].call, evs[0].now).next, evs[0].now, evs[1..], tid, i - 1);
    }
  }

  /** Any put, accepted or refused, leaves a live transfer alive with a deadline no earlier than before and
      no later than seven days after its creation. */
  lemma PutKeepsAlive(sha: Hash, s: State, c: ChunkUpload, clock: int, now: int, tid: Id)
    requires Inv(sha, s, clock) && clock <= now
    requires tid in s.transfers && Open(s.transfers[tid]) && now < s.transfers[tid].expiresAt
    ensures var ts := PutStep(sha, s, c, now).next.transfers;
            && tid in ts && Open(ts[tid])
            && s.transfers[tid].expiresAt <= ts[tid].expiresAt <= s.transfers[tid].createdAt + UPLOAD_TTL_MAX
  {
    PutStepOn(sha, s, c, now, tid);
    var t := s.transfers[tid];
    assert TransferOk(sha, t, clock);
    if PutStep(sha, s, c, now).next.transfers[tid] != t {
      WithChunkLifetime(sha, t, c, clock, now);
    }
  }

  // ---- where the code is laxer than its description ----

  lemma ChunkReplyExact(sha: Hash, t: Transfer, index: nat, clock: int)
    requires TransferOk(sha, t, clock) && t.phase == Complete
    ensures ChunkReply(t, index).Chunk? <==> index < t.chunkCount
  {
    SealedIsWhole(sha, t, clock);
  }

  /** Past its lifetime a record is still served, to a ticket or to its owner, exactly when it is sealed. */
  lemma ServedPastItsTime(sha: Hash, s: State, clock: int, tid: Id, mid: Id, secret: Bytes, index: nat, now: int)
    requires Inv(sha, s, clock) && tid in s.transfers && now >= s.transfers[tid].expiresAt
    ensures var t := s.transfers[tid];
            && (GetByTicketStep(sha, s, tid, secret, index, now).reply.Chunk? <==>
                  t.phase == Complete && |secret| == 32 && sha(secret) == t.ticketHash && index < t.chunkCount)
            && (GetStep(sha, s, tid, mid, secret, index, now).reply.Chunk? <==>
                  && t.phase == Complete && index < t.chunkCount
                  && (t.hasMailbox ==>
                        && t.mailboxID == mid && mid in s.mailboxes && now < s.mailboxes[mid].expiresAt
                        && |secret| == 32 && sha(secret) == s.mailboxes[mid].secretHash))
  {
    assert TransferOk(sha, s.transfers[tid], clock);
    if s.transfers[tid].phase == Complete {
      ChunkReplyExact(sha, s.transfers[tid], index, clock);
    }
  }

  /** A well-formed seal succeeds exactly when the record is found and no chunk is missing; the manifest is not
      consulted. */
  lemma SealExact(sha: Hash, s: State, clock: int, c: TransferComplete, now: int)
    requires Inv(sha, s, clock) && CheckComplete(c).None?
    ensures CompleteStep(s, c, now).reply.Sealed? <==>
            && Found(s, c.transferID, now)
            && forall i: nat :: i < s.transfers[c.transferID].chunkCount ==> i in s.transfers[c.transferID].chunks
  {
    if Found(s, c.transferID, now) {
      var t := s.transfers[c.transferID];
      assert TransferOk(sha, t, clock);
      CountTrueFull(t.present);
    }
  }

  /** Any digest in place of the manifest's gives the same outcome. */
  lemma SealIgnoresManifest(s: State, c: TransferComplete, h: Digest, now: int)
    requires |c.manifestHash| == 32
    ensures CompleteStep(s, c.(manifestHash := h), now) == CompleteStep(s, c, now)
  {
  }

  /** An owner's read refused for its index changes the state exactly when the mailbox's lifetime can be slid. */
  lemma RefusedReadSlides(sha: Hash, s: State, tid: Id, mid: Id, secret: Bytes, index: nat, now: int)
    requires GetStep(sha, s, tid, mid, secret, index, now).reply == Err(ChunkOutOfRange)
    ensures tid in s.transfers && s.transfers[tid].chunkCount <= index
    ensures GetStep(sha, s, tid, mid, secret, index, now).next != s <==>
            && s.transfers[tid].hasMailbox
            && s.mailboxes[s.transfers[tid].mailboxID].expiresAt != now + MAILBOX_TTL
  {
    var t := s.transfers[tid];
    if t.hasMailbox {
      assert Slid(s.mailboxes, t, now)[t.mailboxID].expiresAt == now + MAILBOX_TTL;
      if s.mailboxes[t.mailboxID].expiresAt == now + MAILBOX_TTL {
        assert Slid(s.mailboxes, t, now) == s.mailboxes;
      }
    }
  }
}
