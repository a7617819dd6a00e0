/** What each operation on a transfer answers and leaves behind, said of the records and the request themselves: which
    chunks are held, what a credential hashes to, what the clock reads. */
module TransferAnswers {
  import opened Octets
  import opened Limits
  import opened Geometry
  import opened Shard
  import opened Invariant
  import opened Census

  /** A record that still answers: sealed, or before its deadline. */
  predicate Served(s: State, tid: Bytes, now: int) {
    tid in s.transfers && (s.transfers[tid].phase == Complete || now < s.transfers[tid].expiresAt)
  }

  /** The answer when the record does not: an error that says whether it is still there. */
  predicate NotServed(s: State, tid: Bytes, r: Reply) {
    r == Err(if tid in s.transfers then TransferExpired else TransferNotFound)
  }

  /** The owner of a bound transfer names its mailbox, which is live, and knows the secret: 32 bytes that hash to the
      registered one. A transfer without a mailbox has no such gate. */
  predicate Entitled(sha: Hash, s: State, t: Transfer, mid: Id, secret: Bytes, now: int) {
    t.hasMailbox ==>
      && t.mailboxID == mid && mid in s.mailboxes && now < s.mailboxes[mid].expiresAt
      && |secret| == 32 && sha(secret) == s.mailboxes[mid].secretHash
  }

  /** The answer to somebody who is not: the mailbox is gone, or else something they say is wrong. */
  predicate Denied(s: State, t: Transfer, mid: Id, now: int, r: Reply) {
    r == Err(if t.mailboxID == mid && (mid !in s.mailboxes || now >= s.mailboxes[mid].expiresAt) then MailboxNotFound
             else AuthFailed)
  }

  /** Nothing but the lifetime of the transfer's mailbox differs: that is a full year from now. */
  predicate OwnerRefreshed(s: State, s': State, t: Transfer, now: int) {
    s'.mailboxes ==
      if t.hasMailbox && t.mailboxID in s.mailboxes
      then s.mailboxes[t.mailboxID := s.mailboxes[t.mailboxID].(expiresAt := now + 365 * 24 * 3600 * 1000)]
      else s.mailboxes
  }

  lemma RecordOk(sha: Hash, s: State, clock: int, tid: Id)
    requires Inv(sha, s, clock)
    ensures tid in s.transfers ==> TransferOk(sha, s.transfers[tid], clock)
  {
  }

  // ---- creating ----

  predicate WellFormedCreate(c: TransferCreate) {
    && (|c.mailboxID| == 0 || |c.mailboxID| == 16) && Geometric(c.totalSize, c.chunkSize, c.chunkCount)
    && |c.manifest| <= 4096 && |c.senderPub| == 32 && |c.nonce| == 16 && |c.signature| == 64
  }

  /** The record is what the request declared, under the hash of the ticket, empty, with a day to go. */
  predicate Declared(sha: Hash, t: Transfer, c: TransferCreate, ticket: Digest, now: int) {
    && t.hasMailbox == (|c.mailboxID| == 16) && (t.hasMailbox ==> t.mailboxID == c.mailboxID)
    && t.totalSize == c.totalSize && t.chunkSize == c.chunkSize && t.chunkCount == c.chunkCount
    && t.manifest == c.manifest && t.senderPub == c.senderPub && t.ticketHash == sha(ticket)
    && t.phase == Created && t.chunks == map[] && t.createdAt == now && t.expiresAt == now + 24 * 3600 * 1000
  }

  /** The mailbox has sixteen open transfers already, or no room for the file. */
  ghost predicate Full(s: State, mid: Id, total: int, now: int) {
    || |set tid | tid in s.transfers && s.transfers[tid].hasMailbox && s.transfers[tid].mailboxID == mid
                  && (s.transfers[tid].phase == Created || s.transfers[tid].phase == Uploading)
                  && now < s.transfers[tid].expiresAt| == 16
    || BytesIn(s, mid) + total > 16 * 1024 * 1024
  }

  lemma OpenListed(s: State, mid: Id, now: int)
    ensures OpenIn(s.transfers, mid, now) ==
            set tid | tid in s.transfers && s.transfers[tid].hasMailbox && s.transfers[tid].mailboxID == mid
                      && (s.transfers[tid].phase == Created || s.transfers[tid].phase == Uploading)
                      && now < s.transfers[tid].expiresAt
  {
  }

  lemma FullCounted(sha: Hash, s: State, clock: int, mid: Id, total: int, now: int)
    requires Inv(sha, s, clock) && clock <= now
    ensures Full(s, mid, total, now) <==>
            ActiveTransfers(s, mid, now) >= MAX_ACTIVE_TRANSFERS || StoredBytes(s, mid) + total > MAX_STORED_BYTES
  {
    BytesCounted(sha, s, clock, mid);
    QuotaLater(s.transfers, mid, clock, now);
    OpenCounted(s.transfers, mid, now);
    OpenListed(s, mid, now);
  }

  /** Whether the creation goes through. */
  ghost predicate Admits(s: State, c: TransferCreate, ticket: Option<Digest>, now: int) {
    && WellFormedCreate(c) && ticket.Some?
    && (|c.mailboxID| == 16 ==>
          && c.mailboxID in s.mailboxes && now < s.mailboxes[c.mailboxID].expiresAt
          && !Full(s, c.mailboxID, c.totalSize, now))
  }

  function AnyTicket(): Digest { Zeros(32) }

  /** The answer to a creation that is not well formed, by the first thing that is wrong. */
  predicate Malformed(c: TransferCreate, r: Reply) {
    r == Err(if |c.mailboxID| != 0 && |c.mailboxID| != 16 then InvalidRequest
             else if !(1 <= c.chunkSize <= 65536) then ChunkInvalid
             else if !(1 <= c.chunkCount <= 16384) then ChunkOutOfRange
             else if !(1 <= c.totalSize <= 1024 * 1024 * 1024) then PayloadTooLarge
             else if !Geometric(c.totalSize, c.chunkSize, c.chunkCount) then ChunkInvalid
             else if |c.manifest| > 4096 then PayloadTooLarge
             else if |c.senderPub| == 32 && |c.nonce| != 16 then InvalidRequest
             else AuthFailed)
  }

  lemma CreateFormed(c: TransferCreate)
    ensures CheckCreate(c).None? <==> WellFormedCreate(c)
    ensures CheckCreate(c).Some? ==> Malformed(c, Err(CheckCreate(c).value))
  {
  }

  lemma CreateJudged(sha: Hash, s: State, c: TransferCreate, id: Id, ticket: Option<Digest>, now: int)
    requires |c.mailboxID| == 16 ==>
               (Full(s, c.mailboxID, c.totalSize, now) <==>
                || ActiveTransfers(s, c.mailboxID, now) >= MAX_ACTIVE_TRANSFERS
                || StoredBytes(s, c.mailboxID) + c.totalSize > MAX_STORED_BYTES)
    ensures var o := CreateTransferStep(sha, s, c, id, ticket, now);
            && (o.reply.Opened? <==> Admits(s, c, ticket, now))
            && (!o.reply.Opened? ==> o.reply.Err? && o.next == s)
            && (!WellFormedCreate(c) ==> Malformed(c, o.reply))
            && (Admits(s, c, Some(AnyTicket()), now) && ticket.None? ==> o.reply == Err(StorageUnavailable))
            && (WellFormedCreate(c) && |c.mailboxID| == 16 ==>
                  if c.mailboxID !in s.mailboxes || now >= s.mailboxes[c.mailboxID].expiresAt
                  then o.reply == Err(MailboxNotFound)
                  else o.reply == Err(QuotaExceeded) <==> Full(s, c.mailboxID, c.totalSize, now))
  {
    CreateFormed(c);
  }

  lemma CreateOpens(sha: Hash, s: State, c: TransferCreate, id: Id, ticket: Option<Digest>, now: int)
    requires CreateTransferStep(sha, s, c, id, ticket, now).reply.Opened?
    ensures var o := CreateTransferStep(sha, s, c, id, ticket, now);
            && ticket.Some? && o.reply == Opened(id, ticket.value, now + 24 * 3600 * 1000)
            && o.next.transfers.Keys == s.transfers.Keys + {id}
            && Declared(sha, o.next.transfers[id], c, ticket.value, now)
            && (forall tid <- s.transfers :: tid != id ==> o.next.transfers[tid] == s.transfers[tid])
            && OwnerRefreshed(s, o.next, o.next.transfers[id], now) && o.next.replay == s.replay
  {
  }

  /** A creation is answered with the identifier, the ticket and the deadline exactly when it is well formed and, for a
      mailbox, that is live, has fewer than sixteen open transfers and room for the file. */
  lemma CreateAnswers(sha: Hash, s: State, clock: int, c: TransferCreate, id: Id, ticket: Option<Digest>, now: int)
    requires Inv(sha, s, clock) && clock <= now
    ensures var o := Step(sha, s, DoCreateTransfer(c, id, ticket), now);
            if Admits(s, c, ticket, now) then
              && o.reply == Opened(id, ticket.value, now + 24 * 3600 * 1000)
              && o.next.transfers.Keys == s.transfers.Keys + {id}
              && Declared(sha, o.next.transfers[id], c, ticket.value, now)
              && (forall tid <- s.transfers :: tid != id ==> o.next.transfers[tid] == s.transfers[tid])
              && OwnerRefreshed(s, o.next, o.next.transfers[id], now) && o.next.replay == s.replay
            else o.reply.Err? && o.next == s
    ensures var r := Step(sha, s, DoCreateTransfer(c, id, ticket), now).reply;
            && (!WellFormedCreate(c) ==> Malformed(c, r))
            && (Admits(s, c, Some(AnyTicket()), now) && ticket.None? ==> r == Err(StorageUnavailable))
    ensures var o := Step(sha, s, DoCreateTransfer(c, id, ticket), now);
            WellFormedCreate(c) && |c.mailboxID| == 16 ==>
              if c.mailboxID !in s.mailboxes || now >= s.mailboxes[c.mailboxID].expiresAt
              then o.reply == Err(MailboxNotFound)
              else o.reply == Err(QuotaExceeded) <==> Full(s, c.mailboxID, c.totalSize, now)
  {
    if |c.mailboxID| == 16 {
      FullCounted(sha, s, clock, c.mailboxID, c.totalSize, now);
    }
    CreateJudged(sha, s, c, id, ticket, now);
    if CreateTransferStep(sha, s, c, id, ticket, now).reply.Opened? {
      CreateOpens(sha, s, c, id, ticket, now);
    }
  }

  // ---- storing a chunk ----

  predicate WellFormedPut(c: ChunkUpload) {
    |c.transferID| == 16 && 1 <= |c.payload| <= 65536 && (|c.chunkHash| == 0 || |c.chunkHash| == 32) && c.index < 16384
  }

  /** The chunk belongs to an open record: its index, offset, length and hash are right. */
  predicate Belongs(sha: Hash, t: Transfer, c: ChunkUpload) {
    && (t.phase == Created || t.phase == Uploading) && c.index < t.chunkCount && c.offset == c.index * t.chunkSize
    && |c.payload| == (if c.index == t.chunkCount - 1 then t.totalSize - c.index * t.chunkSize else t.chunkSize)
    && (c.chunkHash == [] || c.chunkHash == sha(c.payload))
  }

  /** The answer to a chunk that does not belong, by the first thing that is wrong. */
  predicate Misfit(sha: Hash, t: Transfer, c: ChunkUpload, r: Reply) {
    r == Err(if t.phase == Complete then TransferConflict
             else if c.index >= t.chunkCount then ChunkOutOfRange
             else if Belongs(sha, t, c.(chunkHash := [])) then HashMismatch
             else ChunkInvalid)
  }

  lemma BelongsExact(sha: Hash, t: Transfer, c: ChunkUpload, clock: int, now: int)
    requires TransferOk(sha, t, clock) && clock <= now && CheckChunk(c).None? && !Dead(t, now)
    ensures ChunkRefusal(sha, t, c).None? <==> Belongs(sha, t, c)
    ensures ChunkRefusal(sha, t, c).Some? ==> Misfit(sha, t, c, Err(ChunkRefusal(sha, t, c).value))
  {
    if c.index < t.chunkCount {
      ChunkLenBounds(t.totalSize, t.chunkSize, t.chunkCount, c.index);
    }
  }

  function Flagged(p: seq<bool>): set<nat> { set i: nat | i < |p| && p[i] }

  lemma {:induction false} FlaggedCounted(p: seq<bool>)
    ensures CountTrue(p) == |Flagged(p)|
    decreases |p|
  {
    if p == [] {
      assert Flagged(p) == {};
    } else {
      var n := |p| - 1;
      FlaggedCounted(p[..n]);
      if p[n] {
        assert Flagged(p) == Flagged(p[..n]) + {n};
      } else {
        assert Flagged(p) == Flagged(p[..n]);
      }
    }
  }

  lemma CountIsHeld(sha: Hash, t: Transfer)
    requires Consistent(sha, t)
    ensures t.presentCount == |t.chunks|
  {
    FlaggedCounted(t.present);
    assert t.chunks.Keys == Flagged(t.present);
  }

  /** The chunk is refused for want of room. */
  ghost predicate NoRoom(s: State, t: Transfer, c: ChunkUpload) {
    t.hasMailbox && BytesIn(s, t.mailboxID) + |c.payload| > 16 * 1024 * 1024
  }

  /** The store judges the chunk by whether it belongs, whether it is held already, and whether there is room. */
  ghost predicate JudgedRight(sha: Hash, s: State, c: ChunkUpload, t: Transfer) {
    var v := Judge(sha, t, c, StoredBytes(s, t.mailboxID));
    if !Belongs(sha, t, c) then v.Refuse? && Misfit(sha, t, c, Err(v.code))
    else if c.index in t.chunks
    then v == if |t.chunks[c.index]| == |c.payload| && sha(t.chunks[c.index]) == sha(c.payload) then Repeat
              else Refuse(ChunkConflict)
    else v == if NoRoom(s, t, c) then Refuse(QuotaExceeded) else Accept
  }

  lemma JudgedWith(sha: Hash, s: State, clock: int, c: ChunkUpload, now: int, t: Transfer)
    requires TransferOk(sha, t, clock) && clock <= now && CheckChunk(c).None? && !Dead(t, now)
    requires StoredBytes(s, t.mailboxID) == BytesIn(s, t.mailboxID)
    ensures JudgedRight(sha, s, c, t)
  {
    BelongsExact(sha, t, c, clock, now);
  }

  lemma PutJudged(sha: Hash, s: State, clock: int, c: ChunkUpload, now: int, tid: Id)
    requires Inv(sha, s, clock) && clock <= now && CheckChunk(c).None? && Found(s, tid, now)
    ensures JudgedRight(sha, s, c, s.transfers[tid])
  {
    RecordOk(sha, s, clock, tid);
    BytesCounted(sha, s, clock, s.transfers[tid].mailboxID);
    JudgedWith(sha, s, clock, c, now, s.transfers[tid]);
  }

  /** The record with one more chunk. */
  ghost predicate Gained(sha: Hash, t: Transfer, t': Transfer, c: ChunkUpload, now: int) {
    && t'.chunks == t.chunks[c.index := c.payload] && t'.presentCount == |t'.chunks|
    && t'.hashes == t.hashes[c.index := sha(c.payload)]
    && t'.phase == Uploading
    && t'.expiresAt == Min(now + 24 * 3600 * 1000, t.createdAt + 7 * 24 * 3600 * 1000)
  }

  lemma WithChunkGains(sha: Hash, t: Transfer, c: ChunkUpload, now: int)
    requires Consistent(sha, t) && CheckChunk(c).None? && Belongs(sha, t, c) && c.index !in t.chunks
    requires ChunkRefusal(sha, t, c).None?
    ensures Gained(sha, t, WithChunk(sha, t, c, now), c, now)
  {
    WithChunkConsistent(sha, t, c, now);
    CountIsHeld(sha, WithChunk(sha, t, c, now));
  }

  lemma PutRefused(sha: Hash, s: State, c: ChunkUpload, now: int, tid: Id)
    requires c.transferID == tid && CheckChunk(c).None? && Found(s, tid, now)
    requires JudgedRight(sha, s, c, s.transfers[tid]) && s.transfers[tid].presentCount == |s.transfers[tid].chunks|
    requires !Judge(sha, s.transfers[tid], c, StoredBytes(s, s.transfers[tid].mailboxID)).Accept?
    ensures var o, t := PutStep(sha, s, c, now), s.transfers[tid];
            && o.next == s
            && if !Belongs(sha, t, c) then Misfit(sha, t, c, o.reply)
               else if c.index in t.chunks
               then o.reply == if |t.chunks[c.index]| == |c.payload| && sha(t.chunks[c.index]) == sha(c.payload)
                               then Stored(|t.chunks|) else Err(ChunkConflict)
               else NoRoom(s, t, c) && o.reply == Err(QuotaExceeded)
  {
  }

  lemma AcceptedPut(sha: Hash, s: State, c: ChunkUpload, now: int, tid: Id)
    requires c.transferID == tid && CheckChunk(c).None? && Found(s, tid, now)
    requires Judge(sha, s.transfers[tid], c, StoredBytes(s, s.transfers[tid].mailboxID)).Accept?
    ensures var o, t' := PutStep(sha, s, c, now), WithChunk(sha, s.transfers[tid], c, now);
            && o.reply == Stored(t'.presentCount) && o.next.transfers == s.transfers[tid := t']
            && OwnerRefreshed(s, o.next, s.transfers[tid], now)
  {
  }

  lemma TakenGains(sha: Hash, t: Transfer, c: ChunkUpload, clock: int, now: int)
    requires TransferOk(sha, t, clock) && clock <= now && CheckChunk(c).None? && !Dead(t, now)
    requires Belongs(sha, t, c) && c.index !in t.chunks
    ensures var t' := WithChunk(sha, t, c, now); Gained(sha, t, t', c, now) && t'.presentCount == |t.chunks| + 1
  {
    BelongsExact(sha, t, c, clock, now);
    WithChunkGains(sha, t, c, now);
  }

  lemma PutTaken(sha: Hash, s: State, clock: int, c: ChunkUpload, now: int, tid: Id)
    requires tid in s.transfers && TransferOk(sha, s.transfers[tid], clock) && clock <= now
    requires WellFormedPut(c) && c.transferID == tid && Served(s, tid, now)
    requires Belongs(sha, s.transfers[tid], c) && c.index !in s.transfers[tid].chunks
    requires Judge(sha, s.transfers[tid], c, StoredBytes(s, s.transfers[tid].mailboxID)).Accept?
    ensures var o, t := PutStep(sha, s, c, now), s.transfers[tid];
            && o.reply == Stored(|t.chunks| + 1) && o.next.transfers.Keys == s.transfers.Keys
            && Gained(sha, t, o.next.transfers[tid], c, now)
            && (forall k <- s.transfers :: k != tid ==> o.next.transfers[k] == s.transfers[k])
            && OwnerRefreshed(s, o.next, t, now)
  {
    TakenGains(sha, s.transfers[tid], c, clock, now);
    AcceptedPut(sha, s, c, now, tid);
  }

  lemma PutDecided(sha: Hash, s: State, clock: int, c: ChunkUpload, now: int, tid: Id)
    requires c.transferID == tid && CheckChunk(c).None? && Found(s, tid, now) && clock <= now
    requires TransferOk(sha, s.transfers[tid], clock) && JudgedRight(sha, s, c, s.transfers[tid])
    ensures var o, t := PutStep(sha, s, c, now), s.transfers[tid];
            if !Belongs(sha, t, c) then Misfit(sha, t, c, o.reply) && o.next == s
            else if c.index in t.chunks then
              o == Outcome(s, if |t.chunks[c.index]| == |c.payload| && sha(t.chunks[c.index]) == sha(c.payload)
                              then Stored(|t.chunks|) else Err(ChunkConflict))
            else if NoRoom(s, t, c) then o == Outcome(s, Err(QuotaExceeded))
            else && o.reply == Stored(|t.chunks| + 1) && o.next.transfers.Keys == s.transfers.Keys
                 && Gained(sha, t, o.next.transfers[tid], c, now)
                 && (forall k <- s.transfers :: k != tid ==> o.next.transfers[k] == s.transfers[k])
                 && OwnerRefreshed(s, o.next, t, now)
  {
    var t := s.transfers[tid];
    if Judge(sha, t, c, StoredBytes(s, t.mailboxID)).Accept? {
      PutTaken(sha, s, clock, c, now, tid);
    } else {
      CountIsHeld(sha, t);
      PutRefused(sha, s, c, now, tid);
    }
  }

  lemma PutTurnedAway(sha: Hash, s: State, c: ChunkUpload, now: int, tid: Id)
    requires c.transferID == tid
    ensures CheckChunk(c).None? <==> WellFormedPut(c)
    ensures Found(s, tid, now) <==> Served(s, tid, now)
    ensures var o := PutStep(sha, s, c, now);
            && (!WellFormedPut(c) ==>
                  o == Outcome(s, Err(if |c.transferID| != 16 then InvalidRequest
                                      else if WellFormedPut(c.(index := 0)) then ChunkOutOfRange
                                      else ChunkInvalid)))
            && (WellFormedPut(c) && !Served(s, tid, now) ==>
                  NotServed(s, tid, o.reply) && o.next.mailboxes == s.mailboxes)
  {
  }

  /** A chunk that belongs to an open record is stored once; the same bytes again, by length and hash, are reported as
      stored, other bytes for the same index as a conflict; without room it is refused; the answer counts the chunks. */
  lemma PutAnswers(sha: Hash, s: State, clock: int, c: ChunkUpload, now: int, tid: Id)
    requires Inv(sha, s, clock) && clock <= now && c.transferID == tid
    ensures var o := Step(sha, s, DoPut(c), now);
            if !WellFormedPut(c)
            then o == Outcome(s, Err(if |c.transferID| != 16 then InvalidRequest
                                     else if WellFormedPut(c.(index := 0)) then ChunkOutOfRange
                                     else ChunkInvalid))
            else if !Served(s, tid, now) then NotServed(s, tid, o.reply) && o.next.mailboxes == s.mailboxes
            else
              var t := s.transfers[tid];
              if !Belongs(sha, t, c) then Misfit(sha, t, c, o.reply) && o.next == s
              else if c.index in t.chunks then
                o == Outcome(s, if |t.chunks[c.index]| == |c.payload| && sha(t.chunks[c.index]) == sha(c.payload)
                                then Stored(|t.chunks|) else Err(ChunkConflict))
              else if NoRoom(s, t, c) then o == Outcome(s, Err(QuotaExceeded))
              else && o.reply == Stored(|t.chunks| + 1) && o.next.transfers.Keys == s.transfers.Keys
                   && Gained(sha, t, o.next.transfers[tid], c, now)
                   && (forall k <- s.transfers :: k != tid ==> o.next.transfers[k] == s.transfers[k])
                   && OwnerRefreshed(s, o.next, t, now)
  {
    PutTurnedAway(sha, s, c, now, tid);
    if CheckChunk(c).None? && Found(s, tid, now) {
      RecordOk(sha, s, clock, tid);
      PutJudged(sha, s, clock, c, now, tid);
      PutDecided(sha, s, clock, c, now, tid);
    }
  }

  // ---- reading a chunk ----

  /** A chunk that is held is read as it was stored, with its hash. */
  predicate ReadsAs(sha: Hash, t: Transfer, index: nat, r: Reply) {
    r == if index >= t.chunkCount then Err(ChunkOutOfRange)
         else if index !in t.chunks then Err(ChunkInvalid)
         else Chunk(t.chunks[index], sha(t.chunks[index]))
  }

  lemma ChunkReplyReads(sha: Hash, t: Transfer, index: nat)
    requires Consistent(sha, t)
    ensures ReadsAs(sha, t, index, ChunkReply(t, index))
  {
  }

  lemma GetDecided(sha: Hash, s: State, clock: int, tid: Id, mid: Id, secret: Bytes, index: nat, now: int)
    requires tid in s.transfers ==> TransferOk(sha, s.transfers[tid], clock)
    ensures var o := GetStep(sha, s, tid, mid, secret, index, now);
            if !Served(s, tid, now) then NotServed(s, tid, o.reply) && o.next.mailboxes == s.mailboxes
            else if !Entitled(sha, s, s.transfers[tid], mid, secret, now)
            then Denied(s, s.transfers[tid], mid, now, o.reply) && o.next == s
            else && ReadsAs(sha, s.transfers[tid], index, o.reply) && o.next.transfers == s.transfers
                 && OwnerRefreshed(s, o.next, s.transfers[tid], now)
  {
    if tid in s.transfers {
      ChunkReplyReads(sha, s.transfers[tid], index);
    }
  }

  /** The owner reads every chunk that is held, as long as the record answers; anybody else gets an error and changes
      nothing. */
  lemma GetAnswers(sha: Hash, s: State, clock: int, tid: Id, mid: Id, secret: Bytes, index: nat, now: int)
    requires Inv(sha, s, clock)
    ensures var o := Step(sha, s, DoGet(tid, mid, secret, index), now);
            if !Served(s, tid, now) then NotServed(s, tid, o.reply) && o.next.mailboxes == s.mailboxes
            else if !Entitled(sha, s, s.transfers[tid], mid, secret, now)
            then Denied(s, s.transfers[tid], mid, now, o.reply) && o.next == s
            else && ReadsAs(sha, s.transfers[tid], index, o.reply) && o.next.transfers == s.transfers
                 && OwnerRefreshed(s, o.next, s.transfers[tid], now)
  {
    RecordOk(sha, s, clock, tid);
    GetDecided(sha, s, clock, tid, mid, secret, index, now);
  }

  lemma TicketDecided(sha: Hash, s: State, clock: int, tid: Id, ticket: Bytes, index: nat, now: int)
    requires tid in s.transfers ==> TransferOk(sha, s.transfers[tid], clock)
    ensures var o := GetByTicketStep(sha, s, tid, ticket, index, now);
            if !Served(s, tid, now) then NotServed(s, tid, o.reply) && o.next.mailboxes == s.mailboxes
            else && o.next == s
                 && if |ticket| == 32 && sha(ticket) == s.transfers[tid].ticketHash
                    then ReadsAs(sha, s.transfers[tid], index, o.reply)
                    else o.reply == Err(AuthFailed)
  {
    if tid in s.transfers {
      ChunkReplyReads(sha, s.transfers[tid], index);
    }
  }

  /** So does whoever has the ticket: 32 bytes that hash to the one handed out. */
  lemma GetByTicketAnswers(sha: Hash, s: State, clock: int, tid: Id, ticket: Bytes, index: nat, now: int)
    requires Inv(sha, s, clock)
    ensures var o := Step(sha, s, DoGetByTicket(tid, ticket, index), now);
            if !Served(s, tid, now) then NotServed(s, tid, o.reply) && o.next.mailboxes == s.mailboxes
            else && o.next == s
                 && if |ticket| == 32 && sha(ticket) == s.transfers[tid].ticketHash
                    then ReadsAs(sha, s.transfers[tid], index, o.reply)
                    else o.reply == Err(AuthFailed)
  {
    RecordOk(sha, s, clock, tid);
    TicketDecided(sha, s, clock, tid, ticket, index, now);
  }

  // ---- looking at a transfer ----

  /** The snapshot tells what was declared, how many chunks are held and how long the complete prefix is. */
  ghost predicate Describes(v: TransferView, tid: Id, t: Transfer) {
    && v.id == tid && v.hasMailbox == t.hasMailbox && v.mailboxID == t.mailboxID
    && v.totalSize == t.totalSize && v.chunkSize == t.chunkSize && v.chunkCount == t.chunkCount
    && v.manifest == t.manifest && v.senderPub == t.senderPub && v.phase == t.phase
    && v.createdAt == t.createdAt && v.expiresAt == t.expiresAt
    && v.presentCount == |t.chunks|
    && v.highest <= t.chunkCount && (forall i: nat :: i < v.highest ==> i in t.chunks) && v.highest !in t.chunks
  }

  lemma ViewDescribes(sha: Hash, t: Transfer, tid: Id)
    requires Consistent(sha, t)
    ensures Describes(ViewOf(t, tid), tid, t)
  {
    CountIsHeld(sha, t);
  }

  lemma SnapshotDecided(sha: Hash, s: State, clock: int, tid: Id, now: int)
    requires tid in s.transfers ==> TransferOk(sha, s.transfers[tid], clock)
    ensures var o := GetTransferStep(s, tid, now);
            if !Served(s, tid, now) then NotServed(s, tid, o.reply) && o.next.mailboxes == s.mailboxes
            else o.next == s && o.reply.Snapshot? && Describes(o.reply.transfer, tid, s.transfers[tid])
  {
    if tid in s.transfers {
      ViewDescribes(sha, s.transfers[tid], tid);
    }
  }

  lemma SnapshotAnswers(sha: Hash, s: State, clock: int, tid: Id, now: int)
    requires Inv(sha, s, clock)
    ensures var o := Step(sha, s, DoGetTransfer(tid), now);
            if !Served(s, tid, now) then NotServed(s, tid, o.reply) && o.next.mailboxes == s.mailboxes
            else o.next == s && o.reply.Snapshot? && Describes(o.reply.transfer, tid, s.transfers[tid])
  {
    RecordOk(sha, s, clock, tid);
    SnapshotDecided(sha, s, clock, tid, now);
  }

  // ---- sealing and cancelling ----

  predicate WellFormedSeal(c: TransferComplete) {
    && |c.transferID| == 16 && |c.manifestHash| == 32 && |c.senderPub| == 32 && |c.nonce| == 16 && |c.signature| == 64
    && (|c.mailboxID| == 0 || |c.mailboxID| == 16)
  }

  /** Every chunk is held. */
  ghost predicate Whole(t: Transfer) { forall i: nat :: i < t.chunkCount ==> i in t.chunks }

  /** What the counters say about the chunks. */
  ghost predicate WellCounted(t: Transfer) {
    && t.presentCount == |t.chunks| && (t.presentCount == t.chunkCount <==> Whole(t))
    && t.phase != Cancelled && (t.phase == Complete ==> t.presentCount == t.chunkCount)
  }

  lemma CountedWell(sha: Hash, t: Transfer, clock: int)
    requires TransferOk(sha, t, clock)
    ensures WellCounted(t)
  {
    CountTrueFull(t.present);
    CountIsHeld(sha, t);
  }

  /** The record after a first seal. */
  function SealedAt(t: Transfer, now: int): Transfer {
    t.(phase := Complete, expiresAt := now + 14 * 24 * 3600 * 1000)
  }

  lemma SealDecided(s: State, c: TransferComplete, now: int, tid: Id)
    requires c.transferID == tid && (tid in s.transfers ==> WellCounted(s.transfers[tid]))
    ensures var o := CompleteStep(s, c, now);
            if !WellFormedSeal(c) then o == Outcome(s, Err(InvalidRequest))
            else if !Served(s, tid, now) then NotServed(s, tid, o.reply) && o.next.mailboxes == s.mailboxes
            else
              var t := s.transfers[tid];
              if !Whole(t) then o == Outcome(s, Unsealed(|t.chunks|, t.chunkCount, TransferConflict))
              else && o.reply == Sealed(t.chunkCount, t.chunkCount)
                   && o.next == if t.phase == Complete then s
                                else s.(transfers := s.transfers[tid := SealedAt(t, now)])
  {
  }

  /** A seal of a record with every chunk gives it fourteen days; a repeated one changes nothing; with chunks missing
      the answer counts those held and those expected. */
  lemma SealAnswers(sha: Hash, s: State, clock: int, c: TransferComplete, now: int, tid: Id)
    requires Inv(sha, s, clock) && c.transferID == tid
    ensures var o := Step(sha, s, DoComplete(c), now);
            if !WellFormedSeal(c) then o == Outcome(s, Err(InvalidRequest))
            else if !Served(s, tid, now) then NotServed(s, tid, o.reply) && o.next.mailboxes == s.mailboxes
            else
              var t := s.transfers[tid];
              if !Whole(t) then o == Outcome(s, Unsealed(|t.chunks|, t.chunkCount, TransferConflict))
              else && o.reply == Sealed(t.chunkCount, t.chunkCount)
                   && o.next == if t.phase == Complete then s
                                else s.(transfers := s.transfers[tid := SealedAt(t, now)])
  {
    RecordOk(sha, s, clock, tid);
    if tid in s.transfers {
      CountedWell(sha, s.transfers[tid], clock);
    }
    SealDecided(s, c, now, tid);
  }

  /** The owner removes the record, whatever its state, and nothing else; anybody else changes nothing. */
  lemma CancelAnswers(sha: Hash, s: State, tid: Id, mid: Id, secret: Bytes, now: int)
    ensures var o := Step(sha, s, DoCancel(tid, mid, secret), now);
            if tid !in s.transfers then o == Outcome(s, Err(TransferNotFound))
            else if !Entitled(sha, s, s.transfers[tid], mid, secret, now)
            then Denied(s, s.transfers[tid], mid, now, o.reply) && o.next == s
            else && o.reply == Done && o.next.transfers.Keys == s.transfers.Keys - {tid}
                 && (forall k <- o.next.transfers :: o.next.transfers[k] == s.transfers[k])
                 && OwnerRefreshed(s, o.next, s.transfers[tid], now) && o.next.replay == s.replay
  {
  }
}
