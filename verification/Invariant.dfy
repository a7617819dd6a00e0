/** What every reachable state of the shard satisfies, and that every operation keeps it. */
module Invariant {
  import opened Octets
  import opened Limits
  import opened Collections
  import opened Geometry
  import opened Shard

  // ---- mailboxes ----

  ghost predicate MessageOk(m: Message, until: int, clock: int) {
    && 1 <= |m.envelope| <= MAX_MESSAGE_BYTES
    && m.enqueuedAt <= clock
    && m.expiresAt == m.enqueuedAt + MSG_TTL
    && m.expiresAt <= until
  }

  /** The byte counter is the sum over the queue, and no message outlives its mailbox. */
  ghost predicate MailboxOk(mb: Mailbox, clock: int) {
    && |mb.messages| <= MAX_QUEUED
    && mb.storedBytes == SumBytes(mb.messages)
    && mb.expiresAt <= clock + MAILBOX_TTL
    && forall m <- mb.messages :: MessageOk(m, mb.expiresAt, clock)
  }

  // ---- transfers ----

  /** The chunk maps, flags and counters of a transfer agree with each other and with its geometry. */
  ghost predicate Consistent(sha: Hash, t: Transfer) {
    && Geometric(t.totalSize, t.chunkSize, t.chunkCount)
    && |t.manifest| <= MAX_MANIFEST_BYTES
    && (forall i: nat :: i in t.chunks <==> i < t.chunkCount && t.present[i])
    && t.hashes.Keys == t.chunks.Keys
    && (forall i <- t.chunks :: t.hashes[i] == sha(t.chunks[i]))
    && WellSized(t.chunks, t.totalSize, t.chunkSize, t.chunkCount)
    && t.presentCount == CountTrue(t.present)
    && LongestPrefix(t.present, t.highest)
    && t.storedBytes == HeldBytes(t.chunks, t.chunkCount)
  }

  /** When a transfer may end, and what its phase says about it. */
  ghost predicate Lifetime(t: Transfer, clock: int) {
    && t.createdAt <= clock
    && t.phase != Cancelled
    && (t.phase != Complete ==> t.expiresAt <= t.createdAt + UPLOAD_TTL_MAX)
    && (t.phase == Complete ==> t.expiresAt <= t.createdAt + UPLOAD_TTL_MAX + COMPLETE_TTL)
    && (t.phase == Complete ==> t.presentCount == t.chunkCount)
    && (t.phase == Expired ==> t.expiresAt <= clock)
    && (t.phase == Created ==> t.chunks == map[])
    && (Open(t) ==> t.expiresAt <= clock + UPLOAD_TTL)
  }

  ghost predicate TransferOk(sha: Hash, t: Transfer, clock: int) {
    Consistent(sha, t) && Lifetime(t, clock)
  }

  /** The mailbox of a bound transfer is there, and was slid when the transfer was created or later. */
  ghost predicate OwnerOk(mbs: map<Id, Mailbox>, t: Transfer) {
    t.hasMailbox ==> t.mailboxID in mbs && t.createdAt + MAILBOX_TTL <= mbs[t.mailboxID].expiresAt
  }

  function ChunkBytesOf(mid: Id): Transfer -> int {
    (t: Transfer) => if BoundTo(t, mid) then t.storedBytes else 0
  }

  /** The bounds that the quota checks really give. */
  ghost predicate QuotaOk(ts: map<Id, Transfer>, mid: Id, clock: int) {
    && Total(ts, ActiveOf(mid, clock)) <= MAX_ACTIVE_TRANSFERS
    && Total(ts, ChunkBytesOf(mid)) <= MAX_STORED_BYTES
    && Total(ts, ChargeOf(mid)) <= MAX_STORED_BYTES + MAX_MANIFEST_BYTES - 1
  }

  /** The invariant at the time of the last clock read. */
  ghost predicate Inv(sha: Hash, s: State, clock: int) {
    && (forall mid <- s.mailboxes :: MailboxOk(s.mailboxes[mid], clock))
    && (forall tid <- s.transfers :: TransferOk(sha, s.transfers[tid], clock))
    && (forall tid <- s.transfers :: OwnerOk(s.mailboxes, s.transfers[tid]))
    && (forall mid: Id :: QuotaOk(s.transfers, mid, clock))
  }

  lemma InvEmpty(sha: Hash, clock: int)
    ensures Inv(sha, EMPTY, clock)
  {
  }

  // ---- time passes ----

  lemma QuotaLater(ts: map<Id, Transfer>, mid: Id, clock: int, now: int)
    requires clock <= now && QuotaOk(ts, mid, clock)
    ensures QuotaOk(ts, mid, now)
  {
    TotalLe(ts, ts, ActiveOf(mid, now), ActiveOf(mid, clock));
  }

  lemma InvLater(sha: Hash, s: State, clock: int, now: int)
    requires clock <= now && Inv(sha, s, clock)
    ensures Inv(sha, s, now)
  {
    forall mid: Id
      ensures QuotaOk(s.transfers, mid, now)
    {
      QuotaLater(s.transfers, mid, clock, now);
    }
    forall tid <- s.transfers
      ensures TransferOk(sha, s.transfers[tid], now)
    {
      assert TransferOk(sha, s.transfers[tid], clock);
    }
  }

  // ---- the three ways a state changes ----

  /** A mailbox may be replaced by a sound one that does not end earlier. */
  lemma InvSetMailbox(sha: Hash, s: State, mid: Id, mb: Mailbox, now: int)
    requires Inv(sha, s, now) && MailboxOk(mb, now)
    requires mid in s.mailboxes ==> s.mailboxes[mid].expiresAt <= mb.expiresAt
    ensures Inv(sha, SetMailbox(s, mid, mb), now)
  {
    var s' := SetMailbox(s, mid, mb);
    forall tid <- s'.transfers
      ensures OwnerOk(s'.mailboxes, s'.transfers[tid])
    {
      assert OwnerOk(s.mailboxes, s.transfers[tid]);
    }
  }

  /** A transfer that is not charged to `mid` cannot raise the totals of `mid`. */
  lemma QuotaElsewhere(ts: map<Id, Transfer>, tid: Id, t: Transfer, mid: Id, now: int)
    requires QuotaOk(ts, mid, now) && !BoundTo(t, mid)
    requires tid in ts ==> 0 <= ts[tid].storedBytes
    ensures QuotaOk(ts[tid := t], mid, now)
  {
    TotalUpdate(ts, tid, t, ActiveOf(mid, now));
    TotalUpdate(ts, tid, t, ChunkBytesOf(mid));
    TotalUpdate(ts, tid, t, ChargeOf(mid));
  }

  /** A transfer may be set if it is sound and its own mailbox stays within its quotas. */
  lemma InvSetTransfer(sha: Hash, s: State, tid: Id, t: Transfer, now: int)
    requires Inv(sha, s, now) && TransferOk(sha, t, now) && OwnerOk(s.mailboxes, t)
    requires t.hasMailbox ==> QuotaOk(s.transfers[tid := t], t.mailboxID, now)
    ensures Inv(sha, SetTransfer(s, tid, t), now)
  {
    var ts := s.transfers[tid := t];
    assert tid in s.transfers ==> TransferOk(sha, s.transfers[tid], now);
    forall mid: Id
      ensures QuotaOk(ts, mid, now)
    {
      if !BoundTo(t, mid) {
        QuotaElsewhere(s.transfers, tid, t, mid, now);
      }
    }
    forall k <- ts
      ensures TransferOk(sha, ts[k], now) && OwnerOk(s.mailboxes, ts[k])
    {
      assert k != tid ==> TransferOk(sha, s.transfers[k], now) && OwnerOk(s.mailboxes, s.transfers[k]);
    }
  }

  /** A record may be replaced by a sound one that is charged no more and is no more active. */
  lemma InvReplaceTransfer(sha: Hash, s: State, tid: Id, t: Transfer, now: int)
    requires Inv(sha, s, now) && tid in s.transfers && TransferOk(sha, t, now)
    requires t.mailboxID == s.transfers[tid].mailboxID && t.hasMailbox == s.transfers[tid].hasMailbox
    requires t.createdAt == s.transfers[tid].createdAt && t.manifest == s.transfers[tid].manifest
    requires t.storedBytes == s.transfers[tid].storedBytes
    requires Open(t) && now < t.expiresAt ==> Open(s.transfers[tid]) && now < s.transfers[tid].expiresAt
    ensures Inv(sha, SetTransfer(s, tid, t), now)
  {
    var mid := t.mailboxID;
    assert OwnerOk(s.mailboxes, s.transfers[tid]);
    assert QuotaOk(s.transfers, mid, now);
    TotalUpdate(s.transfers, tid, t, ActiveOf(mid, now));
    TotalUpdate(s.transfers, tid, t, ChunkBytesOf(mid));
    TotalUpdate(s.transfers, tid, t, ChargeOf(mid));
    InvSetTransfer(sha, s, tid, t, now);
  }

  lemma QuotaFewer(ts: map<Id, Transfer>, fewer: map<Id, Transfer>, mid: Id, now: int)
    requires QuotaOk(ts, mid, now)
    requires forall tid <- ts :: 0 <= ts[tid].storedBytes
    requires forall tid <- fewer :: tid in ts && fewer[tid] == ts[tid]
    ensures QuotaOk(fewer, mid, now)
  {
    TotalLe(fewer, ts, ActiveOf(mid, now), ActiveOf(mid, now));
    TotalLe(fewer, ts, ChunkBytesOf(mid), ChunkBytesOf(mid));
    TotalLe(fewer, ts, ChargeOf(mid), ChargeOf(mid));
  }

  /** Transfers may be dropped. */
  lemma InvFewerTransfers(sha: Hash, s: State, ts: map<Id, Transfer>, now: int)
    requires Inv(sha, s, now)
    requires forall tid <- ts :: tid in s.transfers && ts[tid] == s.transfers[tid]
    ensures Inv(sha, s.(transfers := ts), now)
  {
    forall tid <- s.transfers
      ensures 0 <= s.transfers[tid].storedBytes
    {
      assert TransferOk(sha, s.transfers[tid], now);
    }
    forall mid: Id
      ensures QuotaOk(ts, mid, now)
    {
      QuotaFewer(s.transfers, ts, mid, now);
    }
    forall tid <- ts
      ensures TransferOk(sha, ts[tid], now) && OwnerOk(s.mailboxes, ts[tid])
    {
      assert TransferOk(sha, s.transfers[tid], now) && OwnerOk(s.mailboxes, s.transfers[tid]);
    }
  }

  // ---- mailbox operations ----

  lemma SlideOk(mb: Mailbox, now: int)
    requires MailboxOk(mb, now)
    ensures MailboxOk(Slide(mb, now), now) && mb.expiresAt <= Slide(mb, now).expiresAt
  {
  }

  lemma FewerMessagesOk(mb: Mailbox, ms: seq<Message>, now: int)
    requires MailboxOk(mb, now) && |ms| <= |mb.messages| && forall m <- ms :: m in mb.messages
    ensures MailboxOk(WithQueue(mb, ms), now)
  {
  }

  lemma SlideOwnerKeeps(sha: Hash, s: State, t: Transfer, now: int)
    requires Inv(sha, s, now)
    ensures Inv(sha, SlideOwner(s, t, now), now)
  {
    if t.hasMailbox && t.mailboxID in s.mailboxes {
      SlideOk(s.mailboxes[t.mailboxID], now);
      InvSetMailbox(sha, s, t.mailboxID, Slide(s.mailboxes[t.mailboxID], now), now);
    }
  }

  lemma CreateMailboxKeeps(sha: Hash, s: State, mid: Id, h: Digest, now: int)
    requires Inv(sha, s, now)
    ensures Inv(sha, Lift(s, Register(s.mailboxes, mid, h, now)).next, now)
  {
    if mid in s.mailboxes {
      var mb := s.mailboxes[mid].(secretHash := h);
      assert MailboxOk(s.mailboxes[mid], now);
      SlideOk(mb, now);
      InvSetMailbox(sha, s, mid, Slide(mb, now), now);
    } else {
      InvSetMailbox(sha, s, mid, Mailbox(h, [], now + MAILBOX_TTL, 0), now);
    }
  }

  lemma SendKeeps(sha: Hash, s: State, m: SendMessage, id: Id, now: int)
    requires Inv(sha, s, now)
    ensures Inv(sha, Lift(s, Send(s.mailboxes, m, id, now)).next, now)
  {
    if CheckSend(m).None? && LiveMailbox(s.mailboxes, m.mailboxID, now) {
      var mid: Id := m.mailboxID;
      var mb := Prune(s.mailboxes[mid], now);
      FilterMembers(s.mailboxes[mid].messages, Unexpired(now));
      FewerMessagesOk(s.mailboxes[mid], mb.messages, now);
      InvSetMailbox(sha, s, mid, mb, now);
      if |mb.messages| < MAX_QUEUED {
        var mb' := Enqueue(mb, Message(id, m.envelope, m.senderPub, now, now + MSG_TTL));
        InvSetMailbox(sha, s, mid, Slide(mb', now), now);
      }
    }
  }

  lemma ReceiveKeeps(sha: Hash, s: State, mid: Id, secret: Bytes, limit: int, peek: bool, now: int)
    requires Inv(sha, s, now)
    ensures Inv(sha, Lift(s, Receive(sha, s.mailboxes, mid, secret, limit, peek, now)).next, now)
  {
    if LiveMailbox(s.mailboxes, mid, now) {
      var mb := Prune(s.mailboxes[mid], now);
      var n := Min(BatchLimit(limit), |mb.messages|);
      var left := if peek then mb.messages else mb.messages[n..];
      FilterMembers(s.mailboxes[mid].messages, Unexpired(now));
      FewerMessagesOk(s.mailboxes[mid], left, now);
      SlideOk(WithQueue(mb, left), now);
      InvSetMailbox(sha, s, mid, Slide(WithQueue(mb, left), now), now);
    }
  }

  lemma AckKeeps(sha: Hash, s: State, mid: Id, secret: Bytes, ids: seq<Bytes>, d: Disposition, now: int)
    requires Inv(sha, s, now)
    ensures Inv(sha, Lift(s, Ack(sha, s.mailboxes, mid, secret, ids, d, now)).next, now)
  {
    if LiveMailbox(s.mailboxes, mid, now) {
      var mb := Prune(s.mailboxes[mid], now);
      FilterMembers(s.mailboxes[mid].messages, Unexpired(now));
      FewerMessagesOk(s.mailboxes[mid], mb.messages, now);
      InvSetMailbox(sha, s, mid, mb, now);
      var left := Filter(mb.messages, NotAmong(IdSet(ids)));
      var queue := if d.Consumed? then left else mb.messages;
      FilterMembers(mb.messages, NotAmong(IdSet(ids)));
      FewerMessagesOk(s.mailboxes[mid], queue, now);
      SlideOk(WithQueue(mb, queue), now);
      InvSetMailbox(sha, s, mid, Slide(WithQueue(mb, queue), now), now);
    }
  }

  // ---- transfer operations ----

  lemma NewTransferOk(sha: Hash, t: TransferCreate, ticket: Digest, now: int)
    requires CheckCreate(t).None?
    ensures TransferOk(sha, NewTransfer(sha, t, ticket, now), now)
  {
    HeldBytesEmpty(t.chunkCount);
    CountTrueNone(t.chunkCount);
  }

  /** The creation check ignores the new manifest, which is why the charge may pass the limit by 4095 bytes. */
  /** A record with nothing stored yet adds one active transfer and its manifest. */
  lemma NewRecordTotals(ts: map<Id, Transfer>, id: Id, t: Transfer, mid: Id, now: int)
    requires t.storedBytes == 0 && (id in ts ==> ts[id].storedBytes >= 0)
    ensures var ts' := ts[id := t];
            && Total(ts', ActiveOf(mid, now)) <= Total(ts, ActiveOf(mid, now)) + 1
            && Total(ts', ChunkBytesOf(mid)) <= Total(ts, ChunkBytesOf(mid))
            && Total(ts', ChargeOf(mid)) <= Total(ts, ChargeOf(mid)) + |t.manifest|
  {
    TotalUpdate(ts, id, t, ActiveOf(mid, now));
    TotalUpdate(ts, id, t, ChunkBytesOf(mid));
    TotalUpdate(ts, id, t, ChargeOf(mid));
  }

  lemma CreateWithinQuota(sha: Hash, s: State, id: Id, t: Transfer, now: int)
    requires Inv(sha, s, now) && t.hasMailbox && t.mailboxID in s.mailboxes
    requires ActiveTransfers(s, t.mailboxID, now) < MAX_ACTIVE_TRANSFERS
    requires StoredBytes(s, t.mailboxID) < MAX_STORED_BYTES
    requires t.storedBytes == 0 && |t.manifest| <= MAX_MANIFEST_BYTES
    ensures QuotaOk(s.transfers[id := t], t.mailboxID, now)
  {
    var mid := t.mailboxID;
    assert QuotaOk(s.transfers, mid, now) && MailboxOk(s.mailboxes[mid], now);
    assert id in s.transfers ==> TransferOk(sha, s.transfers[id], now);
    NewRecordTotals(s.transfers, id, t, mid, now);
  }

  lemma CreateTransferKeeps(sha: Hash, s: State, t: TransferCreate, id: Id, ticket: Option<Digest>, now: int)
    requires Inv(sha, s, now)
    ensures Inv(sha, CreateTransferStep(sha, s, t, id, ticket, now).next, now)
  {
    var o := CreateTransferStep(sha, s, t, id, ticket, now);
    if o.reply.Opened? {
      var tr := NewTransfer(sha, t, ticket.value, now);
      NewTransferOk(sha, t, ticket.value, now);
      SlideOwnerKeeps(sha, s, tr, now);
      if tr.hasMailbox {
        CreateWithinQuota(sha, s, id, tr, now);
      }
      InvSetTransfer(sha, SlideOwner(s, tr, now), id, tr, now);
      assert o.next == SetTransfer(SlideOwner(s, tr, now), id, tr);
    }
  }

  lemma MarkKeeps(sha: Hash, s: State, tid: Bytes, now: int)
    requires Inv(sha, s, now)
    ensures Inv(sha, Mark(s, tid, now), now)
  {
    if |tid| == 16 && tid in s.transfers && Dead(s.transfers[tid], now) {
      var t: Transfer := s.transfers[tid].(phase := Expired);
      assert TransferOk(sha, s.transfers[tid], now);
      InvReplaceTransfer(sha, s, tid, t, now);
    }
  }

  lemma WithChunkMaps(sha: Hash, t: Transfer, c: ChunkUpload, now: int)
    requires Consistent(sha, t) && ChunkRefusal(sha, t, c).None? && c.index !in t.chunks
    ensures var t' := WithChunk(sha, t, c, now);
            && (forall i: nat :: i in t'.chunks <==> i < t'.chunkCount && t'.present[i])
            && t'.hashes.Keys == t'.chunks.Keys && (forall i <- t'.chunks :: t'.hashes[i] == sha(t'.chunks[i]))
  {
  }

  lemma WithChunkSizes(sha: Hash, t: Transfer, c: ChunkUpload, now: int)
    requires Consistent(sha, t) && ChunkRefusal(sha, t, c).None? && c.index !in t.chunks
    ensures var t' := WithChunk(sha, t, c, now);
            && WellSized(t'.chunks, t.totalSize, t.chunkSize, t.chunkCount)
            && t'.storedBytes == t.storedBytes + |c.payload| == HeldBytes(t'.chunks, t'.chunkCount)
  {
    HeldBytesInsert(t.chunks, t.chunkCount, c.index, c.payload);
    ChunkLenBounds(t.totalSize, t.chunkSize, t.chunkCount, c.index);
    assert |c.payload| == ChunkLen(t.totalSize, t.chunkSize, t.chunkCount, c.index);
  }

  /** Storing a chunk of the right size keeps the record consistent. */
  lemma WithChunkConsistent(sha: Hash, t: Transfer, c: ChunkUpload, now: int)
    requires Consistent(sha, t) && Open(t) && ChunkRefusal(sha, t, c).None? && c.index !in t.chunks
    ensures Consistent(sha, WithChunk(sha, t, c, now))
    ensures WithChunk(sha, t, c, now).storedBytes == t.storedBytes + |c.payload|
    ensures WithChunk(sha, t, c, now).presentCount == t.presentCount + 1
  {
    WithChunkMaps(sha, t, c, now);
    WithChunkSizes(sha, t, c, now);
    CountTrueSet(t.present, c.index);
  }

  /** The deadline of a live transfer never moves back, and never past seven days from its creation. */
  lemma WithChunkLifetime(sha: Hash, t: Transfer, c: ChunkUpload, clock: int, now: int)
    requires TransferOk(sha, t, clock) && clock <= now && Open(t) && now < t.expiresAt && c.index < t.chunkCount
    ensures Lifetime(WithChunk(sha, t, c, now), now)
    ensures now < t.expiresAt <= WithChunk(sha, t, c, now).expiresAt <= t.createdAt + UPLOAD_TTL_MAX
  {
  }

  lemma PutWithinQuota(sha: Hash, s: State, tid: Id, t: Transfer, added: nat, now: int)
    requires Inv(sha, s, now) && tid in s.transfers
    requires t.hasMailbox && BoundTo(s.transfers[tid], t.mailboxID)
    requires Open(s.transfers[tid]) && now < s.transfers[tid].expiresAt
    requires StoredBytes(s, t.mailboxID) + added <= MAX_STORED_BYTES
    requires t.storedBytes == s.transfers[tid].storedBytes + added && t.manifest == s.transfers[tid].manifest
    ensures QuotaOk(s.transfers[tid := t], t.mailboxID, now)
  {
    var mid, ts := t.mailboxID, s.transfers[tid := t];
    assert QuotaOk(s.transfers, mid, now) && OwnerOk(s.mailboxes, s.transfers[tid]);
    assert MailboxOk(s.mailboxes[mid], now);
    TotalUpdate(s.transfers, tid, t, ActiveOf(mid, now));
    TotalUpdate(s.transfers, tid, t, ChargeOf(mid));
    forall k <- ts
      ensures 0 <= ts[k].storedBytes
    {
      assert k != tid ==> TransferOk(sha, s.transfers[k], now);
      assert TransferOk(sha, s.transfers[tid], now);
    }
    TotalLe(ts, ts, ChunkBytesOf(mid), ChargeOf(mid));
  }

  lemma AcceptKeeps(sha: Hash, s: State, tid: Id, c: ChunkUpload, now: int)
    requires Inv(sha, s, now) && Found(s, tid, now)
    requires Judge(sha, s.transfers[tid], c, StoredBytes(s, s.transfers[tid].mailboxID)).Accept?
    ensures Inv(sha, SetTransfer(s, tid, WithChunk(sha, s.transfers[tid], c, now)), now)
  {
    var t := s.transfers[tid];
    assert TransferOk(sha, t, now) && OwnerOk(s.mailboxes, t);
    var t' := WithChunk(sha, t, c, now);
    WithChunkConsistent(sha, t, c, now);
    WithChunkLifetime(sha, t, c, now, now);
    if t.hasMailbox {
      PutWithinQuota(sha, s, tid, t', |c.payload|, now);
    }
    InvSetTransfer(sha, s, tid, t', now);
  }

  lemma AcceptSlideKeeps(sha: Hash, s: State, tid: Id, c: ChunkUpload, t: Transfer, now: int)
    requires Inv(sha, s, now) && Found(s, tid, now)
    requires Judge(sha, s.transfers[tid], c, StoredBytes(s, s.transfers[tid].mailboxID)).Accept?
    requires t == WithChunk(sha, s.transfers[tid], c, now)
    ensures Inv(sha, SlideOwner(SetTransfer(s, tid, t), t, now), now)
  {
    AcceptKeeps(sha, s, tid, c, now);
    SlideOwnerKeeps(sha, SetTransfer(s, tid, t), t, now);
  }

  lemma PutKeeps(sha: Hash, s: State, c: ChunkUpload, now: int)
    requires Inv(sha, s, now)
    ensures Inv(sha, PutStep(sha, s, c, now).next, now)
  {
    var s' := PutStep(sha, s, c, now).next;
    if CheckChunk(c).Some? {
      assert s' == s;
    } else if !Found(s, c.transferID, now) {
      assert s' == Mark(s, c.transferID, now);
      MarkKeeps(sha, s, c.transferID, now);
    } else {
      var t := s.transfers[c.transferID];
      if Judge(sha, t, c, StoredBytes(s, t.mailboxID)).Accept? {
        var t' := WithChunk(sha, t, c, now);
        assert s' == SlideOwner(SetTransfer(s, c.transferID, t'), t', now);
        AcceptSlideKeeps(sha, s, c.transferID, c, t', now);
      } else {
        assert s' == s;
      }
    }
  }

  lemma CompleteKeeps(sha: Hash, s: State, c: TransferComplete, now: int)
    requires Inv(sha, s, now)
    ensures Inv(sha, CompleteStep(s, c, now).next, now)
  {
    var o := CompleteStep(s, c, now);
    if CheckComplete(c).None? {
      MarkKeeps(sha, s, c.transferID, now);
      if Found(s, c.transferID, now) && o.next != s {
        var t := s.transfers[c.transferID];
        assert TransferOk(sha, t, now);
        InvReplaceTransfer(sha, s, c.transferID, t.(phase := Complete, expiresAt := now + COMPLETE_TTL), now);
      }
    }
  }

  lemma CancelKeeps(sha: Hash, s: State, tid: Id, mid: Id, secret: Bytes, now: int)
    requires Inv(sha, s, now)
    ensures Inv(sha, CancelStep(sha, s, tid, mid, secret, now).next, now)
  {
    if tid in s.transfers {
      var s' := SlideOwner(s, s.transfers[tid], now);
      SlideOwnerKeeps(sha, s, s.transfers[tid], now);
      InvFewerTransfers(sha, s', s'.transfers - {tid}, now);
    }
  }

  lemma GetKeeps(sha: Hash, s: State, tid: Id, mid: Id, secret: Bytes, index: nat, now: int)
    requires Inv(sha, s, now)
    ensures Inv(sha, GetStep(sha, s, tid, mid, secret, index, now).next, now)
  {
    MarkKeeps(sha, s, tid, now);
    if tid in s.transfers {
      SlideOwnerKeeps(sha, s, s.transfers[tid], now);
    }
  }

  lemma ResumeKeeps(sha: Hash, s: State, tid: Id, mid: Id, secret: Bytes, now: int)
    requires Inv(sha, s, now)
    ensures Inv(sha, ResumeStep(sha, s, tid, mid, secret, now).next, now)
  {
    MarkKeeps(sha, s, tid, now);
    if tid in s.transfers {
      SlideOwnerKeeps(sha, s, s.transfers[tid], now);
    }
  }

  lemma LookupKeeps(sha: Hash, s: State, tid: Id, ticket: Bytes, index: nat, now: int)
    requires Inv(sha, s, now)
    ensures Inv(sha, ProgressStep(s, tid, now).next, now)
    ensures Inv(sha, GetByTicketStep(sha, s, tid, ticket, index, now).next, now)
    ensures Inv(sha, ResumeByTicketStep(sha, s, tid, ticket, now).next, now)
    ensures Inv(sha, GetTransferStep(s, tid, now).next, now)
  {
    MarkKeeps(sha, s, tid, now);
  }

  lemma ReplayKeeps(sha: Hash, s: State, key: Digest, now: int)
    requires Inv(sha, s, now)
    ensures Inv(sha, ReplayStep(s, key, now).next, now)
  {
    var s' := ReplayStep(s, key, now).next;
    assert s'.mailboxes == s.mailboxes && s'.transfers == s.transfers;
  }

  // ---- sweep ----

  /** A mailbox whose time is up holds no live message and owns no live transfer. */
  lemma ExpiredMailboxIsIdle(sha: Hash, s: State, mid: Id, now: int)
    requires Inv(sha, s, now) && mid in s.mailboxes && now >= s.mailboxes[mid].expiresAt
    ensures Prune(s.mailboxes[mid], now).messages == []
    ensures !HasLiveTransfer(s.transfers, mid, now)
    ensures Reclaimed(s.mailboxes[mid], s.transfers, mid, now)
  {
    var mb := s.mailboxes[mid];
    assert MailboxOk(mb, now);
    FilterNone(mb.messages, Unexpired(now));
    forall tid <- s.transfers
      ensures !(BoundTo(s.transfers[tid], mid) && now < s.transfers[tid].expiresAt)
    {
      assert TransferOk(sha, s.transfers[tid], now) && OwnerOk(s.mailboxes, s.transfers[tid]);
    }
  }

  lemma SweptMailboxOk(sha: Hash, s: State, mid: Id, now: int)
    requires Inv(sha, s, now) && mid in SweepStep(s, now).next.mailboxes
    ensures MailboxOk(SweepStep(s, now).next.mailboxes[mid], now)
  {
    FilterMembers(s.mailboxes[mid].messages, Unexpired(now));
    FewerMessagesOk(s.mailboxes[mid], Prune(s.mailboxes[mid], now).messages, now);
  }

  lemma SweptOwnerOk(sha: Hash, s: State, tid: Id, now: int)
    requires Inv(sha, s, now) && tid in SweepStep(s, now).next.transfers
    ensures OwnerOk(SweepStep(s, now).next.mailboxes, SweepStep(s, now).next.transfers[tid])
  {
    var t := s.transfers[tid];
    assert OwnerOk(s.mailboxes, t) && TransferOk(sha, t, now);
  }

  lemma SweepKeeps(sha: Hash, s: State, now: int)
    requires Inv(sha, s, now)
    ensures Inv(sha, SweepStep(s, now).next, now)
  {
    var s' := SweepStep(s, now).next;
    InvFewerTransfers(sha, s, s'.transfers, now);
    forall mid <- s'.mailboxes
      ensures MailboxOk(s'.mailboxes[mid], now)
    {
      SweptMailboxOk(sha, s, mid, now);
    }
    forall tid <- s'.transfers
      ensures OwnerOk(s'.mailboxes, s'.transfers[tid])
    {
      SweptOwnerOk(sha, s, tid, now);
    }
  }

  // ---- every operation ----

  lemma MessageStepKeeps(sha: Hash, s: State, call: Call, now: int)
    requires Inv(sha, s, now) && MessagePlane(call)
    ensures Inv(sha, Step(sha, s, call, now).next, now)
  {
    match call
    case DoCreateMailbox(mid, h) => CreateMailboxKeeps(sha, s, mid, h, now);
    case DoMailboxExists(mid) =>
    case DoCheckReadSecret(mid, secret) =>
    case DoSend(m, id) => SendKeeps(sha, s, m, id, now);
    case DoReceive(mid, secret, limit, peek) => ReceiveKeeps(sha, s, mid, secret, limit, peek, now);
    case DoAck(mid, secret, ids, d) => AckKeeps(sha, s, mid, secret, ids, d, now);
    case DoReplay(key) => ReplayKeeps(sha, s, key, now);
    case DoSweep => SweepKeeps(sha, s, now);
  }

  lemma TransferStepKeeps(sha: Hash, s: State, call: Call, now: int)
    requires Inv(sha, s, now) && !MessagePlane(call)
    ensures Inv(sha, Step(sha, s, call, now).next, now)
  {
    match call
    case DoCreateTransfer(t, id, ticket) => CreateTransferKeeps(sha, s, t, id, ticket, now);
    case DoPut(c) => PutKeeps(sha, s, c, now);
    case DoGet(tid, mid, secret, index) => GetKeeps(sha, s, tid, mid, secret, index, now);
    case DoResume(tid, mid, secret) => ResumeKeeps(sha, s, tid, mid, secret, now);
    case DoProgress(tid) => LookupKeeps(sha, s, tid, [], 0, now);
    case DoGetByTicket(tid, ticket, index) => LookupKeeps(sha, s, tid, ticket, index, now);
    case DoResumeByTicket(tid, ticket) => LookupKeeps(sha, s, tid, ticket, 0, now);
    case DoComplete(c) => CompleteKeeps(sha, s, c, now);
    case DoCancel(tid, mid, secret) => CancelKeeps(sha, s, tid, mid, secret, now);
    case DoGetTransfer(tid) => LookupKeeps(sha, s, tid, [], 0, now);
  }

  lemma StepKeepsNow(sha: Hash, s: State, call: Call, now: int)
    requires Inv(sha, s, now)
    ensures Inv(sha, Step(sha, s, call, now).next, now)
  {
    if MessagePlane(call) {
      MessageStepKeeps(sha, s, call, now);
    } else {
      TransferStepKeeps(sha, s, call, now);
    }
  }

  /** The invariant survives every operation whose clock read does not go back. */
  lemma StepKeeps(sha: Hash, s: State, call: Call, clock: int, now: int)
    requires Inv(sha, s, clock) && clock <= now
    ensures Inv(sha, Step(sha, s, call, now).next, now)
  {
    InvLater(sha, s, clock, now);
    StepKeepsNow(sha, s, call, now);
  }
}
