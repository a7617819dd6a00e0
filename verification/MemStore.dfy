/** The in-memory store itself: maps reassigned under the lock, queues compacted in place, totals
    gathered by loops. Every public method is proved equal to its operation of module Shard. */
module MemStore {
  import opened Octets
  import opened Limits
  import opened Collections
  import opened Geometry
  import opened Resume
  import opened Shard
  import opened Invariant
  import opened Census

  // ---- loops over a message queue ----

  lemma SumBytesSnoc(ms: seq<Message>, m: Message)
    ensures SumBytes(ms + [m]) == SumBytes(ms) + |m.envelope|
  {
    assert (ms + [m])[..|ms|] == ms;
  }

  method QueueBytes(ms: seq<Message>) returns (bytes: int)
    ensures bytes == SumBytes(ms)
  {
    bytes := 0;
    for i := 0 to |ms|
      invariant bytes == SumBytes(ms[..i])
    {
      SumBytesSnoc(ms[..i], ms[i]);
      assert ms[..i + 1] == ms[..i] + [ms[i]];
      bytes := bytes + |ms[i].envelope|;
    }
    assert ms[..|ms|] == ms;
  }

  /** What a slot of the backing array holds once it has been cleared. */
  const BLANK := Message(seq(16, _ => 0), [], [], 0, 0)

  /** Midway through a compaction: the front holds the survivors, the part not yet scanned is untouched. */
  ghost predicate Compacting(buf: array<Message>, all: seq<Message>, front: seq<Message>, kept: nat, i: nat)
    reads buf
  {
    && kept == |front| <= i <= buf.Length == |all|
    && (forall j :: 0 <= j < kept ==> buf[j] == front[j])
    && (forall j :: i <= j < buf.Length ==> buf[j] == all[j])
  }

  lemma FilterStep(all: seq<Message>, i: nat, p: Message -> bool)
    requires i < |all|
    ensures Filter(all[..i + 1], p) == if p(all[i]) then Filter(all[..i], p) + [all[i]] else Filter(all[..i], p)
  {
    FilterSnoc(all[..i], all[i], p);
    assert all[..i + 1] == all[..i] + [all[i]];
  }

  method BlankTail(buf: array<Message>, kept: nat)
    requires kept <= buf.Length
    modifies buf
    ensures forall j :: 0 <= j < kept ==> buf[j] == old(buf[j])
    ensures forall j :: kept <= j < buf.Length ==> buf[j] == BLANK
  {
    for i := kept to buf.Length
      invariant forall j :: 0 <= j < kept ==> buf[j] == old(buf[j])
      invariant forall j :: kept <= j < i ==> buf[j] == BLANK
    {
      buf[i] := BLANK;
    }
  }

  /** Compacts the backing array of a queue in place: the survivors move to the front in their order,
      the rest of the array is blanked. */
  method CompactUnexpired(buf: array<Message>, now: int) returns (kept: nat, bytes: int)
    modifies buf
    ensures kept <= buf.Length
    ensures buf[..kept] == Filter(old(buf[..]), Unexpired(now))
    ensures bytes == SumBytes(buf[..kept])
    ensures forall i :: kept <= i < buf.Length ==> buf[i] == BLANK
  {
    kept, bytes := 0, 0;
    ghost var all := buf[..];
    for i := 0 to buf.Length
      invariant Compacting(buf, all, Filter(all[..i], Unexpired(now)), kept, i)
      invariant bytes == SumBytes(Filter(all[..i], Unexpired(now)))
    {
      var m := buf[i];
      FilterStep(all, i, Unexpired(now));
      if now < m.expiresAt {
        SumBytesSnoc(Filter(all[..i], Unexpired(now)), m);
        buf[kept] := m;
        kept := kept + 1;
        bytes := bytes + |m.envelope|;
      }
    }
    assert all[..buf.Length] == all;
    BlankTail(buf, kept);
    assert buf[..kept] == Filter(all, Unexpired(now));
  }

  /** The same for acknowledged messages, counting those dropped. */
  method CompactUnwanted(buf: array<Message>, want: set<Bytes>) returns (kept: nat, acked: nat)
    modifies buf
    ensures kept + acked == buf.Length
    ensures buf[..kept] == Filter(old(buf[..]), NotAmong(want))
    ensures forall i :: kept <= i < buf.Length ==> buf[i] == BLANK
  {
    kept, acked := 0, 0;
    ghost var all := buf[..];
    for i := 0 to buf.Length
      invariant kept + acked == i
      invariant Compacting(buf, all, Filter(all[..i], NotAmong(want)), kept, i)
    {
      var m := buf[i];
      FilterStep(all, i, NotAmong(want));
      if m.id in want {
        acked := acked + 1;
      } else {
        buf[kept] := m;
        kept := kept + 1;
      }
    }
    assert all[..buf.Length] == all;
    BlankTail(buf, kept);
    assert buf[..kept] == Filter(all, NotAmong(want));
  }

  /** The `received` disposition only counts. */
  method CountWanted(ms: seq<Message>, want: set<Bytes>) returns (acked: nat)
    ensures acked == |ms| - |Filter(ms, NotAmong(want))|
  {
    acked := 0;
    for i := 0 to |ms|
      invariant acked == i - |Filter(ms[..i], NotAmong(want))|
    {
      FilterStep(ms, i, NotAmong(want));
      if ms[i].id in want {
        acked := acked + 1;
      }
    }
    assert ms[..|ms|] == ms;
  }

  /** The set of acknowledged ids, refused at the first that is not 16 bytes long. */
  method WantedIds(ids: seq<Bytes>) returns (want: Option<set<Bytes>>)
    ensures want == if WellFormedIds(ids) then Some(IdSet(ids)) else None
  {
    var found: set<Bytes> := {};
    for i := 0 to |ids|
      invariant forall raw <- ids[..i] :: |raw| == 16
      invariant found == set raw <- ids[..i]
    {
      if |ids[i]| != 16 {
        assert ids[i] in ids;
        return None;
      }
      found := found + {ids[i]};
    }
    assert ids[..|ids|] == ids;
    return Some(found);
  }

  /** Recomputes the contiguous prefix of a transfer. */
  method HighestContiguous(present: seq<bool>) returns (h: nat)
    ensures h == PrefixFrom(present, 0)
  {
    h := 0;
    while h < |present| && present[h]
      invariant 0 <= h <= |present|
      invariant forall j :: 0 <= j < h ==> present[j]
    {
      h := h + 1;
    }
    PrefixUnique(present, h, PrefixFrom(present, 0));
  }

  method BackingArray(ms: seq<Message>) returns (buf: array<Message>)
    ensures fresh(buf) && buf[..] == ms
  {
    buf := new Message[|ms|](i requires 0 <= i < |ms| => ms[i]);
  }

  /** A drain or peek: copies out the first `limit` messages and keeps the rest, or all of them. */
  method TakeBatch(ms: seq<Message>, limit: nat, peek: bool) returns (out: seq<Message>, kept: seq<Message>)
    ensures out == ms[..Min(limit, |ms|)]
    ensures kept == if peek then ms else ms[Min(limit, |ms|)..]
  {
    out, kept := [], [];
    for i := 0 to |ms|
      invariant out == ms[..Min(limit, i)]
      invariant kept == if peek then ms[..i] else ms[Min(limit, i)..i]
    {
      var m := ms[i];
      if |out| < limit {
        out := out + [m];
        if peek {
          kept := kept + [m];
        }
      } else {
        kept := kept + [m];
      }
    }
  }

  // ---- one step of a sweep ----

  lemma SweepMailboxStep(mbs: map<Id, Mailbox>, ts: map<Id, Transfer>, todo: set<Id>, mid: Id, now: int)
    requires mid in mbs && mid in todo
    ensures mid in SweptMailboxes(mbs, ts, todo, now) && SweptMailboxes(mbs, ts, todo, now)[mid] == mbs[mid]
    ensures SweptMailboxes(mbs, ts, todo - {mid}, now) ==
            if Reclaimed(mbs[mid], ts, mid, now) then SweptMailboxes(mbs, ts, todo, now) - {mid}
            else SweptMailboxes(mbs, ts, todo, now)[mid := Prune(mbs[mid], now)]
  {
  }

  lemma SweepAssembled(s: State, mbs: map<Id, Mailbox>, ts: map<Id, Transfer>, replay: map<Digest, int>, now: int)
    requires mbs == SweptMailboxes(s.mailboxes, s.transfers, {}, now)
    requires ts == SweptTransfers(s.transfers, {}, now)
    requires replay == LiveKeys(s.replay, now)
    ensures SweepStep(s, now).next == State(mbs, ts, replay)
    ensures SweepStep(s, now).reply ==
            Swept(Total(s.mailboxes, LapsedCount(now)), |s.transfers| - |ts|, |s.mailboxes| - |mbs|)
  {
  }

  lemma SweepTransferStep(ts: map<Id, Transfer>, todo: set<Id>, tid: Id, now: int)
    requires tid in ts && tid in todo
    ensures tid in SweptTransfers(ts, todo, now) && SweptTransfers(ts, todo, now)[tid] == ts[tid]
    ensures SweptTransfers(ts, todo - {tid}, now) ==
            if now < ts[tid].expiresAt then SweptTransfers(ts, todo, now) else SweptTransfers(ts, todo, now) - {tid}
  {
  }

  class MemStore {
    const sha: Hash
    var mailboxes: map<Id, Mailbox>
    var transfers: map<Id, Transfer>
    var replay: map<Digest, int>
    /** The last clock read. */
    ghost var clock: int

    ghost function Contents(): State
      reads this
    {
      State(mailboxes, transfers, replay)
    }

    ghost predicate Valid()
      reads this
    {
      Inv(sha, Contents(), clock)
    }

    constructor (sha: Hash, ghost now: int)
      ensures Valid() && Contents() == EMPTY && this.sha == sha && clock == now
    {
      this.sha := sha;
      mailboxes, transfers, replay := map[], map[], map[];
      clock := now;
      new;
      InvEmpty(sha, now);
    }

    // ---- scans over the transfers ----

    method ActiveCount(mid: Id, now: int) returns (n: int)
      ensures n == ActiveTransfers(Contents(), mid, now)
      ensures n == |OpenIn(transfers, mid, now)|
    {
      OpenCounted(transfers, mid, now);
      n := 0;
      var rest := transfers;
      while rest != map[]
        invariant n + Total(rest, ActiveOf(mid, now)) == ActiveTransfers(Contents(), mid, now)
        decreases |rest|
      {
        var k :| k in rest;
        var t := rest[k];
        TotalRemove(rest, k, ActiveOf(mid, now));
        if t.hasMailbox && t.mailboxID == mid && (t.phase == Created || t.phase == Uploading) && now < t.expiresAt {
          n := n + 1;
        }
        MapRemove(rest, k);
        rest := rest - {k};
      }
    }

    method MailboxStoredBytes(mid: Id) returns (total: int)
      ensures total == StoredBytes(Contents(), mid)
    {
      total := 0;
      if mid in mailboxes {
        total := mailboxes[mid].storedBytes;
      }
      var rest := transfers;
      while rest != map[]
        invariant total + Total(rest, ChargeOf(mid)) == StoredBytes(Contents(), mid)
        decreases |rest|
      {
        var k :| k in rest;
        var t := rest[k];
        TotalRemove(rest, k, ChargeOf(mid));
        if t.hasMailbox && t.mailboxID == mid {
          total := total + t.storedBytes + |t.manifest|;
        }
        MapRemove(rest, k);
        rest := rest - {k};
      }
    }

    method AnyLiveTransfer(mid: Id, now: int) returns (found: bool)
      ensures found <==> HasLiveTransfer(transfers, mid, now)
    {
      found := false;
      var rest := transfers;
      while rest != map[]
        invariant forall k <- rest :: k in transfers && rest[k] == transfers[k]
        invariant forall k <- transfers :: k in rest || !(BoundTo(transfers[k], mid) && now < transfers[k].expiresAt)
        decreases |rest|
      {
        var k :| k in rest;
        var t := rest[k];
        if t.hasMailbox && t.mailboxID == mid && now < t.expiresAt {
          return true;
        }
        MapRemove(rest, k);
        rest := rest - {k};
      }
    }

    // ---- mailboxes ----

    method CreateMailbox(mid: Id, secretHash: Digest, now: int) returns (r: Reply)
      modifies `mailboxes
      ensures MailOutcome(mailboxes, r) == Register(old(mailboxes), mid, secretHash, now)
    {
      if mid in mailboxes {
        var mb := mailboxes[mid];
        mailboxes := mailboxes[mid := mb.(secretHash := secretHash, expiresAt := now + MAILBOX_TTL)];
        return Registered(false);
      }
      mailboxes := mailboxes[mid := Mailbox(secretHash, [], now + MAILBOX_TTL, 0)];
      return Registered(true);
    }

    method MailboxExists(mid: Id, now: int) returns (r: Reply)
      ensures r == Answer(LiveMailbox(mailboxes, mid, now))
    {
      if mid !in mailboxes {
        return Answer(false);
      }
      if now >= mailboxes[mid].expiresAt {
        return Answer(false);
      }
      return Answer(true);
    }

    method CheckReadSecret(mid: Id, secret: Bytes) returns (r: Reply)
      ensures r == Answer(SecretOpens(sha, mailboxes, mid, secret))
    {
      if mid !in mailboxes {
        return Answer(false);
      }
      if |secret| != 32 {
        return Answer(false);
      }
      return Answer(sha(secret) == mailboxes[mid].secretHash);
    }

    /** Drops the expired messages of a mailbox, in place. */
    method PruneMessages(mid: Id, now: int)
      requires mid in mailboxes
      modifies `mailboxes
      ensures mailboxes == old(mailboxes)[mid := Prune(old(mailboxes)[mid], now)]
    {
      var mb := mailboxes[mid];
      var buf := BackingArray(mb.messages);
      var kept, bytes := CompactUnexpired(buf, now);
      mailboxes := mailboxes[mid := mb.(messages := buf[..kept], storedBytes := bytes)];
    }

    // ---- messages ----

    method SendMessage(m: SendMessage, id: Id, now: int) returns (r: Reply)
      modifies `mailboxes
      ensures MailOutcome(mailboxes, r) == Send(old(mailboxes), m, id, now)
    {
      if CheckSend(m).Some? {
        return Err(CheckSend(m).value);
      }
      var mid: Id := m.mailboxID;
      if mid !in mailboxes || now >= mailboxes[mid].expiresAt {
        return Err(MailboxNotFound);
      }
      PruneMessages(mid, now);
      var mb := mailboxes[mid];
      if |mb.messages| >= MAX_QUEUED {
        return Err(QuotaExceeded);
      }
      if mb.storedBytes + |m.envelope| > MAX_STORED_BYTES {
        return Err(QuotaExceeded);
      }
      AppendMessage(mid, Message(id, m.envelope, m.senderPub, now, now + MSG_TTL), now);
      return Sent(id, |mailboxes[mid].messages|);
    }

    method AppendMessage(mid: Id, m: Message, now: int)
      requires mid in mailboxes && mailboxes[mid].storedBytes == SumBytes(mailboxes[mid].messages)
      modifies `mailboxes
      ensures mailboxes == old(mailboxes)[mid := Slide(Enqueue(old(mailboxes)[mid], m), now)]
    {
      var mb := mailboxes[mid];
      SumBytesSnoc(mb.messages, m);
      mb := mb.(messages := mb.messages + [m], storedBytes := mb.storedBytes + |m.envelope|);
      mailboxes := mailboxes[mid := mb.(expiresAt := now + MAILBOX_TTL)];
    }

    method ReceiveMessages(mid: Id, secret: Bytes, limit: int, peek: bool, now: int) returns (r: Reply)
      modifies `mailboxes
      ensures MailOutcome(mailboxes, r) == Receive(sha, old(mailboxes), mid, secret, limit, peek, now)
    {
      if mid !in mailboxes || now >= mailboxes[mid].expiresAt {
        return Err(MailboxNotFound);
      }
      if !SecretMatches(sha, mailboxes[mid].secretHash, secret) {
        return Err(AuthFailed);
      }
      var n := if limit <= 0 || limit > MAX_BATCH then MAX_BATCH else limit;
      PruneMessages(mid, now);
      var mb := mailboxes[mid];
      var out, kept := TakeBatch(mb.messages, n, peek);
      if !peek {
        SetQueue(mid, kept);
        MapOverwrite(old(mailboxes), mid, mb, mailboxes[mid]);
        mb := mailboxes[mid];
      }
      SlideMailbox(mid, now);
      MapOverwrite(old(mailboxes), mid, mb, mailboxes[mid]);
      return Batch(out, !peek);
    }

    /** Replaces a queue and recomputes its byte count. */
    method SetQueue(mid: Id, kept: seq<Message>)
      requires mid in mailboxes
      modifies `mailboxes
      ensures mailboxes == old(mailboxes)[mid := WithQueue(old(mailboxes)[mid], kept)]
    {
      var bytes := QueueBytes(kept);
      mailboxes := mailboxes[mid := mailboxes[mid].(messages := kept, storedBytes := bytes)];
    }

    method AckMessages(mid: Id, secret: Bytes, ids: seq<Bytes>, d: Disposition, now: int) returns (r: Reply)
      modifies `mailboxes
      ensures MailOutcome(mailboxes, r) == Ack(sha, old(mailboxes), mid, secret, ids, d, now)
    {
      if d.Unknown? {
        return Err(InvalidRequest);
      }
      if |ids| == 0 || |ids| > MAX_BATCH {
        return Err(InvalidRequest);
      }
      if mid !in mailboxes || now >= mailboxes[mid].expiresAt {
        return Err(MailboxNotFound);
      }
      if !SecretMatches(sha, mailboxes[mid].secretHash, secret) {
        return Err(AuthFailed);
      }
      PruneMessages(mid, now);
      var want := WantedIds(ids);
      if want.None? {
        return Err(InvalidRequest);
      }
      ghost var mb := mailboxes[mid];
      var acked := ApplyAck(mid, want.value, d == Consumed, now);
      MapOverwrite(old(mailboxes), mid, mb, mailboxes[mid]);
      return Acked(acked, |mailboxes[mid].messages|);
    }

    method ApplyAck(mid: Id, want: set<Bytes>, consume: bool, now: int) returns (acked: nat)
      requires mid in mailboxes && mailboxes[mid].storedBytes == SumBytes(mailboxes[mid].messages)
      modifies `mailboxes
      ensures var mb := old(mailboxes)[mid];
              var left := Filter(mb.messages, NotAmong(want));
              && acked == |mb.messages| - |left|
              && mailboxes == old(mailboxes)[mid := Slide(WithQueue(mb, if consume then left else mb.messages), now)]
    {
      if consume {
        var buf := BackingArray(mailboxes[mid].messages);
        var kept;
        kept, acked := CompactUnwanted(buf, want);
        SetQueue(mid, buf[..kept]);
      } else {
        acked := CountWanted(mailboxes[mid].messages, want);
      }
      ghost var mb := mailboxes[mid];
      SlideMailbox(mid, now);
      MapOverwrite(old(mailboxes), mid, mb, mailboxes[mid]);
    }

    // ---- transfers ----

    method SlideMailbox(mid: Id, now: int)
      requires mid in mailboxes
      modifies `mailboxes
      ensures mailboxes == old(mailboxes)[mid := Slide(old(mailboxes)[mid], now)]
    {
      var mb := mailboxes[mid];
      mailboxes := mailboxes[mid := mb.(expiresAt := now + MAILBOX_TTL)];
    }

    method CreateTransfer(t: TransferCreate, id: Id, ticket: Option<Digest>, now: int) returns (r: Reply)
      modifies `mailboxes, `transfers
      ensures Outcome(Contents(), r) == CreateTransferStep(sha, old(Contents()), t, id, ticket, now)
    {
      if CheckCreate(t).Some? {
        return Err(CheckCreate(t).value);
      }
      var hasMailbox := |t.mailboxID| == 16;
      if hasMailbox {
        if t.mailboxID !in mailboxes || now >= mailboxes[t.mailboxID].expiresAt {
          return Err(MailboxNotFound);
        }
        var active := ActiveCount(t.mailboxID, now);
        if active >= MAX_ACTIVE_TRANSFERS {
          return Err(QuotaExceeded);
        }
        var stored := MailboxStoredBytes(t.mailboxID);
        if stored + t.totalSize > MAX_STORED_BYTES {
          return Err(QuotaExceeded);
        }
      }
      if ticket.None? {
        return Err(StorageUnavailable);
      }
      transfers := transfers[id := NewTransfer(sha, t, ticket.value, now)];
      if hasMailbox {
        SlideMailbox(t.mailboxID, now);
      }
      return Opened(id, ticket.value, now + UPLOAD_TTL);
    }

    /** Looks a transfer up; a dead one is marked and not returned. */
    method GetTransferLocked(tid: Bytes, now: int) returns (ok: bool)
      requires |tid| == 16
      modifies `transfers
      ensures ok <==> Found(old(Contents()), tid, now)
      ensures Contents() == Mark(old(Contents()), tid, now)
    {
      if tid !in transfers {
        return false;
      }
      var t := transfers[tid];
      if now >= t.expiresAt && t.phase != Complete {
        transfers := transfers[tid := t.(phase := Expired)];
        return false;
      }
      return true;
    }

    method AbsenceError(tid: Bytes) returns (r: Reply)
      ensures r == Err(if tid in transfers then TransferExpired else TransferNotFound)
    {
      if tid in transfers {
        return Err(TransferExpired);
      }
      return Err(TransferNotFound);
    }

    method PutChunk(c: ChunkUpload, now: int) returns (r: Reply)
      modifies `mailboxes, `transfers
      ensures Outcome(Contents(), r) == PutStep(sha, old(Contents()), c, now)
    {
      if CheckChunk(c).Some? {
        return Err(CheckChunk(c).value);
      }
      var tid: Id := c.transferID;
      var ok := GetTransferLocked(tid, now);
      if !ok {
        r := AbsenceError(tid);
        return;
      }
      var t := transfers[tid];
      var refusal := ChunkRefusal(sha, t, c);
      if refusal.Some? {
        return Err(refusal.value);
      }
      if c.index in t.chunks {
        var held := t.chunks[c.index];
        if |held| == |c.payload| && sha(held) == sha(c.payload) {
          return Stored(t.presentCount);
        }
        return Err(ChunkConflict);
      }
      if t.hasMailbox {
        var stored := MailboxStoredBytes(t.mailboxID);
        if stored + |c.payload| > MAX_STORED_BYTES {
          return Err(QuotaExceeded);
        }
      }
      var t' := StoreChunk(t, c, now);
      transfers := transfers[tid := t'];
      if t'.hasMailbox && t'.mailboxID in mailboxes {
        SlideMailbox(t'.mailboxID, now);
      }
      return Stored(t'.presentCount);
    }

    /** The record's own updates: chunk, hash, flag, counters, phase, deadline, contiguous prefix. */
    method StoreChunk(t: Transfer, c: ChunkUpload, now: int) returns (t': Transfer)
      requires c.index < t.chunkCount
      ensures t' == WithChunk(sha, t, c, now)
    {
      var hash: Digest := if |c.chunkHash| == 32 then c.chunkHash else sha(c.payload);
      var present, count, bytes := t.present, t.presentCount, t.storedBytes;
      if !present[c.index] {
        present, count, bytes := present[c.index := true], count + 1, bytes + |c.payload|;
      }
      assert present == t.present[c.index := true];
      var phase := if t.phase == Created then Uploading else t.phase;
      var deadline := now + UPLOAD_TTL;
      if deadline > t.createdAt + UPLOAD_TTL_MAX {
        deadline := t.createdAt + UPLOAD_TTL_MAX;
      }
      var h := HighestContiguous(present);
      t' := t.(chunks := t.chunks[c.index := c.payload], hashes := t.hashes[c.index := hash],
               present := present, presentCount := count, storedBytes := bytes,
               phase := phase, expiresAt := deadline, highest := h);
    }

    /** The mailbox gate of the owner's operations. */
    method OwnerGate(t: Transfer, mid: Id, secret: Bytes, now: int) returns (e: Option<ErrorCode>)
      modifies `mailboxes
      ensures e == OwnerRefusal(sha, old(mailboxes), t, mid, secret, now)
      ensures Contents() == if e.None? then SlideOwner(old(Contents()), t, now) else old(Contents())
    {
      if t.hasMailbox {
        if t.mailboxID != mid {
          return Some(AuthFailed);
        }
        if mid !in mailboxes || now >= mailboxes[mid].expiresAt {
          return Some(MailboxNotFound);
        }
        if !SecretMatches(sha, mailboxes[mid].secretHash, secret) {
          return Some(AuthFailed);
        }
        SlideMailbox(mid, now);
      }
      return None;
    }

    method GetChunk(tid: Id, mid: Id, secret: Bytes, index: nat, now: int) returns (r: Reply)
      modifies `mailboxes, `transfers
      ensures Outcome(Contents(), r) == GetStep(sha, old(Contents()), tid, mid, secret, index, now)
    {
      var ok := GetTransferLocked(tid, now);
      if !ok {
        r := AbsenceError(tid);
        return;
      }
      var t := transfers[tid];
      var e := OwnerGate(t, mid, secret, now);
      if e.Some? {
        return Err(e.value);
      }
      return ChunkReply(t, index);
    }

    method BuildResumeView(t: Transfer) returns (rv: ResumeView)
      ensures rv == ResumeViewOf(t)
    {
      if t.chunkCount <= 256 {
        var bm := BuildBitmap(t.present);
        return ResumeView(t.chunkCount, t.highest, AsBitmap, bm, []);
      }
      var ranges := MissingRanges(t.present);
      return ResumeView(t.chunkCount, t.highest, AsRanges, [], ranges);
    }

    method Resume(tid: Id, mid: Id, secret: Bytes, now: int) returns (r: Reply)
      modifies `mailboxes, `transfers
      ensures Outcome(Contents(), r) == ResumeStep(sha, old(Contents()), tid, mid, secret, now)
    {
      var ok := GetTransferLocked(tid, now);
      if !ok {
        r := AbsenceError(tid);
        return;
      }
      var t := transfers[tid];
      var e := OwnerGate(t, mid, secret, now);
      if e.Some? {
        return Err(e.value);
      }
      var rv := BuildResumeView(t);
      return View(rv, ViewOf(t, tid));
    }

    method Progress(tid: Id, now: int) returns (r: Reply)
      modifies `transfers
      ensures Outcome(Contents(), r) == ProgressStep(old(Contents()), tid, now)
    {
      var ok := GetTransferLocked(tid, now);
      if !ok {
        r := AbsenceError(tid);
        return;
      }
      var rv := BuildResumeView(transfers[tid]);
      return View(rv, ViewOf(transfers[tid], tid));
    }

    method GetChunkByTicket(tid: Id, ticket: Bytes, index: nat, now: int) returns (r: Reply)
      modifies `transfers
      ensures Outcome(Contents(), r) == GetByTicketStep(sha, old(Contents()), tid, ticket, index, now)
    {
      var ok := GetTransferLocked(tid, now);
      if !ok {
        r := AbsenceError(tid);
        return;
      }
      if !SecretMatches(sha, transfers[tid].ticketHash, ticket) {
        return Err(AuthFailed);
      }
      return ChunkReply(transfers[tid], index);
    }

    method ResumeByTicket(tid: Id, ticket: Bytes, now: int) returns (r: Reply)
      modifies `transfers
      ensures Outcome(Contents(), r) == ResumeByTicketStep(sha, old(Contents()), tid, ticket, now)
    {
      var ok := GetTransferLocked(tid, now);
      if !ok {
        r := AbsenceError(tid);
        return;
      }
      if !SecretMatches(sha, transfers[tid].ticketHash, ticket) {
        return Err(AuthFailed);
      }
      var rv := BuildResumeView(transfers[tid]);
      return View(rv, ViewOf(transfers[tid], tid));
    }

    method CompleteTransfer(c: TransferComplete, now: int) returns (r: Reply)
      modifies `transfers
      ensures Outcome(Contents(), r) == CompleteStep(old(Contents()), c, now)
    {
      if CheckComplete(c).Some? {
        return Err(CheckComplete(c).value);
      }
      var ok := GetTransferLocked(c.transferID, now);
      if !ok {
        r := AbsenceError(c.transferID);
        return;
      }
      var t := transfers[c.transferID];
      if t.phase == Complete {
        return Sealed(t.presentCount, t.chunkCount);
      }
      if t.phase == Cancelled {
        return Err(TransferConflict);
      }
      if t.presentCount != t.chunkCount {
        return Unsealed(t.presentCount, t.chunkCount, TransferConflict);
      }
      transfers := transfers[c.transferID := t.(phase := Complete, expiresAt := now + COMPLETE_TTL)];
      return Sealed(t.presentCount, t.chunkCount);
    }

    method CancelTransfer(tid: Id, mid: Id, secret: Bytes, now: int) returns (r: Reply)
      modifies `mailboxes, `transfers
      ensures Outcome(Contents(), r) == CancelStep(sha, old(Contents()), tid, mid, secret, now)
    {
      if tid !in transfers {
        return Err(TransferNotFound);
      }
      var e := OwnerGate(transfers[tid], mid, secret, now);
      if e.Some? {
        return Err(e.value);
      }
      transfers := transfers - {tid};
      return Done;
    }

    method GetTransfer(tid: Id, now: int) returns (r: Reply)
      modifies `transfers
      ensures Outcome(Contents(), r) == GetTransferStep(old(Contents()), tid, now)
    {
      var ok := GetTransferLocked(tid, now);
      if !ok {
        r := AbsenceError(tid);
        return;
      }
      return Snapshot(ViewOf(transfers[tid], tid));
    }

    // ---- replay cache and sweep ----

    method PruneReplay(now: int)
      modifies `replay
      ensures replay == LiveKeys(old(replay), now)
    {
      var rest := replay.Keys;
      while rest != {}
        invariant rest <= old(replay).Keys
        invariant forall k <- old(replay) :: k in replay <==> k in rest || now < old(replay)[k]
        invariant forall k <- replay :: k in old(replay) && replay[k] == old(replay)[k]
        decreases |rest|
      {
        var k :| k in rest;
        if now >= replay[k] {
          replay := replay - {k};
        }
        rest := rest - {k};
      }
    }

    method CheckAndMarkReplay(key: Digest, now: int) returns (r: Reply)
      modifies `replay
      ensures Outcome(Contents(), r) == ReplayStep(old(Contents()), key, now)
    {
      if key in replay && now < replay[key] {
        return Answer(true);
      }
      PruneReplay(now);
      replay := replay[key := now + REPLAY_WINDOW];
      return Answer(false);
    }

    /** The sweep of one mailbox. */
    method SweepMailbox(mid: Id, now: int) returns (dropped: int, reclaimed: bool)
      requires mid in mailboxes
      modifies `mailboxes
      ensures reclaimed <==> Reclaimed(old(mailboxes)[mid], transfers, mid, now)
      ensures mailboxes == if reclaimed then old(mailboxes) - {mid}
              else old(mailboxes)[mid := Prune(old(mailboxes)[mid], now)]
      ensures !reclaimed ==> |mailboxes| == |old(mailboxes)|
      ensures dropped == LapsedCount(now)(old(mailboxes)[mid])
    {
      var before := |mailboxes[mid].messages|;
      if now >= mailboxes[mid].expiresAt && before == 0 {
        mailboxes := mailboxes - {mid};
        return 0, true;
      }
      PruneMessages(mid, now);
      dropped := before - |mailboxes[mid].messages|;
      reclaimed := false;
      if now >= mailboxes[mid].expiresAt && |mailboxes[mid].messages| == 0 {
        var live := AnyLiveTransfer(mid, now);
        if !live {
          mailboxes := mailboxes - {mid};
          reclaimed := true;
        }
      }
    }

    method SweepMailboxes(now: int) returns (messages: int, reclaimed: int)
      modifies `mailboxes
      ensures mailboxes == SweptMailboxes(old(mailboxes), transfers, {}, now)
      ensures messages == Total(old(mailboxes), LapsedCount(now))
      ensures reclaimed == |old(mailboxes)| - |mailboxes|
    {
      messages, reclaimed := 0, 0;
      var rest := mailboxes;
      while rest != map[]
        invariant forall mid <- rest :: mid in old(mailboxes) && rest[mid] == old(mailboxes)[mid]
        invariant mailboxes == SweptMailboxes(old(mailboxes), transfers, rest.Keys, now)
        invariant messages + Total(rest, LapsedCount(now)) == Total(old(mailboxes), LapsedCount(now))
        invariant reclaimed == |old(mailboxes)| - |mailboxes|
        decreases |rest|
      {
        var mid :| mid in rest;
        TotalRemove(rest, mid, LapsedCount(now));
        SweepMailboxStep(old(mailboxes), transfers, rest.Keys, mid, now);
        MapRemove(mailboxes, mid);
        MapRemove(rest, mid);
        var dropped, gone := SweepMailbox(mid, now);
        messages, reclaimed := messages + dropped, reclaimed + if gone then 1 else 0;
        rest := rest - {mid};
      }
    }

    method SweepTransfers(now: int) returns (dropped: int)
      modifies `transfers
      ensures transfers == SweptTransfers(old(transfers), {}, now)
      ensures dropped == |old(transfers)| - |transfers|
    {
      dropped := 0;
      var rest := transfers.Keys;
      while rest != {}
        invariant rest <= old(transfers).Keys
        invariant transfers == SweptTransfers(old(transfers), rest, now)
        invariant dropped == |old(transfers)| - |transfers|
        decreases |rest|
      {
        var tid :| tid in rest;
        SweepTransferStep(old(transfers), rest, tid, now);
        var t := transfers[tid];
        if (now >= t.expiresAt && t.phase != Complete) || (t.phase == Complete && now >= t.expiresAt) {
          MapRemove(transfers, tid);
          transfers := transfers - {tid};
          dropped := dropped + 1;
        }
        rest := rest - {tid};
      }
    }

    method Sweep(now: int) returns (r: Reply)
      modifies `mailboxes, `transfers, `replay
      ensures Contents() == SweepStep(old(Contents()), now).next
      ensures r == SweepStep(old(Contents()), now).reply
    {
      var messages, reclaimed := SweepMailboxes(now);
      var dropped := SweepTransfers(now);
      PruneReplay(now);
      r := Swept(messages, dropped, reclaimed);
      SweepAssembled(old(Contents()), mailboxes, transfers, replay, now);
    }

    // ---- one request under the lock ----

    method DispatchMessage(call: Call, now: int) returns (r: Reply)
      requires MessagePlane(call)
      modifies `mailboxes, `transfers, `replay
      ensures Outcome(Contents(), r) == Step(sha, old(Contents()), call, now)
    {
      match call
      case DoCreateMailbox(mid, h) => r := CreateMailbox(mid, h, now);
      case DoMailboxExists(mid) => r := MailboxExists(mid, now);
      case DoCheckReadSecret(mid, secret) => r := CheckReadSecret(mid, secret);
      case DoSend(m, id) => r := SendMessage(m, id, now);
      case DoReceive(mid, secret, limit, peek) => r := ReceiveMessages(mid, secret, limit, peek, now);
      case DoAck(mid, secret, ids, d) => r := AckMessages(mid, secret, ids, d, now);
      case DoReplay(key) => r := CheckAndMarkReplay(key, now);
      case DoSweep => r := Sweep(now);
    }

    method DispatchTransfer(call: Call, now: int) returns (r: Reply)
      requires !MessagePlane(call)
      modifies `mailboxes, `transfers
      ensures Outcome(Contents(), r) == Step(sha, old(Contents()), call, now)
    {
      match call
      case DoCreateTransfer(t, id, ticket) => r := CreateTransfer(t, id, ticket, now);
      case DoPut(c) => r := PutChunk(c, now);
      case DoGet(tid, mid, secret, index) => r := GetChunk(tid, mid, secret, index, now);
      case DoResume(tid, mid, secret) => r := Resume(tid, mid, secret, now);
      case DoProgress(tid) => r := Progress(tid, now);
      case DoGetByTicket(tid, ticket, index) => r := GetChunkByTicket(tid, ticket, index, now);
      case DoResumeByTicket(tid, ticket) => r := ResumeByTicket(tid, ticket, now);
      case DoComplete(c) => r := CompleteTransfer(c, now);
      case DoCancel(tid, mid, secret) => r := CancelTransfer(tid, mid, secret, now);
      case DoGetTransfer(tid) => r := GetTransfer(tid, now);
    }

    /** Any operation, at a clock read that does not go back: the store does what the model says
        and keeps its invariant. */
    method Perform(call: Call, now: int) returns (r: Reply)
      requires Valid() && clock <= now
      modifies this
      ensures Valid() && clock == now
      ensures Outcome(Contents(), r) == Step(sha, old(Contents()), call, now)
    {
      if MessagePlane(call) {
        r := DispatchMessage(call, now);
      } else {
        r := DispatchTransfer(call, now);
      }
      StepKeeps(sha, old(Contents()), call, old(clock), now);
      clock := now;
    }
  }
}
