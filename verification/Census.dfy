/** What a mailbox has, counted from the records themselves: its open transfers one by one, and its bytes from the
    queued envelopes, the stored chunks and the manifests. The store keeps counters instead; they agree. */
module Census {
  import opened Octets
  import opened Collections
  import opened Geometry
  import opened Shard
  import opened Invariant

  /** The bytes of the envelopes in a queue. */
  function Envelopes(ms: seq<Message>): nat {
    if ms == [] then 0 else |ms[0].envelope| + Envelopes(ms[1..])
  }

  /** The bytes of the chunks a transfer holds. */
  ghost function Payloads(chunks: map<nat, Bytes>): int { Total(chunks, Length()) }

  function Length(): Bytes -> int { (b: Bytes) => |b| }

  /** The bytes of the chunks held for a mailbox. */
  ghost function ChunksIn(ts: map<Id, Transfer>, mid: Id): int {
    Total(ts, (t: Transfer) => if t.hasMailbox && t.mailboxID == mid then Payloads(t.chunks) else 0)
  }

  /** The bytes of the chunks held for a mailbox and of the manifests. */
  ghost function ChunksAndManifestsIn(ts: map<Id, Transfer>, mid: Id): int {
    Total(ts, (t: Transfer) => if t.hasMailbox && t.mailboxID == mid then Payloads(t.chunks) + |t.manifest| else 0)
  }

  /** The bytes of everything stored for a mailbox. */
  ghost function BytesIn(s: State, mid: Id): int {
    (if mid in s.mailboxes then Envelopes(s.mailboxes[mid].messages) else 0) + ChunksAndManifestsIn(s.transfers, mid)
  }

  /** The transfers of a mailbox that accept chunks, one by one. */
  function OpenIn(ts: map<Id, Transfer>, mid: Id, now: int): set<Id> {
    set tid | tid in ts && ts[tid].hasMailbox && ts[tid].mailboxID == mid
              && (ts[tid].phase == Created || ts[tid].phase == Uploading) && now < ts[tid].expiresAt
  }

  lemma OpenCounted(ts: map<Id, Transfer>, mid: Id, now: int)
    ensures Total(ts, ActiveOf(mid, now)) == |OpenIn(ts, mid, now)|
  {
    TotalCounts(ts, ActiveOf(mid, now), OpenIn(ts, mid, now));
  }

  lemma {:induction false} EnvelopesSnoc(ms: seq<Message>)
    requires ms != []
    ensures Envelopes(ms) == Envelopes(ms[..|ms| - 1]) + |ms[|ms| - 1].envelope|
  {
    if |ms| > 1 {
      EnvelopesSnoc(ms[1..]);
      assert ms[1..][..|ms| - 2] == ms[..|ms| - 1][1..];
    }
  }

  lemma {:induction false} EnvelopesSummed(ms: seq<Message>)
    ensures Envelopes(ms) == SumBytes(ms)
  {
    if ms != [] {
      EnvelopesSummed(ms[..|ms| - 1]);
      EnvelopesSnoc(ms);
    }
  }

  lemma PayloadsRemove(chunks: map<nat, Bytes>, i: nat)
    requires i in chunks
    ensures Payloads(chunks) == |chunks[i]| + Payloads(chunks - {i})
  {
    TotalRemove(chunks, i, Length());
  }

  lemma {:induction false} PayloadsHeld(chunks: map<nat, Bytes>, n: nat)
    requires forall i <- chunks :: i < n
    ensures Payloads(chunks) == HeldBytes(chunks, n)
  {
    if n == 0 {
      assert chunks == map[];
    } else if n - 1 in chunks {
      var fewer := chunks - {n - 1};
      PayloadsRemove(chunks, n - 1);
      PayloadsHeld(fewer, n - 1);
      HeldBytesInsert(fewer, n - 1, n - 1, chunks[n - 1]);
      assert chunks == fewer[n - 1 := chunks[n - 1]];
    } else {
      PayloadsHeld(chunks, n - 1);
    }
  }

  lemma StoredIsHeld(sha: Hash, t: Transfer)
    requires Consistent(sha, t)
    ensures t.storedBytes == Payloads(t.chunks)
  {
    PayloadsHeld(t.chunks, t.chunkCount);
  }

  /** The counters of all records are right. */
  ghost predicate CountersRight(ts: map<Id, Transfer>) {
    forall tid <- ts :: ts[tid].storedBytes == Payloads(ts[tid].chunks)
  }

  lemma CountersAreRight(sha: Hash, s: State, clock: int)
    requires Inv(sha, s, clock)
    ensures CountersRight(s.transfers)
  {
    forall tid <- s.transfers
      ensures s.transfers[tid].storedBytes == Payloads(s.transfers[tid].chunks)
    {
      assert TransferOk(sha, s.transfers[tid], clock);
      StoredIsHeld(sha, s.transfers[tid]);
    }
  }

  lemma ChunksCounted(ts: map<Id, Transfer>, mid: Id)
    requires CountersRight(ts)
    ensures Total(ts, ChunkBytesOf(mid)) == ChunksIn(ts, mid)
  {
    TotalSameWeight(ts, ChunkBytesOf(mid),
      (t: Transfer) => if t.hasMailbox && t.mailboxID == mid then Payloads(t.chunks) else 0);
  }

  lemma ChargesCounted(ts: map<Id, Transfer>, mid: Id)
    requires CountersRight(ts)
    ensures Total(ts, ChargeOf(mid)) == ChunksAndManifestsIn(ts, mid)
  {
    TotalSameWeight(ts, ChargeOf(mid),
      (t: Transfer) => if t.hasMailbox && t.mailboxID == mid then Payloads(t.chunks) + |t.manifest| else 0);
  }

  /** The counters of the store are the bytes of what it holds. */
  lemma BytesCounted(sha: Hash, s: State, clock: int, mid: Id)
    requires Inv(sha, s, clock)
    ensures Total(s.transfers, ChunkBytesOf(mid)) == ChunksIn(s.transfers, mid)
    ensures Total(s.transfers, ChargeOf(mid)) == ChunksAndManifestsIn(s.transfers, mid)
    ensures StoredBytes(s, mid) == BytesIn(s, mid)
  {
    CountersAreRight(sha, s, clock);
    ChunksCounted(s.transfers, mid);
    ChargesCounted(s.transfers, mid);
    if mid in s.mailboxes {
      assert MailboxOk(s.mailboxes[mid], clock);
      EnvelopesSummed(s.mailboxes[mid].messages);
    }
  }
}
