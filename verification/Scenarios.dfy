/** Concrete runs from the empty store: the documented quota fails, the bound that holds instead is reached, a transfer
    can have more missing runs than its resume view can carry to the client, one is served past its lifetime, a
    refused read changes the store, and a sweep shows. */
module Scenarios {
  import opened Octets
  import opened Limits
  import opened Collections
  import opened Geometry
  import opened Shard
  import opened Invariant
  import opened Census
  import opened Runs
  import opened Lifecycle
  import opened Quota
  import opened Upload
  import opened Resume
  import opened Convergence
  import opened Expiry
  import W = Wire

  function Name(n: Byte): Id { seq(16, _ => n) }

  function AnyDigest(): Digest { seq(32, _ => 0) }

  // ---- partial uploads ----

  predicate Chosen(indices: seq<nat>, count: nat) { forall k :: 0 <= k < |indices| ==> indices[k] < count }

  function PutPiece(tid: Id, data: Bytes, size: nat, count: nat, i: nat): Call
    requires Geometric(|data|, size, count) && i < count
  {
    PieceLength(|data|, size, count, i);
    DoPut(ChunkUpload(tid, i, Piece(data, size, i), [], i * size))
  }

  /** Puts of the chosen pieces, one after the other at the same moment. */
  function Puts(tid: Id, data: Bytes, size: nat, count: nat, indices: seq<nat>, now: int): (evs: seq<Event>)
    requires Geometric(|data|, size, count) && Chosen(indices, count)
    ensures |evs| == |indices|
  {
    if indices == [] then []
    else [Event(now, PutPiece(tid, data, size, count, indices[0]))] + Puts(tid, data, size, count, indices[1..], now)
  }

  lemma {:induction false} PutsShape(tid: Id, data: Bytes, size: nat, count: nat, indices: seq<nat>, now: int)
    requires Geometric(|data|, size, count) && Chosen(indices, count)
    ensures var evs := Puts(tid, data, size, count, indices, now);
            && Timed(now, evs) && ClockAfter(now, evs) == now
            && forall e <- evs :: exists i: nat :: i < count && e == Event(now, PutPiece(tid, data, size, count, i))
  {
    if indices != [] {
      PutsShape(tid, data, size, count, indices[1..], now);
      assert indices[0] < count;
    }
  }

  lemma {:induction false} PutsSeen(
    tid: Id, data: Bytes, size: nat, count: nat, indices: seq<nat>, now: int, seen: set<nat>)
    requires Geometric(|data|, size, count) && Chosen(indices, count)
    ensures SeenAfter(Puts(tid, data, size, count, indices, now), tid, seen) == seen + set i <- indices
    decreases |indices|
  {
    if indices != [] {
      var evs := Puts(tid, data, size, count, indices, now);
      PutsSeen(tid, data, size, count, indices[1..], now, seen + {indices[0]});
      assert evs[1..] == Puts(tid, data, size, count, indices[1..], now);
      assert indices == [indices[0]] + indices[1..];
    }
  }

  lemma {:induction false} PutsOnTime(
    tid: Id, data: Bytes, size: nat, count: nat, indices: seq<nat>, now: int,
    seen: set<nat>, deadline: int, created: int)
    requires Geometric(|data|, size, count) && Chosen(indices, count)
    requires now < deadline && now < created + UPLOAD_TTL_MAX
    ensures OnTime(Puts(tid, data, size, count, indices, now), tid, seen, deadline, created)
    decreases |indices|
  {
    if indices != [] {
      var evs := Puts(tid, data, size, count, indices, now);
      assert evs[1..] == Puts(tid, data, size, count, indices[1..], now);
      var later := NextDeadline(evs[0], tid, seen, deadline, created);
      PutsOnTime(tid, data, size, count, indices[1..], now, seen + {indices[0]}, later, created);
    }
  }

  lemma {:induction false} PutsUndisturbed(
    sha: Hash, s: State, tid: Id, data: Bytes, size: nat, count: nat, indices: seq<nat>, now: int, mid: Id)
    requires Geometric(|data|, size, count) && Chosen(indices, count)
    ensures UndisturbedRun(sha, s, Puts(tid, data, size, count, indices, now), tid, mid)
    decreases |indices|
  {
    if indices != [] {
      var evs := Puts(tid, data, size, count, indices, now);
      assert evs[1..] == Puts(tid, data, size, count, indices[1..], now);
      PutsUndisturbed(sha, Step(sha, s, evs[0].call, now).next, tid, data, size, count, indices[1..], now, mid);
    }
  }

  lemma PutsProper(sha: Hash, t: Transfer, tid: Id, data: Bytes, indices: seq<nat>, now: int)
    requires Geometric(|data|, t.chunkSize, t.chunkCount) && Chosen(indices, t.chunkCount)
    ensures ProperPuts(sha, Puts(tid, data, t.chunkSize, t.chunkCount, indices, now), tid, t, data)
  {
    PutsShape(tid, data, t.chunkSize, t.chunkCount, indices, now);
    forall e <- Puts(tid, data, t.chunkSize, t.chunkCount, indices, now)
      ensures ProperPut(sha, t, e.call.chunk, data)
    {
      var i: nat :| i < t.chunkCount && e == Event(now, PutPiece(tid, data, t.chunkSize, t.chunkCount, i));
      PieceLength(|data|, t.chunkSize, t.chunkCount, i);
    }
  }

  /** A transfer just opened with room for the file, then some of its pieces put: it holds exactly those. */
  lemma PartialUpload(sha: Hash, s: State, now: int, tid: Id, data: Bytes, indices: seq<nat>)
    requires Inv(sha, s, now) && Underway(s, tid, data) && s.transfers[tid].chunks.Keys == {}
    requires s.transfers[tid].createdAt == now < s.transfers[tid].expiresAt
    requires Chosen(indices, s.transfers[tid].chunkCount)
    ensures var t := s.transfers[tid];
            && Geometric(|data|, t.chunkSize, t.chunkCount)
            && var evs := Puts(tid, data, t.chunkSize, t.chunkCount, indices, now);
               var s' := After(sha, s, evs);
               && Timed(now, evs) && ClockAfter(now, evs) == now && Inv(sha, s', now) && Underway(s', tid, data)
               && s'.transfers[tid].chunkCount == t.chunkCount && s'.transfers[tid].chunks.Keys == set i <- indices
  {
    var t := s.transfers[tid];
    assert TransferOk(sha, t, now);
    var evs := Puts(tid, data, t.chunkSize, t.chunkCount, indices, now);
    PutsShape(tid, data, t.chunkSize, t.chunkCount, indices, now);
    PutsSeen(tid, data, t.chunkSize, t.chunkCount, indices, now, {});
    PutsOnTime(tid, data, t.chunkSize, t.chunkCount, indices, now, {}, t.expiresAt, t.createdAt);
    PutsUndisturbed(sha, s, tid, data, t.chunkSize, t.chunkCount, indices, now, t.mailboxID);
    PutsProper(sha, t, tid, data, indices, now);
    UploadCannotFail(sha, s, now, evs, tid, data);
    RunKeeps(sha, s, now, evs);
  }

  lemma RunOne(sha: Hash, s: State, e: Event)
    ensures After(sha, s, [e]) == Step(sha, s, e.call, e.now).next
    ensures Timed(e.now, [e]) && ClockAfter(e.now, [e]) == e.now
  {
    assert [e][1..] == [];
  }

  // ---- opening a transfer ----

  function Opening(mailbox: Bytes, total: nat, size: nat, count: nat, manifest: Bytes, minted: Id): Call
    requires Geometric(total, size, count)
  {
    DoCreateTransfer(TransferCreate(mailbox, total, size, count, manifest, Zeros(32), 0, Zeros(16), Zeros(64)),
                     minted, Some(AnyDigest()))
  }

  /** A first transfer, without mailbox or in an empty one that has room for the file. */
  lemma FirstTransfer(sha: Hash, s: State, mailbox: Bytes, data: Bytes, size: nat, count: nat, tid: Id)
    requires Inv(sha, s, 0) && s.transfers == map[] && Geometric(|data|, size, count)
    requires mailbox == [] || (|mailbox| == 16 && LiveMailbox(s.mailboxes, mailbox, 0))
    requires |mailbox| == 16 ==> s.mailboxes[mailbox].storedBytes + |data| <= MAX_STORED_BYTES
    ensures var o := Step(sha, s, Opening(mailbox, |data|, size, count, [], tid), 0);
            && o.reply.Opened? && Inv(sha, o.next, 0) && Underway(o.next, tid, data) && o.next.transfers.Keys == {tid}
            && var t := o.next.transfers[tid];
               && t.chunks == map[] && t.createdAt == 0 < t.expiresAt && t.chunkSize == size && t.chunkCount == count
               && t.hasMailbox == (|mailbox| == 16) && (t.hasMailbox ==> t.mailboxID == mailbox) && t.manifest == []
               && t.ticketHash == sha(AnyDigest())
  {
    var call := Opening(mailbox, |data|, size, count, [], tid);
    StepKeeps(sha, s, call, 0, 0);
    OpeningIsUnderway(sha, s, 0, call, 0, data);
    OpenedIsEmpty(sha, s, call, 0);
  }

  // ---- a mailbox with one byte of room ----

  const ROOMY := 61455

  const MANY := 274

  /** A mailbox, a transfer of 16 MiB in 274 chunks, and all of them but the last, which has one byte. */
  function AlmostFull(): seq<Event> {
    [Event(0, DoCreateMailbox(Name(1), AnyDigest())),
     Event(0, Opening(Name(1), MAX_STORED_BYTES, ROOMY, MANY, [], Name(2)))]
    + Puts(Name(2), Zeros(MAX_STORED_BYTES), ROOMY, MANY, seq(MANY - 1, i => i), 0)
  }

  lemma PutsNeverMint(tid: Id, data: Bytes, size: nat, count: nat, indices: seq<nat>, now: int, k: Id)
    requires Geometric(|data|, size, count) && Chosen(indices, count)
    ensures NeverMints(Puts(tid, data, size, count, indices, now), k)
  {
    PutsShape(tid, data, size, count, indices, now);
  }

  /** The puts touch the one record only, and it stays what was declared. */
  lemma PutsFrame(sha: Hash, s: State, tid: Id, data: Bytes, size: nat, count: nat, indices: seq<nat>)
    requires Geometric(|data|, size, count) && Chosen(indices, count)
    requires Inv(sha, s, 0) && s.transfers.Keys == {tid}
    requires tid in After(sha, s, Puts(tid, data, size, count, indices, 0)).transfers
    ensures var ts := After(sha, s, Puts(tid, data, size, count, indices, 0)).transfers;
            ts.Keys == {tid} && Evolves(s.transfers[tid], ts[tid])
  {
    var evs := Puts(tid, data, size, count, indices, 0);
    forall k: Id | k != tid
      ensures k !in After(sha, s, evs).transfers
    {
      PutsNeverMint(tid, data, size, count, indices, 0, k);
      StaysAbsent(sha, s, evs, k);
    }
    PutsNeverMint(tid, data, size, count, indices, 0, tid);
    PutsShape(tid, data, size, count, indices, 0);
    RunEvolves(sha, s, 0, evs, tid);
  }

  lemma OnlyCharge(ts: map<Id, Transfer>, tid: Id, w: Transfer -> int)
    requires ts.Keys == {tid}
    ensures Total(ts, w) == w(ts[tid])
  {
    TotalRemove(ts, tid, w);
    assert ts - {tid} == map[];
  }

  lemma MessagesHaveBytes(mb: Mailbox, clock: int)
    requires MailboxOk(mb, clock)
    ensures mb.messages != [] ==> mb.storedBytes > 0
  {
    if mb.messages != [] {
      assert MessageOk(mb.messages[|mb.messages| - 1], mb.expiresAt, clock);
    }
  }

  /** With all chunks but the last, a record stores the full chunks. */
  lemma AllButLast(sha: Hash, t: Transfer)
    requires Consistent(sha, t) && forall i: nat :: i in t.chunks <==> i < t.chunkCount - 1
    ensures t.storedBytes == (t.chunkCount - 1) * t.chunkSize
  {
    HeldBytesTile(t.chunks, t.chunkCount - 1, t.totalSize, t.chunkSize, t.chunkCount);
  }

  /** A partial upload into an otherwise unused mailbox that the whole file would fill. */
  lemma FillingCharge(sha: Hash, s: State, tid: Id, data: Bytes)
    requires Inv(sha, s, 0) && Underway(s, tid, data) && s.transfers.Keys == {tid} && |data| == MAX_STORED_BYTES
    requires s.transfers[tid].hasMailbox && s.transfers[tid].manifest == [] && s.transfers[tid].createdAt == 0
    ensures var t := s.transfers[tid];
            && Total(s.transfers, ChargeOf(t.mailboxID)) == StoredBytes(s, t.mailboxID) == t.storedBytes
            && LiveMailbox(s.mailboxes, t.mailboxID, 0) && s.mailboxes[t.mailboxID].messages == []
  {
    var t := s.transfers[tid];
    assert TransferOk(sha, t, 0) && OwnerOk(s.mailboxes, t);
    OnlyCharge(s.transfers, tid, ChargeOf(t.mailboxID));
    MessagesHaveBytes(s.mailboxes[t.mailboxID], 0);
  }

  lemma AlmostFullPrefix(sha: Hash)
    ensures var s := After(sha, EMPTY, AlmostFull()[..2]);
            && Inv(sha, s, 0) && Underway(s, Name(2), Zeros(MAX_STORED_BYTES)) && s.transfers.Keys == {Name(2)}
            && var t := s.transfers[Name(2)];
               && t.chunks == map[] && t.createdAt == 0 < t.expiresAt && t.chunkSize == ROOMY && t.chunkCount == MANY
               && BoundTo(t, Name(1)) && t.manifest == []
  {
    var run := AlmostFull()[..2];
    var s1 := Step(sha, EMPTY, run[0].call, 0).next;
    InvEmpty(sha, 0);
    StepKeeps(sha, EMPTY, run[0].call, 0, 0);
    FirstTransfer(sha, s1, Name(1), Zeros(MAX_STORED_BYTES), ROOMY, MANY, Name(2));
    assert run[1..] == [run[1]] && run[1..][1..] == [];
  }

  /** All but the last chunk of a file that would fill the mailbox. */
  lemma FilledButLast(sha: Hash, s: State, tid: Id, data: Bytes, indices: seq<nat>)
    requires Inv(sha, s, 0) && Underway(s, tid, data) && s.transfers.Keys == {tid} && |data| == MAX_STORED_BYTES
    requires var t := s.transfers[tid];
             && t.chunks == map[] && t.createdAt == 0 < t.expiresAt && t.hasMailbox && t.manifest == []
             && t.chunkSize == ROOMY && t.chunkCount == MANY
    requires |indices| == MANY - 1 && forall i :: 0 <= i < |indices| ==> indices[i] == i
    ensures var mid, evs := s.transfers[tid].mailboxID, Puts(tid, data, ROOMY, MANY, indices, 0);
            var s' := After(sha, s, evs);
            && Timed(0, evs) && ClockAfter(0, evs) == 0 && Inv(sha, s', 0) && s'.transfers.Keys == {tid}
            && LiveMailbox(s'.mailboxes, mid, 0) && s'.mailboxes[mid].messages == []
            && Total(s'.transfers, ChargeOf(mid)) == StoredBytes(s', mid) == MAX_STORED_BYTES - 1
  {
    PartialUpload(sha, s, 0, tid, data, indices);
    PutsFrame(sha, s, tid, data, ROOMY, MANY, indices);
    HeldButLast(sha, After(sha, s, Puts(tid, data, ROOMY, MANY, indices, 0)), tid, data, indices);
  }

  lemma HeldButLast(sha: Hash, s: State, tid: Id, data: Bytes, indices: seq<nat>)
    requires Inv(sha, s, 0) && Underway(s, tid, data) && s.transfers.Keys == {tid} && |data| == MAX_STORED_BYTES
    requires var t := s.transfers[tid];
             && t.createdAt == 0 && t.hasMailbox && t.manifest == [] && t.chunks.Keys == (set i <- indices)
             && t.chunkSize == ROOMY && t.chunkCount == MANY
    requires |indices| == MANY - 1 && forall i :: 0 <= i < |indices| ==> indices[i] == i
    ensures var mid := s.transfers[tid].mailboxID;
            && LiveMailbox(s.mailboxes, mid, 0) && s.mailboxes[mid].messages == []
            && Total(s.transfers, ChargeOf(mid)) == StoredBytes(s, mid) == MAX_STORED_BYTES - 1
  {
    var t := s.transfers[tid];
    assert TransferOk(sha, t, 0);
    forall i: nat
      ensures i in t.chunks <==> i < MANY - 1
    {
      assert i < |indices| ==> indices[i] == i;
    }
    AllButLast(sha, t);
    FillingCharge(sha, s, tid, data);
  }

  /** The mailbox is charged one byte less than the quota, all of it chunks. */
  lemma AlmostFullState(sha: Hash)
    ensures var s := After(sha, EMPTY, AlmostFull());
            && Timed(0, AlmostFull()) && ClockAfter(0, AlmostFull()) == 0 && Inv(sha, s, 0)
            && s.transfers.Keys == {Name(2)}
            && LiveMailbox(s.mailboxes, Name(1), 0) && s.mailboxes[Name(1)].messages == []
            && Total(s.transfers, ChargeOf(Name(1))) == StoredBytes(s, Name(1)) == MAX_STORED_BYTES - 1
  {
    var data, indices := Zeros(MAX_STORED_BYTES), seq(MANY - 1, i => i);
    var open, puts := AlmostFull()[..2], Puts(Name(2), data, ROOMY, MANY, indices, 0);
    AlmostFullPrefix(sha);
    FilledButLast(sha, After(sha, EMPTY, open), Name(2), data, indices);
    RunAppends(sha, EMPTY, 0, open, puts);
    assert AlmostFull() == open + puts;
  }

  // ---- the documented quota fails, and the bound that holds is reached ----

  /** A message of two bytes. */
  function LastStraw(): Call {
    DoSend(SendMessage(Name(1), Zeros(2), Zeros(32), 0, Zeros(16), Zeros(64)), Name(3))
  }

  lemma FirstMessage(sha: Hash, s: State, call: Call, mid: Id)
    requires Inv(sha, s, 0) && LiveMailbox(s.mailboxes, mid, 0) && s.mailboxes[mid].messages == []
    requires call.DoSend? && CheckSend(call.message).None? && call.message.mailboxID == mid
    ensures StoredBytes(Step(sha, s, call, 0).next, mid) == Total(s.transfers, ChargeOf(mid)) + |call.message.envelope|
  {
    SendCharge(sha, s, call.message, call.minted, mid, 0);
  }

  /** A run after which the mailbox stores more than 16 MiB of messages and chunks. */
  lemma DocumentedQuotaFails(sha: Hash)
    ensures var run := AlmostFull() + [Event(0, LastStraw())];
            Timed(0, run) && BytesIn(After(sha, EMPTY, run), Name(1)) == 16 * 1024 * 1024 + 1
  {
    AlmostFullState(sha);
    FirstMessage(sha, After(sha, EMPTY, AlmostFull()), LastStraw(), Name(1));
    CountedAfter(sha, AlmostFull(), LastStraw(), Name(1));
  }

  /** The counters are right after one more operation at the same moment. */
  lemma CountedAfter(sha: Hash, evs: seq<Event>, call: Call, mid: Id)
    requires Timed(0, evs) && ClockAfter(0, evs) == 0 && Inv(sha, After(sha, EMPTY, evs), 0)
    ensures var run := evs + [Event(0, call)];
            var s := After(sha, EMPTY, run);
            && Timed(0, run) && s == Step(sha, After(sha, EMPTY, evs), call, 0).next
            && StoredBytes(s, mid) == BytesIn(s, mid)
            && Total(s.transfers, ChargeOf(mid)) == ChunksAndManifestsIn(s.transfers, mid)
  {
    RunSnoc(sha, EMPTY, 0, evs, Event(0, call));
    StepKeeps(sha, After(sha, EMPTY, evs), call, 0, 0);
    BytesCounted(sha, Step(sha, After(sha, EMPTY, evs), call, 0).next, 0, mid);
  }

  /** A transfer of one byte with the longest manifest. */
  function LastManifest(): Call { Opening(Name(1), 1, 1, 1, Zeros(MAX_MANIFEST_BYTES), Name(3)) }

  lemma OneMore(sha: Hash, s: State, call: Call, mid: Id, tid: Id)
    requires call.DoCreateTransfer? && call.create.mailboxID == mid && CheckCreate(call.create).None?
    requires call.ticket.Some? && call.create.totalSize == 1 && call.minted != tid
    requires LiveMailbox(s.mailboxes, mid, 0) && s.transfers.Keys == {tid} && StoredBytes(s, mid) < MAX_STORED_BYTES
    ensures Total(Step(sha, s, call, 0).next.transfers, ChargeOf(mid)) ==
            Total(s.transfers, ChargeOf(mid)) + |call.create.manifest|
  {
    OnlyCharge(s.transfers, tid, ActiveOf(mid, 0));
    TotalUpdate(s.transfers, call.minted, NewTransfer(sha, call.create, call.ticket.value, 0), ChargeOf(mid));
  }

  lemma ManifestIsFine()
    ensures var call := LastManifest();
            && call.DoCreateTransfer? && CheckCreate(call.create).None? && call.ticket.Some? && call.minted != Name(2)
            && call.create.mailboxID == Name(1) && call.create.totalSize == 1
            && |call.create.manifest| == MAX_MANIFEST_BYTES
  {
    assert Name(3)[0] != Name(2)[0];
  }

  /** A run after which chunks and manifests alone are charged 16 MiB + 4095 bytes, the most there can be. */
  lemma ChargeBoundReached(sha: Hash)
    ensures var run := AlmostFull() + [Event(0, LastManifest())];
            && Timed(0, run)
            && ChunksAndManifestsIn(After(sha, EMPTY, run).transfers, Name(1)) == 16 * 1024 * 1024 + 4095
  {
    AlmostFullState(sha);
    ManifestIsFine();
    OneMore(sha, After(sha, EMPTY, AlmostFull()), LastManifest(), Name(1), Name(2));
    CountedAfter(sha, AlmostFull(), LastManifest(), Name(1));
  }

  // ---- a view that does not reach the client ----

  const STRIPES := 1020

  /** A transfer of 2041 one-byte chunks without a mailbox, and every second chunk of it. */
  function Striped(): seq<Event> {
    [Event(0, Opening([], 2 * STRIPES + 1, 1, 2 * STRIPES + 1, [], Name(2)))]
    + Puts(Name(2), Zeros(2 * STRIPES + 1), 1, 2 * STRIPES + 1,
           seq(STRIPES, k requires 0 <= k < STRIPES => 2 * k + 1), 0)
  }

  lemma {:induction false} StripedGaps(p: seq<bool>, i: nat)
    requires i <= |p| < TWO_32 && i % 2 == 0 && forall j: nat :: j < |p| ==> (p[j] <==> j % 2 == 1)
    ensures |Gaps(p, i)| == (|p| - i + 1) / 2
    decreases |p| - i
  {
    if i + 1 < |p| {
      assert !p[i] && p[i + 1] && GapEnd(p, i) == i + 1;
      StripedGaps(p, i + 2);
      assert Gaps(p, i + 1) == Gaps(p, i + 2);
    } else if i < |p| {
      assert !p[i] && GapEnd(p, i) == |p|;
    }
  }

  /** The view lists 1021 ranges: the server encodes it and the client refuses it. */
  ghost predicate LosesView(t: Transfer, tid: Id) {
    var v := ResumeViewOf(t);
    && |v.ranges| == STRIPES + 1 && v.chunkCount == 2 * STRIPES + 1 && v.highest < TWO_32
    && W.MarshalResumeResponse(ResponseOf(tid, v)).Ok?
    && W.UnmarshalResumeResponse(W.MarshalResumeResponse(ResponseOf(tid, v)).value) == W.Bad(PayloadTooLarge)
  }

  lemma StripedView(sha: Hash, t: Transfer, tid: Id, indices: seq<nat>)
    requires Consistent(sha, t) && t.chunkCount == 2 * STRIPES + 1 && t.chunks.Keys == set i <- indices
    requires |indices| == STRIPES && forall k :: 0 <= k < STRIPES ==> indices[k] == 2 * k + 1
    ensures LosesView(t, tid)
  {
    forall j: nat | j < t.chunkCount
      ensures t.present[j] <==> j % 2 == 1
    {
      assert j % 2 == 1 ==> indices[j / 2] == j;
    }
    StripedGaps(t.present, 0);
    ResponseArrives(sha, t, tid);
  }

  lemma StripedState(sha: Hash, s: State, data: Bytes, indices: seq<nat>, tid: Id)
    requires Inv(sha, s, 0) && Underway(s, tid, data) && |data| == 2 * STRIPES + 1
    requires var t := s.transfers[tid];
             t.chunks == map[] && t.createdAt == 0 < t.expiresAt && t.chunkSize == 1 && t.chunkCount == 2 * STRIPES + 1
    requires |indices| == STRIPES && forall k :: 0 <= k < STRIPES ==> indices[k] == 2 * k + 1
    ensures var evs := Puts(tid, data, 1, 2 * STRIPES + 1, indices, 0);
            var s' := After(sha, s, evs);
            Timed(0, evs) && tid in s'.transfers && LosesView(s'.transfers[tid], tid)
  {
    PartialUpload(sha, s, 0, tid, data, indices);
    var s' := After(sha, s, Puts(tid, data, 1, 2 * STRIPES + 1, indices, 0));
    assert TransferOk(sha, s'.transfers[tid], 0);
    StripedView(sha, s'.transfers[tid], tid, indices);
  }

  lemma StripedOpening(sha: Hash, s: State, data: Bytes)
    requires |data| == 2 * STRIPES + 1
    requires s == Step(sha, EMPTY, Opening([], |data|, 1, 2 * STRIPES + 1, [], Name(2)), 0).next
    ensures Inv(sha, s, 0) && Underway(s, Name(2), data)
    ensures var t := s.transfers[Name(2)];
            t.chunks == map[] && t.createdAt == 0 < t.expiresAt && t.chunkSize == 1 && t.chunkCount == 2 * STRIPES + 1
  {
    InvEmpty(sha, 0);
    FirstTransfer(sha, EMPTY, [], data, 1, 2 * STRIPES + 1, Name(2));
  }

  /** A reachable transfer whose resume view does not reach the client. */
  lemma ViewLost(sha: Hash)
    ensures var s := After(sha, EMPTY, Striped());
            Timed(0, Striped()) && Name(2) in s.transfers && LosesView(s.transfers[Name(2)], Name(2))
  {
    var data, indices := Zeros(2 * STRIPES + 1), seq(STRIPES, k requires 0 <= k < STRIPES => 2 * k + 1);
    var open, puts := Striped()[0], Puts(Name(2), data, 1, 2 * STRIPES + 1, indices, 0);
    var s1 := After(sha, EMPTY, [open]);
    RunOne(sha, EMPTY, open);
    StripedOpening(sha, s1, data);
    StripedState(sha, s1, data, indices, Name(2));
    RunAppends(sha, EMPTY, 0, [open], puts);
  }

  // ---- a transfer served past its lifetime ----

  function Sealing(): Call {
    DoComplete(TransferComplete(Name(2), AnyDigest(), [], Zeros(32), 0, Zeros(16), Zeros(64)))
  }

  /** A transfer of one byte without a mailbox: opened, uploaded and sealed. */
  function Published(): seq<Event> {
    [Event(0, Opening([], 1, 1, 1, [], Name(2)))] + Puts(Name(2), Zeros(1), 1, 1, [0], 0) + [Event(0, Sealing())]
  }

  /** The ticket still opens the transfer when its lifetime is over. */
  ghost predicate ServedLate(sha: Hash, s: State, tid: Id, now: int) {
    && tid in s.transfers && s.transfers[tid].expiresAt <= now
    && GetByTicketStep(sha, s, tid, AnyDigest(), 0, now).reply.Chunk?
  }

  lemma SealedRecord(s: State, tid: Id, c: TransferComplete)
    requires tid in s.transfers && Open(s.transfers[tid]) && 0 < s.transfers[tid].expiresAt
    requires s.transfers[tid].presentCount == s.transfers[tid].chunkCount
    requires CheckComplete(c).None? && c.transferID == tid
    ensures var ts := CompleteStep(s, c, 0).next.transfers;
            tid in ts && ts[tid] == s.transfers[tid].(phase := Complete, expiresAt := COMPLETE_TTL)
  {
  }

  lemma SealedServedLate(sha: Hash, s: State, tid: Id)
    requires Inv(sha, s, 0) && tid in s.transfers
    requires var t := s.transfers[tid];
             && t.phase == Complete && t.expiresAt == COMPLETE_TTL && 0 < t.chunkCount
             && t.ticketHash == sha(AnyDigest())
    ensures ServedLate(sha, s, tid, COMPLETE_TTL)
  {
    ServedPastItsTime(sha, s, 0, tid, tid, AnyDigest(), 0, COMPLETE_TTL);
  }

  /** A transfer of one byte, with a known ticket. */
  ghost predicate OneByte(sha: Hash, t: Transfer) {
    t.chunkSize == 1 && t.chunkCount == 1 && t.ticketHash == sha(AnyDigest()) && 0 < t.expiresAt
  }

  lemma ByteIsWhole(sha: Hash, t: Transfer)
    requires Consistent(sha, t) && t.chunkCount == 1 && t.chunks.Keys == set i <- [0]
    ensures t.presentCount == 1
  {
    assert [0][0] == 0 && 0 in t.chunks;
    CountTrueFull(t.present);
  }

  lemma UploadedByte(sha: Hash, s: State, tid: Id, data: Bytes)
    requires Inv(sha, s, 0) && Underway(s, tid, data) && s.transfers.Keys == {tid} && |data| == 1
    requires s.transfers[tid].chunks == map[] && s.transfers[tid].createdAt == 0 && OneByte(sha, s.transfers[tid])
    ensures var evs := Puts(tid, data, 1, 1, [0], 0);
            var s' := After(sha, s, evs);
            && Timed(0, evs) && ClockAfter(0, evs) == 0 && Inv(sha, s', 0)
            && tid in s'.transfers && Open(s'.transfers[tid]) && OneByte(sha, s'.transfers[tid])
            && s'.transfers[tid].presentCount == 1
  {
    var evs := Puts(tid, data, 1, 1, [0], 0);
    PartialUpload(sha, s, 0, tid, data, [0]);
    PutsFrame(sha, s, tid, data, 1, 1, [0]);
    var t := After(sha, s, evs).transfers[tid];
    assert TransferOk(sha, t, 0);
    ByteIsWhole(sha, t);
  }

  lemma PublishedByte(sha: Hash, s: State, tid: Id, call: Call)
    requires Inv(sha, s, 0) && tid in s.transfers && Open(s.transfers[tid]) && OneByte(sha, s.transfers[tid])
    requires s.transfers[tid].presentCount == 1
    requires call.DoComplete? && CheckComplete(call.complete).None? && call.complete.transferID == tid
    ensures ServedLate(sha, Step(sha, s, call, 0).next, tid, COMPLETE_TTL)
  {
    var s' := Step(sha, s, call, 0).next;
    StepKeeps(sha, s, call, 0, 0);
    SealedRecord(s, tid, call.complete);
    SealedServedLate(sha, s', tid);
  }

  lemma OpenedByte(sha: Hash, s: State)
    requires s == Step(sha, EMPTY, Opening([], 1, 1, 1, [], Name(2)), 0).next
    ensures Inv(sha, s, 0) && Underway(s, Name(2), Zeros(1)) && s.transfers.Keys == {Name(2)}
    ensures var t := s.transfers[Name(2)]; t.chunks == map[] && t.createdAt == 0 && OneByte(sha, t)
  {
    InvEmpty(sha, 0);
    FirstTransfer(sha, EMPTY, [], Zeros(1), 1, 1, Name(2));
  }

  /** A run from the empty store after which a transfer is served although its lifetime is over. */
  lemma LateReadServed(sha: Hash)
    ensures Timed(0, Published()) && ServedLate(sha, After(sha, EMPTY, Published()), Name(2), COMPLETE_TTL)
  {
    var open, puts := Published()[0], Puts(Name(2), Zeros(1), 1, 1, [0], 0);
    var s1 := After(sha, EMPTY, [open]);
    RunOne(sha, EMPTY, open);
    OpenedByte(sha, s1);
    UploadedByte(sha, s1, Name(2), Zeros(1));
    PublishedByte(sha, After(sha, s1, puts), Name(2), Sealing());
    RunAppends(sha, EMPTY, 0, [open], puts);
    RunSnoc(sha, EMPTY, 0, [open] + puts, Event(0, Sealing()));
  }

  // ---- a refused read that slides a mailbox ----

  function Registering(sha: Hash): Event { Event(0, DoCreateMailbox(Name(1), sha(AnyDigest()))) }

  function OpeningIn(): Event { Event(0, Opening(Name(1), 1, 1, 1, [], Name(2))) }

  lemma RegisteredState(sha: Hash)
    ensures After(sha, EMPTY, [Registering(sha)]) ==
            EMPTY.(mailboxes := map[Name(1) := Mailbox(sha(AnyDigest()), [], MAILBOX_TTL, 0)])
    ensures Timed(0, [Registering(sha)]) && Inv(sha, After(sha, EMPTY, [Registering(sha)]), 0)
  {
    RunOne(sha, EMPTY, Registering(sha));
    InvEmpty(sha, 0);
    StepKeeps(sha, EMPTY, Registering(sha).call, 0, 0);
  }

  lemma OwnedState(sha: Hash, s: State, s': State)
    requires Inv(sha, s, 0) && s.transfers == map[] && s' == Step(sha, s, OpeningIn().call, 0).next
    requires s.mailboxes == map[Name(1) := Mailbox(sha(AnyDigest()), [], MAILBOX_TTL, 0)]
    ensures s'.mailboxes == s.mailboxes
    ensures Found(s', Name(2), 1) && BoundTo(s'.transfers[Name(2)], Name(1)) && s'.transfers[Name(2)].chunkCount == 1
  {
    FirstTransfer(sha, s, Name(1), Zeros(1), 1, 1, Name(2));
    OpeningSlides(sha, s, OpeningIn().call, s');
  }

  /** At one moment, opening a transfer in a mailbox just registered leaves the mailbox as it was. */
  lemma OpeningSlides(sha: Hash, s: State, call: Call, s': State)
    requires call.DoCreateTransfer? && Step(sha, s, call, 0).reply.Opened? && s' == Step(sha, s, call, 0).next
    requires forall mid <- s.mailboxes :: s.mailboxes[mid].expiresAt == MAILBOX_TTL
    ensures s'.mailboxes == s.mailboxes
    ensures call.minted in s'.transfers && s'.transfers[call.minted].expiresAt == UPLOAD_TTL
  {
    OpenedIsEmpty(sha, s, call, 0);
  }

  lemma ReadRefused(sha: Hash, s: State)
    requires s.mailboxes == map[Name(1) := Mailbox(sha(AnyDigest()), [], MAILBOX_TTL, 0)]
    requires Found(s, Name(2), 1) && BoundTo(s.transfers[Name(2)], Name(1)) && s.transfers[Name(2)].chunkCount == 1
    ensures var o := GetStep(sha, s, Name(2), Name(1), AnyDigest(), 1, 1);
            o.reply == Err(ChunkOutOfRange) && o.next != s
  {
    RefusedReadSlides(sha, s, Name(2), Name(1), AnyDigest(), 1, 1);
  }

  /** A run from the empty store after which a read refused for its index changes the store. */
  lemma RefusalSlides(sha: Hash)
    ensures var run := [Registering(sha), OpeningIn()];
            var s := After(sha, EMPTY, run);
            var o := GetStep(sha, s, Name(2), Name(1), AnyDigest(), 1, 1);
            Timed(0, run) && o.reply == Err(ChunkOutOfRange) && o.next != s
  {
    var s1 := After(sha, EMPTY, [Registering(sha)]);
    var s2 := Step(sha, s1, OpeningIn().call, 0).next;
    RegisteredState(sha);
    OwnedState(sha, s1, s2);
    ReadRefused(sha, s2);
    RunSnoc(sha, EMPTY, 0, [Registering(sha)], OpeningIn());
    assert [Registering(sha)] + [OpeningIn()] == [Registering(sha), OpeningIn()];
  }

  // ---- sweeps that show ----

  /** A run from the empty store after which a registration and a secret check tell whether there was a sweep. */
  lemma SweepShows(sha: Hash)
    ensures var s, now := After(sha, EMPTY, [Registering(sha)]), MAILBOX_TTL;
            var s' := SweepStep(s, now).next;
            && Timed(0, [Registering(sha)])
            && Register(s.mailboxes, Name(1), AnyDigest(), now).reply !=
               Register(s'.mailboxes, Name(1), AnyDigest(), now).reply
            && SecretOpens(sha, s.mailboxes, Name(1), AnyDigest()) !=
               SecretOpens(sha, s'.mailboxes, Name(1), AnyDigest())
  {
    RegisteredState(sha);
    var s := After(sha, EMPTY, [Registering(sha)]);
    RegistrationSeesSweep(sha, s, 0, Name(1), AnyDigest(), MAILBOX_TTL);
    SecretCheckSeesSweep(sha, s, 0, Name(1), AnyDigest(), MAILBOX_TTL);
  }
}
