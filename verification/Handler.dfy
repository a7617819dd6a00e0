/** The shard's request handlers over the store, the limiter and the codecs: a drained batch always reaches the client,
    a refused request changes nothing, every stored chunk is acknowledged from the true progress, and only the key
    that opened a transfer seals it. Other requests may run between two store operations of a handler. */
module Handler {
  import opened Octets
  import opened Limits
  import opened Resume
  import opened Collections
  import opened Shard
  import opened Invariant
  import opened Runs
  import opened Lifecycle
  import opened Convergence
  import opened Auth
  import opened Upload
  import opened MailAnswers
  import opened TransferAnswers
  import M = MemStore
  import W = Wire
  import L = Limiter
  import A = Admission

  // ---- the limiter ----

  /** The handler's keys carry different prefixes, one per kind of limit. */
  predicate Quotas(keys: seq<string>, maxes: seq<int>) {
    |keys| == |maxes| && forall i, j :: 0 <= i < j < |keys| ==> keys[i] != keys[j]
  }

  /** Every one of the limits, taken by itself, lets the request through. */
  predicate Permits(buckets: map<string, L.Window>, keys: seq<string>, maxes: seq<int>, now: int)
    requires |keys| == |maxes|
  {
    forall i :: 0 <= i < |keys| ==> L.Charge(L.Find(buckets, keys[i]), now, maxes[i]).1
  }

  /** Charges one window after another until one refuses; the rest are not charged. */
  method Permit(limiter: L.RateLimiter, keys: seq<string>, maxes: seq<int>, now: int) returns (ok: bool)
    requires Quotas(keys, maxes)
    modifies limiter
    ensures ok <==> Permits(old(limiter.buckets), keys, maxes, now)
    ensures forall k :: k !in keys ==> L.Find(limiter.buckets, k) == L.Find(old(limiter.buckets), k)
    ensures ok ==> forall i :: 0 <= i < |keys| ==>
              L.Find(limiter.buckets, keys[i]) == L.Charge(L.Find(old(limiter.buckets), keys[i]), now, maxes[i]).0
  {
    for i := 0 to |keys|
      invariant forall k :: k !in keys[..i] ==> L.Find(limiter.buckets, k) == L.Find(old(limiter.buckets), k)
      invariant forall j :: 0 <= j < i ==>
                  && L.Charge(L.Find(old(limiter.buckets), keys[j]), now, maxes[j]).1
                  && L.Find(limiter.buckets, keys[j]) ==
                     L.Charge(L.Find(old(limiter.buckets), keys[j]), now, maxes[j]).0
    {
      assert keys[i] !in keys[..i];
      var allowed := limiter.Allow(keys[i], now, maxes[i]);
      if !allowed {
        return false;
      }
      assert keys[..i + 1] == keys[..i] + [keys[i]];
    }
    assert keys[..|keys|] == keys;
    return true;
  }

  // ---- other requests ----

  /** A handler holds the lock for one store operation at a time. Between two of them other requests may perform any
      run of operations. */
  method Meanwhile(store: M.MemStore, evs: seq<Event>)
    requires store.Valid() && Timed(store.clock, evs)
    modifies store
    ensures store.Valid() && store.clock == ClockAfter(old(store.clock), evs)
    ensures store.Contents() == After(store.sha, old(store.Contents()), evs)
    decreases |evs|
  {
    if evs != [] {
      var _ := store.Perform(evs[0].call, evs[0].now);
      Meanwhile(store, evs[1..]);
    }
  }

  // ---- receiving ----

  function ReceivedOf(m: Message): W.Received { W.Received(m.id, m.envelope) }

  function BatchOf(ms: seq<Message>, consumed: bool): W.Response {
    W.Response(seq(|ms|, i requires 0 <= i < |ms| => ReceivedOf(ms[i])), consumed)
  }

  /** Whatever a reachable store hands out can be encoded, and the client decodes exactly that. */
  lemma BatchEncodable(sha: Hash, s: State, clock: int, mid: Id, secret: Bytes, limit: int, peek: bool, now: int)
    requires Inv(sha, s, clock) && Receive(sha, s.mailboxes, mid, secret, limit, peek, now).reply.Batch?
    ensures var Batch(ms, consumed) := Receive(sha, s.mailboxes, mid, secret, limit, peek, now).reply;
            && W.ValidBatch(BatchOf(ms, consumed).messages)
            && W.Decoded(W.BatchFields(BatchOf(ms, consumed))) == W.Ok(BatchOf(ms, consumed))
  {
    var Batch(ms, consumed) := Receive(sha, s.mailboxes, mid, secret, limit, peek, now).reply;
    var mb := s.mailboxes[mid];
    FilterMembers(mb.messages, Unexpired(now));
    forall m <- ms
      ensures 1 <= |m.envelope| <= MAX_MESSAGE_BYTES
    {
      assert m in Prune(mb, now).messages;
      assert MessageOk(m, mb.expiresAt, clock);
    }
    W.BatchRoundTrip(BatchOf(ms, consumed));
  }

  method EncodeBatch(ms: seq<Message>, consumed: bool) returns (r: W.Result<seq<W.Field>>)
    requires W.ValidBatch(BatchOf(ms, consumed).messages)
    ensures r == W.Ok(W.BatchFields(BatchOf(ms, consumed)))
  {
    var out: seq<W.Received> := [];
    for i := 0 to |ms|
      invariant out == BatchOf(ms, consumed).messages[..i]
    {
      out := out + [ReceivedOf(ms[i])];
    }
    assert W.Response(out, consumed) == BatchOf(ms, consumed);
    r := W.MarshalReceiveMessagesResponse(W.Response(out, consumed));
  }

  /** What a request for messages is answered with: the store's batch, encoded. */
  predicate Delivers(fields: seq<W.Field>, reply: Reply) {
    reply.Batch? && W.Decoded(fields) == W.Ok(BatchOf(reply.messages, reply.consumed))
  }

  /** Drains or peeks at the mailbox and encodes the batch. */
  method ReceiveBatch(
    store: M.MemStore, mid: Id, secret: Bytes, limit: int, peek: bool, now: int) returns (r: W.Result<seq<W.Field>>)
    requires store.Valid() && store.clock <= now
    modifies store
    ensures store.Valid()
    ensures var o := Step(store.sha, old(store.Contents()), DoReceive(mid, secret, limit, peek), now);
            && store.Contents() == o.next
            && if r.Ok? then Delivers(r.value, o.reply) else o.reply == Err(r.code)
  {
    ghost var s, clock := store.Contents(), store.clock;
    var reply := store.Perform(DoReceive(mid, secret, limit, peek), now);
    if reply.Err? {
      return W.Bad(reply.code);
    }
    BatchEncodable(store.sha, s, clock, mid, secret, limit, peek, now);
    r := EncodeBatch(reply.messages, reply.consumed);
  }

  lemma DefaultLimit(sha: Hash, s: State, mid: Id, secret: Bytes, limit: int, peek: bool, now: int)
    requires limit <= 0
    ensures Step(sha, s, DoReceive(mid, secret, MAX_BATCH, peek), now) ==
            Step(sha, s, DoReceive(mid, secret, limit, peek), now)
  {
  }

  lemma RefusalIsIdle(sha: Hash, s: State, mid: Id, secret: Bytes, limit: int, peek: bool, now: int)
    ensures var o := Step(sha, s, DoReceive(mid, secret, limit, peek), now);
            && (o.reply.Err? ==> o.next == s)
            && (o.reply.Err? <==>
                  !(&& mid in s.mailboxes && now < s.mailboxes[mid].expiresAt
                    && |secret| == 32 && sha(secret) == s.mailboxes[mid].secretHash))
  {
    ReceiveAnswers(sha, s, mid, secret, limit, peek, now);
  }

  /** The receive handler. An answer decodes to what was taken from the queue; on any error the store is untouched, so
      no message is burned without being delivered. */
  method HandleReceive(
    store: M.MemStore, limiter: L.RateLimiter, ip: string, max: int, mid: Id, secret: Bytes, limit: int, peek: bool,
                       now: int, storeNow: int) returns (r: W.Result<seq<W.Field>>)
    requires store.Valid() && store.clock <= storeNow
    modifies store, limiter
    ensures store.Valid()
    ensures r.Bad? ==> store.Contents() == old(store.Contents())
    ensures r.Ok? ==>
              var o := Step(store.sha, old(store.Contents()), DoReceive(mid, secret, limit, peek), storeNow);
              store.Contents() == o.next && Delivers(r.value, o.reply)
    ensures r.Ok? <==>
              && L.Charge(L.Find(old(limiter.buckets), "recv-ip:" + ip), now, max).1
              && mid in old(store.mailboxes) && storeNow < old(store.mailboxes)[mid].expiresAt
              && |secret| == 32 && store.sha(secret) == old(store.mailboxes)[mid].secretHash
  {
    var allowed := limiter.Allow("recv-ip:" + ip, now, max);
    if !allowed {
      return W.Bad(RateLimited);
    }
    RefusalIsIdle(store.sha, store.Contents(), mid, secret, limit, peek, storeNow);
    if limit <= 0 {
      DefaultLimit(store.sha, store.Contents(), mid, secret, limit, peek, storeNow);
      r := ReceiveBatch(store, mid, secret, MAX_BATCH, peek, storeNow);
    } else {
      r := ReceiveBatch(store, mid, secret, limit, peek, storeNow);
    }
  }

  // ---- storing a chunk ----

  /** The view shows chunk `i` as present. */
  predicate Shows(v: ResumeView, i: nat) {
    match v.encoding
    case AsBitmap => i < 8 * |v.bitmap| && BitOf(v.bitmap, i)
    case AsRanges => !Covered(v.ranges, i)
  }

  lemma ViewShows(sha: Hash, t: Transfer, i: nat)
    requires Consistent(sha, t) && i < t.chunkCount && t.present[i]
    ensures Shows(ResumeViewOf(t), i)
  {
    ResumeViewExact(sha, t);
    assert i in t.chunks;
  }

  /** What a progress read reports of a transfer that has chunk `i`. */
  ghost predicate Progressed(sha: Hash, ts: map<Id, Transfer>, tid: Id, i: nat, ack: Reply) {
    && tid in ts && Consistent(sha, ts[tid])
    && ack.View? && ack.resume == ResumeViewOf(ts[tid]) && Shows(ack.resume, i)
  }

  /** Progress shows every chunk that is present. */
  lemma ProgressShows(sha: Hash, s: State, clock: int, tid: Id, now: int, i: nat)
    requires Inv(sha, s, clock) && Keeps(s.transfers, tid, i)
    ensures var ack := ProgressStep(s, tid, now).reply; ack.Err? || Progressed(sha, s.transfers, tid, i, ack)
  {
    if tid in s.transfers {
      assert TransferOk(sha, s.transfers[tid], clock);
      ViewShows(sha, s.transfers[tid], i);
    }
  }

  function AckOf(tid: Id, v: ResumeView): W.ChunkAck
    requires v.highest < TWO_32
  {
    W.ChunkAck(tid, v.highest, W.RangeBytes(v.ranges), v.bitmap, if v.encoding == AsBitmap then 0 else 1)
  }

  /** The body carries the view to the client, or, listing more than 1019 runs, is refused by its decoder. */
  predicate Acknowledges(fields: seq<W.Field>, tid: Id, v: ResumeView) {
    && v.highest < TWO_32
    && W.UnmarshalChunkAck(fields) == if |v.ranges| <= 1019 then W.Ok(AckOf(tid, v)) else W.Bad(PayloadTooLarge)
  }

  lemma ViewAcknowledged(sha: Hash, t: Transfer, tid: Id)
    requires Consistent(sha, t)
    ensures var v := ResumeViewOf(t);
            && v.highest < TWO_32 && W.MarshalChunkAck(AckOf(tid, v)).Ok?
            && Acknowledges(W.MarshalChunkAck(AckOf(tid, v)).value, tid, v)
  {
    var v := ResumeViewOf(t);
    ViewFits(sha, t);
    if v.encoding == AsBitmap {
      assert W.RangeBytes(v.ranges) == [];
      W.BitmapAckFits(tid, v.highest, v.bitmap);
    } else {
      W.RangeAckFits(tid, v.highest, v.ranges);
    }
  }

  /** The acknowledgement is read off the progress, and shows chunk `i`. */
  ghost predicate AckHandled(s: State, s': State, tid: Id, i: nat, now: int, r: W.Result<seq<W.Field>>) {
    var ack := ProgressStep(s, tid, now);
    && s' == ack.next
    && if r.Ok? then ack.reply.View? && Acknowledges(r.value, tid, ack.reply.resume) && Shows(ack.reply.resume, i)
       else ack.reply == Err(r.code)
  }

  method EncodeAck(ghost sha: Hash, ghost t: Transfer, tid: Id, v: ResumeView) returns (r: W.Result<seq<W.Field>>)
    requires Consistent(sha, t) && v == ResumeViewOf(t)
    ensures r.Ok? && Acknowledges(r.value, tid, v)
  {
    ViewAcknowledged(sha, t, tid);
    r := W.MarshalChunkAck(AckOf(tid, v));
  }

  method ReadProgress(store: M.MemStore, tid: Id, ghost i: nat, now: int) returns (ack: Reply)
    requires store.Valid() && store.clock <= now && Keeps(store.transfers, tid, i)
    modifies store
    ensures store.Valid() && Outcome(store.Contents(), ack) == ProgressStep(old(store.Contents()), tid, now)
    ensures ack.Err? || Progressed(store.sha, old(store.transfers), tid, i, ack)
  {
    ghost var s, clock := store.Contents(), store.clock;
    ack := store.Perform(DoProgress(tid), now);
    ProgressShows(store.sha, s, clock, tid, now, i);
  }

  method AckProgress(store: M.MemStore, tid: Id, ghost i: nat, now: int) returns (r: W.Result<seq<W.Field>>)
    requires store.Valid() && store.clock <= now && Keeps(store.transfers, tid, i)
    modifies store
    ensures store.Valid() && AckHandled(old(store.Contents()), store.Contents(), tid, i, now, r)
  {
    ghost var ts := store.transfers;
    var ack := ReadProgress(store, tid, i, now);
    if ack.Err? {
      return W.Bad(ack.code);
    }
    r := EncodeAck(store.sha, ts[tid], tid, ack.resume);
  }

  /** Stores the chunk; then, whatever other requests did meanwhile, acknowledges it from the progress. */
  ghost predicate PutHandled(
    sha: Hash, s: State, s': State, c: ChunkUpload, putNow: int, between: seq<Event>, ackNow: int,
    r: W.Result<seq<W.Field>>)
  {
    |c.transferID| == 16 &&
    var put := PutStep(sha, s, c, putNow);
    if put.reply.Stored? then AckHandled(After(sha, put.next, between), s', c.transferID, c.index, ackNow, r)
    else s' == put.next && put.reply.Err? && r == W.Bad(put.reply.code)
  }

  method StoreChunk(store: M.MemStore, c: ChunkUpload, now: int) returns (put: Reply)
    requires store.Valid() && store.clock <= now && |c.transferID| == 16
    modifies store
    ensures store.Valid() && store.clock == now
    ensures Outcome(store.Contents(), put) == PutStep(store.sha, old(store.Contents()), c, now)
    ensures put.Err? || (put.Stored? && Keeps(store.transfers, c.transferID, c.index))
  {
    ghost var s, clock := store.Contents(), store.clock;
    put := store.Perform(DoPut(c), now);
    if put.Stored? {
      PutKept(store.sha, s, clock, c, now, c.transferID);
    }
  }

  method PutAndAck(store: M.MemStore, c: ChunkUpload, putNow: int, between: seq<Event>, ackNow: int)
      returns (r: W.Result<seq<W.Field>>)
    requires store.Valid() && store.clock <= putNow && |c.transferID| == 16
    requires Timed(putNow, between) && ClockAfter(putNow, between) <= ackNow && NeverMints(between, c.transferID)
    modifies store
    ensures store.Valid()
    ensures PutHandled(store.sha, old(store.Contents()), store.Contents(), c, putNow, between, ackNow, r)
  {
    var put := StoreChunk(store, c, putNow);
    if put.Err? {
      return W.Bad(put.code);
    }
    RunKeepsChunk(store.sha, store.Contents(), putNow, between, c.transferID, c.index);
    Meanwhile(store, between);
    r := AckProgress(store, c.transferID, c.index, ackNow);
  }

  /** A malformed request is refused first, then a limited one; any other is stored and acknowledged. */
  method HandlePut(store: M.MemStore, limiter: L.RateLimiter, keys: seq<string>, maxes: seq<int>, c: ChunkUpload,
                   now: int, putNow: int, between: seq<Event>, ackNow: int) returns (r: W.Result<seq<W.Field>>)
    requires store.Valid() && store.clock <= putNow && Quotas(keys, maxes)
    requires Timed(putNow, between) && ClockAfter(putNow, between) <= ackNow
    requires |c.transferID| == 16 ==> NeverMints(between, c.transferID)
    modifies store, limiter
    ensures store.Valid()
    ensures CheckChunk(c).Some? ==> r == W.Bad(CheckChunk(c).value) && store.Contents() == old(store.Contents())
    ensures CheckChunk(c).None? ==>
              if Permits(old(limiter.buckets), keys, maxes, now)
              then PutHandled(store.sha, old(store.Contents()), store.Contents(), c, putNow, between, ackNow, r)
              else r == W.Bad(RateLimited) && store.Contents() == old(store.Contents())
  {
    if CheckChunk(c).Some? {
      return W.Bad(CheckChunk(c).value);
    }
    var allowed := Permit(limiter, keys, maxes, now);
    if !allowed {
      return W.Bad(RateLimited);
    }
    r := PutAndAck(store, c, putNow, between, ackNow);
  }

  // ---- sending ----

  /** Why a request that was not admitted was refused. */
  function GateRefusal(verify: A.Verifier, q: A.Request, now: int): ErrorCode {
    if q.Check().Some? then q.Check().value
    else if !verify(q) then AuthFailed
    else if CheckSkew(q.Timestamp(), now).Some? then CheckSkew(q.Timestamp(), now).value
    else ReplayDetected
  }

  /** A well-formed request is refused for its signature, for its time, or as a replay, in this order. */
  lemma RefusalExplained(verify: A.Verifier, q: A.Request, now: int)
    requires 0 <= now <= TWO_63 / 2
    ensures A.WellFormed(q) ==>
              GateRefusal(verify, q, now) ==
                if !verify(q) then AuthFailed
                else if !A.Timely(A.TimeOf(q), now) then ExpiredRequest
                else ReplayDetected
  {
    A.CheckExactly(q);
    SkewExact(q.Timestamp(), now);
  }

  /** The gate alone: what is left in the store, and whether the request goes on. */
  method PassGate(store: M.MemStore, verify: A.Verifier, q: A.Request, now: int, replayNow: int)
      returns (e: Option<ErrorCode>)
    requires store.Valid() && store.clock <= replayNow
    modifies store
    ensures store.Valid() && store.clock <= replayNow
    ensures var gate := A.Enter(store.sha, verify, old(store.Contents()), A.Attempt(now, replayNow, q));
            && store.Contents() == gate.next && gate.admitted == e.None?
            && (e.Some? ==> e.value == GateRefusal(verify, q, now)) && (e.None? ==> store.clock == replayNow)
  {
    if q.Check().Some? {
      return Some(q.Check().value);
    }
    if !verify(q) {
      return Some(AuthFailed);
    }
    if CheckSkew(q.Timestamp(), now).Some? {
      return Some(CheckSkew(q.Timestamp(), now).value);
    }
    var seen := store.Perform(DoReplay(q.Key(store.sha)), replayNow);
    if seen == Answer(true) {
      return Some(ReplayDetected);
    }
    return None;
  }

  /** An admitted request within its limits reaches the store, as other requests have left it meanwhile; any other
      leaves mailboxes and transfers as they were. */
  ghost predicate SendHandled(sha: Hash, verify: A.Verifier, s: State, s': State, q: A.Action, permitted: bool,
                              between: seq<Event>, id: Id, sendNow: int, r: Reply)
    requires q.Attempt? && q.request.Send?
  {
    var gate := A.Enter(sha, verify, s, q);
    if gate.admitted && permitted
    then Outcome(s', r) == Step(sha, After(sha, gate.next, between), DoSend(q.request.message, id), sendNow)
    else
      && s' == gate.next && s'.mailboxes == s.mailboxes && s'.transfers == s.transfers
      && r == Err(if gate.admitted then RateLimited else GateRefusal(verify, q.request, q.handlerNow))
  }

  lemma GateFrame(sha: Hash, verify: A.Verifier, s: State, q: A.Action)
    requires q.Attempt?
    ensures A.Enter(sha, verify, s, q).next.mailboxes == s.mailboxes &&
            A.Enter(sha, verify, s, q).next.transfers == s.transfers
  {
  }

  method HandleSend(store: M.MemStore, limiter: L.RateLimiter, verify: A.Verifier, keys: seq<string>, maxes: seq<int>,
                    m: SendMessage, id: Id, now: int, replayNow: int, between: seq<Event>, sendNow: int)
      returns (r: Reply)
    requires store.Valid() && store.clock <= replayNow && Quotas(keys, maxes)
    requires Timed(replayNow, between) && ClockAfter(replayNow, between) <= sendNow
    modifies store, limiter
    ensures store.Valid()
    ensures SendHandled(store.sha, verify, old(store.Contents()), store.Contents(),
                        A.Attempt(now, replayNow, A.Send(m)),
                        Permits(old(limiter.buckets), keys, maxes, now), between, id, sendNow, r)
  {
    GateFrame(store.sha, verify, store.Contents(), A.Attempt(now, replayNow, A.Send(m)));
    var refused := PassGate(store, verify, A.Send(m), now, replayNow);
    if refused.Some? {
      return Err(refused.value);
    }
    var allowed := Permit(limiter, keys, maxes, now);
    if !allowed {
      return Err(RateLimited);
    }
    Meanwhile(store, between);
    r := store.Perform(DoSend(m, id), sendNow);
  }

  // ---- sealing ----

  /** Why the sender of a request may not seal the transfer. */
  function SenderRefusal(s: State, tid: Id, sender: Bytes, now: int): Option<ErrorCode> {
    if !Found(s, tid, now) then Some(if tid in s.transfers then TransferExpired else TransferNotFound)
    else if s.transfers[tid].senderPub != sender then Some(AuthFailed)
    else None
  }

  /** After the gate: look the transfer up, compare its sender, and only then seal it, with other requests in
      between. */
  ghost function SealOutcome(
    sha: Hash, s: State, c: TransferComplete, getNow: int, between: seq<Event>, sealNow: int): Outcome
    requires |c.transferID| == 16
  {
    var e := SenderRefusal(s, c.transferID, c.senderPub, getNow);
    if e.Some? then Outcome(Mark(s, c.transferID, getNow), Err(e.value))
    else CompleteStep(After(sha, s, between), c, sealNow)
  }

  ghost function CompleteOutcome(sha: Hash, verify: A.Verifier, s: State, now: int, replayNow: int, c: TransferComplete,
                                 first: seq<Event>, getNow: int, second: seq<Event>, sealNow: int): Outcome
  {
    var gate := A.Enter(sha, verify, s, A.Attempt(now, replayNow, A.Complete(c)));
    if !gate.admitted then Outcome(gate.next, Err(GateRefusal(verify, A.Complete(c), now)))
    else SealOutcome(sha, After(sha, gate.next, first), c, getNow, second, sealNow)
  }

  method CheckSender(store: M.MemStore, tid: Id, sender: Bytes, now: int) returns (e: Option<ErrorCode>)
    requires store.Valid() && store.clock <= now
    modifies store
    ensures store.Valid() && store.clock == now && store.Contents() == Mark(old(store.Contents()), tid, now)
    ensures e == SenderRefusal(old(store.Contents()), tid, sender, now)
  {
    var got := store.Perform(DoGetTransfer(tid), now);
    if got.Err? {
      return Some(got.code);
    }
    return if got.transfer.senderPub != sender then Some(AuthFailed) else None;
  }

  method Seal(store: M.MemStore, c: TransferComplete, now: int) returns (r: Reply)
    requires store.Valid() && store.clock <= now
    modifies store
    ensures store.Valid() && Outcome(store.Contents(), r) == CompleteStep(old(store.Contents()), c, now)
  {
    r := store.Perform(DoComplete(c), now);
  }

  method SealOwn(store: M.MemStore, c: TransferComplete, getNow: int, between: seq<Event>, sealNow: int)
      returns (r: Reply)
    requires store.Valid() && store.clock <= getNow && |c.transferID| == 16
    requires Timed(getNow, between) && ClockAfter(getNow, between) <= sealNow
    modifies store
    ensures store.Valid()
    ensures Outcome(store.Contents(), r) == SealOutcome(store.sha, old(store.Contents()), c, getNow, between, sealNow)
  {
    var refused := CheckSender(store, c.transferID, c.senderPub, getNow);
    if refused.Some? {
      return Err(refused.value);
    }
    Meanwhile(store, between);
    r := Seal(store, c, sealNow);
  }

  method HandleComplete(store: M.MemStore, verify: A.Verifier, c: TransferComplete, now: int, replayNow: int,
                        first: seq<Event>, getNow: int, second: seq<Event>, sealNow: int) returns (r: Reply)
    requires store.Valid() && store.clock <= replayNow
    requires Timed(replayNow, first) && ClockAfter(replayNow, first) <= getNow
    requires Timed(getNow, second) && ClockAfter(getNow, second) <= sealNow
    modifies store
    ensures store.Valid()
    ensures Outcome(store.Contents(), r) ==
            CompleteOutcome(store.sha, verify, old(store.Contents()), now, replayNow, c, first, getNow, second, sealNow)
  {
    var refused := PassGate(store, verify, A.Complete(c), now, replayNow);
    if refused.Some? {
      return Err(refused.value);
    }
    Meanwhile(store, first);
    r := SealOwn(store, c, getNow, second, sealNow);
  }

  /** The transfer is there, and every chunk of it. */
  ghost predicate ThereWhole(s: State, tid: Id, now: int) { Found(s, tid, now) && Whole(s.transfers[tid]) }

  /** The transfer is sealed and belongs to the sender. */
  predicate SealedFor(s: State, tid: Id, sender: Bytes) {
    tid in s.transfers && s.transfers[tid].phase == Complete && s.transfers[tid].senderPub == sender
  }

  lemma SealStepExact(sha: Hash, s: State, clock: int, c: TransferComplete, now: int, tid: Id)
    requires Inv(sha, s, clock) && CheckComplete(c).None? && c.transferID == tid
    ensures var o := CompleteStep(s, c, now);
            && (o.reply.Sealed? <==> ThereWhole(s, tid, now))
            && (o.reply.Sealed? ==> SealedFor(o.next, tid, s.transfers[tid].senderPub))
  {
    SealExact(sha, s, clock, c, now);
  }

  lemma SenderKept(sha: Hash, s: State, clock: int, evs: seq<Event>, tid: Id)
    requires Inv(sha, s, clock) && Timed(clock, evs) && NeverMints(evs, tid)
    requires tid in s.transfers && tid in After(sha, s, evs).transfers
    ensures After(sha, s, evs).transfers[tid].senderPub == s.transfers[tid].senderPub
  {
    RunEvolves(sha, s, clock, evs, tid);
  }

  /** A request that passed the gate seals the transfer exactly when the transfer is there and its own at the first
      look, and whole at the second; and what it sealed is its own. */
  lemma SealOutcomeExact(
    sha: Hash, s: State, clock: int, c: TransferComplete, getNow: int, between: seq<Event>, sealNow: int, tid: Id)
    requires Inv(sha, s, clock) && clock <= getNow && CheckComplete(c).None? && c.transferID == tid
    requires Timed(getNow, between) && ClockAfter(getNow, between) <= sealNow && NeverMints(between, tid)
    ensures var o := SealOutcome(sha, s, c, getNow, between, sealNow);
            && (o.reply.Sealed? <==>
                  && Found(s, tid, getNow) && s.transfers[tid].senderPub == c.senderPub
                  && ThereWhole(After(sha, s, between), tid, sealNow))
            && (o.reply.Sealed? ==> SealedFor(o.next, tid, c.senderPub))
  {
    if Found(s, tid, getNow) {
      InvLater(sha, s, clock, getNow);
      RunKeeps(sha, s, getNow, between);
      SealStepExact(sha, After(sha, s, between), ClockAfter(getNow, between), c, sealNow, tid);
      if tid in After(sha, s, between).transfers {
        SenderKept(sha, s, getNow, between, tid);
      }
    }
  }

  lemma GateKeeps(sha: Hash, verify: A.Verifier, s: State, clock: int, q: A.Action)
    requires Inv(sha, s, clock) && q.Attempt? && clock <= q.storeNow
    ensures Inv(sha, A.Enter(sha, verify, s, q).next, q.storeNow)
  {
    if q.request.Check().None? {
      StepKeeps(sha, s, DoReplay(q.request.Key(sha)), clock, q.storeNow);
    }
    InvLater(sha, s, clock, q.storeNow);
  }

  /** What a seal through the handler says about the request and about the record the handler looked up. */
  lemma HandledSeal(sha: Hash, verify: A.Verifier, s: State, clock: int, now: int, replayNow: int, c: TransferComplete,
                    first: seq<Event>, getNow: int, second: seq<Event>, sealNow: int, tid: Id)
    requires Inv(sha, s, clock) && clock <= replayNow && c.transferID == tid && NeverMints(second, tid)
    requires Timed(replayNow, first) && ClockAfter(replayNow, first) <= getNow
    requires Timed(getNow, second) && ClockAfter(getNow, second) <= sealNow
    requires CompleteOutcome(sha, verify, s, now, replayNow, c, first, getNow, second, sealNow).reply.Sealed?
    ensures verify(A.Complete(c)) && CheckSkew(c.timestamp, now).None?
    ensures var gate := A.Enter(sha, verify, s, A.Attempt(now, replayNow, A.Complete(c)));
            && Inv(sha, gate.next, replayNow) && gate.next.transfers == s.transfers
            && var ts := After(sha, gate.next, first).transfers;
               tid in ts && ts[tid].senderPub == c.senderPub
  {
    var q := A.Attempt(now, replayNow, A.Complete(c));
    GateKeeps(sha, verify, s, clock, q);
    GateFrame(sha, verify, s, q);
  }

  /** The record still carries the key of the request that opened it. */
  lemma OpenerKnown(sha: Hash, s: State, clock: int, open: Event, evs: seq<Event>, s3: State, replayNow: int,
                    first: seq<Event>, tid: Id)
    requires Inv(sha, s, clock) && clock <= open.now && Timed(open.now, evs) && NeverMints(evs, tid)
    requires open.call.DoCreateTransfer? && Step(sha, s, open.call, open.now).reply.Opened? && tid == open.call.minted
    requires s3.transfers == After(sha, Step(sha, s, open.call, open.now).next, evs).transfers
    requires Inv(sha, s3, replayNow) && Timed(replayNow, first) && NeverMints(first, tid)
    requires tid in After(sha, s3, first).transfers
    ensures After(sha, s3, first).transfers[tid].senderPub == open.call.create.senderPub
  {
    var s1 := Step(sha, s, open.call, open.now).next;
    StepKeeps(sha, s, open.call, clock, open.now);
    OpenedIsEmpty(sha, s, open.call, open.now);
    if tid !in s3.transfers {
      StaysAbsent(sha, s3, first, tid);
    }
    SenderKept(sha, s1, open.now, evs, tid);
    SenderKept(sha, s3, replayNow, first, tid);
  }

  /** Whatever happens between the opening and the request, and between its own steps: a seal through the handler
      succeeds only for a well-signed request under the key that opened the transfer. */
  lemma OnlyTheOpenerSeals(
    sha: Hash, verify: A.Verifier, s: State, clock: int, open: Event, evs: seq<Event>, now: int, replayNow: int,
    c: TransferComplete, first: seq<Event>, getNow: int, second: seq<Event>, sealNow: int)
    requires Inv(sha, s, clock) && clock <= open.now && Timed(open.now, evs)
    requires open.call.DoCreateTransfer? && Step(sha, s, open.call, open.now).reply.Opened?
    requires c.transferID == open.call.minted && ClockAfter(open.now, evs) <= replayNow
    requires NeverMints(evs, open.call.minted) && NeverMints(first, open.call.minted)
    requires NeverMints(second, open.call.minted)
    requires Timed(replayNow, first) && ClockAfter(replayNow, first) <= getNow
    requires Timed(getNow, second) && ClockAfter(getNow, second) <= sealNow
    requires var s' := After(sha, Step(sha, s, open.call, open.now).next, evs);
             CompleteOutcome(sha, verify, s', now, replayNow, c, first, getNow, second, sealNow).reply.Sealed?
    ensures verify(A.Complete(c)) && CheckSkew(c.timestamp, now).None?
    ensures c.senderPub == open.call.create.senderPub
  {
    var tid, s1 := open.call.minted, Step(sha, s, open.call, open.now).next;
    StepKeeps(sha, s, open.call, clock, open.now);
    RunKeeps(sha, s1, open.now, evs);
    HandledSeal(sha, verify, After(sha, s1, evs), ClockAfter(open.now, evs), now, replayNow, c, first, getNow, second,
                sealNow, tid);
    var s3 := A.Enter(sha, verify, After(sha, s1, evs), A.Attempt(now, replayNow, A.Complete(c))).next;
    OpenerKnown(sha, s, clock, open, evs, s3, replayNow, first, tid);
  }
}
