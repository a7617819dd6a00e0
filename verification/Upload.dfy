/** From the splitter to the sealed transfer and back: what is read is what was cut, and an upload that keeps
    within its room and its deadline cannot fail. */
module Upload {
  import opened Octets
  import opened Limits
  import opened Collections
  import opened Geometry
  import opened Shard
  import opened Invariant
  import opened Runs
  import opened Lifecycle
  import opened Quota
  import opened TransferAnswers

  // ---- what is read is what was cut ----

  predicate PutOn(call: Call, tid: Id) { call.DoPut? && call.chunk.transferID == tid }

  /** Every accepted put on the transfer carried the piece of `data` that belongs there. */
  predicate HonestPuts(evs: seq<Event>, rs: seq<Reply>, tid: Id, data: Bytes, size: nat)
    requires |evs| == |rs|
  {
    forall i :: 0 <= i < |evs| && PutOn(evs[i].call, tid) && rs[i].Stored? ==>
      IsPiece(data, size, evs[i].call.chunk.index, evs[i].call.chunk.payload)
  }

  ghost predicate HoldsPieces(t: Transfer, data: Bytes) {
    forall i <- t.chunks :: IsPiece(data, t.chunkSize, i, t.chunks[i])
  }

  /** A chunk enters a record only through an accepted put of it. */
  lemma MovedChunks(sha: Hash, t: Transfer, t': Transfer, tid: Id, call: Call, now: int)
    requires Moves(sha, t, t', tid, call, now)
    ensures t'.chunkSize == t.chunkSize
    ensures t'.chunks != t.chunks ==>
              StoresChunk(sha, t, t', tid, call, now) && t'.chunks == t.chunks[call.chunk.index := call.chunk.payload]
  {
  }

  lemma PutReply(sha: Hash, s: State, c: ChunkUpload, now: int)
    ensures var o := PutStep(sha, s, c, now); o.reply.Stored? || o.next == s || o.next == Mark(s, c.transferID, now)
  {
  }

  lemma MarkKeepsChunks(s: State, tid: Bytes, now: int, k: Id)
    requires k in s.transfers
    ensures k in Mark(s, tid, now).transfers && Mark(s, tid, now).transfers[k].chunks == s.transfers[k].chunks
  {
  }

  /** A chunk enters a record only through a put that is answered with `Stored`. */
  lemma StoredReply(sha: Hash, s: State, call: Call, now: int, tid: Id)
    requires !Mints(call, tid) && tid in s.transfers && tid in Step(sha, s, call, now).next.transfers
    ensures var t, t' := s.transfers[tid], Step(sha, s, call, now).next.transfers[tid];
            && t'.chunkSize == t.chunkSize
            && (t'.chunks != t.chunks ==>
                  && PutOn(call, tid) && Step(sha, s, call, now).reply.Stored?
                  && t'.chunks == t.chunks[call.chunk.index := call.chunk.payload])
  {
    var t, t' := s.transfers[tid], Step(sha, s, call, now).next.transfers[tid];
    StepMoves(sha, s, call, now, tid);
    MovedChunks(sha, t, t', tid, call, now);
    if call.DoPut? {
      PutReply(sha, s, call.chunk, now);
      MarkKeepsChunks(s, call.chunk.transferID, now, tid);
    }
  }

  lemma HonestTail(e: Event, r: Reply, evs: seq<Event>, rs: seq<Reply>, tid: Id, data: Bytes, size: nat)
    requires |evs| == |rs| && HonestPuts([e] + evs, [r] + rs, tid, data, size)
    ensures HonestPuts(evs, rs, tid, data, size)
    ensures PutOn(e.call, tid) && r.Stored? ==> IsPiece(data, size, e.call.chunk.index, e.call.chunk.payload)
  {
    forall i | 0 <= i < |evs| && PutOn(evs[i].call, tid) && rs[i].Stored?
      ensures IsPiece(data, size, evs[i].call.chunk.index, evs[i].call.chunk.payload)
    {
      assert ([e] + evs)[i + 1] == evs[i] && ([r] + rs)[i + 1] == rs[i];
    }
    assert ([e] + evs)[0] == e && ([r] + rs)[0] == r;
  }

  /** One step of an honest run. */
  lemma HoldsStep(sha: Hash, s: State, evs: seq<Event>, tid: Id, data: Bytes)
    requires evs != [] && NeverMints(evs, tid) && tid in s.transfers && HoldsPieces(s.transfers[tid], data)
    requires HonestPuts(evs, Replies(sha, s, evs), tid, data, s.transfers[tid].chunkSize)
    ensures var s' := Step(sha, s, evs[0].call, evs[0].now).next;
            && HonestPuts(evs[1..], Replies(sha, s', evs[1..]), tid, data, s.transfers[tid].chunkSize)
            && (tid in s'.transfers ==>
                  s'.transfers[tid].chunkSize == s.transfers[tid].chunkSize && HoldsPieces(s'.transfers[tid], data))
  {
    var o := Step(sha, s, evs[0].call, evs[0].now);
    assert evs == [evs[0]] + evs[1..];
    HonestTail(evs[0], o.reply, evs[1..], Replies(sha, o.next, evs[1..]), tid, data, s.transfers[tid].chunkSize);
    if tid in o.next.transfers {
      StoredReply(sha, s, evs[0].call, evs[0].now, tid);
    }
  }

  lemma {:induction false} RunHoldsPieces(sha: Hash, s: State, evs: seq<Event>, tid: Id, data: Bytes)
    requires NeverMints(evs, tid) && tid in s.transfers && tid in After(sha, s, evs).transfers
    requires HoldsPieces(s.transfers[tid], data)
    requires HonestPuts(evs, Replies(sha, s, evs), tid, data, s.transfers[tid].chunkSize)
    ensures HoldsPieces(After(sha, s, evs).transfers[tid], data)
    decreases |evs|
  {
    if evs != [] {
      var s' := Step(sha, s, evs[0].call, evs[0].now).next;
      HoldsStep(sha, s, evs, tid, data);
      if tid !in s'.transfers {
        StaysAbsent(sha, s', evs[1..], tid);
      }
      RunHoldsPieces(sha, s', evs[1..], tid, data);
    }
  }

  /** The chunks of a record in order. */
  ghost function ReadBack(t: Transfer): seq<Bytes>
    requires Whole(t)
  {
    seq(t.chunkCount, i requires 0 <= i < t.chunkCount => t.chunks[i])
  }

  lemma WholeReads(sha: Hash, t: Transfer, data: Bytes, pieces: seq<Bytes>)
    requires Consistent(sha, t) && Whole(t) && HoldsPieces(t, data)
    requires |pieces| == t.chunkCount && Splits(pieces, data, t.chunkSize)
    ensures ReadBack(t) == pieces
  {
    forall i: nat | i < |pieces|
      ensures t.chunks[i] == pieces[i]
    {
      HeldIsPiece(sha, t, data, pieces, i);
    }
  }

  lemma SealedReadsBack(sha: Hash, t: Transfer, clock: int, data: Bytes, pieces: seq<Bytes>)
    requires TransferOk(sha, t, clock) && t.phase == Complete
    requires HoldsPieces(t, data) && t.totalSize == |data| && Splits(pieces, data, t.chunkSize)
    requires (|pieces| - 1) * t.chunkSize < |data| <= |pieces| * t.chunkSize
    ensures Whole(t) && ReadBack(t) == pieces && Join(ReadBack(t)) == data
  {
    SealedIsWhole(sha, t, clock);
    CountUnique(|data|, t.chunkSize, t.chunkCount, |pieces|);
    WholeReads(sha, t, data, pieces);
    JoinPieces(pieces, data, t.chunkSize);
  }

  lemma HeldIsPiece(sha: Hash, t: Transfer, data: Bytes, pieces: seq<Bytes>, i: nat)
    requires Consistent(sha, t) && HoldsPieces(t, data) && i in t.chunks && i < |pieces| &&
             Splits(pieces, data, t.chunkSize)
    ensures i in t.hashes && t.chunks[i] == pieces[i] && t.hashes[i] == sha(pieces[i])
  {
    assert IsPiece(data, t.chunkSize, i, t.chunks[i]) && IsPiece(data, t.chunkSize, i, pieces[i]);
  }

  lemma OpenedIsEmpty(sha: Hash, s: State, call: Call, now: int)
    requires call.DoCreateTransfer? && Step(sha, s, call, now).reply.Opened?
    ensures var s' := Step(sha, s, call, now).next;
            && call.minted in s'.transfers
            && s'.transfers[call.minted] == NewTransfer(sha, call.create, call.ticket.value, now)
            && CheckCreate(call.create).None?
  {
  }

  /** A read of one chunk of the transfer, by the owner or by ticket. */
  predicate ReadsChunk(call: Call, tid: Id) { (call.DoGet? || call.DoGetByTicket?) && call.tid == tid }

  /** A read of the transfer by whoever may: with the ticket that was handed out, or as the owner of its mailbox. */
  predicate MayRead(sha: Hash, s: State, e: Event, tid: Id, ticket: Digest) {
    && tid in s.transfers && ReadsChunk(e.call, tid)
    && if e.call.DoGetByTicket? then e.call.credential == ticket
       else Entitled(sha, s, s.transfers[tid], e.call.mid, e.call.secret, e.now)
  }

  /** Every such read in the run is answered with the piece of that number and its hash. */
  ghost predicate ReadsServed(
    sha: Hash, s: State, evs: seq<Event>, tid: Id, ticket: Digest, pieces: seq<Bytes>)
  {
    forall i: nat :: i < |evs| && MayRead(sha, After(sha, s, evs[..i]), evs[i], tid, ticket)
                     && evs[i].call.index < |pieces| ==>
      Replies(sha, s, evs)[i] == Chunk(pieces[evs[i].call.index], sha(pieces[evs[i].call.index]))
  }

  /** The record is sealed, carries the ticket's hash and holds the pieces. */
  ghost predicate Available(sha: Hash, t: Transfer, ticket: Digest, pieces: seq<Bytes>) {
    t.phase == Complete && t.ticketHash == sha(ticket) && Whole(t) && ReadBack(t) == pieces
  }

  lemma AvailableRead(sha: Hash, s: State, clock: int, e: Event, tid: Id, ticket: Digest, pieces: seq<Bytes>)
    requires Inv(sha, s, clock) && MayRead(sha, s, e, tid, ticket) && e.call.index < |pieces|
    requires Available(sha, s.transfers[tid], ticket, pieces)
    ensures Step(sha, s, e.call, e.now).reply == Chunk(pieces[e.call.index], sha(pieces[e.call.index]))
  {
    assert ReadBack(s.transfers[tid])[e.call.index] == s.transfers[tid].chunks[e.call.index];
    if e.call.DoGetByTicket? {
      GetByTicketAnswers(sha, s, clock, tid, e.call.credential, e.call.index, e.now);
    } else {
      GetAnswers(sha, s, clock, tid, e.call.mid, e.call.secret, e.call.index, e.now);
    }
  }

  /** An available file stays readable for as long as its record exists. */
  lemma AvailableServed(
    sha: Hash, s: State, clock: int, evs: seq<Event>, tid: Id, ticket: Digest, pieces: seq<Bytes>)
    requires Inv(sha, s, clock) && Timed(clock, evs) && NeverMints(evs, tid)
    requires tid in s.transfers && Available(sha, s.transfers[tid], ticket, pieces)
    ensures ReadsServed(sha, s, evs, tid, ticket, pieces)
  {
    forall i: nat | i < |evs| && MayRead(sha, After(sha, s, evs[..i]), evs[i], tid, ticket)
                    && evs[i].call.index < |pieces|
      ensures Replies(sha, s, evs)[i] == Chunk(pieces[evs[i].call.index], sha(pieces[evs[i].call.index]))
    {
      TimedPrefix(sha, s, clock, evs, i);
      RunKeeps(sha, s, clock, evs[..i]);
      RunEvolves(sha, s, clock, evs[..i], tid);
      ReplyAt(sha, s, evs, i);
      AvailableRead(sha, After(sha, s, evs[..i]), ClockAfter(clock, evs[..i]), evs[i], tid, ticket, pieces);
    }
  }

  lemma SealedIsAvailable(
    sha: Hash, s: State, clock: int, open: Event, evs: seq<Event>, data: Bytes, pieces: seq<Bytes>)
    requires Inv(sha, s, clock) && clock <= open.now && Timed(open.now, evs)
    requires open.call.DoCreateTransfer? && Step(sha, s, open.call, open.now).reply.Opened?
    requires open.call.create.totalSize == |data| && Splits(pieces, data, open.call.create.chunkSize)
    requires (|pieces| - 1) * open.call.create.chunkSize < |data| <= |pieces| * open.call.create.chunkSize
    requires NeverMints(evs, open.call.minted)
    requires var s1 := Step(sha, s, open.call, open.now).next;
             && HonestPuts(evs, Replies(sha, s1, evs), open.call.minted, data, open.call.create.chunkSize)
             && open.call.minted in After(sha, s1, evs).transfers
             && After(sha, s1, evs).transfers[open.call.minted].phase == Complete
    ensures var o := Step(sha, s, open.call, open.now);
            var s2 := After(sha, o.next, evs);
            && Inv(sha, s2, ClockAfter(open.now, evs))
            && Available(sha, s2.transfers[open.call.minted], o.reply.ticket, pieces) && Join(pieces) == data
  {
    var tid := open.call.minted;
    var s1 := Step(sha, s, open.call, open.now).next;
    StepKeeps(sha, s, open.call, clock, open.now);
    CreateOpens(sha, s, open.call.create, tid, open.call.ticket, open.now);
    RunHoldsPieces(sha, s1, evs, tid, data);
    RunEvolves(sha, s1, open.now, evs, tid);
    RunKeeps(sha, s1, open.now, evs);
    SealedReadsBack(sha, After(sha, s1, evs).transfers[tid], ClockAfter(open.now, evs), data, pieces);
  }

  /** End to end: a file is split, a transfer is opened for it, and in any later run, with any other traffic and with
      its puts in any order and repeated at will, the accepted puts are its pieces. If the transfer is found
      sealed at the end, then its chunks joined are the file, and in any run from there on, for as long as the transfer
      exists, every read with the ticket that the opening handed out, and every read by the owner of its mailbox, is
      answered with the piece of that number and its hash. */
  lemma FileFidelity(sha: Hash, s: State, clock: int, open: Event, evs: seq<Event>, more: seq<Event>, data: Bytes,
                     pieces: seq<Bytes>)
    requires Inv(sha, s, clock) && clock <= open.now && Timed(open.now, evs)
    requires Timed(ClockAfter(open.now, evs), more)
    requires open.call.DoCreateTransfer? && Step(sha, s, open.call, open.now).reply.Opened?
    requires open.call.create.totalSize == |data| && Splits(pieces, data, open.call.create.chunkSize)
    requires (|pieces| - 1) * open.call.create.chunkSize < |data| <= |pieces| * open.call.create.chunkSize
    requires NeverMints(evs, open.call.minted) && NeverMints(more, open.call.minted)
    requires var s1 := Step(sha, s, open.call, open.now).next;
             && HonestPuts(evs, Replies(sha, s1, evs), open.call.minted, data, open.call.create.chunkSize)
             && open.call.minted in After(sha, s1, evs).transfers
             && After(sha, s1, evs).transfers[open.call.minted].phase == Complete
    ensures var o := Step(sha, s, open.call, open.now);
            var s2 := After(sha, o.next, evs);
            && Whole(s2.transfers[open.call.minted]) && Join(ReadBack(s2.transfers[open.call.minted])) == data
            && ReadsServed(sha, s2, more, open.call.minted, o.reply.ticket, pieces)
  {
    var o := Step(sha, s, open.call, open.now);
    SealedIsAvailable(sha, s, clock, open, evs, data, pieces);
    AvailableServed(sha, After(sha, o.next, evs), ClockAfter(open.now, evs), more, open.call.minted, o.reply.ticket,
                    pieces);
  }

  // ---- every read in the run returns a piece ----

  lemma ReadIsHeld(sha: Hash, s: State, call: Call, now: int, tid: Id)
    requires ReadsChunk(call, tid) && Step(sha, s, call, now).reply.Chunk?
    ensures tid in s.transfers && Step(sha, s, call, now).reply == ChunkReply(s.transfers[tid], call.index)
  {
  }

  /** If the reply carries a chunk, it is the piece of that number with its hash. */
  predicate CarriesPiece(sha: Hash, r: Reply, data: Bytes, size: nat, index: nat) {
    r.Chunk? ==> IsPiece(data, size, index, r.payload) && r.hash == sha(r.payload)
  }

  lemma HeldIsSent(sha: Hash, t: Transfer, index: nat, data: Bytes)
    requires Consistent(sha, t) && HoldsPieces(t, data)
    ensures CarriesPiece(sha, ChunkReply(t, index), data, t.chunkSize, index)
  {
  }

  lemma ReadCarriesPiece(sha: Hash, s: State, clock: int, call: Call, now: int, tid: Id, data: Bytes)
    requires Inv(sha, s, clock) && ReadsChunk(call, tid) && tid in s.transfers && HoldsPieces(s.transfers[tid], data)
    ensures CarriesPiece(sha, Step(sha, s, call, now).reply, data, s.transfers[tid].chunkSize, call.index)
  {
    assert TransferOk(sha, s.transfers[tid], clock);
    HeldIsSent(sha, s.transfers[tid], call.index, data);
    if Step(sha, s, call, now).reply.Chunk? {
      ReadIsHeld(sha, s, call, now, tid);
    }
  }

  /** The record, while it exists, holds pieces only, and the puts to come are honest. */
  ghost predicate HonestFrom(sha: Hash, s: State, clock: int, evs: seq<Event>, tid: Id, data: Bytes, size: nat) {
    && Inv(sha, s, clock) && Timed(clock, evs) && NeverMints(evs, tid)
    && HonestPuts(evs, Replies(sha, s, evs), tid, data, size)
    && (tid in s.transfers ==> s.transfers[tid].chunkSize == size && HoldsPieces(s.transfers[tid], data))
  }

  lemma HonestNext(sha: Hash, s: State, clock: int, evs: seq<Event>, tid: Id, data: Bytes, size: nat)
    requires evs != [] && HonestFrom(sha, s, clock, evs, tid, data, size)
    ensures HonestFrom(sha, Step(sha, s, evs[0].call, evs[0].now).next, evs[0].now, evs[1..], tid, data, size)
  {
    var o := Step(sha, s, evs[0].call, evs[0].now);
    StepKeeps(sha, s, evs[0].call, clock, evs[0].now);
    if tid in s.transfers {
      HoldsStep(sha, s, evs, tid, data);
    } else {
      AbsentStep(sha, s, evs[0], tid);
      HonestRest(sha, s, o.next, evs, tid, data, size);
    }
  }

  lemma AbsentStep(sha: Hash, s: State, e: Event, tid: Id)
    requires tid !in s.transfers && !Mints(e.call, tid)
    ensures tid !in Step(sha, s, e.call, e.now).next.transfers
  {
    StepMoves(sha, s, e.call, e.now, tid);
  }

  lemma HonestRest(sha: Hash, s: State, s': State, evs: seq<Event>, tid: Id, data: Bytes, size: nat)
    requires evs != [] && s' == Step(sha, s, evs[0].call, evs[0].now).next
    requires HonestPuts(evs, Replies(sha, s, evs), tid, data, size)
    ensures HonestPuts(evs[1..], Replies(sha, s', evs[1..]), tid, data, size)
  {
    var rs := Replies(sha, s', evs[1..]);
    forall i | 0 <= i < |evs[1..]| && PutOn(evs[1..][i].call, tid) && rs[i].Stored?
      ensures IsPiece(data, size, evs[1..][i].call.chunk.index, evs[1..][i].call.chunk.payload)
    {
      RepliesTail(sha, s, s', evs, i + 1);
      assert evs[i + 1] == evs[1..][i];
    }
  }

  lemma FirstRead(sha: Hash, s: State, clock: int, call: Call, now: int, tid: Id, data: Bytes, size: nat)
    requires Inv(sha, s, clock) && ReadsChunk(call, tid)
    requires tid in s.transfers ==> s.transfers[tid].chunkSize == size && HoldsPieces(s.transfers[tid], data)
    ensures CarriesPiece(sha, Step(sha, s, call, now).reply, data, size, call.index)
  {
    if tid in s.transfers {
      ReadCarriesPiece(sha, s, clock, call, now, tid, data);
    } else {
      NotFoundRefused(sha, s, call, now, tid);
    }
  }

  lemma {:induction false} HonestReads(
    sha: Hash, s: State, clock: int, evs: seq<Event>, tid: Id, data: Bytes, size: nat, i: nat)
    requires HonestFrom(sha, s, clock, evs, tid, data, size) && i < |evs| && ReadsChunk(evs[i].call, tid)
    ensures CarriesPiece(sha, Replies(sha, s, evs)[i], data, size, evs[i].call.index)
    decreases |evs|
  {
    if i == 0 {
      FirstRead(sha, s, clock, evs[0].call, evs[0].now, tid, data, size);
    } else {
      HonestNext(sha, s, clock, evs, tid, data, size);
      HonestReads(sha, Step(sha, s, evs[0].call, evs[0].now).next, evs[0].now, evs[1..], tid, data, size, i - 1);
    }
  }

  /** After a transfer was opened for a file and as long as the accepted puts are its pieces, every chunk that any read
      returns, by the owner or by ticket, sealed or not, is the piece of that number with its hash. */
  lemma ReadsArePieces(
    sha: Hash, s: State, clock: int, open: Event, evs: seq<Event>, data: Bytes, pieces: seq<Bytes>, i: nat)
    requires Inv(sha, s, clock) && Timed(clock, [open] + evs)
    requires open.call.DoCreateTransfer? && Step(sha, s, open.call, open.now).reply.Opened?
    requires Splits(pieces, data, open.call.create.chunkSize) && |data| <= |pieces| * open.call.create.chunkSize
    requires NeverMints(evs, open.call.minted)
    requires var s1 := Step(sha, s, open.call, open.now).next;
             && HonestPuts(evs, Replies(sha, s1, evs), open.call.minted, data, open.call.create.chunkSize)
             && i < |evs| && ReadsChunk(evs[i].call, open.call.minted) && Replies(sha, s1, evs)[i].Chunk?
    ensures var r := Replies(sha, Step(sha, s, open.call, open.now).next, evs)[i];
            evs[i].call.index < |pieces| && r == Chunk(pieces[evs[i].call.index], sha(pieces[evs[i].call.index]))
  {
    var s1, size := Step(sha, s, open.call, open.now).next, open.call.create.chunkSize;
    assert ([open] + evs)[1..] == evs;
    StepKeeps(sha, s, open.call, clock, open.now);
    OpenedIsEmpty(sha, s, open.call, open.now);
    HonestReads(sha, s1, open.now, evs, open.call.minted, data, size, i);
    PieceNumber(size, evs[i].call.index, |pieces|, |data|);
  }

  lemma PieceNumber(size: nat, index: nat, count: nat, total: nat)
    requires index * size < total <= count * size
    ensures index < count
  {
    if count <= index {
      MulMono(count, index, size);
    }
  }

  // ---- an upload that keeps within its room and its deadline cannot fail ----

  /** The operation stores nothing that would be charged to `mid`, except perhaps in `tid`, and neither cancels `tid`
      nor seals it: an early attempt to seal, while chunks are missing, does no harm. */
  predicate Undisturbed(s: State, call: Call, tid: Id, mid: Id) {
    match call
    case DoSend(m, _) => m.mailboxID != mid
    case DoCreateTransfer(c, id, _) => c.mailboxID != mid && id != tid
    case DoPut(c) => c.transferID == tid || (c.transferID in s.transfers ==> !BoundTo(s.transfers[c.transferID], mid))
    case DoComplete(c) =>
      c.transferID == tid && tid in s.transfers ==> s.transfers[tid].presentCount != s.transfers[tid].chunkCount
    case DoCancel(id, _, _) => id != tid
    case _ => true
  }

  lemma UndisturbedShrinks(sha: Hash, s: State, call: Call, now: int, tid: Id, mid: Id)
    requires Inv(sha, s, now) && Undisturbed(s, call, tid, mid) && !PutOn(call, tid)
    ensures StoredBytes(Step(sha, s, call, now).next, mid) <= StoredBytes(s, mid)
  {
    ChargeShrinks(sha, s, call, now, mid);
  }

  // ---- the pieces fit ----

  /** A put as the client builds it from the splitter's pieces. */
  predicate ProperPut(sha: Hash, t: Transfer, c: ChunkUpload, data: Bytes) {
    && |c.transferID| == 16 && c.index < t.chunkCount && c.offset == c.index * t.chunkSize
    && IsPiece(data, t.chunkSize, c.index, c.payload)
    && (c.chunkHash == [] || c.chunkHash == sha(c.payload))
  }

  lemma PieceLength(total: int, size: int, count: int, i: int)
    requires Geometric(total, size, count) && 0 <= i < count
    ensures 0 <= i * size < total
    ensures Min(i * size + size, total) - i * size == ChunkLen(total, size, count, i)
  {
    ChunkLenBounds(total, size, count, i);
    MulMono(0, i, size);
    if i == count - 1 {
      Steps(count, size);
    } else {
      Steps(i, size);
    }
  }

  lemma PieceFits(t: Transfer, i: nat, data: Bytes)
    requires Geometric(t.totalSize, t.chunkSize, t.chunkCount) && |data| == t.totalSize && i < t.chunkCount
    ensures i * t.chunkSize < |data|
    ensures |Piece(data, t.chunkSize, i)| == ChunkLen(t.totalSize, t.chunkSize, t.chunkCount, i)
  {
    PieceLength(t.totalSize, t.chunkSize, t.chunkCount, i);
  }

  lemma ProperIsWellFormed(sha: Hash, t: Transfer, c: ChunkUpload, data: Bytes)
    requires Consistent(sha, t) && Open(t) && |data| == t.totalSize && ProperPut(sha, t, c, data)
    ensures CheckChunk(c).None? && ChunkRefusal(sha, t, c).None?
  {
    PieceFits(t, c.index, data);
    ChunkLenBounds(t.totalSize, t.chunkSize, t.chunkCount, c.index);
  }

  /** A chunk still missing fits into what is left of the file. */
  lemma MissingFits(sha: Hash, t: Transfer, c: ChunkUpload, data: Bytes)
    requires Consistent(sha, t) && |data| == t.totalSize && ProperPut(sha, t, c, data) && c.index !in t.chunks
    ensures t.storedBytes + |c.payload| <= t.totalSize
  {
    var more := t.chunks[c.index := c.payload];
    PieceFits(t, c.index, data);
    HeldBytesInsert(t.chunks, t.chunkCount, c.index, c.payload);
    assert WellSized(more, t.totalSize, t.chunkSize, t.chunkCount);
    HeldBytesTile(more, t.chunkCount, t.totalSize, t.chunkSize, t.chunkCount);
  }

  /** The mailbox has room for everything the transfer has not stored yet. */
  ghost predicate Room(s: State, t: Transfer) {
    t.hasMailbox ==> StoredBytes(s, t.mailboxID) + t.totalSize - t.storedBytes <= MAX_STORED_BYTES
  }

  /** An upload of `data` under way. */
  ghost predicate Underway(s: State, tid: Id, data: Bytes) {
    && tid in s.transfers
    && Open(s.transfers[tid]) && s.transfers[tid].totalSize == |data|
    && HoldsPieces(s.transfers[tid], data) && Room(s, s.transfers[tid])
  }

  lemma ProperJudged(sha: Hash, s: State, t: Transfer, c: ChunkUpload, data: Bytes)
    requires Consistent(sha, t) && Open(t) && |data| == t.totalSize && ProperPut(sha, t, c, data)
    requires HoldsPieces(t, data) && Room(s, t)
    ensures Judge(sha, t, c, StoredBytes(s, t.mailboxID)) == if c.index in t.chunks then Repeat else Accept
  {
    ProperIsWellFormed(sha, t, c, data);
    if c.index !in t.chunks {
      MissingFits(sha, t, c, data);
    }
  }

  lemma AcceptedUnderway(sha: Hash, s: State, c: ChunkUpload, now: int, tid: Id, data: Bytes)
    requires tid in s.transfers && Consistent(sha, s.transfers[tid]) && Underway(s, tid, data)
    requires ProperPut(sha, s.transfers[tid], c, data) && c.index !in s.transfers[tid].chunks
    ensures var t' := WithChunk(sha, s.transfers[tid], c, now);
            Underway(SlideOwner(SetTransfer(s, tid, t'), t', now), tid, data)
  {
    var t := s.transfers[tid];
    ProperIsWellFormed(sha, t, c, data);
    WithChunkConsistent(sha, t, c, now);
    if t.hasMailbox {
      AcceptedCharge(s, tid, WithChunk(sha, t, c, now), now);
    }
  }

  lemma ProperPutOutcome(sha: Hash, s: State, c: ChunkUpload, now: int, tid: Id, data: Bytes)
    requires tid in s.transfers && Consistent(sha, s.transfers[tid]) && Underway(s, tid, data) &&
             now < s.transfers[tid].expiresAt
    requires c.transferID == tid && ProperPut(sha, s.transfers[tid], c, data)
    ensures var t := s.transfers[tid];
            if c.index in t.chunks then PutStep(sha, s, c, now) == Outcome(s, Stored(t.presentCount))
            else var t' := WithChunk(sha, t, c, now);
                 PutStep(sha, s, c, now) ==
                   Outcome(SlideOwner(SetTransfer(s, tid, t'), t', now), Stored(t'.presentCount))
  {
    ProperIsWellFormed(sha, s.transfers[tid], c, data);
    ProperJudged(sha, s, s.transfers[tid], c, data);
  }

  /** A proper put on time is stored, and the upload goes on. */
  lemma ProperPutAccepted(sha: Hash, s: State, c: ChunkUpload, now: int, tid: Id, data: Bytes)
    requires Inv(sha, s, now) && Underway(s, tid, data) && now < s.transfers[tid].expiresAt
    requires c.transferID == tid && ProperPut(sha, s.transfers[tid], c, data)
    ensures PutStep(sha, s, c, now).reply.Stored?
    ensures Underway(PutStep(sha, s, c, now).next, tid, data)
    ensures var t, t' := s.transfers[tid], PutStep(sha, s, c, now).next.transfers[tid];
            t' == if c.index in t.chunks then t else WithChunk(sha, t, c, now)
  {
    assert TransferOk(sha, s.transfers[tid], now);
    ProperPutOutcome(sha, s, c, now, tid, data);
    if c.index !in s.transfers[tid].chunks {
      AcceptedUnderway(sha, s, c, now, tid, data);
    }
  }

  /** Any other operation, before the deadline, leaves the upload as it was. */
  lemma OtherLeavesUnderway(sha: Hash, s: State, call: Call, now: int, tid: Id, data: Bytes)
    requires Inv(sha, s, now) && Underway(s, tid, data) && now < s.transfers[tid].expiresAt
    requires Undisturbed(s, call, tid, s.transfers[tid].mailboxID) && !PutOn(call, tid)
    ensures Underway(Step(sha, s, call, now).next, tid, data)
    ensures Step(sha, s, call, now).next.transfers[tid] == s.transfers[tid]
  {
    OtherLeavesRecord(sha, s, call, now, tid);
    UndisturbedShrinks(sha, s, call, now, tid, s.transfers[tid].mailboxID);
  }

  lemma OtherLeavesRecord(sha: Hash, s: State, call: Call, now: int, tid: Id)
    requires tid in s.transfers && now < s.transfers[tid].expiresAt
    requires Undisturbed(s, call, tid, s.transfers[tid].mailboxID) && !PutOn(call, tid)
    ensures var ts := Step(sha, s, call, now).next.transfers;
            tid in ts && ts[tid] == s.transfers[tid]
  {
    StepMoves(sha, s, call, now, tid);
    UntouchedStays(sha, s, Step(sha, s, call, now).next.transfers, call, now, tid);
  }

  lemma UntouchedStays(sha: Hash, s: State, ts: map<Id, Transfer>, call: Call, now: int, tid: Id)
    requires tid in s.transfers && now < s.transfers[tid].expiresAt && StepOn(sha, s.transfers, ts, tid, call, now)
    requires Undisturbed(s, call, tid, s.transfers[tid].mailboxID) && !PutOn(call, tid)
    ensures tid in ts && ts[tid] == s.transfers[tid]
  {
  }

  // ---- whole uploads ----

  /** The chunks a run has put, and the deadline they leave: 24 hours from the last new chunk, at most seven days
      from the creation. */
  function SeenAfter(evs: seq<Event>, tid: Id, seen: set<nat>): set<nat> {
    if evs == [] then seen
    else SeenAfter(evs[1..], tid, if PutOn(evs[0].call, tid) then seen + {evs[0].call.chunk.index} else seen)
  }

  function NextDeadline(e: Event, tid: Id, seen: set<nat>, deadline: int, created: int): int {
    if PutOn(e.call, tid) && e.call.chunk.index !in seen then Min(e.now + UPLOAD_TTL, created + UPLOAD_TTL_MAX)
    else deadline
  }

  function DeadlineAfter(evs: seq<Event>, tid: Id, seen: set<nat>, deadline: int, created: int): int
    decreases |evs|
  {
    if evs == [] then deadline
    else
      var seen' := if PutOn(evs[0].call, tid) then seen + {evs[0].call.chunk.index} else seen;
      DeadlineAfter(evs[1..], tid, seen', NextDeadline(evs[0], tid, seen, deadline, created), created)
  }

  /** Nothing in the run happens after the deadline that the puts before it have left. */
  predicate OnTime(evs: seq<Event>, tid: Id, seen: set<nat>, deadline: int, created: int)
    decreases |evs|
  {
    if evs == [] then true
    else
      var seen' := if PutOn(evs[0].call, tid) then seen + {evs[0].call.chunk.index} else seen;
      evs[0].now < deadline && OnTime(evs[1..], tid, seen', NextDeadline(evs[0], tid, seen, deadline, created), created)
  }

  ghost predicate UndisturbedRun(sha: Hash, s: State, evs: seq<Event>, tid: Id, mid: Id)
    decreases |evs|
  {
    if evs == [] then true
    else Undisturbed(s, evs[0].call, tid, mid)
         && UndisturbedRun(sha, Step(sha, s, evs[0].call, evs[0].now).next, evs[1..], tid, mid)
  }

  predicate ProperPuts(sha: Hash, evs: seq<Event>, tid: Id, t: Transfer, data: Bytes) {
    forall e <- evs :: PutOn(e.call, tid) ==> ProperPut(sha, t, e.call.chunk, data)
  }

  lemma UploadStep(sha: Hash, s: State, clock: int, e: Event, tid: Id, data: Bytes)
    requires Inv(sha, s, clock) && Underway(s, tid, data) && clock <= e.now < s.transfers[tid].expiresAt
    requires Undisturbed(s, e.call, tid, s.transfers[tid].mailboxID)
    requires PutOn(e.call, tid) ==> ProperPut(sha, s.transfers[tid], e.call.chunk, data)
    ensures var o, t := Step(sha, s, e.call, e.now), s.transfers[tid];
            && Underway(o.next, tid, data)
            && (PutOn(e.call, tid) ==> o.reply.Stored?)
            && (if PutOn(e.call, tid) && e.call.chunk.index !in t.chunks
                then o.next.transfers[tid] == WithChunk(sha, t, e.call.chunk, e.now)
                else o.next.transfers[tid] == t)
  {
    InvLater(sha, s, clock, e.now);
    if PutOn(e.call, tid) {
      ProperPutAccepted(sha, s, e.call.chunk, e.now, tid, data);
    } else {
      OtherLeavesUnderway(sha, s, e.call, e.now, tid, data);
    }
  }

  ghost predicate PutsStored(evs: seq<Event>, rs: seq<Reply>, tid: Id)
    requires |evs| == |rs|
  {
    forall i :: 0 <= i < |evs| && PutOn(evs[i].call, tid) ==> rs[i].Stored?
  }

  lemma PutsStoredCons(e: Event, r: Reply, evs: seq<Event>, rs: seq<Reply>, tid: Id)
    requires |evs| == |rs| && PutsStored(evs, rs, tid) && (PutOn(e.call, tid) ==> r.Stored?)
    ensures PutsStored([e] + evs, [r] + rs, tid)
  {
  }

  /** What the record looks like once the run's puts are in. */
  ghost predicate Uploaded(t: Transfer, t': Transfer, evs: seq<Event>, tid: Id) {
    && t'.chunkCount == t.chunkCount
    && t'.chunks.Keys == SeenAfter(evs, tid, t.chunks.Keys)
    && t'.expiresAt == DeadlineAfter(evs, tid, t.chunks.Keys, t.expiresAt, t.createdAt)
  }

  /** A run in which the transfer is neither sealed nor cancelled, nothing else is stored in its mailbox, what is put is
      the pieces, and nothing comes late. */
  ghost predicate Diligent(sha: Hash, s: State, evs: seq<Event>, tid: Id, t: Transfer, data: Bytes) {
    && UndisturbedRun(sha, s, evs, tid, t.mailboxID) && ProperPuts(sha, evs, tid, t, data)
    && OnTime(evs, tid, t.chunks.Keys, t.expiresAt, t.createdAt)
  }

  lemma DiligentStep(sha: Hash, s: State, clock: int, evs: seq<Event>, tid: Id, data: Bytes)
    requires evs != [] && Inv(sha, s, clock) && clock <= evs[0].now && Underway(s, tid, data)
    requires Diligent(sha, s, evs, tid, s.transfers[tid], data)
    ensures var o := Step(sha, s, evs[0].call, evs[0].now);
            && Underway(o.next, tid, data) && Diligent(sha, o.next, evs[1..], tid, o.next.transfers[tid], data)
            && (PutOn(evs[0].call, tid) ==> o.reply.Stored?)
            && forall last: Transfer :: Uploaded(o.next.transfers[tid], last, evs[1..], tid) ==>
               Uploaded(s.transfers[tid], last, evs, tid)
  {
    var e := evs[0];
    assert e in evs;
    UploadStep(sha, s, clock, e, tid, data);
    SeenStep(sha, s.transfers[tid], Step(sha, s, e.call, e.now).next.transfers[tid], e, evs, tid, data);
  }

  /** Every put was stored, and the record ended up with exactly the chunks that were put. */
  ghost predicate Succeeds(s: State, last: State, evs: seq<Event>, rs: seq<Reply>, tid: Id, data: Bytes) {
    && |rs| == |evs| && PutsStored(evs, rs, tid)
    && tid in s.transfers && Underway(last, tid, data)
    && Uploaded(s.transfers[tid], last.transfers[tid], evs, tid)
  }

  lemma SucceedsCons(s: State, o: Outcome, last: State, evs: seq<Event>, rs: seq<Reply>, tid: Id, data: Bytes)
    requires evs != [] && tid in s.transfers && tid in o.next.transfers
    requires PutOn(evs[0].call, tid) ==> o.reply.Stored?
    requires forall t: Transfer :: Uploaded(o.next.transfers[tid], t, evs[1..], tid) ==>
             Uploaded(s.transfers[tid], t, evs, tid)
    requires Succeeds(o.next, last, evs[1..], rs, tid, data)
    ensures Succeeds(s, last, evs, [o.reply] + rs, tid, data)
  {
    PutsStoredCons(evs[0], o.reply, evs[1..], rs, tid);
    assert evs == [evs[0]] + evs[1..];
  }

  /** If the mailbox has room for the file, nothing else is stored in it, the transfer is neither sealed nor cancelled,
      and nothing comes late, then every put of a piece is accepted, in any order and however often repeated, and
      the record ends up with exactly the chunks that were put. */
  lemma {:induction false} UploadCannotFail(sha: Hash, s: State, clock: int, evs: seq<Event>, tid: Id, data: Bytes)
    requires Inv(sha, s, clock) && Timed(clock, evs) && Underway(s, tid, data)
    requires Diligent(sha, s, evs, tid, s.transfers[tid], data)
    ensures Succeeds(s, After(sha, s, evs), evs, Replies(sha, s, evs), tid, data)
    decreases |evs|
  {
    if evs != [] {
      var o := Step(sha, s, evs[0].call, evs[0].now);
      DiligentStep(sha, s, clock, evs, tid, data);
      StepKeeps(sha, s, evs[0].call, clock, evs[0].now);
      UploadCannotFail(sha, o.next, evs[0].now, evs[1..], tid, data);
      SucceedsCons(s, o, After(sha, o.next, evs[1..]), evs, Replies(sha, o.next, evs[1..]), tid, data);
    }
  }

  lemma SeenStep(sha: Hash, t: Transfer, t': Transfer, e: Event, evs: seq<Event>, tid: Id, data: Bytes)
    requires ProperPuts(sha, evs, tid, t, data) && evs != [] && e == evs[0]
    requires OnTime(evs, tid, t.chunks.Keys, t.expiresAt, t.createdAt)
    requires if PutOn(e.call, tid) && e.call.chunk.index !in t.chunks
             then e.call.chunk.index < t.chunkCount && t' == WithChunk(sha, t, e.call.chunk, e.now)
             else t' == t
    ensures t'.mailboxID == t.mailboxID && ProperPuts(sha, evs[1..], tid, t', data)
    ensures OnTime(evs[1..], tid, t'.chunks.Keys, t'.expiresAt, t'.createdAt)
    ensures forall last: Transfer :: Uploaded(t', last, evs[1..], tid) ==> Uploaded(t, last, evs, tid)
  {
    var seen := if PutOn(e.call, tid) then t.chunks.Keys + {e.call.chunk.index} else t.chunks.Keys;
    assert t'.chunks.Keys == seen;
    assert t'.expiresAt == NextDeadline(e, tid, t.chunks.Keys, t.expiresAt, t.createdAt);
  }

  predicate IsSealed(s: State, tid: Id) { tid in s.transfers && s.transfers[tid].phase == Complete }

  /** Once every index has been put, a seal on time succeeds. */
  lemma SealSucceeds(sha: Hash, s: State, clock: int, tid: Id, data: Bytes, c: TransferComplete, now: int)
    requires Inv(sha, s, clock) && Underway(s, tid, data) && clock <= now < s.transfers[tid].expiresAt
    requires CheckComplete(c).None? && c.transferID == tid
    requires forall i: nat :: i < s.transfers[tid].chunkCount ==> i in s.transfers[tid].chunks
    ensures CompleteStep(s, c, now).reply == Sealed(s.transfers[tid].chunkCount, s.transfers[tid].chunkCount)
    ensures IsSealed(CompleteStep(s, c, now).next, tid)
  {
    assert TransferOk(sha, s.transfers[tid], clock);
    CountTrueFull(s.transfers[tid].present);
  }

  /** Opening a transfer for a file whose bytes and manifest fit into the mailbox starts such an upload. */
  lemma OpeningIsUnderway(sha: Hash, s: State, clock: int, call: Call, now: int, data: Bytes)
    requires Inv(sha, s, clock) && clock <= now && call.DoCreateTransfer? && Step(sha, s, call, now).reply.Opened?
    requires call.minted !in s.transfers && call.create.totalSize == |data|
    requires |call.create.mailboxID| == 16 ==>
               StoredBytes(s, call.create.mailboxID) + |data| + |call.create.manifest| <= MAX_STORED_BYTES
    ensures Underway(Step(sha, s, call, now).next, call.minted, data)
  {
    OpenedIsEmpty(sha, s, call, now);
    var t := NewTransfer(sha, call.create, call.ticket.value, now);
    if t.hasMailbox {
      TotalUpdate(s.transfers, call.minted, t, ChargeOf(t.mailboxID));
    }
  }

  /** The whole upload: open, put every piece at least once, seal. Given room in the mailbox, no other storing there and
      no delay, every put is accepted and the seal succeeds. */
  lemma UploadSucceeds(
    sha: Hash, s: State, clock: int, open: Event, evs: seq<Event>, seal: TransferComplete, sealAt: int, data: Bytes)
    requires Inv(sha, s, clock) && clock <= open.now && Timed(open.now, evs) && ClockAfter(open.now, evs) <= sealAt
    requires open.call.DoCreateTransfer? && Step(sha, s, open.call, open.now).reply.Opened?
    requires open.call.minted !in s.transfers && open.call.create.totalSize == |data|
    requires |open.call.create.mailboxID| == 16 ==>
               StoredBytes(s, open.call.create.mailboxID) + |data| + |open.call.create.manifest| <= MAX_STORED_BYTES
    requires var tid, t := open.call.minted, NewTransfer(sha, open.call.create, open.call.ticket.value, open.now);
             var s1 := Step(sha, s, open.call, open.now).next;
             && UndisturbedRun(sha, s1, evs, tid, t.mailboxID) && ProperPuts(sha, evs, tid, t, data)
             && OnTime(evs, tid, {}, open.now + UPLOAD_TTL, open.now)
             && sealAt < DeadlineAfter(evs, tid, {}, open.now + UPLOAD_TTL, open.now)
             && (forall i: nat :: i < t.chunkCount ==> i in SeenAfter(evs, tid, {}))
             && CheckComplete(seal).None? && seal.transferID == tid
    ensures var s1 := Step(sha, s, open.call, open.now).next;
            && PutsStored(evs, Replies(sha, s1, evs), open.call.minted)
            && CompleteStep(After(sha, s1, evs), seal, sealAt).reply.Sealed?
  {
    var tid, s1 := open.call.minted, Step(sha, s, open.call, open.now).next;
    OpenedIsEmpty(sha, s, open.call, open.now);
    OpeningIsUnderway(sha, s, clock, open.call, open.now, data);
    StepKeeps(sha, s, open.call, clock, open.now);
    assert s1.transfers[tid].chunks.Keys == {};
    UploadCannotFail(sha, s1, open.now, evs, tid, data);
    RunKeeps(sha, s1, open.now, evs);
    SealSucceeds(sha, After(sha, s1, evs), ClockAfter(open.now, evs), tid, data, seal, sealAt);
  }
}
