/** The shard's state and, for every public operation of the store, the state and reply it leads to.
    The clock read, the minted identifier and the random ticket of an operation are parameters. */
module Shard {
  import opened Octets
  import opened Limits
  import opened Collections
  import opened Geometry
  import opened Resume

  // ---- requests ----

  datatype SendMessage = SendMessage(
    mailboxID: Bytes, envelope: Bytes, senderPub: Bytes, timestamp: U64, nonce: Bytes, signature: Bytes)

  datatype TransferCreate = TransferCreate(
    mailboxID: Bytes, totalSize: U64, chunkSize: U32, chunkCount: U32, manifest: Bytes,
    senderPub: Bytes, timestamp: U64, nonce: Bytes, signature: Bytes)

  datatype ChunkUpload = ChunkUpload(
    transferID: Bytes, index: U32, payload: Bytes, chunkHash: Bytes, offset: U64)

  datatype TransferComplete = TransferComplete(
    transferID: Bytes, manifestHash: Bytes, mailboxID: Bytes,
    senderPub: Bytes, timestamp: U64, nonce: Bytes, signature: Bytes)

  function CheckSend(m: SendMessage): (e: Option<ErrorCode>) {
    if |m.mailboxID| != 16 then Some(InvalidRequest)
    else if |m.envelope| == 0 || |m.envelope| > MAX_MESSAGE_BYTES then Some(MessageTooLarge)
    else if |m.senderPub| != 32 then Some(AuthFailed)
    else if |m.nonce| != 16 then Some(InvalidRequest)
    else if |m.signature| != 64 then Some(AuthFailed)
    else None
  }

  function CheckCreate(t: TransferCreate): (e: Option<ErrorCode>) {
    if |t.mailboxID| != 0 && |t.mailboxID| != 16 then Some(InvalidRequest)
    else
      var g := ValidateTransferCreate(t.totalSize, t.chunkSize, t.chunkCount);
      if g.Some? then g
      else if |t.manifest| > MAX_MANIFEST_BYTES then Some(PayloadTooLarge)
      else if |t.senderPub| != 32 then Some(AuthFailed)
      else if |t.nonce| != 16 then Some(InvalidRequest)
      else if |t.signature| != 64 then Some(AuthFailed)
      else None
  }

  function CheckChunk(c: ChunkUpload): (e: Option<ErrorCode>) {
    if |c.transferID| != 16 then Some(InvalidRequest)
    else if |c.payload| == 0 || |c.payload| > MAX_CHUNK_BYTES then Some(ChunkInvalid)
    else if |c.chunkHash| != 0 && |c.chunkHash| != 32 then Some(ChunkInvalid)
    else if c.index >= MAX_CHUNKS then Some(ChunkOutOfRange)
    else None
  }

  function CheckComplete(t: TransferComplete): (e: Option<ErrorCode>) {
    if |t.transferID| != 16 || |t.manifestHash| != 32 || |t.senderPub| != 32 || |t.nonce| != 16 || |t.signature| != 64
    then Some(InvalidRequest)
    else if |t.mailboxID| != 0 && |t.mailboxID| != 16 then Some(InvalidRequest)
    else None
  }

  // ---- state ----

  datatype Message = Message(id: Id, envelope: Bytes, senderPub: Bytes, enqueuedAt: int, expiresAt: int)

  datatype Mailbox = Mailbox(secretHash: Digest, messages: seq<Message>, expiresAt: int, storedBytes: int)

  datatype Phase = Created | Uploading | Complete | Cancelled | Expired

  datatype TransferData = TransferData(
    mailboxID: Id, hasMailbox: bool, ticketHash: Digest,
    totalSize: nat, chunkSize: nat, chunkCount: U32, manifest: Bytes, senderPub: Bytes,
    phase: Phase, present: seq<bool>, chunks: map<nat, Bytes>, hashes: map<nat, Digest>,
    presentCount: nat, highest: nat, createdAt: int, expiresAt: int, storedBytes: int)

  /** The list of flags is allocated with one entry per chunk and never resized. */
  type Transfer = t: TransferData | |t.present| == t.chunkCount
    witness TransferData(seq(16, _ => 0), false, seq(32, _ => 0), 0, 0, 0, [], [], Created, [], map[], map[], 0, 0, 0,
                         0, 0)

  datatype State = State(
    mailboxes: map<Id, Mailbox>, transfers: map<Id, Transfer>, replay: map<Digest, int>)

  const NO_MAILBOX: Id := [0, 0, 0, 0, 0, 0, 0, 0, 0, 0, 0, 0, 0, 0, 0, 0]

  const EMPTY := State(map[], map[], map[])

  // ---- replies ----

  datatype TransferView = TransferView(
    id: Id, mailboxID: Id, hasMailbox: bool, totalSize: nat, chunkSize: nat, chunkCount: nat,
    manifest: Bytes, senderPub: Bytes, phase: Phase, presentCount: nat, highest: nat,
    createdAt: int, expiresAt: int)

  datatype Encoding = AsBitmap | AsRanges

  datatype ResumeView = ResumeView(
    chunkCount: nat, highest: nat, encoding: Encoding, bitmap: Bytes, ranges: seq<Range>)

  datatype Reply =
    | Err(code: ErrorCode)
    | Registered(created: bool)
    | Answer(yes: bool)
    | Sent(id: Id, queued: nat)
    | Batch(messages: seq<Message>, consumed: bool)
    | Acked(acked: nat, remaining: nat)
    | Opened(transferID: Id, ticket: Digest, expiresAt: int)
    | Stored(present: nat)
    | Chunk(payload: Bytes, hash: Digest)
    | View(resume: ResumeView, transfer: TransferView)
    | Sealed(present: nat, count: nat)
    | Unsealed(present: nat, count: nat, code: ErrorCode)
    | Snapshot(transfer: TransferView)
    | Done
    | Swept(droppedMessages: int, droppedTransfers: int, droppedMailboxes: int)

  datatype Outcome = Outcome(next: State, reply: Reply)

  // ---- mailboxes ----

  predicate SecretMatches(sha: Hash, stored: Digest, provided: Bytes) {
    |provided| == 32 && sha(provided) == stored
  }

  predicate LiveMailbox(mbs: map<Id, Mailbox>, mid: Bytes, now: int) {
    mid in mbs && now < mbs[mid].expiresAt
  }

  function Unexpired(now: int): Message -> bool { (m: Message) => now < m.expiresAt }

  function Lapsed(now: int): Message -> bool { (m: Message) => now >= m.expiresAt }

  function NotAmong(ids: set<Bytes>): Message -> bool { (m: Message) => m.id !in ids }

  function SumBytes(ms: seq<Message>): nat {
    if ms == [] then 0 else SumBytes(ms[..|ms| - 1]) + |ms[|ms| - 1].envelope|
  }

  function WithQueue(mb: Mailbox, ms: seq<Message>): Mailbox {
    mb.(messages := ms, storedBytes := SumBytes(ms))
  }

  function Enqueue(mb: Mailbox, m: Message): Mailbox { WithQueue(mb, mb.messages + [m]) }

  /** The mailbox without its expired messages. */
  function Prune(mb: Mailbox, now: int): Mailbox {
    WithQueue(mb, Filter(mb.messages, Unexpired(now)))
  }

  function Slide(mb: Mailbox, now: int): Mailbox { mb.(expiresAt := now + MAILBOX_TTL) }

  function SetMailbox(s: State, mid: Id, mb: Mailbox): State { s.(mailboxes := s.mailboxes[mid := mb]) }

  /** The message plane reads and writes the mailboxes only. */
  datatype MailOutcome = MailOutcome(mailboxes: map<Id, Mailbox>, reply: Reply)

  function Lift(s: State, m: MailOutcome): Outcome { Outcome(s.(mailboxes := m.mailboxes), m.reply) }

  function Register(mbs: map<Id, Mailbox>, mid: Id, secretHash: Digest, now: int): MailOutcome {
    if mid in mbs then
      MailOutcome(mbs[mid := Slide(mbs[mid].(secretHash := secretHash), now)], Registered(false))
    else
      MailOutcome(mbs[mid := Mailbox(secretHash, [], now + MAILBOX_TTL, 0)], Registered(true))
  }

  /** The secret check does not look at the clock. */
  predicate SecretOpens(sha: Hash, mbs: map<Id, Mailbox>, mid: Id, secret: Bytes) {
    mid in mbs && SecretMatches(sha, mbs[mid].secretHash, secret)
  }

  // ---- messages ----

  function Send(mbs: map<Id, Mailbox>, m: SendMessage, id: Id, now: int): MailOutcome {
    if CheckSend(m).Some? then MailOutcome(mbs, Err(CheckSend(m).value))
    else if !LiveMailbox(mbs, m.mailboxID, now) then MailOutcome(mbs, Err(MailboxNotFound))
    else
      var mb := Prune(mbs[m.mailboxID], now);
      if |mb.messages| >= MAX_QUEUED then MailOutcome(mbs[m.mailboxID := mb], Err(QuotaExceeded))
      else if mb.storedBytes + |m.envelope| > MAX_STORED_BYTES then
        MailOutcome(mbs[m.mailboxID := mb], Err(QuotaExceeded))
      else
        var mb' := Enqueue(mb, Message(id, m.envelope, m.senderPub, now, now + MSG_TTL));
        MailOutcome(mbs[m.mailboxID := Slide(mb', now)], Sent(id, |mb'.messages|))
  }

  function BatchLimit(limit: int): nat { if limit <= 0 || limit > MAX_BATCH then MAX_BATCH else limit }

  function Receive(
    sha: Hash, mbs: map<Id, Mailbox>, mid: Id, secret: Bytes, limit: int, peek: bool, now: int): MailOutcome {
    if !LiveMailbox(mbs, mid, now) then MailOutcome(mbs, Err(MailboxNotFound))
    else if !SecretMatches(sha, mbs[mid].secretHash, secret) then MailOutcome(mbs, Err(AuthFailed))
    else
      var mb := Prune(mbs[mid], now);
      var n := Min(BatchLimit(limit), |mb.messages|);
      var left := if peek then mb.messages else mb.messages[n..];
      MailOutcome(mbs[mid := Slide(WithQueue(mb, left), now)], Batch(mb.messages[..n], !peek))
  }

  datatype Disposition = Received | Consumed | Unknown(code: Byte)

  predicate WellFormedIds(ids: seq<Bytes>) { forall raw <- ids :: |raw| == 16 }

  function IdSet(ids: seq<Bytes>): set<Bytes> { set raw <- ids }

  /** A malformed id is noticed only after the expired messages have been dropped. */
  function Ack(
    sha: Hash, mbs: map<Id, Mailbox>, mid: Id, secret: Bytes, ids: seq<Bytes>, d: Disposition, now: int
  ): MailOutcome
  {
    if d.Unknown? then MailOutcome(mbs, Err(InvalidRequest))
    else if |ids| == 0 || |ids| > MAX_BATCH then MailOutcome(mbs, Err(InvalidRequest))
    else if !LiveMailbox(mbs, mid, now) then MailOutcome(mbs, Err(MailboxNotFound))
    else if !SecretMatches(sha, mbs[mid].secretHash, secret) then MailOutcome(mbs, Err(AuthFailed))
    else
      var mb := Prune(mbs[mid], now);
      if !WellFormedIds(ids) then MailOutcome(mbs[mid := mb], Err(InvalidRequest))
      else
        var left := Filter(mb.messages, NotAmong(IdSet(ids)));
        var queue := if d.Consumed? then left else mb.messages;
        MailOutcome(mbs[mid := Slide(WithQueue(mb, queue), now)], Acked(|mb.messages| - |left|, |queue|))
  }

  // ---- transfers ----

  predicate BoundTo(t: Transfer, mid: Id) { t.hasMailbox && t.mailboxID == mid }

  predicate Open(t: Transfer) { t.phase == Created || t.phase == Uploading }

  function ActiveOf(mid: Id, now: int): Transfer -> int {
    (t: Transfer) => if BoundTo(t, mid) && Open(t) && now < t.expiresAt then 1 else 0
  }

  function ChargeOf(mid: Id): Transfer -> int {
    (t: Transfer) => if BoundTo(t, mid) then t.storedBytes + |t.manifest| else 0
  }

  /** Transfers of a mailbox that still accept chunks. */
  ghost function ActiveTransfers(s: State, mid: Id, now: int): int {
    Total(s.transfers, ActiveOf(mid, now))
  }

  /** What the quota counts: queued envelopes, stored chunks and manifests, expired or not. */
  ghost function StoredBytes(s: State, mid: Id): int {
    (if mid in s.mailboxes then s.mailboxes[mid].storedBytes else 0) + Total(s.transfers, ChargeOf(mid))
  }

  function SetTransfer(s: State, tid: Id, t: Transfer): State { s.(transfers := s.transfers[tid := t]) }

  /** Slides the mailbox of a transfer, if it has one and it is there. */
  function Slid(mbs: map<Id, Mailbox>, t: Transfer, now: int): map<Id, Mailbox> {
    if t.hasMailbox && t.mailboxID in mbs then mbs[t.mailboxID := Slide(mbs[t.mailboxID], now)] else mbs
  }

  function SlideOwner(s: State, t: Transfer, now: int): State { s.(mailboxes := Slid(s.mailboxes, t, now)) }

  function NewTransfer(sha: Hash, t: TransferCreate, ticket: Digest, now: int): Transfer {
    TransferData(
      if |t.mailboxID| == 16 then t.mailboxID else NO_MAILBOX, |t.mailboxID| == 16, sha(ticket),
      t.totalSize, t.chunkSize, t.chunkCount, t.manifest, t.senderPub,
      Created, seq(t.chunkCount, _ => false), map[], map[], 0, 0, now, now + UPLOAD_TTL, 0)
  }

  /** Why a well-formed creation is refused, given what the mailbox already has. */
  function CreateRefusal(
    mbs: map<Id, Mailbox>, t: TransferCreate, active: int, stored: int, ticket: Option<Digest>, now: int
  ): Option<ErrorCode>
  {
    if |t.mailboxID| == 16 && !LiveMailbox(mbs, t.mailboxID, now) then Some(MailboxNotFound)
    else if |t.mailboxID| == 16 && active >= MAX_ACTIVE_TRANSFERS then Some(QuotaExceeded)
    else if |t.mailboxID| == 16 && stored + t.totalSize > MAX_STORED_BYTES then Some(QuotaExceeded)
    else if ticket.None? then Some(StorageUnavailable)
    else None
  }

  ghost function CreateTransferStep(
    sha: Hash, s: State, t: TransferCreate, id: Id, ticket: Option<Digest>, now: int): (o: Outcome)
    ensures o.next.replay == s.replay
  {
    if CheckCreate(t).Some? then Outcome(s, Err(CheckCreate(t).value))
    else
      var mid: Id := if |t.mailboxID| == 16 then t.mailboxID else NO_MAILBOX;
      var e := CreateRefusal(s.mailboxes, t, ActiveTransfers(s, mid, now), StoredBytes(s, mid), ticket, now);
      if e.Some? then Outcome(s, Err(e.value))
      else
        var tr := NewTransfer(sha, t, ticket.value, now);
        Outcome(SlideOwner(SetTransfer(s, id, tr), tr, now), Opened(id, ticket.value, now + UPLOAD_TTL))
  }

  /** Past its deadline and never sealed. */
  predicate Dead(t: Transfer, now: int) { now >= t.expiresAt && t.phase != Complete }

  /** Looking a dead transfer up marks it. */
  function Mark(s: State, tid: Bytes, now: int): State {
    if |tid| == 16 && tid in s.transfers && Dead(s.transfers[tid], now)
    then SetTransfer(s, tid, s.transfers[tid].(phase := Expired))
    else s
  }

  predicate Found(s: State, tid: Bytes, now: int) { tid in s.transfers && !Dead(s.transfers[tid], now) }

  function Absent(s: State, tid: Bytes, now: int): Outcome {
    Outcome(Mark(s, tid, now), Err(if tid in s.transfers then TransferExpired else TransferNotFound))
  }

  /** Why a chunk is refused before the store looks at what it already holds. */
  function ChunkRefusal(sha: Hash, t: Transfer, c: ChunkUpload): Option<ErrorCode> {
    if t.phase == Complete || t.phase == Cancelled then Some(TransferConflict)
    else if c.index >= t.chunkCount then Some(ChunkOutOfRange)
    else if c.offset != c.index * t.chunkSize then Some(ChunkInvalid)
    else if c.index != t.chunkCount - 1 && |c.payload| != t.chunkSize then Some(ChunkInvalid)
    else if c.index == t.chunkCount - 1 && |c.payload| != (t.totalSize - c.index * t.chunkSize) % TWO_64 then
      Some(ChunkInvalid)
    else if |c.chunkHash| == 32 && sha(c.payload) != c.chunkHash then Some(HashMismatch)
    else None
  }

  /** The transfer after a chunk it did not hold. */
  function WithChunk(sha: Hash, t: Transfer, c: ChunkUpload, now: int): Transfer
    requires c.index < t.chunkCount
  {
    var isNew := !t.present[c.index];
    var present := t.present[c.index := true];
    t.(chunks := t.chunks[c.index := c.payload],
       hashes := t.hashes[c.index := if |c.chunkHash| == 32 then c.chunkHash else sha(c.payload)],
       present := present,
       presentCount := if isNew then t.presentCount + 1 else t.presentCount,
       storedBytes := if isNew then t.storedBytes + |c.payload| else t.storedBytes,
       phase := if t.phase == Created then Uploading else t.phase,
       expiresAt := Min(now + UPLOAD_TTL, t.createdAt + UPLOAD_TTL_MAX),
       highest := PrefixFrom(present, 0))
  }

  datatype Verdict = Refuse(code: ErrorCode) | Repeat | Accept

  /** The store's decision on a chunk, given what the mailbox is already charged. */
  function Judge(sha: Hash, t: Transfer, c: ChunkUpload, stored: int): (v: Verdict)
    ensures v.Accept? ==> c.index < t.chunkCount && c.index !in t.chunks
  {
    if ChunkRefusal(sha, t, c).Some? then Refuse(ChunkRefusal(sha, t, c).value)
    else if c.index in t.chunks then
      if |t.chunks[c.index]| == |c.payload| && sha(t.chunks[c.index]) == sha(c.payload) then Repeat
      else Refuse(ChunkConflict)
    else if t.hasMailbox && stored + |c.payload| > MAX_STORED_BYTES then Refuse(QuotaExceeded)
    else Accept
  }

  ghost function PutStep(sha: Hash, s: State, c: ChunkUpload, now: int): (o: Outcome)
    ensures o.next.replay == s.replay
  {
    if CheckChunk(c).Some? then Outcome(s, Err(CheckChunk(c).value))
    else if !Found(s, c.transferID, now) then Absent(s, c.transferID, now)
    else
      var t := s.transfers[c.transferID];
      match Judge(sha, t, c, StoredBytes(s, t.mailboxID))
      case Refuse(e) => Outcome(s, Err(e))
      case Repeat => Outcome(s, Stored(t.presentCount))
      case Accept =>
        var t' := WithChunk(sha, t, c, now);
        Outcome(SlideOwner(SetTransfer(s, c.transferID, t'), t', now), Stored(t'.presentCount))
  }

  function ViewOf(t: Transfer, tid: Id): TransferView {
    TransferView(tid, t.mailboxID, t.hasMailbox, t.totalSize, t.chunkSize, t.chunkCount, t.manifest, t.senderPub,
                 t.phase, t.presentCount, t.highest, t.createdAt, t.expiresAt)
  }

  function ResumeViewOf(t: Transfer): ResumeView {
    if t.chunkCount <= 256 then ResumeView(t.chunkCount, t.highest, AsBitmap, BitmapOf(t.present), [])
    else ResumeView(t.chunkCount, t.highest, AsRanges, [], ListedGaps(t.present))
  }

  function ChunkReply(t: Transfer, index: nat): Reply {
    if index >= t.chunkCount then Err(ChunkOutOfRange)
    else if index !in t.chunks || index !in t.hashes then Err(ChunkInvalid)  // both maps have the same keys
    else Chunk(t.chunks[index], t.hashes[index])
  }

  /** The mailbox gate of an owner's operation on a transfer. */
  function OwnerRefusal(
    sha: Hash, mbs: map<Id, Mailbox>, t: Transfer, mid: Id, secret: Bytes, now: int): Option<ErrorCode> {
    if !t.hasMailbox then None
    else if t.mailboxID != mid then Some(AuthFailed)
    else if !LiveMailbox(mbs, mid, now) then Some(MailboxNotFound)
    else if !SecretMatches(sha, mbs[mid].secretHash, secret) then Some(AuthFailed)
    else None
  }

  /** The owner's read slides the mailbox before the index is checked. */
  function GetStep(sha: Hash, s: State, tid: Id, mid: Id, secret: Bytes, index: nat, now: int): (o: Outcome)
    ensures o.next.transfers == Mark(s, tid, now).transfers && o.next.replay == s.replay
  {
    if !Found(s, tid, now) then Absent(s, tid, now)
    else
      var t := s.transfers[tid];
      var e := OwnerRefusal(sha, s.mailboxes, t, mid, secret, now);
      if e.Some? then Outcome(s, Err(e.value)) else Outcome(SlideOwner(s, t, now), ChunkReply(t, index))
  }

  function ResumeStep(sha: Hash, s: State, tid: Id, mid: Id, secret: Bytes, now: int): (o: Outcome)
    ensures o.next.transfers == Mark(s, tid, now).transfers && o.next.replay == s.replay
  {
    if !Found(s, tid, now) then Absent(s, tid, now)
    else
      var t := s.transfers[tid];
      var e := OwnerRefusal(sha, s.mailboxes, t, mid, secret, now);
      if e.Some? then Outcome(s, Err(e.value))
      else Outcome(SlideOwner(s, t, now), View(ResumeViewOf(t), ViewOf(t, tid)))
  }

  function ProgressStep(s: State, tid: Id, now: int): (o: Outcome)
    ensures o.next == Mark(s, tid, now)
  {
    if !Found(s, tid, now) then Absent(s, tid, now)
    else Outcome(s, View(ResumeViewOf(s.transfers[tid]), ViewOf(s.transfers[tid], tid)))
  }

  function GetByTicketStep(sha: Hash, s: State, tid: Id, ticket: Bytes, index: nat, now: int): (o: Outcome)
    ensures o.next == Mark(s, tid, now)
  {
    if !Found(s, tid, now) then Absent(s, tid, now)
    else if !SecretMatches(sha, s.transfers[tid].ticketHash, ticket) then Outcome(s, Err(AuthFailed))
    else Outcome(s, ChunkReply(s.transfers[tid], index))
  }

  function ResumeByTicketStep(sha: Hash, s: State, tid: Id, ticket: Bytes, now: int): (o: Outcome)
    ensures o.next == Mark(s, tid, now)
  {
    if !Found(s, tid, now) then Absent(s, tid, now)
    else if !SecretMatches(sha, s.transfers[tid].ticketHash, ticket) then Outcome(s, Err(AuthFailed))
    else Outcome(s, View(ResumeViewOf(s.transfers[tid]), ViewOf(s.transfers[tid], tid)))
  }

  function CompleteStep(s: State, c: TransferComplete, now: int): (o: Outcome)
    ensures o.next.mailboxes == s.mailboxes && o.next.replay == s.replay
  {
    if CheckComplete(c).Some? then Outcome(s, Err(CheckComplete(c).value))
    else if !Found(s, c.transferID, now) then Absent(s, c.transferID, now)
    else
      var t := s.transfers[c.transferID];
      if t.phase == Complete then Outcome(s, Sealed(t.presentCount, t.chunkCount))
      else if t.phase == Cancelled then Outcome(s, Err(TransferConflict))
      else if t.presentCount != t.chunkCount then
        Outcome(s, Unsealed(t.presentCount, t.chunkCount, TransferConflict))
      else
        Outcome(SetTransfer(s, c.transferID, t.(phase := Complete, expiresAt := now + COMPLETE_TTL)),
                Sealed(t.presentCount, t.chunkCount))
  }

  function CancelStep(sha: Hash, s: State, tid: Id, mid: Id, secret: Bytes, now: int): (o: Outcome)
    ensures o.next.replay == s.replay
  {
    if tid !in s.transfers then Outcome(s, Err(TransferNotFound))
    else
      var t := s.transfers[tid];
      var e := OwnerRefusal(sha, s.mailboxes, t, mid, secret, now);
      if e.Some? then Outcome(s, Err(e.value))
      else
        var s' := SlideOwner(s, t, now);
        Outcome(s'.(transfers := s'.transfers - {tid}), Done)
  }

  function GetTransferStep(s: State, tid: Id, now: int): (o: Outcome)
    ensures o.next == Mark(s, tid, now)
  {
    if !Found(s, tid, now) then Absent(s, tid, now)
    else Outcome(s, Snapshot(ViewOf(s.transfers[tid], tid)))
  }

  // ---- replay cache and sweep ----

  function LiveKeys(replay: map<Digest, int>, now: int): map<Digest, int> {
    map k | k in replay && now < replay[k] :: replay[k]
  }

  function ReplayStep(s: State, key: Digest, now: int): (o: Outcome)
    ensures o.next.mailboxes == s.mailboxes && o.next.transfers == s.transfers
  {
    if key in s.replay && now < s.replay[key] then Outcome(s, Answer(true))
    else Outcome(s.(replay := LiveKeys(s.replay, now)[key := now + REPLAY_WINDOW]), Answer(false))
  }

  function LapsedCount(now: int): Mailbox -> int {
    (mb: Mailbox) => |mb.messages| - |Filter(mb.messages, Unexpired(now))|
  }

  ghost predicate HasLiveTransfer(ts: map<Id, Transfer>, mid: Id, now: int) {
    exists tid <- ts :: BoundTo(ts[tid], mid) && now < ts[tid].expiresAt
  }

  /** The two ways the sweep reclaims a mailbox; only the second looks at transfers. */
  ghost predicate Reclaimed(mb: Mailbox, ts: map<Id, Transfer>, mid: Id, now: int) {
    && now >= mb.expiresAt
    && (|mb.messages| == 0 || (|Prune(mb, now).messages| == 0 && !HasLiveTransfer(ts, mid, now)))
  }

  /** The mailboxes once those outside `todo` have been swept. */
  ghost function SweptMailboxes(
    mbs: map<Id, Mailbox>, ts: map<Id, Transfer>, todo: set<Id>, now: int): map<Id, Mailbox> {
    map mid | mid in mbs && (mid in todo || !Reclaimed(mbs[mid], ts, mid, now)) ::
      if mid in todo then mbs[mid] else Prune(mbs[mid], now)
  }

  /** The transfers once those outside `todo` have been swept. */
  function SweptTransfers(ts: map<Id, Transfer>, todo: set<Id>, now: int): map<Id, Transfer> {
    map tid | tid in ts && (tid in todo || now < ts[tid].expiresAt) :: ts[tid]
  }

  ghost function SweptState(s: State, now: int): State {
    State(SweptMailboxes(s.mailboxes, s.transfers, {}, now), SweptTransfers(s.transfers, {}, now),
          LiveKeys(s.replay, now))
  }

  /** The counts a sweep returns: expired messages, and the records by which the maps have shrunk. */
  ghost function SweepCounts(s: State, s': State, now: int): Reply {
    Swept(Total(s.mailboxes, LapsedCount(now)),
          |s.transfers| - |s'.transfers|, |s.mailboxes| - |s'.mailboxes|)
  }

  ghost function SweepStep(s: State, now: int): Outcome {
    Outcome(SweptState(s, now), SweepCounts(s, SweptState(s, now), now))
  }

  // ---- all operations ----

  datatype Call =
    | DoCreateMailbox(mid: Id, secretHash: Digest)
    | DoMailboxExists(mid: Id)
    | DoCheckReadSecret(mid: Id, secret: Bytes)
    | DoSend(message: SendMessage, minted: Id)
    | DoReceive(mid: Id, secret: Bytes, limit: int, peek: bool)
    | DoAck(mid: Id, secret: Bytes, ids: seq<Bytes>, disposition: Disposition)
    | DoCreateTransfer(create: TransferCreate, minted: Id, ticket: Option<Digest>)
    | DoPut(chunk: ChunkUpload)
    | DoGet(tid: Id, mid: Id, secret: Bytes, index: nat)
    | DoResume(tid: Id, mid: Id, secret: Bytes)
    | DoProgress(tid: Id)
    | DoGetByTicket(tid: Id, credential: Bytes, index: nat)
    | DoResumeByTicket(tid: Id, credential: Bytes)
    | DoComplete(complete: TransferComplete)
    | DoCancel(tid: Id, mid: Id, secret: Bytes)
    | DoGetTransfer(tid: Id)
    | DoReplay(key: Digest)
    | DoSweep

  /** The operations on mailboxes, messages and the replay cache, and the sweep. */
  predicate MessagePlane(call: Call) {
    || call.DoCreateMailbox? || call.DoMailboxExists? || call.DoCheckReadSecret?
    || call.DoSend? || call.DoReceive? || call.DoAck? || call.DoReplay? || call.DoSweep?
  }

  ghost function Step(sha: Hash, s: State, call: Call, now: int): Outcome {
    match call
    case DoCreateMailbox(mid, h) => Lift(s, Register(s.mailboxes, mid, h, now))
    case DoMailboxExists(mid) => Outcome(s, Answer(LiveMailbox(s.mailboxes, mid, now)))
    case DoCheckReadSecret(mid, secret) => Outcome(s, Answer(SecretOpens(sha, s.mailboxes, mid, secret)))
    case DoSend(m, id) => Lift(s, Send(s.mailboxes, m, id, now))
    case DoReceive(mid, secret, limit, peek) => Lift(s, Receive(sha, s.mailboxes, mid, secret, limit, peek, now))
    case DoAck(mid, secret, ids, d) => Lift(s, Ack(sha, s.mailboxes, mid, secret, ids, d, now))
    case DoCreateTransfer(t, id, ticket) => CreateTransferStep(sha, s, t, id, ticket, now)
    case DoPut(c) => PutStep(sha, s, c, now)
    case DoGet(tid, mid, secret, index) => GetStep(sha, s, tid, mid, secret, index, now)
    case DoResume(tid, mid, secret) => ResumeStep(sha, s, tid, mid, secret, now)
    case DoProgress(tid) => ProgressStep(s, tid, now)
    case DoGetByTicket(tid, ticket, index) => GetByTicketStep(sha, s, tid, ticket, index, now)
    case DoResumeByTicket(tid, ticket) => ResumeByTicketStep(sha, s, tid, ticket, now)
    case DoComplete(c) => CompleteStep(s, c, now)
    case DoCancel(tid, mid, secret) => CancelStep(sha, s, tid, mid, secret, now)
    case DoGetTransfer(tid) => GetTransferStep(s, tid, now)
    case DoReplay(key) => ReplayStep(s, key, now)
    case DoSweep => SweepStep(s, now)
  }
}
