/** What each operation on a mailbox answers and leaves behind, said of the record and the request themselves: which
    messages are still alive, what the secret hashes to, what the clock reads. */
module MailAnswers {
  import opened Octets
  import opened Limits
  import opened Collections
  import opened Shard
  import opened Invariant
  import opened Runs

  /** The messages of a mailbox that have not expired, in order. */
  function Alive(mbs: map<Id, Mailbox>, mid: Id, now: int): seq<Message> {
    if mid in mbs then Filter(mbs[mid].messages, (m: Message) => now < m.expiresAt) else []
  }

  /** Only the record of `mid` may differ. */
  ghost predicate OnlyMailbox(s: State, s': State, mid: Id) {
    && s'.transfers == s.transfers && s'.replay == s.replay
    && (forall k: Id :: k != mid ==> (k in s'.mailboxes <==> k in s.mailboxes))
    && forall k <- s.mailboxes :: k != mid ==> s'.mailboxes[k] == s.mailboxes[k]
  }

  /** After a successful operation the mailbox has this queue, the secret it had, and a full year from now. */
  ghost predicate Refreshed(s: State, s': State, mid: Id, queue: seq<Message>, now: int) {
    && OnlyMailbox(s, s', mid) && mid in s.mailboxes && mid in s'.mailboxes
    && s'.mailboxes[mid].messages == queue
    && s'.mailboxes[mid].secretHash == s.mailboxes[mid].secretHash
    && s'.mailboxes[mid].expiresAt == now + 365 * 24 * 3600 * 1000
  }

  lemma AliveIsPruned(mbs: map<Id, Mailbox>, mid: Id, now: int)
    requires mid in mbs
    ensures Prune(mbs[mid], now).messages == Alive(mbs, mid, now)
  {
    FilterSame(mbs[mid].messages, Unexpired(now), (m: Message) => now < m.expiresAt);
  }

  lemma {:induction false} AliveTwice(ms: seq<Message>, now: int)
    ensures var p := (m: Message) => now < m.expiresAt; Filter(Filter(ms, p), p) == Filter(ms, p)
  {
    FilterWeaker(ms, (m: Message) => now < m.expiresAt, (m: Message) => now < m.expiresAt);
  }

  // ---- registration and the two checks ----

  /** A registration sets the secret and a full year, whether or not the mailbox existed and however its lifetime stood;
      it says which, and keeps the queue. */
  lemma RegisterAnswers(sha: Hash, s: State, mid: Id, h: Digest, now: int)
    ensures var o := Step(sha, s, DoCreateMailbox(mid, h), now);
            && o.reply == Registered(mid !in s.mailboxes) && OnlyMailbox(s, o.next, mid) && mid in o.next.mailboxes
            && o.next.mailboxes[mid].secretHash == h
            && o.next.mailboxes[mid].expiresAt == now + 365 * 24 * 3600 * 1000
            && o.next.mailboxes[mid].messages == if mid in s.mailboxes then s.mailboxes[mid].messages else []
  {
  }

  lemma ChecksAnswer(sha: Hash, s: State, mid: Id, secret: Bytes, now: int)
    ensures Step(sha, s, DoMailboxExists(mid), now) ==
            Outcome(s, Answer(mid in s.mailboxes && now < s.mailboxes[mid].expiresAt))
    ensures Step(sha, s, DoCheckReadSecret(mid, secret), now) ==
            Outcome(s, Answer(mid in s.mailboxes && |secret| == 32 && sha(secret) == s.mailboxes[mid].secretHash))
  {
  }

  // ---- sending ----

  predicate WellFormedSend(m: SendMessage) {
    |m.mailboxID| == 16 && 1 <= |m.envelope| <= 32768 && |m.senderPub| == 32 && |m.nonce| == 16 && |m.signature| == 64
  }

  lemma SendTaken(sha: Hash, s: State, clock: int, m: SendMessage, id: Id, now: int, mid: Id)
    requires Inv(sha, s, clock) && clock <= now && CheckSend(m).None? && m.mailboxID == mid
    requires LiveMailbox(s.mailboxes, mid, now) && |Alive(s.mailboxes, mid, now)| < 100
    ensures var o, alive := Lift(s, Send(s.mailboxes, m, id, now)), Alive(s.mailboxes, mid, now);
            && o.reply == Sent(id, |alive| + 1)
            && Refreshed(s, o.next, mid, alive + [Message(id, m.envelope, m.senderPub, now,
                                                          now + 14 * 24 * 3600 * 1000)], now)
  {
    AliveIsPruned(s.mailboxes, mid, now);
    ByteQuotaNeverFires(sha, s, clock, m, id, now);
  }

  lemma SendFull(s: State, m: SendMessage, id: Id, now: int, mid: Id)
    requires CheckSend(m).None? && m.mailboxID == mid
    requires LiveMailbox(s.mailboxes, mid, now) && |Alive(s.mailboxes, mid, now)| >= 100
    ensures var o := Lift(s, Send(s.mailboxes, m, id, now));
            && o.reply == Err(QuotaExceeded) && OnlyMailbox(s, o.next, mid)
            && Alive(o.next.mailboxes, mid, now) == Alive(s.mailboxes, mid, now)
  {
    AliveIsPruned(s.mailboxes, mid, now);
    AliveTwice(s.mailboxes[mid].messages, now);
  }

  /** A well-formed message to a live mailbox with fewer than a hundred live messages is queued behind them for fourteen
      days; any other is refused, and no live message is lost. */
  lemma SendAnswers(sha: Hash, s: State, clock: int, m: SendMessage, id: Id, now: int, mid: Id)
    requires Inv(sha, s, clock) && clock <= now && (|m.mailboxID| == 16 ==> m.mailboxID == mid)
    ensures var o, alive := Step(sha, s, DoSend(m, id), now), Alive(s.mailboxes, mid, now);
            if !WellFormedSend(m)
            then o == Outcome(s, Err(if |m.mailboxID| != 16 then InvalidRequest
                                     else if !(1 <= |m.envelope| <= 32768) then MessageTooLarge
                                     else if |m.senderPub| == 32 && |m.nonce| != 16 then InvalidRequest
                                     else AuthFailed))
            else if mid !in s.mailboxes || now >= s.mailboxes[mid].expiresAt
            then o == Outcome(s, Err(MailboxNotFound))
            else if |alive| >= 100
            then && o.reply == Err(QuotaExceeded) && OnlyMailbox(s, o.next, mid)
                 && Alive(o.next.mailboxes, mid, now) == alive
            else && o.reply == Sent(id, |alive| + 1)
                 && Refreshed(s, o.next, mid, alive + [Message(id, m.envelope, m.senderPub, now,
                                                               now + 14 * 24 * 3600 * 1000)], now)
  {
    if CheckSend(m).None? && LiveMailbox(s.mailboxes, mid, now) {
      if |Alive(s.mailboxes, mid, now)| < 100 {
        SendTaken(sha, s, clock, m, id, now, mid);
      } else {
        SendFull(s, m, id, now, mid);
      }
    }
  }

  // ---- receiving ----

  /** The owner, and nobody else, gets the first live messages, as many as asked for up to 32; they leave the queue
      unless the owner only peeks. */
  lemma ReceiveAnswers(sha: Hash, s: State, mid: Id, secret: Bytes, limit: int, peek: bool, now: int)
    ensures var o, alive := Step(sha, s, DoReceive(mid, secret, limit, peek), now), Alive(s.mailboxes, mid, now);
            if mid in s.mailboxes && now < s.mailboxes[mid].expiresAt && |secret| == 32
               && sha(secret) == s.mailboxes[mid].secretHash
            then var asked := if 1 <= limit <= 32 then limit else 32;
                 var n := if asked < |alive| then asked else |alive|;
                 && o.reply == Batch(alive[..n], !peek)
                 && Refreshed(s, o.next, mid, if peek then alive else alive[n..], now)
            else && o.next == s
                 && o.reply == Err(if mid in s.mailboxes && now < s.mailboxes[mid].expiresAt then AuthFailed
                                   else MailboxNotFound)
  {
    if mid in s.mailboxes {
      AliveIsPruned(s.mailboxes, mid, now);
    }
  }

  // ---- acknowledging ----

  /** The live messages with one of the identifiers, and those without. */
  function Named(ms: seq<Message>, ids: seq<Bytes>): seq<Message> { Filter(ms, (m: Message) => m.id in ids) }

  function Unnamed(ms: seq<Message>, ids: seq<Bytes>): seq<Message> { Filter(ms, (m: Message) => m.id !in ids) }

  lemma NamedSplit(ms: seq<Message>, ids: seq<Bytes>)
    ensures Filter(ms, NotAmong(IdSet(ids))) == Unnamed(ms, ids)
    ensures |ms| - |Unnamed(ms, ids)| == |Named(ms, ids)|
  {
    var p, q := (m: Message) => m.id in ids, (m: Message) => m.id !in ids;
    FilterSame(ms, NotAmong(IdSet(ids)), q);
    FilterSplits(ms, p, q);
    assert |ms| == |multiset(ms)|;
  }

  /** The owner, and nobody else, acknowledges 1 to 32 messages: the answer counts the live ones named and those left in
      the queue, and only consuming removes them. A refusal loses no live message. */
  lemma AckAnswers(sha: Hash, s: State, mid: Id, secret: Bytes, ids: seq<Bytes>, d: Disposition, now: int)
    ensures var o, alive := Step(sha, s, DoAck(mid, secret, ids, d), now), Alive(s.mailboxes, mid, now);
            if && (d == Received || d == Consumed) && 1 <= |ids| <= 32 && (forall raw <- ids :: |raw| == 16)
               && mid in s.mailboxes && now < s.mailboxes[mid].expiresAt && |secret| == 32
               && sha(secret) == s.mailboxes[mid].secretHash
            then var queue := if d == Consumed then Unnamed(alive, ids) else alive;
                 o.reply == Acked(|Named(alive, ids)|, |queue|) && Refreshed(s, o.next, mid, queue, now)
            else && o.reply == Err(if d.Unknown? || !(1 <= |ids| <= 32) then InvalidRequest
                                   else if mid !in s.mailboxes || now >= s.mailboxes[mid].expiresAt then MailboxNotFound
                                   else if |secret| != 32 || sha(secret) != s.mailboxes[mid].secretHash then AuthFailed
                                   else InvalidRequest)
                 && OnlyMailbox(s, o.next, mid) && Alive(o.next.mailboxes, mid, now) == alive
  {
    if mid in s.mailboxes {
      AliveIsPruned(s.mailboxes, mid, now);
      AliveTwice(s.mailboxes[mid].messages, now);
      NamedSplit(Alive(s.mailboxes, mid, now), ids);
    }
  }
}
