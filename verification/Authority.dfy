/** Who gets at what, over whole runs: a mailbox and its transfers answer only to the secret it was last registered
    under, and a ticket opens only the transfer it was handed out for. */
module Authority {
  import opened Octets
  import opened Shard
  import opened Invariant
  import opened Runs
  import opened Lifecycle
  import opened MailAnswers
  import opened TransferAnswers

  // ---- the secret of a mailbox ----

  predicate Registers(call: Call, mid: Id) { call.DoCreateMailbox? && call.mid == mid }

  /** While it exists, the mailbox is registered under `h`. */
  predicate Under(s: State, mid: Id, h: Digest) { mid in s.mailboxes ==> s.mailboxes[mid].secretHash == h }

  lemma MailKeepsSecret(sha: Hash, s: State, call: Call, now: int, mid: Id, h: Digest)
    requires Under(s, mid, h) && !Registers(call, mid) && MessagePlane(call)
    ensures Under(Step(sha, s, call, now).next, mid, h)
  {
  }

  lemma TransfersKeepSecret(sha: Hash, s: State, call: Call, now: int, mid: Id, h: Digest)
    requires Under(s, mid, h) && !MessagePlane(call)
    ensures Under(Step(sha, s, call, now).next, mid, h)
  {
  }

  /** Nothing but a registration changes the secret. */
  lemma {:induction false} RunKeepsSecret(sha: Hash, s: State, evs: seq<Event>, mid: Id, h: Digest)
    requires Under(s, mid, h) && forall e <- evs :: !Registers(e.call, mid)
    ensures Under(After(sha, s, evs), mid, h)
    decreases |evs|
  {
    if evs != [] {
      if MessagePlane(evs[0].call) {
        MailKeepsSecret(sha, s, evs[0].call, evs[0].now, mid, h);
      } else {
        TransfersKeepSecret(sha, s, evs[0].call, evs[0].now, mid, h);
      }
      RunKeepsSecret(sha, Step(sha, s, evs[0].call, evs[0].now).next, evs[1..], mid, h);
    }
  }

  /** The operations for which the caller names a mailbox and a secret. */
  predicate Claims(call: Call, mid: Id) {
    (call.DoReceive? || call.DoAck? || call.DoGet? || call.DoResume? || call.DoCancel?) && call.mid == mid
  }

  /** The transfer named by the operation, if any, has no mailbox, so that anybody may act on it. */
  predicate Ungated(s: State, call: Call) {
    (call.DoGet? || call.DoResume? || call.DoCancel?) && call.tid in s.transfers && !s.transfers[call.tid].hasMailbox
  }

  lemma WrongSecretRefused(sha: Hash, s: State, call: Call, now: int, mid: Id, h: Digest)
    requires Under(s, mid, h) && Claims(call, mid) && !Ungated(s, call)
    requires !(|call.secret| == 32 && sha(call.secret) == h)
    ensures var o := Step(sha, s, call, now);
            o.reply.Err? && o.next.mailboxes == s.mailboxes && o.next.transfers.Keys == s.transfers.Keys
  {
  }

  /** After a registration under `h` and until the next one, whoever names the mailbox without a secret of 32 bytes that
      hashes to `h` is answered with an error, takes nothing from the queue and removes no transfer, whatever else
      happens. */
  lemma OnlyTheSecretOpens(sha: Hash, s: State, register: Event, evs: seq<Event>, i: nat)
    requires register.call.DoCreateMailbox? && forall e <- evs :: !Registers(e.call, register.call.mid)
    requires i < |evs| && Claims(evs[i].call, register.call.mid)
    requires !(|evs[i].call.secret| == 32 && sha(evs[i].call.secret) == register.call.secretHash)
    requires !Ungated(After(sha, Step(sha, s, register.call, register.now).next, evs[..i]), evs[i].call)
    ensures var s1 := Step(sha, s, register.call, register.now).next;
            var before, after := After(sha, s1, evs[..i]), After(sha, s1, evs[..i + 1]);
            && Replies(sha, s1, evs)[i].Err? && after.mailboxes == before.mailboxes
            && after.transfers.Keys == before.transfers.Keys
  {
    var mid, h := register.call.mid, register.call.secretHash;
    var s1 := Step(sha, s, register.call, register.now).next;
    RegisterAnswers(sha, s, mid, h, register.now);
    forall e <- evs[..i]
      ensures !Registers(e.call, mid)
    {
      assert e in evs;
    }
    RunKeepsSecret(sha, s1, evs[..i], mid, h);
    WrongSecretRefused(sha, After(sha, s1, evs[..i]), evs[i].call, evs[i].now, mid, h);
    ReplyAt(sha, s1, evs, i);
    AfterNext(sha, s1, evs, i);
  }

  // ---- the ticket of a transfer ----

  predicate ByTicket(call: Call, tid: Id) { (call.DoGetByTicket? || call.DoResumeByTicket?) && call.tid == tid }

  lemma WrongTicketRefused(sha: Hash, s: State, call: Call, now: int, tid: Id)
    requires ByTicket(call, tid)
    requires tid in s.transfers ==> !(|call.credential| == 32 && sha(call.credential) == s.transfers[tid].ticketHash)
    ensures Step(sha, s, call, now).reply.Err?
  {
  }

  /** While it exists, the transfer carries the hash of this ticket. */
  predicate Ticketed(sha: Hash, s: State, tid: Id, ticket: Digest) {
    tid in s.transfers ==> s.transfers[tid].ticketHash == sha(ticket)
  }

  lemma RunKeepsTicket(sha: Hash, s: State, clock: int, evs: seq<Event>, tid: Id, ticket: Digest)
    requires Inv(sha, s, clock) && Timed(clock, evs) && NeverMints(evs, tid) && Ticketed(sha, s, tid, ticket)
    ensures Ticketed(sha, After(sha, s, evs), tid, ticket)
  {
    if tid !in s.transfers {
      StaysAbsent(sha, s, evs, tid);
    } else if tid in After(sha, s, evs).transfers {
      RunEvolves(sha, s, clock, evs, tid);
    }
  }

  /** In any run after the opening, a read or a resume by ticket gives a chunk or a view only for a ticket of 32 bytes
      that hashes like the one handed out with the opening. */
  lemma OnlyTheTicketOpens(sha: Hash, s: State, clock: int, open: Event, evs: seq<Event>, i: nat)
    requires Inv(sha, s, clock) && clock <= open.now && Timed(open.now, evs)
    requires open.call.DoCreateTransfer? && Step(sha, s, open.call, open.now).reply.Opened?
    requires NeverMints(evs, open.call.minted) && i < |evs| && ByTicket(evs[i].call, open.call.minted)
    ensures var o := Step(sha, s, open.call, open.now);
            var r := Replies(sha, o.next, evs)[i];
            r.Chunk? || r.View? ==> |evs[i].call.credential| == 32 && sha(evs[i].call.credential) == sha(o.reply.ticket)
  {
    var o, tid := Step(sha, s, open.call, open.now), open.call.minted;
    CreateOpens(sha, s, open.call.create, tid, open.call.ticket, open.now);
    StepKeeps(sha, s, open.call, clock, open.now);
    TimedPrefix(sha, o.next, open.now, evs, i);
    RunKeepsTicket(sha, o.next, open.now, evs[..i], tid, o.reply.ticket);
    var s' := After(sha, o.next, evs[..i]);
    if !(|evs[i].call.credential| == 32 && sha(evs[i].call.credential) == sha(o.reply.ticket)) {
      WrongTicketRefused(sha, s', evs[i].call, evs[i].now, tid);
    }
    ReplyAt(sha, o.next, evs, i);
  }
}
