/** The resume view of a reachable transfer is exact, and an uploader that keeps asking for it and putting what it
    lists has everything stored after at most eight rounds, whatever else happens in between. */
module Convergence {
  import opened Octets
  import opened Limits
  import opened Geometry
  import opened Resume
  import opened Shard
  import opened Invariant
  import opened Runs
  import opened Lifecycle
  import opened Upload
  import opened TransferAnswers
  import W = Wire

  /** The view is exact. Up to 256 chunks it is a bitmap of the stored chunks; above, it lists the maximal runs of
      missing chunks in increasing order, all of them or the first 1024, and lists nothing exactly when nothing is
      missing. */
  ghost predicate Exact(t: Transfer, v: ResumeView) {
    && v.chunkCount == t.chunkCount && LongestPrefix(t.present, v.highest)
    && (t.chunkCount <= 256 ==>
          && v.encoding == AsBitmap && v.ranges == [] && |v.bitmap| == (t.chunkCount + 7) / 8
          && forall i: nat :: i < 8 * |v.bitmap| ==> (BitOf(v.bitmap, i) <==> i in t.chunks))
    && (t.chunkCount > 256 ==>
          && v.encoding == AsRanges && v.bitmap == [] && |v.ranges| <= 1024
          && Increasing(v.ranges) && (forall r <- v.ranges :: IsGap(t.present, r))
          && (v.ranges == [] <==> forall i: nat :: i < t.chunkCount ==> i in t.chunks)
          && (forall i: nat :: i < t.chunkCount && i !in t.chunks && !Covered(v.ranges, i) ==>
                |v.ranges| == 1024 && forall r <- v.ranges :: r.start + r.count < i))
  }

  lemma ResumeViewExact(sha: Hash, t: Transfer)
    requires Consistent(sha, t)
    ensures Exact(t, ResumeViewOf(t))
  {
    if t.chunkCount > 256 {
      GapsExact(t.present);
      ListedGapsEmpty(t.present);
      forall i: nat | i < t.chunkCount && i !in t.chunks && !Covered(ListedGaps(t.present), i)
        ensures |ListedGaps(t.present)| == MAX_MISSING_RANGES &&
                forall r <- ListedGaps(t.present) :: r.start + r.count < i
      {
        UnlistedComesLater(t.present, i);
      }
    }
  }

  lemma {:induction false} GapsApart(gaps: seq<Range>, a: nat, b: nat)
    requires Increasing(gaps) && a < b < |gaps|
    ensures gaps[a].start + gaps[a].count < gaps[b].start
  {
    GapsOrdered(gaps, a + 1, b);
    assert gaps[a].start + gaps[a].count < gaps[a + 1].start;
  }

  lemma ListedMember(p: seq<bool>, k: nat)
    requires |p| < TWO_32
    ensures k < |Gaps(p, 0)| && k < MAX_MISSING_RANGES ==> Gaps(p, 0)[k] in ListedGaps(p)
  {
    if k < |Gaps(p, 0)| && k < MAX_MISSING_RANGES {
      assert ListedGaps(p)[k] == Gaps(p, 0)[k];
    }
  }

  /** A missing chunk that is not listed lies beyond the 1024 runs that are. */
  lemma UnlistedComesLater(p: seq<bool>, i: nat)
    requires |p| < TWO_32 && i < |p| && !p[i] && !Covered(ListedGaps(p), i)
    ensures |ListedGaps(p)| == MAX_MISSING_RANGES && forall r <- ListedGaps(p) :: r.start + r.count < i
  {
    var gaps := Gaps(p, 0);
    GapsExact(p);
    var r :| r in gaps && Within(i, r);
    var k :| 0 <= k < |gaps| && gaps[k] == r;
    ListedMember(p, k);
    assert k >= MAX_MISSING_RANGES;
    forall q <- ListedGaps(p)
      ensures q.start + q.count < i
    {
      var a :| 0 <= a < |ListedGaps(p)| && ListedGaps(p)[a] == q;
      GapsApart(gaps, a, k);
    }
  }

  // ---- what a request for the view is answered ----

  /** A request for the view: by the owner, by ticket, or the uploader's own look at the progress. */
  predicate AsksView(call: Call, tid: Id) {
    (call.DoResume? || call.DoResumeByTicket? || call.DoProgress?) && call.tid == tid
  }

  /** Whether the request may be answered: the owner and the ticket must be right, the progress is open to all. */
  predicate MayView(sha: Hash, s: State, call: Call, tid: Id, now: int) {
    && AsksView(call, tid) && Served(s, tid, now)
    && (call.DoResume? ==> Entitled(sha, s, s.transfers[tid], call.mid, call.secret, now))
    && (call.DoResumeByTicket? ==> |call.credential| == 32 && sha(call.credential) == s.transfers[tid].ticketHash)
  }

  /** Looking changes nothing, except that the owner's look gives the mailbox a full year. */
  predicate Looked(s: State, s': State, call: Call, tid: Id, now: int)
    requires tid in s.transfers
  {
    if call.DoResume? then s'.transfers == s.transfers && OwnerRefreshed(s, s', s.transfers[tid], now) else s' == s
  }

  lemma ViewGranted(sha: Hash, s: State, call: Call, now: int, tid: Id)
    requires AsksView(call, tid)
    ensures var o := Step(sha, s, call, now);
            if MayView(sha, s, call, tid, now)
            then && o.reply == View(ResumeViewOf(s.transfers[tid]), ViewOf(s.transfers[tid], tid))
                 && Looked(s, o.next, call, tid, now)
            else o.reply.Err? && o.next.mailboxes == s.mailboxes
  {
  }

  /** The owner, the holder of the ticket and the uploader are answered with the exact view and a true description of
      the transfer; anybody else with an error. */
  lemma ViewAnswers(sha: Hash, s: State, clock: int, call: Call, now: int, tid: Id)
    requires Inv(sha, s, clock) && AsksView(call, tid)
    ensures var o := Step(sha, s, call, now);
            if MayView(sha, s, call, tid, now)
            then && o.reply.View? && Exact(s.transfers[tid], o.reply.resume)
                 && Describes(o.reply.transfer, tid, s.transfers[tid]) && Looked(s, o.next, call, tid, now)
            else o.reply.Err? && o.next.mailboxes == s.mailboxes
  {
    ViewGranted(sha, s, call, now, tid);
    RecordOk(sha, s, clock, tid);
    if tid in s.transfers {
      ResumeViewExact(sha, s.transfers[tid]);
      ViewDescribes(sha, s.transfers[tid], tid);
    }
  }

  // ---- a put answered with `Stored` is there to stay ----

  /** `Stored` means that the chunk was there already or has been added now. */
  lemma StoredVerdict(sha: Hash, s: State, c: ChunkUpload, now: int, tid: Id)
    requires c.transferID == tid && PutStep(sha, s, c, now).reply.Stored?
    ensures tid in s.transfers
    ensures var t, ts := s.transfers[tid], PutStep(sha, s, c, now).next.transfers;
            && tid in ts && c.index < t.chunkCount
            && if c.index in t.chunks then ts[tid] == t else ts[tid] == WithChunk(sha, t, c, now)
  {
  }

  lemma StoredIsPresent(sha: Hash, s: State, c: ChunkUpload, clock: int, now: int, tid: Id)
    requires Inv(sha, s, clock) && c.transferID == tid && PutStep(sha, s, c, now).reply.Stored?
    ensures var ts := PutStep(sha, s, c, now).next.transfers;
            tid in s.transfers && tid in ts && c.index < ts[tid].chunkCount && ts[tid].present[c.index]
  {
    StoredVerdict(sha, s, c, now, tid);
    assert TransferOk(sha, s.transfers[tid], clock);
  }

  /** Where it still exists, the transfer has the chunk. */
  predicate Keeps(ts: map<Id, Transfer>, tid: Id, i: nat) {
    tid in ts ==> i < ts[tid].chunkCount && i < |ts[tid].present| && ts[tid].present[i]
  }

  lemma PutKept(sha: Hash, s: State, clock: int, c: ChunkUpload, now: int, tid: Id)
    requires Inv(sha, s, clock) && c.transferID == tid && PutStep(sha, s, c, now).reply.Stored?
    ensures Keeps(PutStep(sha, s, c, now).next.transfers, tid, c.index)
  {
    StoredIsPresent(sha, s, c, clock, now, tid);
  }

  /** What is stored stays, as long as the transfer does. */
  lemma RunKeepsChunk(sha: Hash, s: State, clock: int, evs: seq<Event>, tid: Id, i: nat)
    requires Inv(sha, s, clock) && Timed(clock, evs) && NeverMints(evs, tid) && Keeps(s.transfers, tid, i)
    ensures Keeps(After(sha, s, evs).transfers, tid, i)
  {
    var s' := After(sha, s, evs);
    if tid !in s.transfers {
      StaysAbsent(sha, s, evs, tid);
    } else if tid in s'.transfers {
      RunKeeps(sha, s, clock, evs);
      RunEvolves(sha, s, clock, evs, tid);
      assert TransferOk(sha, s'.transfers[tid], ClockAfter(clock, evs));
    }
  }

  lemma StoredFirst(sha: Hash, s: State, clock: int, e: Event, evs: seq<Event>, tid: Id)
    requires Inv(sha, s, clock) && clock <= e.now && Timed(e.now, evs) && NeverMints(evs, tid)
    requires PutOn(e.call, tid) && Step(sha, s, e.call, e.now).reply.Stored?
    ensures Keeps(After(sha, Step(sha, s, e.call, e.now).next, evs).transfers, tid, e.call.chunk.index)
  {
    var s' := Step(sha, s, e.call, e.now).next;
    PutKept(sha, s, clock, e.call.chunk, e.now, tid);
    StepKeeps(sha, s, e.call, clock, e.now);
    RunKeepsChunk(sha, s', e.now, evs, tid, e.call.chunk.index);
  }

  /** A chunk that some put of the run was told is stored is there at its end, if the transfer is. */
  lemma {:induction false} StoredStays(sha: Hash, s: State, clock: int, evs: seq<Event>, tid: Id, i: nat)
    requires Inv(sha, s, clock) && Timed(clock, evs) && NeverMints(evs, tid)
    requires i < |evs| && PutOn(evs[i].call, tid) && Replies(sha, s, evs)[i].Stored?
    ensures Keeps(After(sha, s, evs).transfers, tid, evs[i].call.chunk.index)
    decreases |evs|
  {
    var e := evs[0];
    if i == 0 {
      StoredFirst(sha, s, clock, e, evs[1..], tid);
    } else {
      StepKeeps(sha, s, e.call, clock, e.now);
      StoredStays(sha, Step(sha, s, e.call, e.now).next, e.now, evs[1..], tid, i - 1);
    }
  }

  // ---- rounds ----

  ghost predicate PutDuring(sha: Hash, s: State, evs: seq<Event>, tid: Id, j: nat) {
    exists i :: 0 <= i < |evs| && PutOn(evs[i].call, tid) && evs[i].call.chunk.index == j &&
      Replies(sha, s, evs)[i].Stored?
  }

  /** The chunk is missing according to the view. */
  predicate ShownMissing(v: ResumeView, i: nat) {
    match v.encoding
    case AsBitmap => i < 8 * |v.bitmap| && !BitOf(v.bitmap, i)
    case AsRanges => Covered(v.ranges, i)
  }

  /** A run that begins with a request for the view, answered, and in which every chunk that the answer shows as missing
      is put and accepted; anything else may happen as well. */
  ghost predicate ResumeRound(sha: Hash, s: State, evs: seq<Event>, tid: Id) {
    && evs != [] && AsksView(evs[0].call, tid) && Replies(sha, s, evs)[0].View?
    && var v := Replies(sha, s, evs)[0].resume;
       forall j: nat :: j < v.chunkCount && ShownMissing(v, j) ==> PutDuring(sha, s, evs, tid, j)
  }

  lemma ListedShown(t: Transfer, j: nat)
    requires j < t.chunkCount && Listed(t.present, j)
    ensures ShownMissing(ResumeViewOf(t), j)
  {
  }

  /** The view in the answer is that of the record. */
  lemma RoundView(sha: Hash, s: State, evs: seq<Event>, tid: Id)
    requires evs != [] && AsksView(evs[0].call, tid) && Replies(sha, s, evs)[0].View?
    ensures tid in s.transfers && Replies(sha, s, evs)[0].resume == ResumeViewOf(s.transfers[tid])
  {
    ViewGranted(sha, s, evs[0].call, evs[0].now, tid);
  }

  lemma PutDuringStays(sha: Hash, s: State, clock: int, evs: seq<Event>, tid: Id, j: nat)
    requires Inv(sha, s, clock) && Timed(clock, evs) && NeverMints(evs, tid) && PutDuring(sha, s, evs, tid, j)
    requires tid in After(sha, s, evs).transfers
    ensures var t := After(sha, s, evs).transfers[tid]; j < t.chunkCount && t.present[j]
  {
    var i :| 0 <= i < |evs| && PutOn(evs[i].call, tid) && evs[i].call.chunk.index == j &&
      Replies(sha, s, evs)[i].Stored?;
    StoredStays(sha, s, clock, evs, tid, i);
  }

  lemma RunIsRound(sha: Hash, s: State, clock: int, evs: seq<Event>, tid: Id)
    requires Inv(sha, s, clock) && Timed(clock, evs) && NeverMints(evs, tid) && ResumeRound(sha, s, evs, tid)
    requires tid in s.transfers && tid in After(sha, s, evs).transfers
    ensures Round(s.transfers[tid].present, After(sha, s, evs).transfers[tid].present)
  {
    var t, p := s.transfers[tid], s.transfers[tid].present;
    RunEvolves(sha, s, clock, evs, tid);
    RoundView(sha, s, evs, tid);
    forall j: nat | j < |p| && Listed(p, j)
      ensures After(sha, s, evs).transfers[tid].present[j]
    {
      ListedShown(t, j);
      assert PutDuring(sha, s, evs, tid, j);
      PutDuringStays(sha, s, clock, evs, tid, j);
    }
  }

  /** A round of the run leads from one state and clock to the next, and the transfer is still there. */
  ghost predicate RoundFrom(sha: Hash, s: State, clock: int, evs: seq<Event>, s': State, clock': int, tid: Id) {
    && Timed(clock, evs) && NeverMints(evs, tid) && ResumeRound(sha, s, evs, tid)
    && s' == After(sha, s, evs) && clock' == ClockAfter(clock, evs) && tid in s'.transfers
  }

  ghost predicate RoundOf(
    sha: Hash, states: seq<State>, clocks: seq<int>, runs: seq<seq<Event>>, tid: Id, k: nat)
    requires k < |runs| && |states| == |clocks| == |runs| + 1
  {
    RoundFrom(sha, states[k], clocks[k], runs[k], states[k + 1], clocks[k + 1], tid)
  }

  /** A sequence of resume rounds, one after the other. */
  ghost predicate Rounds(sha: Hash, states: seq<State>, clocks: seq<int>, runs: seq<seq<Event>>, tid: Id) {
    && |states| == |clocks| == |runs| + 1
    && tid in states[0].transfers
    && forall k: nat :: k < |runs| ==> RoundOf(sha, states, clocks, runs, tid, k)
  }

  lemma RoundKeeps(sha: Hash, s: State, clock: int, evs: seq<Event>, s': State, clock': int, tid: Id)
    requires Inv(sha, s, clock) && tid in s.transfers && RoundFrom(sha, s, clock, evs, s', clock', tid)
    ensures Inv(sha, s', clock') && Round(s.transfers[tid].present, s'.transfers[tid].present)
  {
    RunKeeps(sha, s, clock, evs);
    RunIsRound(sha, s, clock, evs, tid);
  }

  lemma RoundFromAt(sha: Hash, states: seq<State>, clocks: seq<int>, runs: seq<seq<Event>>, tid: Id, k: nat)
    requires Rounds(sha, states, clocks, runs, tid) && k < |runs|
    ensures RoundFrom(sha, states[k], clocks[k], runs[k], states[k + 1], clocks[k + 1], tid)
    ensures tid in states[k].transfers && tid in states[k + 1].transfers
  {
    assert RoundOf(sha, states, clocks, runs, tid, k);
    if k > 0 {
      assert RoundOf(sha, states, clocks, runs, tid, k - 1);
    }
  }

  lemma {:induction false} RoundsKeep(
    sha: Hash, states: seq<State>, clocks: seq<int>, runs: seq<seq<Event>>, tid: Id, k: nat)
    requires Rounds(sha, states, clocks, runs, tid) && Inv(sha, states[0], clocks[0]) && k <= |runs|
    ensures Inv(sha, states[k], clocks[k])
  {
    if k > 0 {
      var i := k - 1;
      RoundsKeep(sha, states, clocks, runs, tid, i);
      RoundFromAt(sha, states, clocks, runs, tid, i);
      RoundKeeps(sha, states[i], clocks[i], runs[i], states[k], clocks[k], tid);
    }
  }

  lemma RoundAt(sha: Hash, states: seq<State>, clocks: seq<int>, runs: seq<seq<Event>>, tid: Id, k: nat)
    requires Rounds(sha, states, clocks, runs, tid) && Inv(sha, states[0], clocks[0]) && k < |runs|
    ensures tid in states[k].transfers && tid in states[k + 1].transfers
    ensures Round(states[k].transfers[tid].present, states[k + 1].transfers[tid].present)
  {
    RoundsKeep(sha, states, clocks, runs, tid, k);
    RoundFromAt(sha, states, clocks, runs, tid, k);
    RoundKeeps(sha, states[k], clocks[k], runs[k], states[k + 1], clocks[k + 1], tid);
  }

  lemma PresentAt(sha: Hash, states: seq<State>, clocks: seq<int>, runs: seq<seq<Event>>, tid: Id, k: nat)
    requires Rounds(sha, states, clocks, runs, tid) && k <= |runs|
    ensures tid in states[k].transfers
  {
    if k > 0 {
      RoundFromAt(sha, states, clocks, runs, tid, k - 1);
    }
  }

  lemma RecordAt(sha: Hash, states: seq<State>, clocks: seq<int>, runs: seq<seq<Event>>, tid: Id, k: nat)
    requires Rounds(sha, states, clocks, runs, tid) && Inv(sha, states[0], clocks[0]) && k <= |runs|
    ensures tid in states[k].transfers && Consistent(sha, states[k].transfers[tid])
  {
    PresentAt(sha, states, clocks, runs, tid, k);
    RoundsKeep(sha, states, clocks, runs, tid, k);
    RecordOk(sha, states[k], clocks[k], tid);
  }

  lemma PrefixIsCount(sha: Hash, t: Transfer)
    requires Consistent(sha, t)
    ensures t.highest == t.chunkCount ==> t.presentCount == t.chunkCount
  {
    CountTrueFull(t.present);
  }

  function Flags(s: State, tid: Id): seq<bool> { if tid in s.transfers then s.transfers[tid].present else [] }

  /** The flags of the record before the first round and after each. */
  function History(states: seq<State>, tid: Id): (h: seq<seq<bool>>)
    ensures |h| == |states|
  {
    seq(|states|, k requires 0 <= k < |states| => Flags(states[k], tid))
  }

  ghost predicate RoundByRound(h: seq<seq<bool>>) {
    forall k :: 0 <= k < |h| - 1 ==> |h[k]| < TWO_32 && Round(h[k], h[k + 1])
  }

  ghost predicate FlagsRound(states: seq<State>, tid: Id, k: nat)
    requires k + 1 < |states|
  {
    |Flags(states[k], tid)| < TWO_32 && Round(Flags(states[k], tid), Flags(states[k + 1], tid))
  }

  lemma FlagsAt(sha: Hash, states: seq<State>, clocks: seq<int>, runs: seq<seq<Event>>, tid: Id, k: nat)
    requires Rounds(sha, states, clocks, runs, tid) && Inv(sha, states[0], clocks[0]) && k < |runs|
    ensures FlagsRound(states, tid, k)
  {
    RoundAt(sha, states, clocks, runs, tid, k);
  }

  lemma HistoryRounds(states: seq<State>, tid: Id)
    requires forall k: nat :: k + 1 < |states| ==> FlagsRound(states, tid, k)
    ensures RoundByRound(History(states, tid))
  {
    var history := History(states, tid);
    forall k | 0 <= k < |history| - 1
      ensures |history[k]| < TWO_32 && Round(history[k], history[k + 1])
    {
      assert FlagsRound(states, tid, k);
    }
  }

  lemma HistoryEnds(sha: Hash, t: Transfer, history: seq<seq<bool>>, t': Transfer)
    requires Consistent(sha, t) && Consistent(sha, t') && history != [] && RoundByRound(history)
    requires history[0] == t.present && history[|history| - 1] == t'.present
    ensures var rounds := |history| - 1;
            && (t'.highest == t'.chunkCount || t'.highest >= rounds * 2048)
            && (rounds >= 8 || (rounds >= 1 && t'.chunkCount <= 256) ==>
                  t'.highest == t'.chunkCount && t'.presentCount == t'.chunkCount)
  {
    RoundsComplete(history, |history| - 1, t'.highest);
    PrefixIsCount(sha, t');
  }

  /** Eight rounds complete every transfer, one round completes a transfer of at most 256 chunks, and every round before
      that moves the contiguous prefix on by at least 2048 chunks. */
  lemma ResumeConverges(sha: Hash, states: seq<State>, clocks: seq<int>, runs: seq<seq<Event>>, tid: Id)
    requires Rounds(sha, states, clocks, runs, tid) && Inv(sha, states[0], clocks[0])
    ensures tid in states[|runs|].transfers
    ensures var t := states[|runs|].transfers[tid];
            && (t.highest == t.chunkCount || t.highest >= |runs| * 2048)
            && (|runs| >= 8 || (|runs| >= 1 && t.chunkCount <= 256) ==>
                  t.highest == t.chunkCount && t.presentCount == t.chunkCount)
  {
    var n, history := |runs|, History(states, tid);
    forall k: nat | k < n
      ensures FlagsRound(states, tid, k)
    {
      FlagsAt(sha, states, clocks, runs, tid, k);
    }
    HistoryRounds(states, tid);
    RecordAt(sha, states, clocks, runs, tid, 0);
    RecordAt(sha, states, clocks, runs, tid, n);
    HistoryEnds(sha, states[0].transfers[tid], history, states[n].transfers[tid]);
  }

  // ---- through the wire ----

  function ResponseOf(tid: Id, v: ResumeView): W.ResumeResponse
    requires v.chunkCount < TWO_32 && v.highest < TWO_32
  {
    W.ResumeResponse(
      tid, v.chunkCount, v.highest, if v.encoding == AsBitmap then 0 else 1, v.bitmap, W.RangeBytes(v.ranges))
  }

  /** The record's view is small enough for the client's decoder. */
  predicate Arrives(t: Transfer) { t.chunkCount <= 256 || |Gaps(t.present, 0)| <= 1019 }

  lemma ViewFits(sha: Hash, t: Transfer)
    requires Consistent(sha, t)
    ensures var v := ResumeViewOf(t);
            && 0 < v.chunkCount <= MAX_CHUNKS && v.highest < TWO_32 && |v.ranges| <= MAX_MISSING_RANGES
            && if v.encoding == AsBitmap then v.ranges == [] && |v.bitmap| <= 32 else v.bitmap == []
  {
    ResumeViewExact(sha, t);
  }

  /** The server never refuses to encode the view; the client decodes it exactly when it has at most 256 chunks or at
      most 1019 missing runs, and otherwise gets nothing. */
  lemma ResponseArrives(sha: Hash, t: Transfer, tid: Id)
    requires Consistent(sha, t)
    ensures var v := ResumeViewOf(t);
            && v.highest < TWO_32 && W.MarshalResumeResponse(ResponseOf(tid, v)).Ok?
            && W.UnmarshalResumeResponse(W.MarshalResumeResponse(ResponseOf(tid, v)).value) ==
               if Arrives(t) then W.Ok(ResponseOf(tid, v)) else W.Bad(PayloadTooLarge)
  {
    var v := ResumeViewOf(t);
    ViewFits(sha, t);
    W.ResumeResponseFits(ResponseOf(tid, v), v.ranges);
  }

  /** What a client reads off a decoded response: the chunks it is told are missing. */
  ghost predicate ToldMissing(r: W.ResumeResponse, i: nat) {
    if r.encoding == 0 then i < 8 * |r.bitmap| && !BitOf(r.bitmap, i)
    else exists rs: seq<Range> :: W.RangeBytes(rs) == r.missing && Covered(rs, i)
  }

  /** A view that arrives is complete: the client is told exactly what is missing. */
  lemma ToldExactly(sha: Hash, t: Transfer, tid: Id, i: nat)
    requires Consistent(sha, t) && Arrives(t) && i < t.chunkCount && ResumeViewOf(t).highest < TWO_32
    ensures ToldMissing(ResponseOf(tid, ResumeViewOf(t)), i) <==> i !in t.chunks
  {
    ResumeViewExact(sha, t);
    if t.chunkCount > 256 {
      var v := ResumeViewOf(t);
      var r := ResponseOf(tid, v);
      if ToldMissing(r, i) {
        var rs: seq<Range> :| W.RangeBytes(rs) == r.missing && Covered(rs, i);
        W.RangeBytesInjective(rs, v.ranges);
      } else {
        assert !Covered(v.ranges, i);
      }
    }
  }

  /** The response that carries the view in an answer to the client, as the client decodes it. */
  ghost predicate Hears(r: Reply, tid: Id, heard: W.ResumeResponse) {
    && r.View? && r.resume.chunkCount < TWO_32 && r.resume.highest < TWO_32
    && var sent := W.MarshalResumeResponse(ResponseOf(tid, r.resume));
       sent.Ok? && W.UnmarshalResumeResponse(sent.value) == W.Ok(heard)
  }

  lemma HeardExactly(sha: Hash, s: State, clock: int, call: Call, now: int, tid: Id, heard: W.ResumeResponse)
    requires Inv(sha, s, clock) && AsksView(call, tid) && Hears(Step(sha, s, call, now).reply, tid, heard)
    ensures tid in s.transfers && heard.chunkCount == s.transfers[tid].chunkCount
    ensures forall i: nat :: i < heard.chunkCount ==> (ToldMissing(heard, i) <==> i !in s.transfers[tid].chunks)
  {
    ViewGranted(sha, s, call, now, tid);
    RecordOk(sha, s, clock, tid);
    var t := s.transfers[tid];
    ResponseArrives(sha, t, tid);
    forall i: nat | i < heard.chunkCount
      ensures ToldMissing(heard, i) <==> i !in t.chunks
    {
      ToldExactly(sha, t, tid, i);
    }
  }

  /** A client whose request for the view is answered with a response that it can decode needs one round: once every
      chunk that the response names has been put and accepted, whatever else happened, the transfer is complete. */
  lemma OneRoundSuffices(sha: Hash, s: State, clock: int, evs: seq<Event>, tid: Id, heard: W.ResumeResponse)
    requires Inv(sha, s, clock) && Timed(clock, evs) && NeverMints(evs, tid)
    requires evs != [] && AsksView(evs[0].call, tid) && Hears(Replies(sha, s, evs)[0], tid, heard)
    requires forall i: nat :: i < heard.chunkCount && ToldMissing(heard, i) ==> PutDuring(sha, s, evs, tid, i)
    requires tid in After(sha, s, evs).transfers
    ensures var t := After(sha, s, evs).transfers[tid]; t.presentCount == t.chunkCount && Whole(t)
  {
    HeardExactly(sha, s, clock, evs[0].call, evs[0].now, tid, heard);
    var t, t' := s.transfers[tid], After(sha, s, evs).transfers[tid];
    RunEvolves(sha, s, clock, evs, tid);
    RunKeeps(sha, s, clock, evs);
    RecordOk(sha, After(sha, s, evs), ClockAfter(clock, evs), tid);
    forall i: nat | i < t.chunkCount
      ensures t'.present[i]
    {
      if i !in t.chunks {
        PutDuringStays(sha, s, clock, evs, tid, i);
      }
    }
    CountTrueFull(t'.present);
  }
}
