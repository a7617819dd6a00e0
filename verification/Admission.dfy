/** The handler's gate for signed requests: verify, check the clock skew, consult the replay cache. Over any run one
    request passes it at most once. */
module Admission {
  import opened Octets
  import opened Limits
  import opened Shard
  import opened Runs
  import opened Auth
  import M = MailAnswers
  import T = TransferAnswers

  datatype Request =
    | Send(message: SendMessage)
    | Create(create: TransferCreate)
    | Complete(complete: TransferComplete)
  {
    function Check(): Option<ErrorCode> {
      match this
      case Send(m) => CheckSend(m)
      case Create(c) => CheckCreate(c)
      case Complete(c) => CheckComplete(c)
    }

    function Timestamp(): U64 {
      match this
      case Send(m) => m.timestamp
      case Create(c) => c.timestamp
      case Complete(c) => c.timestamp
    }

    /** The key covers the operation, the sender and the nonce, not the time. */
    function Key(sha: Hash): Digest
      requires Check().None?
    {
      match this
      case Send(m) => sha(ReplayPreimage(KindSend, m.senderPub, m.nonce))
      case Create(c) => sha(ReplayPreimage(KindCreate, c.senderPub, c.nonce))
      case Complete(c) => sha(ReplayPreimage(KindComplete, c.senderPub, c.nonce))
    }

    /** What the signature covers: not the mailbox of a seal, and an absent mailbox of a creation as sixteen zeros. */
    function Fields(): Signed
      requires Check().None?
    {
      match this
      case Send(m) => MsgSend(m.senderPub, m.mailboxID, m.timestamp, m.nonce, m.envelope)
      case Create(c) =>
        XferCreate(c.senderPub, if |c.mailboxID| == 16 then c.mailboxID else NO_MAILBOX, c.totalSize, c.chunkSize,
                   c.chunkCount, c.timestamp, c.nonce, c.manifest)
      case Complete(c) => XferComplete(c.senderPub, c.transferID, c.manifestHash, c.timestamp, c.nonce)
    }

    function Sender(): Bytes {
      match this
      case Send(m) => m.senderPub
      case Create(c) => c.senderPub
      case Complete(c) => c.senderPub
    }

    function Signature(): Bytes {
      match this
      case Send(m) => m.signature
      case Create(c) => c.signature
      case Complete(c) => c.signature
    }
  }

  /** Whether a request is well signed is a fixed fact about it. */
  type Verifier = Request -> bool

  /** The handlers' verifier, from a signature scheme on key, message and signature. */
  function Signatures(sha: Hash, scheme: (Bytes, Bytes, Bytes) -> bool): Verifier {
    (q: Request) => q.Check().None? && scheme(q.Sender(), Canonical(sha, q.Fields()), q.Signature())
  }

  /** Either a signed request, with the handler's and then the store's clock read, or any other store operation. */
  datatype Action = Attempt(handlerNow: int, storeNow: int, request: Request) | Other(event: Event) {
    function At(): int { if Attempt? then storeNow else event.now }
  }

  datatype Gate = Gate(next: State, admitted: bool)

  /** The order of the handlers: shape, signature, skew by the handler's clock, replay by the store's clock. */
  ghost function Enter(sha: Hash, verify: Verifier, s: State, a: Action): Gate {
    match a
    case Other(e) => Gate(Step(sha, s, e.call, e.now).next, false)
    case Attempt(handlerNow, storeNow, q) =>
      if q.Check().Some? || !verify(q) || CheckSkew(q.Timestamp(), handlerNow).Some? then Gate(s, false)
      else
        var o := ReplayStep(s, q.Key(sha), storeNow);
        Gate(o.next, o.reply == Answer(false))
  }

  ghost function Admitted(sha: Hash, verify: Verifier, s: State, actions: seq<Action>): (flags: seq<bool>)
    ensures |flags| == |actions|
    decreases |actions|
  {
    if actions == [] then []
    else
      var g := Enter(sha, verify, s, actions[0]);
      [g.admitted] + Admitted(sha, verify, g.next, actions[1..])
  }

  /** The store's clock does not go back, and reads less than `lag` after the handler's of the same request. */
  predicate Prompt(clock: int, lag: int, actions: seq<Action>)
    decreases |actions|
  {
    actions == [] ||
    (&& clock <= actions[0].At()
     && (actions[0].Attempt? ==>
           && 0 <= actions[0].handlerNow <= TWO_63 / 2
           && actions[0].handlerNow <= actions[0].storeNow < actions[0].handlerNow + lag)
     && Prompt(actions[0].At(), lag, actions[1..]))
  }

  ghost predicate Remembers(s: State, key: Digest, until: int) { key in s.replay && s.replay[key] >= until }

  /** Nothing makes the cache forget a key before its time. */
  lemma EnterRemembers(sha: Hash, verify: Verifier, s: State, a: Action, key: Digest, until: int)
    requires Remembers(s, key, until) && a.At() < until
    ensures Remembers(Enter(sha, verify, s, a).next, key, until)
  {
    match a
    case Attempt(_, _, _) =>
    case Other(e) => StepRemembers(sha, s, e.call, e.now, key, until);
  }

  lemma StepRemembers(sha: Hash, s: State, call: Call, now: int, key: Digest, until: int)
    requires Remembers(s, key, until) && now < until
    ensures Remembers(Step(sha, s, call, now).next, key, until)
  {
    if !call.DoReplay? {
      CacheUntouched(sha, s, call, now);
    }
  }

  /** Only the gate's own operation and the sweep touch the cache. */
  lemma CacheUntouched(sha: Hash, s: State, call: Call, now: int)
    requires !call.DoReplay?
    ensures Step(sha, s, call, now).next.replay == if call.DoSweep? then LiveKeys(s.replay, now) else s.replay
  {
  }

  /** A remembered key bars every attempt that uses it. */
  lemma {:induction false} BarredWhileRemembered(
    sha: Hash, verify: Verifier, s: State, clock: int, actions: seq<Action>, key: Digest, until: int, j: nat)
    requires Remembers(s, key, until) && Prompt(clock, MAX_CLOCK_SKEW, actions)
    requires j < |actions| && actions[j].Attempt? && actions[j].storeNow < until
    requires actions[j].request.Check().None? && actions[j].request.Key(sha) == key
    ensures !Admitted(sha, verify, s, actions)[j]
    decreases |actions|
  {
    if j > 0 {
      FirstIsEarlier(clock, actions, j);
      EnterRemembers(sha, verify, s, actions[0], key, until);
      BarredWhileRemembered(sha, verify, Enter(sha, verify, s, actions[0]).next, actions[0].At(), actions[1..], key,
                            until, j - 1);
    }
  }

  lemma {:induction false} FirstIsEarlier(clock: int, actions: seq<Action>, j: nat)
    requires Prompt(clock, MAX_CLOCK_SKEW, actions) && j < |actions|
    ensures clock <= actions[0].At() <= actions[j].At()
    decreases |actions|
  {
    if j > 0 {
      FirstIsEarlier(actions[0].At(), actions[1..], j - 1);
    }
  }

  lemma {:induction false} PromptAt(clock: int, actions: seq<Action>, j: nat)
    requires Prompt(clock, MAX_CLOCK_SKEW, actions) && j < |actions| && actions[j].Attempt?
    ensures 0 <= actions[j].handlerNow <= TWO_63 / 2
    ensures actions[j].handlerNow <= actions[j].storeNow < actions[j].handlerNow + MAX_CLOCK_SKEW
    decreases |actions|
  {
    if j > 0 {
      PromptAt(actions[0].At(), actions[1..], j - 1);
    }
  }

  /** Two passes of the skew check lie at most a minute apart. */
  lemma SkewSpan(ts: U64, a: int, b: int)
    requires 0 <= a <= TWO_63 / 2 && 0 <= b <= TWO_63 / 2
    requires CheckSkew(ts, a).None? && CheckSkew(ts, b).None?
    ensures b <= a + 2 * MAX_CLOCK_SKEW
  {
    SkewExact(ts, a);
    SkewExact(ts, b);
  }

  lemma {:induction false} AdmittedPassed(sha: Hash, verify: Verifier, s: State, actions: seq<Action>, j: nat)
    requires j < |actions| && Admitted(sha, verify, s, actions)[j]
    ensures actions[j].Attempt? && actions[j].request.Check().None? && verify(actions[j].request)
    ensures CheckSkew(actions[j].request.Timestamp(), actions[j].handlerNow).None?
    decreases |actions|
  {
    if j > 0 {
      AdmittedPassed(sha, verify, Enter(sha, verify, s, actions[0]).next, actions[1..], j - 1);
    }
  }

  /** Two requests with the same replay key and the same time, whatever else differs. */
  predicate Replays(sha: Hash, a: Action, b: Action) {
    && a.Attempt? && b.Attempt? && a.request.Check().None? && b.request.Check().None?
    && a.request.Key(sha) == b.request.Key(sha) && a.request.Timestamp() == b.request.Timestamp()
  }

  lemma DropOne<T>(s: seq<T>, rest: seq<T>, i: nat)
    requires 0 < i <= |s| && rest == s[1..]
    ensures rest[i - 1..] == s[i..]
  {
  }

  /** The rest of a run from action `i` on, and the state and clock it starts with. */
  lemma {:induction false} RestFrom(sha: Hash, verify: Verifier, s: State, clock: int, actions: seq<Action>, i: nat)
      returns (s': State, clock': int)
    requires Prompt(clock, MAX_CLOCK_SKEW, actions) && i <= |actions|
    ensures Prompt(clock', MAX_CLOCK_SKEW, actions[i..])
    ensures Admitted(sha, verify, s, actions)[i..] == Admitted(sha, verify, s', actions[i..])
    decreases |actions|
  {
    s', clock' := s, clock;
    if i == 0 {
      assert actions[0..] == actions && Admitted(sha, verify, s, actions)[0..] == Admitted(sha, verify, s, actions);
    } else {
      var g, rest := Enter(sha, verify, s, actions[0]), actions[1..];
      s', clock' := RestFrom(sha, verify, g.next, actions[0].At(), rest, i - 1);
      DropOne(actions, rest, i);
      DropOne(Admitted(sha, verify, s, actions), Admitted(sha, verify, g.next, rest), i);
    }
  }

  lemma NotAgain(sha: Hash, verify: Verifier, s: State, clock: int, actions: seq<Action>, j: nat)
    requires Prompt(clock, MAX_CLOCK_SKEW, actions) && 0 < j < |actions| && Replays(sha, actions[0], actions[j])
    ensures !(Admitted(sha, verify, s, actions)[0] && Admitted(sha, verify, s, actions)[j])
  {
    var a, b := actions[0], actions[j];
    var g := Enter(sha, verify, s, a);
    var key, until := a.request.Key(sha), a.storeNow + REPLAY_WINDOW;
    if g.admitted && Admitted(sha, verify, s, actions)[j] {
      assert Remembers(g.next, key, until);
      AdmittedPassed(sha, verify, s, actions, j);
      PromptAt(clock, actions, j);
      SkewSpan(a.request.Timestamp(), a.handlerNow, b.handlerNow);
      BarredWhileRemembered(sha, verify, g.next, a.At(), actions[1..], key, until, j - 1);
    }
  }

  lemma FlagsAt(flags: seq<bool>, rest: seq<bool>, i: nat, j: nat)
    requires i < j < |flags| && flags[i..] == rest
    ensures rest[0] == flags[i] && rest[j - i] == flags[j]
  {
  }

  /** Over any run, with prunes, sweeps and any other traffic, of all requests with one replay key and one time at
      most one is admitted, provided the store's clock is read less than 30 seconds after the handler's. */
  lemma AtMostOnce(sha: Hash, verify: Verifier, s: State, clock: int, actions: seq<Action>, i: nat, j: nat)
    requires Prompt(clock, MAX_CLOCK_SKEW, actions) && i < j < |actions| && Replays(sha, actions[i], actions[j])
    ensures !(Admitted(sha, verify, s, actions)[i] && Admitted(sha, verify, s, actions)[j])
  {
    var flags, rest := Admitted(sha, verify, s, actions), actions[i..];
    var s', clock' := RestFrom(sha, verify, s, clock, actions, i);
    FlagsAt(flags, Admitted(sha, verify, s', rest), i, j);
    assert rest[0] == actions[i] && rest[j - i] == actions[j];
    NotAgain(sha, verify, s', clock', rest, j - i);
  }

  /** Equal signed bytes mean one replay key and one time. */
  lemma SameBytesReplay(sha: Hash, a: Action, b: Action)
    requires a.Attempt? && b.Attempt? && a.request.Check().None? && b.request.Check().None?
    requires Canonical(sha, a.request.Fields()) == Canonical(sha, b.request.Fields())
    ensures Replays(sha, a, b)
  {
    CanonicalInjective(sha, a.request.Fields(), b.request.Fields());
  }

  /** Under any signature scheme one set of signed bytes is admitted at most once, however the copies differ in what the
      signature does not cover: the signature itself, the mailbox of a seal, an absent mailbox written as zeros. */
  lemma SignedBytesAtMostOnce(
    sha: Hash, scheme: (Bytes, Bytes, Bytes) -> bool, s: State, clock: int, actions: seq<Action>, i: nat, j: nat)
    requires Prompt(clock, MAX_CLOCK_SKEW, actions) && i < j < |actions| && actions[i].Attempt? && actions[j].Attempt?
    requires actions[i].request.Check().None? && actions[j].request.Check().None?
    requires Canonical(sha, actions[i].request.Fields()) == Canonical(sha, actions[j].request.Fields())
    ensures var flags := Admitted(sha, Signatures(sha, scheme), s, actions); !(flags[i] && flags[j])
  {
    SameBytesReplay(sha, actions[i], actions[j]);
    AtMostOnce(sha, Signatures(sha, scheme), s, clock, actions, i, j);
  }

  lemma AdmittedCons(sha: Hash, verify: Verifier, s: State, actions: seq<Action>)
    requires actions != []
    ensures var g := Enter(sha, verify, s, actions[0]);
            Admitted(sha, verify, s, actions) == [g.admitted] + Admitted(sha, verify, g.next, actions[1..])
  {
  }

  /** The proviso is exact: once the store may be read a full 30 seconds late, every well-formed, well-signed request
      whose time is not near the ends of the clock can be admitted twice. */
  lemma LateStoreAdmitsTwice(sha: Hash, verify: Verifier, q: Request)
    requires q.Check().None? && verify(q) && MAX_CLOCK_SKEW <= q.Timestamp() <= TWO_63 / 4
    ensures var ts := q.Timestamp();
            var actions := [Attempt(ts - MAX_CLOCK_SKEW, ts - MAX_CLOCK_SKEW, q),
                            Attempt(ts + MAX_CLOCK_SKEW, ts + 2 * MAX_CLOCK_SKEW, q)];
            Prompt(0, MAX_CLOCK_SKEW + 1, actions) && Admitted(sha, verify, EMPTY, actions) == [true, true]
  {
    var ts := q.Timestamp();
    var a := Attempt(ts - MAX_CLOCK_SKEW, ts - MAX_CLOCK_SKEW, q);
    var b := Attempt(ts + MAX_CLOCK_SKEW, ts + 2 * MAX_CLOCK_SKEW, q);
    SkewExact(ts, a.handlerNow);
    SkewExact(ts, b.handlerNow);
    var g := Enter(sha, verify, EMPTY, a);
    EntersUnseen(sha, verify, EMPTY, a);
    EntersUnseen(sha, verify, g.next, b);
    TwoFlags(sha, verify, EMPTY, a, b);
  }

  lemma TwoFlags(sha: Hash, verify: Verifier, s: State, a: Action, b: Action)
    ensures var g := Enter(sha, verify, s, a);
            Admitted(sha, verify, s, [a, b]) == [g.admitted, Enter(sha, verify, g.next, b).admitted]
  {
    var g := Enter(sha, verify, s, a);
    AdmittedCons(sha, verify, s, [a, b]);
    AdmittedCons(sha, verify, g.next, [b]);
    assert [a, b][1..] == [b] && [b][1..] == [];
  }

  lemma EntersUnseen(sha: Hash, verify: Verifier, s: State, a: Action)
    requires a.Attempt? && a.request.Check().None? && verify(a.request)
    requires CheckSkew(a.request.Timestamp(), a.handlerNow).None?
    requires a.request.Key(sha) in s.replay ==> s.replay[a.request.Key(sha)] <= a.storeNow
    ensures var g := Enter(sha, verify, s, a);
            g.admitted && a.request.Key(sha) in g.next.replay &&
            g.next.replay[a.request.Key(sha)] == a.storeNow + REPLAY_WINDOW
  {
  }

  // ---- exactly who is admitted ----

  datatype Origin = Origin(kind: SignedKind, sender: Bytes, nonce: Bytes)

  /** The operation, the sender and the nonce of a request, read off its fields. */
  function OriginOf(q: Request): Origin {
    match q
    case Send(m) => Origin(KindSend, m.senderPub, m.nonce)
    case Create(c) => Origin(KindCreate, c.senderPub, c.nonce)
    case Complete(c) => Origin(KindComplete, c.senderPub, c.nonce)
  }

  /** The time of a request, read off its fields. */
  function TimeOf(q: Request): U64 {
    match q
    case Send(m) => m.timestamp
    case Create(c) => c.timestamp
    case Complete(c) => c.timestamp
  }

  /** Within thirty seconds of the clock, or, by overflow, exactly 2^63 ahead of it. */
  predicate Timely(ts: U64, now: int) {
    -30_000 <= now - (if ts < TWO_63 then ts as int else ts - TWO_64) <= 30_000 || ts == now + TWO_63
  }

  lemma OriginShaped(q: Request)
    requires q.Check().None?
    ensures |OriginOf(q).sender| == 32 && |OriginOf(q).nonce| == 16
  {
  }

  /** What is hashed for the replay cache. */
  function Hashed(q: Request): Bytes
    requires q.Check().None?
  {
    OriginShaped(q);
    ReplayPreimage(OriginOf(q).kind, OriginOf(q).sender, OriginOf(q).nonce)
  }

  lemma KeyHashes(sha: Hash, q: Request)
    requires q.Check().None?
    ensures q.Key(sha) == sha(Hashed(q))
  {
  }

  lemma HashedDetermines(p: Request, q: Request)
    requires p.Check().None? && q.Check().None?
    ensures Hashed(p) == Hashed(q) <==> OriginOf(p) == OriginOf(q)
  {
    var a, b := OriginOf(p), OriginOf(q);
    OriginShaped(p);
    OriginShaped(q);
    if Hashed(p) == Hashed(q) {
      ReplayPreimageInjective(a.kind, a.sender, a.nonce, b.kind, b.sender, b.nonce);
    }
  }

  /** The hash tells two requests apart if they put different bytes into the replay cache. */
  predicate ToldApart(sha: Hash, a: Action, b: Action) {
    a.Attempt? && b.Attempt? && a.request.Check().None? && b.request.Check().None? ==>
      (sha(Hashed(a.request)) == sha(Hashed(b.request)) ==> Hashed(a.request) == Hashed(b.request))
  }

  /** Only the gate consults the replay cache, and the hash tells apart what the requests of the run put into it. */
  ghost predicate GateOnly(sha: Hash, actions: seq<Action>) {
    && (forall a <- actions :: a.Other? ==> !a.event.call.DoReplay?)
    && forall a <- actions, b <- actions :: ToldApart(sha, a, b)
  }

  // A gate is a machine that admits or refuses each action in turn. These facts hold of any such machine.

  type Machine = (State, Action) -> Gate

  ghost function Flags(f: Machine, s: State, actions: seq<Action>): (flags: seq<bool>)
    ensures |flags| == |actions|
    decreases |actions|
  {
    if actions == [] then [] else [f(s, actions[0]).admitted] + Flags(f, f(s, actions[0]).next, actions[1..])
  }

  /** The state in which action `n` finds the machine. */
  ghost function Reached(f: Machine, s: State, actions: seq<Action>, n: nat): State
    requires n <= |actions|
  {
    if n == 0 then s else f(Reached(f, s, actions, n - 1), actions[n - 1]).next
  }

  lemma {:induction false} ReachedTail(f: Machine, s: State, actions: seq<Action>, n: nat)
    requires 0 < n <= |actions|
    ensures Reached(f, f(s, actions[0]).next, actions[1..], n - 1) == Reached(f, s, actions, n)
  {
    if n > 1 {
      ReachedTail(f, s, actions, n - 1);
      assert actions[1..][n - 2] == actions[n - 1];
    }
  }

  lemma {:induction false} VerdictAt(f: Machine, s: State, actions: seq<Action>, n: nat)
    requires n < |actions|
    ensures Flags(f, s, actions)[n] == f(Reached(f, s, actions, n), actions[n]).admitted
    decreases |actions|
  {
    if n > 0 {
      VerdictAt(f, f(s, actions[0]).next, actions[1..], n - 1);
      ReachedTail(f, s, actions, n);
    }
  }

  ghost function EnterOf(sha: Hash, verify: Verifier): Machine { (s: State, a: Action) => Enter(sha, verify, s, a) }

  lemma {:induction false} AdmittedIsFlags(sha: Hash, verify: Verifier, s: State, actions: seq<Action>)
    ensures Admitted(sha, verify, s, actions) == Flags(EnterOf(sha, verify), s, actions)
    decreases |actions|
  {
    if actions != [] {
      AdmittedIsFlags(sha, verify, Enter(sha, verify, s, actions[0]).next, actions[1..]);
    }
  }

  /** The state in which action `n` of a run from the empty store finds the store. */
  ghost function StateAt(sha: Hash, verify: Verifier, actions: seq<Action>, n: nat): State
    requires n <= |actions|
  {
    Reached(EnterOf(sha, verify), EMPTY, actions, n)
  }

  ghost predicate EntersAt(sha: Hash, verify: Verifier, actions: seq<Action>, n: nat)
    requires n < |actions|
  {
    Enter(sha, verify, StateAt(sha, verify, actions, n), actions[n]).admitted
  }

  lemma AdmittedAt(sha: Hash, verify: Verifier, actions: seq<Action>, n: nat)
    requires n < |actions|
    ensures Admitted(sha, verify, EMPTY, actions)[n] == EntersAt(sha, verify, actions, n)
  {
    AdmittedIsFlags(sha, verify, EMPTY, actions);
    VerdictAt(EnterOf(sha, verify), EMPTY, actions, n);
  }

  /** Some earlier attempt with this key was admitted less than ninety seconds before `time`. */
  ghost predicate Marked(sha: Hash, verify: Verifier, actions: seq<Action>, n: nat, key: Digest, time: int)
    requires n <= |actions|
  {
    exists i: nat :: i < n && Marks(sha, verify, actions, i, key, time)
  }

  ghost predicate Marks(sha: Hash, verify: Verifier, actions: seq<Action>, i: nat, key: Digest, time: int)
    requires i < |actions|
  {
    && actions[i].Attempt? && EntersAt(sha, verify, actions, i)
    && actions[i].request.Check().None? && actions[i].request.Key(sha) == key && time < actions[i].storeNow + 90_000
  }

  predicate Blocks(s: State, key: Digest, time: int) { key in s.replay && time < s.replay[key] }

  /** One action changes what the cache blocks only by admitting a request. */
  lemma BlocksNext(sha: Hash, verify: Verifier, s: State, a: Action, key: Digest, time: int)
    requires a.At() <= time && (a.Other? ==> !a.event.call.DoReplay?)
    ensures Blocks(Enter(sha, verify, s, a).next, key, time) <==>
            || Blocks(s, key, time)
            || (&& a.Attempt? && Enter(sha, verify, s, a).admitted && a.request.Check().None?
                && a.request.Key(sha) == key && time < a.storeNow + 90_000)
  {
    if a.Other? {
      OtherBlocks(sha, s, a.event.call, a.event.now, key, time);
    }
  }

  lemma OtherBlocks(sha: Hash, s: State, call: Call, now: int, key: Digest, time: int)
    requires now <= time && !call.DoReplay?
    ensures Blocks(Step(sha, s, call, now).next, key, time) <==> Blocks(s, key, time)
  {
    CacheUntouched(sha, s, call, now);
  }

  lemma BlocksAfter(sha: Hash, verify: Verifier, actions: seq<Action>, n: nat, key: Digest, time: int)
    requires n < |actions| && actions[n].At() <= time && (actions[n].Other? ==> !actions[n].event.call.DoReplay?)
    ensures Blocks(StateAt(sha, verify, actions, n + 1), key, time) <==>
            Blocks(StateAt(sha, verify, actions, n), key, time) || Marks(sha, verify, actions, n, key, time)
  {
    BlocksNext(sha, verify, StateAt(sha, verify, actions, n), actions[n], key, time);
  }

  /** The actions before `n` are no later than `time`, and none of the others consults the cache. */
  predicate Past(actions: seq<Action>, n: nat, time: int)
    requires n <= |actions|
  {
    forall i :: 0 <= i < n ==> actions[i].At() <= time && (actions[i].Other? ==> !actions[i].event.call.DoReplay?)
  }

  /** What is set by marks and never unset is set exactly when there was a mark. */
  lemma {:induction false} Accumulates(b: seq<bool>, m: seq<bool>, n: nat)
    requires |b| == |m| + 1 && n <= |m| && !b[0]
    requires forall k {:trigger m[k]} :: 0 <= k < n ==> (b[k + 1] <==> b[k] || m[k])
    ensures b[n] <==> exists i: nat :: i < n && m[i]
  {
    if n > 0 {
      Accumulates(b, m, n - 1);
      assert b[n - 1 + 1] <==> b[n - 1] || m[n - 1];
    }
  }

  /** Before each action: whether the cache blocks the key. */
  ghost function BlockedAt(sha: Hash, verify: Verifier, actions: seq<Action>, key: Digest, time: int): seq<bool> {
    seq(|actions| + 1, k requires 0 <= k <= |actions| => Blocks(StateAt(sha, verify, actions, k), key, time))
  }

  /** For each action: whether it has the key recorded. */
  ghost function MarksAt(sha: Hash, verify: Verifier, actions: seq<Action>, key: Digest, time: int): seq<bool> {
    seq(|actions|, k requires 0 <= k < |actions| => Marks(sha, verify, actions, k, key, time))
  }

  lemma BlockedNext(
    sha: Hash, verify: Verifier, actions: seq<Action>, key: Digest, time: int, b: seq<bool>, m: seq<bool>, k: nat)
    requires b == BlockedAt(sha, verify, actions, key, time) && m == MarksAt(sha, verify, actions, key, time)
    requires k < |actions| && actions[k].At() <= time && (actions[k].Other? ==> !actions[k].event.call.DoReplay?)
    ensures b[k + 1] <==> b[k] || m[k]
  {
    BlocksAfter(sha, verify, actions, k, key, time);
  }

  lemma MarkedSomewhere(
    sha: Hash, verify: Verifier, actions: seq<Action>, key: Digest, time: int, m: seq<bool>, n: nat)
    requires m == MarksAt(sha, verify, actions, key, time) && n <= |actions|
    ensures Marked(sha, verify, actions, n, key, time) <==> exists i: nat :: i < n && m[i]
  {
    if Marked(sha, verify, actions, n, key, time) {
      var i: nat :| i < n && Marks(sha, verify, actions, i, key, time);
      assert m[i];
    }
    if exists i: nat :: i < n && m[i] {
      var i: nat :| i < n && m[i];
      assert Marks(sha, verify, actions, i, key, time);
    }
  }

  /** The cache blocks exactly the keys of recent admissions. */
  lemma BlocksExactly(sha: Hash, verify: Verifier, actions: seq<Action>, n: nat, key: Digest, time: int)
    requires n <= |actions| && Past(actions, n, time)
    ensures Blocks(StateAt(sha, verify, actions, n), key, time) <==> Marked(sha, verify, actions, n, key, time)
  {
    var b, m := BlockedAt(sha, verify, actions, key, time), MarksAt(sha, verify, actions, key, time);
    forall k | 0 <= k < n
      ensures b[k + 1] <==> b[k] || m[k]
    {
      BlockedNext(sha, verify, actions, key, time, b, m, k);
    }
    assert !b[0];
    Accumulates(b, m, n);
    MarkedSomewhere(sha, verify, actions, key, time, m, n);
    assert b[n] == Blocks(StateAt(sha, verify, actions, n), key, time);
  }

  lemma {:induction false} EarlierAt(clock: int, lag: int, actions: seq<Action>, i: nat, j: nat)
    requires Prompt(clock, lag, actions) && i <= j < |actions|
    ensures clock <= actions[i].At() <= actions[j].At()
    ensures actions[j].Attempt? ==> 0 <= actions[j].handlerNow <= TWO_63 / 2
    decreases |actions|
  {
    if i > 0 {
      EarlierAt(actions[0].At(), lag, actions[1..], i - 1, j - 1);
    } else if j > 0 {
      EarlierAt(actions[0].At(), lag, actions[1..], 0, j - 1);
    }
  }

  predicate WellFormed(q: Request) {
    match q
    case Send(m) => M.WellFormedSend(m)
    case Create(c) => T.WellFormedCreate(c)
    case Complete(c) => T.WellFormedSeal(c)
  }

  lemma CheckExactly(q: Request)
    ensures q.Check().None? <==> WellFormed(q)
  {
  }

  /** The attempt is well formed, well signed and in time. */
  predicate Sound(verify: Verifier, a: Action) {
    a.Attempt? && WellFormed(a.request) && verify(a.request) && Timely(TimeOf(a.request), a.handlerNow)
  }

  lemma EnterExactly(sha: Hash, verify: Verifier, s: State, a: Action)
    requires a.Attempt? ==> 0 <= a.handlerNow <= TWO_63 / 2
    ensures Enter(sha, verify, s, a).admitted <==>
            Sound(verify, a) && a.request.Check().None? && !Blocks(s, sha(Hashed(a.request)), a.storeNow)
    ensures Sound(verify, a) ==> a.request.Check().None?
  {
    if a.Attempt? {
      CheckExactly(a.request);
      SkewExact(a.request.Timestamp(), a.handlerNow);
      if a.request.Check().None? {
        KeyHashes(sha, a.request);
      }
    }
  }

  lemma ComeEarlier(sha: Hash, clock: int, lag: int, actions: seq<Action>, j: nat)
    requires Prompt(clock, lag, actions) && GateOnly(sha, actions) && j < |actions|
    ensures Past(actions, j, actions[j].At())
  {
    forall i | 0 <= i < j
      ensures actions[i].At() <= actions[j].At() && (actions[i].Other? ==> !actions[i].event.call.DoReplay?)
    {
      EarlierAt(clock, lag, actions, i, j);
      assert actions[i] in actions;
    }
  }

  lemma MarksExactly(
    sha: Hash, verify: Verifier, clock: int, lag: int, actions: seq<Action>, i: nat, j: nat)
    requires Prompt(clock, lag, actions) && GateOnly(sha, actions) && i < j < |actions|
    requires actions[j].Attempt? && actions[j].request.Check().None?
    ensures Marks(sha, verify, actions, i, sha(Hashed(actions[j].request)), actions[j].storeNow) <==>
            && Admitted(sha, verify, EMPTY, actions)[i] && actions[i].Attempt?
            && OriginOf(actions[i].request) == OriginOf(actions[j].request)
            && actions[j].storeNow < actions[i].storeNow + 90_000
  {
    var a, b := actions[i], actions[j];
    AdmittedAt(sha, verify, actions, i);
    EarlierAt(clock, lag, actions, i, i);
    EnterExactly(sha, verify, StateAt(sha, verify, actions, i), a);
    if a.Attempt? && a.request.Check().None? {
      assert ToldApart(sha, a, b);
      KeyHashes(sha, a.request);
      HashedDetermines(a.request, b.request);
    }
  }

  /** Over any run from the empty store, whatever else is going on: an attempt is admitted exactly when it is well
      formed, well signed and in time, and no attempt admitted less than ninety seconds before asks for the same
      operation by the same sender with the same nonce. */
  lemma AdmittedExactly(sha: Hash, verify: Verifier, clock: int, lag: int, actions: seq<Action>, j: nat)
    requires Prompt(clock, lag, actions) && GateOnly(sha, actions) && j < |actions|
    ensures var flags := Admitted(sha, verify, EMPTY, actions);
            flags[j] <==>
              && Sound(verify, actions[j])
              && !exists i: nat ::
                   && i < j && flags[i] && actions[i].Attempt?
                   && OriginOf(actions[i].request) == OriginOf(actions[j].request)
                   && actions[j].storeNow < actions[i].storeNow + 90_000
  {
    var flags, a, s := Admitted(sha, verify, EMPTY, actions), actions[j], StateAt(sha, verify, actions, j);
    AdmittedAt(sha, verify, actions, j);
    EarlierAt(clock, lag, actions, 0, j);
    EnterExactly(sha, verify, s, a);
    if Sound(verify, a) {
      var key := sha(Hashed(a.request));
      ComeEarlier(sha, clock, lag, actions, j);
      BlocksExactly(sha, verify, actions, j, key, a.storeNow);
      forall i: nat | i < j
        ensures Marks(sha, verify, actions, i, key, a.storeNow) <==>
                && flags[i] && actions[i].Attempt? && OriginOf(actions[i].request) == OriginOf(a.request)
                && a.storeNow < actions[i].storeNow + 90_000
      {
        MarksExactly(sha, verify, clock, lag, actions, i, j);
      }
    }
  }

  // ---- what the signature covers ----

  /** The mailbox of a creation as it is signed: none is signed like the one of sixteen zeros. */
  function SignedMailbox(raw: Bytes): Bytes { if raw == [] then Zeros(16) else raw }

  /** Two requests that ask for the same; envelopes and manifests are compared by their hash. */
  predicate AsksTheSame(sha: Hash, a: Request, b: Request) {
    match (a, b)
    case (Send(m), Send(n)) =>
      && m.mailboxID == n.mailboxID && m.senderPub == n.senderPub && m.timestamp == n.timestamp && m.nonce == n.nonce
      && sha(m.envelope) == sha(n.envelope)
    case (Create(c), Create(d)) =>
      && SignedMailbox(c.mailboxID) == SignedMailbox(d.mailboxID) && c.totalSize == d.totalSize
      && c.chunkSize == d.chunkSize && c.chunkCount == d.chunkCount && c.senderPub == d.senderPub
      && c.timestamp == d.timestamp && c.nonce == d.nonce && sha(c.manifest) == sha(d.manifest)
    case (Complete(c), Complete(d)) =>
      && c.transferID == d.transferID && c.manifestHash == d.manifestHash && c.senderPub == d.senderPub
      && c.timestamp == d.timestamp && c.nonce == d.nonce
    case _ => false
  }

  lemma SignedZeros(raw: Bytes)
    requires |raw| == 0 || |raw| == 16
    ensures SignedMailbox(raw) == if |raw| == 16 then raw else NO_MAILBOX
  {
    assert Zeros(16) == NO_MAILBOX;
  }

  lemma FieldsDetermine(sha: Hash, a: Request, b: Request)
    requires a.Check().None? && b.Check().None?
    ensures SameUpToHash(sha, a.Fields(), b.Fields()) <==> AsksTheSame(sha, a, b)
  {
    if a.Create? && b.Create? {
      SignedZeros(a.create.mailboxID);
      SignedZeros(b.create.mailboxID);
    }
  }

  lemma SameCanonical(sha: Hash, a: Signed, b: Signed)
    requires SameUpToHash(sha, a, b)
    ensures Canonical(sha, a) == Canonical(sha, b)
  {
  }

  /** Two well-formed requests have the same signed bytes exactly when they ask for the same: nothing else they say is
      left out of the signature but the mailbox of a seal. */
  lemma SignatureCovers(sha: Hash, a: Request, b: Request)
    requires a.Check().None? && b.Check().None?
    ensures Canonical(sha, a.Fields()) == Canonical(sha, b.Fields()) <==> AsksTheSame(sha, a, b)
  {
    FieldsDetermine(sha, a, b);
    if Canonical(sha, a.Fields()) == Canonical(sha, b.Fields()) {
      CanonicalInjective(sha, a.Fields(), b.Fields());
    }
    if SameUpToHash(sha, a.Fields(), b.Fields()) {
      SameCanonical(sha, a.Fields(), b.Fields());
    }
  }
}
