/** The byte strings that signatures and replay keys cover, and the clock-skew check. */
module Auth {
  import opened Octets
  import opened Limits

  // ---- domains ----

  predicate Printable(s: string) { forall i :: 0 <= i < |s| ==> ' ' <= s[i] <= '~' }

  function Ascii(s: string): (b: Bytes)
    requires Printable(s)
    ensures |b| == |s| && forall i :: 0 <= i < |s| ==> b[i] == s[i] as int && b[i] != 0
  {
    seq(|s|, i requires 0 <= i < |s| => s[i] as int)
  }

  /** A domain ends at its first NUL. */
  predicate IsDomain(d: Bytes) { |d| > 0 && d[|d| - 1] == 0 && forall i :: 0 <= i < |d| - 1 ==> d[i] != 0 }

  /** No domain is a proper prefix of another, so the domain of a byte string can be read off its front. */
  lemma DomainsPrefixFree(d: Bytes, x: Bytes, e: Bytes, y: Bytes)
    requires IsDomain(d) && IsDomain(e) && d + x == e + y
    ensures d == e && x == y
  {
    var z := d + x;
    assert forall i :: 0 <= i < |d| ==> z[i] == d[i];
    assert forall i :: 0 <= i < |e| ==> z[i] == e[i];
    assert z[|d| - 1] == 0 && z[|e| - 1] == 0;
    SplitFront(d, x, e, y);
  }

  // ---- what is signed ----

  datatype Signed =
    | MsgSend(pub: Digest, mailboxID: Id, ts: U64, nonce: Id, envelope: Bytes)
    | ChunkPut(pub: Digest, transferID: Id, index: U32, ts: U64, payload: Bytes)
    | Register(pub: Digest, ts: U64, nonce: Id)
    | XferCreate(pub: Digest, mailboxID: Id, total: U64, chunkSize: U32, chunkCount: U32, ts: U64, nonce: Id,
                 manifest: Bytes)
    | XferComplete(pub: Digest, transferID: Id, manifestHash: Digest, ts: U64, nonce: Id)
    | RoutingTable(version: U32, generated: U64, expires: U64, algo: Byte, shards: seq<Bytes>, routerPub: Digest)

  function DomainName(m: Signed): (s: string)
    ensures Printable(s)
  {
    match m
    case MsgSend(_, _, _, _, _) => "FR1/MSG-SEND"
    case ChunkPut(_, _, _, _, _) => "FR1/CHUNK-PUT"
    case Register(_, _, _) => "FR1/REGISTER"
    case XferCreate(_, _, _, _, _, _, _, _) => "FR1/XFER-CREATE"
    case XferComplete(_, _, _, _, _) => "FR1/XFER-COMPLETE"
    case RoutingTable(_, _, _, _, _, _) => "FR1/ROUTING-TABLE"
  }

  function Domain(m: Signed): (d: Bytes)
    ensures IsDomain(d)
  {
    Ascii(DomainName(m)) + [0]
  }

  /** The shard list as it is hashed: two length bytes and the entry, for every shard. The length is cut to 16 bits. */
  function ShardBytes(shards: seq<Bytes>): Bytes {
    if shards == [] then []
    else [|shards[0]| / 256 % 256, |shards[0]| % 256] + shards[0] + ShardBytes(shards[1..])
  }

  function Body(sha: Hash, m: Signed): Bytes {
    match m
    case MsgSend(pub, mid, ts, nonce, envelope) => pub + (mid + (PutU64(ts) + (nonce + sha(envelope))))
    case ChunkPut(pub, tid, index, ts, payload) => pub + (tid + (PutU32(index) + (PutU64(ts) + sha(payload))))
    case Register(pub, ts, nonce) => pub + (PutU64(ts) + nonce)
    case XferCreate(pub, mid, total, size, count, ts, nonce, manifest) =>
      pub + (mid + (PutU64(total) + (PutU32(size) + (PutU32(count) + (PutU64(ts) + (nonce + sha(manifest)))))))
    case XferComplete(pub, tid, h, ts, nonce) => pub + (tid + (h + (PutU64(ts) + nonce)))
    case RoutingTable(version, generated, expires, algo, shards, router) =>
      PutU32(version) + (PutU64(generated) + (PutU64(expires) + ([algo] + (sha(ShardBytes(shards)) + router))))
  }

  function Canonical(sha: Hash, m: Signed): Bytes { Domain(m) + Body(sha, m) }

  /** The same operation with the same fields; hashed contents agree in their hash. */
  predicate SameUpToHash(sha: Hash, a: Signed, b: Signed) {
    match (a, b)
    case (MsgSend(_, _, _, _, x), MsgSend(_, _, _, _, y)) => sha(x) == sha(y) && a.(envelope := y) == b
    case (ChunkPut(_, _, _, _, x), ChunkPut(_, _, _, _, y)) => sha(x) == sha(y) && a.(payload := y) == b
    case (Register(_, _, _), Register(_, _, _)) => a == b
    case (XferCreate(_, _, _, _, _, _, _, x), XferCreate(_, _, _, _, _, _, _, y)) =>
      sha(x) == sha(y) && a.(manifest := y) == b
    case (XferComplete(_, _, _, _, _), XferComplete(_, _, _, _, _)) => a == b
    case (RoutingTable(_, _, _, _, x, _), RoutingTable(_, _, _, _, y, _)) =>
      sha(ShardBytes(x)) == sha(ShardBytes(y)) && a.(shards := y) == b
    case _ => false
  }

  lemma U32Injective(v: U32, x: Bytes, w: U32, y: Bytes)
    requires PutU32(v) + x == PutU32(w) + y
    ensures v == w && x == y
  {
    SplitFront(PutU32(v), x, PutU32(w), y);
  }

  lemma U64Injective(v: U64, x: Bytes, w: U64, y: Bytes)
    requires PutU64(v) + x == PutU64(w) + y
    ensures v == w && x == y
  {
    SplitFront(PutU64(v), x, PutU64(w), y);
    PutU64Injective(v, w);
  }

  lemma SendInjective(sha: Hash, a: Signed, b: Signed)
    requires a.MsgSend? && b.MsgSend? && Body(sha, a) == Body(sha, b)
    ensures SameUpToHash(sha, a, b)
  {
    var a3, b3 := a.nonce + sha(a.envelope), b.nonce + sha(b.envelope);
    var a2, b2 := PutU64(a.ts) + a3, PutU64(b.ts) + b3;
    SplitFront(a.pub, a.mailboxID + a2, b.pub, b.mailboxID + b2);
    SplitFront(a.mailboxID, a2, b.mailboxID, b2);
    U64Injective(a.ts, a3, b.ts, b3);
    SplitFront(a.nonce, sha(a.envelope), b.nonce, sha(b.envelope));
  }

  lemma PutInjective(sha: Hash, a: Signed, b: Signed)
    requires a.ChunkPut? && b.ChunkPut? && Body(sha, a) == Body(sha, b)
    ensures SameUpToHash(sha, a, b)
  {
    var a3, b3 := PutU64(a.ts) + sha(a.payload), PutU64(b.ts) + sha(b.payload);
    var a2, b2 := PutU32(a.index) + a3, PutU32(b.index) + b3;
    SplitFront(a.pub, a.transferID + a2, b.pub, b.transferID + b2);
    SplitFront(a.transferID, a2, b.transferID, b2);
    U32Injective(a.index, a3, b.index, b3);
    U64Injective(a.ts, sha(a.payload), b.ts, sha(b.payload));
  }

  lemma RegisterInjective(sha: Hash, a: Signed, b: Signed)
    requires a.Register? && b.Register? && Body(sha, a) == Body(sha, b)
    ensures a == b
  {
    SplitFront(a.pub, PutU64(a.ts) + a.nonce, b.pub, PutU64(b.ts) + b.nonce);
    U64Injective(a.ts, a.nonce, b.ts, b.nonce);
  }

  lemma CreateInjective(sha: Hash, a: Signed, b: Signed)
    requires a.XferCreate? && b.XferCreate? && Body(sha, a) == Body(sha, b)
    ensures SameUpToHash(sha, a, b)
  {
    var a6, b6 := a.nonce + sha(a.manifest), b.nonce + sha(b.manifest);
    var a5, b5 := PutU64(a.ts) + a6, PutU64(b.ts) + b6;
    var a4, b4 := PutU32(a.chunkCount) + a5, PutU32(b.chunkCount) + b5;
    var a3, b3 := PutU32(a.chunkSize) + a4, PutU32(b.chunkSize) + b4;
    var a2, b2 := PutU64(a.total) + a3, PutU64(b.total) + b3;
    SplitFront(a.pub, a.mailboxID + a2, b.pub, b.mailboxID + b2);
    SplitFront(a.mailboxID, a2, b.mailboxID, b2);
    U64Injective(a.total, a3, b.total, b3);
    U32Injective(a.chunkSize, a4, b.chunkSize, b4);
    U32Injective(a.chunkCount, a5, b.chunkCount, b5);
    U64Injective(a.ts, a6, b.ts, b6);
    SplitFront(a.nonce, sha(a.manifest), b.nonce, sha(b.manifest));
  }

  lemma CompleteInjective(sha: Hash, a: Signed, b: Signed)
    requires a.XferComplete? && b.XferComplete? && Body(sha, a) == Body(sha, b)
    ensures a == b
  {
    var a3, b3 := PutU64(a.ts) + a.nonce, PutU64(b.ts) + b.nonce;
    var a2, b2 := a.manifestHash + a3, b.manifestHash + b3;
    SplitFront(a.pub, a.transferID + a2, b.pub, b.transferID + b2);
    SplitFront(a.transferID, a2, b.transferID, b2);
    SplitFront(a.manifestHash, a3, b.manifestHash, b3);
    U64Injective(a.ts, a.nonce, b.ts, b.nonce);
  }

  lemma RoutingInjective(sha: Hash, a: Signed, b: Signed)
    requires a.RoutingTable? && b.RoutingTable? && Body(sha, a) == Body(sha, b)
    ensures SameUpToHash(sha, a, b)
  {
    var a4, b4 := sha(ShardBytes(a.shards)) + a.routerPub, sha(ShardBytes(b.shards)) + b.routerPub;
    var a3, b3 := [a.algo] + a4, [b.algo] + b4;
    var a2, b2 := PutU64(a.expires) + a3, PutU64(b.expires) + b3;
    U32Injective(a.version, PutU64(a.generated) + a2, b.version, PutU64(b.generated) + b2);
    U64Injective(a.generated, a2, b.generated, b2);
    U64Injective(a.expires, a3, b.expires, b3);
    SplitFront([a.algo], a4, [b.algo], b4);
    SplitFront(sha(ShardBytes(a.shards)), a.routerPub, sha(ShardBytes(b.shards)), b.routerPub);
  }

  /** Different operations have different domains. */
  lemma DomainsDiffer(a: Signed, b: Signed)
    requires Domain(a) == Domain(b)
    ensures DomainName(a) == DomainName(b)
  {
    var x, y := DomainName(a), DomainName(b);
    SplitFront(Ascii(x), [0], Ascii(y), [0]);
    forall i | 0 <= i < |x|
      ensures x[i] == y[i]
    {
      assert Ascii(x)[i] == Ascii(y)[i];
    }
  }

  lemma SameDomain(sha: Hash, a: Signed, b: Signed)
    requires Canonical(sha, a) == Canonical(sha, b)
    ensures Domain(a) == Domain(b) && Body(sha, a) == Body(sha, b)
    ensures DomainName(a)[4] == DomainName(b)[4] &&
            DomainName(a)[|DomainName(a)| - 2] == DomainName(b)[|DomainName(b)| - 2]
  {
    DomainsPrefixFree(Domain(a), Body(sha, a), Domain(b), Body(sha, b));
  }

  /** The signed bytes determine the operation and all its fields, up to a collision of the hash. */
  lemma CanonicalInjective(sha: Hash, a: Signed, b: Signed)
    requires Canonical(sha, a) == Canonical(sha, b)
    ensures SameUpToHash(sha, a, b)
  {
    SameDomain(sha, a, b);
    DomainsDiffer(a, b);
    match a
    case MsgSend(_, _, _, _, _) => SendInjective(sha, a, b);
    case ChunkPut(_, _, _, _, _) => PutInjective(sha, a, b);
    case Register(_, _, _) => RegisterInjective(sha, a, b);
    case XferCreate(_, _, _, _, _, _, _, _) => CreateInjective(sha, a, b);
    case XferComplete(_, _, _, _, _) => CompleteInjective(sha, a, b);
    case RoutingTable(_, _, _, _, _, _) => RoutingInjective(sha, a, b);
  }

  // ---- the shard list ----

  lemma ShardFront(shards: seq<Bytes>)
    requires shards != [] && |shards[0]| < 0x1_0000
    ensures ShardBytes(shards)[..2] == [|shards[0]| / 256, |shards[0]| % 256]
    ensures ShardBytes(shards)[2..] == shards[0] + ShardBytes(shards[1..])
  {
  }

  /** Entries below 64 KiB make the hashed shard list unambiguous. */
  lemma {:induction false} ShardBytesInjective(a: seq<Bytes>, b: seq<Bytes>)
    requires forall s <- a :: |s| < 0x1_0000
    requires forall s <- b :: |s| < 0x1_0000
    requires ShardBytes(a) == ShardBytes(b)
    ensures a == b
    decreases |a|
  {
    if a != [] && b != [] {
      assert a[0] in a && b[0] in b;
      ShardFront(a);
      ShardFront(b);
      assert |a[0]| / 256 == |b[0]| / 256 && |a[0]| % 256 == |b[0]| % 256;
      SplitFront(a[0], ShardBytes(a[1..]), b[0], ShardBytes(b[1..]));
      ShardBytesInjective(a[1..], b[1..]);
      assert a == [a[0]] + a[1..] && b == [b[0]] + b[1..];
    }
  }

  function Empties(n: nat): (e: seq<Bytes>)
    ensures |e| == n
  {
    if n == 0 then [] else [[]] + Empties(n - 1)
  }

  lemma {:induction false} EmptiesBytes(n: nat)
    ensures ShardBytes(Empties(n)) == Zeros(2 * n)
  {
    if n > 0 {
      EmptiesBytes(n - 1);
      assert Empties(n)[0] == [] && Empties(n)[1..] == Empties(n - 1);
    }
  }

  /** The bound matters: one entry of 65536 zero bytes is hashed like 32769 empty entries. */
  lemma LongShardAmbiguous()
    ensures ShardBytes([Zeros(0x1_0000)]) == ShardBytes(Empties(32769)) && [Zeros(0x1_0000)] != Empties(32769)
  {
    EmptiesBytes(32769);
    var z := Zeros(0x1_0000);
    assert ShardBytes([z]) == [0, 0] + z + [];
  }

  predicate AllBelow(shards: seq<Bytes>, limit: nat) { forall s <- shards :: |s| < limit }

  /** Lists of entries shorter than `limit` are told apart by the bytes that are hashed. */
  ghost predicate ToldApartBelow(limit: nat) {
    forall a: seq<Bytes>, b: seq<Bytes> ::
      AllBelow(a, limit) && AllBelow(b, limit) && ShardBytes(a) == ShardBytes(b) ==> a == b
  }

  /** The hashed shard list is unambiguous up to entries of 65535 bytes, and not beyond. */
  lemma ShardBytesExact(limit: nat)
    ensures ToldApartBelow(limit) <==> limit <= 0x1_0000
  {
    if limit <= 0x1_0000 {
      forall a: seq<Bytes>, b: seq<Bytes> | AllBelow(a, limit) && AllBelow(b, limit) && ShardBytes(a) == ShardBytes(b)
        ensures a == b
      {
        ShardBytesInjective(a, b);
      }
    } else {
      LongShardAmbiguous();
      EmptiesShort(32769);
      assert AllBelow([Zeros(0x1_0000)], limit) && AllBelow(Empties(32769), limit);
    }
  }

  lemma {:induction false} EmptiesShort(n: nat)
    ensures forall s <- Empties(n) :: s == []
  {
    if n > 0 {
      EmptiesShort(n - 1);
    }
  }

  // ---- replay keys ----

  datatype SignedKind = KindSend | KindCreate | KindComplete

  function ReplayName(k: SignedKind): (s: string)
    ensures Printable(s)
  {
    match k
    case KindSend => "FR1/replay-msg"
    case KindCreate => "FR1/replay-create"
    case KindComplete => "FR1/replay-complete"
  }

  function ReplayPreimage(k: SignedKind, pub: Digest, nonce: Id): Bytes { Ascii(ReplayName(k)) + [0] + (pub + nonce) }

  lemma ReplayPreimageInjective(k: SignedKind, pub: Digest, nonce: Id, k': SignedKind, pub': Digest, nonce': Id)
    requires ReplayPreimage(k, pub, nonce) == ReplayPreimage(k', pub', nonce')
    ensures k == k' && pub == pub' && nonce == nonce'
  {
    var d, d' := Ascii(ReplayName(k)) + [0], Ascii(ReplayName(k')) + [0];
    DomainsPrefixFree(d, pub + nonce, d', pub' + nonce');
    SplitFront(pub, nonce, pub', nonce');
    assert |ReplayName(k)| == |ReplayName(k')|;
  }

  // ---- clock skew ----

  /** The conversions and the subtraction of the source, in 64-bit two's complement. */
  function ToInt64(v: U64): int { if v < TWO_63 then v else v - TWO_64 }

  function Wrap64(x: int): int { (x + TWO_63) % TWO_64 - TWO_63 }

  function CheckSkew(ts: U64, now: int): Option<ErrorCode> {
    var dt := Wrap64(now - ToInt64(ts));
    var dt' := if dt < 0 then Wrap64(-dt) else dt;
    if dt' > MAX_CLOCK_SKEW then Some(ExpiredRequest) else None
  }

  /** For any plausible clock the check accepts exactly the timestamps within 30 seconds, and by overflow of the
      negation the one timestamp that is 2^63 ahead. */
  lemma SkewExact(ts: U64, now: int)
    requires 0 <= now <= TWO_63 / 2
    ensures CheckSkew(ts, now).None? <==> -MAX_CLOCK_SKEW <= now - ToInt64(ts) <= MAX_CLOCK_SKEW || ts == now + TWO_63
  {
    var d := now - ToInt64(ts);
    assert -TWO_63 < d < TWO_63 + TWO_63 / 2 + 1;
    if d < TWO_63 {
      assert Wrap64(d) == d;
    } else {
      assert Wrap64(d) == d - TWO_64;
    }
  }
}
