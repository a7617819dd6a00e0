/** How a file is cut into chunks: the geometry a transfer declares, the splitter of
    the client, and the sums over the chunks that have arrived. */
module Geometry {
  import opened Octets
  import opened Limits

  /** Chunks of `size` bytes tile a file of `total` bytes exactly, the last one possibly short. */
  predicate Geometric(total: int, size: int, count: int) {
    && 1 <= size <= MAX_CHUNK_BYTES
    && 1 <= count <= MAX_CHUNKS
    && 1 <= total <= MAX_FILE_BYTES
    && (count - 1) * size < total <= count * size
  }

  lemma MulMono(a: int, b: int, k: int)
    requires a <= b && 0 <= k
    ensures a * k <= b * k
  {
    assert b * k - a * k == (b - a) * k;
  }

  lemma Steps(n: int, k: int)
    ensures (n - 1) * k == n * k - k && (n + 1) * k == n * k + k
  {
  }

  /** The rounded-up quotient is the one count whose chunks tile the file. */
  lemma CeilingTiles(total: int, size: int, count: int)
    requires 0 < total && 0 < size
    ensures (total + size - 1) / size == count <==> (count - 1) * size < total <= count * size
  {
    var q := (total + size - 1) / size;
    assert q * size <= total + size - 1 < q * size + size;
    Steps(q, size);
    Steps(count, size);
    if count > q {
      MulMono(q, count - 1, size);
    } else if count < q {
      MulMono(count, q - 1, size);
    }
  }

  /** `uint32((total + uint64(size) - 1) / uint64(size))`; within the bounds neither the addition wraps
      nor the conversion truncates. */
  function Quotient(total: U64, size: U32): (q: int)
    requires 0 < size <= MAX_CHUNK_BYTES
    ensures 0 < total <= MAX_FILE_BYTES ==> q == (total as int + size - 1) / size
  {
    var sum: int := (total as int + size - 1) % TWO_64;
    DivLe(sum, size);
    sum / size % TWO_32
  }

  lemma DivLe(n: int, d: int)
    requires 0 <= n && 0 < d
    ensures 0 <= n / d <= n
  {
    var q := n / d;
    assert q * d <= n;
    if q > n {
      MulMono(n + 1, q, d);
      MulMono(1, d, n + 1);
    } else if q < 0 {
      MulMono(q + 1, 0, d);
    }
  }

  /** The server's bounds check with its machine arithmetic; it accepts the exact tilings and no others. */
  function ValidateTransferCreate(total: U64, size: U32, count: U32): (e: Option<ErrorCode>)
    ensures e.None? <==> Geometric(total, size, count)
  {
    if size == 0 || size > MAX_CHUNK_BYTES then Some(ChunkInvalid)
    else if count == 0 || count > MAX_CHUNKS then Some(ChunkOutOfRange)
    else if total == 0 || total > MAX_FILE_BYTES then Some(PayloadTooLarge)
    else
      CeilingTiles(total, size, count);
      if Quotient(total, size) != count then Some(ChunkInvalid) else None
  }

  /** The only length chunk `i` may have. */
  function ChunkLen(total: int, size: int, count: int, i: int): int {
    if i == count - 1 then total - i * size else size
  }

  lemma ChunkLenBounds(total: int, size: int, count: int, i: int)
    requires Geometric(total, size, count) && 0 <= i < count
    ensures 1 <= ChunkLen(total, size, count, i) <= size
    ensures i * size + ChunkLen(total, size, count, i) <= total
    ensures i < count - 1 ==> (i + 1) * size <= total
  {
    Steps(i, size);
    Steps(count, size);
    if i < count - 1 {
      MulMono(i + 1, count - 1, size);
    }
  }

  // ---- the client's splitter ----

  function Min(a: int, b: int): int { if a <= b then a else b }

  /** The bytes of `data` that belong to chunk `i`. */
  function Piece(data: Bytes, size: nat, i: nat): Bytes
    requires i * size <= |data|
  {
    data[i * size..Min(i * size + size, |data|)]
  }

  predicate IsPiece(data: Bytes, size: nat, i: nat, payload: Bytes) {
    i * size < |data| && payload == Piece(data, size, i)
  }

  /** `pieces` cuts `data` at every multiple of `size`. */
  predicate Splits(pieces: seq<Bytes>, data: Bytes, size: nat) {
    forall i :: 0 <= i < |pieces| ==> IsPiece(data, size, i, pieces[i])
  }

  function Join(pieces: seq<Bytes>): Bytes {
    if pieces == [] then [] else Join(pieces[..|pieces| - 1]) + pieces[|pieces| - 1]
  }

  lemma SliceConcat(data: Bytes, i: nat, j: nat)
    requires i <= j <= |data|
    ensures data[..i] + data[i..j] == data[..j]
  {
  }

  /** One more piece is one more cut. */
  lemma JoinOne(data: Bytes, size: nat, n: nat)
    requires n * size < |data|
    ensures data[..n * size] + Piece(data, size, n) == data[..Min((n + 1) * size, |data|)]
    ensures Min(n * size, |data|) == n * size
  {
    Steps(n, size);
    SliceConcat(data, n * size, Min(n * size + size, |data|));
  }

  lemma {:induction false} JoinPieces(pieces: seq<Bytes>, data: Bytes, size: nat)
    requires Splits(pieces, data, size)
    ensures Join(pieces) == data[..Min(|pieces| * size, |data|)]
  {
    if pieces != [] {
      var n := |pieces| - 1;
      assert IsPiece(data, size, n, pieces[n]);
      JoinPieces(pieces[..n], data, size);
      JoinOne(data, size, n);
    }
  }

  /** A file is tiled by one number of chunks only. */
  lemma CountUnique(total: int, size: int, a: int, b: int)
    requires 0 < total && 0 < size
    requires (a - 1) * size < total <= a * size && (b - 1) * size < total <= b * size
    ensures a == b
  {
    CeilingTiles(total, size, a);
    CeilingTiles(total, size, b);
  }

  /** The server accepts a count exactly when it is the number of pieces and within its limit. */
  lemma AcceptedCount(total: int, size: int, pieces: int, n: int)
    requires 1 <= size <= MAX_CHUNK_BYTES && 1 <= total <= MAX_FILE_BYTES
    requires (pieces - 1) * size < total <= pieces * size
    ensures Geometric(total, size, n) <==> n == pieces <= MAX_CHUNKS
  {
    if Geometric(total, size, n) {
      CountUnique(total, size, pieces, n);
    } else if pieces < 1 {
      MulMono(pieces, 0, size);
    }
  }

  /** The splitter refuses a bad chunk size or an oversized file; otherwise its pieces are the cuts of the file and join
      back to it, and the server accepts their number, if it is at most 16384, and no other. The empty file gives no
      piece. */
  method SplitOpaque(data: Bytes, size: int) returns (r: Option<seq<Bytes>>, e: ErrorCode)
    ensures r.None? <==> size <= 0 || size > MAX_CHUNK_BYTES || |data| > MAX_FILE_BYTES
    ensures r.None? ==> e == if 0 < size <= MAX_CHUNK_BYTES then PayloadTooLarge else ChunkInvalid
    ensures r.Some? ==> Splits(r.value, data, size) && Join(r.value) == data
    ensures r.Some? && data != [] ==> (|r.value| - 1) * size < |data| <= |r.value| * size
    ensures r.Some? && data != [] ==>
              forall n: U32 :: ValidateTransferCreate(|data|, size, n).None? <==> n == |r.value| <= MAX_CHUNKS
    ensures r.Some? && data == [] ==> r.value == []
  {
    if size <= 0 || size > MAX_CHUNK_BYTES {
      return None, ChunkInvalid;
    }
    if |data| > MAX_FILE_BYTES {
      return None, PayloadTooLarge;
    }
    var out := Cut(data, size);
    if data != [] {
      AcceptedCounts(data, size, |out|);
    }
    return Some(out), ChunkInvalid;
  }

  lemma AcceptedCounts(data: Bytes, size: int, pieces: nat)
    requires data != [] && 1 <= size <= MAX_CHUNK_BYTES && |data| <= MAX_FILE_BYTES
    requires (pieces - 1) * size < |data| <= pieces * size
    ensures forall n: U32 :: ValidateTransferCreate(|data|, size, n).None? <==> n == pieces <= MAX_CHUNKS
  {
    forall n: U32
      ensures ValidateTransferCreate(|data|, size, n).None? <==> n == pieces <= MAX_CHUNKS
    {
      AcceptedCount(|data|, size, pieces, n);
    }
  }

  /** How far the splitter's loop has come: `off` bytes in whole chunks, the last of which began inside the file. */
  predicate CutSoFar(out: seq<Bytes>, data: Bytes, size: nat, off: nat) {
    Splits(out, data, size) && off == |out| * size && (out == [] || (|out| - 1) * size < |data|)
  }

  lemma CutStep(out: seq<Bytes>, data: Bytes, size: nat, off: nat)
    requires CutSoFar(out, data, size, off) && off < |data|
    ensures CutSoFar(out + [data[off..Min(off + size, |data|)]], data, size, off + size)
  {
    Steps(|out|, size);
    assert IsPiece(data, size, |out|, data[off..Min(off + size, |data|)]);
  }

  lemma CutEnd(out: seq<Bytes>, data: Bytes, size: nat, off: nat)
    requires CutSoFar(out, data, size, off) && off >= |data|
    ensures Splits(out, data, size) && Join(out) == data
    ensures data != [] ==> (|out| - 1) * size < |data| <= |out| * size
  {
    JoinPieces(out, data, size);
  }

  /** The splitter's loop. */
  method Cut(data: Bytes, size: nat) returns (out: seq<Bytes>)
    requires size > 0
    ensures Splits(out, data, size) && Join(out) == data
    ensures data != [] ==> (|out| - 1) * size < |data| <= |out| * size
    ensures data == [] ==> out == []
  {
    out := [];
    var off := 0;
    while off < |data|
      invariant CutSoFar(out, data, size, off)
      invariant data == [] ==> out == []
      decreases |data| - off
    {
      var end := off + size;
      if end > |data| {
        end := |data|;
      }
      CutStep(out, data, size, off);
      out := out + [data[off..end]];
      off := off + size;
    }
    CutEnd(out, data, size, off);
  }

  // ---- sums over the chunks present ----

  /** Bytes held by the chunks below index `n`. */
  function HeldBytes(chunks: map<nat, Bytes>, n: nat): nat {
    if n == 0 then 0
    else HeldBytes(chunks, n - 1) + if n - 1 in chunks then |chunks[n - 1]| else 0
  }

  lemma {:induction false} HeldBytesInsert(chunks: map<nat, Bytes>, n: nat, i: nat, p: Bytes)
    requires i !in chunks
    ensures HeldBytes(chunks[i := p], n) == HeldBytes(chunks, n) + if i < n then |p| else 0
  {
    if n > 0 {
      HeldBytesInsert(chunks, n - 1, i, p);
    }
  }

  ghost predicate WellSized(chunks: map<nat, Bytes>, total: int, size: int, count: int) {
    forall i <- chunks :: i < count ==> |chunks[i]| == ChunkLen(total, size, count, i)
  }

  /** Well-sized chunks below `n` hold at most the bytes of the file before chunk `n`, and exactly
      those bytes when none is missing. */
  lemma {:induction false} HeldBytesTile(chunks: map<nat, Bytes>, n: nat, total: int, size: int, count: int)
    requires Geometric(total, size, count) && n <= count && WellSized(chunks, total, size, count)
    ensures HeldBytes(chunks, n) <= Min(n * size, total)
    ensures (forall i :: 0 <= i < n ==> i in chunks) ==> HeldBytes(chunks, n) == Min(n * size, total)
  {
    if n > 0 {
      HeldBytesTile(chunks, n - 1, total, size, count);
      ChunkLenBounds(total, size, count, n - 1);
      assert (n - 1) * size + size == n * size;
      assert n < count ==> (n - 1 + 1) * size <= total;
    }
  }

  lemma {:induction false} HeldBytesEmpty(n: nat)
    ensures HeldBytes(map[], n) == 0
  {
    if n > 0 {
      HeldBytesEmpty(n - 1);
    }
  }

  function CountTrue(p: seq<bool>): nat {
    if p == [] then 0
    else CountTrue(p[..|p| - 1]) + if p[|p| - 1] then 1 else 0
  }

  lemma {:induction false} CountTrueSet(p: seq<bool>, i: nat)
    requires i < |p| && !p[i]
    ensures CountTrue(p[i := true]) == CountTrue(p) + 1
  {
    var n := |p| - 1;
    if i == n {
      assert p[i := true][..n] == p[..n];
    } else {
      CountTrueSet(p[..n], i);
      assert p[i := true][..n] == p[..n][i := true];
    }
  }

  lemma {:induction false} CountTrueFull(p: seq<bool>)
    ensures CountTrue(p) <= |p|
    ensures CountTrue(p) == |p| <==> forall i :: 0 <= i < |p| ==> p[i]
  {
    if p != [] {
      var n := |p| - 1;
      CountTrueFull(p[..n]);
      assert forall i :: 0 <= i < n ==> p[..n][i] == p[i];
    }
  }

  lemma {:induction false} CountTrueNone(n: nat)
    ensures CountTrue(seq(n, _ => false)) == 0
  {
    if n > 0 {
      var p := seq(n, _ => false);
      assert p[..n - 1] == seq(n - 1, _ => false);
      CountTrueNone(n - 1);
    }
  }

  /** `h` is the length of the longest prefix of `p` that is all true. */
  predicate LongestPrefix(p: seq<bool>, h: int) {
    && 0 <= h <= |p|
    && (forall i :: 0 <= i < h ==> p[i])
    && (h < |p| ==> !p[h])
  }

  lemma PrefixUnique(p: seq<bool>, h: int, k: int)
    requires LongestPrefix(p, h) && LongestPrefix(p, k)
    ensures h == k
  {
  }

  function PrefixFrom(p: seq<bool>, i: nat): (h: nat)
    requires i <= |p|
    requires forall j :: 0 <= j < i ==> p[j]
    ensures LongestPrefix(p, h)
    decreases |p| - i
  {
    if i < |p| && p[i] then PrefixFrom(p, i + 1) else i
  }
}
