/** What a shard tells a client about the chunks it still misses: a bitmap for small
    transfers, the missing runs for large ones; and why asking again and again ends. */
module Resume {
  import opened Octets
  import opened Limits
  import opened Geometry
  import opened Bits

  // ---- the bitmap of a small transfer ----

  predicate BitOf(bm: Bytes, i: nat)
    requires i < 8 * |bm|
  {
    Bit(bm[i / 8], i % 8)
  }

  /** Bit `i` of `bm` is chunk `i`, and the padding bits of the last byte are zero. */
  predicate IsBitmap(bm: Bytes, present: seq<bool>) {
    && |bm| == (|present| + 7) / 8
    && forall i: nat :: i < 8 * |bm| ==> (BitOf(bm, i) <==> i < |present| && present[i])
  }

  lemma BitmapUnique(a: Bytes, b: Bytes, present: seq<bool>)
    requires IsBitmap(a, present) && IsBitmap(b, present)
    ensures a == b
  {
    forall j: nat | j < |a|
      ensures a[j] == b[j]
    {
      forall k: nat | k < 8
        ensures Bit(a[j], k) == Bit(b[j], k)
      {
        assert (8 * j + k) / 8 == j && (8 * j + k) % 8 == k;
        assert BitOf(a, 8 * j + k) == BitOf(b, 8 * j + k);
      }
      BitsDetermine(a[j], b[j], 8);
    }
  }

  function Octet(present: seq<bool>, j: nat): (b: Byte)
    requires 8 * j <= |present|
  {
    var bits := present[8 * j..Min(8 * j + 8, |present|)];
    PackBound(bits, 8);
    Pack(bits)
  }

  /** The bitmap, byte by byte. */
  function BitmapOf(present: seq<bool>): (bm: Bytes)
    ensures IsBitmap(bm, present)
  {
    var bm := seq((|present| + 7) / 8, j requires 0 <= j < (|present| + 7) / 8 => Octet(present, j));
    assert IsBitmap(bm, present) by {
      forall i: nat | i < 8 * |bm|
        ensures BitOf(bm, i) <==> i < |present| && present[i]
      {
        var j := i / 8;
        PackExact(present[8 * j..Min(8 * j + 8, |present|)], i % 8);
      }
    }
    bm
  }

  /** The server's loop: one `|=` for every chunk present. */
  method BuildBitmap(present: seq<bool>) returns (bm: Bytes)
    ensures IsBitmap(bm, present)
    ensures bm == BitmapOf(present)
  {
    var n := (|present| + 7) / 8;
    bm := seq(n, _ => 0);
    forall i: nat | i < 8 * n
      ensures !BitOf(bm, i)
    {
      PackExact([], i % 8);
    }
    for i := 0 to |present|
      invariant |bm| == n
      invariant forall q: nat :: q < 8 * n ==> (BitOf(bm, q) <==> q < i && present[q])
    {
      if present[i] {
        var old_ := bm;
        SetBitBound(bm[i / 8], i % 8, 8);
        bm := bm[i / 8 := SetBit(bm[i / 8], i % 8)];
        forall q: nat | q < 8 * n
          ensures BitOf(bm, q) <==> q == i || BitOf(old_, q)
        {
          SetBitExact(old_[i / 8], i % 8, q % 8);
        }
      }
    }
    BitmapUnique(bm, BitmapOf(present), present);
  }

  // ---- the missing runs of a large transfer ----

  datatype Range = Range(start: U32, count: U32)

  /** `r` is a run of missing chunks that cannot be extended to either side. */
  predicate IsGap(p: seq<bool>, r: Range) {
    && r.count > 0 && r.start + r.count <= |p|
    && (forall j :: r.start <= j < r.start + r.count ==> !p[j])
    && (r.start > 0 ==> p[r.start - 1])
    && (r.start + r.count < |p| ==> p[r.start + r.count])
  }

  predicate Within(j: int, r: Range) { r.start <= j < r.start + r.count }

  function GapEnd(p: seq<bool>, i: nat): (e: nat)
    requires i <= |p|
    ensures i <= e <= |p|
    ensures forall j :: i <= j < e ==> !p[j]
    ensures e < |p| ==> p[e]
    decreases |p| - i
  {
    if i < |p| && !p[i] then GapEnd(p, i + 1) else i
  }

  /** All missing runs that begin at or after `i`, in increasing order. */
  function Gaps(p: seq<bool>, i: nat): seq<Range>
    requires i <= |p| < TWO_32
    decreases |p| - i
  {
    if i == |p| then []
    else if p[i] then Gaps(p, i + 1)
    else [Range(i, GapEnd(p, i) - i)] + Gaps(p, GapEnd(p, i))
  }

  predicate Increasing(gaps: seq<Range>) {
    forall k :: 0 <= k < |gaps| - 1 ==> gaps[k].start + gaps[k].count < gaps[k + 1].start
  }

  /** A scan may start at the beginning, at the end, or next to a chunk that is present. */
  predicate ScanPoint(p: seq<bool>, i: nat)
    requires i <= |p|
  {
    i == 0 || i == |p| || p[i - 1] || p[i]
  }

  lemma {:induction false} GapsMaximal(p: seq<bool>, i: nat)
    requires i <= |p| < TWO_32 && ScanPoint(p, i)
    ensures forall r <- Gaps(p, i) :: IsGap(p, r) && i <= r.start
    decreases |p| - i
  {
    if i < |p| && p[i] {
      GapsMaximal(p, i + 1);
    } else if i < |p| {
      GapsMaximal(p, GapEnd(p, i));
      assert IsGap(p, Range(i, GapEnd(p, i) - i));
    }
  }

  lemma {:induction false} GapsIncreasing(p: seq<bool>, i: nat)
    requires i <= |p| < TWO_32 && ScanPoint(p, i)
    ensures Increasing(Gaps(p, i))
    decreases |p| - i
  {
    if i < |p| && p[i] {
      GapsIncreasing(p, i + 1);
    } else if i < |p| {
      var rest := Gaps(p, GapEnd(p, i));
      GapsIncreasing(p, GapEnd(p, i));
      GapsMaximal(p, GapEnd(p, i));
      if rest != [] {
        assert IsGap(p, rest[0]) && !p[rest[0].start];
      }
    }
  }

  predicate Covered(gaps: seq<Range>, j: int) { exists r <- gaps :: Within(j, r) }

  lemma {:induction false} GapsCover(p: seq<bool>, i: nat, j: nat)
    requires i <= j < |p| < TWO_32 && !p[j]
    ensures Covered(Gaps(p, i), j)
    decreases |p| - i
  {
    if p[i] {
      GapsCover(p, i + 1, j);
    } else if j < GapEnd(p, i) {
      assert Within(j, Gaps(p, i)[0]);
    } else {
      GapsCover(p, GapEnd(p, i), j);
      var r :| r in Gaps(p, GapEnd(p, i)) && Within(j, r);
      assert r in Gaps(p, i);
    }
  }

  /** The runs are exactly the maximal ones, in order, and no missing chunk lies outside them. */
  lemma GapsExact(p: seq<bool>)
    requires |p| < TWO_32
    ensures forall r <- Gaps(p, 0) :: IsGap(p, r)
    ensures Increasing(Gaps(p, 0))
    ensures forall j: nat :: j < |p| && !p[j] ==> Covered(Gaps(p, 0), j)
  {
    GapsMaximal(p, 0);
    GapsIncreasing(p, 0);
    forall j: nat | j < |p| && !p[j]
      ensures Covered(Gaps(p, 0), j)
    {
      GapsCover(p, 0, j);
    }
  }

  function Take<T>(s: seq<T>, n: nat): seq<T> { if |s| <= n then s else s[..n] }

  /** What the server lists: all runs, or the first 1024 of them. */
  function ListedGaps(p: seq<bool>): (r: seq<Range>)
    requires |p| < TWO_32
    ensures |r| <= MAX_MISSING_RANGES
  {
    Take(Gaps(p, 0), MAX_MISSING_RANGES)
  }

  lemma GapEndSkip(p: seq<bool>, s: nat, i: nat)
    requires s <= i <= |p|
    requires forall j :: s <= j < i ==> !p[j]
    ensures GapEnd(p, s) == GapEnd(p, i)
    decreases i - s
  {
    if s < i {
      GapEndSkip(p, s + 1, i);
    }
  }

  /** The server's scan: one pass with an open-gap flag, left early at the 1024th run. */
  method MissingRanges(p: seq<bool>) returns (ranges: seq<Range>)
    requires |p| < TWO_32
    ensures ranges == ListedGaps(p)
  {
    ranges := [];
    var start, run, inGap := 0, 0, false;
    var i := 0;
    while i < |p|
      invariant 0 <= i <= |p|
      invariant inGap ==> start + run == i && run > 0 && forall j :: start <= j < i ==> !p[j]
      invariant ranges + Gaps(p, if inGap then start else i) == Gaps(p, 0)
      invariant |ranges| < MAX_MISSING_RANGES
    {
      if !p[i] {
        if !inGap {
          start, run, inGap := i, 1, true;
        } else {
          run := run + 1;
        }
      } else if inGap {
        GapEndSkip(p, start, i);
        ranges := ranges + [Range(start, run)];
        inGap := false;
        assert ranges + Gaps(p, i) == Gaps(p, 0);
        if |ranges| >= MAX_MISSING_RANGES {
          return;
        }
      }
      i := i + 1;
    }
    if inGap {
      GapEndSkip(p, start, i);
      ranges := ranges + [Range(start, run)];
    }
  }

  /** Nothing is listed exactly when nothing is missing. */
  lemma ListedGapsEmpty(p: seq<bool>)
    requires |p| < TWO_32
    ensures ListedGaps(p) == [] <==> forall j :: 0 <= j < |p| ==> p[j]
  {
    GapsExact(p);
    if Gaps(p, 0) != [] {
      var g := Gaps(p, 0)[0];
      assert IsGap(p, g) && !p[g.start];
    }
  }

  /** Whether a resume view of `p` reports chunk `j` as missing. */
  predicate Listed(p: seq<bool>, j: nat)
    requires |p| < TWO_32
  {
    if |p| <= 256 then j < |p| && !BitOf(BitmapOf(p), j)
    else Covered(ListedGaps(p), j)
  }

  // ---- asking again and again ends ----

  /** One round: chunks are never lost, and every chunk listed at its start has been stored by its end. */
  ghost predicate Round(p: seq<bool>, q: seq<bool>)
    requires |p| < TWO_32
  {
    && |q| == |p|
    && (forall j :: 0 <= j < |p| && p[j] ==> q[j])
    && (forall j: nat :: j < |p| && Listed(p, j) ==> q[j])
  }

  lemma {:induction false} GapsSpread(gaps: seq<Range>, k: nat)
    requires Increasing(gaps) && k < |gaps| && forall r <- gaps :: r.count > 0
    ensures gaps[k].start >= gaps[0].start + 2 * k
  {
    if k > 0 {
      GapsSpread(gaps, k - 1);
      assert gaps[k - 1] in gaps;
      assert gaps[k - 1].start + gaps[k - 1].count < gaps[k - 1 + 1].start;
    }
  }

  lemma {:induction false} GapsOrdered(gaps: seq<Range>, a: nat, b: nat)
    requires Increasing(gaps) && a <= b < |gaps|
    ensures gaps[a].start <= gaps[b].start
  {
    if a < b {
      GapsOrdered(gaps, a, b - 1);
      assert gaps[b - 1].start + gaps[b - 1].count < gaps[b - 1 + 1].start;
    }
  }

  /** If the list was cut short, a round fills everything before the first run left out. */
  lemma RoundFillsPrefix(p: seq<bool>, q: seq<bool>, j: nat)
    requires 256 < |p| < TWO_32 && Round(p, q) && j < |p|
    requires |Gaps(p, 0)| > MAX_MISSING_RANGES ==> j < Gaps(p, 0)[MAX_MISSING_RANGES].start
    ensures q[j]
  {
    var gaps := Gaps(p, 0);
    GapsExact(p);
    if !p[j] {
      var r :| r in gaps && Within(j, r);
      var k :| 0 <= k < |gaps| && gaps[k] == r;
      if k >= MAX_MISSING_RANGES {
        GapsOrdered(gaps, MAX_MISSING_RANGES, k);
      }
      assert ListedGaps(p)[k] == gaps[k];
      assert Listed(p, j);
    }
  }

  /** A round completes the transfer or moves its contiguous prefix on by at least 2048 chunks,
      whatever else was uploaded meanwhile. */
  lemma RoundAdvances(p: seq<bool>, q: seq<bool>, h: nat, h': nat)
    requires |p| < TWO_32 && Round(p, q) && LongestPrefix(p, h) && LongestPrefix(q, h')
    ensures h' == |p| || h' >= h + 2 * MAX_MISSING_RANGES
    ensures |p| <= 256 ==> h' == |p|
  {
    var gaps := Gaps(p, 0);
    GapsExact(p);
    if h' < |p| {
      if |p| <= 256 {
        assert false;
      }
      if |gaps| <= MAX_MISSING_RANGES {
        RoundFillsPrefix(p, q, h');
        assert false;
      }
      var first := gaps[MAX_MISSING_RANGES].start;
      if h' < first {
        RoundFillsPrefix(p, q, h');
      }
      assert h' >= first;
      assert IsGap(p, gaps[0]);
      assert !p[gaps[0].start];
      assert forall r <- gaps :: r.count > 0;
      GapsSpread(gaps, MAX_MISSING_RANGES);
    }
  }

  /** Eight rounds complete any transfer; one round completes a transfer of at most 256 chunks. */
  lemma {:induction false} RoundsComplete(history: seq<seq<bool>>, rounds: nat, h: nat)
    requires |history| == rounds + 1
    requires |history[0]| <= MAX_CHUNKS
    requires forall k :: 0 <= k < rounds ==> |history[k]| < TWO_32 && Round(history[k], history[k + 1])
    requires LongestPrefix(history[rounds], h)
    ensures |history[rounds]| == |history[0]|
    ensures h == |history[0]| || h >= rounds * 2 * MAX_MISSING_RANGES
    ensures rounds >= 8 ==> h == |history[0]|
    ensures rounds >= 1 && |history[0]| <= 256 ==> h == |history[0]|
  {
    if rounds > 0 {
      var before := PrefixFrom(history[rounds - 1], 0);
      RoundsComplete(history[..rounds], rounds - 1, before);
      assert Round(history[rounds - 1], history[rounds - 1 + 1]);
      RoundAdvances(history[rounds - 1], history[rounds], before, h);
      assert before == |history[0]| ==> h == |history[0]|;
    }
  }
}
