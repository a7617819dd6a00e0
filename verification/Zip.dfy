/** The ZIP writer's records: following the end record and the central directory, as section 4.3 of the PKWARE APPNOTE
    describes, gives back exactly the entries. */
module Zip {
  import opened Octets
  import opened Bits
  import opened Crc

  // ---- little-endian numbers in a buffer ----

  function PutLE(width: nat, v: nat): (b: Bytes)
    ensures |b| == width
  {
    if width == 0 then [] else [v % 256] + PutLE(width - 1, v / 256)
  }

  /** The number that the bytes from `i` on stand for. */
  function GetLE(b: Bytes, i: nat): nat
    decreases |b| - i
  {
    if i < |b| then b[i] as int + 256 * GetLE(b, i + 1) else 0
  }

  lemma {:induction false} GetTail(b: Bytes, i: nat)
    requires b != []
    ensures GetLE(b, i + 1) == GetLE(b[1..], i)
    decreases |b| - i
  {
    if i + 1 < |b| {
      GetTail(b, i + 1);
    }
  }

  function Limit(width: nat): nat { if width == 0 then 1 else 256 * Limit(width - 1) }

  lemma {:induction false} GetPutLE(width: nat, v: nat)
    requires v < Limit(width)
    ensures GetLE(PutLE(width, v), 0) == v
  {
    if width > 0 {
      GetPutLE(width - 1, v / 256);
      GetTail(PutLE(width, v), 0);
      assert PutLE(width, v)[1..] == PutLE(width - 1, v / 256);
    }
  }

  function Read(b: Bytes, off: nat, width: nat): nat
    requires off + width <= |b|
  {
    GetLE(b[off..off + width], 0)
  }

  /** `writeUIntLE`: the bytes from `off` on are replaced, all others stay. */
  function Write(b: Bytes, off: nat, width: nat, v: nat): (r: Bytes)
    requires off + width <= |b| && v < Limit(width)
    ensures |r| == |b| && Read(r, off, width) == v
    ensures forall o: nat, w: nat {:trigger Read(r, o, w)} ::
              o + w <= |b| && (o + w <= off || off + width <= o) ==> Read(r, o, w) == Read(b, o, w)
  {
    var r := b[..off] + PutLE(width, v) + b[off + width..];
    assert r[off..off + width] == PutLE(width, v);
    GetPutLE(width, v);
    assert forall o: nat, w: nat {:trigger Read(r, o, w)} ::
        o + w <= |b| && (o + w <= off || off + width <= o) ==> r[o..o + w] == b[o..o + w];
    r
  }

  lemma Limits()
    ensures Limit(2) == 0x1_0000 && Limit(4) == 0x1_0000_0000 == Pow2(32)
  {
    assert Limit(2) == 256 * Limit(1) && Limit(3) == 256 * Limit(2);
    assert Pow2(8) == 256 by { assert Pow2(4) == 16; }
    assert Pow2(12) == 4096;
    assert Pow2(16) == 65536;
    assert Pow2(20) == 16 * Pow2(16) && Pow2(24) == 16 * Pow2(20) && Pow2(28) == 16 * Pow2(24) &&
           Pow2(32) == 16 * Pow2(28);
  }

  lemma {:induction false} GetZeros(b: Bytes, i: nat)
    requires forall k :: 0 <= k < |b| ==> b[k] == 0
    ensures GetLE(b, i) == 0
    decreases |b| - i
  {
    if i < |b| {
      GetZeros(b, i + 1);
    }
  }

  lemma ReadZeros(n: nat, off: nat, width: nat)
    requires off + width <= n
    ensures Read(Zeros(n), off, width) == 0
  {
    GetZeros(Zeros(n)[off..off + width], 0);
  }

  // ---- records ----

  /** A file as packed: stored (0) or deflated (8), under the UTF-8 bytes of its name. */
  datatype Entry = Entry(name: Bytes, data: Bytes, how: nat, body: Bytes)

  const LOCAL_SIG := 0x0403_4b50
  const CENTRAL_SIG := 0x0201_4b50
  const END_SIG := 0x0605_4b50
  const MADE_BY := 0x031e
  const VERSION := 20
  const UTF8_NAMES := 0x0800
  const DOS_DATE := 33
  const UNIX_MODE := 0x81a4_0000

  /** The numbers fit their fields; the writer throws otherwise. */
  predicate HeaderFits(e: Entry, off: nat) {
    e.how < Limit(2) && |e.name| < Limit(2) && |e.data| < Limit(4) && |e.body| < Limit(4) && off < Limit(4)
  }

  /** The fields both headers share. */
  datatype Shared = Shared(version: nat, flags: nat, how: nat, time: nat, date: nat, crc: nat, packed: nat, size: nat,
                           nameLen: nat)

  datatype Local = Local(sig: nat, shared: Shared, extraLen: nat)

  datatype Central = Central(sig: nat, shared: Shared, extraLen: nat, commentLen: nat, attributes: nat, at: nat)

  datatype End = End(sig: nat, here: nat, count: nat, size: nat, at: nat, commentLen: nat)

  function ParseShared(h: Bytes, o: nat): Shared
    requires o + 24 <= |h|
  {
    Shared(Read(h, o, 2), Read(h, o + 2, 2), Read(h, o + 4, 2), Read(h, o + 6, 2), Read(h, o + 8, 2),
           Read(h, o + 10, 4), Read(h, o + 14, 4), Read(h, o + 18, 4), Read(h, o + 22, 2))
  }

  function ParseLocal(h: Bytes): Local
    requires |h| == 30
  {
    Local(Read(h, 0, 4), ParseShared(h, 4), Read(h, 28, 2))
  }

  function ParseCentral(h: Bytes): Central
    requires |h| == 46
  {
    Central(Read(h, 0, 4), ParseShared(h, 6), Read(h, 30, 2), Read(h, 32, 2), Read(h, 38, 4), Read(h, 42, 4))
  }

  function ParseEnd(h: Bytes): End
    requires |h| == 22
  {
    End(Read(h, 0, 4), Read(h, 8, 2), Read(h, 10, 2), Read(h, 12, 4), Read(h, 16, 4), Read(h, 20, 2))
  }

  /** What both headers say about an entry. */
  function SharedOf(e: Entry): Shared {
    Shared(VERSION, UTF8_NAMES, e.how, 0, DOS_DATE, Crc32(e.data), |e.body|, |e.data|, |e.name|)
  }

  /** The numbers outside [from, to) are the same in both buffers. */
  ghost predicate SameOutside(b: Bytes, r: Bytes, from: nat, to: nat) {
    && |r| == |b|
    && forall o: nat, w: nat {:trigger Read(r, o, w)} ::
         o + w <= |b| && (o + w <= from || to <= o) ==> Read(r, o, w) == Read(b, o, w)
  }

  /** Version, flags, method, time and date, from offset `o` on. */
  function Stamp(b: Bytes, o: nat, how: nat): (h: Bytes)
    requires o + 10 <= |b| && how < Limit(2)
    ensures SameOutside(b, h, o, o + 10)
    ensures Read(h, o, 2) == VERSION && Read(h, o + 2, 2) == UTF8_NAMES && Read(h, o + 4, 2) == how
    ensures Read(h, o + 6, 2) == 0 && Read(h, o + 8, 2) == DOS_DATE
  {
    Limits();
    var h := Write(b, o, 2, VERSION);
    var h := Write(h, o + 2, 2, UTF8_NAMES);
    var h := Write(h, o + 4, 2, how);
    var h := Write(h, o + 6, 2, 0);
    Write(h, o + 8, 2, DOS_DATE)
  }

  /** Checksum, sizes and the length of the name, from offset `o` on. */
  function Measure(b: Bytes, o: nat, e: Entry): (h: Bytes)
    requires o + 14 <= |b| && HeaderFits(e, 0)
    ensures SameOutside(b, h, o, o + 14)
    ensures Read(h, o, 4) == Crc32(e.data) && Read(h, o + 4, 4) == |e.body|
    ensures Read(h, o + 8, 4) == |e.data| && Read(h, o + 12, 2) == |e.name|
  {
    Limits();
    var h := Write(b, o, 4, Crc32(e.data));
    var h := Write(h, o + 4, 4, |e.body|);
    var h := Write(h, o + 8, 4, |e.data|);
    Write(h, o + 12, 2, |e.name|)
  }

  lemma SharedParses(a: Bytes, b: Bytes, c: Bytes, o: nat, e: Entry)
    requires o + 24 <= |a| && SameOutside(a, b, o, o + 10) && SameOutside(b, c, o + 10, o + 24)
    requires Read(b, o, 2) == VERSION && Read(b, o + 2, 2) == UTF8_NAMES && Read(b, o + 4, 2) == e.how
    requires Read(b, o + 6, 2) == 0 && Read(b, o + 8, 2) == DOS_DATE
    requires Read(c, o + 10, 4) == Crc32(e.data) && Read(c, o + 14, 4) == |e.body|
    requires Read(c, o + 18, 4) == |e.data| && Read(c, o + 22, 2) == |e.name|
    ensures SameOutside(a, c, o, o + 24) && ParseShared(c, o) == SharedOf(e)
  {
  }

  /** The shared fields of either header, from offset `o` on. */
  function Share(a: Bytes, o: nat, e: Entry): (h: Bytes)
    requires o + 24 <= |a| && HeaderFits(e, 0)
    ensures SameOutside(a, h, o, o + 24) && ParseShared(h, o) == SharedOf(e)
  {
    var b := Stamp(a, o, e.how);
    var c := Measure(b, o + 10, e);
    SharedParses(a, b, c, o, e);
    c
  }

  lemma SharedStays(b: Bytes, c: Bytes, o: nat, from: nat, to: nat)
    requires o + 24 <= |b| && SameOutside(b, c, from, to) && (o + 24 <= from || to <= o)
    ensures ParseShared(c, o) == ParseShared(b, o)
  {
  }

  function LocalStart(): (h: Bytes)
    ensures |h| == 30 && Read(h, 0, 4) == LOCAL_SIG && Read(h, 28, 2) == 0
  {
    Limits();
    ReadZeros(30, 28, 2);
    Write(Zeros(30), 0, 4, LOCAL_SIG)
  }

  function LocalHeader(e: Entry): (h: Bytes)
    requires HeaderFits(e, 0)
    ensures |h| == 30 && ParseLocal(h) == Local(LOCAL_SIG, SharedOf(e), 0)
  {
    var a := LocalStart();
    var h := Share(a, 4, e);
    assert Read(h, 0, 4) == Read(a, 0, 4) && Read(h, 28, 2) == Read(a, 28, 2);
    h
  }

  function CentralStart(): (h: Bytes)
    ensures |h| == 46 && Read(h, 0, 4) == CENTRAL_SIG && Read(h, 30, 2) == 0 && Read(h, 32, 2) == 0
  {
    Limits();
    ReadZeros(46, 30, 2);
    ReadZeros(46, 32, 2);
    Write(Write(Zeros(46), 0, 4, CENTRAL_SIG), 4, 2, MADE_BY)
  }

  function Locate(b: Bytes, off: nat): (h: Bytes)
    requires |b| == 46 && off < Limit(4)
    ensures SameOutside(b, h, 38, 46) && Read(h, 38, 4) == UNIX_MODE && Read(h, 42, 4) == off
  {
    Limits();
    Write(Write(b, 38, 4, UNIX_MODE), 42, 4, off)
  }

  lemma CentralParses(a: Bytes, b: Bytes, c: Bytes, e: Entry, off: nat)
    requires |a| == 46 && Read(a, 0, 4) == CENTRAL_SIG && Read(a, 30, 2) == 0 && Read(a, 32, 2) == 0
    requires SameOutside(a, b, 6, 30) && ParseShared(b, 6) == SharedOf(e)
    requires SameOutside(b, c, 38, 46) && Read(c, 38, 4) == UNIX_MODE && Read(c, 42, 4) == off
    ensures |c| == 46 && ParseCentral(c) == Central(CENTRAL_SIG, SharedOf(e), 0, 0, UNIX_MODE, off)
  {
    SharedStays(b, c, 6, 38, 46);
    assert Read(c, 0, 4) == Read(b, 0, 4) && Read(c, 30, 2) == Read(b, 30, 2) && Read(c, 32, 2) == Read(b, 32, 2);
  }

  function CentralHeader(e: Entry, off: nat): (h: Bytes)
    requires HeaderFits(e, off)
    ensures |h| == 46 && ParseCentral(h) == Central(CENTRAL_SIG, SharedOf(e), 0, 0, UNIX_MODE, off)
  {
    var a := CentralStart();
    var b := Share(a, 6, e);
    var c := Locate(b, off);
    CentralParses(a, b, c, e, off);
    c
  }

  function EndRecord(count: nat, size: nat, off: nat): (h: Bytes)
    requires count < Limit(2) && size < Limit(4) && off < Limit(4)
    ensures |h| == 22 && ParseEnd(h) == End(END_SIG, count, count, size, off, 0)
  {
    Limits();
    ReadZeros(22, 20, 2);
    var h := Write(Zeros(22), 0, 4, END_SIG);
    var h := Write(h, 8, 2, count);
    var h := Write(h, 10, 2, count);
    var h := Write(h, 12, 4, size);
    Write(h, 16, 4, off)
  }

  /** A local record: a header that parses to these fields, the name, the packed content. */
  predicate IsLocal(r: Bytes, e: Entry) {
    && |r| == 30 + |e.name| + |e.body| && ParseLocal(r[..30]) == Local(LOCAL_SIG, SharedOf(e), 0)
    && r[30..30 + |e.name|] == e.name && r[30 + |e.name|..] == e.body
  }

  predicate IsCentral(r: Bytes, e: Entry, off: nat) {
    && |r| == 46 + |e.name| && r[46..] == e.name
    && ParseCentral(r[..46]) == Central(CENTRAL_SIG, SharedOf(e), 0, 0, UNIX_MODE, off)
  }

  lemma LocalJoined(h: Bytes, e: Entry)
    requires |h| == 30 && ParseLocal(h) == Local(LOCAL_SIG, SharedOf(e), 0)
    ensures IsLocal(h + e.name + e.body, e)
  {
    var r := h + e.name + e.body;
    assert r[..30] == h;
    assert r[30..30 + |e.name|] == e.name;
    assert r[30 + |e.name|..] == e.body;
  }

  function LocalRecord(e: Entry): (r: Bytes)
    requires HeaderFits(e, 0)
    ensures IsLocal(r, e)
  {
    LocalJoined(LocalHeader(e), e);
    LocalHeader(e) + e.name + e.body
  }

  function CentralRecord(e: Entry, off: nat): (r: Bytes)
    requires HeaderFits(e, off)
    ensures IsCentral(r, e, off)
  {
    var h := CentralHeader(e, off);
    assert (h + e.name)[..46] == h;
    h + e.name
  }

  // ---- the reader ----

  type Inflater = Bytes -> Option<Bytes>

  /** A member as a reader lists it: name, content, time stamp and attributes. */
  datatype Member = Member(name: Bytes, data: Bytes, time: nat, date: nat, attributes: nat)

  datatype Step = Step(member: Member, next: nat)

  /** The content of a member, by its compression method. */
  function Unpack(inflate: Inflater, how: nat, body: Bytes): Option<Bytes> {
    if how == 0 then Some(body) else if how == 8 then inflate(body) else None
  }

  /** The content a central entry points at. The local header must say the same as the central one, and size and
      checksum must agree with what is unpacked. */
  function ReadContent(inflate: Inflater, b: Bytes, name: Bytes, c: Central): Option<Bytes> {
    if c.at + 30 > |b| then None
    else
      var l := ParseLocal(b[c.at..c.at + 30]);
      var nameEnd := c.at + 30 + |name|;
      var start := nameEnd + l.extraLen;
      if l.sig != LOCAL_SIG || l.shared != c.shared || start + c.shared.packed > |b| then None
      else if b[c.at + 30..nameEnd] != name then None
      else
        var data := Unpack(inflate, c.shared.how, b[start..start + c.shared.packed]);
        if data.None? || |data.value| != c.shared.size || Crc32(data.value) != c.shared.crc then None else data
  }

  /** One entry of the central directory, and where the next one starts. */
  function ReadEntry(inflate: Inflater, b: Bytes, p: nat): Option<Step> {
    if p + 46 > |b| then None
    else
      var c := ParseCentral(b[p..p + 46]);
      var nameEnd := p + 46 + c.shared.nameLen;
      var next := nameEnd + c.extraLen + c.commentLen;
      if c.sig != CENTRAL_SIG || c.shared.version > VERSION || c.shared.flags != UTF8_NAMES || next > |b| then None
      else
        var name := b[p + 46..nameEnd];
        var data := ReadContent(inflate, b, name, c);
        if data.None? then None
        else Some(Step(Member(name, data.value, c.shared.time, c.shared.date, c.attributes), next))
  }

  /** The directory: `count` entries, each starting where the one before it ends. */
  function Walk(read: nat -> Option<Step>, p: nat, count: nat): Option<seq<Member>>
    decreases count
  {
    if count == 0 then Some([])
    else
      var e := read(p);
      if e.None? then None
      else
        var rest := Walk(read, e.value.next, count - 1);
        if rest.None? then None else Some([e.value.member] + rest.value)
  }

  function ReadArchive(inflate: Inflater, b: Bytes): Option<seq<Member>> {
    if |b| < 22 then None
    else
      var e := ParseEnd(b[|b| - 22..]);
      if e.sig != END_SIG || e.commentLen != 0 || e.here != e.count || e.at + e.size + 22 != |b| then None
      else Walk((p: nat) => ReadEntry(inflate, b, p), e.at, e.count)
  }

  // ---- bytes at a place ----

  predicate At(b: Bytes, p: nat, x: Bytes) { p + |x| <= |b| && b[p..p + |x|] == x }

  lemma AtWider(b: Bytes, p: nat, x: Bytes, a: Bytes, c: Bytes)
    requires At(b, p, x)
    ensures At(a + b + c, |a| + p, x)
  {
    assert (a + b + c)[|a| + p..|a| + p + |x|] == b[p..p + |x|];
  }

  lemma AtSlice(b: Bytes, p: nat, x: Bytes, lo: nat, hi: nat)
    requires At(b, p, x) && lo <= hi <= |x|
    ensures b[p + lo..p + hi] == x[lo..hi]
  {
    forall k | 0 <= k < hi - lo
      ensures b[p + lo..p + hi][k] == x[lo..hi][k]
    {
      assert b[p..p + |x|][lo + k] == x[lo + k];
    }
  }

  /** The packed content unpacks to the data. */
  predicate Sound(inflate: Inflater, e: Entry) { Unpack(inflate, e.how, e.body) == Some(e.data) }

  function MemberOf(e: Entry): Member { Member(e.name, e.data, 0, DOS_DATE, UNIX_MODE) }

  /** At `at` lies a local header for the entry, its name and its packed content. */
  predicate LocalSeen(b: Bytes, at: nat, e: Entry) {
    && at + 30 + |e.name| + |e.body| <= |b|
    && ParseLocal(b[at..at + 30]) == Local(LOCAL_SIG, SharedOf(e), 0)
    && b[at + 30..at + 30 + |e.name|] == e.name
    && b[at + 30 + |e.name|..at + 30 + |e.name| + |e.body|] == e.body
  }

  /** At `p` lies a central header for the entry that points at `at`, and its name. */
  predicate CentralSeen(b: Bytes, p: nat, at: nat, e: Entry) {
    && p + 46 + |e.name| <= |b|
    && ParseCentral(b[p..p + 46]) == Central(CENTRAL_SIG, SharedOf(e), 0, 0, UNIX_MODE, at)
    && b[p + 46..p + 46 + |e.name|] == e.name
  }

  lemma LocalIsSeen(b: Bytes, at: nat, e: Entry, l: Bytes)
    requires IsLocal(l, e) && At(b, at, l)
    ensures LocalSeen(b, at, e)
  {
    AtSlice(b, at, l, 0, 30);
    AtSlice(b, at, l, 30, 30 + |e.name|);
    AtSlice(b, at, l, 30 + |e.name|, |l|);
    assert l[0..30] == l[..30] && l[30 + |e.name|..|l|] == l[30 + |e.name|..];
  }

  lemma CentralIsSeen(b: Bytes, p: nat, at: nat, e: Entry, c: Bytes)
    requires IsCentral(c, e, at) && At(b, p, c)
    ensures CentralSeen(b, p, at, e)
  {
    AtSlice(b, p, c, 0, 46);
    AtSlice(b, p, c, 46, |c|);
    assert c[0..46] == c[..46] && c[46..|c|] == c[46..];
  }

  lemma ContentReads(inflate: Inflater, b: Bytes, c: Central, e: Entry)
    requires LocalSeen(b, c.at, e) && Sound(inflate, e) && c.shared == SharedOf(e)
    ensures ReadContent(inflate, b, e.name, c) == Some(e.data)
  {
  }

  lemma EntryReads(inflate: Inflater, b: Bytes, p: nat, at: nat, e: Entry)
    requires CentralSeen(b, p, at, e) && LocalSeen(b, at, e) && Sound(inflate, e)
    ensures ReadEntry(inflate, b, p) == Some(Step(MemberOf(e), p + 46 + |e.name|))
  {
    ContentReads(inflate, b, Central(CENTRAL_SIG, SharedOf(e), 0, 0, UNIX_MODE, at), e);
  }

  // ---- the archive ----

  function LocalsSize(es: seq<Entry>): nat {
    if es == [] then 0 else LocalsSize(es[..|es| - 1]) + 30 + |es[|es| - 1].name| + |es[|es| - 1].body|
  }

  function CentralsSize(es: seq<Entry>): nat {
    if es == [] then 0 else CentralsSize(es[..|es| - 1]) + 46 + |es[|es| - 1].name|
  }

  predicate Fits(es: seq<Entry>, i: nat)
    requires i < |es|
  {
    HeaderFits(es[i], LocalsSize(es[..i]))
  }

  predicate EntriesFit(es: seq<Entry>) { forall i: nat :: i < |es| ==> Fits(es, i) }

  /** Everything fits: names, sizes, offsets, the number of files. */
  predicate ArchiveFits(es: seq<Entry>) {
    EntriesFit(es) && |es| < Limit(2) && LocalsSize(es) < Limit(4) && CentralsSize(es) < Limit(4)
  }

  function Flat(parts: seq<Bytes>): Bytes {
    if parts == [] then [] else Flat(parts[..|parts| - 1]) + parts[|parts| - 1]
  }

  /** Where each part of a flattened list starts, counted from `base`, and where the last one ends. */
  function Starts(base: nat, parts: seq<Bytes>): seq<nat> {
    seq(|parts| + 1, i requires 0 <= i <= |parts| => base + |Flat(parts[..i])|)
  }

  lemma AtFront(b: Bytes, p: nat, x: Bytes, c: Bytes)
    requires At(b, p, x)
    ensures At(b + c, p, x)
  {
    assert (b + c)[p..p + |x|] == b[p..p + |x|];
  }

  lemma {:induction false} FlatAt(parts: seq<Bytes>, i: nat)
    requires i < |parts|
    ensures At(Flat(parts), |Flat(parts[..i])|, parts[i]) && |Flat(parts[..i + 1])| == |Flat(parts[..i])| + |parts[i]|
  {
    var n := |parts| - 1;
    assert parts[..i + 1][..i] == parts[..i];
    if i < n {
      FlatAt(parts[..n], i);
      assert parts[..n][..i] == parts[..i];
      AtFront(Flat(parts[..n]), |Flat(parts[..i])|, parts[i], parts[n]);
    } else {
      assert parts[..i + 1] == parts;
    }
  }

  function LocalRecords(es: seq<Entry>): seq<Bytes>
    requires EntriesFit(es)
  {
    seq(|es|, i requires 0 <= i < |es| => assert Fits(es, i); LocalRecord(es[i]))
  }

  function CentralRecords(es: seq<Entry>): seq<Bytes>
    requires EntriesFit(es)
  {
    seq(|es|, i requires 0 <= i < |es| => assert Fits(es, i); CentralRecord(es[i], LocalsSize(es[..i])))
  }

  function Members(es: seq<Entry>): seq<Member> { seq(|es|, i requires 0 <= i < |es| => MemberOf(es[i])) }

  /** The two records of entry `k` lie in `b` where the directory says. */
  predicate Placed(b: Bytes, es: seq<Entry>, ats: seq<nat>, ps: seq<nat>, k: nat)
    requires k < |es| < |ats| == |ps|
  {
    LocalSeen(b, ats[k], es[k]) && CentralSeen(b, ps[k], ats[k], es[k]) && ps[k + 1] == ps[k] + 46 + |es[k].name|
  }

  /** The walk meets exactly the members, if each step does. */
  predicate Meets(read: nat -> Option<Step>, es: seq<Entry>, ps: seq<nat>, k: nat)
    requires k < |es| < |ps|
  {
    read(ps[k]) == Some(Step(MemberOf(es[k]), ps[k + 1]))
  }

  lemma {:induction false} WalkReads(read: nat -> Option<Step>, es: seq<Entry>, ps: seq<nat>, i: nat)
    requires |ps| == |es| + 1 && i <= |es| && forall k: nat :: k < |es| ==> Meets(read, es, ps, k)
    ensures Walk(read, ps[i], |es| - i) == Some(Members(es)[i..])
    decreases |es| - i
  {
    if i == |es| {
      assert Members(es)[i..] == [];
    } else {
      assert Meets(read, es, ps, i);
      WalkReads(read, es, ps, i + 1);
      assert Members(es)[i..] == [MemberOf(es[i])] + Members(es)[i + 1..];
    }
  }

  lemma PlacedReads(inflate: Inflater, b: Bytes, es: seq<Entry>, ats: seq<nat>, ps: seq<nat>, k: nat)
    requires k < |es| < |ats| == |ps| && Sound(inflate, es[k]) && Placed(b, es, ats, ps, k)
    ensures ReadEntry(inflate, b, ps[k]) == Some(Step(MemberOf(es[k]), ps[k + 1]))
  {
    EntryReads(inflate, b, ps[k], ats[k], es[k]);
  }

  lemma DirectoryReads(inflate: Inflater, b: Bytes, es: seq<Entry>, ats: seq<nat>, ps: seq<nat>)
    requires |ats| == |ps| == |es| + 1 && forall e <- es :: Sound(inflate, e)
    requires forall k: nat :: k < |es| ==> Placed(b, es, ats, ps, k)
    ensures Walk((p: nat) => ReadEntry(inflate, b, p), ps[0], |es|) == Some(Members(es))
  {
    var read := (p: nat) => ReadEntry(inflate, b, p);
    forall k: nat | k < |es|
      ensures Meets(read, es, ps, k)
    {
      assert es[k] in es;
      PlacedReads(inflate, b, es, ats, ps, k);
    }
    assert Members(es)[0..] == Members(es);
    WalkReads(read, es, ps, 0);
  }

  function Archive(es: seq<Entry>): Bytes
    requires ArchiveFits(es)
  {
    Flat(LocalRecords(es)) + Flat(CentralRecords(es)) + EndRecord(|es|, CentralsSize(es), LocalsSize(es))
  }

  predicate Sized(es: seq<Entry>, ls: seq<Bytes>, cs: seq<Bytes>, k: nat)
    requires k < |ls| == |cs| == |es|
  {
    |ls[k]| == 30 + |es[k].name| + |es[k].body| && |cs[k]| == 46 + |es[k].name|
  }

  lemma {:induction false} FlatSizes(es: seq<Entry>, ls: seq<Bytes>, cs: seq<Bytes>, k: nat)
    requires k <= |ls| == |cs| == |es| && forall i: nat :: i < |es| ==> Sized(es, ls, cs, i)
    ensures |Flat(ls[..k])| == LocalsSize(es[..k]) && |Flat(cs[..k])| == CentralsSize(es[..k])
  {
    if k > 0 {
      FlatSizes(es, ls, cs, k - 1);
      assert Sized(es, ls, cs, k - 1);
      assert es[..k][..k - 1] == es[..k - 1];
      FlatAt(ls, k - 1);
      FlatAt(cs, k - 1);
    }
  }

  lemma RecordsSized(es: seq<Entry>)
    requires EntriesFit(es)
    ensures forall k: nat :: k < |es| ==> Sized(es, LocalRecords(es), CentralRecords(es), k)
  {
  }

  /** Entry `k` is described by its two records, the offset being that of the local one. */
  predicate Described(es: seq<Entry>, ls: seq<Bytes>, cs: seq<Bytes>, k: nat)
    requires k < |ls| == |cs| == |es|
  {
    IsLocal(ls[k], es[k]) && IsCentral(cs[k], es[k], |Flat(ls[..k])|)
  }

  lemma LocalPlaced(ls: seq<Bytes>, C: Bytes, tail: Bytes, k: nat)
    requires k < |ls|
    ensures At(Flat(ls) + C + tail, |Flat(ls[..k])|, ls[k])
  {
    FlatAt(ls, k);
    AtFront(Flat(ls), |Flat(ls[..k])|, ls[k], C);
    AtFront(Flat(ls) + C, |Flat(ls[..k])|, ls[k], tail);
  }

  lemma CentralPlaced(L: Bytes, cs: seq<Bytes>, tail: Bytes, k: nat)
    requires k < |cs|
    ensures At(L + Flat(cs) + tail, |L| + |Flat(cs[..k])|, cs[k])
    ensures |Flat(cs[..k + 1])| == |Flat(cs[..k])| + |cs[k]|
  {
    FlatAt(cs, k);
    AtWider(Flat(cs), |Flat(cs[..k])|, cs[k], L, tail);
  }

  /** Laid out one after another, the records lie where `Starts` says. */
  lemma RecordPlaced(es: seq<Entry>, ls: seq<Bytes>, cs: seq<Bytes>, tail: Bytes, k: nat)
    requires k < |ls| == |cs| == |es| && Described(es, ls, cs, k)
    ensures Placed(Flat(ls) + Flat(cs) + tail, es, Starts(0, ls), Starts(|Flat(ls)|, cs), k)
  {
    var b := Flat(ls) + Flat(cs) + tail;
    LocalPlaced(ls, Flat(cs), tail, k);
    LocalIsSeen(b, |Flat(ls[..k])|, es[k], ls[k]);
    CentralPlaced(Flat(ls), cs, tail, k);
    CentralIsSeen(b, |Flat(ls)| + |Flat(cs[..k])|, |Flat(ls[..k])|, es[k], cs[k]);
  }

  lemma BodyReads(inflate: Inflater, es: seq<Entry>, ls: seq<Bytes>, cs: seq<Bytes>, tail: Bytes)
    requires |ls| == |cs| == |es| && forall e <- es :: Sound(inflate, e)
    requires forall k: nat :: k < |es| ==> Described(es, ls, cs, k)
    ensures Walk((p: nat) => ReadEntry(inflate, Flat(ls) + Flat(cs) + tail, p), |Flat(ls)|, |es|) == Some(Members(es))
  {
    var b, ats, ps := Flat(ls) + Flat(cs) + tail, Starts(0, ls), Starts(|Flat(ls)|, cs);
    forall k: nat | k < |es|
      ensures Placed(b, es, ats, ps, k)
    {
      RecordPlaced(es, ls, cs, tail, k);
    }
    assert ps[0] == |Flat(ls)|;
    DirectoryReads(inflate, b, es, ats, ps);
  }

  lemma LayoutReads(inflate: Inflater, es: seq<Entry>, ls: seq<Bytes>, cs: seq<Bytes>, tail: Bytes)
    requires |ls| == |cs| == |es| && forall e <- es :: Sound(inflate, e)
    requires forall k: nat :: k < |es| ==> Described(es, ls, cs, k)
    requires |tail| == 22 && ParseEnd(tail) == End(END_SIG, |es|, |es|, |Flat(cs)|, |Flat(ls)|, 0)
    ensures ReadArchive(inflate, Flat(ls) + Flat(cs) + tail) == Some(Members(es))
  {
    BodyReads(inflate, es, ls, cs, tail);
    var b := Flat(ls) + Flat(cs) + tail;
    assert b[|b| - 22..] == tail;
  }

  lemma RecordDescribed(es: seq<Entry>, k: nat)
    requires EntriesFit(es) && k < |es|
    ensures Described(es, LocalRecords(es), CentralRecords(es), k)
  {
    RecordsSized(es);
    FlatSizes(es, LocalRecords(es), CentralRecords(es), k);
  }

  lemma AllDescribed(es: seq<Entry>)
    requires EntriesFit(es)
    ensures forall k: nat :: k < |es| ==> Described(es, LocalRecords(es), CentralRecords(es), k)
    ensures |Flat(LocalRecords(es))| == LocalsSize(es) && |Flat(CentralRecords(es))| == CentralsSize(es)
  {
    forall k: nat | k < |es|
      ensures Described(es, LocalRecords(es), CentralRecords(es), k)
    {
      RecordDescribed(es, k);
    }
    RecordsSized(es);
    FlatTotals(es, LocalRecords(es), CentralRecords(es));
  }

  lemma FlatTotals(es: seq<Entry>, ls: seq<Bytes>, cs: seq<Bytes>)
    requires |ls| == |cs| == |es| && forall i: nat :: i < |es| ==> Sized(es, ls, cs, i)
    ensures |Flat(ls)| == LocalsSize(es) && |Flat(cs)| == CentralsSize(es)
  {
    FlatSizes(es, ls, cs, |es|);
    assert ls[..|es|] == ls && cs[..|es|] == cs && es[..|es|] == es;
  }

  /** Reading an archive gives back its members, in order. */
  lemma ArchiveReads(inflate: Inflater, es: seq<Entry>)
    requires ArchiveFits(es) && forall e <- es :: Sound(inflate, e)
    ensures ReadArchive(inflate, Archive(es)) == Some(Members(es))
  {
    AllDescribed(es);
    LayoutReads(inflate, es, LocalRecords(es), CentralRecords(es), EndRecord(|es|, CentralsSize(es), LocalsSize(es)));
  }
}
