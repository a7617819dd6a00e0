/** The codecs around the store. A NanoPack body is the list of its fields; its length is counted from the layout
    [count][id, ULEB128 length]* followed by the field contents. */
module Wire {
  import opened Octets
  import opened Limits
  import opened Resume

  datatype Field = Field(id: Byte, data: Bytes)

  datatype Result<+T> = Ok(value: T) | Bad(code: ErrorCode)

  function UlebLen(n: nat): nat { if n < 128 then 1 else 1 + UlebLen(n / 128) }

  function BodySize(fields: seq<Field>): nat {
    if fields == [] then 1
    else BodySize(fields[..|fields| - 1]) + 1 + UlebLen(|fields[|fields| - 1].data|) + |fields[|fields| - 1].data|
  }

  /** A later field with the same id replaces an earlier one; a field that never occurs is empty. */
  function LastOf(fields: seq<Field>, id: Byte): Bytes {
    if fields == [] then []
    else if fields[|fields| - 1].id == id then fields[|fields| - 1].data
    else LastOf(fields[..|fields| - 1], id)
  }

  /** Every field with this id has the given width. */
  predicate Width(fields: seq<Field>, id: Byte, n: nat) { forall f <- fields :: f.id == id ==> |f.data| == n }

  /** Width of a number field that has been seen, or zero if it never occurred. */
  function NumberOf(fields: seq<Field>, id: Byte): (v: U32)
    requires Width(fields, id, 4)
  {
    LastWidth(fields, id, 4);
    if LastOf(fields, id) == [] then 0 else GetU32(LastOf(fields, id))
  }

  lemma {:induction false} LastWidth(fields: seq<Field>, id: Byte, n: nat)
    requires Width(fields, id, n)
    ensures LastOf(fields, id) == [] || |LastOf(fields, id)| == n
  {
    if fields != [] {
      LastWidth(fields[..|fields| - 1], id, n);
    }
  }

  // ---- a batch of received messages ----

  datatype Received = Received(msgID: Bytes, envelope: Bytes)

  datatype Response = Response(messages: seq<Received>, consumed: bool)

  predicate ValidEntry(m: Received) { |m.msgID| == 16 && 1 <= |m.envelope| <= MAX_MESSAGE_BYTES }

  predicate ValidBatch(ms: seq<Received>) { |ms| <= MAX_BATCH && forall m <- ms :: ValidEntry(m) }

  function Frame(m: Received): Bytes
    requires ValidEntry(m)
  {
    PutU32(|m.envelope|) + m.envelope
  }

  function IdsOf(ms: seq<Received>): Bytes {
    if ms == [] then [] else ms[0].msgID + IdsOf(ms[1..])
  }

  function PayloadsOf(ms: seq<Received>): Bytes
    requires forall m <- ms :: ValidEntry(m)
  {
    if ms == [] then [] else Frame(ms[0]) + PayloadsOf(ms[1..])
  }

  function BatchFields(r: Response): seq<Field>
    requires ValidBatch(r.messages)
  {
    [Field(1, PutU32(|r.messages|)), Field(2, IdsOf(r.messages)), Field(3, PayloadsOf(r.messages)),
     Field(4, [if r.consumed then 1 else 0])]
  }

  lemma {:induction false} IdsConcat(a: seq<Received>, b: seq<Received>)
    ensures IdsOf(a + b) == IdsOf(a) + IdsOf(b)
  {
    if a == [] {
      assert a + b == b;
    } else {
      assert (a + b)[1..] == a[1..] + b;
      IdsConcat(a[1..], b);
    }
  }

  lemma {:induction false} PayloadsConcat(a: seq<Received>, b: seq<Received>)
    requires forall m <- a + b :: ValidEntry(m)
    ensures forall m <- a :: m in a + b
    ensures forall m <- b :: m in a + b
    ensures PayloadsOf(a + b) == PayloadsOf(a) + PayloadsOf(b)
  {
    assert forall m <- a :: m in a + b;
    assert forall m <- b :: m in a + b;
    if a == [] {
      assert a + b == b;
    } else {
      assert (a + b)[1..] == a[1..] + b;
      PayloadsConcat(a[1..], b);
    }
  }

  lemma BatchSnoc(ms: seq<Received>, i: nat)
    requires i < |ms| && ValidEntry(ms[i]) && forall m <- ms[..i] :: ValidEntry(m)
    ensures forall m <- ms[..i + 1] :: ValidEntry(m)
    ensures IdsOf(ms[..i + 1]) == IdsOf(ms[..i]) + ms[i].msgID
    ensures PayloadsOf(ms[..i + 1]) == PayloadsOf(ms[..i]) + PutU32(|ms[i].envelope|) + ms[i].envelope
  {
    var a, m := ms[..i], ms[i];
    assert ms[..i + 1] == a + [m];
    IdsConcat(a, [m]);
    PayloadsConcat(a, [m]);
    assert IdsOf([m]) == m.msgID + IdsOf([]) == m.msgID;
    assert PayloadsOf([m]) == Frame(m) + PayloadsOf([]) == Frame(m);
    assert PayloadsOf(a) + Frame(m) == PayloadsOf(a) + PutU32(|m.envelope|) + m.envelope;
  }

  /** The encoder refuses a batch that is too large or has an ill-sized entry, and otherwise emits its four fields. */
  method MarshalReceiveMessagesResponse(r: Response) returns (out: Result<seq<Field>>)
    ensures out.Ok? <==> ValidBatch(r.messages)
    ensures out.Ok? ==> out.value == BatchFields(r)
    ensures out.Bad? ==> out.code == if |r.messages| > MAX_BATCH then BatchTooLarge else FirstFault(r.messages)
  {
    if |r.messages| > MAX_BATCH {
      return Bad(BatchTooLarge);
    }
    var ms := r.messages;
    var ids: Bytes, payloads: Bytes := [], [];
    for i := 0 to |ms|
      invariant forall m <- ms[..i] :: ValidEntry(m)
      invariant FirstFault(ms) == FirstFault(ms[i..])
      invariant ids == IdsOf(ms[..i]) && payloads == PayloadsOf(ms[..i])
    {
      var m := ms[i];
      assert m in ms;
      if |m.msgID| != 16 {
        return Bad(InvalidRequest);
      }
      if |m.envelope| == 0 || |m.envelope| > MAX_MESSAGE_BYTES {
        return Bad(MessageTooLarge);
      }
      BatchSnoc(ms, i);
      ids := ids + m.msgID;
      payloads := payloads + PutU32(|m.envelope|) + m.envelope;
    }
    assert ms[..|ms|] == ms;
    return Ok([Field(1, PutU32(|ms|)), Field(2, ids), Field(3, payloads), Field(4, [if r.consumed then 1 else 0])]);
  }

  /** The error of the first ill-sized entry. */
  function FirstFault(ms: seq<Received>): ErrorCode {
    if ms == [] then InvalidRequest
    else if |ms[0].msgID| != 16 then InvalidRequest
    else if !ValidEntry(ms[0]) then MessageTooLarge
    else FirstFault(ms[1..])
  }

  const BATCH_CAP := MAX_BATCH * MAX_MESSAGE_BYTES + 4096

  /** Cuts `count` entries off the front of the two fields; nothing may be left over. */
  function Parse(ids: Bytes, payloads: Bytes, count: nat): Result<seq<Received>>
    requires |ids| == 16 * count
    decreases count
  {
    if count == 0 then if payloads == [] then Ok([]) else Bad(InvalidRequest)
    else if |payloads| < 4 then Bad(InvalidRequest)
    else
      var n := GetU32(payloads[..4]);
      if n == 0 || n > MAX_MESSAGE_BYTES || 4 + n > |payloads| then Bad(MessageTooLarge)
      else Prepend([Received(ids[..16], payloads[4..4 + n])], Parse(ids[16..], payloads[4 + n..], count - 1))
  }

  function Prepend<T>(done: seq<T>, rest: Result<seq<T>>): Result<seq<T>> {
    if rest.Ok? then Ok(done + rest.value) else rest
  }

  lemma {:induction false} LastFits(fields: seq<Field>, id: Byte)
    ensures |LastOf(fields, id)| <= BodySize(fields)
  {
    if fields != [] {
      LastFits(fields[..|fields| - 1], id);
    }
  }

  function Decoded(fields: seq<Field>): Result<Response> {
    if BodySize(fields) > BATCH_CAP then Bad(PayloadTooLarge)
    else if !Width(fields, 1, 4) || !Width(fields, 4, 1) then Bad(ShortBody)
    else if NumberOf(fields, 1) > MAX_BATCH then Bad(BatchTooLarge)
    else if |LastOf(fields, 2)| != 16 * NumberOf(fields, 1) as int then Bad(InvalidRequest)
    else
      var p := Parse(LastOf(fields, 2), LastOf(fields, 3), NumberOf(fields, 1));
      if p.Ok? then Ok(Response(p.value, LastOf(fields, 4) == [1])) else Bad(p.code)
  }

  lemma LastSnoc(fields: seq<Field>, i: nat, id: Byte)
    requires i < |fields|
    ensures LastOf(fields[..i + 1], id) == if fields[i].id == id then fields[i].data else LastOf(fields[..i], id)
  {
    assert fields[..i + 1][..i] == fields[..i];
  }

  /** What the decoder's field loop has gathered. */
  datatype Gathered = Gathered(count: U32, ids: Bytes, payloads: Bytes, consumed: bool)

  ghost predicate Gathering(g: Gathered, fields: seq<Field>) {
    && Width(fields, 1, 4) && Width(fields, 4, 1) && g.count == NumberOf(fields, 1)
    && g.ids == LastOf(fields, 2) && g.payloads == LastOf(fields, 3) && g.consumed == (LastOf(fields, 4) == [1])
  }

  lemma GatherSnoc(g: Gathered, g': Gathered, fields: seq<Field>, i: nat)
    requires i < |fields| && Gathering(g, fields[..i])
    requires fields[i].id == 1 ==> |fields[i].data| == 4
    requires fields[i].id == 4 ==> |fields[i].data| == 1
    requires g' == match fields[i].id
                   case 1 => g.(count := GetU32(fields[i].data))
                   case 2 => g.(ids := fields[i].data)
                   case 3 => g.(payloads := fields[i].data)
                   case 4 => g.(consumed := fields[i].data[0] == 1)
                   case _ => g
    ensures Gathering(g', fields[..i + 1])
  {
    LastSnoc(fields, i, 1);
    LastSnoc(fields, i, 2);
    LastSnoc(fields, i, 3);
    LastSnoc(fields, i, 4);
    assert fields[..i + 1] == fields[..i] + [fields[i]];
  }

  method GatherFields(fields: seq<Field>) returns (r: Option<Gathered>)
    ensures r.Some? <==> Width(fields, 1, 4) && Width(fields, 4, 1)
    ensures r.Some? ==> Gathering(r.value, fields)
  {
    var g := Gathered(0, [], [], false);
    for i := 0 to |fields|
      invariant Gathering(g, fields[..i])
    {
      ghost var before := g;
      var f := fields[i];
      assert f in fields;
      match f.id {
        case 1 =>
          if |f.data| != 4 {
            return None;
          }
          g := g.(count := GetU32(f.data));
        case 2 => g := g.(ids := f.data);
        case 3 => g := g.(payloads := f.data);
        case 4 =>
          if |f.data| != 1 {
            return None;
          }
          g := g.(consumed := f.data[0] == 1);
        case _ =>
      }
      GatherSnoc(before, g, fields, i);
    }
    assert fields[..|fields|] == fields;
    return Some(g);
  }

  /** The decoder: gather the fields, check the counts, then move a cursor through the payloads. */
  method UnmarshalReceiveMessagesResponse(fields: seq<Field>) returns (r: Result<Response>)
    ensures r == Decoded(fields)
  {
    if BodySize(fields) > BATCH_CAP {
      return Bad(PayloadTooLarge);
    }
    var gathered := GatherFields(fields);
    if gathered.None? {
      return Bad(ShortBody);
    }
    var Gathered(count, ids, payloads, consumed) := gathered.value;
    if count > MAX_BATCH {
      return Bad(BatchTooLarge);
    }
    LastFits(fields, 2);
    if |ids| % TWO_32 != count * 16 % TWO_32 {
      return Bad(InvalidRequest);
    }
    var msgs := ParseEntries(ids, payloads, count);
    if msgs.Bad? {
      return Bad(msgs.code);
    }
    return Ok(Response(msgs.value, consumed));
  }

  /** What is left to parse once the cursor stands at entry `i` and payload byte `pos`. */
  function Rest(ids: Bytes, payloads: Bytes, count: nat, i: nat, pos: nat): Result<seq<Received>>
    requires |ids| == 16 * count && i <= count && pos <= |payloads|
  {
    Parse(ids[16 * i..], payloads[pos..], count - i)
  }

  method ParseEntries(ids: Bytes, payloads: Bytes, count: nat) returns (r: Result<seq<Received>>)
    requires |ids| == 16 * count
    ensures r == Parse(ids, payloads, count)
  {
    var msgs: seq<Received> := [];
    var pos := 0;
    CursorStarts(ids, payloads, count);
    for i := 0 to count
      invariant 0 <= pos <= |payloads|
      invariant Parse(ids, payloads, count) == Prepend(msgs, Rest(ids, payloads, count, i, pos))
    {
      CursorStops(ids, payloads, count, i, pos);
      if pos + 4 > |payloads| {
        return Bad(InvalidRequest);
      }
      var n := GetU32(payloads[pos..pos + 4]);
      if n <= 0 || n > MAX_MESSAGE_BYTES || pos + 4 + n > |payloads| {
        return Bad(MessageTooLarge);
      }
      var entry := Received(ids[i * 16..(i + 1) * 16], payloads[pos + 4..pos + 4 + n]);
      CursorMoves(ids, payloads, count, i, pos, n, msgs);
      msgs := msgs + [entry];
      pos := pos + 4 + n;
    }
    CursorEnds(ids, payloads, count, pos);
    if pos != |payloads| {
      return Bad(InvalidRequest);
    }
    assert msgs + [] == msgs;
    return Ok(msgs);
  }

  lemma CursorStarts(ids: Bytes, payloads: Bytes, count: nat)
    requires |ids| == 16 * count
    ensures Parse(ids, payloads, count) == Prepend([], Rest(ids, payloads, count, 0, 0))
  {
    assert ids[16 * 0..] == ids && payloads[0..] == payloads;
    PrependNothing(Parse(ids, payloads, count));
  }

  lemma CursorEnds(ids: Bytes, payloads: Bytes, count: nat, pos: nat)
    requires |ids| == 16 * count && pos <= |payloads|
    ensures Rest(ids, payloads, count, count, pos) == if pos == |payloads| then Ok([]) else Bad(InvalidRequest)
  {
  }

  /** Where the cursor refuses, the parser does. */
  lemma CursorStops(ids: Bytes, payloads: Bytes, count: nat, i: nat, pos: nat)
    requires |ids| == 16 * count && i < count && pos <= |payloads|
    ensures pos + 4 > |payloads| ==> Rest(ids, payloads, count, i, pos) == Bad(InvalidRequest)
    ensures pos + 4 <= |payloads| ==>
              var n := GetU32(payloads[pos..pos + 4]);
              n <= 0 || n > MAX_MESSAGE_BYTES || pos + 4 + n > |payloads| ==>
                  Rest(ids, payloads, count, i, pos) == Bad(MessageTooLarge)
  {
    if pos + 4 <= |payloads| {
      assert payloads[pos..][..4] == payloads[pos..pos + 4];
    }
  }

  lemma CursorMoves(ids: Bytes, payloads: Bytes, count: nat, i: nat, pos: nat, n: nat, msgs: seq<Received>)
    requires |ids| == 16 * count && i < count && pos + 4 + n <= |payloads|
    requires n == GetU32(payloads[pos..pos + 4]) && 0 < n <= MAX_MESSAGE_BYTES
    ensures Prepend(msgs, Rest(ids, payloads, count, i, pos)) ==
            Prepend(msgs + [Received(ids[i * 16..(i + 1) * 16], payloads[pos + 4..pos + 4 + n])],
                    Rest(ids, payloads, count, i + 1, pos + 4 + n))
  {
    EntryCut(ids, payloads, i, count, pos, n);
    PrependTwice(msgs, [Received(ids[i * 16..(i + 1) * 16], payloads[pos + 4..pos + 4 + n])],
                 Rest(ids, payloads, count, i + 1, pos + 4 + n));
  }

  lemma PrependNothing<T>(r: Result<seq<T>>)
    ensures Prepend([], r) == r
  {
    if r.Ok? {
      assert [] + r.value == r.value;
    }
  }

  lemma PrependTwice<T>(a: seq<T>, b: seq<T>, r: Result<seq<T>>)
    ensures Prepend(a, Prepend(b, r)) == Prepend(a + b, r)
  {
    if r.Ok? {
      assert a + (b + r.value) == a + b + r.value;
    }
  }

  /** One turn of the cursor is one cut of the parser. */
  lemma EntryCut(ids: Bytes, payloads: Bytes, i: nat, count: nat, pos: nat, n: nat)
    requires |ids| == 16 * count && i < count && pos + 4 + n <= |payloads|
    requires n == GetU32(payloads[pos..pos + 4]) && 0 < n <= MAX_MESSAGE_BYTES
    ensures Parse(ids[16 * i..], payloads[pos..], count - i) ==
            Prepend([Received(ids[i * 16..(i + 1) * 16], payloads[pos + 4..pos + 4 + n])],
                    Parse(ids[16 * (i + 1)..], payloads[pos + 4 + n..], count - i - 1))
  {
    assert ids[16 * i..][..16] == ids[i * 16..(i + 1) * 16] && ids[16 * i..][16..] == ids[16 * (i + 1)..];
    assert payloads[pos..][..4] == payloads[pos..pos + 4];
    assert payloads[pos..][4..4 + n] == payloads[pos + 4..pos + 4 + n];
    assert payloads[pos..][4 + n..] == payloads[pos + 4 + n..];
  }

  // ---- the batch codec is exact ----

  lemma {:induction false} IdsLength(ms: seq<Received>)
    requires forall m <- ms :: ValidEntry(m)
    ensures |IdsOf(ms)| == 16 * |ms|
  {
    if ms != [] {
      assert ms[0] in ms;
      IdsLength(ms[1..]);
    }
  }

  lemma OneMore(n: nat, rest: nat, first: nat)
    requires rest <= n * (MAX_MESSAGE_BYTES + 4) && first <= MAX_MESSAGE_BYTES + 4
    ensures first + rest <= (n + 1) * (MAX_MESSAGE_BYTES + 4)
  {
  }

  lemma {:induction false} PayloadsLength(ms: seq<Received>)
    requires forall m <- ms :: ValidEntry(m)
    ensures |PayloadsOf(ms)| <= |ms| * (MAX_MESSAGE_BYTES + 4)
  {
    if ms != [] {
      assert ms[0] in ms;
      PayloadsLength(ms[1..]);
      OneMore(|ms[1..]|, |PayloadsOf(ms[1..])|, |Frame(ms[0])|);
    }
  }

  lemma FrameParses(m: Received, ids: Bytes, payloads: Bytes, count: nat)
    requires ValidEntry(m) && |ids| == 16 * count
    ensures Parse(m.msgID + ids, Frame(m) + payloads, count + 1) == Prepend([m], Parse(ids, payloads, count))
  {
    var n, all := |m.envelope|, Frame(m) + payloads;
    assert (m.msgID + ids)[..16] == m.msgID && (m.msgID + ids)[16..] == ids;
    assert all[..4] == PutU32(n) && all[4..4 + n] == m.envelope && all[4 + n..] == payloads;
  }

  lemma {:induction false} ParseInverts(ms: seq<Received>)
    requires forall m <- ms :: ValidEntry(m)
    ensures |IdsOf(ms)| == 16 * |ms| && Parse(IdsOf(ms), PayloadsOf(ms), |ms|) == Ok(ms)
  {
    IdsLength(ms);
    if ms != [] {
      var rest := ms[1..];
      assert ms[0] in ms && ms == [ms[0]] + rest;
      ParseInverts(rest);
      FrameParses(ms[0], IdsOf(rest), PayloadsOf(rest), |rest|);
    }
  }

  lemma FrameRestored(id: Bytes, payloads: Bytes)
    requires |id| == 16 && |payloads| >= 4
    requires var n := GetU32(payloads[..4]); 0 < n <= MAX_MESSAGE_BYTES && 4 + n <= |payloads|
    ensures var n := GetU32(payloads[..4]);
            Frame(Received(id, payloads[4..4 + n])) + payloads[4 + n..] == payloads
  {
    var n := GetU32(payloads[..4]);
    GetU32Injective(payloads[..4], PutU32(n));
    assert payloads == payloads[..4] + payloads[4..4 + n] + payloads[4 + n..];
  }

  lemma Cons(m: Received, ms: seq<Received>)
    requires ValidEntry(m) && forall x <- ms :: ValidEntry(x)
    ensures forall x <- [m] + ms :: ValidEntry(x)
    ensures IdsOf([m] + ms) == m.msgID + IdsOf(ms) && PayloadsOf([m] + ms) == Frame(m) + PayloadsOf(ms)
  {
    assert ([m] + ms)[1..] == ms;
  }

  /** Whatever parses re-encodes to the same two fields. */
  lemma {:induction false} ParseSound(ids: Bytes, payloads: Bytes, count: nat)
    requires |ids| == 16 * count && Parse(ids, payloads, count).Ok?
    ensures var ms := Parse(ids, payloads, count).value;
            |ms| == count && (forall m <- ms :: ValidEntry(m)) && IdsOf(ms) == ids && PayloadsOf(ms) == payloads
    decreases count
  {
    if count > 0 {
      var n := GetU32(payloads[..4]);
      ParseSound(ids[16..], payloads[4 + n..], count - 1);
      FrameRestored(ids[..16], payloads);
      Cons(Received(ids[..16], payloads[4..4 + n]), Parse(ids[16..], payloads[4 + n..], count - 1).value);
      assert ids == ids[..16] + ids[16..];
    }
  }

  lemma UlebShort(n: nat)
    ensures n < 128 ==> UlebLen(n) == 1
    ensures n < 16384 ==> UlebLen(n) <= 2
    ensures 128 <= n < 16384 ==> UlebLen(n) == 2
    ensures n < 2097152 ==> UlebLen(n) <= 3
  {
    if n >= 128 {
      var m := n / 128;
      if m >= 128 {
        assert n < 2097152 ==> m / 128 < 128;
      }
    }
  }

  function FieldSize(f: Field): nat { 1 + UlebLen(|f.data|) + |f.data| }

  lemma BodyPrefix(fields: seq<Field>, i: nat)
    requires i < |fields|
    ensures BodySize(fields[..i + 1]) == BodySize(fields[..i]) + FieldSize(fields[i])
  {
    assert fields[..i + 1][..i] == fields[..i];
  }

  predicate DistinctFields(fields: seq<Field>) {
    forall i, j :: 0 <= i < j < |fields| ==> fields[i].id != fields[j].id
  }

  /** Among distinct fields each one is found under its id. */
  lemma {:induction false} FieldFound(fields: seq<Field>, i: nat)
    requires DistinctFields(fields) && i < |fields|
    ensures LastOf(fields, fields[i].id) == fields[i].data && Width(fields, fields[i].id, |fields[i].data|)
  {
    var n := |fields| - 1;
    if i < n {
      FieldFound(fields[..n], i);
      assert fields[..n][i] == fields[i];
    }
    forall f <- fields
      ensures f.id == fields[i].id ==> |f.data| == |fields[i].data|
    {
      var k :| 0 <= k < |fields| && fields[k] == f;
    }
  }

  lemma FourFields(f: seq<Field>)
    requires |f| == 4
    ensures BodySize(f) == 1 + FieldSize(f[0]) + FieldSize(f[1]) + FieldSize(f[2]) + FieldSize(f[3])
  {
    BodyPrefix(f, 0);
    BodyPrefix(f, 1);
    BodyPrefix(f, 2);
    BodyPrefix(f, 3);
    assert f[..0] == [] && f[..4] == f;
  }

  lemma BatchSize(r: Response)
    requires ValidBatch(r.messages)
    ensures BodySize(BatchFields(r)) <= BATCH_CAP
  {
    FourFields(BatchFields(r));
    IdsLength(r.messages);
    PayloadsLength(r.messages);
    UlebShort(|IdsOf(r.messages)|);
    UlebShort(|PayloadsOf(r.messages)|);
  }

  /** Every batch the encoder accepts fits the decoder's cap and decodes to itself. */
  lemma BatchRoundTrip(r: Response)
    requires ValidBatch(r.messages)
    ensures Decoded(BatchFields(r)) == Ok(r)
  {
    BatchSize(r);
    ParseInverts(r.messages);
    var f := BatchFields(r);
    FieldFound(f, 0);
    FieldFound(f, 1);
    FieldFound(f, 2);
    FieldFound(f, 3);
  }

  /** Whatever the decoder accepts re-encodes to the same ids and payloads. */
  lemma BatchReEncodes(fields: seq<Field>)
    requires Decoded(fields).Ok?
    ensures var r := Decoded(fields).value;
            && ValidBatch(r.messages)
            && IdsOf(r.messages) == LastOf(fields, 2) && PayloadsOf(r.messages) == LastOf(fields, 3)
  {
    ParseSound(LastOf(fields, 2), LastOf(fields, 3), NumberOf(fields, 1));
  }

  // ---- ranges and the chunk acknowledgement ----

  function RangeBytes(rs: seq<Range>): Bytes {
    if rs == [] then [] else RangeBytes(rs[..|rs| - 1]) + PutU32(rs[|rs| - 1].start) + PutU32(rs[|rs| - 1].count)
  }

  lemma {:induction false} RangeBytesLength(rs: seq<Range>)
    ensures |RangeBytes(rs)| == 8 * |rs|
  {
    if rs != [] {
      RangeBytesLength(rs[..|rs| - 1]);
    }
  }

  method EncodeRanges(rs: seq<Range>) returns (out: Bytes)
    ensures out == RangeBytes(rs)
  {
    out := [];
    for i := 0 to |rs|
      invariant out == RangeBytes(rs[..i])
    {
      assert rs[..i + 1][..i] == rs[..i];
      out := out + PutU32(rs[i].start);
      out := out + PutU32(rs[i].count);
    }
    assert rs[..|rs|] == rs;
  }

  lemma RangeBytesLast(x: Bytes, rs: seq<Range>)
    requires rs != [] && x == RangeBytes(rs)
    ensures var n := |rs| - 1;
            && |x| == 8 * n + 8 && x[..8 * n] == RangeBytes(rs[..n])
            && x[8 * n..8 * n + 4] == PutU32(rs[n].start) && x[8 * n + 4..] == PutU32(rs[n].count)
  {
    RangeBytesLength(rs[..|rs| - 1]);
  }

  lemma SameLastRange(x: Bytes, a: seq<Range>, b: seq<Range>)
    requires a != [] && |b| == |a| && x == RangeBytes(a) == RangeBytes(b)
    ensures a[|a| - 1] == b[|a| - 1] && RangeBytes(a[..|a| - 1]) == RangeBytes(b[..|a| - 1])
  {
    RangeBytesLast(x, a);
    RangeBytesLast(x, b);
  }

  /** No two lists of ranges have the same encoding. */
  lemma {:induction false} RangeBytesInjective(a: seq<Range>, b: seq<Range>)
    requires RangeBytes(a) == RangeBytes(b)
    ensures a == b
  {
    RangeBytesLength(a);
    RangeBytesLength(b);
    if a != [] {
      var n := |a| - 1;
      SameLastRange(RangeBytes(a), a, b);
      RangeBytesInjective(a[..n], b[..n]);
      assert a == a[..n] + [a[n]] && b == b[..n] + [b[n]];
    }
  }

  lemma RaggedBlob(blob: Bytes)
    requires |blob| % 8 != 0
    ensures forall rs: seq<Range> :: RangeBytes(rs) != blob
  {
    forall rs: seq<Range>
      ensures RangeBytes(rs) != blob
    {
      RangeBytesLength(rs);
    }
  }

  lemma OnlyEncoding(blob: Bytes, out: seq<Range>)
    requires RangeBytes(out) == blob
    ensures forall rs: seq<Range> :: RangeBytes(rs) == blob ==> rs == out
  {
    forall rs: seq<Range> | RangeBytes(rs) == blob
      ensures rs == out
    {
      RangeBytesInjective(rs, out);
    }
  }

  /** Eight more bytes are one more range. */
  lemma RangeCut(blob: Bytes, i: nat, out: seq<Range>, next: Range)
    requires i + 8 <= |blob| && RangeBytes(out) == blob[..i]
    requires next == Range(GetU32(blob[i..i + 4]), GetU32(blob[i + 4..i + 8]))
    ensures RangeBytes(out + [next]) == blob[..i + 8]
  {
    GetU32Injective(blob[i..i + 4], PutU32(next.start));
    GetU32Injective(blob[i + 4..i + 8], PutU32(next.count));
    assert (out + [next])[..|out|] == out;
    assert blob[..i + 8] == blob[..i] + blob[i..i + 4] + blob[i + 4..i + 8];
  }

  /** The decoder refuses a ragged blob and otherwise finds the one list that encodes to it. */
  method DecodeRanges(blob: Bytes) returns (r: Option<seq<Range>>)
    ensures r.None? <==> |blob| % 8 != 0
    ensures r.Some? ==> RangeBytes(r.value) == blob
    ensures forall rs: seq<Range> :: RangeBytes(rs) == blob ==> r == Some(rs)
  {
    if |blob| % 8 != 0 {
      RaggedBlob(blob);
      return None;
    }
    var out: seq<Range> := [];
    var i := 0;
    while i < |blob|
      invariant 0 <= i <= |blob| && i % 8 == 0
      invariant RangeBytes(out) == blob[..i]
    {
      var next := Range(GetU32(blob[i..i + 4]), GetU32(blob[i + 4..i + 8]));
      RangeCut(blob, i, out, next);
      out := out + [next];
      i := i + 8;
    }
    assert blob[..|blob|] == blob;
    OnlyEncoding(blob, out);
    return Some(out);
  }

  datatype ChunkAck = ChunkAck(transferID: Bytes, highest: U32, missing: Bytes, bitmap: Bytes, encoding: Byte)

  const ACK_CAP := 8192

  function MarshalChunkAck(a: ChunkAck): Result<seq<Field>> {
    if |a.transferID| != 16 then Bad(InvalidRequest)
    else if |a.missing| % 8 != 0 then Bad(InvalidRequest)
    else if |a.missing| / 8 > MAX_MISSING_RANGES then Bad(InvalidRequest)
    else Ok([Field(1, a.transferID), Field(2, PutU32(a.highest)), Field(3, a.missing), Field(4, a.bitmap),
             Field(5, [a.encoding])])
  }

  function UnmarshalChunkAck(fields: seq<Field>): Result<ChunkAck> {
    if BodySize(fields) > ACK_CAP then Bad(PayloadTooLarge)
    else if !Width(fields, 2, 4) || !Width(fields, 5, 1) then Bad(ShortBody)
    else
      var encoding: Byte := if LastOf(fields, 5) == [] then 0 else LastOf(fields, 5)[0];
      var a := ChunkAck(LastOf(fields, 1), NumberOf(fields, 2), LastOf(fields, 3), LastOf(fields, 4), encoding);
      if |a.transferID| != 16 then Bad(InvalidRequest)
      else if |a.missing| % 8 != 0 then Bad(InvalidRequest)
      else Ok(a)
  }

  lemma FiveFields(f: seq<Field>)
    requires |f| == 5
    ensures BodySize(f) == 1 + FieldSize(f[0]) + FieldSize(f[1]) + FieldSize(f[2]) + FieldSize(f[3]) + FieldSize(f[4])
  {
    FourFields(f[..4]);
    BodyPrefix(f, 4);
    assert f[..5] == f;
  }

  lemma AckDecodes(a: ChunkAck)
    requires MarshalChunkAck(a).Ok? && BodySize(MarshalChunkAck(a).value) <= ACK_CAP
    ensures UnmarshalChunkAck(MarshalChunkAck(a).value) == Ok(a)
  {
    var f := MarshalChunkAck(a).value;
    FieldFound(f, 0);
    FieldFound(f, 1);
    FieldFound(f, 2);
    FieldFound(f, 3);
    FieldFound(f, 4);
  }

  /** An acknowledgement that lists missing ranges is never refused by the encoder, and the client's decoder takes it
      exactly when it lists at most 1019 of them: above that the body exceeds the decoder's cap. */
  lemma RangeAckFits(transferID: Bytes, highest: U32, ranges: seq<Range>)
    requires |transferID| == 16 && |ranges| <= MAX_MISSING_RANGES
    ensures var a := ChunkAck(transferID, highest, RangeBytes(ranges), [], 1);
            && MarshalChunkAck(a).Ok?
            && (|ranges| <= 1019 ==> UnmarshalChunkAck(MarshalChunkAck(a).value) == Ok(a))
            && (|ranges| > 1019 ==> UnmarshalChunkAck(MarshalChunkAck(a).value) == Bad(PayloadTooLarge))
  {
    var a := ChunkAck(transferID, highest, RangeBytes(ranges), [], 1);
    RangeAckSize(transferID, highest, ranges);
    if |ranges| <= 1019 {
      AckDecodes(a);
    }
  }

  lemma RangeAckLength(k: nat)
    requires k <= MAX_MISSING_RANGES
    ensures 31 + UlebLen(8 * k) + 8 * k <= ACK_CAP <==> k <= 1019
  {
    UlebShort(8 * k);
  }

  lemma RangeAckSize(transferID: Bytes, highest: U32, ranges: seq<Range>)
    requires |transferID| == 16 && |ranges| <= MAX_MISSING_RANGES
    ensures var a := ChunkAck(transferID, highest, RangeBytes(ranges), [], 1);
            MarshalChunkAck(a).Ok? && (BodySize(MarshalChunkAck(a).value) <= ACK_CAP <==> |ranges| <= 1019)
  {
    var n := |RangeBytes(ranges)|;
    RangeBytesLength(ranges);
    assert n % 8 == 0 && n / 8 == |ranges|;
    var f := [Field(1, transferID), Field(2, PutU32(highest)), Field(3, RangeBytes(ranges)), Field(4, []),
              Field(5, [1])];
    FiveFields(f);
    assert BodySize(f) == 31 + UlebLen(n) + n;
    RangeAckLength(|ranges|);
  }

  /** A bitmap acknowledgement always fits. */
  lemma BitmapAckFits(transferID: Bytes, highest: U32, bitmap: Bytes)
    requires |transferID| == 16 && |bitmap| <= 32
    ensures var a := ChunkAck(transferID, highest, [], bitmap, 0);
            MarshalChunkAck(a).Ok? && UnmarshalChunkAck(MarshalChunkAck(a).value) == Ok(a)
  {
    var a := ChunkAck(transferID, highest, [], bitmap, 0);
    FiveFields(MarshalChunkAck(a).value);
    AckDecodes(a);
  }

  // ---- the resume response ----

  datatype ResumeResponse = ResumeResponse(
    transferID: Bytes, chunkCount: U32, highest: U32, encoding: Byte, bitmap: Bytes, missing: Bytes)

  const RESUME_CAP := 8192

  function MarshalResumeResponse(r: ResumeResponse): Result<seq<Field>> {
    if |r.transferID| != 16 || r.chunkCount == 0 || r.chunkCount > MAX_CHUNKS then Bad(InvalidRequest)
    else Ok([Field(1, r.transferID), Field(2, PutU32(r.chunkCount)), Field(3, PutU32(r.highest)),
             Field(4, [r.encoding]),
             Field(5, r.bitmap), Field(6, r.missing)])
  }

  function UnmarshalResumeResponse(fields: seq<Field>): Result<ResumeResponse> {
    if BodySize(fields) > RESUME_CAP then Bad(PayloadTooLarge)
    else if !Width(fields, 2, 4) || !Width(fields, 3, 4) || !Width(fields, 4, 1) then Bad(ShortBody)
    else
      var encoding: Byte := if LastOf(fields, 4) == [] then 0 else LastOf(fields, 4)[0];
      if |LastOf(fields, 1)| != 16 then Bad(InvalidRequest)
      else Ok(ResumeResponse(LastOf(fields, 1), NumberOf(fields, 2), NumberOf(fields, 3), encoding,
                             LastOf(fields, 5), LastOf(fields, 6)))
  }

  lemma ResumeDecodes(r: ResumeResponse)
    requires MarshalResumeResponse(r).Ok? && BodySize(MarshalResumeResponse(r).value) <= RESUME_CAP
    ensures UnmarshalResumeResponse(MarshalResumeResponse(r).value) == Ok(r)
  {
    var f := MarshalResumeResponse(r).value;
    FieldFound(f, 0);
    FieldFound(f, 1);
    FieldFound(f, 2);
    FieldFound(f, 3);
    FieldFound(f, 4);
    FieldFound(f, 5);
  }

  lemma ResumeSize(r: ResumeResponse)
    requires MarshalResumeResponse(r).Ok? && |r.bitmap| < 128
    ensures BodySize(MarshalResumeResponse(r).value) == 37 + |r.bitmap| + UlebLen(|r.missing|) + |r.missing|
  {
    var f := MarshalResumeResponse(r).value;
    FiveFields(f[..5]);
    BodyPrefix(f, 5);
    assert f[..6] == f;
  }

  lemma ResumeLength(bits: nat, k: nat)
    requires k <= MAX_MISSING_RANGES && bits <= 32 && (bits == 0 || k == 0)
    ensures 37 + bits + UlebLen(8 * k) + 8 * k <= RESUME_CAP <==> k <= 1019
  {
    UlebShort(8 * k);
  }

  /** A resume response with a bitmap, or with ranges, decodes to itself exactly when it lists at most 1019 ranges. */
  lemma ResumeResponseFits(r: ResumeResponse, ranges: seq<Range>)
    requires MarshalResumeResponse(r).Ok? && r.missing == RangeBytes(ranges) && |ranges| <= MAX_MISSING_RANGES
    requires |r.bitmap| <= 32 && (r.bitmap == [] || ranges == [])
    ensures UnmarshalResumeResponse(MarshalResumeResponse(r).value) ==
            if |ranges| <= 1019 then Ok(r) else Bad(PayloadTooLarge)
  {
    RangeBytesLength(ranges);
    ResumeSize(r);
    ResumeLength(|r.bitmap|, |ranges|);
    if |ranges| <= 1019 {
      ResumeDecodes(r);
    }
  }
}
