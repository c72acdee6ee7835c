/** The log record codec: `Record::to_bytes`, `parse_chain` and `record_hash`. */
module Records {
  import opened ByteStrings

  const TAG_PUT: Byte := 1
  const TAG_DEL: Byte := 2
  const TAG_PUT_TTL: Byte := 3
  const TAG_SCHEMA: Byte := 4
  const TAG_INDEX: Byte := 5
  const TAG_BATCH: Byte := 6
  const HEADER_LEN: nat := 41

  /** The two checksums the format relies on. Every statement below holds for
      all functions of these types. */
  datatype Crypto = Crypto(sha: Bytes -> Id32, crc: Bytes -> U32)

  datatype Record = Record(
    tag: Byte,
    key: Bytes,
    hlc: U64,
    replica: Id32,
    author: Id32,
    value: Bytes,
    expiresAt: U64,
    ops: seq<Record>)

  datatype Option<+T> = None | Some(value: T)

  /** Result of parsing. `Trap` is the process-level panic of an out-of-range
      slice: the value length is the one field read without a bounds check. */
  datatype Outcome<+T> = Ok(value: T) | Corrupt | Trap {
    predicate IsFailure() { !Ok? }
    function PropagateFailure<U>(): Outcome<U>
      requires IsFailure()
    {
      if Corrupt? then Corrupt else Trap
    }
    function Extract(): T
      requires Ok?
    {
      value
    }
  }

  // ---------- which records the format can carry ----------

  predicate IsOpTag(tag: Byte) {
    tag == TAG_PUT || tag == TAG_PUT_TTL || tag == TAG_DEL
  }

  predicate ValidTag(tag: Byte) {
    IsOpTag(tag) || tag == TAG_SCHEMA || tag == TAG_INDEX || tag == TAG_BATCH
  }

  /** A record without sub-ops; only a TTL put carries an expiry. */
  predicate Plain(r: Record) {
    r.ops == [] && (r.tag != TAG_PUT_TTL ==> r.expiresAt == 0)
  }

  predicate SubOp(r: Record) {
    IsOpTag(r.tag) && Plain(r)
  }

  /** A batch has empty key and value and mirrors its first sub-op. */
  predicate Canonical(r: Record) {
    ValidTag(r.tag) &&
    if r.tag == TAG_BATCH then
      && (forall op | op in r.ops :: SubOp(op))
      && r == BatchOf(r.ops)
    else
      Plain(r)
  }

  function BatchOf(ops: seq<Record>): Record {
    if ops == [] then
      Record(TAG_BATCH, [], 0, ZERO_ID, ZERO_ID, [], 0, [])
    else
      Record(TAG_BATCH, [], ops[0].hlc, ops[0].replica, ops[0].author, [], 0, ops)
  }

  /** The payload length fits its 32-bit length field. */
  predicate Fits(r: Record) {
    |Body(r)| < U32_LIMIT
  }

  // ---------- serialisation ----------

  function Payload(r: Record): Bytes {
    Le(|r.key|, 4) + (r.key + (Le(r.hlc, 8) + (r.replica + (r.author + (Le(|r.value|, 8) + (r.value + Ttl(r)))))))
  }

  function Ttl(r: Record): Bytes {
    if r.tag == TAG_PUT_TTL then Le(r.expiresAt, 8) else []
  }

  function OpsBytes(ops: seq<Record>): Bytes {
    if ops == [] then [] else [ops[0].tag] + (Payload(ops[0]) + OpsBytes(ops[1..]))
  }

  function Body(r: Record): Bytes {
    if r.tag == TAG_BATCH then Le(|r.ops|, 4) + OpsBytes(r.ops) else Payload(r)
  }

  /** A full record around `body`: tag, length, checksum, previous hash, body. */
  function Frame(c: Crypto, tag: Byte, prev: Id32, body: Bytes): Bytes {
    [tag] + (Le(|body|, 4) + (Le(c.crc([tag] + (prev + body)), 4) + (prev + body)))
  }

  function Encode(c: Crypto, r: Record, prev: Id32): Bytes {
    Frame(c, r.tag, prev, Body(r))
  }

  function RecordHash(c: Crypto, prev: Id32, bytes: Bytes): Id32 {
    c.sha(prev + bytes)
  }

  // ---------- parsing ----------

  function ParsePayload(tag: Byte, bytes: Bytes, p: nat): Outcome<(Record, nat)> {
    if p + 4 > |bytes| then Corrupt else
    var keyLen := ReadU32(bytes[p..p + 4]);
    var k := p + 4;
    if keyLen > |bytes| - k then Corrupt else
    var key := bytes[k..k + keyLen];
    var h := k + keyLen;
    if h + 8 > |bytes| then Corrupt else
    var hlc := ReadU64(bytes[h..h + 8]);
    var i := h + 8;
    if i + 64 > |bytes| then Corrupt else
    var replica := bytes[i..i + 32];
    var author := bytes[i + 32..i + 64];
    var l := i + 64;
    if l + 8 > |bytes| then Trap else
    var valLen := ReadU64(bytes[l..l + 8]);
    var v := l + 8;
    if valLen > |bytes| - v then Corrupt else
    var value := bytes[v..v + valLen];
    var e := v + valLen;
    if tag != TAG_PUT_TTL then
      Ok((Record(tag, key, hlc, replica, author, value, 0, []), e))
    else if e + 8 > |bytes| then
      Corrupt
    else
      Ok((Record(tag, key, hlc, replica, author, value, ReadU64(bytes[e..e + 8]), []), e + 8))
  }

  /** `count` sub-ops from offset `p`. */
  function ParseOps(bytes: Bytes, p: nat, count: nat): Outcome<(seq<Record>, nat)>
    decreases count
  {
    if count == 0 then Ok(([], p)) else
    if p >= |bytes| || !IsOpTag(bytes[p]) then Corrupt else
    var sub :- ParsePayload(bytes[p], bytes, p + 1);
    var rest :- ParseOps(bytes, sub.1, count - 1);
    Ok(([sub.0] + rest.0, rest.1))
  }

  function ParseBody(tag: Byte, bytes: Bytes): Outcome<Record> {
    if tag == TAG_BATCH then
      if HEADER_LEN + 4 > |bytes| then Corrupt else
      var ops :- ParseOps(bytes, HEADER_LEN + 4, ReadU32(bytes[HEADER_LEN..HEADER_LEN + 4]));
      Ok(BatchOf(ops.0))
    else
      var r :- ParsePayload(tag, bytes, HEADER_LEN);
      Ok(r.0)
  }

  /** The checks every record passes before its payload is looked at. */
  predicate FrameOk(c: Crypto, bytes: Bytes, expected: Option<Id32>) {
    && |bytes| >= HEADER_LEN
    && ValidTag(bytes[0])
    && ReadU32(bytes[1..5]) == |bytes| - HEADER_LEN
    && c.crc(bytes[..1] + bytes[9..]) == ReadU32(bytes[5..9])
    && (expected.Some? ==> bytes[9..41] == expected.value)
  }

  function Parse(c: Crypto, bytes: Bytes, expected: Option<Id32>): Outcome<(Record, Id32)> {
    if !FrameOk(c, bytes, expected) then Corrupt else
    var r :- ParseBody(bytes[0], bytes);
    Ok((r, bytes[9..41]))
  }

  // ---------- the parser is exactly the inverse of the printer ----------

  lemma PayloadFields(r: Record, bytes: Bytes, p: nat)
    requires At(bytes, p, Payload(r))
    ensures var k := p + 4; var h := k + |r.key|; var l := h + 72; var e := l + 8 + |r.value|;
      && At(bytes, p, Le(|r.key|, 4)) && At(bytes, k, r.key) && At(bytes, h, Le(r.hlc, 8))
      && At(bytes, h + 8, r.replica) && At(bytes, h + 40, r.author)
      && At(bytes, l, Le(|r.value|, 8)) && At(bytes, l + 8, r.value) && At(bytes, e, Ttl(r))
  {
    hide At;
    var s7 := r.value + Ttl(r);
    var s6 := Le(|r.value|, 8) + s7;
    var s5 := r.author + s6;
    var s4 := r.replica + s5;
    var s3 := Le(r.hlc, 8) + s4;
    var s2 := r.key + s3;
    var h := p + 4 + |r.key|;
    AtSplit(bytes, p, Le(|r.key|, 4), s2);
    AtSplit(bytes, p + 4, r.key, s3);
    AtSplit(bytes, h, Le(r.hlc, 8), s4);
    AtSplit(bytes, h + 8, r.replica, s5);
    AtSplit(bytes, h + 40, r.author, s6);
    AtSplit(bytes, h + 72, Le(|r.value|, 8), s7);
    AtSplit(bytes, h + 80, r.value, Ttl(r));
  }

  lemma FieldsPayload(r: Record, bytes: Bytes, p: nat)
    requires var k := p + 4; var h := k + |r.key|; var l := h + 72; var e := l + 8 + |r.value|;
      && At(bytes, p, Le(|r.key|, 4)) && At(bytes, k, r.key) && At(bytes, h, Le(r.hlc, 8))
      && At(bytes, h + 8, r.replica) && At(bytes, h + 40, r.author)
      && At(bytes, l, Le(|r.value|, 8)) && At(bytes, l + 8, r.value) && At(bytes, e, Ttl(r))
    ensures At(bytes, p, Payload(r))
  {
    hide At;
    var s7 := r.value + Ttl(r);
    var s6 := Le(|r.value|, 8) + s7;
    var s5 := r.author + s6;
    var s4 := r.replica + s5;
    var s3 := Le(r.hlc, 8) + s4;
    var s2 := r.key + s3;
    var h := p + 4 + |r.key|;
    AtSplit(bytes, h + 80, r.value, Ttl(r));
    AtSplit(bytes, h + 72, Le(|r.value|, 8), s7);
    AtSplit(bytes, h + 40, r.author, s6);
    AtSplit(bytes, h + 8, r.replica, s5);
    AtSplit(bytes, h, Le(r.hlc, 8), s4);
    AtSplit(bytes, p + 4, r.key, s3);
    AtSplit(bytes, p, Le(|r.key|, 4), s2);
  }

  lemma PayloadLength(r: Record)
    ensures |Payload(r)| == 84 + |r.key| + |r.value| + (if r.tag == TAG_PUT_TTL then 8 else 0)
  {
  }

  lemma PayloadParses(r: Record, bytes: Bytes, p: nat)
    requires Plain(r) && |r.key| < U32_LIMIT && |r.value| < U64_LIMIT
    requires At(bytes, p, Payload(r))
    ensures ParsePayload(r.tag, bytes, p) == Ok((r, p + |Payload(r)|))
  {
    hide At, Payload, Le, UnLe;
    PayloadFields(r, bytes, p);
    PayloadLength(r);
    var h := p + 4 + |r.key|;
    AtFits(bytes, p, Le(|r.key|, 4));
    AtFits(bytes, p + 4, r.key);
    AtFits(bytes, h, Le(r.hlc, 8));
    AtFits(bytes, h + 8, r.replica);
    AtFits(bytes, h + 40, r.author);
    AtFits(bytes, h + 72, Le(|r.value|, 8));
    AtFits(bytes, h + 80, r.value);
    AtFits(bytes, h + 80 + |r.value|, Ttl(r));
    U32RoundTrip(|r.key|);
    U64RoundTrip(r.hlc);
    U64RoundTrip(|r.value|);
    U64RoundTrip(r.expiresAt);
  }

  lemma ParsedPayload(tag: Byte, bytes: Bytes, p: nat)
    requires ParsePayload(tag, bytes, p).Ok?
    ensures var (r, q) := ParsePayload(tag, bytes, p).value;
      && r.tag == tag && Plain(r) && |r.key| < U32_LIMIT && |r.value| < U64_LIMIT
      && At(bytes, p, Payload(r)) && q == p + |Payload(r)|
  {
    hide At, Payload, Le, UnLe;
    var (r, q) := ParsePayload(tag, bytes, p).value;
    var h := p + 4 + |r.key|;
    var e := h + 80 + |r.value|;
    AtSlice(bytes, p, 4);
    AtSlice(bytes, p + 4, |r.key|);
    AtSlice(bytes, h, 8);
    AtSlice(bytes, h + 8, 32);
    AtSlice(bytes, h + 40, 32);
    AtSlice(bytes, h + 72, 8);
    AtSlice(bytes, h + 80, |r.value|);
    AtSlice(bytes, e, |Ttl(r)|);
    FieldsPayload(r, bytes, p);
    PayloadLength(r);
  }

  lemma {:induction false} OpsParse(ops: seq<Record>, bytes: Bytes, p: nat)
    requires forall op | op in ops :: SubOp(op) && |op.key| < U32_LIMIT && |op.value| < U64_LIMIT
    requires At(bytes, p, OpsBytes(ops))
    ensures ParseOps(bytes, p, |ops|) == Ok((ops, p + |OpsBytes(ops)|))
  {
    hide At, Payload, ParsePayload, Plain;
    if ops != [] {
      var rest := OpsBytes(ops[1..]);
      AtSplit(bytes, p, [ops[0].tag], Payload(ops[0]) + rest);
      AtSplit(bytes, p + 1, Payload(ops[0]), rest);
      AtByte(bytes, p, ops[0].tag);
      PayloadParses(ops[0], bytes, p + 1);
      OpsParse(ops[1..], bytes, p + 1 + |Payload(ops[0])|);
      assert ops == [ops[0]] + ops[1..];
      assert |OpsBytes(ops)| == 1 + |Payload(ops[0])| + |rest|;
    }
  }

  lemma {:induction false} ParsedOps(bytes: Bytes, p: nat, count: nat)
    requires ParseOps(bytes, p, count).Ok?
    ensures var (ops, q) := ParseOps(bytes, p, count).value;
      && |ops| == count
      && (forall op | op in ops :: SubOp(op) && |op.key| < U32_LIMIT && |op.value| < U64_LIMIT)
      && (p <= |bytes| ==> At(bytes, p, OpsBytes(ops)))
      && q == p + |OpsBytes(ops)|
    decreases count
  {
    hide At, Payload, ParsePayload;
    AtByte(bytes, p, if p < |bytes| then bytes[p] else 0);
    if count > 0 {
      var (ops, q) := ParseOps(bytes, p, count).value;
      var np := ParsePayload(bytes[p], bytes, p + 1).value.1;
      ParsedPayload(bytes[p], bytes, p + 1);
      AtFits(bytes, p + 1, Payload(ops[0]));
      ParsedOps(bytes, np, count - 1);
      assert ops[1..] == ParseOps(bytes, np, count - 1).value.0;
      var rest := OpsBytes(ops[1..]);
      AtSplit(bytes, p + 1, Payload(ops[0]), rest);
      AtSplit(bytes, p, [ops[0].tag], Payload(ops[0]) + rest);
    }
  }

  lemma {:induction false} OpsBytesBound(ops: seq<Record>)
    ensures |OpsBytes(ops)| >= |ops|
    ensures forall op | op in ops :: |op.key| + |op.value| <= |OpsBytes(ops)|
  {
    if ops != [] { OpsBytesBound(ops[1..]); }
  }

  lemma FrameFields(c: Crypto, tag: Byte, prev: Id32, body: Bytes)
    ensures var b := Frame(c, tag, prev, body);
      && |b| == HEADER_LEN + |body| && b[0] == tag && b[1..5] == Le(|body|, 4)
      && b[5..9] == Le(c.crc([tag] + (prev + body)), 4)
      && b[9..41] == prev && b[41..] == body && b[..1] + b[9..] == [tag] + (prev + body)
  {
    var b := Frame(c, tag, prev, body);
    assert b[9..] == prev + body;
    assert b[..1] == [tag];
    assert b[41..] == b[9..][32..];
    assert b[9..41] == b[9..][..32];
  }

  lemma BodyAt(c: Crypto, tag: Byte, prev: Id32, body: Bytes, tail: Bytes)
    ensures var b := Frame(c, tag, prev, body + tail); |b| >= HEADER_LEN && At(b, 41, body)
  {
    hide Frame, Le;
    var b := Frame(c, tag, prev, body + tail);
    FrameFields(c, tag, prev, body + tail);
    assert b[41..41 + |body|] == b[41..][..|body|];
  }

  /** Every record body, followed by any further payload bytes, parses back. */
  lemma BodyParses(c: Crypto, r: Record, prev: Id32, tail: Bytes)
    requires Canonical(r) && |Body(r) + tail| < U32_LIMIT
    ensures ParseBody(r.tag, Frame(c, r.tag, prev, Body(r) + tail)) == Ok(r)
  {
    hide Frame, At, Payload, ParsePayload, ParseOps, OpsBytes, Le, UnLe, SubOp, BatchOf;
    var b := Frame(c, r.tag, prev, Body(r) + tail);
    BodyAt(c, r.tag, prev, Body(r), tail);
    if r.tag == TAG_BATCH {
      BatchBodyParses(r.ops, b, |Body(r)|);
    } else {
      PayloadLength(r);
      PayloadParses(r, b, 41);
    }
  }

  lemma BatchBodyParses(ops: seq<Record>, b: Bytes, n: nat)
    requires (forall op | op in ops :: SubOp(op)) && n == 4 + |OpsBytes(ops)| < U32_LIMIT
    requires At(b, 41, Le(|ops|, 4) + OpsBytes(ops))
    ensures 45 <= |b| && ReadU32(b[41..45]) == |ops|
    ensures ParseOps(b, 45, |ops|) == Ok((ops, 45 + |OpsBytes(ops)|))
  {
    hide At, Payload, ParseOps, OpsBytes, Le, UnLe, SubOp;
    OpsBytesBound(ops);
    AtSplit(b, 41, Le(|ops|, 4), OpsBytes(ops));
    AtFits(b, 41, Le(|ops|, 4));
    U32RoundTrip(|ops|);
    OpsParse(ops, b, 45);
  }

  lemma ParsedBody(c: Crypto, bytes: Bytes)
    requires |bytes| >= HEADER_LEN && ParseBody(bytes[0], bytes).Ok? && ValidTag(bytes[0])
    ensures var r := ParseBody(bytes[0], bytes).value;
      Canonical(r) && r.tag == bytes[0] && At(bytes, HEADER_LEN, Body(r))
  {
    hide At, Payload, ParsePayload, ParseOps, OpsBytes, Le, UnLe;
    if bytes[0] == TAG_BATCH {
      var n := ReadU32(bytes[41..45]);
      AtSlice(bytes, 41, 4);
      ParsedOps(bytes, 45, n);
      LeOfUnLe(bytes[41..45]);
      var ops := ParseOps(bytes, 45, n).value.0;
      AtSplit(bytes, 41, Le(|ops|, 4), OpsBytes(ops));
    } else {
      ParsedPayload(bytes[0], bytes, 41);
    }
  }

  /** Completeness: an encoding, even with ignored bytes after its last field,
      parses to the record and link that produced it. */
  lemma FrameParses(c: Crypto, r: Record, prev: Id32, tail: Bytes, expected: Option<Id32>)
    requires Canonical(r) && |Body(r) + tail| < U32_LIMIT
    requires expected.Some? ==> expected.value == prev
    ensures Parse(c, Frame(c, r.tag, prev, Body(r) + tail), expected) == Ok((r, prev))
  {
    FrameFields(c, r.tag, prev, Body(r) + tail);
    U32RoundTrip(|Body(r) + tail|);
    U32RoundTrip(c.crc([r.tag] + (prev + (Body(r) + tail))));
    BodyParses(c, r, prev, tail);
  }

  lemma FrameOfFields(c: Crypto, bytes: Bytes, expected: Option<Id32>)
    requires FrameOk(c, bytes, expected)
    ensures bytes == Frame(c, bytes[0], bytes[9..41], bytes[41..])
  {
    hide Le, UnLe;
    LeOfUnLe(bytes[1..5]);
    LeOfUnLe(bytes[5..9]);
    assert bytes[9..] == bytes[9..41] + bytes[41..];
    assert bytes[..1] == [bytes[0]];
    assert bytes == bytes[..1] + (bytes[1..5] + (bytes[5..9] + bytes[9..]));
  }

  /** Soundness: whatever parses is the encoding of a canonical record, plus
      ignored payload bytes that the checksum and the hash still cover. */
  lemma ParsedFrame(c: Crypto, bytes: Bytes, expected: Option<Id32>)
    requires Parse(c, bytes, expected).Ok?
    ensures var (r, prev) := Parse(c, bytes, expected).value;
      && Canonical(r)
      && (expected.Some? ==> prev == expected.value)
      && |Body(r)| <= |bytes| - HEADER_LEN < U32_LIMIT
      && bytes == Frame(c, r.tag, prev, Body(r) + bytes[HEADER_LEN + |Body(r)|..])
  {
    hide ParseBody, Canonical, Body, Frame, ReadU32, Encode;
    var (r, prev) := Parse(c, bytes, expected).value;
    ParsedBody(c, bytes);
    FrameOfFields(c, bytes, expected);
    assert bytes[41..] == bytes[41..41 + |Body(r)|] + bytes[41 + |Body(r)|..];
  }

  /** Round trip: among records whose payload fits its length field, exactly
      the canonical ones come back unchanged. */
  lemma RoundTrip(c: Crypto, r: Record, prev: Id32)
    requires Fits(r)
    ensures Parse(c, Encode(c, r, prev), Some(prev)) == Ok((r, prev)) <==> Canonical(r)
    ensures Canonical(r) ==> Parse(c, Encode(c, r, prev), None) == Ok((r, prev))
  {
    assert Body(r) + [] == Body(r);
    if Canonical(r) {
      FrameParses(c, r, prev, [], Some(prev));
      FrameParses(c, r, prev, [], None);
    }
    if Parse(c, Encode(c, r, prev), Some(prev)) == Ok((r, prev)) {
      ParsedFrame(c, Encode(c, r, prev), Some(prev));
    }
  }

  /** Re-serialising a parsed record onto any other head keeps its meaning. */
  lemma Reserialise(c: Crypto, bytes: Bytes, expected: Option<Id32>, head: Id32)
    requires Parse(c, bytes, expected).Ok?
    ensures var r := Parse(c, bytes, expected).value.0;
      Fits(r) && Parse(c, Encode(c, r, head), Some(head)) == Ok((r, head))
  {
    ParsedFrame(c, bytes, expected);
    RoundTrip(c, Parse(c, bytes, expected).value.0, head);
  }

  // ---------- the loops ----------

  lemma {:induction false} OpsBytesSnoc(ops: seq<Record>, op: Record)
    ensures OpsBytes(ops + [op]) == OpsBytes(ops) + ([op.tag] + Payload(op))
  {
    hide Payload;
    if ops == [] {
      assert ops + [op] == [op] && [op][1..] == [];
    } else {
      OpsBytesSnoc(ops[1..], op);
      assert (ops + [op])[1..] == ops[1..] + [op];
    }
  }

  /** The batch payload: a count, then each sub-op's tag and payload. */
  method BatchBody(ops: seq<Record>) returns (payload: Bytes)
    ensures payload == Le(|ops|, 4) + OpsBytes(ops)
  {
    hide Payload, Le;
    payload := Le(|ops|, 4);
    assert payload + [] == payload;
    for i := 0 to |ops|
      invariant payload == Le(|ops|, 4) + OpsBytes(ops[..i])
    {
      OpsBytesSnoc(ops[..i], ops[i]);
      assert ops[..i + 1] == ops[..i] + [ops[i]];
      payload := payload + ([ops[i].tag] + Payload(ops[i]));
    }
    assert ops[..|ops|] == ops;
  }

  method ToBytes(c: Crypto, r: Record, prev: Id32) returns (out: Bytes)
    ensures out == Encode(c, r, prev)
  {
    hide Payload, Le, OpsBytes;
    var payload: Bytes := [];
    if r.tag == TAG_BATCH {
      payload := BatchBody(r.ops);
    } else {
      payload := Payload(r);
    }
    // The checksum field is patched into the finished buffer.
    out := [r.tag] + Le(|payload|, 4) + [0, 0, 0, 0] + prev + payload;
    assert out[..1] == [r.tag] && out[9..] == prev + payload;
    assert out[..5] == [r.tag] + Le(|payload|, 4);
    var crc := c.crc(out[..1] + out[9..]);
    out := out[..5] + Le(crc, 4) + out[9..];
  }

  ghost function Prepend(done: seq<Record>, res: Outcome<(seq<Record>, nat)>): Outcome<(seq<Record>, nat)> {
    match res
    case Ok((ops, p)) => Ok((done + ops, p))
    case Corrupt => Corrupt
    case Trap => Trap
  }

  lemma PrependStep(bytes: Bytes, p: nat, count: nat, done: seq<Record>)
    requires count > 0 && p < |bytes| && IsOpTag(bytes[p])
    ensures var sub := ParsePayload(bytes[p], bytes, p + 1);
      Prepend(done, ParseOps(bytes, p, count)) ==
        if sub.Ok? then Prepend(done + [sub.value.0], ParseOps(bytes, sub.value.1, count - 1))
        else sub.PropagateFailure<(seq<Record>, nat)>()
  {
    hide ParsePayload;
    var sub := ParsePayload(bytes[p], bytes, p + 1);
    if sub.Ok? {
      var rest := ParseOps(bytes, sub.value.1, count - 1);
      if rest.Ok? {
        assert done + ([sub.value.0] + rest.value.0) == done + [sub.value.0] + rest.value.0;
      }
    }
  }

  method ParseBatch(bytes: Bytes, start: nat, count: nat) returns (res: Outcome<(seq<Record>, nat)>)
    ensures res == ParseOps(bytes, start, count)
  {
    hide ParsePayload;
    var p: nat, ops: seq<Record> := start, [];
    ghost var all := ParseOps(bytes, start, count);
    assert all.Ok? ==> [] + all.value.0 == all.value.0;
    for i := 0 to count
      invariant all == Prepend(ops, ParseOps(bytes, p, count - i))
    {
      if p >= |bytes| { return Corrupt; }
      var subTag := bytes[p];
      if !IsOpTag(subTag) { return Corrupt; }
      PrependStep(bytes, p, count - i, ops);
      var sub :- ParsePayload(subTag, bytes, p + 1);
      p := sub.1;
      ops := ops + [sub.0];
    }
    assert ops + [] == ops;
    return Ok((ops, p));
  }

  method ParseChain(c: Crypto, bytes: Bytes, expected: Option<Id32>) returns (res: Outcome<(Record, Id32)>)
    ensures res == Parse(c, bytes, expected)
  {
    hide ParsePayload, ParseOps;
    if !FrameOk(c, bytes, expected) { return Corrupt; }
    var tag, prev := bytes[0], bytes[9..41];
    if tag != TAG_BATCH {
      var r :- ParsePayload(tag, bytes, HEADER_LEN);
      return Ok((r.0, prev));
    }
    if HEADER_LEN + 4 > |bytes| { return Corrupt; }
    var count := ReadU32(bytes[HEADER_LEN..HEADER_LEN + 4]);
    var ops :- ParseBatch(bytes, HEADER_LEN + 4, count);
    return Ok((BatchOf(ops.0), prev));
  }
}
