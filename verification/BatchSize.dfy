/** The size preflight of an HTTP batch (`server/mod.rs`, `handle_batch`): one
    batch becomes one log record, which must stay small enough to replicate. */
module BatchSize {
  import opened ByteStrings
  import opened Records
  import Base64
  import Sync

  const MAX_BATCH_RECORD_BYTES: nat := 6 * 1024 * 1024

  /** Framing around the sub-ops of a batch record: header and count. */
  const ENVELOPE: nat := 45

  datatype Op =
    | PutOp(key: Option<Bytes>, b64: Option<Bytes>)
    | DelOp(key: Option<Bytes>)
    | OtherOp

  function KeyLen(key: Option<Bytes>): nat {
    if key.Some? then |key.value| else 0
  }

  function OpEstimate(op: Op): nat {
    match op
    case PutOp(key, b64) => 93 + KeyLen(key) + (if b64.Some? then (|b64.value| + 3) / 4 * 3 else 0)
    case DelOp(key) => 85 + KeyLen(key)
    case OtherOp => 0
  }

  function Estimate(ops: seq<Op>): nat {
    if ops == [] then 0 else Estimate(ops[..|ops| - 1]) + OpEstimate(ops[|ops| - 1])
  }

  method Preflight(ops: seq<Op>) returns (est: nat, ok: bool)
    ensures est == Estimate(ops) && (ok <==> est <= MAX_BATCH_RECORD_BYTES)
  {
    est := 0;
    for i := 0 to |ops|
      invariant est == Estimate(ops[..i])
    {
      assert ops[..i + 1][..i] == ops[..i];
      match ops[i] {
        case PutOp(key, b64) =>
          var bound := if b64.Some? then (|b64.value| + 3) / 4 * 3 else 0;
          est := est + 93 + KeyLen(key) + bound;
        case DelOp(key) => est := est + 85 + KeyLen(key);
        case OtherOp =>
      }
    }
    assert ops[..|ops|] == ops;
    ok := est <= MAX_BATCH_RECORD_BYTES;
  }

  // ---------- the records a batch can become ----------

  /** `r` is the sub-op written for `op`. */
  predicate Built(op: Op, r: Record) {
    && SubOp(r)
    && match op
       case PutOp(Some(k), Some(s)) =>
         (r.tag == TAG_PUT || r.tag == TAG_PUT_TTL) && r.key == k && Base64.Decode(Base64.Standard, s) == Base64.Ok(r.value)
       case DelOp(Some(k)) => r.tag == TAG_DEL && r.key == k && r.value == []
       case _ => false
  }

  /** The applied sub-ops come from the requested ones in order; any of them may
      have been dropped by validation or quota. */
  predicate Admits(ops: seq<Op>, rs: seq<Record>) {
    if ops == [] then rs == []
    else
      var n := |ops| - 1;
      Admits(ops[..n], rs) || (rs != [] && Built(ops[n], rs[|rs| - 1]) && Admits(ops[..n], rs[..|rs| - 1]))
  }

  lemma {:induction false} OctetsLength(v: seq<Base64.Sextet>)
    ensures |Base64.Octets(v)| <= (|v| + 3) / 4 * 3
  {
    hide Base64.Merge;
    if |v| > 4 {
      OctetsLength(v[4..]);
      assert (|v| + 3) / 4 == (|v| - 4 + 3) / 4 + 1;
    }
  }

  lemma {:induction false} StripLength(s: Bytes, n: nat)
    ensures |Base64.Strip(s, n)| <= |s|
  {
    if n > 0 && s != [] && s[|s| - 1] == Base64.PAD { StripLength(s[..|s| - 1], n - 1); }
  }

  /** Decoding never yields more than three bytes per started group of four. */
  lemma DecodedLength(s: Bytes)
    ensures var d := Base64.Decode(Base64.Standard, s); d.Ok? ==> |d.data| <= (|s| + 3) / 4 * 3
  {
    hide Base64.Octets, Base64.Strip;
    var src := Base64.Strip(s, 2);
    StripLength(s, 2);
    var d := Base64.Decode(Base64.Standard, s);
    if d.Ok? {
      OctetsLength(Base64.Read(Base64.Standard, src));
      assert (|src| + 3) / 4 <= (|s| + 3) / 4;
    }
  }

  lemma BuiltWithinEstimate(op: Op, r: Record)
    requires Built(op, r)
    ensures 1 + |Payload(r)| <= OpEstimate(op)
  {
    hide Payload, Base64.Decode;
    PayloadLength(r);
    if op.PutOp? { DecodedLength(op.b64.value); }
  }

  lemma {:induction false} OpsWithinEstimate(ops: seq<Op>, rs: seq<Record>)
    requires Admits(ops, rs)
    ensures |OpsBytes(rs)| <= Estimate(ops)
    decreases |ops|
  {
    hide Built, OpEstimate, Payload;
    if ops != [] {
      var n := |ops| - 1;
      if Admits(ops[..n], rs) {
        OpsWithinEstimate(ops[..n], rs);
      } else {
        var m := |rs| - 1;
        OpsWithinEstimate(ops[..n], rs[..m]);
        BuiltWithinEstimate(ops[n], rs[m]);
        OpsBytesSnoc(rs[..m], rs[m]);
        assert rs == rs[..m] + [rs[m]];
      }
    }
  }

  /** The estimate bounds the record actually written, envelope aside. */
  lemma EstimateBounds(c: Crypto, prev: Id32, ops: seq<Op>, rs: seq<Record>)
    requires Admits(ops, rs)
    ensures |Encode(c, BatchOf(rs), prev)| <= Estimate(ops) + ENVELOPE
  {
    hide OpsBytes, Estimate, Admits;
    OpsWithinEstimate(ops, rs);
  }

  /** A record travels exactly when it is no longer than the batch limit. */
  lemma ServableIffSix(b: Bytes)
    ensures Sync.Servable(b) <==> |b| <= MAX_BATCH_RECORD_BYTES
  {
  }

  /** A deletion of a key of `n` bytes. */
  function BigDelete(n: nat): Record {
    Record(TAG_DEL, Zeros(n), 0, ZERO_ID, ZERO_ID, [], 0, [])
  }

  lemma BigDeleteLength(c: Crypto, prev: Id32, n: nat)
    ensures Admits([DelOp(Some(Zeros(n)))], [BigDelete(n)])
    ensures Estimate([DelOp(Some(Zeros(n)))]) == 85 + n
    ensures |Encode(c, BatchOf([BigDelete(n)]), prev)| == 85 + n + ENVELOPE
  {
    var op, r := DelOp(Some(Zeros(n))), BigDelete(n);
    assert [op][..0] == [] && [r][..0] == [] && [r][1..] == [];
    assert Built(op, r) && Admits([], []);
    PayloadLength(r);
    assert OpsBytes([r]) == [r.tag] + (Payload(r) + OpsBytes([]));
  }

  /** A preflight limit keeps every admitted batch replicable. */
  ghost predicate LimitSound(c: Crypto, prev: Id32, limit: nat) {
    forall ops, rs | Admits(ops, rs) && Estimate(ops) <= limit :: Sync.Servable(Encode(c, BatchOf(rs), prev))
  }

  /** The estimate leaves the record's envelope out, so a preflight limit is
      sound exactly up to the record limit less the envelope. */
  lemma LimitSoundIff(c: Crypto, prev: Id32, limit: nat)
    requires limit >= 85
    ensures LimitSound(c, prev, limit) <==> limit <= MAX_BATCH_RECORD_BYTES - ENVELOPE
  {
    hide Encode, Estimate, Admits, Sync.Servable, BatchOf, BigDelete;
    if limit <= MAX_BATCH_RECORD_BYTES - ENVELOPE {
      forall ops, rs | Admits(ops, rs) && Estimate(ops) <= limit
        ensures Sync.Servable(Encode(c, BatchOf(rs), prev))
      {
        EstimateBounds(c, prev, ops, rs);
        ServableIffSix(Encode(c, BatchOf(rs), prev));
      }
    } else {
      BigDeleteLength(c, prev, limit - 85);
      ServableIffSix(Encode(c, BatchOf([BigDelete(limit - 85)]), prev));
    }
  }

  const MAX_BATCH: nat := 1000

  /** Bytes of the request that are key or base64 text. */
  function TextBytes(ops: seq<Op>): nat {
    if ops == [] then 0
    else
      var op := ops[|ops| - 1];
      TextBytes(ops[..|ops| - 1]) +
      (match op
       case PutOp(key, b64) => KeyLen(key) + KeyLen(b64)
       case DelOp(key) => KeyLen(key)
       case OtherOp => 0)
  }

  lemma {:induction false} EstimateOfText(ops: seq<Op>)
    ensures Estimate(ops) <= TextBytes(ops) + 96 * |ops|
  {
    if ops != [] { EstimateOfText(ops[..|ops| - 1]); }
  }

  /** Below a request size the preflight never matters: every admitted batch whose
      texts come to at most 6 MiB less the envelope and 96 bytes per op of a full
      batch is replicable. A body limit of 2 MiB in front of the route is enough. */
  lemma ShortRequestsReplicate(c: Crypto, prev: Id32, ops: seq<Op>, rs: seq<Record>)
    requires Admits(ops, rs) && |ops| <= MAX_BATCH
    requires TextBytes(ops) <= MAX_BATCH_RECORD_BYTES - ENVELOPE - 96 * MAX_BATCH
    ensures Estimate(ops) <= MAX_BATCH_RECORD_BYTES && Sync.Servable(Encode(c, BatchOf(rs), prev))
    ensures 2 * 1024 * 1024 <= MAX_BATCH_RECORD_BYTES - ENVELOPE - 96 * MAX_BATCH
  {
    hide Encode, Estimate, Admits, Sync.Servable, BatchOf, TextBytes;
    EstimateOfText(ops);
    EstimateBounds(c, prev, ops, rs);
    ServableIffSix(Encode(c, BatchOf(rs), prev));
  }

  /** The limit in force, taken alone, is 45 bytes too high. */
  lemma PreflightEdge(c: Crypto, prev: Id32)
    ensures !LimitSound(c, prev, MAX_BATCH_RECORD_BYTES)
    ensures LimitSound(c, prev, MAX_BATCH_RECORD_BYTES - ENVELOPE)
  {
    hide LimitSound;
    LimitSoundIff(c, prev, MAX_BATCH_RECORD_BYTES);
    LimitSoundIff(c, prev, MAX_BATCH_RECORD_BYTES - ENVELOPE);
  }
}
