/** Serving and checking one pull (`net/mod.rs` `serve_pull` and the decoding
    half of `on_records`; `net/merge.rs` `verify_batch`). */
module Sync {
  import opened ByteStrings
  import opened Records
  import opened SegmentedLog
  import opened Reopen
  import Base64
  import opened DurableLog

  const MAX_RECORDS: nat := 1000
  const MAX_FRAME_BYTES: nat := 960 * 1024
  const MAX_SINGLE_RECORD_B64: nat := 8 * 1024 * 1024

  type LogItem = (nat, Bytes)

  datatype Rec = Rec(seqNo: nat, payload: Bytes)

  // ---------- how much of the log one reply carries ----------

  /** A record small enough to travel alone. */
  predicate Servable(b: Bytes) {
    (|b| + 2) / 3 * 4 <= MAX_SINGLE_RECORD_B64
  }

  function Total(recs: seq<LogItem>, n: nat): nat
    requires n <= |recs|
  {
    if n == 0 then 0 else Total(recs, n - 1) + |recs[n - 1].1|
  }

  datatype Cut = Refuse | Take(n: nat)

  /** Continue a reply that holds the first `i` records. */
  function CutFrom(recs: seq<LogItem>, i: nat): Cut
    requires i <= |recs|
    decreases |recs| - i
  {
    if i == |recs| then Take(i)
    else if !Servable(recs[i].1) then Refuse
    else if |recs[i].1| > MAX_FRAME_BYTES then Take(if i == 0 then 1 else i)
    else if i >= MAX_RECORDS || Total(recs, i) + |recs[i].1| > MAX_FRAME_BYTES then Take(i)
    else CutFrom(recs, i + 1)
  }

  function Served(recs: seq<LogItem>): seq<LogItem> {
    match CutFrom(recs, 0)
    case Refuse => []
    case Take(n) => if n <= |recs| then recs[..n] else []
  }

  /** An oversized record directly behind a prefix that fits the frame budget. */
  predicate BlockedAt(recs: seq<LogItem>, j: nat) {
    j < |recs| && j <= MAX_RECORDS && !Servable(recs[j].1) && Total(recs, j) <= MAX_FRAME_BYTES
  }

  lemma {:induction false} TotalMonotone(recs: seq<LogItem>, i: nat, j: nat)
    requires i <= j <= |recs|
    ensures Total(recs, i) <= Total(recs, j)
    ensures i < j ==> Total(recs, i) + |recs[i].1| <= Total(recs, j)
  {
    if i < j { TotalMonotone(recs, i, j - 1); }
  }

  /** A reply takes the longest prefix within the budget, or one larger record. */
  predicate Greedy(recs: seq<LogItem>, n: nat) {
    && n <= |recs| && n <= MAX_RECORDS
    && (forall k | 0 <= k < n :: Servable(recs[k].1))
    && (Total(recs, n) <= MAX_FRAME_BYTES || n == 1)
    && (n == |recs| || n == MAX_RECORDS || Total(recs, n + 1) > MAX_FRAME_BYTES)
  }

  lemma {:induction false} CutMeaning(recs: seq<LogItem>, i: nat)
    requires i <= |recs| && i <= MAX_RECORDS && Total(recs, i) <= MAX_FRAME_BYTES
    requires forall k | 0 <= k < i :: Servable(recs[k].1)
    ensures CutFrom(recs, i).Refuse? <==> exists j :: i <= j && BlockedAt(recs, j)
    ensures CutFrom(recs, i).Take? ==>
      Greedy(recs, CutFrom(recs, i).n) && CutFrom(recs, i).n >= i && (CutFrom(recs, i).n == 0 ==> recs == [])
    decreases |recs| - i
  {
    if i == |recs| {
    } else if !Servable(recs[i].1) {
      assert BlockedAt(recs, i);
    } else {
      assert Total(recs, i + 1) == Total(recs, i) + |recs[i].1|;
      if |recs[i].1| > MAX_FRAME_BYTES || i >= MAX_RECORDS || Total(recs, i) + |recs[i].1| > MAX_FRAME_BYTES {
        forall j | i <= j && BlockedAt(recs, j) ensures false {
          if i < j { TotalMonotone(recs, i, j); }
        }
        if i == 0 && |recs| > 1 { TotalMonotone(recs, 1, 2); }
      } else {
        CutMeaning(recs, i + 1);
        if exists j :: i <= j && BlockedAt(recs, j) {
          var j :| i <= j && BlockedAt(recs, j);
          assert i + 1 <= j;
        }
      }
    }
  }

  /** What a reply to a pull is: nothing exactly when there is nothing to read
      or an oversized record stands within budget; otherwise a non-empty greedy
      prefix. */
  lemma ServedMeaning(recs: seq<LogItem>)
    ensures Served(recs) == [] <==> recs == [] || exists j :: BlockedAt(recs, j)
    ensures Served(recs) != [] ==> Greedy(recs, |Served(recs)|) && Served(recs) == recs[..|Served(recs)|]
  {
    hide Greedy, Servable;
    CutMeaning(recs, 0);
    if exists j :: BlockedAt(recs, j) {
      var j :| BlockedAt(recs, j);
      assert 0 <= j;
    }
  }

  // ---------- the wire ----------

  function ToWire(recs: seq<LogItem>): (ws: seq<Rec>)
    ensures |ws| == |recs|
  {
    if recs == [] then []
    else ToWire(recs[..|recs| - 1]) + [Rec(recs[|recs| - 1].0, Base64.Encode(Base64.Standard, recs[|recs| - 1].1))]
  }

  function FromWire(ws: seq<Rec>): Option<seq<LogItem>> {
    if ws == [] then Some([])
    else
      var front := FromWire(ws[..|ws| - 1]);
      var last := Base64.Decode(Base64.Standard, ws[|ws| - 1].payload);
      if front.None? || !last.Ok? then None else Some(front.value + [(ws[|ws| - 1].seqNo, last.data)])
  }

  lemma {:induction false} WireRoundTrip(recs: seq<LogItem>)
    ensures FromWire(ToWire(recs)) == Some(recs)
  {
    hide Base64.Encode, Base64.Decode;
    if recs != [] {
      var n := |recs| - 1;
      WireRoundTrip(recs[..n]);
      Base64.RoundTrip(Base64.Standard, recs[n].1, 0);
      assert ToWire(recs)[..n] == ToWire(recs[..n]);
      assert recs == recs[..n] + [recs[n]];
    }
  }

  function WireBytes(ws: seq<Rec>): nat {
    if ws == [] then 0 else WireBytes(ws[..|ws| - 1]) + |ws[|ws| - 1].payload|
  }

  lemma {:induction false} WireBytesBound(recs: seq<LogItem>)
    ensures 3 * WireBytes(ToWire(recs)) <= 4 * Total(recs, |recs|) + 8 * |recs|
  {
    hide Base64.Encode;
    if recs != [] {
      var n := |recs| - 1;
      WireBytesBound(recs[..n]);
      Base64.EncodedLength(Base64.Standard, recs[n].1);
      assert ToWire(recs)[..n] == ToWire(recs[..n]);
      TotalPrefix(recs, n, n);
    }
  }

  lemma {:induction false} TotalPrefix(recs: seq<LogItem>, n: nat, k: nat)
    requires k <= n <= |recs|
    ensures Total(recs[..n], k) == Total(recs, k)
  {
    if k > 0 { TotalPrefix(recs, n, k - 1); }
  }

  /** Every reply fits the transport's record cap. */
  lemma ReplyFits(recs: seq<LogItem>)
    ensures WireBytes(ToWire(Served(recs))) <= MAX_SINGLE_RECORD_B64
  {
    hide Base64.Encode, CutFrom, Served;
    ServedMeaning(recs);
    var out := Served(recs);
    if out != [] {
      TotalPrefix(recs, |out|, |out|);
      WireBytesBound(out);
      if Total(recs, |out|) > MAX_FRAME_BYTES {
        Base64.EncodedLength(Base64.Standard, out[0].1);
        assert ToWire(out)[..0] == [] && ToWire(out)[0].payload == Base64.Encode(Base64.Standard, out[0].1);
      }
    }
  }

  method ServePull(recs: seq<LogItem>) returns (out: seq<Rec>)
    ensures out == ToWire(Served(recs))
  {
    hide Base64.Encode;
    out := [];
    var bytes := 0;
    var i := 0;
    while i < |recs|
      invariant i <= |recs|
      invariant out == ToWire(recs[..i]) && bytes == Total(recs, i)
      invariant CutFrom(recs, i) == CutFrom(recs, 0)
    {
      var (seqNo, payload) := recs[i];
      var b64Len := (|payload| + 2) / 3 * 4;
      if b64Len > MAX_SINGLE_RECORD_B64 { return []; }
      assert recs[..i + 1][..i] == recs[..i];
      if |payload| > MAX_FRAME_BYTES {
        if out == [] {
          var text := Base64.EncodeImpl(payload, Base64.Standard);
          out := out + [Rec(seqNo, text)];
        }
        return;
      }
      if |out| >= MAX_RECORDS || bytes + |payload| > MAX_FRAME_BYTES { return; }
      bytes := bytes + |payload|;
      var text := Base64.EncodeImpl(payload, Base64.Standard);
      out := out + [Rec(seqNo, text)];
      i := i + 1;
    }
    assert recs[..i] == recs;
  }

  method DecodeBatch(ws: seq<Rec>) returns (batch: Option<seq<LogItem>>)
    ensures batch == FromWire(ws)
  {
    hide Base64.Decode;
    var out: seq<LogItem> := [];
    for i := 0 to |ws|
      invariant FromWire(ws[..i]) == Some(out)
    {
      var d := Base64.DecodeImpl(ws[i].payload, Base64.Standard);
      assert ws[..i + 1][..i] == ws[..i];
      if !d.Ok? {
        WireFails(ws, i + 1);
        return None;
      }
      out := out + [(ws[i].seqNo, d.data)];
    }
    assert ws[..|ws|] == ws;
    return Some(out);
  }

  lemma {:induction false} WireFails(ws: seq<Rec>, i: nat)
    requires i <= |ws| && FromWire(ws[..i]).None?
    ensures FromWire(ws).None?
    decreases |ws|
  {
    hide Base64.Decode;
    if i == |ws| {
      assert ws[..i] == ws;
    } else {
      assert ws[..|ws| - 1][..i] == ws[..i];
      WireFails(ws[..|ws| - 1], i);
    }
  }

  // ---------- verification ----------

  function Payloads(batch: seq<LogItem>): (bs: seq<Bytes>)
    ensures |bs| == |batch| && forall i | 0 <= i < |bs| :: bs[i] == batch[i].1
  {
    if batch == [] then [] else [batch[0].1] + Payloads(batch[1..])
  }

  /** Parse every record, each linked to the one before; the first link is free
      when `prev` is absent. */
  function Verified(c: Crypto, prev: Option<Id32>, bs: seq<Bytes>): Outcome<seq<Record>>
    decreases |bs|
  {
    if bs == [] then Ok([])
    else
      var p :- Parse(c, bs[0], prev);
      var rest :- Verified(c, Some(RecordHash(c, p.1, bs[0])), bs[1..]);
      Ok([p.0] + rest)
  }

  method VerifyBatch(c: Crypto, batch: seq<LogItem>) returns (res: Outcome<seq<Record>>)
    ensures res == Verified(c, None, Payloads(batch))
  {
    hide Parse, Verified, Prepend, Payloads;
    var prev: Option<Id32> := None;
    var out: seq<Record> := [];
    ghost var bs := Payloads(batch);
    assert bs[0..] == bs;
    PrependNone(Verified(c, None, bs));
    for i := 0 to |batch|
      invariant Verified(c, None, bs) == Prepend(out, Verified(c, prev, bs[i..]))
    {
      var p := ParseChain(c, batch[i].1, prev);
      VerifiedStep(c, prev, bs[i..], out);
      if !p.Ok? { return if p.Corrupt? then Corrupt else Trap; }
      var (r, link) := p.value;
      assert bs[i..][1..] == bs[i + 1..];
      prev := Some(RecordHash(c, link, batch[i].1));
      out := out + [r];
    }
    assert bs[|batch|..] == [];
    VerifiedEmpty(c, prev, out);
    return Ok(out);
  }

  lemma PrependNone(v: Outcome<seq<Record>>)
    ensures Prepend([], v) == v
  {
    if v.Ok? { assert [] + v.value == v.value; }
  }

  lemma VerifiedEmpty(c: Crypto, prev: Option<Id32>, out: seq<Record>)
    ensures Prepend(out, Verified(c, prev, [])) == Ok(out)
  {
    assert out + [] == out;
  }

  lemma VerifiedStep(c: Crypto, prev: Option<Id32>, bs: seq<Bytes>, out: seq<Record>)
    requires bs != []
    ensures var p := Parse(c, bs[0], prev);
      Prepend(out, Verified(c, prev, bs)) ==
        match p
        case Ok((r, link)) => Prepend(out + [r], Verified(c, Some(RecordHash(c, link, bs[0])), bs[1..]))
        case Corrupt => Corrupt
        case Trap => Trap
  {
    hide Parse;
    var p := Parse(c, bs[0], prev);
    if p.Ok? {
      var rest := Verified(c, Some(RecordHash(c, p.value.1, bs[0])), bs[1..]);
      if rest.Ok? { Assoc(out, [p.value.0], rest.value); }
    }
  }

  function Prepend(front: seq<Record>, rest: Outcome<seq<Record>>): Outcome<seq<Record>> {
    if rest.Ok? then Ok(front + rest.value) else rest
  }

  /** A batch passes exactly when it is a chain from its first record's own
      predecessor hash. */
  lemma {:induction false} VerifiedIffChained(c: Crypto, h: Id32, bs: seq<Bytes>)
    ensures Verified(c, Some(h), bs).Ok? <==> ChainOk(c, h, bs)
    decreases |bs|
  {
    hide Parse, RecordHash;
    if bs != [] && Parse(c, bs[0], Some(h)).Ok? {
      ParsedLink(c, bs[0], h);
      VerifiedIffChained(c, RecordHash(c, h, bs[0]), bs[1..]);
    }
  }

  lemma VerifyIffChain(c: Crypto, bs: seq<Bytes>)
    requires bs != []
    ensures Verified(c, None, bs).Ok? <==> |bs[0]| >= HEADER_LEN && ChainOk(c, bs[0][9..41], bs)
  {
    hide RecordHash, ParseBody;
    if |bs[0]| >= HEADER_LEN {
      var h := bs[0][9..41];
      assert Parse(c, bs[0], None) == Parse(c, bs[0], Some(h));
      VerifiedIffChained(c, RecordHash(c, h, bs[0]), bs[1..]);
    }
  }

  // ---------- a pull, end to end ----------

  lemma {:induction false} VerifiedEncoded(c: Crypto, h: Id32, rs: seq<Record>)
    requires AllStorable(rs)
    ensures Verified(c, Some(h), EncodeAll(c, h, rs)) == Ok(rs)
    decreases |rs|
  {
    hide Parse, Encode, RecordHash, Storable;
    if rs != [] {
      var b := Encode(c, rs[0], h);
      EncodedLink(c, rs[0], h);
      VerifiedEncoded(c, RecordHash(c, h, b), rs[1..]);
      assert EncodeAll(c, h, rs)[1..] == EncodeAll(c, RecordHash(c, h, b), rs[1..]);
      assert [rs[0]] + rs[1..] == rs;
    }
  }

  /** The first link of a batch is not compared with anything. */
  lemma FirstLinkFree(c: Crypto, h: Id32, bs: seq<Bytes>)
    requires bs != [] && Verified(c, Some(h), bs).Ok?
    ensures Verified(c, None, bs) == Verified(c, Some(h), bs)
  {
    hide RecordHash, ParseBody;
    ParsedLink(c, bs[0], h);
    assert Parse(c, bs[0], None) == Parse(c, bs[0], Some(h));
  }

  lemma {:induction false} NumberedItems(log: seq<Bytes>, lo: nat, hi: nat)
    requires lo <= hi <= |log|
    ensures |Numbered(log, lo, hi)| == hi - lo
    ensures forall i | 0 <= i < hi - lo :: Numbered(log, lo, hi)[i] == (lo + i + 1, log[lo + i])
  {
    if lo < hi {
      NumberedItems(log, lo, hi - 1);
      var (init, all) := (Numbered(log, lo, hi - 1), Numbered(log, lo, hi));
      assert all == init + [(hi, log[hi - 1])];
      forall i | 0 <= i < hi - lo ensures all[i] == (lo + i + 1, log[lo + i]) {
        if i < hi - 1 - lo { assert all[i] == init[i]; }
      }
    }
  }

  /** A reply to a pull from `from`. */
  function Reply(log: seq<Bytes>, from: nat): seq<LogItem> {
    Served(Window(log, from, MAX_RECORDS))
  }

  /** The `n` elements that start at sequence number `from`. */
  function RunAt<T>(s: seq<T>, from: nat, n: nat): seq<T> {
    if 1 <= from && from - 1 + n <= |s| then s[from - 1..from - 1 + n] else []
  }

  lemma WindowItems(log: seq<Bytes>, from: nat, max: nat)
    ensures var items := Window(log, from, max);
      && (items != [] ==> 1 <= from && from - 1 + |items| <= |log|)
      && forall i | 0 <= i < |items| :: items[i] == (from + i, log[from - 1 + i])
  {
    if 1 <= from <= |log| {
      var hi := if max == 0 || from - 1 + max > |log| then |log| else from - 1 + max;
      NumberedItems(log, from - 1, hi);
    }
  }

  /** A reply is the run of log records that starts at `from`. */
  lemma ReplyIsRun(log: seq<Bytes>, from: nat)
    ensures var out := Reply(log, from);
      && (out != [] ==> 1 <= from && from - 1 + |out| <= |log|)
      && Payloads(out) == RunAt(log, from, |out|)
      && forall i | 0 <= i < |out| :: out[i].0 == from + i
  {
    hide CutFrom, Served, Greedy, Window;
    var items := Window(log, from, MAX_RECORDS);
    WindowItems(log, from, MAX_RECORDS);
    ServedMeaning(items);
    var out := Reply(log, from);
    if out == [] {
      assert Payloads(out) == [] && RunAt(log, from, 0) == [];
    } else {
      GreedyPrefix(items, |out|);
      assert forall i | 0 <= i < |out| :: out[i] == items[i];
    }
  }

  lemma GreedyPrefix(recs: seq<LogItem>, n: nat)
    ensures Greedy(recs, n) ==> n <= |recs|
  {
  }

  lemma NothingVerified(c: Crypto)
    ensures Verified(c, None, Payloads([])) == Ok([])
  {
  }

  /** Pulling from any position of a log of storable records delivers, through
      base64 and the batch verifier, exactly the records at that position. */
  lemma PullDelivers(c: Crypto, rs: seq<Record>, from: nat)
    requires AllStorable(rs)
    ensures var out := Reply(EncodeAll(c, ZERO_ID, rs), from);
      && FromWire(ToWire(out)) == Some(out)
      && Verified(c, None, Payloads(out)) == Ok(RunAt(rs, from, |out|)) && |RunAt(rs, from, |out|)| == |out|
  {
    hide Reply, EncodeAll, Encode, Parse, RecordHash, Storable, Framed, FromWire, ToWire, HeadAfter, Numbered, Verified, Payloads;
    var log := EncodeAll(c, ZERO_ID, rs);
    var out := Reply(log, from);
    WireRoundTrip(out);
    ReplyIsRun(log, from);
    if out == [] {
      NothingVerified(c);
      assert RunAt(rs, from, 0) == [];
    } else {
      var lo, n := from - 1, |out|;
      var h := HeadAfter(c, ZERO_ID, EncodeAll(c, ZERO_ID, rs[..lo]));
      EncodeAllSuffix(c, ZERO_ID, rs, lo);
      EncodeAllPrefix(c, h, rs[lo..], n);
      assert log[lo..lo + n] == log[lo..][..n] && rs[lo..lo + n] == rs[lo..][..n];
      VerifiedEncoded(c, h, rs[lo..][..n]);
      FirstLinkFree(c, h, log[lo..lo + n]);
    }
  }

  // ---------- catching up ----------

  /** The next position after `k` pulls, each from where the last one ended. */
  function Pulled(log: seq<Bytes>, from: nat, k: nat): nat
    decreases k
  {
    if k == 0 then from else Pulled(log, from + |Reply(log, from)|, k - 1)
  }

  predicate ServableFrom(log: seq<Bytes>, from: nat) {
    forall i | 0 <= i < |log| && from - 1 <= i :: Servable(log[i])
  }

  lemma ReplyServable(log: seq<Bytes>, from: nat)
    requires 1 <= from <= |log| + 1
    ensures from + |Reply(log, from)| <= |log| + 1
    ensures forall i | from - 1 <= i < from - 1 + |Reply(log, from)| :: Servable(log[i])
    ensures ServableFrom(log, from) && from <= |log| ==> Reply(log, from) != []
  {
    hide CutFrom, Served, Servable, Window, Total;
    var items := Window(log, from, MAX_RECORDS);
    WindowItems(log, from, MAX_RECORDS);
    ServedMeaning(items);
    var n := |Reply(log, from)|;
    forall i | from - 1 <= i < from - 1 + n
      ensures i < |log| && Servable(log[i])
    {
      assert items[i - (from - 1)] == (i + 1, log[i]);
    }
    if ServableFrom(log, from) && from <= |log| {
      assert items != [] by { WindowNonEmpty(log, from); }
      forall j: nat ensures !BlockedAt(items, j) {
        if j < |items| { assert items[j] == (from + j, log[from - 1 + j]); }
      }
    }
  }

  lemma WindowNonEmpty(log: seq<Bytes>, from: nat)
    requires 1 <= from <= |log|
    ensures Window(log, from, MAX_RECORDS) != []
  {
    var hi := if from - 1 + MAX_RECORDS > |log| then |log| else from - 1 + MAX_RECORDS;
    NumberedItems(log, from - 1, hi);
  }

  lemma {:induction false} CatchesUp(log: seq<Bytes>, from: nat, k: nat)
    requires 1 <= from <= |log| + 1 && ServableFrom(log, from) && from + k > |log|
    ensures Pulled(log, from, k) == |log| + 1
    decreases k
  {
    hide Reply, Servable;
    ReplyServable(log, from);
    if k > 0 {
      var next := from + |Reply(log, from)|;
      if from == |log| + 1 { assert next == from; }
      CatchesUp(log, next, k - 1);
    }
  }

  lemma {:induction false} NeverPast(log: seq<Bytes>, from: nat, i: nat, k: nat)
    requires 1 <= from <= i + 1 <= |log| && !Servable(log[i])
    ensures Pulled(log, from, k) <= i + 1
    decreases k
  {
    hide Reply, Servable;
    if k > 0 {
      ReplyServable(log, from);
      NeverPast(log, from + |Reply(log, from)|, i, k - 1);
    }
  }

  /** Repeated pulls reach the end of the serving log exactly when every record
      from the starting position on can travel, and then one pull per missing
      record is enough. */
  lemma CatchUpIffServable(log: seq<Bytes>, from: nat)
    requires 1 <= from <= |log| + 1
    ensures (exists k :: Pulled(log, from, k) == |log| + 1) <==> ServableFrom(log, from)
    ensures ServableFrom(log, from) ==> Pulled(log, from, |log| + 1 - from) == |log| + 1
  {
    hide Reply, Servable, Pulled;
    if ServableFrom(log, from) {
      CatchesUp(log, from, |log| + 1 - from);
    } else {
      var i :| 0 <= i < |log| && from - 1 <= i && !Servable(log[i]);
      forall k ensures Pulled(log, from, k) != |log| + 1 {
        NeverPast(log, from, i, k);
      }
    }
  }
}
