/** Crash recovery of the segmented log (`Log::recover_durable`): replay every
    segment, verify checksum and chain, and cut a torn tail off the last one. */
module Recovery {
  import opened ByteStrings
  import opened Records
  import opened SegmentedLog
  import opened DurableLog

  /** Scan of one segment: the verified records, the chain head after them,
      and whether a torn tail follows; or the whole recovery fails. */
  datatype SegScan = Scanned(recs: seq<Bytes>, head: Id32, torn: bool) | Broken(trap: bool)

  /** Scan of all segments; `torn` can only concern the last one. */
  datatype LogScan = Recovered(groups: seq<seq<Bytes>>, torn: bool) | Failed(trap: bool)

  function Declared(buf: Bytes): nat
    requires |buf| >= HEADER_LEN
  {
    HEADER_LEN + ReadU32(buf[1..5])
  }

  /** The tail policy: what a damaged record at the end of the data means. */
  function Damage(head: Id32, isLast: bool): SegScan {
    if isLast then Scanned([], head, true) else Broken(false)
  }

  /** What the head of the remaining bytes is: a verified record of `len`
      bytes, or the end of this scan. */
  datatype Step = Next(len: nat, prev: Id32) | Halt(scan: SegScan)

  function StepOf(c: Crypto, buf: Bytes, head: Id32, isLast: bool): (s: Step)
    ensures s.Next? ==> 0 < s.len <= |buf|
  {
    if |buf| < HEADER_LEN then Halt(Damage(head, isLast))
    else if !ValidTag(buf[0]) then Halt(Broken(false))
    else if Declared(buf) > |buf| then Halt(Damage(head, isLast))
    else
      match Parse(c, buf[..Declared(buf)], Some(head))
      case Ok((_, prev)) => Next(Declared(buf), prev)
      case Corrupt => Halt(if Declared(buf) >= |buf| then Damage(head, isLast) else Broken(false))
      case Trap => Halt(Broken(true))
  }

  function ScanSegment(c: Crypto, buf: Bytes, head: Id32, isLast: bool): SegScan
    decreases |buf|
  {
    if buf == [] then Scanned([], head, false)
    else
      match StepOf(c, buf, head, isLast)
      case Halt(scan) => scan
      case Next(n, prev) => Cons(buf[..n], ScanSegment(c, buf[n..], RecordHash(c, prev, buf[..n]), isLast))
  }

  function Cons(b: Bytes, s: SegScan): SegScan {
    if s.Broken? then s else Scanned([b] + s.recs, s.head, s.torn)
  }

  function ScanFiles(c: Crypto, files: seq<Bytes>, head: Id32): LogScan
    decreases |files|
  {
    if files == [] then Recovered([], false)
    else
      var s := ScanSegment(c, files[0], head, |files| == 1);
      if s.Broken? then Failed(s.trap)
      else if |files| == 1 then Recovered([s.recs], s.torn)
      else
        var rest := ScanFiles(c, files[1..], s.head);
        if rest.Failed? then rest else Recovered([s.recs] + rest.groups, rest.torn)
  }

  // ---------- soundness: what recovery keeps, on any bytes whatever ----------

  /** One step of the scan, read backwards from its result. */
  lemma ScanStep(c: Crypto, buf: Bytes, head: Id32, isLast: bool)
    requires ScanSegment(c, buf, head, isLast).Scanned?
    ensures var s := ScanSegment(c, buf, head, isLast);
      if s.recs == [] then s.head == head && (s.torn <==> buf != []) && (s.torn ==> isLast)
      else
        && |buf| >= HEADER_LEN && Declared(buf) <= |buf|
        && var n := Declared(buf);
           && Parse(c, buf[..n], Some(head)).Ok? && Framed(buf[..n]) && buf[..n][9..41] == head
           && s == Cons(buf[..n], ScanSegment(c, buf[n..], RecordHash(c, head, buf[..n]), isLast))
  {
    hide Parse;
    var s := ScanSegment(c, buf, head, isLast);
    if s.recs != [] {
      ParsedLink(c, buf[..Declared(buf)], head);
    }
  }

  lemma {:induction false} ScanSegmentSound(c: Crypto, buf: Bytes, head: Id32, isLast: bool)
    requires ScanSegment(c, buf, head, isLast).Scanned?
    ensures var s := ScanSegment(c, buf, head, isLast);
      && ChainOk(c, head, s.recs) && AllFramed(s.recs)
      && s.head == HeadAfter(c, head, s.recs)
      && Flat(s.recs) <= buf
      && (s.torn <==> Flat(s.recs) != buf)
      && (s.torn ==> isLast)
    decreases |buf|
  {
    hide Parse, ScanSegment, Framed, RecordHash, HeadAfter;
    var s := ScanSegment(c, buf, head, isLast);
    ScanStep(c, buf, head, isLast);
    HeadNone(c, head);
    if s.recs != [] {
      var n := Declared(buf);
      var h := RecordHash(c, head, buf[..n]);
      var rest := ScanSegment(c, buf[n..], h, isLast);
      ScanSegmentSound(c, buf[n..], h, isLast);
      assert s.recs[1..] == rest.recs;
      HeadSingle(c, head, buf[..n]);
      HeadConcat(c, head, [buf[..n]], rest.recs);
      PrefixAfter(buf[..n], Flat(rest.recs), buf[n..]);
      assert buf == buf[..n] + buf[n..];
    }
  }

  lemma PrefixAfter(a: Bytes, x: Bytes, y: Bytes)
    requires x <= y
    ensures a + x <= a + y && (a + x == a + y <==> x == y)
  {
    if a + x == a + y { assert x == (a + x)[|a|..] && y == (a + y)[|a|..]; }
  }

  lemma ChainNone(c: Crypto, h: Id32)
    ensures ChainOk(c, h, [])
  {
  }

  lemma {:induction false} ScanFilesSound(c: Crypto, files: seq<Bytes>, head: Id32)
    requires ScanFiles(c, files, head).Recovered?
    ensures var s := ScanFiles(c, files, head);
      && |s.groups| == |files|
      && ChainOk(c, head, Join(s.groups))
      && (forall i | 0 <= i < |files| - 1 :: files[i] == Flat(s.groups[i]))
      && (files != [] ==> var n := |files| - 1;
           && Flat(s.groups[n]) <= files[n]
           && (s.torn <==> Flat(s.groups[n]) != files[n]))
    decreases |files|
  {
    hide Flat, ScanSegment, AllFramed, HeadAfter, ChainOk;
    if files == [] {
      ChainNone(c, head);
    } else {
      var s := ScanSegment(c, files[0], head, |files| == 1);
      ScanSegmentSound(c, files[0], head, |files| == 1);
      var g := ScanFiles(c, files, head).groups;
      if |files| == 1 {
        JoinLast(g);
        assert g[..0] == [] && Join(g) == s.recs;
      } else {
        var rest := ScanFiles(c, files[1..], s.head);
        ScanFilesSound(c, files[1..], s.head);
        assert g[1..] == rest.groups && Join(g) == s.recs + Join(rest.groups);
        ChainConcat(c, head, s.recs, Join(rest.groups));
        assert forall i | 1 <= i < |files| :: files[i] == files[1..][i - 1] && g[i] == rest.groups[i - 1];
      }
    }
  }

  // ---------- completeness: what recovery finds of what was appended ----------

  /** A proper prefix of some record that an append was writing. */
  ghost predicate Unfinished(tail: Bytes, b: Bytes) {
    Framed(b) && ValidTag(b[0]) && tail < b
  }

  lemma TornTail(c: Crypto, tail: Bytes, b: Bytes, head: Id32)
    requires tail != [] && Unfinished(tail, b)
    ensures ScanSegment(c, tail, head, true) == Scanned([], head, true)
  {
    hide Parse;
    assert tail[0] == b[0];
    if |tail| >= HEADER_LEN { assert tail[1..5] == b[1..5]; }
  }

  lemma WholeRecord(c: Crypto, rec: Bytes, rest: Bytes, head: Id32, isLast: bool)
    requires Parse(c, rec, Some(head)).Ok?
    ensures ScanSegment(c, rec + rest, head, isLast) == Cons(rec, ScanSegment(c, rest, RecordHash(c, head, rec), isLast))
  {
    hide Parse;
    ParsedLink(c, rec, head);
    var buf := rec + rest;
    assert buf[1..5] == rec[1..5];
    assert buf[..|rec|] == rec && buf[|rec|..] == rest;
  }

  /** A segment of chained records, cut inside the next one, scans to exactly
      the whole records. */
  lemma {:induction false} ScanSegmentComplete(
      c: Crypto, recs: seq<Bytes>, tail: Bytes, b: Bytes, head: Id32, isLast: bool)
    requires ChainOk(c, head, recs) && AllFramed(recs)
    requires tail != [] ==> isLast && Unfinished(tail, b)
    ensures ScanSegment(c, Flat(recs) + tail, head, isLast) == Scanned(recs, HeadAfter(c, head, recs), tail != [])
    decreases |recs|
  {
    if recs == [] {
      assert Flat(recs) + tail == tail;
      if tail != [] { TornTail(c, tail, b, head); }
    } else {
      hide Parse, ScanSegment, Framed, RecordHash, HeadAfter;
      var h := RecordHash(c, head, recs[0]);
      ParsedLink(c, recs[0], head);
      HeadSingle(c, head, recs[0]);
      HeadConcat(c, head, [recs[0]], recs[1..]);
      ScanSegmentComplete(c, recs[1..], tail, b, h, isLast);
      Assoc(recs[0], Flat(recs[1..]), tail);
      WholeRecord(c, recs[0], Flat(recs[1..]) + tail, head, isLast);
      assert recs == [recs[0]] + recs[1..];
    }
  }

  /** Segment files of `groups`, with `tail` after the last one. */
  function FilesOf(groups: seq<seq<Bytes>>, tail: Bytes): (fs: seq<Bytes>)
    ensures |fs| == |groups|
  {
    if groups == [] then []
    else if |groups| == 1 then [Flat(groups[0]) + tail]
    else [Flat(groups[0])] + FilesOf(groups[1..], tail)
  }

  lemma AllFramedConcat(a: seq<Bytes>, b: seq<Bytes>)
    ensures AllFramed(a + b) <==> AllFramed(a) && AllFramed(b)
    ensures AllFramed(a) && a != [] ==> |a[|a| - 1]| >= HEADER_LEN
  {
    hide Framed;
    if AllFramed(a + b) {
      assert forall i | 0 <= i < |a| :: a[i] == (a + b)[i];
      assert forall i | 0 <= i < |b| :: b[i] == (a + b)[|a| + i];
    }
    if AllFramed(a) && a != [] { FramedHeader(a[|a| - 1]); }
  }

  lemma {:induction false} ScanFilesComplete(c: Crypto, groups: seq<seq<Bytes>>, tail: Bytes, b: Bytes, head: Id32)
    requires groups != [] && ChainOk(c, head, Join(groups)) && AllFramed(Join(groups))
    requires tail != [] ==> Unfinished(tail, b)
    ensures ScanFiles(c, FilesOf(groups, tail), head) == Recovered(groups, tail != [])
    decreases |groups|
  {
    hide ScanSegment, Flat, AllFramed, Unfinished, ChainOk;
    var g := groups[0];
    AllFramedConcat(g, Join(groups[1..]));
    ChainConcat(c, head, g, Join(groups[1..]));
    if |groups| == 1 {
      ScanSegmentComplete(c, g, tail, b, head, true);
      assert groups == [g];
    } else {
      ScanSegmentComplete(c, g, [], [], head, false);
      assert Flat(g) + [] == Flat(g);
      ScanFilesComplete(c, groups[1..], tail, b, HeadAfter(c, head, g));
      assert FilesOf(groups, tail)[1..] == FilesOf(groups[1..], tail);
      assert groups == [g] + groups[1..];
    }
  }

  // ---------- the crash theorem ----------

  /** How many whole records fit in the first `n` bytes of a segment. */
  function Kept(g: seq<Bytes>, n: nat): (k: nat)
    ensures k <= |g|
  {
    if g == [] || |g[0]| > n then 0 else 1 + Kept(g[1..], n - |g[0]|)
  }

  lemma {:induction false} KeptCount(g: seq<Bytes>, n: nat)
    requires n <= |Flat(g)|
    ensures var k := Kept(g, n); |Flat(g[..k])| <= n && (k < |g| ==> n < |Flat(g[..k + 1])|)
    ensures Kept(g, n) == |g| ==> n == |Flat(g)|
  {
    var k := Kept(g, n);
    if k == 0 {
      if g != [] { FlatAt(g, 0); }
    } else {
      KeptCount(g[1..], n - |g[0]|);
      assert g[..k] == [g[0]] + g[1..][..k - 1];
      if k < |g| { assert g[..k + 1] == [g[0]] + g[1..][..k]; }
    }
  }

  /** The first `n` bytes are the kept records and an unfinished rest. */
  lemma KeptBytes(g: seq<Bytes>, n: nat)
    requires n <= |Flat(g)|
    ensures var k := Kept(g, n); var d := |Flat(g[..k])|;
      && d <= n
      && Flat(g)[..n] == Flat(g[..k]) + Flat(g)[d..n]
      && (d != n ==> k < |g| && Flat(g)[d..n] < g[k])
  {
    hide Flat, At, Kept;
    var k := Kept(g, n);
    var d := |Flat(g[..k])|;
    KeptCount(g, n);
    assert k == |g| ==> g[..k] == g;
    FlatConcat(g[..k], g[k..]);
    assert g == g[..k] + g[k..];
    assert Flat(g)[..d] == Flat(g[..k]);
    assert Flat(g)[..n] == Flat(g)[..d] + Flat(g)[d..n];
    if d != n { CutInside(g, k, n); }
  }

  lemma CutInside(g: seq<Bytes>, k: nat, n: nat)
    requires k < |g| && n <= |Flat(g)| && |Flat(g[..k])| <= n < |Flat(g[..k + 1])|
    ensures Flat(g)[|Flat(g[..k])|..n] < g[k]
  {
    hide Flat, At;
    var d := |Flat(g[..k])|;
    FlatAt(g, k);
    AtFits(Flat(g), d, g[k]);
    assert Flat(g)[d..n] == Flat(g)[d..d + |g[k]|][..n - d];
  }

  /** The log that holds all but the records lost from the last segment. */
  function Survivors(groups: seq<seq<Bytes>>, n: nat): (r: seq<seq<Bytes>>)
    requires groups != []
    ensures |r| == |groups|
  {
    var l := |groups| - 1;
    groups[..l] + [groups[l][..Kept(groups[l], n)]]
  }

  /** `n` is a byte position of the last segment. */
  predicate InLast(groups: seq<seq<Bytes>>, n: nat) {
    groups != [] && n <= |Flat(groups[|groups| - 1])|
  }

  /** The segment files, the last one cut at byte `n`. */
  function CutFiles(groups: seq<seq<Bytes>>, n: nat): seq<Bytes>
    requires InLast(groups, n)
  {
    var l := |groups| - 1;
    FilesOf(groups[..l], []) + [Flat(groups[l])[..n]]
  }

  /** Crash safety: cut the last segment of any chained log at any byte. Then
      recovery succeeds with exactly the maximal prefix of whole records; it
      reports a torn tail exactly when the cut fell inside a record; and a
      second recovery, of the truncated files, is clean and finds the same. */
  lemma CrashRecovery(c: Crypto, groups: seq<seq<Bytes>>, n: nat)
    requires InLast(groups, n) && ChainOk(c, ZERO_ID, Join(groups))
    ensures var l := |groups| - 1;
      var k := Kept(groups[l], n);
      var kept := Survivors(groups, n);
      && ScanFiles(c, CutFiles(groups, n), ZERO_ID) == Recovered(kept, |Flat(groups[l][..k])| != n)
      && |Flat(groups[l][..k])| <= n && (k < |groups[l]| ==> n < |Flat(groups[l][..k + 1])|)
      && Join(kept) <= Join(groups)
      && ScanFiles(c, FilesOf(kept, []), ZERO_ID) == Recovered(kept, false)
  {
    hide Flat, ScanFiles, Kept, ChainOk, AllFramed;
    var l := |groups| - 1;
    var g := groups[l];
    var k := Kept(g, n);
    var d := |Flat(g[..k])|;
    var kept := Survivors(groups, n);
    ChainFramed(c, ZERO_ID, Join(groups));
    KeptCount(g, n);
    KeptBytes(g, n);
    JoinLast(groups);
    JoinLast(kept);
    assert kept[..l] == groups[..l];
    assert Join(groups) == Join(kept) + g[k..] by {
      assert g == g[..k] + g[k..];
    }
    AllFramedConcat(Join(kept), g[k..]);
    ChainConcat(c, ZERO_ID, Join(kept), g[k..]);
    var tail := Flat(g)[d..n];
    FilesOfLast(kept, tail);
    if d != n {
      NextIsRecord(c, Join(kept), g, k);
      ScanFilesComplete(c, kept, tail, g[k], ZERO_ID);
    } else {
      ScanFilesComplete(c, kept, tail, [], ZERO_ID);
    }
    ScanFilesComplete(c, kept, [], [], ZERO_ID);
  }

  /** On any bytes at all, recovering the files a recovery leaves is clean and
      changes nothing. */
  lemma RecoverTwice(c: Crypto, files: seq<Bytes>)
    requires files != [] && ScanFiles(c, files, ZERO_ID).Recovered?
    ensures var groups := ScanFiles(c, files, ZERO_ID).groups;
      ScanFiles(c, FilesOf(groups, []), ZERO_ID) == Recovered(groups, false)
  {
    hide Flat, ScanFiles;
    ScanFilesSound(c, files, ZERO_ID);
    var groups := ScanFiles(c, files, ZERO_ID).groups;
    ChainFramed(c, ZERO_ID, Join(groups));
    ScanFilesComplete(c, groups, [], [], ZERO_ID);
  }

  lemma NextIsRecord(c: Crypto, before: seq<Bytes>, g: seq<Bytes>, k: nat)
    requires k < |g| && (before != [] ==> |before[|before| - 1]| >= HEADER_LEN)
    requires ChainOk(c, HeadAfter(c, ZERO_ID, before), g[k..])
    ensures Framed(g[k]) && ValidTag(g[k][0])
  {
    hide Parse;
    ParsedLink(c, g[k..][0], HeadAfter(c, ZERO_ID, before));
  }

  lemma {:induction false} FilesOfLast(groups: seq<seq<Bytes>>, tail: Bytes)
    requires groups != []
    ensures var l := |groups| - 1;
      FilesOf(groups, tail) == FilesOf(groups[..l], []) + [Flat(groups[l]) + tail]
  {
    hide Flat;
    var l := |groups| - 1;
    if l > 0 {
      FilesOfLast(groups[1..], tail);
      assert groups[..l][1..] == groups[1..][..l - 1];
      if l == 1 { assert Flat(groups[0]) + [] == Flat(groups[0]); }
    }
  }

  // ---------- the recovery loop ----------

  function OffsetsFrom(base: nat, recs: seq<Bytes>): (o: seq<nat>)
    ensures |o| == |recs|
  {
    if recs == [] then [] else var init := recs[..|recs| - 1]; OffsetsFrom(base, init) + [base + |Flat(init)|]
  }

  lemma {:induction false} OffsetsConcat(a: seq<Bytes>, b: seq<Bytes>)
    ensures Offsets(a + b) == Offsets(a) + OffsetsFrom(|Flat(a)|, b)
  {
    hide Flat;
    if b == [] {
      assert a + b == a;
    } else {
      var n := |b| - 1;
      OffsetsConcat(a, b[..n]);
      FlatConcat(a, b[..n]);
      assert (a + b)[..|a| + n] == a + b[..n];
    }
  }

  function ConsAll(done: seq<Bytes>, s: SegScan): SegScan {
    if s.Broken? then s else Scanned(done + s.recs, s.head, s.torn)
  }

  lemma ConsAllStep(done: seq<Bytes>, b: Bytes, s: SegScan)
    ensures ConsAll(done, Cons(b, s)) == ConsAll(done + [b], s)
  {
    if s.Scanned? { assert done + ([b] + s.recs) == done + [b] + s.recs; }
  }

  /** Read the record at the cursor. */
  method ReadStep(c: Crypto, rest: Bytes, head: Id32, isLast: bool) returns (s: Step)
    ensures s == StepOf(c, rest, head, isLast)
  {
    hide Parse;
    var remaining := |rest|;
    if remaining < HEADER_LEN { return Halt(Damage(head, isLast)); }
    if !ValidTag(rest[0]) { return Halt(Broken(false)); }
    var recLen := Declared(rest);
    if recLen > remaining { return Halt(Damage(head, isLast)); }
    var parsed := ParseChain(c, rest[..recLen], Some(head));
    match parsed {
      case Ok((_, prev)) => return Next(recLen, prev);
      case Corrupt =>
        var reachesEof := recLen >= remaining;
        if isLast && reachesEof { return Halt(Damage(head, isLast)); }
        return Halt(Broken(false));
      case Trap => return Halt(Broken(true));
    }
  }

  /** The inner loop: walk one segment with a cursor. */
  method RecoverSegment(c: Crypto, buf: Bytes, base: nat, head: Id32, isLast: bool)
      returns (s: SegScan, offs: seq<nat>, pos: nat)
    ensures s == ScanSegment(c, buf, head, isLast)
    ensures s.Scanned? ==> offs == OffsetsFrom(base, s.recs) && pos == |Flat(s.recs)|
  {
    hide Flat, RecordHash, StepOf;
    var h, recs: seq<Bytes> := head, [];
    offs, pos := [], 0;
    ghost var all := ScanSegment(c, buf, head, isLast);
    assert buf[0..] == buf;
    assert all.Scanned? ==> [] + all.recs == all.recs;
    FlatEmpty([]);
    while pos < |buf|
      invariant pos <= |buf|
      invariant all == ConsAll(recs, ScanSegment(c, buf[pos..], h, isLast))
      invariant offs == OffsetsFrom(base, recs) && pos == |Flat(recs)|
    {
      var rest := buf[pos..];
      var step := ReadStep(c, rest, h, isLast);
      match step {
        case Halt(scan) =>
          HaltIsEmpty(c, rest, h, isLast);
          assert recs + [] == recs;
          return ConsAll(recs, scan), offs, pos;
        case Next(n, prev) =>
          var bytes := rest[..n];
          var h' := RecordHash(c, prev, bytes);
          ConsAllStep(recs, bytes, ScanSegment(c, rest[n..], h', isLast));
          assert rest[n..] == buf[pos + n..];
          FlatSnoc(recs, bytes);
          assert (recs + [bytes])[..|recs|] == recs;
          offs := offs + [base + pos];
          recs := recs + [bytes];
          h := h';
          pos := pos + n;
      }
    }
    assert recs + [] == recs;
    return Scanned(recs, h, false), offs, pos;
  }

  lemma HaltIsEmpty(c: Crypto, buf: Bytes, head: Id32, isLast: bool)
    requires StepOf(c, buf, head, isLast).Halt?
    ensures var s := StepOf(c, buf, head, isLast).scan; s.Scanned? ==> s.recs == []
  {
    hide Parse;
  }

  function ConsGroups(done: seq<seq<Bytes>>, s: LogScan): LogScan {
    if s.Failed? then s else Recovered(done + s.groups, s.torn)
  }

  /** What the outer loop has rebuilt after the first segments. */
  ghost predicate Rebuilt(c: Crypto, groups: seq<seq<Bytes>>, total: nat, offsets: seq<nat>, head: Id32) {
    && AllFramed(Join(groups))
    && total == |Flat(Join(groups))|
    && offsets == Offsets(Join(groups))
    && head == HeadAfter(c, ZERO_ID, Join(groups))
  }

  lemma RebuiltStep(c: Crypto, groups: seq<seq<Bytes>>, total: nat, offsets: seq<nat>, head: Id32, recs: seq<Bytes>)
    requires Rebuilt(c, groups, total, offsets, head) && AllFramed(recs)
    ensures Rebuilt(c, groups + [recs], total + |Flat(recs)|, offsets + OffsetsFrom(total, recs), HeadAfter(c, head, recs))
  {
    hide Flat, AllFramed, Offsets, OffsetsFrom, HeadAfter;
    JoinConcat(groups, [recs]);
    HeadConcat(c, ZERO_ID, Join(groups), recs);
    JoinLast([recs]);
    assert Join([recs]) == recs;
    FlatConcat(Join(groups), recs);
    OffsetsConcat(Join(groups), recs);
    AllFramedConcat(Join(groups), recs);
  }

  lemma ConsGroupsNil(s: LogScan)
    ensures ConsGroups([], s) == s
  {
    if s.Recovered? { assert [] + s.groups == s.groups; }
  }

  lemma ConsGroupsStep(c: Crypto, done: seq<seq<Bytes>>, files: seq<Bytes>, i: nat, head: Id32)
    requires i < |files|
    ensures var s := ScanSegment(c, files[i], head, i + 1 == |files|);
      ConsGroups(done, ScanFiles(c, files[i..], head)) ==
        if s.Broken? then Failed(s.trap)
        else if i + 1 == |files| then Recovered(done + [s.recs], s.torn)
        else ConsGroups(done + [s.recs], ScanFiles(c, files[i + 1..], s.head))
  {
    hide ScanSegment;
    var s := ScanSegment(c, files[i], head, i + 1 == |files|);
    assert files[i..][1..] == files[i + 1..];
    if s.Scanned? {
      var rest := ScanFiles(c, files[i + 1..], s.head);
      if rest.Recovered? { assert done + ([s.recs] + rest.groups) == done + [s.recs] + rest.groups; }
    }
  }

  /** The outer loop over the segments, up to and including the last. */
  method ScanLoop(c: Crypto, files: seq<Bytes>)
      returns (status: Outcome<bool>, cut: nat, offsets: seq<nat>, head: Id32, ghost groups: seq<seq<Bytes>>)
    requires files != []
    ensures match ScanFiles(c, files, ZERO_ID)
      case Failed(trap) => status == (if trap then Trap else Corrupt)
      case Recovered(gs, torn) =>
        && status == Ok(torn) && groups == gs && |gs| == |files|
        && cut == |Flat(gs[|gs| - 1])|
        && exists total :: Rebuilt(c, gs, total, offsets, head)
  {
    hide Flat, ScanSegment, ScanFiles, ConsGroups, Rebuilt, AllFramed, ChainOk, Offsets, OffsetsFrom, HeadAfter;
    var total, warned := 0, false;
    head, offsets, groups, cut := ZERO_ID, [], [], 0;
    ghost var all := ScanFiles(c, files, ZERO_ID);
    RebuiltEmpty(c);
    ConsGroupsNil(all);
    assert files[0..] == files;
    for i := 0 to |files|
      invariant |groups| == i && total >= 0 && Rebuilt(c, groups, total, offsets, head)
      invariant i < |files| ==> all == ConsGroups(groups, ScanFiles(c, files[i..], head))
      invariant i == |files| ==> all == Recovered(groups, warned) && cut == |Flat(groups[i - 1])|
    {
      var isLast := i + 1 == |files|;
      ConsGroupsStep(c, groups, files, i, head);
      var s, offs, pos := RecoverSegment(c, files[i], total, head, isLast);
      if s.Broken? { status := if s.trap then Trap else Corrupt; return; }
      ScanSegmentSound(c, files[i], head, isLast);
      RebuiltStep(c, groups, total, offsets, head, s.recs);
      groups := groups + [s.recs];
      offsets := offsets + offs;
      head := s.head;
      total := total + pos;
      warned, cut := s.torn, pos;
    }
    status := Ok(warned);
  }

  function Lens(files: seq<Bytes>): (l: seq<nat>)
    ensures |l| == |files| && forall i | 0 <= i < |files| :: l[i] == |files[i]|
  {
    if files == [] then [] else [|files[0]|] + Lens(files[1..])
  }

  /** Recovery of any segment files: it fails, or yields a log whose every
      field is that of a log with exactly the verified records. */
  method Recover(c: Crypto, files: seq<Bytes>) returns (res: Outcome<Log>, warned: bool)
    ensures match ScanFiles(c, files, ZERO_ID)
      case Failed(trap) => res == (if trap then Trap else Corrupt)
      case Recovered(groups, torn) =>
        && res.Ok? && fresh(res.value) && res.value.Valid() && res.value.c == c
        && res.value.groups == (if files == [] then [[]] else groups)
        && warned == torn
  {
    hide Flat, ScanFiles, Framed, Offsets, HeadAfter, Sum, ChainOk;
    RebuiltEmpty(c);
    if files == [] {
      EmptyScan(c);
      var log := new Log.Show(c, [[]], [[]], [0], [], ZERO_ID);
      return Ok(log), false;
    }
    var status, cut, offsets, head, groups := ScanLoop(c, files);
    if !status.Ok? { return if status.Trap? then Trap else Corrupt, false; }
    ScanFilesSound(c, files, ZERO_ID);
    warned := status.value;
    var last := |files| - 1;
    // A torn tail is cut off the last file.
    var kept := if warned then files[last := files[last][..cut]] else files;
    var log := new Log.Show(c, groups, kept, Lens(kept), offsets, head);
    return Ok(log), warned;
  }

  lemma EmptyScan(c: Crypto)
    ensures ScanFiles(c, [], ZERO_ID) == Recovered([], false)
    ensures Layout([[]], [0], [[]])
  {
  }

  lemma RebuiltEmpty(c: Crypto)
    ensures Rebuilt(c, [], 0, [], ZERO_ID)
    ensures Rebuilt(c, [[]], 0, [], ZERO_ID)
  {
    JoinLast([[]]);
  }
}
