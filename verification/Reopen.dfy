/** Reopening a namespace from its snapshot and its segment files
    (`Store::open_durable`), and the end-to-end crash theorem. */
module Reopen {
  import opened ByteStrings
  import opened Records
  import opened SegmentedLog
  import opened DurableLog
  import opened Recovery
  import opened StoreSpec
  import opened Replay

  /** The bytes appended for a list of records, each chained to the last. */
  function EncodeAll(c: Crypto, h: Id32, rs: seq<Record>): (bs: seq<Bytes>)
    ensures |bs| == |rs|
    decreases |rs|
  {
    if rs == [] then []
    else var b := Encode(c, rs[0], h); [b] + EncodeAll(c, RecordHash(c, h, b), rs[1..])
  }

  predicate Storable(r: Record) {
    Canonical(r) && Fits(r)
  }

  ghost predicate AllStorable(rs: seq<Record>) {
    forall i | 0 <= i < |rs| :: Storable(rs[i])
  }

  lemma EncodedLink(c: Crypto, r: Record, h: Id32)
    requires Storable(r)
    ensures Parse(c, Encode(c, r, h), Some(h)) == Ok((r, h))
    ensures Framed(Encode(c, r, h)) && Encode(c, r, h)[9..41] == h
  {
    hide Parse, Encode;
    RoundTrip(c, r, h);
    ParsedLink(c, Encode(c, r, h), h);
  }

  lemma {:induction false} EncodeAllChained(c: Crypto, h: Id32, rs: seq<Record>)
    requires AllStorable(rs)
    ensures ChainOk(c, h, EncodeAll(c, h, rs)) && AllFramed(EncodeAll(c, h, rs))
    decreases |rs|
  {
    hide Parse, Encode, Storable, Framed, RecordHash;
    if rs != [] {
      var b := Encode(c, rs[0], h);
      var rest := EncodeAll(c, RecordHash(c, h, b), rs[1..]);
      EncodedLink(c, rs[0], h);
      EncodeAllChained(c, RecordHash(c, h, b), rs[1..]);
      assert EncodeAll(c, h, rs)[1..] == rest;
    }
  }

  lemma {:induction false} EncodeAllPrefix(c: Crypto, h: Id32, rs: seq<Record>, m: nat)
    requires m <= |rs|
    ensures EncodeAll(c, h, rs)[..m] == EncodeAll(c, h, rs[..m])
    decreases |rs|
  {
    hide Encode, RecordHash;
    if m > 0 {
      var b := Encode(c, rs[0], h);
      EncodeAllPrefix(c, RecordHash(c, h, b), rs[1..], m - 1);
      assert rs[..m][1..] == rs[1..][..m - 1];
    }
  }

  // ---------- replaying bytes ----------

  /** A snapshot of one namespace: head of its log and tables at that point. */
  datatype Snapshot = Snapshot(seqNo: nat, head: Id32, t: Tables)

  /** Parse each record against the running head and apply it. */
  function ReplayBytes(c: Crypto, p: Policy, ns: Name, recs: seq<Bytes>, n0: nat, head: Id32, t: Tables): Outcome<(Id32, Tables)>
    decreases |recs|
  {
    if recs == [] then Ok((head, t))
    else
      var parsed :- Parse(c, recs[0], Some(head));
      var a := SyncRecord(p, ns, parsed.0, n0 + 1, t);
      if !a.ok then Corrupt
      else ReplayBytes(c, p, ns, recs[1..], n0 + 1, RecordHash(c, parsed.1, recs[0]), a.t)
  }

  function ReopenSpace(c: Crypto, p: Policy, ns: Name, files: seq<Bytes>, snap: Snapshot): Outcome<Tables> {
    match ScanFiles(c, files, ZERO_ID)
    case Failed(trap) => if trap then Trap else Corrupt
    case Recovered(groups, _) =>
      var recs := Join(groups);
      if snap.seqNo > |recs| then Corrupt
      else
        var res :- ReplayBytes(c, p, ns, recs[snap.seqNo..], snap.seqNo, snap.head, snap.t);
        if res.0 != HeadAfter(c, ZERO_ID, recs) then Corrupt else Ok(res.1)
  }

  /** Replaying what was encoded applies exactly those records. */
  lemma {:induction false} ReplayEncoded(c: Crypto, p: Policy, ns: Name, rs: seq<Record>, n0: nat, h: Id32, t: Tables)
    requires AllStorable(rs) && AllApplicable(rs) && Shaped(p, ns, t)
    ensures AllFramed(EncodeAll(c, h, rs))
    ensures ReplayBytes(c, p, ns, EncodeAll(c, h, rs), n0, h, t) ==
      Ok((HeadAfter(c, h, EncodeAll(c, h, rs)), SyncAll(p, ns, rs, n0, t)))
    decreases |rs|
  {
    hide Parse, Encode, Storable, Framed, RecordHash, Shaped, SyncRecord, HeadAfter;
    EncodeAllChained(c, h, rs);
    if rs == [] {
      assert EncodeAll(c, h, rs) == [];
      HeadNone(c, h);
    } else {
      var b := Encode(c, rs[0], h);
      var h' := RecordHash(c, h, b);
      var bs := EncodeAll(c, h, rs);
      EncodedLink(c, rs[0], h);
      HeadSingle(c, h, b);
      HeadConcat(c, h, [b], bs[1..]);
      ApplicableShaped(p, ns, rs[0], n0 + 1, t);
      ReplayEncoded(c, p, ns, rs[1..], n0 + 1, h', SyncRecord(p, ns, rs[0], n0 + 1, t).t);
      assert bs[1..] == EncodeAll(c, h', rs[1..]);
      SyncAllFirst(p, ns, rs, n0, t);
    }
  }

  lemma ApplicableShaped(p: Policy, ns: Name, r: Record, seqNo: nat, t: Tables)
    requires Applicable(r) && Shaped(p, ns, t)
    ensures var a := SyncRecord(p, ns, r, seqNo, t); a.ok && Shaped(p, ns, a.t)
  {
    hide Shaped;
    ApplicableOps(r);
    OpsKeepShape(p, ns, Ops(r), seqNo, t);
  }

  lemma {:induction false} SyncAllShaped(p: Policy, ns: Name, rs: seq<Record>, n0: nat, t: Tables)
    requires AllApplicable(rs) && Shaped(p, ns, t)
    ensures Shaped(p, ns, SyncAll(p, ns, rs, n0, t))
    decreases |rs|
  {
    hide Shaped, Applicable, SyncRecord;
    if rs != [] {
      var n := |rs| - 1;
      SyncAllShaped(p, ns, rs[..n], n0, t);
      ApplicableShaped(p, ns, rs[n], n0 + |rs|, SyncAll(p, ns, rs[..n], n0, t));
    }
  }

  lemma {:induction false} SyncAllFirst(p: Policy, ns: Name, rs: seq<Record>, n0: nat, t: Tables)
    requires rs != []
    ensures SyncAll(p, ns, rs, n0, t) == SyncAll(p, ns, rs[1..], n0 + 1, SyncRecord(p, ns, rs[0], n0 + 1, t).t)
    decreases |rs|
  {
    hide SyncRecord;
    var n := |rs| - 1;
    if n == 0 {
      assert rs[..0] == [] && rs[1..] == [];
    } else {
      SyncAllFirst(p, ns, rs[..n], n0, t);
      assert rs[..n][1..] == rs[1..][..n - 1];
    }
  }

  // ---------- every prefix of the log is a moment of the run ----------

  lemma {:induction false} MomentOf(p: Policy, ns: Name, acts: seq<Action>, s: Space, m: nat) returns (j: nat)
    requires Shaped(p, ns, s.t) && AllApplicableActs(acts)
    requires |s.log| <= m <= |Run(p, ns, acts, s).log|
    ensures j <= |acts|
    ensures Run(p, ns, acts[..j], s).log == Run(p, ns, acts, s).log[..m]
    decreases |acts|
  {
    hide Perform, Shaped, Applicable, Run, Live, History;
    var e := Run(p, ns, acts, s);
    if m == |e.log| {
      j := |acts|;
      assert acts[..j] == acts && e.log[..m] == e.log;
    } else {
      var n := |acts| - 1;
      RunUnfold(p, ns, acts, s);
      var before := Run(p, ns, acts[..n], s);
      RunIsLive(p, ns, acts[..n], s);
      PerformStep(p, ns, acts[n], before);
      j := MomentOf(p, ns, acts[..n], s, m);
      assert acts[..n][..j] == acts[..j];
      assert e.log[..m] == before.log[..m];
    }
  }

  lemma RunUnfold(p: Policy, ns: Name, acts: seq<Action>, s: Space)
    ensures Run(p, ns, acts, s) ==
      if acts == [] then s else Perform(p, ns, acts[|acts| - 1], Run(p, ns, acts[..|acts| - 1], s))
  {
    hide Perform;
  }

  lemma {:induction false} HistoryPrefix(p: Policy, ns: Name, acts: seq<Action>, s: Space, j: nat)
    requires j <= |acts|
    ensures History(p, ns, acts[..j], s) <= History(p, ns, acts, s)
    decreases |acts| - j
  {
    hide Run, EventsOf;
    if j == |acts| {
      assert acts[..j] == acts;
    } else {
      HistoryPrefix(p, ns, acts, s, j + 1);
      assert acts[..j + 1][..j] == acts[..j];
    }
  }

  lemma {:induction false} SafePrefix(p: Policy, ns: Name, es: seq<Event>, fs: seq<Event>, t: Tables)
    requires es <= fs && AllSafe(p, ns, fs, t)
    ensures AllSafe(p, ns, es, t)
    decreases |fs|
  {
    hide Live, ReplaySafe;
    if |es| == |fs| {
      assert es == fs;
    } else {
      SafePrefix(p, ns, es, fs[..|fs| - 1], t);
    }
  }

  lemma {:induction false} RunStorable(p: Policy, ns: Name, acts: seq<Action>, s: Space)
    requires AllStorable(s.log) && AllApplicable(s.log)
    requires forall i | 0 <= i < |acts| :: Applicable(acts[i].r) && Storable(acts[i].r)
    ensures var e := Run(p, ns, acts, s); AllStorable(e.log) && AllApplicable(e.log)
    decreases |acts|
  {
    hide Applicable, Storable, SyncRecord, LocalOps, LogVersions;
    if acts != [] { RunStorable(p, ns, acts[..|acts| - 1], s); }
  }

  /** A snapshot written when the namespace was in state `s`. */
  function SnapshotOf(c: Crypto, s: Space): Snapshot {
    Snapshot(|s.log|, HeadAfter(c, ZERO_ID, EncodeAll(c, ZERO_ID, s.log)), s.t)
  }

  lemma {:induction false} EncodeAllSuffix(c: Crypto, h: Id32, rs: seq<Record>, m: nat)
    requires m <= |rs| && AllStorable(rs)
    ensures EncodeAll(c, h, rs)[m..] == EncodeAll(c, HeadAfter(c, h, EncodeAll(c, h, rs[..m])), rs[m..])
    ensures AllFramed(EncodeAll(c, h, rs[..m]))
    decreases m
  {
    hide Encode, RecordHash, Storable, Framed, Parse, HeadAfter;
    HeadNone(c, h);
    if m == 0 {
      assert rs[m..] == rs && EncodeAll(c, h, rs[..0]) == [] && EncodeAll(c, h, rs)[0..] == EncodeAll(c, h, rs);
    } else {
      var b := Encode(c, rs[0], h);
      var h' := RecordHash(c, h, b);
      EncodedLink(c, rs[0], h);
      EncodeAllSuffix(c, h', rs[1..], m - 1);
      EncodeAllChained(c, h, rs[..m]);
      var bs := EncodeAll(c, h', rs[1..][..m - 1]);
      assert rs[1..][..m - 1] == rs[..m][1..];
      assert EncodeAll(c, h, rs[..m]) == [b] + bs;
      assert rs[1..][m - 1..] == rs[m..];
      EncodeAllChained(c, h', rs[1..][..m - 1]);
      HeadSingle(c, h, b);
      HeadConcat(c, h, [b], bs);
    }
  }

  /** A log encoded from head `g` does not replay from any other head. */
  lemma ReplayNeedsHead(c: Crypto, p: Policy, ns: Name, rs: seq<Record>, n0: nat, g: Id32, h: Id32, t: Tables)
    requires AllStorable(rs) && g != h
    ensures rs == [] ==> ReplayBytes(c, p, ns, EncodeAll(c, g, rs), n0, h, t) == Ok((h, t))
    ensures rs != [] ==> !ReplayBytes(c, p, ns, EncodeAll(c, g, rs), n0, h, t).Ok?
  {
    hide Parse, Encode, Storable, Framed, RecordHash, SyncRecord;
    if rs != [] {
      var b := Encode(c, rs[0], g);
      EncodedLink(c, rs[0], g);
      if Parse(c, b, Some(h)).Ok? { ParsedLink(c, b, h); }
    }
  }

  /** A snapshot belongs to a log that reaches its number with its head there. */
  predicate Belongs(c: Crypto, snap: Snapshot, log: seq<Record>) {
    snap.seqNo <= |log| && snap.head == HeadAt(c, log, snap.seqNo)
  }

  function HeadAt(c: Crypto, log: seq<Record>, n: nat): Id32
    requires n <= |log|
  {
    HeadAfter(c, ZERO_ID, EncodeAll(c, ZERO_ID, log[..n]))
  }

  /** The bytes of a log from record `n` on continue the head there. */
  lemma LogAt(c: Crypto, log: seq<Record>, n: nat)
    requires n <= |log| && AllStorable(log)
    ensures var (bs, tail) := (EncodeAll(c, ZERO_ID, log), EncodeAll(c, HeadAt(c, log, n), log[n..]));
      && bs[n..] == tail
      && HeadAfter(c, ZERO_ID, bs) == HeadAfter(c, HeadAt(c, log, n), tail)
  {
    hide EncodeAll, Storable, HeadAfter, AllFramed;
    var bs := EncodeAll(c, ZERO_ID, log);
    EncodeAllSuffix(c, ZERO_ID, log, n);
    EncodeAllPrefix(c, ZERO_ID, log, n);
    EncodeAllChained(c, ZERO_ID, log);
    assert bs == bs[..n] + bs[n..];
    AllFramedConcat(bs[..n], bs[n..]);
    HeadConcat(c, ZERO_ID, bs[..n], bs[n..]);
  }

  /** Reopening recovered records against any snapshot of the namespace succeeds
      exactly when the snapshot belongs to their log, and then replays the
      records after it. */
  lemma ReopenIff(c: Crypto, p: Policy, ns: Name, files: seq<Bytes>, groups: seq<seq<Bytes>>, torn: bool, snap: Snapshot, log: seq<Record>)
    requires ScanFiles(c, files, ZERO_ID) == Recovered(groups, torn)
    requires Join(groups) == EncodeAll(c, ZERO_ID, log)
    requires AllStorable(log) && AllApplicable(log) && Shaped(p, ns, snap.t)
    ensures ReopenSpace(c, p, ns, files, snap).Ok? <==> Belongs(c, snap, log)
    ensures Belongs(c, snap, log) ==>
      ReopenSpace(c, p, ns, files, snap) == Ok(SyncAll(p, ns, log[snap.seqNo..], snap.seqNo, snap.t))
  {
    hide ScanFiles, EncodeAll, Shaped, Storable, Applicable, SyncAll, ReplayBytes, HeadAfter, HeadAt;
    var m := snap.seqNo;
    if m <= |log| {
      var head := HeadAt(c, log, m);
      LogAt(c, log, m);
      if snap.head == head {
        ReplayEncoded(c, p, ns, log[m..], m, head, snap.t);
      } else {
        ReplayNeedsHead(c, p, ns, log[m..], m, head, snap.head, snap.t);
        HeadNone(c, head);
      }
    }
  }

  /** Reopening whole files against a checkpoint of their log replays the
      records after it. */
  lemma ReopenWhole(c: Crypto, p: Policy, ns: Name, files: seq<Bytes>, groups: seq<seq<Bytes>>, torn: bool, s: Space, log: seq<Record>)
    requires ScanFiles(c, files, ZERO_ID) == Recovered(groups, torn)
    requires Join(groups) == EncodeAll(c, ZERO_ID, log)
    requires s.log <= log && AllStorable(log) && AllApplicable(log) && Shaped(p, ns, s.t)
    ensures ReopenSpace(c, p, ns, files, SnapshotOf(c, s)) == Ok(SyncAll(p, ns, log[|s.log|..], |s.log|, s.t))
  {
    hide ScanFiles, EncodeAll, Shaped, Storable, Applicable, SyncAll, ReopenSpace, HeadAfter;
    assert log[..|s.log|] == s.log;
    ReopenIff(c, p, ns, files, groups, torn, SnapshotOf(c, s), log);
  }

  /** End to end. From a checkpoint of state `s`, run any local and synced
      writes whose local ones were safe; let their records fill segments in any
      arrangement; cut the last file at any byte that leaves the checkpointed
      records. Then reopening succeeds, and its tables are exactly those of the
      live store at the moment it had written the surviving records. */
  lemma CrashReopen(c: Crypto, p: Policy, ns: Name, acts: seq<Action>, s: Space, groups: seq<seq<Bytes>>, n: nat) returns (j: nat)
    requires Shaped(p, ns, s.t) && AllStorable(s.log) && AllApplicable(s.log)
    requires AllApplicableActs(acts) && forall i | 0 <= i < |acts| :: Storable(acts[i].r)
    requires AllSafe(p, ns, History(p, ns, acts, s), s.t)
    requires InLast(groups, n) && Join(groups) == EncodeAll(c, ZERO_ID, Run(p, ns, acts, s).log)
    requires |Join(Survivors(groups, n))| >= |s.log|
    ensures j <= |acts|
    ensures var m := |Join(Survivors(groups, n))|;
      && m <= |Run(p, ns, acts, s).log|
      && Run(p, ns, acts[..j], s).log == Run(p, ns, acts, s).log[..m]
      && ReopenSpace(c, p, ns, CutFiles(groups, n), SnapshotOf(c, s)) == Ok(Run(p, ns, acts[..j], s).t)
  {
    hide ScanFiles, EncodeAll, Shaped, Storable, Applicable, SyncAll, Run, History, AllSafe, Flat, Survivors, CutFiles, ReopenSpace;
    var e := Run(p, ns, acts, s);
    var kept := Survivors(groups, n);
    var m := |Join(kept)|;
    var files := CutFiles(groups, n);
    RunStorable(p, ns, acts, s);
    EncodeAllChained(c, ZERO_ID, e.log);
    CrashRecovery(c, groups, n);
    EncodeAllPrefix(c, ZERO_ID, e.log, m);
    j := MomentOf(p, ns, acts, s, m);
    HistoryPrefix(p, ns, acts, s, j);
    SafePrefix(p, ns, History(p, ns, acts[..j], s), History(p, ns, acts, s), s.t);
    ReplayEqualsLive(p, ns, acts[..j], s);
    ReopenWhole(c, p, ns, files, kept, ScanFiles(c, files, ZERO_ID).torn, s, e.log[..m]);
  }

  const EMPTY: Space := Space([], Tables(map[], map[]))

  /** The segments a new log has after a history of actions. */
  function Written(c: Crypto, p: Policy, ns: Name, acts: seq<Action>): (groups: seq<seq<Bytes>>)
    ensures groups != []
  {
    Segments(EncodeAll(c, ZERO_ID, Run(p, ns, acts, EMPTY).log))
  }

  ghost predicate Writable(acts: seq<Action>) {
    AllApplicableActs(acts) && forall i | 0 <= i < |acts| :: Storable(acts[i].r)
  }

  /** A new namespace without any checkpoint: append through the real segment
      roll, cut the last segment at any byte, and reopen.  The tables are those
      of the live store when it had written the surviving records. */
  lemma ColdCrash(c: Crypto, p: Policy, ns: Name, acts: seq<Action>, n: nat) returns (j: nat)
    requires Writable(acts) && AllSafe(p, ns, History(p, ns, acts, EMPTY), EMPTY.t)
    requires InLast(Written(c, p, ns, acts), n)
    ensures j <= |acts|
    ensures var groups := Written(c, p, ns, acts);
      && |Run(p, ns, acts[..j], EMPTY).log| == |Join(Survivors(groups, n))|
      && ReopenSpace(c, p, ns, CutFiles(groups, n), Snapshot(0, ZERO_ID, EMPTY.t)) == Ok(Run(p, ns, acts[..j], EMPTY).t)
  {
    hide ScanFiles, EncodeAll, Storable, Applicable, Run, History, AllSafe, Flat, Survivors, CutFiles, ReopenSpace, Segments;
    SegmentsJoin(EncodeAll(c, ZERO_ID, Run(p, ns, acts, EMPTY).log));
    EmptySnapshot(c);
    j := CrashReopen(c, p, ns, acts, EMPTY, Written(c, p, ns, acts), n);
  }

  lemma EmptySnapshot(c: Crypto)
    ensures SnapshotOf(c, EMPTY) == Snapshot(0, ZERO_ID, EMPTY.t)
    ensures AllStorable(EMPTY.log) && AllApplicable(EMPTY.log) && forall p: Policy, ns: Name :: Shaped(p, ns, EMPTY.t)
  {
    assert EncodeAll(c, ZERO_ID, []) == [];
  }

  /** A node that only mirrors others needs no condition on its history. */
  lemma {:induction false} SyncedAreSafe(p: Policy, ns: Name, acts: seq<Action>, s: Space)
    requires forall i | 0 <= i < |acts| :: acts[i].Synced?
    ensures forall e | e in History(p, ns, acts, s) :: !e.local
    ensures AllSafe(p, ns, History(p, ns, acts, s), s.t)
  {
    hide Run, ReplaySafe;
    if acts != [] {
      SyncedAreSafe(p, ns, acts[..|acts| - 1], s);
    }
    NoLocalSafe(p, ns, History(p, ns, acts, s), s.t);
  }

  lemma {:induction false} NoLocalSafe(p: Policy, ns: Name, es: seq<Event>, t: Tables)
    requires forall e | e in es :: !e.local
    ensures AllSafe(p, ns, es, t)
  {
    hide ReplaySafe, Live;
    if es != [] {
      assert es[|es| - 1] in es;
      NoLocalSafe(p, ns, es[..|es| - 1], t);
    }
  }
}
