/** Opening a store from what a crash left on disk (`storage/mod.rs`,
    `open_durable`): the snapshot file, and for each namespace directory its
    segment files and policy sidecar. */
module Restart {
  import opened ByteStrings
  import opened Records
  import opened SegmentedLog
  import opened Recovery
  import opened StoreSpec
  import opened Replay
  import opened Compaction
  import Reopen
  import Snapshots

  /** A namespace directory. */
  datatype Disk = Disk(sidecar: Option<Bytes>, files: seq<Bytes>)

  const NOTHING: Snapshots.State := Snapshots.State(0, map[], map[], map[], map[], Tables(map[], map[]))

  // ---------- opening ----------

  /** The policy sidecar: absent, or one byte that names a policy. */
  function ReadSidecar(b: Option<Bytes>): Outcome<Option<Policy>> {
    if b.None? then Ok(None)
    else if b.value == [0] then Ok(Some(LastWriter))
    else if b.value == [1] then Ok(Some(CrdtRegister))
    else Corrupt
  }

  function Sidecar(p: Policy): Bytes {
    if p.LastWriter? then [0] else [1]
  }

  /** Snapshot first, sidecar second; two that disagree, or none, are refused. */
  function ResolvePolicy(snap: Option<Policy>, sidecar: Option<Bytes>): Outcome<Policy> {
    var side :- ReadSidecar(sidecar);
    if snap.Some? && side.Some? && snap != side then Corrupt
    else if snap.Some? then Ok(snap.value)
    else if side.Some? then Ok(side.value)
    else Corrupt
  }

  function Lookup<V>(m: map<Name, V>, ns: Name): Option<V> {
    if ns in m then Some(m[ns]) else None
  }

  /** Recover one namespace and replay what the snapshot lacks into `t`. */
  function OpenNs(c: Crypto, st: Snapshots.State, ns: Name, d: Disk, t: Tables): Outcome<Tables> {
    match ScanFiles(c, d.files, ZERO_ID)
    case Failed(trap) => if trap then Trap else Corrupt
    case Recovered(_, _) =>
      var p :- ResolvePolicy(Lookup(st.policies, ns), d.sidecar);
      var (seqNo, head) := if ns in st.heads then st.heads[ns] else (0, ZERO_ID);
      Reopen.ReopenSpace(c, p, ns, d.files, Reopen.Snapshot(seqNo, head, t))
  }

  /** The namespace directories, in order. */
  function OpenAll(c: Crypto, st: Snapshots.State, dirs: seq<(Name, Disk)>, t: Tables): Outcome<Tables>
    decreases |dirs|
  {
    if dirs == [] then Ok(t)
    else
      var n := |dirs| - 1;
      var prev :- OpenAll(c, st, dirs[..n], t);
      OpenNs(c, st, dirs[n].0, dirs[n].1, prev)
  }

  predicate HasDir(dirs: seq<(Name, Disk)>, ns: Name) {
    exists i | 0 <= i < |dirs| :: dirs[i].0 == ns
  }

  function Open(c: Crypto, snap: Option<Bytes>, dirs: seq<(Name, Disk)>): Outcome<Tables> {
    var loaded := if snap.None? then Snapshots.Loaded(NOTHING) else
      match Snapshots.LoadImage(snap.value)
      case Corrupt => Snapshots.Corrupt
      case Loaded(m) => Snapshots.Loaded(Snapshots.Restore(m));
    if loaded.Corrupt? then Corrupt
    else if exists ns | ns in loaded.value.heads :: !HasDir(dirs, ns) then Corrupt
    else OpenAll(c, loaded.value, dirs, loaded.value.t)
  }

  lemma {:induction false} OpenAllFails(c: Crypto, st: Snapshots.State, dirs: seq<(Name, Disk)>, t: Tables, i: nat)
    requires i <= |dirs| && !OpenAll(c, st, dirs[..i], t).Ok?
    ensures OpenAll(c, st, dirs, t) == OpenAll(c, st, dirs[..i], t)
    decreases |dirs|
  {
    hide OpenNs;
    if i == |dirs| {
      assert dirs[..i] == dirs;
    } else {
      assert dirs[..|dirs| - 1][..i] == dirs[..i];
      OpenAllFails(c, st, dirs[..|dirs| - 1], t, i);
    }
  }

  /** The opening loop: directory after directory, up to the first failure. */
  method OpenStore(c: Crypto, snap: Option<Bytes>, dirs: seq<(Name, Disk)>) returns (res: Outcome<Tables>)
    ensures res == Open(c, snap, dirs)
  {
    hide OpenNs, Snapshots.LoadImage, Snapshots.Restore;
    var st := NOTHING;
    if snap.Some? {
      var image := Snapshots.LoadImage(snap.value);
      if image.Corrupt? { return Corrupt; }
      st := Snapshots.Restore(image.value);
    }
    if exists ns | ns in st.heads :: !HasDir(dirs, ns) { return Corrupt; }
    var t := st.t;
    for i := 0 to |dirs|
      invariant OpenAll(c, st, dirs[..i], st.t) == Ok(t)
    {
      assert dirs[..i + 1][..i] == dirs[..i];
      var one := OpenNs(c, st, dirs[i].0, dirs[i].1, t);
      if !one.Ok? {
        OpenAllFails(c, st, dirs, st.t, i + 1);
        return one;
      }
      t := one.value;
    }
    assert dirs[..|dirs|] == dirs;
    return Ok(t);
  }

  // ---------- one namespace does not see another ----------

  lemma SyncOpLocal(p: Policy, ns: Name, op: Record, seqNo: nat, t: Tables, u: Tables)
    requires SameSpace(t, u, ns)
    ensures SyncOp(p, ns, op, seqNo, t).ok == SyncOp(p, ns, op, seqNo, u).ok
    ensures SameSpace(SyncOp(p, ns, op, seqNo, t).t, SyncOp(p, ns, op, seqNo, u).t, ns)
    ensures forall n | n != ns :: SameSpace(u, SyncOp(p, ns, op, seqNo, u).t, n)
  {
  }

  lemma {:induction false} SyncOpsLocal(p: Policy, ns: Name, ops: seq<Record>, seqNo: nat, t: Tables, u: Tables)
    requires SameSpace(t, u, ns)
    ensures SyncOps(p, ns, ops, seqNo, t).ok == SyncOps(p, ns, ops, seqNo, u).ok
    ensures SameSpace(SyncOps(p, ns, ops, seqNo, t).t, SyncOps(p, ns, ops, seqNo, u).t, ns)
    ensures forall n | n != ns :: SameSpace(u, SyncOps(p, ns, ops, seqNo, u).t, n)
    decreases |ops|
  {
    hide SyncOp, SameSpace;
    if ops == [] {
      forall n { SameSelf(u, n); }
    } else {
      var n := |ops| - 1;
      SyncOpsLocal(p, ns, ops[..n], seqNo, t, u);
      var (a, b) := (SyncOps(p, ns, ops[..n], seqNo, t), SyncOps(p, ns, ops[..n], seqNo, u));
      SyncOpLocal(p, ns, ops[n], seqNo, a.t, b.t);
      var e := SyncOps(p, ns, ops, seqNo, u);
      forall m | m != ns ensures SameSpace(u, e.t, m) { SameTrans(u, b.t, e.t, m); }
    }
  }

  lemma SameSelf(t: Tables, n: Name)
    ensures SameSpace(t, t, n)
  {
  }

  lemma SameTrans(t: Tables, u: Tables, w: Tables, n: Name)
    ensures SameSpace(t, u, n) && SameSpace(u, w, n) ==> SameSpace(t, w, n)
    ensures SameSpace(t, u, n) <==> SameSpace(u, t, n)
  {
  }

  lemma {:induction false} ReplayLocal(c: Crypto, p: Policy, ns: Name, recs: seq<Bytes>, n0: nat, head: Id32, t: Tables, u: Tables)
    requires SameSpace(t, u, ns) && Reopen.ReplayBytes(c, p, ns, recs, n0, head, t).Ok?
    ensures var (a, b) := (Reopen.ReplayBytes(c, p, ns, recs, n0, head, t), Reopen.ReplayBytes(c, p, ns, recs, n0, head, u));
      && b.Ok? && b.value.0 == a.value.0 && SameSpace(a.value.1, b.value.1, ns)
      && forall n | n != ns :: SameSpace(u, b.value.1, n)
    decreases |recs|
  {
    hide Parse, SyncOps, SameSpace, RecordHash;
    if recs == [] {
      forall n { SameSelf(u, n); }
    } else {
      var parsed := Parse(c, recs[0], Some(head)).value;
      SyncOpsLocal(p, ns, Ops(parsed.0), n0 + 1, t, u);
      var (x, y) := (SyncRecord(p, ns, parsed.0, n0 + 1, t).t, SyncRecord(p, ns, parsed.0, n0 + 1, u).t);
      ReplayLocal(c, p, ns, recs[1..], n0 + 1, RecordHash(c, parsed.1, recs[0]), x, y);
      var b := Reopen.ReplayBytes(c, p, ns, recs, n0, head, u).value.1;
      forall n | n != ns ensures SameSpace(u, b, n) { SameTrans(u, y, b, n); }
    }
  }

  lemma ReopenLocal(c: Crypto, p: Policy, ns: Name, files: seq<Bytes>, seqNo: nat, head: Id32, t: Tables, u: Tables)
    requires SameSpace(t, u, ns) && Reopen.ReopenSpace(c, p, ns, files, Reopen.Snapshot(seqNo, head, t)).Ok?
    ensures var a := Reopen.ReopenSpace(c, p, ns, files, Reopen.Snapshot(seqNo, head, t));
      var b := Reopen.ReopenSpace(c, p, ns, files, Reopen.Snapshot(seqNo, head, u));
      && ScanFiles(c, files, ZERO_ID).Recovered?
      && b.Ok? && SameSpace(a.value, b.value, ns) && forall n | n != ns :: SameSpace(u, b.value, n)
  {
    hide ScanFiles, Reopen.ReplayBytes, SameSpace, HeadAfter, Join;
    var recs := Join(ScanFiles(c, files, ZERO_ID).groups);
    ReplayLocal(c, p, ns, recs[seqNo..], seqNo, head, t, u);
  }

  // ---------- crash and restart ----------

  /** The story of one namespace: its policy, the records the checkpoint covers,
      what was done since, how the records lie in segments, and the byte of the
      last segment at which the crash cut. */
  datatype Story = Story(
    p: Policy, sidecar: Option<Bytes>, log: seq<Record>, acts: seq<Action>, groups: seq<seq<Bytes>>, n: nat)

  function Begin(st: Snapshots.State, x: Story): Space {
    Space(x.log, st.t)
  }

  /** How many records survive the cut. */
  function Left(x: Story): nat
    requires x.groups != []
  {
    |Join(Survivors(x.groups, x.n))|
  }

  /** The snapshot knows the namespace at this log, or does not know it and the log
      was empty; the sidecar agrees. */
  ghost predicate Captured(c: Crypto, st: Snapshots.State, ns: Name, x: Story) {
    if ns in st.policies then
      && st.policies[ns] == x.p && (x.sidecar == None || x.sidecar == Some(Sidecar(x.p)))
      && ns in st.heads && st.heads[ns] == (|x.log|, HeadAfter(c, ZERO_ID, Reopen.EncodeAll(c, ZERO_ID, x.log)))
    else
      ns !in st.heads && x.log == [] && x.sidecar == Some(Sidecar(x.p))
  }

  /** Any writes, each local one safe, laid out in segments that the cut
      shortens no further than the checkpoint. */
  ghost predicate Sane(c: Crypto, st: Snapshots.State, ns: Name, x: Story) {
    && Shaped(x.p, ns, st.t) && Reopen.AllStorable(x.log) && AllApplicable(x.log) && Reopen.Writable(x.acts)
    && AllSafe(x.p, ns, History(x.p, ns, x.acts, Begin(st, x)), st.t)
    && InLast(x.groups, x.n) && Join(x.groups) == Reopen.EncodeAll(c, ZERO_ID, Run(x.p, ns, x.acts, Begin(st, x)).log)
    && Left(x) >= |x.log|
  }

  function DiskOf(x: Story): Disk
    requires InLast(x.groups, x.n)
  {
    Disk(x.sidecar, CutFiles(x.groups, x.n))
  }

  /** `t` shows of `ns` what the live store did after `j` of its actions, when it had
      written exactly the surviving records. */
  ghost predicate ShowsMoment(st: Snapshots.State, ns: Name, x: Story, j: nat, t: Tables) {
    && j <= |x.acts| && x.groups != []
    && Left(x) <= |Run(x.p, ns, x.acts, Begin(st, x)).log|
    && Run(x.p, ns, x.acts[..j], Begin(st, x)).log == Run(x.p, ns, x.acts, Begin(st, x)).log[..Left(x)]
    && SameSpace(Run(x.p, ns, x.acts[..j], Begin(st, x)).t, t, ns)
  }

  lemma PolicyResolves(c: Crypto, st: Snapshots.State, ns: Name, x: Story)
    requires Captured(c, st, ns, x)
    ensures ResolvePolicy(Lookup(st.policies, ns), x.sidecar) == Ok(x.p)
    ensures (if ns in st.heads then st.heads[ns] else (0, ZERO_ID)) ==
      (|x.log|, HeadAfter(c, ZERO_ID, Reopen.EncodeAll(c, ZERO_ID, x.log)))
  {
    if ns !in st.policies {
      assert Reopen.EncodeAll(c, ZERO_ID, []) == [];
      HeadNone(c, ZERO_ID);
    }
  }

  lemma OpenNsLive(c: Crypto, st: Snapshots.State, ns: Name, x: Story, t: Tables) returns (j: nat)
    requires Captured(c, st, ns, x) && Sane(c, st, ns, x) && SameSpace(st.t, t, ns)
    ensures var r := OpenNs(c, st, ns, DiskOf(x), t);
      && r.Ok? && ShowsMoment(st, ns, x, j, r.value)
      && forall n | n != ns :: SameSpace(t, r.value, n)
  {
    hide ScanFiles, Reopen.ReopenSpace, Reopen.EncodeAll, Run, History, AllSafe, Shaped, Survivors, CutFiles, Join, HeadAfter,
      Captured, ResolvePolicy, SameSpace, Reopen.AllStorable, AllApplicable, AllApplicableActs, Flat;
    PolicyResolves(c, st, ns, x);
    j := Reopen.CrashReopen(c, x.p, ns, x.acts, Begin(st, x), x.groups, x.n);
    var head := HeadAfter(c, ZERO_ID, Reopen.EncodeAll(c, ZERO_ID, x.log));
    ReopenLocal(c, x.p, ns, CutFiles(x.groups, x.n), |x.log|, head, st.t, t);
  }

  /** Every cut falls inside the last segment. */
  predicate Cuttable(dirs: seq<(Name, Story)>) {
    forall i | 0 <= i < |dirs| :: InLast(dirs[i].1.groups, dirs[i].1.n)
  }

  predicate Apart(dirs: seq<(Name, Story)>) {
    forall i, j | 0 <= i < j < |dirs| :: dirs[i].0 != dirs[j].0
  }

  ghost predicate AllSane(c: Crypto, st: Snapshots.State, dirs: seq<(Name, Story)>) {
    && Cuttable(dirs) && Apart(dirs)
    && forall i | 0 <= i < |dirs| :: Captured(c, st, dirs[i].0, dirs[i].1) && Sane(c, st, dirs[i].0, dirs[i].1)
  }

  function Disks(dirs: seq<(Name, Story)>): (r: seq<(Name, Disk)>)
    requires Cuttable(dirs)
    ensures |r| == |dirs|
  {
    if dirs == [] then []
    else
      var n := |dirs| - 1;
      assert Cuttable(dirs[..n]);
      Disks(dirs[..n]) + [(dirs[n].0, DiskOf(dirs[n].1))]
  }

  predicate Absent(dirs: seq<(Name, Story)>, ns: Name) {
    forall i | 0 <= i < |dirs| :: dirs[i].0 != ns
  }

  /** Every listed namespace shows its moment in `t`; the others show what `t0` did. */
  ghost predicate AllShown(st: Snapshots.State, dirs: seq<(Name, Story)>, js: seq<nat>, t0: Tables, t: Tables) {
    && |js| == |dirs|
    && (forall i | 0 <= i < |dirs| :: ShowsMoment(st, dirs[i].0, dirs[i].1, js[i], t))
    && forall n | Absent(dirs, n) :: SameSpace(t0, t, n)
  }

  lemma {:induction false} OpenAllLive(c: Crypto, st: Snapshots.State, dirs: seq<(Name, Story)>) returns (js: seq<nat>)
    requires AllSane(c, st, dirs)
    ensures OpenAll(c, st, Disks(dirs), st.t).Ok?
    ensures AllShown(st, dirs, js, st.t, OpenAll(c, st, Disks(dirs), st.t).value)
    decreases |dirs|
  {
    hide OpenNs, Captured, Sane, ShowsMoment, SameSpace, AllShown, InLast;
    js := [];
    if dirs == [] {
      NoneShown(st, st.t);
    } else {
      var n := |dirs| - 1;
      js := OpenAllLive(c, st, dirs[..n]);
      assert Disks(dirs)[..n] == Disks(dirs[..n]);
      var t := OpenAll(c, st, Disks(dirs[..n]), st.t).value;
      assert Absent(dirs[..n], dirs[n].0);
      AbsentSame(st, dirs[..n], js, st.t, t, dirs[n].0);
      var j := OpenNsLive(c, st, dirs[n].0, dirs[n].1, t);
      ShownStep(st, dirs, js, j, t, OpenNs(c, st, dirs[n].0, DiskOf(dirs[n].1), t).value);
      js := js + [j];
    }
  }

  lemma NoneShown(st: Snapshots.State, t: Tables)
    ensures AllShown(st, [], [], t, t)
  {
  }

  lemma AbsentSame(st: Snapshots.State, dirs: seq<(Name, Story)>, js: seq<nat>, t0: Tables, t: Tables, ns: Name)
    requires AllShown(st, dirs, js, t0, t) && Absent(dirs, ns)
    ensures SameSpace(t0, t, ns)
  {
  }

  /** One more namespace opened. */
  lemma ShownStep(st: Snapshots.State, dirs: seq<(Name, Story)>, js: seq<nat>, j: nat, t: Tables, u: Tables)
    requires dirs != [] && Apart(dirs) && AllShown(st, dirs[..|dirs| - 1], js, st.t, t)
    requires ShowsMoment(st, dirs[|dirs| - 1].0, dirs[|dirs| - 1].1, j, u)
    requires forall n | n != dirs[|dirs| - 1].0 :: SameSpace(t, u, n)
    ensures AllShown(st, dirs, js + [j], st.t, u)
  {
    hide ShowsMoment, SameSpace;
    var n := |dirs| - 1;
    forall i | 0 <= i < n ensures ShowsMoment(st, dirs[i].0, dirs[i].1, js[i], u) {
      assert ShowsMoment(st, dirs[..n][i].0, dirs[..n][i].1, js[i], t);
      MomentStays(st, dirs[i].0, dirs[i].1, js[i], t, u);
    }
    forall m | Absent(dirs, m) ensures SameSpace(st.t, u, m) {
      assert dirs[n].0 != m && Absent(dirs[..n], m);
      SameTrans(st.t, t, u, m);
    }
  }

  lemma MomentStays(st: Snapshots.State, ns: Name, x: Story, j: nat, t: Tables, u: Tables)
    requires ShowsMoment(st, ns, x, j, t) && SameSpace(t, u, ns)
    ensures ShowsMoment(st, ns, x, j, u)
  {
    hide SameSpace, Run, Survivors;
    SameTrans(Run(x.p, ns, x.acts[..j], Begin(st, x)).t, t, u, ns);
  }

  /** Bytes to tables, the whole store. Take the snapshot bytes of a checkpoint of
      `st`; in every namespace do any safe writes; let the crash cut each last
      segment at any byte that leaves the checkpointed records. Opening from those
      bytes succeeds, and every namespace shows what the live store did when it
      had written the surviving records. */
  lemma CrashRestart(c: Crypto, m: Snapshots.Image, st: Snapshots.State, dirs: seq<(Name, Story)>) returns (js: seq<nat>)
    requires Snapshots.Describes(m, st) && Snapshots.ImageFits(false, m) && Snapshots.Closed(st)
    requires AllSane(c, st, dirs) && forall ns | ns in st.heads :: HasDir(Disks(dirs), ns)
    ensures var r := Open(c, Some(Snapshots.Save(false, m)), Disks(dirs)); r.Ok? && AllShown(st, dirs, js, st.t, r.value)
  {
    hide Snapshots.Describes, Snapshots.ImageFits, Snapshots.Closed, Captured, Sane, AllShown, OpenAll,
      Snapshots.LoadImage, Snapshots.Restore, Snapshots.Save, Snapshots.Known, HasDir, Disks;
    js := OpenAllLive(c, st, dirs);
    Snapshots.CheckpointRestores(m, st);
  }

  /** The same without any checkpoint. */
  lemma ColdRestart(c: Crypto, dirs: seq<(Name, Story)>) returns (js: seq<nat>)
    requires AllSane(c, NOTHING, dirs)
    ensures var r := Open(c, None, Disks(dirs)); r.Ok? && AllShown(NOTHING, dirs, js, NOTHING.t, r.value)
  {
    hide Captured, Sane, AllShown, OpenAll, HasDir, Disks;
    js := OpenAllLive(c, NOTHING, dirs);
  }
}
