/** Replay against live state: when rebuilding the tables from the log gives
    back what the running store held, including after a crash. */
module Replay {
  import opened ByteStrings
  import opened Records
  import opened StoreSpec

  // ---------- one operation ----------

  /** A local operation that replay treats alike: a put must not hit a
      tombstone nor be older than the version it replaces. */
  predicate ReplaySafe(p: Policy, ns: Name, op: Record, seqNo: nat, t: Tables) {
    var k := (ns, op.key);
    IsPut(op) ==>
      && k !in t.tombs
      && (p == LastWriter && k in t.index && t.index[k].Lww? ==> !Older(VersionOf(op, seqNo), t.index[k].v))
  }

  /** The two semantics agree on an operation exactly when it is safe. */
  lemma SafeIffSame(p: Policy, ns: Name, op: Record, seqNo: nat, t: Tables)
    requires Shaped(p, ns, t) && IsOpTag(op.tag)
    ensures LocalOp(p, ns, op, seqNo, t) == SyncOp(p, ns, op, seqNo, t) <==> ReplaySafe(p, ns, op, seqNo, t)
  {
    var k := (ns, op.key);
    var v := VersionOf(op, seqNo);
    var (a, b) := (LocalOp(p, ns, op, seqNo, t), SyncOp(p, ns, op, seqNo, t));
    LessIrreflexive(v.replica);
    if IsPut(op) {
      assert k !in a.t.tombs;
      if k !in t.tombs { assert t.tombs - {k} == t.tombs; }
      if p == LastWriter { assert a.t.index[k] == Lww(v); }
    }
  }

  // ---------- histories of operations ----------

  /** One operation of a history, carried by log record `seqNo`. */
  datatype Event = Event(local: bool, op: Record, seqNo: nat)

  function Live(p: Policy, ns: Name, es: seq<Event>, t: Tables): Tables {
    if es == [] then t
    else
      var e := es[|es| - 1];
      var before := Live(p, ns, es[..|es| - 1], t);
      if e.local then LocalOp(p, ns, e.op, e.seqNo, before).t else SyncOp(p, ns, e.op, e.seqNo, before).t
  }

  function Replayed(p: Policy, ns: Name, es: seq<Event>, t: Tables): Tables {
    if es == [] then t
    else
      var e := es[|es| - 1];
      SyncOp(p, ns, e.op, e.seqNo, Replayed(p, ns, es[..|es| - 1], t)).t
  }

  /** Every local operation was safe at the moment it was applied. */
  predicate AllSafe(p: Policy, ns: Name, es: seq<Event>, t: Tables) {
    es == [] ||
    var (init, e) := (es[..|es| - 1], es[|es| - 1]);
    AllSafe(p, ns, init, t) && (e.local ==> ReplaySafe(p, ns, e.op, e.seqNo, Live(p, ns, init, t)))
  }

  /** Replay gives the live tables after every prefix of the history. */
  predicate Tracks(p: Policy, ns: Name, es: seq<Event>, t: Tables) {
    Live(p, ns, es, t) == Replayed(p, ns, es, t) && (es == [] || Tracks(p, ns, es[..|es| - 1], t))
  }

  ghost predicate AllOps(es: seq<Event>) {
    forall i | 0 <= i < |es| :: IsOpTag(es[i].op.tag)
  }

  lemma {:induction false} LiveShaped(p: Policy, ns: Name, es: seq<Event>, t: Tables)
    requires Shaped(p, ns, t) && AllOps(es)
    ensures Shaped(p, ns, Live(p, ns, es, t))
    decreases |es|
  {
    hide LocalOp, SyncOp, Shaped;
    if es != [] {
      var n := |es| - 1;
      LiveShaped(p, ns, es[..n], t);
      OpKeepsShape(p, ns, es[n].op, es[n].seqNo, Live(p, ns, es[..n], t));
    }
  }

  /** Replay tracks the live store through every prefix of a history exactly
      when every local operation was safe at the moment it was applied. */
  lemma {:induction false} ReplayTracksLive(p: Policy, ns: Name, es: seq<Event>, t: Tables)
    requires Shaped(p, ns, t) && AllOps(es)
    ensures AllSafe(p, ns, es, t) <==> Tracks(p, ns, es, t)
    decreases |es|
  {
    hide LocalOp, SyncOp, Shaped, ReplaySafe;
    if es != [] {
      var n := |es| - 1;
      var before := Live(p, ns, es[..n], t);
      ReplayTracksLive(p, ns, es[..n], t);
      LiveShaped(p, ns, es[..n], t);
      SafeIffSame(p, ns, es[n].op, es[n].seqNo, before);
      OpKeepsShape(p, ns, es[n].op, es[n].seqNo, before);
    }
  }

  /** Put, delete, put on one key: the running store shows the second put,
      the reopened one shows nothing. */
  lemma PutDeletePut(p: Policy, ns: Name, put: Record, del: Record)
    requires IsPut(put) && del.tag == TAG_DEL && put.key == del.key
    ensures var es := [Event(true, put, 1), Event(true, del, 2), Event(true, put, 3)];
      var t0 := Tables(map[], map[]);
      && Get(Live(p, ns, es, t0), (ns, put.key)).Some?
      && Get(Replayed(p, ns, es, t0), (ns, put.key)).None?
  {
    var es := [Event(true, put, 1), Event(true, del, 2), Event(true, put, 3)];
    assert es[..2] == [Event(true, put, 1), Event(true, del, 2)];
    assert es[..2][..1] == [Event(true, put, 1)];
    assert es[..2][..1][..0] == [];
  }

  // ---------- runs of a namespace ----------

  /** A local write of one record (a put, a delete or a batch), or the arrival
      of a synced record. */
  datatype Action = Local(r: Record) | Synced(r: Record)

  function Perform(p: Policy, ns: Name, a: Action, s: Space): Space {
    match a
    case Local(r) => Space(s.log + [r], LocalOps(p, ns, Ops(r), |s.log| + 1, s.t).t)
    case Synced(r) => ApplySynced(p, ns, r, s)
  }

  function Run(p: Policy, ns: Name, acts: seq<Action>, s: Space): Space {
    if acts == [] then s else Perform(p, ns, acts[|acts| - 1], Run(p, ns, acts[..|acts| - 1], s))
  }

  function Mark(local: bool, ops: seq<Record>, seqNo: nat): (es: seq<Event>)
    ensures |es| == |ops|
    ensures forall i | 0 <= i < |ops| :: es[i] == Event(local, ops[i], seqNo)
  {
    if ops == [] then [] else Mark(local, ops[..|ops| - 1], seqNo) + [Event(local, ops[|ops| - 1], seqNo)]
  }

  /** The operations an action contributes; a duplicate contributes none. */
  function EventsOf(a: Action, s: Space): seq<Event> {
    match a
    case Local(r) => Mark(true, Ops(r), |s.log| + 1)
    case Synced(r) => if VersionKey(r) in LogVersions(s.log) then [] else Mark(false, Ops(r), |s.log| + 1)
  }

  function History(p: Policy, ns: Name, acts: seq<Action>, s: Space): seq<Event> {
    if acts == [] then []
    else
      var init := acts[..|acts| - 1];
      History(p, ns, init, s) + EventsOf(acts[|acts| - 1], Run(p, ns, init, s))
  }

  ghost predicate AllApplicableActs(acts: seq<Action>) {
    forall i | 0 <= i < |acts| :: Applicable(acts[i].r)
  }

  lemma {:induction false} LiveConcat(p: Policy, ns: Name, a: seq<Event>, b: seq<Event>, t: Tables)
    ensures Live(p, ns, a + b, t) == Live(p, ns, b, Live(p, ns, a, t))
    ensures Replayed(p, ns, a + b, t) == Replayed(p, ns, b, Replayed(p, ns, a, t))
    decreases |b|
  {
    hide LocalOp, SyncOp;
    if b == [] {
      assert a + b == a;
    } else {
      var n := |b| - 1;
      LiveConcat(p, ns, a, b[..n], t);
      assert (a + b)[..|a| + n] == a + b[..n];
    }
  }

  lemma {:induction false} MarkedOps(p: Policy, ns: Name, ops: seq<Record>, local: bool, seqNo: nat, t: Tables)
    requires Shaped(p, ns, t) && forall op | op in ops :: IsOpTag(op.tag)
    ensures Replayed(p, ns, Mark(local, ops, seqNo), t) == SyncOps(p, ns, ops, seqNo, t).t
    ensures Live(p, ns, Mark(local, ops, seqNo), t) == if local then LocalOps(p, ns, ops, seqNo, t).t else SyncOps(p, ns, ops, seqNo, t).t
    decreases |ops|
  {
    hide LocalOp, SyncOp, Shaped;
    OpsKeepShape(p, ns, ops, seqNo, t);
    if ops != [] {
      var n := |ops| - 1;
      OpsKeepShape(p, ns, ops[..n], seqNo, t);
      MarkedOps(p, ns, ops[..n], local, seqNo, t);
      assert Mark(local, ops, seqNo)[..n] == Mark(local, ops[..n], seqNo);
    }
  }

  lemma {:induction false} HistoryOps(p: Policy, ns: Name, acts: seq<Action>, s: Space)
    requires AllApplicableActs(acts)
    ensures AllOps(History(p, ns, acts, s))
    decreases |acts|
  {
    hide Run;
    if acts != [] {
      var n := |acts| - 1;
      HistoryOps(p, ns, acts[..n], s);
      ApplicableOps(acts[n].r);
    }
  }

  lemma PerformStep(p: Policy, ns: Name, a: Action, s: Space)
    requires Shaped(p, ns, s.t) && Applicable(a.r)
    ensures var e := Perform(p, ns, a, s);
      && Shaped(p, ns, e.t) && e.t == Live(p, ns, EventsOf(a, s), s.t)
      && (e.log == s.log + [a.r] || (e.log == s.log && EventsOf(a, s) == []))
  {
    hide LocalOps, SyncOps, Shaped, Mark, LogVersions;
    ApplicableOps(a.r);
    OpsKeepShape(p, ns, Ops(a.r), |s.log| + 1, s.t);
    MarkedOps(p, ns, Ops(a.r), a.Local?, |s.log| + 1, s.t);
  }

  /** The tables of a run are its history applied live. */
  lemma {:induction false} RunIsLive(p: Policy, ns: Name, acts: seq<Action>, s: Space)
    requires Shaped(p, ns, s.t) && AllApplicableActs(acts)
    ensures var e := Run(p, ns, acts, s);
      Shaped(p, ns, e.t) && s.log <= e.log && e.t == Live(p, ns, History(p, ns, acts, s), s.t)
    decreases |acts|
  {
    hide Perform, Shaped, EventsOf, Applicable;
    if acts != [] {
      var n := |acts| - 1;
      var m := Run(p, ns, acts[..n], s);
      RunIsLive(p, ns, acts[..n], s);
      PerformStep(p, ns, acts[n], m);
      LiveConcat(p, ns, History(p, ns, acts[..n], s), EventsOf(acts[n], m), s.t);
    }
  }

  lemma ReplayStep(p: Policy, ns: Name, a: Action, s: Space, t: Tables)
    requires Shaped(p, ns, t) && Applicable(a.r)
    requires Perform(p, ns, a, s).log == s.log + [a.r]
    ensures var u := SyncRecord(p, ns, a.r, |s.log| + 1, t).t;
      Shaped(p, ns, u) && u == Replayed(p, ns, EventsOf(a, s), t)
  {
    hide LocalOps, SyncOps, Shaped, Mark, LogVersions;
    ApplicableOps(a.r);
    OpsKeepShape(p, ns, Ops(a.r), |s.log| + 1, t);
    MarkedOps(p, ns, Ops(a.r), a.Local?, |s.log| + 1, t);
  }

  /** The log tail a run wrote, replayed, is the same history under sync
      semantics. */
  lemma {:induction false} TailIsReplayed(p: Policy, ns: Name, acts: seq<Action>, s: Space)
    requires Shaped(p, ns, s.t) && AllApplicableActs(acts)
    ensures var e := Run(p, ns, acts, s);
      && s.log <= e.log
      && Shaped(p, ns, SyncAll(p, ns, e.log[|s.log|..], |s.log|, s.t))
      && SyncAll(p, ns, e.log[|s.log|..], |s.log|, s.t) == Replayed(p, ns, History(p, ns, acts, s), s.t)
    decreases |acts|
  {
    hide Perform, Shaped, EventsOf, Applicable, SyncRecord;
    if acts != [] {
      var n := |acts| - 1;
      var m := Run(p, ns, acts[..n], s);
      TailIsReplayed(p, ns, acts[..n], s);
      RunIsLive(p, ns, acts[..n], s);
      PerformStep(p, ns, acts[n], m);
      var before := SyncAll(p, ns, m.log[|s.log|..], |s.log|, s.t);
      LiveConcat(p, ns, History(p, ns, acts[..n], s), EventsOf(acts[n], m), s.t);
      if Perform(p, ns, acts[n], m).log == m.log + [acts[n].r] {
        ReplayStep(p, ns, acts[n], m, before);
        TailSnoc(p, ns, s.log, m.log, acts[n].r, s.t);
      }
    }
  }

  lemma TailSnoc(p: Policy, ns: Name, base: seq<Record>, log: seq<Record>, r: Record, t: Tables)
    requires base <= log
    ensures SyncAll(p, ns, (log + [r])[|base|..], |base|, t) ==
      SyncRecord(p, ns, r, |log| + 1, SyncAll(p, ns, log[|base|..], |base|, t)).t
  {
    hide SyncRecord;
    var tail := (log + [r])[|base|..];
    assert tail == log[|base|..] + [r] && tail[..|tail| - 1] == log[|base|..];
  }

  /** Replay equals live: from a checkpointed state, any run whose local writes
      were safe is rebuilt exactly by replaying the log tail it wrote. */
  lemma ReplayEqualsLive(p: Policy, ns: Name, acts: seq<Action>, s: Space)
    requires Shaped(p, ns, s.t) && AllApplicableActs(acts)
    requires AllSafe(p, ns, History(p, ns, acts, s), s.t)
    ensures var e := Run(p, ns, acts, s);
      s.log <= e.log && SyncAll(p, ns, e.log[|s.log|..], |s.log|, s.t) == e.t
  {
    hide Run, SyncAll, Live, Replayed, AllSafe, Shaped;
    RunIsLive(p, ns, acts, s);
    TailIsReplayed(p, ns, acts, s);
    HistoryOps(p, ns, acts, s);
    var es := History(p, ns, acts, s);
    ReplayTracksLive(p, ns, es, s.t);
  }
}
