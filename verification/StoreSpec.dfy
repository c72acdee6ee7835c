/** What one operation does to the in-memory tables of a store: the local
    semantics of `apply_local_op` and the sync/replay semantics of
    `apply_record_op` (`storage/mod.rs`). */
module StoreSpec {
  import opened ByteStrings
  import opened Records

  type Name = Bytes
  type Key = Bytes
  type EntryKey = (Name, Key)

  /** One write to one key; `seqNo` is its record number in the log. */
  datatype Version = Version(hlc: U64, replica: Id32, author: Id32, value: Bytes, seqNo: nat, expiresAt: U64)

  datatype Entry = Lww(v: Version) | Register(vs: seq<Version>)

  datatype Policy = LastWriter | CrdtRegister

  datatype Tables = Tables(index: map<EntryKey, Entry>, tombs: map<EntryKey, U64>)

  /** The tables after an operation, and whether it was accepted. */
  datatype Applied = Applied(t: Tables, ok: bool)

  // ---------- the version order ----------

  predicate StampLess(h1: U64, r1: Id32, h2: U64, r2: Id32) {
    h1 < h2 || (h1 == h2 && Less(r1, r2))
  }

  predicate Older(a: Version, b: Version) {
    StampLess(a.hlc, a.replica, b.hlc, b.replica)
  }

  lemma StampTotal(h1: U64, r1: Id32, h2: U64, r2: Id32)
    ensures StampLess(h1, r1, h2, r2) || StampLess(h2, r2, h1, r1) || (h1 == h2 && r1 == r2)
  {
    LessTotal(r1, r2);
  }

  lemma StampTransitive(h1: U64, r1: Id32, h2: U64, r2: Id32, h3: U64, r3: Id32)
    requires !StampLess(h2, r2, h1, r1) && !StampLess(h3, r3, h2, r2)
    ensures !StampLess(h3, r3, h1, r1)
  {
    if StampLess(h3, r3, h1, r1) {
      StampTotal(h1, r1, h2, r2);
      StampTotal(h2, r2, h3, r3);
      LessIrreflexive(r1);
      if Less(r1, r2) && Less(r2, r3) { LessTransitive(r1, r2, r3); }
      if Less(r1, r3) && Less(r3, r1) { LessTransitive(r1, r3, r1); }
    }
  }

  // ---------- reads ----------

  function Get(t: Tables, k: EntryKey): Option<Entry> {
    if k in t.tombs || k !in t.index then None else Some(t.index[k])
  }

  /** The newest version; a later one wins a tie, as `max_by` does. */
  function Newest(vs: seq<Version>): (v: Version)
    requires vs != []
    ensures v in vs
  {
    var last := vs[|vs| - 1];
    if |vs| == 1 then last
    else
      var best := Newest(vs[..|vs| - 1]);
      if Older(last, best) then best else last
  }

  function Latest(e: Entry): Option<Version> {
    match e
    case Lww(v) => Some(v)
    case Register(vs) => if vs == [] then None else Some(Newest(vs))
  }

  // ---------- one operation ----------

  predicate IsPut(op: Record) {
    op.tag == TAG_PUT || op.tag == TAG_PUT_TTL
  }

  function VersionOf(op: Record, seqNo: nat): Version {
    Version(op.hlc, op.replica, op.author, op.value, seqNo, op.expiresAt)
  }

  /** A Register write appends a version; an entry of the other shape refuses. */
  function Push(index: map<EntryKey, Entry>, k: EntryKey, v: Version): Option<map<EntryKey, Entry>> {
    if k !in index then Some(index[k := Register([v])])
    else match index[k]
      case Register(vs) => Some(index[k := Register(vs + [v])])
      case Lww(_) => None
  }

  /** A local write is new intent: it lifts the tombstone and overwrites. */
  function LocalOp(p: Policy, ns: Name, op: Record, seqNo: nat, t: Tables): Applied {
    var k := (ns, op.key);
    var v := VersionOf(op, seqNo);
    if IsPut(op) then
      var tombs := t.tombs - {k};
      match p
      case LastWriter => Applied(Tables(t.index[k := Lww(v)], tombs), true)
      case CrdtRegister =>
        match Push(t.index, k, v)
        case Some(index) => Applied(Tables(index, tombs), true)
        case None => Applied(Tables(t.index, tombs), false)
    else if op.tag == TAG_DEL then
      Applied(Tables(t.index - {k}, t.tombs[k := op.hlc]), true)
    else
      Applied(t, false)
  }

  /** A synced or replayed write never lifts a tombstone, and under last-writer
      replaces the stored version only when it is not older. */
  function SyncOp(p: Policy, ns: Name, op: Record, seqNo: nat, t: Tables): Applied {
    var k := (ns, op.key);
    var v := VersionOf(op, seqNo);
    if IsPut(op) then
      match p
      case LastWriter =>
        if k in t.index && t.index[k].Lww? && Older(v, t.index[k].v) then Applied(t, true)
        else Applied(t.(index := t.index[k := Lww(v)]), true)
      case CrdtRegister =>
        match Push(t.index, k, v)
        case Some(index) => Applied(t.(index := index), true)
        case None => Applied(t, false)
    else if op.tag == TAG_DEL then
      Applied(Tables(t.index - {k}, t.tombs[k := op.hlc]), true)
    else
      Applied(t, false)
  }

  // ---------- a list of operations, stopping at the first refusal ----------

  function LocalOps(p: Policy, ns: Name, ops: seq<Record>, seqNo: nat, t: Tables): Applied
    decreases |ops|
  {
    if ops == [] then Applied(t, true)
    else
      var a := LocalOps(p, ns, ops[..|ops| - 1], seqNo, t);
      if !a.ok then a else LocalOp(p, ns, ops[|ops| - 1], seqNo, a.t)
  }

  function SyncOps(p: Policy, ns: Name, ops: seq<Record>, seqNo: nat, t: Tables): Applied
    decreases |ops|
  {
    if ops == [] then Applied(t, true)
    else
      var a := SyncOps(p, ns, ops[..|ops| - 1], seqNo, t);
      if !a.ok then a else SyncOp(p, ns, ops[|ops| - 1], seqNo, a.t)
  }

  /** The operations that take effect: all before the first refusal. */
  function Taken(p: Policy, ns: Name, ops: seq<Record>, seqNo: nat, t: Tables): seq<Record>
    decreases |ops|
  {
    if ops == [] then []
    else
      var front := ops[..|ops| - 1];
      var a := SyncOps(p, ns, front, seqNo, t);
      if !a.ok then Taken(p, ns, front, seqNo, t)
      else if SyncOp(p, ns, ops[|ops| - 1], seqNo, a.t).ok then ops
      else front
  }

  /** The data operations a record carries. */
  function Ops(r: Record): seq<Record> {
    if r.tag == TAG_BATCH then r.ops else if IsOpTag(r.tag) then [r] else []
  }

  /** `apply_record`: schema and index definitions do not touch the tables. */
  function SyncRecord(p: Policy, ns: Name, r: Record, seqNo: nat, t: Tables): Applied {
    if ValidTag(r.tag) then SyncOps(p, ns, Ops(r), seqNo, t) else Applied(t, false)
  }

  /** Apply records numbered from `n0 + 1`. */
  function SyncAll(p: Policy, ns: Name, rs: seq<Record>, n0: nat, t: Tables): Tables
    decreases |rs|
  {
    if rs == [] then t
    else SyncRecord(p, ns, rs[|rs| - 1], n0 + |rs|, SyncAll(p, ns, rs[..|rs| - 1], n0, t)).t
  }

  // ---------- entries have the shape their policy asks for ----------

  ghost predicate Shaped(p: Policy, ns: Name, t: Tables) {
    forall k | k in t.index && k.0 == ns ::
      if p == LastWriter then t.index[k].Lww? else t.index[k].Register? && t.index[k].vs != []
  }

  /** A record `apply_record` accepts: an operation, a batch of operations, a
      schema or an index definition. */
  predicate Applicable(r: Record) {
    ValidTag(r.tag) && (r.tag == TAG_BATCH ==> forall op | op in r.ops :: IsOpTag(op.tag))
  }

  ghost predicate AllApplicable(rs: seq<Record>) {
    forall i | 0 <= i < |rs| :: Applicable(rs[i])
  }

  lemma ApplicableOps(r: Record)
    requires Applicable(r)
    ensures ValidTag(r.tag) && forall op | op in Ops(r) :: IsOpTag(op.tag)
  {
  }

  lemma OpKeepsShape(p: Policy, ns: Name, op: Record, seqNo: nat, t: Tables)
    requires Shaped(p, ns, t) && IsOpTag(op.tag)
    ensures var a := LocalOp(p, ns, op, seqNo, t); a.ok && Shaped(p, ns, a.t)
    ensures var a := SyncOp(p, ns, op, seqNo, t); a.ok && Shaped(p, ns, a.t)
  {
  }

  lemma {:induction false} OpsKeepShape(p: Policy, ns: Name, ops: seq<Record>, seqNo: nat, t: Tables)
    requires Shaped(p, ns, t) && forall op | op in ops :: IsOpTag(op.tag)
    ensures var a := LocalOps(p, ns, ops, seqNo, t); a.ok && Shaped(p, ns, a.t)
    ensures var a := SyncOps(p, ns, ops, seqNo, t); a.ok && Shaped(p, ns, a.t)
    decreases |ops|
  {
    hide LocalOp, SyncOp, Shaped;
    if ops != [] {
      var n := |ops| - 1;
      OpsKeepShape(p, ns, ops[..n], seqNo, t);
      OpKeepsShape(p, ns, ops[n], seqNo, LocalOps(p, ns, ops[..n], seqNo, t).t);
      OpKeepsShape(p, ns, ops[n], seqNo, SyncOps(p, ns, ops[..n], seqNo, t).t);
    }
  }

  // ---------- the deduplicating log ----------

  /** A namespace's log together with the tables it feeds. */
  datatype Space = Space(log: seq<Record>, t: Tables)

  type Identity = (Byte, U64, Id32)

  function VersionKey(r: Record): Identity {
    (r.tag, r.hlc, r.replica)
  }

  function LogVersions(log: seq<Record>): set<Identity> {
    set r | r in log :: VersionKey(r)
  }

  /** `apply_synced`: the log is the dedupe authority. */
  function ApplySynced(p: Policy, ns: Name, r: Record, s: Space): Space {
    if VersionKey(r) in LogVersions(s.log) then s
    else Space(s.log + [r], SyncRecord(p, ns, r, |s.log| + 1, s.t).t)
  }

  function ApplyAll(p: Policy, ns: Name, rs: seq<Record>, s: Space): Space
    decreases |rs|
  {
    if rs == [] then s else ApplySynced(p, ns, rs[|rs| - 1], ApplyAll(p, ns, rs[..|rs| - 1], s))
  }
}
