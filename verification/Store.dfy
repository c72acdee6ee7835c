/** The store object (`storage/mod.rs`, struct `Store`): its maps are updated in
    place by the methods below, each proved against the value-level
    specifications of `StoreSpec`, `SecondaryIndex` and `Compaction`. A log is
    its list of records; `DurableLog` and `Reopen` relate that list to bytes. */
module Store {
  import opened ByteStrings
  import opened Records
  import opened StoreSpec
  import opened Replay
  import opened SecondaryIndex
  import opened Compaction
  import opened GcIndex
  import Convergence

  datatype Reply<+T> = Done(value: T) | BadName | NotFound | Refused {
    predicate IsFailure() { !Done? }
    function PropagateFailure<U>(): Reply<U>
      requires IsFailure()
    {
      match this
      case BadName => BadName
      case NotFound => NotFound
      case Refused => Refused
    }
    function Extract(): T
      requires Done?
    {
      value
    }
  }

  predicate IsLowerDigit(b: Byte) {
    97 <= b <= 122 || 48 <= b <= 57
  }

  predicate IsHexDigit(b: Byte) {
    48 <= b <= 57 || 97 <= b <= 102 || 65 <= b <= 70
  }

  /** Flat names of up to 64 characters, or the owner form `u/` and 64 hex digits. */
  predicate ValidNs(ns: Name) {
    || (1 <= |ns| <= 64 && forall i | 0 <= i < |ns| :: IsLowerDigit(ns[i]) || ns[i] == 46 || ns[i] == 95 || ns[i] == 45)
    || (|ns| == 66 && ns[0] == 117 && ns[1] == 47 && forall i | 2 <= i < 66 :: IsHexDigit(ns[i]))
  }

  // ---------- the store as a value ----------

  /** What a store holds, its files and schemas aside. */
  datatype Db = Db(
    policies: map<Name, Policy>, logs: map<Name, seq<Record>>, t: Tables,
    defs: map<Name, Bytes>, sec: Sec, clocks: map<Name, int>)

  /** A store call's verdict and the store it leaves. */
  datatype Effect = Effect(ok: bool, db: Db)

  /** A local put or delete. */
  function WriteOp(ex: Extract, parse: Bytes -> seq<Field>, db: Db, ns: Name, op: Record): Effect {
    if ns !in db.logs || ns !in db.policies then Effect(false, db)
    else
      var seqNo := |db.logs[ns]| + 1;
      var x := IndexedOp(ex, db.policies[ns], ns, FieldList(parse, db.defs, ns), Event(true, op, seqNo), Indexed(db.t, db.sec));
      Effect(
        LocalOp(db.policies[ns], ns, op, seqNo, db.t).ok,
        db.(logs := db.logs[ns := db.logs[ns] + [op]], t := x.t, sec := x.sec))
  }

  /** A new or cleared index definition, logged as record `r`; `keys` enumerates the
      live keys of the namespace. */
  function DefineIndex(ex: Extract, parse: Bytes -> seq<Field>, db: Db, ns: Name, def: Option<Bytes>, r: Record, keys: seq<Key>): Effect {
    if ns !in db.logs || ns !in db.policies then Effect(false, db)
    else
      var defs := if def.Some? then db.defs[ns := def.value] else db.defs - {ns};
      var sec := Rebuild(ex, db.sec, ns, FieldList(parse, defs, ns), keys, db.t);
      Effect(true, db.(logs := db.logs[ns := db.logs[ns] + [r]], defs := defs, sec := sec))
  }

  function NewNs(db: Db, ns: Name, policy: Policy): Effect {
    if !ValidNs(ns) || ns in db.policies then Effect(false, db)
    else Effect(true, db.(policies := db.policies[ns := policy], logs := db.logs[ns := []]))
  }

  // ---------- index definitions and the index ----------

  function FieldList(parse: Bytes -> seq<Field>, defs: map<Name, Bytes>, ns: Name): seq<Field> {
    if ns in defs then parse(defs[ns]) else []
  }

  function Redefine(defs: map<Name, Bytes>, ns: Name, value: Bytes): map<Name, Bytes> {
    if value == [] then defs - {ns} else defs[ns := value]
  }

  /** `sec` is `before` rebuilt for `ns` over its live keys. */
  ghost predicate IsRebuild(ex: Extract, before: Sec, sec: Sec, ns: Name, fields: seq<Field>, t: Tables) {
    exists keys :: RebuiltOver(ex, before, sec, ns, fields, t, keys)
  }

  ghost predicate RebuiltOver(ex: Extract, before: Sec, sec: Sec, ns: Name, fields: seq<Field>, t: Tables, keys: seq<Key>) {
    (fields != [] ==> LiveKeys(t, ns, keys)) && sec == Rebuild(ex, before, ns, fields, keys, t)
  }

  /** Tables, index and index definitions of a store. */
  datatype View = View(x: Indexed, defs: map<Name, Bytes>)

  /** One record that is not a duplicate: its operations update tables and index
      together, up to the first refused; an index definition rebuilds the index;
      anything else does neither. */
  ghost predicate RecordTo(ex: Extract, parse: Bytes -> seq<Field>, p: Policy, ns: Name, r: Record, seqNo: nat, v: View, w: View) {
    if r.tag == TAG_INDEX then
      && w.x.t == v.x.t && w.defs == Redefine(v.defs, ns, r.value)
      && IsRebuild(ex, v.x.sec, w.x.sec, ns, FieldList(parse, w.defs, ns), w.x.t)
    else
      && w.defs == v.defs
      && w.x == IndexedRun(ex, p, ns, FieldList(parse, v.defs, ns), Mark(false, Taken(p, ns, Ops(r), seqNo, v.x.t), seqNo), v.x)
  }

  /** Records in order, duplicates of the log skipped. */
  ghost predicate RecordsTo(ex: Extract, parse: Bytes -> seq<Field>, p: Policy, ns: Name, rs: seq<Record>, log: seq<Record>, v: View, w: View)
    decreases |rs|
  {
    if rs == [] then w == v
    else
      var n := |rs| - 1;
      var before := Convergence.Fresh(rs[..n], LogVersions(log));
      exists u ::
        && RecordsTo(ex, parse, p, ns, rs[..n], log, v, u)
        && if VersionKey(rs[n]) in LogVersions(log) + LogVersions(rs[..n]) then w == u
           else RecordTo(ex, parse, p, ns, rs[n], |log| + |before| + 1, u, w)
  }

  /** Records other than index definitions keep an exact index exact. */
  lemma {:induction false} RecordsKeepExact(ex: Extract, parse: Bytes -> seq<Field>, p: Policy, ns: Name,
      rs: seq<Record>, log: seq<Record>, v: View, w: View)
    requires RecordsTo(ex, parse, p, ns, rs, log, v, w) && AllApplicable(rs) && Shaped(p, ns, v.x.t)
    requires forall i | 0 <= i < |rs| :: rs[i].tag != TAG_INDEX
    requires Exact(ex, v.x.sec, v.x.t, ns, FieldList(parse, v.defs, ns))
    ensures w.defs == v.defs && Shaped(p, ns, w.x.t) && Exact(ex, w.x.sec, w.x.t, ns, FieldList(parse, w.defs, ns))
    decreases |rs|
  {
    hide Exact, Shaped, RecordTo, Applicable, Convergence.Fresh, LogVersions, VersionKey;
    if rs != [] {
      var n := |rs| - 1;
      var before := Convergence.Fresh(rs[..n], LogVersions(log));
      var u :| RecordsTo(ex, parse, p, ns, rs[..n], log, v, u)
        && if VersionKey(rs[n]) in LogVersions(log) + LogVersions(rs[..n]) then w == u
           else RecordTo(ex, parse, p, ns, rs[n], |log| + |before| + 1, u, w);
      RecordsKeepExact(ex, parse, p, ns, rs[..n], log, v, u);
      if VersionKey(rs[n]) !in LogVersions(log) + LogVersions(rs[..n]) {
        RecordKeepsExact(ex, parse, p, ns, rs[n], |log| + |before| + 1, u, w);
      }
    }
  }

  lemma RecordKeepsExact(ex: Extract, parse: Bytes -> seq<Field>, p: Policy, ns: Name, r: Record, seqNo: nat, v: View, w: View)
    requires RecordTo(ex, parse, p, ns, r, seqNo, v, w) && Applicable(r) && r.tag != TAG_INDEX && Shaped(p, ns, v.x.t)
    requires Exact(ex, v.x.sec, v.x.t, ns, FieldList(parse, v.defs, ns))
    ensures w.defs == v.defs && Shaped(p, ns, w.x.t) && Exact(ex, w.x.sec, w.x.t, ns, FieldList(parse, w.defs, ns))
  {
    hide Exact, Shaped, IndexedRun, Taken, Ops, Applicable, Mark;
    OpEvents(r, seqNo);
    TakesApplicable(p, ns, r, seqNo, v.x.t);
    RunKeepsExact(ex, p, ns, FieldList(parse, v.defs, ns), Mark(false, Ops(r), seqNo), v.x);
  }

  /** The index definition in force stays the one the log leaves. */
  lemma {:induction false} DefinitionFollowsLog(ex: Extract, parse: Bytes -> seq<Field>, p: Policy, ns: Name,
      rs: seq<Record>, log: seq<Record>, v: View, w: View)
    requires RecordsTo(ex, parse, p, ns, rs, log, v, w) && InForce(v.defs, ns) == Convergence.Definition(TAG_INDEX, log)
    ensures InForce(w.defs, ns) == Convergence.Definition(TAG_INDEX, log + Convergence.Fresh(rs, LogVersions(log)))
    decreases |rs|
  {
    hide RecordTo, InForce, LogVersions, VersionKey, Convergence.Definition;
    if rs == [] {
      assert log + [] == log;
    } else {
      var n := |rs| - 1;
      var before := Convergence.Fresh(rs[..n], LogVersions(log));
      var u :| RecordsTo(ex, parse, p, ns, rs[..n], log, v, u)
        && if VersionKey(rs[n]) in LogVersions(log) + LogVersions(rs[..n]) then w == u
           else RecordTo(ex, parse, p, ns, rs[n], |log| + |before| + 1, u, w);
      DefinitionFollowsLog(ex, parse, p, ns, rs[..n], log, v, u);
      if VersionKey(rs[n]) !in LogVersions(log) + LogVersions(rs[..n]) {
        RecordDefines(ex, parse, p, ns, rs[n], |log| + |before| + 1, u, w);
        Convergence.DefinitionSnoc(TAG_INDEX, log + before, rs[n]);
        assert log + before + [rs[n]] == log + (before + [rs[n]]);
      }
    }
  }

  lemma RecordDefines(ex: Extract, parse: Bytes -> seq<Field>, p: Policy, ns: Name, r: Record, seqNo: nat, v: View, w: View)
    requires RecordTo(ex, parse, p, ns, r, seqNo, v, w)
    ensures InForce(w.defs, ns) ==
      if r.tag != TAG_INDEX then InForce(v.defs, ns) else if r.value == [] then None else Some(r.value)
  {
    hide IndexedRun, IsRebuild, Taken;
  }

  function InForce(defs: map<Name, Bytes>, ns: Name): Option<Bytes> {
    if ns in defs then Some(defs[ns]) else None
  }

  /** No indexed row belongs to a key without a live entry. */
  ghost predicate NoDeadRow(sec: Sec, t: Tables, ns: Name, fields: seq<Field>) {
    forall f, row | f in fields && row in Rows(sec, ns, f) :: (ns, row.1) in t.index && Latest(t.index[(ns, row.1)]).Some?
  }

  /** A replayed or synced index definition makes the index exact exactly when
      the fields it lists have no rows of dead keys left over. */
  lemma DefinitionExactIff(ex: Extract, parse: Bytes -> seq<Field>, p: Policy, ns: Name, r: Record, seqNo: nat, v: View, w: View)
    requires RecordTo(ex, parse, p, ns, r, seqNo, v, w) && r.tag == TAG_INDEX
    requires forall f | f in FieldList(parse, w.defs, ns) :: Sorted(Rows(v.x.sec, ns, f))
    ensures var fields := FieldList(parse, w.defs, ns);
      Exact(ex, w.x.sec, w.x.t, ns, fields) <==> NoDeadRow(v.x.sec, v.x.t, ns, fields)
  {
    hide Sorted, Rebuild, FieldList, Latest, Redefine, FieldExact;
    var fields := FieldList(parse, w.defs, ns);
    var keys :| RebuiltOver(ex, v.x.sec, w.x.sec, ns, fields, w.x.t, keys);
    if fields != [] { RebuildExact(ex, v.x.sec, ns, fields, keys, w.x.t); }
  }

  lemma OpEvents(r: Record, seqNo: nat)
    requires Applicable(r)
    ensures AllOps(Mark(false, Ops(r), seqNo))
  {
    hide Mark;
    var ops := Ops(r);
    forall i | 0 <= i < |ops| ensures IsOpTag(ops[i].tag) { assert ops[i] in ops; }
  }

  /** No entry stands outside the namespaces. */
  ghost predicate Homed(policies: map<Name, Policy>, t: Tables) {
    forall k: EntryKey | k in t.index :: k.0 in policies
  }

  class Store {
    const ex: Extract
    const parseFields: Bytes -> seq<Field>
    var policies: map<Name, Policy>
    var logs: map<Name, seq<Record>>
    var index: map<EntryKey, Entry>
    var tombs: map<EntryKey, U64>
    var schemas: map<Name, Bytes>
    var defs: map<Name, Bytes>
    var sec: Sec
    var peerClocks: map<Name, int>
    var revision: nat

    ghost function T(): Tables
      reads this
    {
      Tables(index, tombs)
    }

    ghost function Both(): Indexed
      reads this
    {
      Indexed(T(), sec)
    }

    function IndexFields(ns: Name): seq<Field>
      reads this
    {
      FieldList(parseFields, defs, ns)
    }

    ghost function Value(): Db
      reads this
    {
      Db(policies, logs, T(), defs, sec, peerClocks)
    }

    ghost function Seen(): View
      reads this
    {
      View(Both(), defs)
    }

    /** Every namespace has a log, its entries the shape its policy asks for, and
        no entry stands outside the namespaces. */
    ghost predicate Valid()
      reads this
    {
      && policies.Keys == logs.Keys
      && (forall ns | ns in policies :: Shaped(policies[ns], ns, T()))
      && Homed(policies, T())
    }

    constructor (ex: Extract, parseFields: Bytes -> seq<Field>)
      ensures Valid() && this.ex == ex && this.parseFields == parseFields
      ensures policies == map[] && T() == Tables(map[], map[]) && sec == map[] && peerClocks == map[]
    {
      this.ex, this.parseFields := ex, parseFields;
      policies, logs, index, tombs, schemas, defs, sec := map[], map[], map[], map[], map[], map[], map[];
      peerClocks, revision := map[], 0;
    }

    // ---------- secondary index ----------

    method RemoveFromSecIndex(ns: Name, key: Key)
      modifies this`sec
      ensures sec == RemoveKey(old(sec), ns, IndexFields(ns), key)
    {
      var fields := IndexFields(ns);
      for i := 0 to |fields|
        invariant sec == RemoveKey(old(sec), ns, fields[..i], key)
      {
        assert fields[..i + 1][..i] == fields[..i];
        if (ns, fields[i]) in sec {
          sec := sec[(ns, fields[i]) := DropKey(sec[(ns, fields[i])], key)];
        }
      }
      assert fields[..|fields|] == fields;
    }

    method AddToSecIndex(ns: Name, fields: seq<Field>, key: Key, value: Bytes)
      modifies this`sec
      ensures sec == AddFields(ex, old(sec), ns, fields, value, key)
    {
      for i := 0 to |fields|
        invariant sec == AddFields(ex, old(sec), ns, fields[..i], value, key)
      {
        var values := ex(value, fields[i]);
        ghost var before := sec;
        for j := 0 to |values|
          invariant sec == AddValues(before, ns, fields[i], values[..j], key)
        {
          assert values[..j + 1][..j] == values[..j];
          sec := sec[(ns, fields[i]) := Insert(Rows(sec, ns, fields[i]), (values[j], key))];
        }
        assert values[..|values|] == values;
        assert fields[..i + 1][..i] == fields[..i];
      }
      assert fields[..|fields|] == fields;
    }

    method RefreshSecIndexFor(ns: Name, key: Key)
      modifies this`sec
      ensures sec == Refresh(ex, old(sec), ns, IndexFields(ns), key, T())
    {
      RemoveFromSecIndex(ns, key);
      var fields := IndexFields(ns);
      if fields == [] { return; }
      var value := Shown(Tables(index, tombs), ns, key);
      match value {
        case None =>
        case Some(v) => AddToSecIndex(ns, fields, key, v);
      }
    }

    // ---------- one operation ----------

    /** Local write semantics, then the index. */
    method ApplyLocalOp(ns: Name, op: Record, seqNo: nat) returns (res: Reply<()>)
      modifies this`index, this`tombs, this`sec, this`revision
      ensures ns !in policies ==> res == BadName && Both() == old(Both()) && revision == old(revision)
      ensures ns in policies ==>
        var a := LocalOp(policies[ns], ns, op, seqNo, old(T()));
        && (res == if a.ok then Done(()) else Refused)
        && Both() == IndexedOp(ex, policies[ns], ns, IndexFields(ns), Event(true, op, seqNo), old(Both()))
        && revision == old(revision) + (if a.ok then 1 else 0)
    {
      hide Refresh, RemoveKey;
      if ns !in policies { return BadName; }
      var k := (ns, op.key);
      if IsPut(op) {
        var v := VersionOf(op, seqNo);
        tombs := tombs - {k};
        match policies[ns] {
          case LastWriter => index := index[k := Lww(v)];
          case CrdtRegister =>
            if k in index {
              match index[k] {
                case Register(vs) => index := index[k := Register(vs + [v])];
                case Lww(_) => return Refused;
              }
            } else {
              index := index[k := Register([v])];
            }
        }
        RefreshSecIndexFor(ns, op.key);
      } else if op.tag == TAG_DEL {
        index := index - {k};
        tombs := tombs[k := op.hlc];
        RemoveFromSecIndex(ns, op.key);
      } else {
        return Refused;
      }
      revision := revision + 1;
      return Done(());
    }

    /** Sync and replay semantics, then the index. */
    method ApplyRecordOp(ns: Name, op: Record, seqNo: nat) returns (res: Reply<()>)
      modifies this`index, this`tombs, this`sec
      ensures ns !in policies ==> res == BadName && Both() == old(Both())
      ensures ns in policies ==>
        var a := SyncOp(policies[ns], ns, op, seqNo, old(T()));
        && (res == if a.ok then Done(()) else Refused)
        && Both() == IndexedOp(ex, policies[ns], ns, IndexFields(ns), Event(false, op, seqNo), old(Both()))
    {
      hide Refresh, RemoveKey;
      if ns !in policies { return BadName; }
      var k := (ns, op.key);
      if IsPut(op) {
        var v := VersionOf(op, seqNo);
        match policies[ns] {
          case LastWriter =>
            var newer := true;
            if k in index && index[k].Lww? { newer := !Older(v, index[k].v); }
            if newer { index := index[k := Lww(v)]; }
          case CrdtRegister =>
            if k in index {
              match index[k] {
                case Register(vs) => index := index[k := Register(vs + [v])];
                case Lww(_) => return Refused;
              }
            } else {
              index := index[k := Register([v])];
            }
        }
        RefreshSecIndexFor(ns, op.key);
      } else if op.tag == TAG_DEL {
        index := index - {k};
        tombs := tombs[k := op.hlc];
        RemoveFromSecIndex(ns, op.key);
      } else {
        return Refused;
      }
      return Done(());
    }

    // ---------- local writes ----------

    method CreateNamespace(ns: Name, policy: Policy) returns (res: Reply<()>)
      requires Valid()
      modifies this`policies, this`logs, this`revision
      ensures Valid()
      ensures res.Done? <==> ValidNs(ns) && ns !in old(policies)
      ensures !ValidNs(ns) ==> res == BadName
      ensures Effect(res.Done?, Value()) == NewNs(old(Value()), ns, policy)
    {
      if !ValidNs(ns) { return BadName; }
      if ns in policies { return Refused; }
      policies := policies[ns := policy];
      logs := logs[ns := []];
      revision := revision + 1;
      return Done(());
    }

    method Put(ns: Name, key: Key, value: Bytes, hlc: U64, replica: Id32, author: Id32, expiresAt: U64) returns (res: Reply<nat>)
      requires Valid()
      modifies this`logs, this`index, this`tombs, this`sec, this`revision
      ensures Valid()
      ensures res.Done? <==> ns in old(logs)
      ensures var op := Record(if expiresAt == 0 then TAG_PUT else TAG_PUT_TTL, key, hlc, replica, author, value, expiresAt, []);
        Canonical(op) && Effect(res.Done?, Value()) == WriteOp(ex, parseFields, old(Value()), ns, op)
      ensures ns in old(logs) ==>
        var op := Record(if expiresAt == 0 then TAG_PUT else TAG_PUT_TTL, key, hlc, replica, author, value, expiresAt, []);
        && res == Done(|old(logs)[ns]| + 1)
        && T() == Perform(policies[ns], ns, Local(op), Space(old(logs)[ns], old(T()))).t
    {
      hide Refresh, RemoveKey, Shaped, Homed;
      if ns !in logs { return NotFound; }
      var op := Record(if expiresAt == 0 then TAG_PUT else TAG_PUT_TTL, key, hlc, replica, author, value, expiresAt, []);
      var seqNo := |logs[ns]| + 1;
      SingleOp(policies[ns], ns, op, seqNo, T());
      OpKeepsAllShapes(policies, ns, op, seqNo, T());
      OpKeepsShape(policies[ns], ns, op, seqNo, T());
      logs := logs[ns := logs[ns] + [op]];
      var applied := ApplyLocalOp(ns, op, seqNo);
      return Done(seqNo);
    }

    method Delete(ns: Name, key: Key, hlc: U64, replica: Id32, author: Id32) returns (res: Reply<nat>)
      requires Valid()
      modifies this`logs, this`index, this`tombs, this`sec, this`revision
      ensures Valid()
      ensures res.Done? <==> ns in policies
      ensures var op := Record(TAG_DEL, key, hlc, replica, author, [], 0, []);
        Canonical(op) && Effect(res.Done?, Value()) == WriteOp(ex, parseFields, old(Value()), ns, op)
      ensures ns in policies ==>
        var op := Record(TAG_DEL, key, hlc, replica, author, [], 0, []);
        && res == Done(|old(logs)[ns]| + 1)
        && T() == Perform(policies[ns], ns, Local(op), Space(old(logs)[ns], old(T()))).t
    {
      hide Refresh, RemoveKey, Shaped, Homed;
      if ns !in policies { return BadName; }
      var op := Record(TAG_DEL, key, hlc, replica, author, [], 0, []);
      var seqNo := |logs[ns]| + 1;
      SingleOp(policies[ns], ns, op, seqNo, T());
      OpKeepsAllShapes(policies, ns, op, seqNo, T());
      logs := logs[ns := logs[ns] + [op]];
      var applied := ApplyLocalOp(ns, op, seqNo);
      return Done(seqNo);
    }

    /** Operations in order, up to the first one refused. */
    method ApplyLocalOps(ns: Name, ops: seq<Record>, seqNo: nat) returns (ok: bool)
      requires Valid() && ns in policies
      modifies this`index, this`tombs, this`sec, this`revision
      ensures Valid()
      ensures LocalOps(policies[ns], ns, ops, seqNo, old(T())) == Applied(T(), ok)
      ensures ok ==> Both() == IndexedRun(ex, policies[ns], ns, IndexFields(ns), Mark(true, ops, seqNo), old(Both()))
    {
      hide IndexedOp, LocalOp, Shaped, LocalOps, IndexedRun, Mark, Homed;
      OpsStart(ex, policies[ns], ns, IndexFields(ns), true, seqNo, Both());
      assert ops[..0] == [];
      for i := 0 to |ops|
        invariant Valid()
        invariant LocalOps(policies[ns], ns, ops[..i], seqNo, old(T())) == Applied(T(), true)
        invariant Both() == IndexedRun(ex, policies[ns], ns, IndexFields(ns), Mark(true, ops[..i], seqNo), old(Both()))
      {
        assert ops[..i + 1] == ops[..i] + [ops[i]];
        OpsStep(ex, policies[ns], ns, IndexFields(ns), true, ops[..i], ops[i], seqNo, old(Both()));
        OpKeepsAllShapes(policies, ns, ops[i], seqNo, T());
        IndexedOpTables(ex, policies[ns], ns, IndexFields(ns), Event(true, ops[i], seqNo), Both());
        var one := ApplyLocalOp(ns, ops[i], seqNo);
        if !one.Done? {
          LocalRefused(policies[ns], ns, ops, i, seqNo, old(T()));
          return false;
        }
      }
      assert ops[..|ops|] == ops;
      return true;
    }

    /** A batch is one record, applied with local semantics. */
    method PutBatch(ns: Name, ops: seq<Record>) returns (res: Reply<nat>)
      requires Valid()
      modifies this`logs, this`index, this`tombs, this`sec, this`revision
      ensures Valid()
      ensures ops == [] || ns !in policies ==> res == BadName && logs == old(logs) && Both() == old(Both())
      ensures ops != [] && ns in policies ==>
        var seqNo := |old(logs)[ns]| + 1;
        var a := LocalOps(policies[ns], ns, ops, seqNo, old(T()));
        && logs == old(logs)[ns := old(logs)[ns] + [BatchOf(ops)]]
        && T() == a.t == Perform(policies[ns], ns, Local(BatchOf(ops)), Space(old(logs)[ns], old(T()))).t
        && (res == if a.ok then Done(seqNo) else Refused)
        && (a.ok ==> Both() == IndexedRun(ex, policies[ns], ns, IndexFields(ns), Mark(true, ops, seqNo), old(Both())))
    {
      hide IndexedRun, LocalOps, Shaped;
      if ops == [] || ns !in policies { return BadName; }
      var seqNo := |logs[ns]| + 1;
      logs := logs[ns := logs[ns] + [BatchOf(ops)]];
      var ok := ApplyLocalOps(ns, ops, seqNo);
      return if ok then Done(seqNo) else Refused;
    }

    // ---------- replay and sync ----------

    method ApplyRecordOps(ns: Name, ops: seq<Record>, seqNo: nat) returns (ok: bool)
      requires Valid() && ns in policies
      modifies this`index, this`tombs, this`sec
      ensures Valid()
      ensures SyncOps(policies[ns], ns, ops, seqNo, old(T())) == Applied(T(), ok)
      ensures Both() ==
        IndexedRun(ex, policies[ns], ns, IndexFields(ns), Mark(false, Taken(policies[ns], ns, ops, seqNo, old(T())), seqNo), old(Both()))
    {
      hide IndexedOp, SyncOp, Shaped, SyncOps, IndexedRun, Mark, Homed, Taken;
      OpsStart(ex, policies[ns], ns, IndexFields(ns), false, seqNo, Both());
      assert ops[..0] == [];
      for i := 0 to |ops|
        invariant Valid()
        invariant SyncOps(policies[ns], ns, ops[..i], seqNo, old(T())) == Applied(T(), true)
        invariant Both() == IndexedRun(ex, policies[ns], ns, IndexFields(ns), Mark(false, ops[..i], seqNo), old(Both()))
      {
        assert ops[..i + 1] == ops[..i] + [ops[i]];
        OpsStep(ex, policies[ns], ns, IndexFields(ns), false, ops[..i], ops[i], seqNo, old(Both()));
        OpKeepsAllShapes(policies, ns, ops[i], seqNo, T());
        IndexedOpTables(ex, policies[ns], ns, IndexFields(ns), Event(false, ops[i], seqNo), Both());
        ghost var was := Both();
        var one := ApplyRecordOp(ns, ops[i], seqNo);
        if !one.Done? {
          SyncRefused(policies[ns], ns, ops, i, seqNo, old(T()));
          RefusedSame(ex, policies[ns], ns, IndexFields(ns), ops[i], seqNo, was);
          return false;
        }
      }
      assert ops[..|ops|] == ops;
      TakenWhole(policies[ns], ns, ops, seqNo, old(T()));
      return true;
    }

    /** Clear (see `ClearNs`), then refresh every live key of the namespace. */
    method RebuildSecIndexNs(ns: Name) returns (ghost keys: seq<Key>)
      modifies this`sec
      ensures RebuiltOver(ex, old(sec), sec, ns, IndexFields(ns), T(), keys)
    {
      hide Refresh, Latest;
      sec := ClearNs(sec, ns);
      keys := [];
      var fields := IndexFields(ns);
      if fields == [] { return; }
      var live: seq<Key> := [];
      var rest := index.Keys;
      while rest != {}
        invariant rest <= index.Keys
        invariant forall k :: k in live <==> (ns, k) in index && (ns, k) !in rest && Latest(index[(ns, k)]).Some?
        decreases |rest|
      {
        var k :| k in rest;
        rest := rest - {k};
        if k.0 == ns && Latest(index[k]).Some? { live := live + [k.1]; }
      }
      keys := live;
      for i := 0 to |live|
        invariant sec == RefreshAll(ex, ClearNs(old(sec), ns), ns, fields, live[..i], T())
      {
        assert live[..i + 1][..i] == live[..i];
        RefreshSecIndexFor(ns, live[i]);
      }
      assert live[..|live|] == live;
    }

    /** Set or clear the index definition of a namespace, and rebuild its index. */
    method SetIndex(ns: Name, def: Option<Bytes>, hlc: U64, replica: Id32, author: Id32) returns (res: Reply<nat>, ghost keys: seq<Key>)
      requires Valid()
      modifies this`logs, this`defs, this`sec, this`revision
      ensures Valid()
      ensures res.Done? <==> ns in policies
      ensures var r := Record(TAG_INDEX, [], hlc, replica, author, if def.Some? then def.value else [], 0, []);
        Canonical(r) && Effect(res.Done?, Value()) == DefineIndex(ex, parseFields, old(Value()), ns, def, r, keys)
      ensures res.Done? ==> res.value == |logs[ns]| && (IndexFields(ns) != [] ==> LiveKeys(T(), ns, keys))
    {
      hide Shaped, Homed, Rebuild, LiveKeys;
      keys := [];
      if ns !in policies { return BadName, []; }
      var value := if def.Some? then def.value else [];
      logs := logs[ns := logs[ns] + [Record(TAG_INDEX, [], hlc, replica, author, value, 0, [])]];
      defs := if def.Some? then defs[ns := value] else defs - {ns};
      keys := RebuildSecIndexNs(ns);
      revision := revision + 1;
      return Done(|logs[ns]|), keys;
    }

    /** Apply a replayed or synced record; the log is not touched. */
    method ApplyRecord(ns: Name, r: Record, seqNo: nat) returns (res: Reply<()>)
      requires Valid() && ns in policies
      modifies this`index, this`tombs, this`sec, this`schemas, this`defs
      ensures Valid()
      ensures var a := SyncRecord(policies[ns], ns, r, seqNo, old(T()));
        T() == a.t && res == if a.ok then Done(()) else Refused
      ensures r.tag != TAG_INDEX ==> defs == old(defs)
      ensures RecordTo(ex, parseFields, policies[ns], ns, r, seqNo, old(Seen()), Seen())
    {
      hide IndexedRun, SyncOps, Shaped, Rebuild, ClearNs, Mark, LiveKeys, Homed;
      OpsStart(ex, policies[ns], ns, IndexFields(ns), false, seqNo, Both());
      if IsOpTag(r.tag) || r.tag == TAG_BATCH {
        var ok := ApplyRecordOps(ns, Ops(r), seqNo);
        return if ok then Done(()) else Refused;
      } else if r.tag == TAG_SCHEMA {
        schemas := if r.value == [] then schemas - {ns} else schemas[ns := r.value];
        return Done(());
      } else if r.tag == TAG_INDEX {
        defs := Redefine(defs, ns, r.value);
        ghost var keys := RebuildSecIndexNs(ns);
        assert RebuiltOver(ex, old(sec), sec, ns, IndexFields(ns), T(), keys);
        return Done(());
      } else {
        return Refused;
      }
    }

    /** The versions already in the namespace's log. */
    method ScanVersions(ns: Name) returns (seen: set<Identity>)
      requires Valid() && ns in policies
      ensures seen == LogVersions(logs[ns])
    {
      seen := {};
      var log := logs[ns];
      for i := 0 to |log|
        invariant seen == LogVersions(log[..i])
      {
        assert log[..i + 1] == log[..i] + [log[i]];
        seen := seen + {VersionKey(log[i])};
      }
      assert log[..|log|] == log;
    }

    /** Append a record that is not a duplicate, re-chained onto this log. */
    method AppendSynced(ns: Name, r: Record) returns (ok: bool)
      requires Valid() && ns in policies
      modifies this
      ensures Valid() && policies == old(policies) && peerClocks == old(peerClocks)
      ensures logs == old(logs)[ns := old(logs)[ns] + [r]]
      ensures SyncRecord(policies[ns], ns, r, |old(logs)[ns]| + 1, old(T())) == Applied(T(), ok)
      ensures RecordTo(ex, parseFields, policies[ns], ns, r, |old(logs)[ns]| + 1, old(Seen()), Seen())
      ensures revision == old(revision) + (if ok then 1 else 0)
    {
      hide Shaped, SyncRecord, RecordTo, Homed;
      var seqNo := |logs[ns]| + 1;
      logs := logs[ns := logs[ns] + [r]];
      var applied := ApplyRecord(ns, r, seqNo);
      ok := applied.Done?;
      if ok { revision := revision + 1; }
    }

    /** Apply a record unless its version is among those `seen` in the log. */
    method ApplyUnseen(ns: Name, r: Record, seen: set<Identity>) returns (ok: bool)
      requires Valid() && ns in policies && seen == LogVersions(logs[ns])
      modifies this
      ensures Valid() && policies == old(policies)
      ensures Space(logs[ns], T()) == ApplySynced(policies[ns], ns, r, Space(old(logs)[ns], old(T())))
      ensures logs == old(logs)[ns := logs[ns]] && LogVersions(logs[ns]) == seen + {VersionKey(r)}
      ensures VersionKey(r) in seen ==> ok && logs == old(logs) && Seen() == old(Seen())
      ensures VersionKey(r) !in seen ==>
        RecordTo(ex, parseFields, policies[ns], ns, r, |old(logs)[ns]| + 1, old(Seen()), Seen())
      ensures Applicable(r) ==> ok
    {
      hide Shaped, SyncRecord, RecordTo, Homed, LogVersions, VersionKey;
      if VersionKey(r) in seen {
        assert logs[ns := logs[ns]] == logs;
        return true;
      }
      if Applicable(r) { AcceptsApplicable(policies[ns], ns, r, |logs[ns]| + 1, T()); }
      VersionsAppend(logs[ns], r);
      ok := AppendSynced(ns, r);
    }

    method ApplySyncedRecord(ns: Name, r: Record) returns (res: Reply<bool>)
      requires Valid()
      modifies this
      ensures Valid() && policies == old(policies)
      ensures ns !in policies ==> res == BadName && logs == old(logs) && Both() == old(Both())
      ensures ns in policies ==>
        && Space(logs[ns], T()) == ApplySynced(policies[ns], ns, r, Space(old(logs)[ns], old(T())))
        && logs == old(logs)[ns := logs[ns]]
        && (res.Done? ==> (res.value <==> |logs[ns]| == |old(logs)[ns]| + 1))
        && (if VersionKey(r) in LogVersions(old(logs)[ns]) then Seen() == old(Seen())
            else RecordTo(ex, parseFields, policies[ns], ns, r, |logs[ns]|, old(Seen()), Seen()))
        && (Applicable(r) ==> res.Done?)
    {
      hide Shaped, SyncRecord, RecordTo, Homed;
      if ns !in policies { return BadName; }
      var seen := ScanVersions(ns);
      var ok := ApplyUnseen(ns, r, seen);
      return if ok then Done(VersionKey(r) !in seen) else Refused;
    }

    /** Scan the log's versions once for the whole batch. The outcome is that
        of applying the records one at a time, `upTo` of them. */
    method ApplySyncedBatch(ns: Name, records: seq<Record>) returns (res: Reply<nat>, ghost upTo: nat)
      requires Valid()
      modifies this
      ensures Valid() && policies == old(policies)
      ensures ns !in policies ==> res == BadName && logs == old(logs) && Both() == old(Both())
      ensures ns in policies ==>
        && upTo <= |records|
        && Space(logs[ns], T()) == ApplyAll(policies[ns], ns, records[..upTo], Space(old(logs)[ns], old(T())))
        && logs == old(logs)[ns := logs[ns]]
        && (res.Done? ==> upTo == |records| && res.value == |logs[ns]| - |old(logs)[ns]|)
        && RecordsTo(ex, parseFields, policies[ns], ns, records[..upTo], old(logs)[ns], old(Seen()), Seen())
        && (AllApplicable(records) ==> res.Done?)
    {
      hide Shaped, SyncRecord, Applicable, LogVersions, VersionKey, ApplyAll, ApplySynced, RecordTo, RecordsTo, Homed;
      upTo := 0;
      if ns !in policies { return BadName, 0; }
      var seen := ScanVersions(ns);
      var applied := 0;
      ghost var before := Space(logs[ns], T());
      assert logs[ns := logs[ns]] == logs;
      ApplyNone(policies[ns], ns, before);
      assert records[..0] == [];
      RecordsToNone(ex, parseFields, policies[ns], ns, before.log, Seen());
      for i := 0 to |records|
        invariant Valid() && policies == old(policies)
        invariant Space(logs[ns], T()) == ApplyAll(policies[ns], ns, records[..i], before)
        invariant logs == old(logs)[ns := logs[ns]]
        invariant seen == LogVersions(logs[ns]) && applied == |logs[ns]| - |before.log|
        invariant RecordsTo(ex, parseFields, policies[ns], ns, records[..i], before.log, old(Seen()), Seen())
      {
        assert records[..i + 1] == records[..i] + [records[i]];
        ApplyStep(policies[ns], ns, records[..i], records[i], before);
        ghost var was := Seen();
        ghost var cur := Space(logs[ns], T());
        var ok := ApplyUnseen(ns, records[i], seen);
        RecordsToStep(ex, parseFields, policies[ns], ns, records[..i], records[i], before, old(Seen()), was, Seen());
        if !ok { return Refused, i + 1; }
        ApplyGrows(policies[ns], ns, records[i], cur);
        if VersionKey(records[i]) !in seen {
          seen := seen + {VersionKey(records[i])};
          applied := applied + 1;
        }
      }
      assert records[..|records|] == records;
      return Done(applied), |records|;
    }

    // ---------- compaction ----------

    method CollectEntries(ns: Name, now: nat) returns (out: seq<Record>, ghost keys: seq<Key>)
      ensures forall k :: k in keys <==> (ns, k) in index
      ensures forall i, j | 0 <= i < j < |keys| :: keys[i] != keys[j]
      ensures out == IndexRecs(T(), ns, keys, now)
    {
      hide EntryRecs;
      out, keys := [], [];
      var rest := set k | k in index && k.0 == ns;
      while rest != {}
        invariant forall k | k in rest :: k in index && k.0 == ns
        invariant forall k :: k in keys <==> (ns, k) in index && (ns, k) !in rest
        invariant forall i, j | 0 <= i < j < |keys| :: keys[i] != keys[j]
        invariant out == IndexRecs(T(), ns, keys, now)
        decreases |rest|
      {
        var k :| k in rest;
        rest := rest - {k};
        var recs := CollectEntry(k.1, index[k], now);
        assert (keys + [k.1])[..|keys|] == keys;
        keys := keys + [k.1];
        out := out + recs;
      }
    }

    method CollectTombs(ns: Name) returns (out: seq<Record>, ghost dead: seq<Key>)
      ensures forall k :: k in dead <==> (ns, k) in tombs && (ns, k) !in index
      ensures forall i, j | 0 <= i < j < |dead| :: dead[i] != dead[j]
      ensures out == TombRecs(T(), ns, dead)
    {
      out, dead := [], [];
      var rest := set k | k in tombs && k.0 == ns && k !in index;
      while rest != {}
        invariant forall k | k in rest :: k in tombs && k.0 == ns && k !in index
        invariant forall k :: k in dead <==> (ns, k) in tombs && (ns, k) !in index && (ns, k) !in rest
        invariant forall i, j | 0 <= i < j < |dead| :: dead[i] != dead[j]
        invariant out == TombRecs(T(), ns, dead)
        decreases |rest|
      {
        var k :| k in rest;
        rest := rest - {k};
        assert (dead + [k.1])[..|dead|] == dead;
        dead := dead + [k.1];
        out := out + [Record(TAG_DEL, k.1, tombs[k], ZERO_ID, ZERO_ID, [], 0, [])];
      }
    }

    /** The records of one namespace worth keeping, read off the tables. */
    method CollectLive(ns: Name, now: nat) returns (out: seq<Record>, ghost keys: seq<Key>, ghost dead: seq<Key>)
      ensures Listed(T(), ns, keys, dead) && out == GcRecords(T(), ns, keys, dead, now)
    {
      hide IndexRecs, TombRecs;
      var a, b;
      a, keys := CollectEntries(ns, now);
      b, dead := CollectTombs(ns);
      out := a + b;
    }

    /** Apply rewritten records, numbered from one. */
    method ReplayFresh(ns: Name, out: seq<Record>)
      requires Valid() && ns in policies && forall i | 0 <= i < |out| :: IsOpTag(out[i].tag)
      modifies this`index, this`tombs, this`sec, this`schemas, this`defs
      ensures Valid() && defs == old(defs)
      ensures Both() == IndexedRun(ex, policies[ns], ns, IndexFields(ns), Replays(out), old(Both()))
    {
      hide Shaped, SyncRecord, IndexedRun, IndexedOp, RecordTo, Homed;
      RunNone(ex, policies[ns], ns, IndexFields(ns), Both());
      for i := 0 to |out|
        invariant Valid() && defs == old(defs)
        invariant Both() == IndexedRun(ex, policies[ns], ns, IndexFields(ns), Replays(out[..i]), old(Both()))
      {
        assert out[..i + 1] == out[..i] + [out[i]];
        ghost var was := Seen();
        AcceptsApplicable(policies[ns], ns, out[i], i + 1, T());
        var applied := ApplyRecord(ns, out[i], i + 1);
        ReplaysStep(ex, parseFields, policies[ns], ns, out[..i], out[i], old(Both()), was, Seen());
      }
      assert out[..|out|] == out;
    }

    /** Compact one namespace: rewrite its log, rebuild tables and index rows from
        it. */
    method GcNamespace(ns: Name, now: nat) returns (ghost keys: seq<Key>, ghost dead: seq<Key>)
      requires Valid() && ns in policies
      modifies this`logs, this`index, this`tombs, this`sec, this`schemas, this`defs
      ensures Valid() && Listed(old(T()), ns, keys, dead) && defs == old(defs)
      ensures T() == Gc(policies[ns], old(T()), ns, keys, dead, now)
      ensures var out := GcRecords(old(T()), ns, keys, dead, now);
        && logs == (if out == [] then old(logs) else old(logs)[ns := out])
        && Both() == GcBoth(ex, policies[ns], ns, IndexFields(ns), out, old(Both()))
    {
      hide Shaped, IndexRecs, TombRecs, IndexedRun, Homed, Gc, ClearSpace;
      var out;
      out, keys, dead := CollectLive(ns, now);
      GcTables(ex, policies[ns], ns, IndexFields(ns), keys, dead, now, Both());
      if out != [] {
        GcOps(T(), ns, keys, dead, now);
        ClearKeepsValid(policies, T(), ns);
        logs := logs[ns := out];
        var others := ClearSpace(Tables(index, tombs), ns);
        index, tombs := others.index, others.tombs;
        ReplayFresh(ns, out);
      }
    }

    /** `gc_live`: refused on a node that has synced; otherwise every namespace
        is compacted. Its reads from `now` on are preserved exactly when no
        tombstone of it hides an entry with an unexpired version; an exact index
        of it is still exact exactly when nothing was rewritten or no key dropped
        for expiry had an indexed row. */
    method GcLive(now: nat) returns (res: Reply<()>)
      requires Valid()
      modifies this`logs, this`index, this`tombs, this`sec, this`schemas, this`defs
      ensures Valid() && defs == old(defs)
      ensures res.Done? <==> peerClocks == map[]
      ensures !res.Done? ==> Both() == old(Both()) && logs == old(logs)
      ensures res.Done? ==>
        forall ns | ns in policies :: SameReads(old(T()), T(), ns, now) <==> NothingBuried(old(T()), ns, now)
      ensures res.Done? ==>
        forall ns | ns in policies :: IndexVerdict(ex, ns, IndexFields(ns), now, old(Both()), Both())
    {
      hide Shaped, Gc, GcBoth, SameReads, NothingBuried, Judged, AllJudged, AllSame, Listed, GcRecords, Homed;
      if peerClocks != map[] { return Refused; }
      var rest := policies.Keys;
      ghost var x0 := Both();
      GcStart(ex, parseFields, defs, now, rest, x0);
      while rest != {}
        invariant Valid() && rest <= policies.Keys && defs == old(defs)
        invariant AllSame(rest, x0, Both())
        invariant AllJudged(ex, parseFields, defs, now, policies.Keys - rest, x0, Both())
        decreases |rest|
      {
        var ns :| ns in rest;
        ghost var x := Both();
        ghost var keys, dead := GcNamespace(ns, now);
        GcProgress(ex, parseFields, defs, policies[ns], ns, keys, dead, now, rest, policies.Keys, x0, x, Both());
        rest := rest - {ns};
      }
      assert policies.Keys - {} == policies.Keys;
      JudgedMeans(ex, parseFields, defs, now, policies.Keys, x0, Both());
      return Done(());
    }
  }

  /** What compaction did to one namespace: reads and index, each with its exact
      condition. */
  ghost predicate Judged(ex: Extract, ns: Name, fields: seq<Field>, now: nat, x0: Indexed, y: Indexed) {
    && (SameReads(x0.t, y.t, ns, now) <==> NothingBuried(x0.t, ns, now))
    && IndexVerdict(ex, ns, fields, now, x0, y)
  }

  ghost predicate AllJudged(ex: Extract, parse: Bytes -> seq<Field>, defs: map<Name, Bytes>, now: nat, names: set<Name>, x0: Indexed, y: Indexed) {
    forall n | n in names :: Judged(ex, n, FieldList(parse, defs, n), now, x0, y)
  }

  ghost predicate AllSame(names: set<Name>, x0: Indexed, y: Indexed) {
    forall n | n in names :: SameView(x0, y, n)
  }

  lemma GcStart(ex: Extract, parse: Bytes -> seq<Field>, defs: map<Name, Bytes>, now: nat, names: set<Name>, x: Indexed)
    ensures AllSame(names, x, x) && AllJudged(ex, parse, defs, now, names - names, x, x)
  {
    hide SameView, Judged;
    forall n | n in names ensures SameView(x, x, n) { SameViewTrans(x, x, x, n); }
  }

  lemma JudgedMeans(ex: Extract, parse: Bytes -> seq<Field>, defs: map<Name, Bytes>, now: nat, names: set<Name>, x0: Indexed, y: Indexed)
    requires AllJudged(ex, parse, defs, now, names, x0, y)
    ensures forall n | n in names :: SameReads(x0.t, y.t, n, now) <==> NothingBuried(x0.t, n, now)
    ensures forall n | n in names :: IndexVerdict(ex, n, FieldList(parse, defs, n), now, x0, y)
  {
    hide SameReads, NothingBuried, IndexVerdict;
    forall n | n in names
      ensures SameReads(x0.t, y.t, n, now) <==> NothingBuried(x0.t, n, now)
      ensures IndexVerdict(ex, n, FieldList(parse, defs, n), now, x0, y)
    {
      assert Judged(ex, n, FieldList(parse, defs, n), now, x0, y);
    }
  }

  /** One namespace of the loop: `ns` is judged, those before it stay judged, those
      after it stay as they were. */
  lemma GcProgress(ex: Extract, parse: Bytes -> seq<Field>, defs: map<Name, Bytes>, p: Policy, ns: Name, keys: seq<Key>, dead: seq<Key>,
                   now: nat, rest: set<Name>, all: set<Name>, x0: Indexed, x: Indexed, y: Indexed)
    requires ns in rest && rest <= all && AllSame(rest, x0, x) && AllJudged(ex, parse, defs, now, all - rest, x0, x)
    requires Shaped(p, ns, x.t) && Listed(x.t, ns, keys, dead)
    requires y == GcBoth(ex, p, ns, FieldList(parse, defs, ns), GcRecords(x.t, ns, keys, dead, now), x)
    ensures AllSame(rest - {ns}, x0, y) && AllJudged(ex, parse, defs, now, all - (rest - {ns}), x0, y)
  {
    hide Shaped, GcBoth, SameReads, NothingBuried, GcRecords, SameView, IndexVerdict, FieldList;
    var fields := FieldList(parse, defs, ns);
    GcOutcome(ex, p, ns, fields, keys, dead, now, x0, x, y);
    forall n | n in all - (rest - {ns}) ensures Judged(ex, n, FieldList(parse, defs, n), now, x0, y) {
      if n != ns {
        assert Judged(ex, n, FieldList(parse, defs, n), now, x0, x);
        GcBystander(ex, p, ns, fields, keys, dead, now, x0, x, y, n, FieldList(parse, defs, n));
      }
    }
    forall n | n in rest - {ns} ensures SameView(x0, y, n) {
      GcBystander(ex, p, ns, fields, keys, dead, now, x0, x, y, n, []);
    }
  }

  /** Compacting `ns` from `x` to `y`, when `x` shows of `ns` what `x0` did. */
  lemma GcOutcome(ex: Extract, p: Policy, ns: Name, fields: seq<Field>, keys: seq<Key>, dead: seq<Key>, now: nat, x0: Indexed, x: Indexed, y: Indexed)
    requires Shaped(p, ns, x.t) && Listed(x.t, ns, keys, dead) && SameView(x0, x, ns)
    requires y == GcBoth(ex, p, ns, fields, GcRecords(x.t, ns, keys, dead, now), x)
    ensures SameReads(x0.t, y.t, ns, now) <==> NothingBuried(x0.t, ns, now)
    ensures IndexVerdict(ex, ns, fields, now, x0, y)
  {
    hide Shaped, Gc, GcBoth, SameReads, NothingBuried, GcRecords, Exact, NothingToKeep, NoDroppedRow, SameRows, SameSpace;
    GcTables(ex, p, ns, fields, keys, dead, now, x);
    GcPreservesReads(p, x.t, ns, keys, dead, now);
    SameSpaceReads(x0.t, x.t, y.t, ns, now);
    if Exact(ex, x.sec, x.t, ns, fields) { GcIndexExact(ex, p, ns, fields, keys, dead, now, x); }
    VerdictSame(ex, x0, x, y, ns, fields, now);
  }

  /** Compacting `ns` is not seen from namespace `n`. */
  lemma GcBystander(ex: Extract, p: Policy, ns: Name, fields: seq<Field>, keys: seq<Key>, dead: seq<Key>, now: nat,
                    x0: Indexed, x: Indexed, y: Indexed, n: Name, nFields: seq<Field>)
    requires Shaped(p, ns, x.t) && Listed(x.t, ns, keys, dead) && n != ns
    requires y == GcBoth(ex, p, ns, fields, GcRecords(x.t, ns, keys, dead, now), x)
    ensures SameView(x0, x, n) ==> SameView(x0, y, n)
    ensures SameReads(x0.t, x.t, n, now) <==> SameReads(x0.t, y.t, n, now)
    ensures IndexVerdict(ex, n, nFields, now, x0, x) <==> IndexVerdict(ex, n, nFields, now, x0, y)
  {
    hide Shaped, Gc, GcBoth, SameReads, GcRecords, IndexVerdict, SameRows, SameSpace;
    GcTables(ex, p, ns, fields, keys, dead, now, x);
    GcElsewhere(p, x.t, ns, keys, dead, now);
    GcElsewhereRows(ex, p, ns, fields, GcRecords(x.t, ns, keys, dead, now), x, n);
    assert SameView(x, y, n);
    SameViewTrans(x0, x, y, n);
    SameSpaceLater(x0.t, x.t, y.t, n, now);
    VerdictSame(ex, x0, x, y, n, nFields, now);
  }

  lemma RunNone(ex: Extract, p: Policy, ns: Name, fields: seq<Field>, x: Indexed)
    ensures IndexedRun(ex, p, ns, fields, Replays([]), x) == x
  {
  }

  lemma ReplaysStep(ex: Extract, parse: Bytes -> seq<Field>, p: Policy, ns: Name, out: seq<Record>, r: Record, x: Indexed, v: View, w: View)
    requires Shaped(p, ns, v.x.t) && IsOpTag(r.tag) && RecordTo(ex, parse, p, ns, r, |out| + 1, v, w)
    requires v.x == IndexedRun(ex, p, ns, FieldList(parse, v.defs, ns), Replays(out), x)
    ensures w.defs == v.defs
    ensures w.x == IndexedRun(ex, p, ns, FieldList(parse, v.defs, ns), Replays(out + [r]), x)
  {
    hide IndexedOp, IndexedRun, Shaped, Taken;
    TakesApplicable(p, ns, r, |out| + 1, v.x.t);
    var one := Mark(false, Ops(r), |out| + 1);
    assert one == [Event(false, r, |out| + 1)];
    assert Replays(out + [r]) == Replays(out) + one;
    IndexedRunConcat(ex, p, ns, FieldList(parse, v.defs, ns), Replays(out), one, x);
  }

  method CollectEntry(key: Key, e: Entry, now: nat) returns (recs: seq<Record>)
    ensures recs == EntryRecs(key, e, now)
  {
    recs := [];
    match e {
      case Lww(v) => if Alive(v, now) { recs := [PutRec(key, v)]; }
      case Register(vs) =>
        for i := 0 to |vs|
          invariant recs == VersionRecs(key, vs[..i], now)
        {
          assert vs[..i + 1][..i] == vs[..i];
          if Alive(vs[i], now) { recs := recs + [PutRec(key, vs[i])]; }
        }
        assert vs[..|vs|] == vs;
    }
  }

  lemma ApplyGrows(p: Policy, ns: Name, r: Record, s: Space)
    ensures |ApplySynced(p, ns, r, s).log| == |s.log| + (if VersionKey(r) in LogVersions(s.log) then 0 else 1)
  {
    hide SyncRecord, VersionKey, LogVersions;
  }

  lemma RecordsToNone(ex: Extract, parse: Bytes -> seq<Field>, p: Policy, ns: Name, log: seq<Record>, v: View)
    ensures RecordsTo(ex, parse, p, ns, [], log, v, v)
  {
  }

  lemma RecordsToStep(ex: Extract, parse: Bytes -> seq<Field>, p: Policy, ns: Name, rs: seq<Record>, r: Record, s: Space, v: View, u: View, w: View)
    requires RecordsTo(ex, parse, p, ns, rs, s.log, v, u)
    requires var log := ApplyAll(p, ns, rs, s).log;
      if VersionKey(r) in LogVersions(log) then w == u else RecordTo(ex, parse, p, ns, r, |log| + 1, u, w)
    ensures RecordsTo(ex, parse, p, ns, rs + [r], s.log, v, w)
  {
    hide RecordTo, Convergence.Fresh, LogVersions, VersionKey, ApplyAll;
    Convergence.ApplyAllFresh(p, ns, rs, s);
    assert (rs + [r])[..|rs|] == rs;
  }

  lemma ClearKeepsValid(policies: map<Name, Policy>, t: Tables, ns: Name)
    requires Homed(policies, t) && forall n | n in policies :: Shaped(policies[n], n, t)
    ensures Homed(policies, ClearSpace(t, ns)) && forall n | n in policies :: Shaped(policies[n], n, ClearSpace(t, ns))
  {
  }

  lemma SameSpaceReads(t0: Tables, t: Tables, u: Tables, ns: Name, now: nat)
    requires SameSpace(t0, t, ns)
    ensures SameReads(t, u, ns, now) <==> SameReads(t0, u, ns, now)
    ensures NothingBuried(t, ns, now) <==> NothingBuried(t0, ns, now)
  {
    hide LatestValue, Trim;
    assert forall key, at :: Read(t, (ns, key), at) == Read(t0, (ns, key), at);
  }

  lemma SameSpaceLater(t0: Tables, t: Tables, u: Tables, n: Name, now: nat)
    requires SameSpace(t, u, n)
    ensures SameSpace(t0, t, n) ==> SameSpace(t0, u, n)
    ensures SameReads(t0, t, n, now) <==> SameReads(t0, u, n, now)
  {
    hide LatestValue;
    assert forall key, at :: Read(t, (n, key), at) == Read(u, (n, key), at);
  }

  lemma ApplyNone(p: Policy, ns: Name, s: Space)
    ensures ApplyAll(p, ns, [], s) == s
  {
  }

  lemma ApplyStep(p: Policy, ns: Name, rs: seq<Record>, r: Record, s: Space)
    ensures ApplyAll(p, ns, rs + [r], s) == ApplySynced(p, ns, r, ApplyAll(p, ns, rs, s))
  {
    hide ApplySynced;
    assert (rs + [r])[..|rs|] == rs;
  }

  lemma AcceptsApplicable(p: Policy, ns: Name, r: Record, seqNo: nat, t: Tables)
    requires Shaped(p, ns, t) && Applicable(r)
    ensures SyncRecord(p, ns, r, seqNo, t).ok
  {
    hide Shaped;
    ApplicableOps(r);
    OpsKeepShape(p, ns, Ops(r), seqNo, t);
  }

  lemma VersionsAppend(log: seq<Record>, r: Record)
    ensures LogVersions(log + [r]) == LogVersions(log) + {VersionKey(r)}
  {
  }

  lemma {:induction false} SyncRefused(p: Policy, ns: Name, ops: seq<Record>, i: nat, seqNo: nat, t: Tables)
    requires i < |ops| && SyncOps(p, ns, ops[..i], seqNo, t).ok
    requires !SyncOp(p, ns, ops[i], seqNo, SyncOps(p, ns, ops[..i], seqNo, t).t).ok
    ensures SyncOps(p, ns, ops, seqNo, t) == SyncOp(p, ns, ops[i], seqNo, SyncOps(p, ns, ops[..i], seqNo, t).t)
    ensures Taken(p, ns, ops, seqNo, t) == ops[..i]
    decreases |ops|
  {
    hide SyncOp;
    var n := |ops| - 1;
    if i < n {
      assert ops[..n][..i] == ops[..i];
      SyncRefused(p, ns, ops[..n], i, seqNo, t);
    }
  }

  lemma TakenWhole(p: Policy, ns: Name, ops: seq<Record>, seqNo: nat, t: Tables)
    requires SyncOps(p, ns, ops, seqNo, t).ok
    ensures Taken(p, ns, ops, seqNo, t) == ops
  {
  }

  lemma TakesApplicable(p: Policy, ns: Name, r: Record, seqNo: nat, t: Tables)
    requires Shaped(p, ns, t) && Applicable(r)
    ensures Taken(p, ns, Ops(r), seqNo, t) == Ops(r)
  {
    hide Shaped, Taken, SyncOps, Ops;
    AcceptsApplicable(p, ns, r, seqNo, t);
    TakenWhole(p, ns, Ops(r), seqNo, t);
  }

  /** A refused operation changes nothing. */
  lemma RefusedSame(ex: Extract, p: Policy, ns: Name, fields: seq<Field>, op: Record, seqNo: nat, x: Indexed)
    requires !SyncOp(p, ns, op, seqNo, x.t).ok
    ensures IndexedOp(ex, p, ns, fields, Event(false, op, seqNo), x) == x
  {
    hide Refresh, RemoveKey;
  }

  lemma SingleOp(p: Policy, ns: Name, op: Record, seqNo: nat, t: Tables)
    requires IsOpTag(op.tag)
    ensures LocalOps(p, ns, Ops(op), seqNo, t) == LocalOp(p, ns, op, seqNo, t)
  {
    hide LocalOp;
    var one := [op];
    assert one[..|one| - 1] == [] && Ops(op) == one;
    assert LocalOps(p, ns, one[..|one| - 1], seqNo, t) == Applied(t, true);
  }

  lemma IndexedOpTables(ex: Extract, p: Policy, ns: Name, fields: seq<Field>, e: Event, x: Indexed)
    ensures IndexedOp(ex, p, ns, fields, e, x).t ==
      if e.local then LocalOp(p, ns, e.op, e.seqNo, x.t).t else SyncOp(p, ns, e.op, e.seqNo, x.t).t
  {
    hide Refresh, RemoveKey, LocalOp, SyncOp;
  }

  lemma OpsStart(ex: Extract, p: Policy, ns: Name, fields: seq<Field>, local: bool, seqNo: nat, x: Indexed)
    ensures LocalOps(p, ns, [], seqNo, x.t) == SyncOps(p, ns, [], seqNo, x.t) == Applied(x.t, true)
    ensures IndexedRun(ex, p, ns, fields, Mark(local, [], seqNo), x) == x
  {
  }

  /** One more operation on tables, and on tables with index. */
  lemma OpsStep(ex: Extract, p: Policy, ns: Name, fields: seq<Field>, local: bool, ops: seq<Record>, op: Record, seqNo: nat, x: Indexed)
    ensures var a := LocalOps(p, ns, ops, seqNo, x.t);
      LocalOps(p, ns, ops + [op], seqNo, x.t) == if a.ok then LocalOp(p, ns, op, seqNo, a.t) else a
    ensures var a := SyncOps(p, ns, ops, seqNo, x.t);
      SyncOps(p, ns, ops + [op], seqNo, x.t) == if a.ok then SyncOp(p, ns, op, seqNo, a.t) else a
    ensures IndexedRun(ex, p, ns, fields, Mark(local, ops + [op], seqNo), x) ==
      IndexedOp(ex, p, ns, fields, Event(local, op, seqNo), IndexedRun(ex, p, ns, fields, Mark(local, ops, seqNo), x))
  {
    hide LocalOp, SyncOp, IndexedOp;
    assert (ops + [op])[..|ops|] == ops;
    var es := Mark(local, ops + [op], seqNo);
    assert es[..|es| - 1] == Mark(local, ops, seqNo);
  }

  /** An operation, accepted or not, keeps the shapes of all namespaces. */
  lemma OpKeepsAllShapes(policies: map<Name, Policy>, ns: Name, op: Record, seqNo: nat, t: Tables)
    requires ns in policies && Homed(policies, t) && forall n | n in policies :: Shaped(policies[n], n, t)
    ensures forall n | n in policies :: Shaped(policies[n], n, LocalOp(policies[ns], ns, op, seqNo, t).t)
    ensures forall n | n in policies :: Shaped(policies[n], n, SyncOp(policies[ns], ns, op, seqNo, t).t)
    ensures Homed(policies, LocalOp(policies[ns], ns, op, seqNo, t).t)
    ensures Homed(policies, SyncOp(policies[ns], ns, op, seqNo, t).t)
  {
    forall n | n in policies
      ensures Shaped(policies[n], n, LocalOp(policies[ns], ns, op, seqNo, t).t)
      ensures Shaped(policies[n], n, SyncOp(policies[ns], ns, op, seqNo, t).t)
    {
      OpKeepsOneShape(policies[n], n, policies[ns], ns, op, seqNo, t);
    }
  }

  lemma OpKeepsOneShape(q: Policy, n: Name, p: Policy, ns: Name, op: Record, seqNo: nat, t: Tables)
    requires Shaped(q, n, t) && Shaped(p, ns, t) && (n == ns ==> p == q)
    ensures Shaped(q, n, LocalOp(p, ns, op, seqNo, t).t) && Shaped(q, n, SyncOp(p, ns, op, seqNo, t).t)
  {
  }

  lemma {:induction false} LocalRefused(p: Policy, ns: Name, ops: seq<Record>, i: nat, seqNo: nat, t: Tables)
    requires i < |ops| && LocalOps(p, ns, ops[..i], seqNo, t).ok
    requires !LocalOp(p, ns, ops[i], seqNo, LocalOps(p, ns, ops[..i], seqNo, t).t).ok
    ensures LocalOps(p, ns, ops, seqNo, t) == LocalOp(p, ns, ops[i], seqNo, LocalOps(p, ns, ops[..i], seqNo, t).t)
    decreases |ops|
  {
    hide LocalOp;
    var n := |ops| - 1;
    if i < n {
      assert ops[..n][..i] == ops[..i];
      LocalRefused(p, ns, ops[..n], i, seqNo, t);
    }
  }
}
