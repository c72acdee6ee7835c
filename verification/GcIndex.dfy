/** What compaction does to the secondary index (`storage/mod.rs`, `gc_live`): the
    rewritten records are applied one by one, and each refreshes its own key. */
module GcIndex {
  import opened ByteStrings
  import opened Records
  import opened StoreSpec
  import opened Replay
  import opened SecondaryIndex
  import opened Compaction
  import Convergence

  /** The rewritten records as operations, numbered from one. */
  function Replays(out: seq<Record>): (es: seq<Event>)
    ensures |es| == |out| && forall i | 0 <= i < |out| :: es[i] == Event(false, out[i], i + 1)
  {
    if out == [] then [] else Replays(out[..|out| - 1]) + [Event(false, out[|out| - 1], |out|)]
  }

  predicate HasKey(rs: seq<Record>, key: Key) {
    exists i | 0 <= i < |rs| :: rs[i].key == key
  }

  lemma HasKeyConcat(a: seq<Record>, b: seq<Record>, key: Key)
    ensures HasKey(a + b, key) <==> HasKey(a, key) || HasKey(b, key)
  {
    if i :| 0 <= i < |a| && a[i].key == key { assert (a + b)[i].key == key; }
    if i :| 0 <= i < |b| && b[i].key == key { assert (a + b)[|a| + i].key == key; }
    if i :| 0 <= i < |a + b| && (a + b)[i].key == key {
      if i < |a| { assert a[i].key == key; } else { assert b[i - |a|].key == key; }
    }
  }

  lemma {:induction false} VersionRecsKeys(key: Key, vs: seq<Version>, now: nat)
    ensures forall i | 0 <= i < |VersionRecs(key, vs, now)| :: VersionRecs(key, vs, now)[i].key == key
  {
    if vs != [] { VersionRecsKeys(key, vs[..|vs| - 1], now); }
  }

  lemma EntryRecsKeys(k: Key, e: Entry, now: nat, key: Key)
    ensures HasKey(EntryRecs(k, e, now), key) <==> key == k && Trim(e, now).Some?
  {
    match e
    case Lww(v) => if Alive(v, now) { assert EntryRecs(k, e, now)[0].key == k; }
    case Register(vs) =>
      VersionRecsKeys(k, vs, now);
      SameCount(k, vs, now);
      if Unexpired(vs, now) != [] { assert EntryRecs(k, e, now)[0].key == k; }
  }

  lemma {:induction false} IndexRecsKeys(t: Tables, ns: Name, keys: seq<Key>, now: nat, key: Key)
    requires forall k | k in keys :: (ns, k) in t.index
    ensures HasKey(IndexRecs(t, ns, keys, now), key) <==> key in keys && Trim(t.index[(ns, key)], now).Some?
    decreases |keys|
  {
    hide EntryRecs, Trim;
    if keys != [] {
      var n := |keys| - 1;
      IndexRecsKeys(t, ns, keys[..n], now, key);
      EntryRecsKeys(keys[n], t.index[(ns, keys[n])], now, key);
      HasKeyConcat(IndexRecs(t, ns, keys[..n], now), EntryRecs(keys[n], t.index[(ns, keys[n])], now), key);
      assert keys == keys[..n] + [keys[n]];
    }
  }

  lemma {:induction false} TombRecsKeys(t: Tables, ns: Name, dead: seq<Key>, key: Key)
    requires forall k | k in dead :: (ns, k) in t.tombs
    ensures HasKey(TombRecs(t, ns, dead), key) <==> key in dead
    decreases |dead|
  {
    if dead != [] {
      var n := |dead| - 1;
      TombRecsKeys(t, ns, dead[..n], key);
      var r := Record(TAG_DEL, dead[n], t.tombs[(ns, dead[n])], ZERO_ID, ZERO_ID, [], 0, []);
      HasKeyConcat(TombRecs(t, ns, dead[..n]), [r], key);
      assert HasKey([r], key) <==> key == dead[n] by { if key == dead[n] { assert [r][0].key == key; } }
      assert dead == dead[..n] + [dead[n]];
    }
  }

  /** Compaction writes a record for the key. */
  predicate Rewrites(t: Tables, ns: Name, key: Key, now: nat) {
    || ((ns, key) in t.index && Trim(t.index[(ns, key)], now).Some?)
    || ((ns, key) in t.tombs && (ns, key) !in t.index)
  }

  /** Which keys a compaction rewrites. */
  lemma RewrittenKeys(t: Tables, ns: Name, keys: seq<Key>, dead: seq<Key>, now: nat, key: Key)
    requires Listed(t, ns, keys, dead)
    ensures Touches(Replays(GcRecords(t, ns, keys, dead, now)), key) <==> Rewrites(t, ns, key, now)
  {
    hide IndexRecs, TombRecs, Trim;
    var out := GcRecords(t, ns, keys, dead, now);
    IndexRecsKeys(t, ns, keys, now, key);
    TombRecsKeys(t, ns, dead, key);
    HasKeyConcat(IndexRecs(t, ns, keys, now), TombRecs(t, ns, dead), key);
    var es := Replays(out);
    if i :| 0 <= i < |out| && out[i].key == key { assert es[i].op.key == key; }
    if i :| 0 <= i < |es| && es[i].op.key == key { assert out[i].key == key; }
  }

  /** Compaction drops the key: it has an entry, and every version is expired. */
  predicate Dropped(t: Tables, ns: Name, key: Key, now: nat) {
    (ns, key) in t.index && Trim(t.index[(ns, key)], now).None?
  }

  /** No key that compaction drops has a row in the index. */
  ghost predicate NoDroppedRow(sec: Sec, t: Tables, ns: Name, fields: seq<Field>, now: nat) {
    forall f, row | f in fields && row in Rows(sec, ns, f) :: !Dropped(t, ns, row.1, now)
  }

  /** Compaction has nothing to write for the namespace, and leaves it alone. */
  ghost predicate NothingToKeep(t: Tables, ns: Name, now: nat) {
    forall key :: !Rewrites(t, ns, key, now)
  }

  lemma EmptyRewrite(t: Tables, ns: Name, keys: seq<Key>, dead: seq<Key>, now: nat)
    requires Listed(t, ns, keys, dead)
    ensures GcRecords(t, ns, keys, dead, now) == [] <==> NothingToKeep(t, ns, now)
  {
    hide IndexRecs, TombRecs, Rewrites;
    var out := GcRecords(t, ns, keys, dead, now);
    forall key { RewrittenKeys(t, ns, keys, dead, now, key); }
    if out != [] {
      assert Replays(out)[0].op.key == out[0].key;
      assert Touches(Replays(out), out[0].key);
    }
  }

  /** Tables and index after the rewritten records were applied. */
  function GcBoth(ex: Extract, p: Policy, ns: Name, fields: seq<Field>, out: seq<Record>, x: Indexed): Indexed {
    if out == [] then x else IndexedRun(ex, p, ns, fields, Replays(out), Indexed(ClearSpace(x.t, ns), x.sec))
  }

  lemma {:induction false} ReplaysTables(ex: Extract, p: Policy, ns: Name, fields: seq<Field>, out: seq<Record>, x: Indexed)
    requires forall i | 0 <= i < |out| :: IsOpTag(out[i].tag)
    ensures IndexedRun(ex, p, ns, fields, Replays(out), x).t == SyncAll(p, ns, out, 0, x.t)
    decreases |out|
  {
    hide SyncOp, Refresh, RemoveKey;
    if out != [] {
      var n := |out| - 1;
      ReplaysTables(ex, p, ns, fields, out[..n], x);
      assert Replays(out)[..n] == Replays(out[..n]);
      OneOp(p, ns, out[n], |out|, SyncAll(p, ns, out[..n], 0, x.t));
    }
  }

  lemma OneOp(p: Policy, ns: Name, r: Record, seqNo: nat, t: Tables)
    requires IsOpTag(r.tag)
    ensures SyncRecord(p, ns, r, seqNo, t).t == SyncOp(p, ns, r, seqNo, t).t
  {
    hide SyncOp;
    var ops := [r];
    assert ops[..0] == [] && Ops(r) == ops;
    assert SyncOps(p, ns, [], seqNo, t) == Applied(t, true);
    assert SyncOps(p, ns, ops, seqNo, t) == SyncOp(p, ns, r, seqNo, t);
  }

  lemma GcTables(ex: Extract, p: Policy, ns: Name, fields: seq<Field>, keys: seq<Key>, dead: seq<Key>, now: nat, x: Indexed)
    requires Listed(x.t, ns, keys, dead)
    ensures GcBoth(ex, p, ns, fields, GcRecords(x.t, ns, keys, dead, now), x).t == Gc(p, x.t, ns, keys, dead, now)
  {
    hide IndexedRun, SyncAll, IndexRecs, TombRecs, ClearSpace;
    var out := GcRecords(x.t, ns, keys, dead, now);
    GcOps(x.t, ns, keys, dead, now);
    assert forall i | 0 <= i < |out| :: Replays(out)[i].op == out[i];
    ReplaysTables(ex, p, ns, fields, out, Indexed(ClearSpace(x.t, ns), x.sec));
  }

  /** An exact index is still exact after a compaction if and only if nothing was
      rewritten, or no key dropped for expiry had an indexed row. */
  lemma GcIndexExact(ex: Extract, p: Policy, ns: Name, fields: seq<Field>, keys: seq<Key>, dead: seq<Key>, now: nat, x: Indexed)
    requires Shaped(p, ns, x.t) && Listed(x.t, ns, keys, dead) && Exact(ex, x.sec, x.t, ns, fields)
    ensures var y := GcBoth(ex, p, ns, fields, GcRecords(x.t, ns, keys, dead, now), x);
      Exact(ex, y.sec, y.t, ns, fields) <==> NothingToKeep(x.t, ns, now) || NoDroppedRow(x.sec, x.t, ns, fields, now)
  {
    hide NothingToKeep, Sorted, Rows, GcRecords, Gc, IndexedRun, ClearSpace, Trim, Shaped, Wanted;
    var out := GcRecords(x.t, ns, keys, dead, now);
    EmptyRewrite(x.t, ns, keys, dead, now);
    if out != [] {
      var y := GcBoth(ex, p, ns, fields, out, x);
      forall f | f in fields
        ensures FieldExact(ex, y.sec, y.t, ns, f) <==> forall row | row in Rows(x.sec, ns, f) :: !Dropped(x.t, ns, row.1, now)
      {
        assert FieldExact(ex, x.sec, x.t, ns, f);
        GcFieldExact(ex, p, ns, fields, keys, dead, now, x, f);
      }
    }
  }

  lemma GcFieldExact(ex: Extract, p: Policy, ns: Name, fields: seq<Field>, keys: seq<Key>, dead: seq<Key>, now: nat, x: Indexed, f: Field)
    requires Shaped(p, ns, x.t) && Listed(x.t, ns, keys, dead) && f in fields && FieldExact(ex, x.sec, x.t, ns, f)
    requires GcRecords(x.t, ns, keys, dead, now) != []
    ensures var y := GcBoth(ex, p, ns, fields, GcRecords(x.t, ns, keys, dead, now), x);
      FieldExact(ex, y.sec, y.t, ns, f) <==> forall row | row in Rows(x.sec, ns, f) :: !Dropped(x.t, ns, row.1, now)
  {
    hide Sorted, Rows, GcRecords, Gc, IndexedRun, ClearSpace, Trim, Shaped, Touches;
    var out := GcRecords(x.t, ns, keys, dead, now);
    var es := Replays(out);
    GcOps(x.t, ns, keys, dead, now);
    ClearedShaped(p, x.t, ns);
    RunTouchedExact(ex, p, ns, fields, es, Indexed(ClearSpace(x.t, ns), x.sec), f);
    var y := GcBoth(ex, p, ns, fields, out, x);
    GcTables(ex, p, ns, fields, keys, dead, now, x);
    GcEffect(p, x.t, ns, keys, dead, now);
    forall row: Row | !Touches(es, row.1)
      ensures !Wanted(ex, y.t, ns, f, row)
      ensures row in Rows(x.sec, ns, f) ==> Dropped(x.t, ns, row.1, now)
    {
      RewrittenKeys(x.t, ns, keys, dead, now, row.1);
    }
    forall row: Row | Dropped(x.t, ns, row.1, now) ensures !Touches(es, row.1) {
      RewrittenKeys(x.t, ns, keys, dead, now, row.1);
    }
  }

  lemma GcOps(t: Tables, ns: Name, keys: seq<Key>, dead: seq<Key>, now: nat)
    requires Listed(t, ns, keys, dead)
    ensures AllOps(Replays(GcRecords(t, ns, keys, dead, now)))
    ensures var out := GcRecords(t, ns, keys, dead, now); forall i | 0 <= i < |out| :: IsOpTag(out[i].tag)
  {
    hide IndexRecs, TombRecs, Canonical;
    IndexRecsOk(t, ns, keys, now);
    TombRecsOk(t, ns, dead);
    var out := GcRecords(t, ns, keys, dead, now);
    forall i | 0 <= i < |out| ensures IsOpTag(out[i].tag) { assert out[i] in out; }
  }

  /** Compaction keeps no schema or index definition in the log: they last only in
      the store's own metadata, and whoever replays or pulls the compacted log
      has none. */
  lemma GcForgetsDefinitions(t: Tables, ns: Name, keys: seq<Key>, dead: seq<Key>, now: nat, tag: Byte)
    requires Listed(t, ns, keys, dead) && (tag == TAG_SCHEMA || tag == TAG_INDEX)
    ensures Convergence.Definition(tag, GcRecords(t, ns, keys, dead, now)).None?
  {
    hide GcRecords;
    GcOps(t, ns, keys, dead, now);
    var out := GcRecords(t, ns, keys, dead, now);
    Convergence.DefinitionAmong(tag, out);
    forall r | r in out ensures r.tag != tag {
      var i :| 0 <= i < |out| && out[i] == r;
      assert IsOpTag(out[i].tag);
    }
  }

  // ---------- one namespace among others ----------

  ghost predicate SameRows(a: Sec, b: Sec, n: Name) {
    forall f :: Rows(a, n, f) == Rows(b, n, f)
  }

  lemma {:induction false} RunElsewhere(ex: Extract, p: Policy, ns: Name, fields: seq<Field>, es: seq<Event>, x: Indexed, n: Name)
    requires n != ns
    ensures SameRows(x.sec, IndexedRun(ex, p, ns, fields, es, x).sec, n)
    decreases |es|
  {
    hide Refresh, RemoveKey, LocalOp, SyncOp, Rows;
    if es != [] {
      var w := IndexedRun(ex, p, ns, fields, es[..|es| - 1], x);
      var y := IndexedRun(ex, p, ns, fields, es, x);
      RunElsewhere(ex, p, ns, fields, es[..|es| - 1], x, n);
      forall f ensures Rows(w.sec, n, f) == Rows(y.sec, n, f) {
        OpElsewhere(ex, p, ns, fields, es[|es| - 1], w, n, f);
      }
    }
  }

  lemma OpElsewhere(ex: Extract, p: Policy, ns: Name, fields: seq<Field>, e: Event, x: Indexed, n: Name, f: Field)
    requires n != ns
    ensures Rows(IndexedOp(ex, p, ns, fields, e, x).sec, n, f) == Rows(x.sec, n, f)
  {
    hide Refresh, RemoveKey, LocalOp, SyncOp;
    var t := IndexedOp(ex, p, ns, fields, e, x).t;
    RefreshElsewhere(ex, x.sec, ns, fields, e.op.key, t, (n, f));
    RemoveElsewhere(x.sec, ns, fields, e.op.key, (n, f));
  }

  lemma GcElsewhereRows(ex: Extract, p: Policy, ns: Name, fields: seq<Field>, out: seq<Record>, x: Indexed, n: Name)
    requires n != ns
    ensures SameRows(x.sec, GcBoth(ex, p, ns, fields, out, x).sec, n)
  {
    hide IndexedRun, ClearSpace;
    if out != [] { RunElsewhere(ex, p, ns, fields, Replays(out), Indexed(ClearSpace(x.t, ns), x.sec), n); }
  }

  /** The index of `ns` after a compaction, against `x` before it: exact again if
      and only if nothing was written or no dropped key had a row. */
  ghost predicate IndexVerdict(ex: Extract, ns: Name, fields: seq<Field>, now: nat, x: Indexed, y: Indexed) {
    Exact(ex, x.sec, x.t, ns, fields) ==>
      (Exact(ex, y.sec, y.t, ns, fields) <==> NothingToKeep(x.t, ns, now) || NoDroppedRow(x.sec, x.t, ns, fields, now))
  }

  ghost predicate SameView(x: Indexed, y: Indexed, n: Name) {
    SameSpace(x.t, y.t, n) && SameRows(x.sec, y.sec, n)
  }

  lemma ExactSame(ex: Extract, x: Indexed, y: Indexed, n: Name, fields: seq<Field>)
    requires SameView(x, y, n)
    ensures Exact(ex, x.sec, x.t, n, fields) <==> Exact(ex, y.sec, y.t, n, fields)
  {
    hide Sorted, Rows;
    forall f ensures FieldExact(ex, x.sec, x.t, n, f) <==> FieldExact(ex, y.sec, y.t, n, f) {
      assert forall key :: Shown(x.t, n, key) == Shown(y.t, n, key);
    }
  }

  lemma VerdictSame(ex: Extract, x0: Indexed, x: Indexed, y: Indexed, n: Name, fields: seq<Field>, now: nat)
    ensures SameView(x, y, n) ==> (IndexVerdict(ex, n, fields, now, x0, x) <==> IndexVerdict(ex, n, fields, now, x0, y))
    ensures SameView(x0, x, n) ==> (IndexVerdict(ex, n, fields, now, x, y) <==> IndexVerdict(ex, n, fields, now, x0, y))
  {
    hide Exact, NothingToKeep, NoDroppedRow;
    if SameView(x, y, n) { ExactSame(ex, x, y, n, fields); }
    if SameView(x0, x, n) {
      ExactSame(ex, x0, x, n, fields);
      SameDropped(x0, x, n, fields, now);
    }
  }

  lemma SameDropped(x: Indexed, y: Indexed, n: Name, fields: seq<Field>, now: nat)
    requires SameView(x, y, n)
    ensures NothingToKeep(x.t, n, now) <==> NothingToKeep(y.t, n, now)
    ensures NoDroppedRow(x.sec, x.t, n, fields, now) <==> NoDroppedRow(y.sec, y.t, n, fields, now)
  {
    hide Trim, Rows;
    assert forall key :: Dropped(x.t, n, key, now) <==> Dropped(y.t, n, key, now);
    assert forall key :: Rewrites(x.t, n, key, now) <==> Rewrites(y.t, n, key, now);
  }

  lemma SameViewTrans(x: Indexed, y: Indexed, z: Indexed, n: Name)
    ensures SameView(x, x, n)
    ensures SameView(x, y, n) && SameView(y, z, n) ==> SameView(x, z, n)
  {
    hide Rows;
  }
}
