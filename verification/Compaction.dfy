/** In-place compaction of a namespace (`gc_live`): rewrite the log with only
    the records the current state needs, and rebuild the tables from it. */
module Compaction {
  import opened ByteStrings
  import opened Records
  import opened StoreSpec
  import opened Replay
  import opened SegmentedLog
  import opened Recovery
  import opened Reopen

  // ---------- reads at a time ----------

  predicate Alive(v: Version, now: nat) {
    v.expiresAt == 0 || v.expiresAt > now
  }

  function Unexpired(vs: seq<Version>, now: nat): seq<Version> {
    if vs == [] then []
    else
      var init := Unexpired(vs[..|vs| - 1], now);
      if Alive(vs[|vs| - 1], now) then init + [vs[|vs| - 1]] else init
  }

  /** `latest_value`: the newest unexpired value. */
  function LatestValue(e: Entry, now: nat): Option<Bytes> {
    match e
    case Lww(v) => if Alive(v, now) then Some(v.value) else None
    case Register(vs) => var live := Unexpired(vs, now); if live == [] then None else Some(Newest(live).value)
  }

  /** What a GET of the key answers at time `now`. */
  function Read(t: Tables, k: EntryKey, now: nat): Option<Bytes> {
    match Get(t, k)
    case None => None
    case Some(e) => LatestValue(e, now)
  }

  // ---------- the rewritten log ----------

  function PutRec(key: Key, v: Version): Record {
    Record(if v.expiresAt == 0 then TAG_PUT else TAG_PUT_TTL, key, v.hlc, v.replica, v.author, v.value, v.expiresAt, [])
  }

  function VersionRecs(key: Key, vs: seq<Version>, now: nat): seq<Record> {
    if vs == [] then []
    else
      var init := VersionRecs(key, vs[..|vs| - 1], now);
      if Alive(vs[|vs| - 1], now) then init + [PutRec(key, vs[|vs| - 1])] else init
  }

  function EntryRecs(key: Key, e: Entry, now: nat): seq<Record> {
    match e
    case Lww(v) => if Alive(v, now) then [PutRec(key, v)] else []
    case Register(vs) => VersionRecs(key, vs, now)
  }

  function IndexRecs(t: Tables, ns: Name, keys: seq<Key>, now: nat): seq<Record>
    requires forall k | k in keys :: (ns, k) in t.index
  {
    if keys == [] then []
    else
      var k := keys[|keys| - 1];
      IndexRecs(t, ns, keys[..|keys| - 1], now) + EntryRecs(k, t.index[(ns, k)], now)
  }

  function TombRecs(t: Tables, ns: Name, keys: seq<Key>): seq<Record>
    requires forall k | k in keys :: (ns, k) in t.tombs
  {
    if keys == [] then []
    else
      var k := keys[|keys| - 1];
      TombRecs(t, ns, keys[..|keys| - 1]) + [Record(TAG_DEL, k, t.tombs[(ns, k)], ZERO_ID, ZERO_ID, [], 0, [])]
  }

  /** The keys of a namespace, listed once each: `keys` those with an entry,
      `dead` those with a tombstone and no entry. */
  ghost predicate Listed(t: Tables, ns: Name, keys: seq<Key>, dead: seq<Key>) {
    && (forall k :: k in keys <==> (ns, k) in t.index)
    && (forall k :: k in dead <==> (ns, k) in t.tombs && (ns, k) !in t.index)
    && (forall i, j | 0 <= i < j < |keys| :: keys[i] != keys[j])
    && (forall i, j | 0 <= i < j < |dead| :: dead[i] != dead[j])
  }

  function GcRecords(t: Tables, ns: Name, keys: seq<Key>, dead: seq<Key>, now: nat): seq<Record>
    requires forall k | k in keys :: (ns, k) in t.index
    requires forall k | k in dead :: (ns, k) in t.tombs
  {
    IndexRecs(t, ns, keys, now) + TombRecs(t, ns, dead)
  }

  function ClearSpace(t: Tables, ns: Name): Tables {
    Tables(map k | k in t.index && k.0 != ns :: t.index[k], map k | k in t.tombs && k.0 != ns :: t.tombs[k])
  }

  function Gc(p: Policy, t: Tables, ns: Name, keys: seq<Key>, dead: seq<Key>, now: nat): Tables
    requires forall k | k in keys :: (ns, k) in t.index
    requires forall k | k in dead :: (ns, k) in t.tombs
  {
    var out := GcRecords(t, ns, keys, dead, now);
    if out == [] then t else SyncAll(p, ns, out, 0, ClearSpace(t, ns))
  }

  // ---------- what compaction leaves ----------

  /** Equal except for the log position. */
  predicate SameVersion(a: Version, b: Version) {
    a == b.(seqNo := a.seqNo)
  }

  predicate SameEntry(a: Entry, b: Entry) {
    match (a, b)
    case (Lww(v), Lww(w)) => SameVersion(v, w)
    case (Register(vs), Register(ws)) => |vs| == |ws| && forall i | 0 <= i < |vs| :: SameVersion(vs[i], ws[i])
    case _ => false
  }

  /** The entry with its expired versions dropped. */
  function Trim(e: Entry, now: nat): Option<Entry> {
    match e
    case Lww(v) => if Alive(v, now) then Some(e) else None
    case Register(vs) => var live := Unexpired(vs, now); if live == [] then None else Some(Register(live))
  }

  predicate Holds(t: Tables, k: EntryKey, e: Option<Entry>) {
    match e
    case None => k !in t.index
    case Some(x) => k in t.index && SameEntry(t.index[k], x)
  }

  /** `t'` is `t` with entry `e` at the fresh key `k`. */
  ghost predicate Placed(t: Tables, t': Tables, k: EntryKey, e: Option<Entry>) {
    t'.tombs == t.tombs && t'.index - {k} == t.index - {k} && Holds(t', k, e)
  }

  lemma {:induction false} SyncAllConcat(p: Policy, ns: Name, a: seq<Record>, b: seq<Record>, n0: nat, t: Tables)
    ensures SyncAll(p, ns, a + b, n0, t) == SyncAll(p, ns, b, n0 + |a|, SyncAll(p, ns, a, n0, t))
    decreases |b|
  {
    hide SyncRecord;
    if b == [] {
      assert a + b == a;
    } else {
      var n := |b| - 1;
      SyncAllConcat(p, ns, a, b[..n], n0, t);
      assert (a + b)[..|a| + n] == a + b[..n];
    }
  }

  lemma SyncOne(p: Policy, ns: Name, r: Record, n0: nat, t: Tables)
    requires IsOpTag(r.tag)
    ensures SyncAll(p, ns, [r], n0, t) == SyncOp(p, ns, r, n0 + 1, t).t
  {
    hide SyncOp;
    var one := [r];
    assert one[..0] == [];
    assert SyncAll(p, ns, one[..|one| - 1], n0, t) == t;
    assert Ops(r) == one;
    assert SyncOps(p, ns, one[..|one| - 1], n0 + 1, t) == Applied(t, true);
    assert SyncOps(p, ns, one, n0 + 1, t) == SyncOp(p, ns, r, n0 + 1, t);
  }

  lemma {:induction false} VersionsReplay(ns: Name, key: Key, vs: seq<Version>, now: nat, n0: nat, t: Tables)
    requires (ns, key) !in t.index
    ensures var live := Unexpired(vs, now);
      Placed(t, SyncAll(CrdtRegister, ns, VersionRecs(key, vs, now), n0, t), (ns, key),
             if live == [] then None else Some(Register(live)))
    decreases |vs|
  {
    hide SyncAll, SyncOp;
    var k := (ns, key);
    var recs := VersionRecs(key, vs, now);
    if vs == [] {
      SyncNone(CrdtRegister, ns, n0, t);
    } else {
      var n := |vs| - 1;
      var init := VersionRecs(key, vs[..n], now);
      VersionsReplay(ns, key, vs[..n], now, n0, t);
      if Alive(vs[n], now) {
        var r := PutRec(key, vs[n]);
        SyncAllConcat(CrdtRegister, ns, init, [r], n0, t);
        var m := SyncAll(CrdtRegister, ns, init, n0, t);
        SyncOne(CrdtRegister, ns, r, n0 + |init|, m);
        PushPlaced(ns, key, vs[n], n0 + |init| + 1, t, m, Unexpired(vs[..n], now));
      }
    }
  }

  lemma SyncNone(p: Policy, ns: Name, n0: nat, t: Tables)
    ensures SyncAll(p, ns, [], n0, t) == t
  {
  }

  lemma PushPlaced(ns: Name, key: Key, v: Version, seqNo: nat, t: Tables, m: Tables, live: seq<Version>)
    requires Placed(t, m, (ns, key), if live == [] then None else Some(Register(live)))
    ensures Placed(t, SyncOp(CrdtRegister, ns, PutRec(key, v), seqNo, m).t, (ns, key), Some(Register(live + [v])))
  {
    var k := (ns, key);
    var u := SyncOp(CrdtRegister, ns, PutRec(key, v), seqNo, m).t;
    assert u.index - {k} == m.index - {k};
  }

  lemma EntryReplay(p: Policy, ns: Name, key: Key, e: Entry, now: nat, n0: nat, t: Tables)
    requires (ns, key) !in t.index && (p == LastWriter <==> e.Lww?)
    ensures Placed(t, SyncAll(p, ns, EntryRecs(key, e, now), n0, t), (ns, key), Trim(e, now))
  {
    match e
    case Register(vs) => VersionsReplay(ns, key, vs, now, n0, t);
    case Lww(v) =>
      SyncNone(p, ns, n0, t);
      if Alive(v, now) {
        var r := PutRec(key, v);
        SyncOne(p, ns, r, n0, t);
        var u := SyncOp(p, ns, r, n0 + 1, t).t;
        assert u.index - {(ns, key)} == t.index - {(ns, key)};
      }
  }

  /** After replaying the entries of `keys` onto a cleared namespace. */
  ghost predicate Compacted(t0: Tables, ns: Name, keys: seq<Key>, now: nat, t: Tables) {
    && t.tombs == ClearSpace(t0, ns).tombs
    && (forall k: EntryKey | k.0 != ns :: (k in t.index <==> k in t0.index) && (k in t0.index ==> t.index[k] == t0.index[k]))
    && (forall key :: if key in keys && (ns, key) in t0.index then Holds(t, (ns, key), Trim(t0.index[(ns, key)], now))
                      else (ns, key) !in t.index)
  }

  lemma {:induction false} IndexReplay(p: Policy, ns: Name, t0: Tables, keys: seq<Key>, now: nat)
    requires Shaped(p, ns, t0)
    requires forall k | k in keys :: (ns, k) in t0.index
    requires forall i, j | 0 <= i < j < |keys| :: keys[i] != keys[j]
    ensures Compacted(t0, ns, keys, now, SyncAll(p, ns, IndexRecs(t0, ns, keys, now), 0, ClearSpace(t0, ns)))
    decreases |keys|
  {
    hide SyncAll, EntryRecs, Trim;
    if keys == [] {
      SyncNone(p, ns, 0, ClearSpace(t0, ns));
    } else {
      var n := |keys| - 1;
      var k := (ns, keys[n]);
      var init := IndexRecs(t0, ns, keys[..n], now);
      var recs := EntryRecs(keys[n], t0.index[k], now);
      IndexReplay(p, ns, t0, keys[..n], now);
      SyncAllConcat(p, ns, init, recs, 0, ClearSpace(t0, ns));
      var m := SyncAll(p, ns, init, 0, ClearSpace(t0, ns));
      assert keys[n] !in keys[..n];
      EntryReplay(p, ns, keys[n], t0.index[k], now, |init|, m);
      CompactedStep(t0, ns, keys, now, m, SyncAll(p, ns, recs, |init|, m));
    }
  }

  lemma CompactedStep(t0: Tables, ns: Name, keys: seq<Key>, now: nat, m: Tables, t: Tables)
    requires keys != [] && (ns, keys[|keys| - 1]) in t0.index
    requires var n := |keys| - 1;
      && keys[n] !in keys[..n] && Compacted(t0, ns, keys[..n], now, m)
      && Placed(m, t, (ns, keys[n]), Trim(t0.index[(ns, keys[n])], now))
    ensures Compacted(t0, ns, keys, now, t)
  {
    hide Trim, SameEntry;
    var n := |keys| - 1;
    var k := (ns, keys[n]);
    assert keys == keys[..n] + [keys[n]];
    forall x | x != k
      ensures (x in t.index <==> x in m.index) && (x in m.index ==> t.index[x] == m.index[x])
    {
      assert x in t.index - {k} <==> x in t.index;
      assert x in m.index - {k} <==> x in m.index;
      if x in m.index { assert (t.index - {k})[x] == (m.index - {k})[x]; }
    }
  }

  lemma DelOp(p: Policy, ns: Name, r: Record, seqNo: nat, t: Tables)
    requires r.tag == TAG_DEL && (ns, r.key) !in t.index
    ensures SyncOp(p, ns, r, seqNo, t).t == Tables(t.index, t.tombs[(ns, r.key) := r.hlc])
  {
    assert t.index - {(ns, r.key)} == t.index;
  }

  function Bury(t0: Tables, ns: Name, dead: seq<Key>, tombs: map<EntryKey, U64>): map<EntryKey, U64>
    requires forall k | k in dead :: (ns, k) in t0.tombs
  {
    if dead == [] then tombs
    else
      var k := (ns, dead[|dead| - 1]);
      Bury(t0, ns, dead[..|dead| - 1], tombs)[k := t0.tombs[k]]
  }

  lemma {:induction false} Buried(t0: Tables, ns: Name, dead: seq<Key>, tombs: map<EntryKey, U64>, k: EntryKey)
    requires forall k | k in dead :: (ns, k) in t0.tombs
    ensures var b := Bury(t0, ns, dead, tombs);
      && (k in b <==> k in tombs || (k.0 == ns && k.1 in dead))
      && (k in b ==> b[k] == if k.0 == ns && k.1 in dead then t0.tombs[k] else tombs[k])
    decreases |dead|
  {
    if dead != [] {
      var n := |dead| - 1;
      Buried(t0, ns, dead[..n], tombs, k);
      assert dead == dead[..n] + [dead[n]];
    }
  }

  lemma {:induction false} TombReplay(p: Policy, ns: Name, t0: Tables, dead: seq<Key>, n0: nat, t: Tables)
    requires forall k | k in dead :: (ns, k) in t0.tombs && (ns, k) !in t.index
    ensures SyncAll(p, ns, TombRecs(t0, ns, dead), n0, t) == Tables(t.index, Bury(t0, ns, dead, t.tombs))
    decreases |dead|
  {
    hide SyncAll, SyncOp;
    if dead == [] {
      SyncNone(p, ns, n0, t);
    } else {
      var n := |dead| - 1;
      var init := TombRecs(t0, ns, dead[..n]);
      var r := Record(TAG_DEL, dead[n], t0.tombs[(ns, dead[n])], ZERO_ID, ZERO_ID, [], 0, []);
      TombReplay(p, ns, t0, dead[..n], n0, t);
      SyncAllConcat(p, ns, init, [r], n0, t);
      var m := SyncAll(p, ns, init, n0, t);
      SyncOne(p, ns, r, n0 + |init|, m);
      DelOp(p, ns, r, n0 + |init| + 1, m);
    }
  }

  /** The two tables hold the same for namespace `ns`. */
  ghost predicate SameSpace(t: Tables, u: Tables, ns: Name) {
    forall key :: var k := (ns, key);
      && (k in t.index <==> k in u.index) && (k in t.index ==> t.index[k] == u.index[k])
      && (k in t.tombs <==> k in u.tombs) && (k in t.tombs ==> t.tombs[k] == u.tombs[k])
  }

  /** The effect of a compaction that rewrites the log: entries keep their
      unexpired versions in order, tombstones survive exactly on keys without
      an entry, and other namespaces are untouched. */
  lemma GcEffect(p: Policy, t: Tables, ns: Name, keys: seq<Key>, dead: seq<Key>, now: nat)
    requires Shaped(p, ns, t) && Listed(t, ns, keys, dead)
    requires GcRecords(t, ns, keys, dead, now) != []
    ensures var u := Gc(p, t, ns, keys, dead, now);
      && (forall key :: Holds(u, (ns, key), if (ns, key) in t.index then Trim(t.index[(ns, key)], now) else None))
      && (forall key :: (ns, key) in u.tombs <==> (ns, key) in t.tombs && (ns, key) !in t.index)
      && (forall key | (ns, key) in u.tombs :: u.tombs[(ns, key)] == t.tombs[(ns, key)])
      && (forall n | n != ns :: SameSpace(t, u, n))
  {
    hide SyncAll, Trim, IndexRecs, TombRecs, Shaped, SameEntry, Bury;
    var a := IndexRecs(t, ns, keys, now);
    var c := ClearSpace(t, ns);
    IndexReplay(p, ns, t, keys, now);
    SyncAllConcat(p, ns, a, TombRecs(t, ns, dead), 0, c);
    var m := SyncAll(p, ns, a, 0, c);
    TombReplay(p, ns, t, dead, |a|, m);
    forall k { Buried(t, ns, dead, m.tombs, k); }
  }

  lemma GcElsewhere(p: Policy, t: Tables, ns: Name, keys: seq<Key>, dead: seq<Key>, now: nat)
    requires Shaped(p, ns, t) && Listed(t, ns, keys, dead)
    ensures forall n | n != ns :: SameSpace(t, Gc(p, t, ns, keys, dead, now), n)
  {
    hide Shaped, Holds, Trim, IndexRecs, TombRecs, SyncAll;
    if GcRecords(t, ns, keys, dead, now) != [] {
      GcEffect(p, t, ns, keys, dead, now);
    }
  }

  // ---------- reads are preserved ----------

  lemma {:induction false} UnexpiredTwice(vs: seq<Version>, now: nat, later: nat)
    requires now <= later
    ensures Unexpired(Unexpired(vs, now), later) == Unexpired(vs, later)
  {
    if vs != [] {
      var n := |vs| - 1;
      UnexpiredTwice(vs[..n], now, later);
      if Alive(vs[n], now) {
        var u := Unexpired(vs[..n], now);
        assert (u + [vs[n]])[..|u|] == u;
      }
    }
  }

  predicate SameVersions(vs: seq<Version>, ws: seq<Version>) {
    |vs| == |ws| && forall i | 0 <= i < |vs| :: SameVersion(vs[i], ws[i])
  }

  lemma {:induction false} SameUnexpired(vs: seq<Version>, ws: seq<Version>, now: nat)
    requires SameVersions(vs, ws)
    ensures SameVersions(Unexpired(vs, now), Unexpired(ws, now))
  {
    if vs != [] { SameUnexpired(vs[..|vs| - 1], ws[..|ws| - 1], now); }
  }

  lemma {:induction false} SameNewest(vs: seq<Version>, ws: seq<Version>)
    requires vs != [] && SameVersions(vs, ws)
    ensures SameVersion(Newest(vs), Newest(ws))
  {
    if |vs| > 1 { SameNewest(vs[..|vs| - 1], ws[..|ws| - 1]); }
  }

  /** Trimming at `now` does not change what any later read finds. */
  lemma TrimReads(e: Entry, t: Tables, k: EntryKey, now: nat, later: nat)
    requires now <= later && Holds(t, k, Trim(e, now)) && k !in t.tombs
    ensures Read(t, k, later) == LatestValue(e, later)
  {
    match e
    case Lww(v) =>
    case Register(vs) =>
      UnexpiredTwice(vs, now, later);
      var live := Unexpired(vs, now);
      if live != [] {
        SameUnexpired(t.index[k].vs, live, later);
        if Unexpired(live, later) != [] { SameNewest(Unexpired(t.index[k].vs, later), Unexpired(live, later)); }
      }
  }

  lemma TrimmedAway(e: Entry, now: nat, later: nat)
    requires now <= later && Trim(e, now).None?
    ensures LatestValue(e, later).None?
  {
    match e
    case Lww(v) =>
    case Register(vs) => UnexpiredTwice(vs, now, later);
  }

  /** No tombstone hides an entry that still has an unexpired version. */
  ghost predicate NothingBuried(t: Tables, ns: Name, now: nat) {
    forall key | (ns, key) in t.tombs && (ns, key) in t.index :: Trim(t.index[(ns, key)], now).None?
  }

  ghost predicate SameReads(t: Tables, u: Tables, ns: Name, now: nat) {
    forall key, later | now <= later :: Read(u, (ns, key), later) == Read(t, (ns, key), later)
  }

  /** Compaction at `now` preserves every read of the namespace from then on
      exactly when no tombstone hides an entry with an unexpired version. */
  lemma GcPreservesReads(p: Policy, t: Tables, ns: Name, keys: seq<Key>, dead: seq<Key>, now: nat)
    requires Shaped(p, ns, t) && Listed(t, ns, keys, dead)
    ensures SameReads(t, Gc(p, t, ns, keys, dead, now), ns, now) <==> NothingBuried(t, ns, now)
  {
    hide SyncAll, Trim, IndexRecs, TombRecs, Shaped, LatestValue, Holds;
    var u := Gc(p, t, ns, keys, dead, now);
    if GcRecords(t, ns, keys, dead, now) == [] {
      NothingRewritten(t, ns, keys, dead, now);
    } else {
      GcEffect(p, t, ns, keys, dead, now);
      forall key, later | now <= later && !((ns, key) in t.tombs && (ns, key) in t.index && Trim(t.index[(ns, key)], now).Some?)
        ensures Read(u, (ns, key), later) == Read(t, (ns, key), later)
      {
        ReadKept(t, u, ns, key, now, later);
      }
      forall key | (ns, key) in t.tombs && (ns, key) in t.index && Trim(t.index[(ns, key)], now).Some?
        ensures Read(u, (ns, key), now) != Read(t, (ns, key), now)
      {
        ReadResurrected(t, u, ns, key, now);
      }
    }
  }

  lemma ReadKept(t: Tables, u: Tables, ns: Name, key: Key, now: nat, later: nat)
    requires var k := (ns, key);
      && now <= later
      && Holds(u, k, if k in t.index then Trim(t.index[k], now) else None)
      && (k in u.tombs <==> k in t.tombs && k !in t.index)
      && !(k in t.tombs && k in t.index && Trim(t.index[k], now).Some?)
    ensures Read(u, (ns, key), later) == Read(t, (ns, key), later)
  {
    hide Trim, LatestValue, SameEntry;
    var k := (ns, key);
    if k in t.index {
      TrimReads(t.index[k], u, k, now, later);
      if k in t.tombs { TrimmedAway(t.index[k], now, later); }
    }
  }

  lemma ReadResurrected(t: Tables, u: Tables, ns: Name, key: Key, now: nat)
    requires var k := (ns, key);
      && k in t.tombs && k in t.index && k !in u.tombs
      && Trim(t.index[k], now).Some? && Holds(u, k, Trim(t.index[k], now))
    ensures Read(u, (ns, key), now) != Read(t, (ns, key), now)
  {
    TrimReads(t.index[(ns, key)], u, (ns, key), now, now);
  }

  lemma NothingRewritten(t: Tables, ns: Name, keys: seq<Key>, dead: seq<Key>, now: nat)
    requires Listed(t, ns, keys, dead) && GcRecords(t, ns, keys, dead, now) == []
    ensures NothingBuried(t, ns, now)
  {
    forall key | (ns, key) in t.index
      ensures Trim(t.index[(ns, key)], now).None?
    {
      NoRecords(t, ns, keys, now, key);
    }
  }

  lemma {:induction false} NoRecords(t: Tables, ns: Name, keys: seq<Key>, now: nat, key: Key)
    requires forall k | k in keys :: (ns, k) in t.index
    requires IndexRecs(t, ns, keys, now) == [] && key in keys
    ensures Trim(t.index[(ns, key)], now).None?
    decreases |keys|
  {
    hide Trim, EntryRecs;
    var n := |keys| - 1;
    assert keys == keys[..n] + [keys[n]];
    if key in keys[..n] {
      NoRecords(t, ns, keys[..n], now, key);
    } else {
      NoEntryRecs(key, t.index[(ns, key)], now);
    }
  }

  lemma NoEntryRecs(key: Key, e: Entry, now: nat)
    requires EntryRecs(key, e, now) == []
    ensures Trim(e, now).None?
  {
    if e.Register? { SameCount(key, e.vs, now); }
  }

  lemma {:induction false} SameCount(key: Key, vs: seq<Version>, now: nat)
    ensures |VersionRecs(key, vs, now)| == |Unexpired(vs, now)|
  {
    if vs != [] { SameCount(key, vs[..|vs| - 1], now); }
  }

  // ---------- standalone nodes ----------

  ghost predicate Disjoint(t: Tables) {
    t.index.Keys !! t.tombs.Keys
  }

  /** A purely local history keeps entries and tombstones apart. */
  lemma {:induction false} LocalRunDisjoint(p: Policy, ns: Name, es: seq<Event>, t: Tables)
    requires Disjoint(t) && forall i | 0 <= i < |es| :: es[i].local
    ensures Disjoint(Live(p, ns, es, t))
    decreases |es|
  {
    hide LocalOp;
    if es != [] {
      var n := |es| - 1;
      LocalRunDisjoint(p, ns, es[..n], t);
      LocalOpDisjoint(p, ns, es[n].op, es[n].seqNo, Live(p, ns, es[..n], t));
    }
  }

  lemma LocalOpDisjoint(p: Policy, ns: Name, op: Record, seqNo: nat, t: Tables)
    requires Disjoint(t)
    ensures Disjoint(LocalOp(p, ns, op, seqNo, t).t)
  {
  }

  /** On a node that has only written locally since its namespace was new, and has
      not reopened since, compaction at any time preserves every later read. */
  lemma LocalGc(p: Policy, ns: Name, es: seq<Event>, keys: seq<Key>, dead: seq<Key>, now: nat)
    requires AllOps(es) && forall i | 0 <= i < |es| :: es[i].local
    requires Listed(Live(p, ns, es, Tables(map[], map[])), ns, keys, dead)
    ensures var t := Live(p, ns, es, Tables(map[], map[])); SameReads(t, Gc(p, t, ns, keys, dead, now), ns, now)
  {
    hide Gc, Live, SameReads;
    var t0 := Tables(map[], map[]);
    LiveShaped(p, ns, es, t0);
    LocalRunDisjoint(p, ns, es, t0);
    GcPreservesReads(p, Live(p, ns, es, t0), ns, keys, dead, now);
  }

  /** The same after a reopening, for local histories that replay rebuilds. */
  lemma ReopenedGc(p: Policy, ns: Name, es: seq<Event>, keys: seq<Key>, dead: seq<Key>, now: nat)
    requires AllOps(es) && forall i | 0 <= i < |es| :: es[i].local
    requires AllSafe(p, ns, es, Tables(map[], map[]))
    requires Listed(Replayed(p, ns, es, Tables(map[], map[])), ns, keys, dead)
    ensures var t := Replayed(p, ns, es, Tables(map[], map[]));
      Disjoint(t) && SameReads(t, Gc(p, t, ns, keys, dead, now), ns, now)
  {
    hide Gc, Live, Replayed, SameReads, AllSafe, LocalOp;
    var t0 := Tables(map[], map[]);
    ReplayTracksLive(p, ns, es, t0);
    assert Replayed(p, ns, es, t0) == Live(p, ns, es, t0);
    LocalRunDisjoint(p, ns, es, t0);
    LocalGc(p, ns, es, keys, dead, now);
  }

  /** A store of local writes that compaction changes: put, delete, put on one
      key, then reopen. The key reads as absent; compaction brings it back. */
  lemma ReopenedGcResurrects(p: Policy, ns: Name, put: Record, del: Record, keys: seq<Key>, dead: seq<Key>, now: nat)
    requires IsPut(put) && del.tag == TAG_DEL && put.key == del.key && (put.expiresAt == 0 || put.expiresAt > now)
    requires Listed(Replayed(p, ns, Rewritten(put, del), Tables(map[], map[])), ns, keys, dead)
    ensures var t := Replayed(p, ns, Rewritten(put, del), Tables(map[], map[])); var u := Gc(p, t, ns, keys, dead, now);
      && Read(t, (ns, put.key), now).None? && Read(u, (ns, put.key), now) == Some(put.value)
      && !SameReads(t, u, ns, now)
  {
    hide Gc, Replayed, SameReads, IndexRecs, TombRecs, Read, Newest;
    var t := Replayed(p, ns, Rewritten(put, del), Tables(map[], map[]));
    var k := (ns, put.key);
    RewrittenTables(p, ns, put, del);
    OneVersion(VersionOf(put, 3), now);
    BuriedResurrects(p, t, ns, keys, dead, now, put.key);
  }

  lemma OneVersion(v: Version, now: nat)
    requires Alive(v, now)
    ensures Unexpired([v], now) == [v] && Newest([v]) == v
  {
    assert [v][..0] == [];
  }

  /** An unexpired entry under a tombstone reads as absent, and shows after
      compaction. */
  lemma BuriedResurrects(p: Policy, t: Tables, ns: Name, keys: seq<Key>, dead: seq<Key>, now: nat, key: Key)
    requires Shaped(p, ns, t) && Listed(t, ns, keys, dead)
    requires (ns, key) in t.tombs && (ns, key) in t.index && Trim(t.index[(ns, key)], now).Some?
    ensures var u := Gc(p, t, ns, keys, dead, now);
      && Read(t, (ns, key), now).None? && Read(u, (ns, key), now) == LatestValue(t.index[(ns, key)], now)
      && !SameReads(t, u, ns, now)
  {
    hide Gc, IndexRecs, TombRecs, SameEntry, Shaped, LatestValue;
    if GcRecords(t, ns, keys, dead, now) == [] { NothingRewritten(t, ns, keys, dead, now); }
    GcEffect(p, t, ns, keys, dead, now);
    var u := Gc(p, t, ns, keys, dead, now);
    TrimReads(t.index[(ns, key)], u, (ns, key), now, now);
    ReadResurrected(t, u, ns, key, now);
  }

  /** One key put, deleted and put again. */
  function Rewritten(put: Record, del: Record): seq<Event> {
    [Event(true, put, 1), Event(true, del, 2), Event(true, put, 3)]
  }

  lemma RewrittenTables(p: Policy, ns: Name, put: Record, del: Record)
    requires IsPut(put) && del.tag == TAG_DEL && put.key == del.key
    ensures var v := VersionOf(put, 3); var k := (ns, put.key);
      Replayed(p, ns, Rewritten(put, del), Tables(map[], map[])) ==
        Tables(map[k := if p == LastWriter then Lww(v) else Register([v])], map[k := del.hlc])
  {
    var t0 := Tables(map[], map[]);
    var k := (ns, put.key);
    var (v1, v3) := (VersionOf(put, 1), VersionOf(put, 3));
    var one, two, three := [Event(true, put, 1)], [Event(true, put, 1), Event(true, del, 2)], Rewritten(put, del);
    assert one[..0] == [] && two[..1] == one && three[..2] == two;
    assert Replayed(p, ns, one, t0) == Tables(map[k := if p == LastWriter then Lww(v1) else Register([v1])], map[]);
    assert Replayed(p, ns, two, t0) == Tables(map[], map[k := del.hlc]);
    assert Replayed(p, ns, three, t0) ==
      Tables(map[k := if p == LastWriter then Lww(v3) else Register([v3])], map[k := del.hlc]);
  }

  // ---------- the rewritten log ----------

  predicate GcRecord(r: Record) {
    Canonical(r) && IsOpTag(r.tag)
  }

  lemma {:induction false} VersionRecsOk(key: Key, vs: seq<Version>, now: nat)
    ensures forall r | r in VersionRecs(key, vs, now) :: GcRecord(r)
  {
    if vs != [] { VersionRecsOk(key, vs[..|vs| - 1], now); }
  }

  lemma {:induction false} IndexRecsOk(t: Tables, ns: Name, keys: seq<Key>, now: nat)
    requires forall k | k in keys :: (ns, k) in t.index
    ensures forall r | r in IndexRecs(t, ns, keys, now) :: GcRecord(r)
    decreases |keys|
  {
    if keys != [] {
      var n := |keys| - 1;
      IndexRecsOk(t, ns, keys[..n], now);
      var e := t.index[(ns, keys[n])];
      if e.Register? { VersionRecsOk(keys[n], e.vs, now); }
    }
  }

  lemma {:induction false} TombRecsOk(t: Tables, ns: Name, dead: seq<Key>)
    requires forall k | k in dead :: (ns, k) in t.tombs
    ensures forall r | r in TombRecs(t, ns, dead) :: GcRecord(r)
    decreases |dead|
  {
    if dead != [] { TombRecsOk(t, ns, dead[..|dead| - 1]); }
  }

  /** `write_fresh`: one segment holding the records, re-chained from zero. */
  method WriteFresh(c: Crypto, records: seq<Record>) returns (file: Bytes)
    ensures file == Flat(EncodeAll(c, ZERO_ID, records))
  {
    hide Encode, Flat;
    file := [];
    var head := ZERO_ID;
    ghost var done: seq<Bytes> := [];
    FlatEmpty([]);
    assert records[0..] == records;
    for i := 0 to |records|
      invariant file == Flat(done)
      invariant EncodeAll(c, ZERO_ID, records) == done + EncodeAll(c, head, records[i..])
    {
      var bytes := ToBytes(c, records[i], head);
      assert records[i..][1..] == records[i + 1..];
      FlatSnoc(done, bytes);
      Assoc(done, [bytes], EncodeAll(c, RecordHash(c, head, bytes), records[i + 1..]));
      file := file + bytes;
      head := RecordHash(c, head, bytes);
      done := done + [bytes];
    }
    assert done + [] == done;
  }

  /** Reopening the rewritten segment, with no snapshot of the namespace,
      rebuilds exactly the compacted tables. */
  lemma GcReopen(c: Crypto, p: Policy, t: Tables, ns: Name, keys: seq<Key>, dead: seq<Key>, now: nat)
    requires Shaped(p, ns, t) && Listed(t, ns, keys, dead)
    requires var out := GcRecords(t, ns, keys, dead, now); out != [] && forall i | 0 <= i < |out| :: Fits(out[i])
    ensures var out := GcRecords(t, ns, keys, dead, now);
      ReopenSpace(c, p, ns, [Flat(EncodeAll(c, ZERO_ID, out))], Snapshot(0, ZERO_ID, ClearSpace(t, ns))) ==
        Ok(Gc(p, t, ns, keys, dead, now))
  {
    hide SyncAll, IndexRecs, TombRecs, Fits, EncodeAll, ReopenSpace, Flat, ScanFiles, HeadAfter, Shaped, Storable, Applicable;
    var out := GcRecords(t, ns, keys, dead, now);
    GcSegment(c, t, ns, keys, dead, now);
    var s := Space([], ClearSpace(t, ns));
    ClearedShaped(p, t, ns);
    EncodeNone(c);
    ReopenWhole(c, p, ns, [Flat(EncodeAll(c, ZERO_ID, out))], [EncodeAll(c, ZERO_ID, out)], false, s, out);
    assert out[0..] == out;
  }

  /** The rewritten segment is recovered whole, as records that can be stored
      and applied. */
  lemma GcSegment(c: Crypto, t: Tables, ns: Name, keys: seq<Key>, dead: seq<Key>, now: nat)
    requires Listed(t, ns, keys, dead)
    requires var out := GcRecords(t, ns, keys, dead, now); out != [] && forall i | 0 <= i < |out| :: Fits(out[i])
    ensures var out := GcRecords(t, ns, keys, dead, now); var groups := [EncodeAll(c, ZERO_ID, out)];
      && AllStorable(out) && AllApplicable(out) && Join(groups) == EncodeAll(c, ZERO_ID, out)
      && ScanFiles(c, [Flat(EncodeAll(c, ZERO_ID, out))], ZERO_ID) == Recovered(groups, false)
  {
    hide IndexRecs, TombRecs, Fits, Canonical, EncodeAll, Flat, ScanFiles, ChainOk, HeadAfter, AllFramed;
    var out := GcRecords(t, ns, keys, dead, now);
    IndexRecsOk(t, ns, keys, now);
    TombRecsOk(t, ns, dead);
    GcRecordsStorable(out);
    var groups := [EncodeAll(c, ZERO_ID, out)];
    JoinLast(groups);
    assert groups[..0] == [];
    assert Join(groups) == EncodeAll(c, ZERO_ID, out);
    EncodeAllChained(c, ZERO_ID, out);
    ScanFilesComplete(c, groups, [], [], ZERO_ID);
    assert FilesOf(groups, []) == [Flat(EncodeAll(c, ZERO_ID, out))] by {
      assert Flat(groups[0]) + [] == Flat(groups[0]);
    }
  }

  /** With the checkpoint that closes a compaction, reopening gives the compacted
      tables again. */
  lemma GcCheckpointed(c: Crypto, p: Policy, t: Tables, ns: Name, keys: seq<Key>, dead: seq<Key>, now: nat)
    requires Shaped(p, ns, t) && Listed(t, ns, keys, dead)
    requires var out := GcRecords(t, ns, keys, dead, now); out != [] && forall i | 0 <= i < |out| :: Fits(out[i])
    ensures var out := GcRecords(t, ns, keys, dead, now); var u := Gc(p, t, ns, keys, dead, now);
      ReopenSpace(c, p, ns, [Flat(EncodeAll(c, ZERO_ID, out))], SnapshotOf(c, Space(out, u))) == Ok(u)
  {
    hide IndexRecs, TombRecs, Fits, EncodeAll, ReopenSpace, Flat, ScanFiles, Shaped, Storable, Applicable, SnapshotOf, SyncRecord;
    var out := GcRecords(t, ns, keys, dead, now);
    var u := Gc(p, t, ns, keys, dead, now);
    GcSegment(c, t, ns, keys, dead, now);
    ClearedShaped(p, t, ns);
    SyncAllShaped(p, ns, out, 0, ClearSpace(t, ns));
    ReopenWhole(c, p, ns, [Flat(EncodeAll(c, ZERO_ID, out))], [EncodeAll(c, ZERO_ID, out)], false, Space(out, u), out);
    assert out[|out|..] == [];
  }

  lemma {:induction false} EncodeAllInjective(c: Crypto, h: Id32, a: seq<Record>, b: seq<Record>)
    requires AllStorable(a) && AllStorable(b) && EncodeAll(c, h, a) == EncodeAll(c, h, b)
    ensures a == b
    decreases |a|
  {
    hide Encode, Parse, Storable, RecordHash, Framed;
    if a != [] {
      EncodedLink(c, a[0], h);
      EncodedLink(c, b[0], h);
      var bytes := EncodeAll(c, h, a);
      assert bytes[0] == Encode(c, a[0], h) == Encode(c, b[0], h);
      assert bytes[1..] == EncodeAll(c, RecordHash(c, h, bytes[0]), a[1..]);
      assert bytes[1..] == EncodeAll(c, RecordHash(c, h, bytes[0]), b[1..]);
      EncodeAllInjective(c, RecordHash(c, h, bytes[0]), a[1..], b[1..]);
      assert a == [a[0]] + a[1..] && b == [b[0]] + b[1..];
    }
  }

  /** A checkpoint belongs to a log that starts with the checkpointed records,
      and to no other unless the hash fails on the records of the two logs. */
  lemma BelongsIffPrefix(c: Crypto, s: Space, log: seq<Record>) returns (x: Bytes, y: Bytes)
    requires AllStorable(s.log) && AllStorable(log)
    ensures s.log <= log ==> Belongs(c, SnapshotOf(c, s), log)
    ensures Belongs(c, SnapshotOf(c, s), log) ==>
      s.log <= log || Defeats(c, EncodeAll(c, ZERO_ID, s.log), EncodeAll(c, ZERO_ID, log[..|s.log|]), x, y)
  {
    hide EncodeAll, HeadAfter, Storable, ChainOk, AllFramed, Defeats;
    x, y := [], [];
    var n := |s.log|;
    if n <= |log| {
      var front := log[..n];
      if s.log <= log { assert front == s.log; }
      EncodeAllChained(c, ZERO_ID, s.log);
      EncodeAllChained(c, ZERO_ID, front);
      if HeadAt(c, log, n) == SnapshotOf(c, s).head {
        x, y := HeadDeterminesLog(c, EncodeAll(c, ZERO_ID, s.log), EncodeAll(c, ZERO_ID, front));
        if EncodeAll(c, ZERO_ID, s.log) == EncodeAll(c, ZERO_ID, front) {
          EncodeAllInjective(c, ZERO_ID, s.log, front);
          assert s.log <= log;
        }
      }
    }
  }

  /** A crash after the segments were replaced and before the closing checkpoint:
      the old checkpoint, of state `s`, stands beside the rewritten segment, of
      which any number of bytes reached the disk.  Opening succeeds exactly when
      the checkpoint belongs to the records that survive: when they start with
      the very records it covers, unless the hash fails on these two logs. */
  lemma GcCrashWindow(c: Crypto, p: Policy, ns: Name, s: Space, out: seq<Record>, n: nat) returns (m: nat, x: Bytes, y: Bytes)
    requires Shaped(p, ns, s.t) && AllStorable(s.log) && AllStorable(out) && AllApplicable(out)
    requires InLast([EncodeAll(c, ZERO_ID, out)], n)
    ensures m == |Join(Survivors([EncodeAll(c, ZERO_ID, out)], n))| <= |out|
    ensures var r := ReopenSpace(c, p, ns, CutFiles([EncodeAll(c, ZERO_ID, out)], n), SnapshotOf(c, s));
      && (r.Ok? <==> Belongs(c, SnapshotOf(c, s), out[..m]))
      && (s.log <= out[..m] ==> r == Ok(SyncAll(p, ns, out[|s.log|..m], |s.log|, s.t)))
      && (r.Ok? ==>
          s.log <= out[..m] || Defeats(c, EncodeAll(c, ZERO_ID, s.log), EncodeAll(c, ZERO_ID, out[..m][..|s.log|]), x, y))
  {
    hide ScanFiles, EncodeAll, Shaped, Storable, Applicable, SyncAll, Flat, Survivors, CutFiles, ReopenSpace,
      HeadAfter, ChainOk, AllFramed, Defeats, Belongs, SnapshotOf;
    var groups := [EncodeAll(c, ZERO_ID, out)];
    JoinLast(groups);
    assert groups[..0] == [];
    assert Join(groups) == EncodeAll(c, ZERO_ID, out);
    EncodeAllChained(c, ZERO_ID, out);
    CrashRecovery(c, groups, n);
    var kept := Survivors(groups, n);
    m := |Join(kept)|;
    EncodeAllPrefix(c, ZERO_ID, out, m);
    var files := CutFiles(groups, n);
    SnapshotTables(c, s);
    ReopenIff(c, p, ns, files, kept, ScanFiles(c, files, ZERO_ID).torn, SnapshotOf(c, s), out[..m]);
    x, y := BelongsIffPrefix(c, s, out[..m]);
    if s.log <= out[..m] { assert out[..m][|s.log|..] == out[|s.log|..m]; }
  }

  lemma SnapshotTables(c: Crypto, s: Space)
    ensures SnapshotOf(c, s).t == s.t && SnapshotOf(c, s).seqNo == |s.log|
  {
  }

  /** So whenever compaction leaves fewer records than the old checkpoint covers,
      such as one of two puts of a last-writer key, a crash in this window leaves
      a namespace that does not open. */
  lemma ShrunkWindow(c: Crypto, p: Policy, ns: Name, s: Space, out: seq<Record>, n: nat)
    requires Shaped(p, ns, s.t) && AllStorable(s.log) && AllStorable(out) && AllApplicable(out)
    requires InLast([EncodeAll(c, ZERO_ID, out)], n) && |out| < |s.log|
    ensures !ReopenSpace(c, p, ns, CutFiles([EncodeAll(c, ZERO_ID, out)], n), SnapshotOf(c, s)).Ok?
  {
    hide ReopenSpace, CutFiles, InLast, EncodeAll, HeadAfter, Survivors, Shaped, Storable, Applicable, Defeats;
    var m, x, y := GcCrashWindow(c, p, ns, s, out, n);
  }

  lemma GcRecordsStorable(out: seq<Record>)
    requires forall r | r in out :: GcRecord(r)
    requires forall i | 0 <= i < |out| :: Fits(out[i])
    ensures AllStorable(out) && AllApplicable(out)
  {
    hide Fits;
    forall i | 0 <= i < |out|
      ensures Storable(out[i]) && Applicable(out[i])
    {
      assert out[i] in out;
    }
  }

  lemma EncodeNone(c: Crypto)
    ensures EncodeAll(c, ZERO_ID, []) == [] && HeadAfter(c, ZERO_ID, []) == ZERO_ID
  {
  }

  lemma ClearedShaped(p: Policy, t: Tables, ns: Name)
    ensures Shaped(p, ns, ClearSpace(t, ns))
  {
  }
}
