/** Order-independent convergence of the merge: replicas that agree and receive
    the same set of synced records, in any order and with any repetitions,
    agree again. */
module Convergence {
  import opened ByteStrings
  import opened Records
  import opened StoreSpec

  /** A version without its position in the local log. */
  datatype Write = Write(hlc: U64, replica: Id32, author: Id32, value: Bytes, expiresAt: U64)

  function Erase(v: Version): Write {
    Write(v.hlc, v.replica, v.author, v.value, v.expiresAt)
  }

  function EraseAll(vs: seq<Version>): multiset<Write> {
    if vs == [] then multiset{} else EraseAll(vs[..|vs| - 1]) + multiset{Erase(vs[|vs| - 1])}
  }

  /** All writes stored under a key. */
  function Writes(t: Tables, k: EntryKey): multiset<Write> {
    if k !in t.index then multiset{}
    else match t.index[k]
      case Lww(v) => multiset{Erase(v)}
      case Register(vs) => EraseAll(vs)
  }

  /** What `get` shows of a key, up to log positions and arrival order. */
  function Visible(t: Tables, k: EntryKey): Option<multiset<Write>> {
    if Get(t, k).None? then None else Some(Writes(t, k))
  }

  // ---------- order-independent summary of a list of operations ----------

  function PutOf(op: Record): Write {
    Write(op.hlc, op.replica, op.author, op.value, op.expiresAt)
  }

  function Put(op: Record, key: Key): multiset<Write> {
    if IsPut(op) && op.key == key then multiset{PutOf(op)} else multiset{}
  }

  predicate Deletes(op: Record, key: Key) {
    op.tag == TAG_DEL && op.key == key
  }

  function PutsAt(ops: seq<Record>, key: Key): multiset<Write> {
    if ops == [] then multiset{} else PutsAt(ops[..|ops| - 1], key) + Put(ops[|ops| - 1], key)
  }

  predicate DeletesAt(ops: seq<Record>, key: Key) {
    exists op | op in ops :: Deletes(op, key)
  }

  function PutsIn(rs: seq<Record>, key: Key): multiset<Write> {
    if rs == [] then multiset{} else PutsIn(rs[..|rs| - 1], key) + PutsAt(Ops(rs[|rs| - 1]), key)
  }

  predicate DeletesIn(rs: seq<Record>, key: Key) {
    exists r | r in rs :: DeletesAt(Ops(r), key)
  }

  ghost predicate IsNewest(w: Write, ws: multiset<Write>) {
    w in ws && forall x | x in ws :: !StampLess(w.hlc, w.replica, x.hlc, x.replica)
  }

  /** Key `k` of `t` is what the writes `puts` and possibly a delete make of
      key `k` of `t0`. */
  ghost predicate Reached(p: Policy, t0: Tables, t: Tables, k: EntryKey, puts: multiset<Write>, deleted: bool) {
    && (k in t.tombs <==> k in t0.tombs || deleted)
    && (k !in t.tombs ==>
         var all := Writes(t0, k) + puts;
         && (k in t.index <==> all != multiset{})
         && (p == CrdtRegister ==> Writes(t, k) == all)
         && (p == LastWriter && k in t.index ==> t.index[k].Lww? && IsNewest(Erase(t.index[k].v), all)))
  }

  lemma {:induction false} EraseAllSnoc(vs: seq<Version>, v: Version)
    ensures EraseAll(vs + [v]) == EraseAll(vs) + multiset{Erase(v)}
  {
    assert (vs + [v])[..|vs|] == vs;
  }

  lemma ReachedElsewhere(p: Policy, ns: Name, op: Record, seqNo: nat, t0: Tables, t: Tables, key: Key,
                         puts: multiset<Write>, deleted: bool)
    requires op.key != key && Reached(p, t0, t, (ns, key), puts, deleted)
    ensures Reached(p, t0, SyncOp(p, ns, op, seqNo, t).t, (ns, key), puts, deleted)
  {
    hide IsNewest, EraseAll;
    var k := (ns, key);
    var t' := SyncOp(p, ns, op, seqNo, t).t;
    assert k in t'.tombs <==> k in t.tombs;
    assert k in t'.index <==> k in t.index;
    assert k in t.index ==> t'.index[k] == t.index[k];
  }

  /** A delete of the key, or a put onto its tombstone. */
  lemma ReachedBuried(p: Policy, ns: Name, op: Record, seqNo: nat, t0: Tables, t: Tables, puts: multiset<Write>, deleted: bool)
    requires var k := (ns, op.key); (op.tag == TAG_DEL || k in t.tombs) && Reached(p, t0, t, k, puts, deleted)
    ensures Reached(p, t0, SyncOp(p, ns, op, seqNo, t).t, (ns, op.key), puts + Put(op, op.key), deleted || Deletes(op, op.key))
  {
    assert (ns, op.key) in SyncOp(p, ns, op, seqNo, t).t.tombs;
  }

  lemma ReachedPush(ns: Name, op: Record, seqNo: nat, t0: Tables, t: Tables, puts: multiset<Write>)
    requires Shaped(CrdtRegister, ns, t) && IsPut(op)
    requires var k := (ns, op.key); k !in t.tombs && Reached(CrdtRegister, t0, t, k, puts, false)
    ensures var k := (ns, op.key);
      Reached(CrdtRegister, t0, SyncOp(CrdtRegister, ns, op, seqNo, t).t, k, puts + multiset{PutOf(op)}, false)
  {
    var k := (ns, op.key);
    var v := VersionOf(op, seqNo);
    if k in t.index {
      EraseAllSnoc(t.index[k].vs, v);
    } else {
      EraseAllSnoc([], v);
      assert [] + [v] == [v];
    }
  }

  lemma ReachedUndeleted(p: Policy, t0: Tables, t: Tables, k: EntryKey, puts: multiset<Write>, deleted: bool)
    requires Reached(p, t0, t, k, puts, deleted) && k !in t.tombs
    ensures !deleted
  {
  }

  /** One synced operation moves the summary by its own write or delete. */
  lemma ReachedOp(p: Policy, ns: Name, op: Record, seqNo: nat, t0: Tables, t: Tables, key: Key,
                  puts: multiset<Write>, deleted: bool)
    requires Shaped(p, ns, t) && IsOpTag(op.tag)
    requires Reached(p, t0, t, (ns, key), puts, deleted)
    ensures Reached(p, t0, SyncOp(p, ns, op, seqNo, t).t, (ns, key), puts + Put(op, key), deleted || Deletes(op, key))
  {
    hide SyncOp, Reached, Shaped;
    if op.key != key {
      ReachedElsewhere(p, ns, op, seqNo, t0, t, key, puts, deleted);
      assert puts + multiset{} == puts;
    } else if op.tag == TAG_DEL || (ns, key) in t.tombs {
      ReachedBuried(p, ns, op, seqNo, t0, t, puts, deleted);
    } else {
      ReachedUndeleted(p, t0, t, (ns, key), puts, deleted);
      if p == CrdtRegister {
        ReachedPush(ns, op, seqNo, t0, t, puts);
      } else {
        ReachedNewest(ns, op, seqNo, t0, t, puts);
      }
    }
  }

  lemma ReachedNewest(ns: Name, op: Record, seqNo: nat, t0: Tables, t: Tables, puts: multiset<Write>)
    requires Shaped(LastWriter, ns, t) && IsPut(op)
    requires var k := (ns, op.key); k !in t.tombs && Reached(LastWriter, t0, t, k, puts, false)
    ensures var k := (ns, op.key);
      Reached(LastWriter, t0, SyncOp(LastWriter, ns, op, seqNo, t).t, k, puts + multiset{PutOf(op)}, false)
  {
    var k := (ns, op.key);
    var w := PutOf(op);
    var all := Writes(t0, k) + puts;
    LessIrreflexive(w.replica);
    if k in t.index && !Older(VersionOf(op, seqNo), t.index[k].v) {
      var cur := t.index[k].v;
      forall x | x in all
        ensures !StampLess(w.hlc, w.replica, x.hlc, x.replica)
      {
        StampTransitive(x.hlc, x.replica, cur.hlc, cur.replica, w.hlc, w.replica);
      }
    } else if k in t.index {
      var cur := t.index[k].v;
      StampAsymmetric(w.hlc, w.replica, cur.hlc, cur.replica);
    }
  }

  lemma StampAsymmetric(h1: U64, r1: Id32, h2: U64, r2: Id32)
    requires StampLess(h1, r1, h2, r2)
    ensures !StampLess(h2, r2, h1, r1)
  {
    LessIrreflexive(r1);
    if Less(r1, r2) && Less(r2, r1) { LessTransitive(r1, r2, r1); }
  }

  lemma {:induction false} ReachedOps(p: Policy, ns: Name, ops: seq<Record>, seqNo: nat, t0: Tables, t: Tables, key: Key,
                                      puts: multiset<Write>, deleted: bool)
    requires Shaped(p, ns, t) && forall op | op in ops :: IsOpTag(op.tag)
    requires Reached(p, t0, t, (ns, key), puts, deleted)
    ensures Reached(p, t0, SyncOps(p, ns, ops, seqNo, t).t, (ns, key), puts + PutsAt(ops, key), deleted || DeletesAt(ops, key))
    decreases |ops|
  {
    hide Reached, Shaped, SyncOp, Put, DeletesAt;
    DeletesSnoc(ops, key);
    if ops != [] {
      var n := |ops| - 1;
      var a := SyncOps(p, ns, ops[..n], seqNo, t);
      OpsKeepShape(p, ns, ops[..n], seqNo, t);
      ReachedOps(p, ns, ops[..n], seqNo, t0, t, key, puts, deleted);
      ReachedOp(p, ns, ops[n], seqNo, t0, a.t, key, puts + PutsAt(ops[..n], key), deleted || DeletesAt(ops[..n], key));
      assert puts + PutsAt(ops[..n], key) + Put(ops[n], key) == puts + PutsAt(ops, key);
    } else {
      assert puts + PutsAt(ops, key) == puts;
    }
  }

  lemma DeletesSnoc(ops: seq<Record>, key: Key)
    ensures DeletesAt(ops, key) <==> ops != [] && (DeletesAt(ops[..|ops| - 1], key) || Deletes(ops[|ops| - 1], key))
  {
    if ops != [] { assert ops == ops[..|ops| - 1] + [ops[|ops| - 1]]; }
  }

  // ---------- lists of records ----------

  lemma {:induction false} ReachedAll(p: Policy, ns: Name, rs: seq<Record>, n0: nat, t0: Tables, key: Key)
    requires Shaped(p, ns, t0) && AllApplicable(rs)
    ensures Shaped(p, ns, SyncAll(p, ns, rs, n0, t0))
    ensures Reached(p, t0, SyncAll(p, ns, rs, n0, t0), (ns, key), PutsIn(rs, key), DeletesIn(rs, key))
    decreases |rs|
  {
    if rs == [] {
      ReachedSelf(p, ns, t0, key);
    } else {
      hide Reached, Shaped, SyncOps, PutsAt, DeletesAt, DeletesIn;
      var n := |rs| - 1;
      var t := SyncAll(p, ns, rs[..n], n0, t0);
      ReachedAll(p, ns, rs[..n], n0, t0, key);
      ApplicableOps(rs[n]);
      OpsKeepShape(p, ns, Ops(rs[n]), n0 + |rs|, t);
      ReachedOps(p, ns, Ops(rs[n]), n0 + |rs|, t0, t, key, PutsIn(rs[..n], key), DeletesIn(rs[..n], key));
      DeletesInSnoc(rs, key);
    }
  }

  lemma DeletesInSnoc(rs: seq<Record>, key: Key)
    requires rs != []
    ensures var n := |rs| - 1; DeletesIn(rs, key) == (DeletesIn(rs[..n], key) || DeletesAt(Ops(rs[n]), key))
  {
    hide DeletesAt;
    assert rs == rs[..|rs| - 1] + [rs[|rs| - 1]];
  }

  lemma ReachedSelf(p: Policy, ns: Name, t: Tables, key: Key)
    requires Shaped(p, ns, t)
    ensures Reached(p, t, t, (ns, key), multiset{}, false)
  {
    var k := (ns, key);
    assert Writes(t, k) + multiset{} == Writes(t, k);
    if k in t.index {
      match t.index[k]
      case Lww(v) => LessIrreflexive(v.replica);
      case Register(vs) => assert Erase(vs[|vs| - 1]) in EraseAll(vs);
    }
  }

  // ---------- permutations ----------

  function Without(rs: seq<Record>, i: nat): seq<Record>
    requires i < |rs|
  {
    rs[..i] + rs[i + 1..]
  }

  lemma Swap(x: multiset<Write>, a: multiset<Write>, b: multiset<Write>)
    ensures (x + a) + b == (x + b) + a
  {
  }

  lemma PutsSnoc(rs: seq<Record>, r: Record, key: Key)
    ensures PutsIn(rs + [r], key) == PutsIn(rs, key) + PutsAt(Ops(r), key)
  {
    hide PutsAt;
    assert (rs + [r])[..|rs|] == rs;
  }

  lemma WithoutSnoc(rs: seq<Record>, i: nat)
    requires i < |rs|
    ensures var n := |rs| - 1;
      && rs == rs[..n] + [rs[n]]
      && if i == n then Without(rs, i) == rs[..n] else Without(rs, i) == Without(rs[..n], i) + [rs[n]]
  {
  }

  lemma {:induction false} PutsWithout(rs: seq<Record>, i: nat, key: Key)
    requires i < |rs|
    ensures PutsIn(rs, key) == PutsIn(Without(rs, i), key) + PutsAt(Ops(rs[i]), key)
    decreases |rs|
  {
    hide PutsAt, PutsIn, Without, Ops;
    var n := |rs| - 1;
    WithoutSnoc(rs, i);
    PutsSnoc(rs[..n], rs[n], key);
    if i < n {
      PutsWithout(rs[..n], i, key);
      PutsSnoc(Without(rs[..n], i), rs[n], key);
      Swap(PutsIn(Without(rs[..n], i), key), PutsAt(Ops(rs[i]), key), PutsAt(Ops(rs[n]), key));
    }
  }

  /** The last record of one order, found in another. */
  lemma FindLast(a: seq<Record>, b: seq<Record>) returns (j: nat)
    requires multiset(a) == multiset(b) && a != []
    ensures j < |b| && b[j] == a[|a| - 1] && multiset(Without(b, j)) == multiset(a[..|a| - 1])
  {
    var n := |a| - 1;
    assert a == a[..n] + [a[n]];
    assert a[n] in multiset(b);
    j :| 0 <= j < |b| && b[j] == a[n];
    assert b == b[..j] + [b[j]] + b[j + 1..];
    assert multiset(Without(b, j)) == multiset(b) - multiset{a[n]} == multiset(a[..n]);
  }

  lemma {:induction false} PutsPermuted(a: seq<Record>, b: seq<Record>, key: Key)
    requires multiset(a) == multiset(b)
    ensures PutsIn(a, key) == PutsIn(b, key)
    decreases |a|
  {
    hide PutsAt;
    if a == [] {
      assert |multiset(b)| == |b|;
    } else {
      var j := FindLast(a, b);
      PutsWithout(b, j, key);
      PutsPermuted(a[..|a| - 1], Without(b, j), key);
    }
  }

  ghost predicate NoRepeats(rs: seq<Record>) {
    forall i, j | 0 <= i < j < |rs| :: rs[i] != rs[j]
  }

  lemma {:induction false} SameElements(a: seq<Record>, b: seq<Record>)
    requires NoRepeats(a) && NoRepeats(b)
    requires forall r :: r in a <==> r in b
    ensures multiset(a) == multiset(b)
  {
    CountOnce(a);
    CountOnce(b);
    forall r
      ensures multiset(a)[r] == multiset(b)[r]
    {
    }
  }

  lemma {:induction false} CountOnce(a: seq<Record>)
    requires NoRepeats(a)
    ensures forall r :: multiset(a)[r] == if r in a then 1 else 0
  {
    if a != [] {
      var n := |a| - 1;
      CountOnce(a[..n]);
      assert a == a[..n] + [a[n]];
    }
  }

  // ---------- deduplication ----------

  /** The records of `rs` that a log with versions `seen` really appends. */
  function Fresh(rs: seq<Record>, seen: set<Identity>): seq<Record>
    decreases |rs|
  {
    if rs == [] then []
    else
      var n := |rs| - 1;
      if VersionKey(rs[n]) in seen + LogVersions(rs[..n]) then Fresh(rs[..n], seen) else Fresh(rs[..n], seen) + [rs[n]]
  }

  lemma VersionsSnoc(rs: seq<Record>)
    requires rs != []
    ensures var n := |rs| - 1; LogVersions(rs) == LogVersions(rs[..n]) + {VersionKey(rs[n])}
  {
    assert rs == rs[..|rs| - 1] + [rs[|rs| - 1]];
  }

  lemma NoVersions()
    ensures LogVersions([]) == {}
  {
  }

  /** Applying with deduplication is applying the fresh records. */
  lemma {:induction false} ApplyAllFresh(p: Policy, ns: Name, rs: seq<Record>, s: Space)
    ensures var f := Fresh(rs, LogVersions(s.log));
      && ApplyAll(p, ns, rs, s) == Space(s.log + f, SyncAll(p, ns, f, |s.log|, s.t))
      && LogVersions(s.log + f) == LogVersions(s.log) + LogVersions(rs)
    decreases |rs|
  {
    hide SyncRecord, LogVersions, VersionKey;
    var seen := LogVersions(s.log);
    var f := Fresh(rs, seen);
    if rs == [] {
      assert s.log + [] == s.log;
      NoVersions();
    } else {
      var n := |rs| - 1;
      var g := Fresh(rs[..n], seen);
      ApplyAllFresh(p, ns, rs[..n], s);
      VersionsSnoc(rs);
      if |f| > |g| {
        assert s.log + f == (s.log + g) + [rs[n]] && f[..|f| - 1] == g;
        VersionsSnoc(s.log + f);
        assert (s.log + f)[..|s.log + f| - 1] == s.log + g;
      }
    }
  }

  /** A version key belongs to one record only. */
  ghost predicate Identified(rs: seq<Record>) {
    forall i, j | 0 <= i < |rs| && 0 <= j < |rs| && VersionKey(rs[i]) == VersionKey(rs[j]) :: rs[i] == rs[j]
  }

  lemma {:induction false} FreshWithin(rs: seq<Record>, seen: set<Identity>)
    ensures forall r | r in Fresh(rs, seen) :: r in rs && VersionKey(r) !in seen
    decreases |rs|
  {
    hide VersionKey, LogVersions;
    if rs != [] {
      FreshWithin(rs[..|rs| - 1], seen);
      assert rs == rs[..|rs| - 1] + [rs[|rs| - 1]];
    }
  }

  lemma {:induction false} FreshDistinct(rs: seq<Record>, seen: set<Identity>)
    ensures NoRepeats(Fresh(rs, seen))
    decreases |rs|
  {
    hide VersionKey;
    if rs != [] {
      var n := |rs| - 1;
      FreshDistinct(rs[..n], seen);
      FreshWithin(rs[..n], seen);
      if VersionKey(rs[n]) !in seen + LogVersions(rs[..n]) {
        assert rs[n] !in Fresh(rs[..n], seen);
      }
    }
  }

  lemma {:induction false} FreshCovers(rs: seq<Record>, seen: set<Identity>, r: Record)
    requires Identified(rs) && r in rs && VersionKey(r) !in seen
    ensures r in Fresh(rs, seen)
    decreases |rs|
  {
    hide VersionKey;
    var n := |rs| - 1;
    assert rs == rs[..n] + [rs[n]];
    if r in rs[..n] { FreshCovers(rs[..n], seen, r); }
  }

  lemma FreshElements(rs: seq<Record>, seen: set<Identity>)
    ensures forall r | r in Fresh(rs, seen) :: r in rs && VersionKey(r) !in seen
    ensures Identified(rs) ==> forall r | r in rs && VersionKey(r) !in seen :: r in Fresh(rs, seen)
    ensures NoRepeats(Fresh(rs, seen))
  {
    hide VersionKey, Fresh;
    FreshWithin(rs, seen);
    FreshDistinct(rs, seen);
    if Identified(rs) {
      forall r | r in rs && VersionKey(r) !in seen { FreshCovers(rs, seen, r); }
    }
  }

  lemma {:induction false} PutsMember(rs: seq<Record>, key: Key, w: Write)
    ensures w in PutsIn(rs, key) <==> exists r | r in rs :: w in PutsAt(Ops(r), key)
  {
    hide PutsAt;
    if rs != [] {
      var n := |rs| - 1;
      PutsMember(rs[..n], key, w);
      assert rs == rs[..n] + [rs[n]];
    }
  }

  // ---------- the theorem ----------

  ghost predicate KeyAgrees(t1: Tables, t2: Tables, k: EntryKey) {
    && (k in t1.tombs <==> k in t2.tombs)
    && (k !in t1.tombs ==> (k in t1.index <==> k in t2.index) && Writes(t1, k) == Writes(t2, k))
  }

  /** Two replicas of a namespace have seen the same record versions and show
      the same data, up to log positions and arrival order. */
  ghost predicate Agree(ns: Name, s1: Space, s2: Space) {
    && LogVersions(s1.log) == LogVersions(s2.log)
    && forall key :: KeyAgrees(s1.t, s2.t, (ns, key))
  }

  /** Only identical writes share a stamp. */
  ghost predicate StampsDistinct(ws: multiset<Write>) {
    forall a, b | a in ws && b in ws && a.hlc == b.hlc && a.replica == b.replica :: a == b
  }

  lemma NewestUnique(ws: multiset<Write>, a: Write, b: Write)
    requires StampsDistinct(ws) && IsNewest(a, ws) && IsNewest(b, ws)
    ensures a == b
  {
    StampTotal(a.hlc, a.replica, b.hlc, b.replica);
  }

  lemma SameOutcome(p: Policy, a0: Tables, a: Tables, b0: Tables, b: Tables, k: EntryKey, puts: multiset<Write>, deleted: bool)
    requires KeyAgrees(a0, b0, k)
    requires Reached(p, a0, a, k, puts, deleted) && Reached(p, b0, b, k, puts, deleted)
    requires p == LastWriter && k !in a0.tombs ==> StampsDistinct(Writes(a0, k) + puts)
    ensures KeyAgrees(a, b, k)
  {
    if k !in a.tombs && p == LastWriter && k in a.index {
      NewestUnique(Writes(a0, k) + puts, Erase(a.index[k].v), Erase(b.index[k].v));
    }
  }

  /** Convergence. Replicas that agree, then receive the same set of data
      records, each in its own order and with any repetitions, agree again. */
  lemma Converge(p: Policy, ns: Name, xs: seq<Record>, ys: seq<Record>, s1: Space, s2: Space)
    requires Shaped(p, ns, s1.t) && Shaped(p, ns, s2.t) && Agree(ns, s1, s2)
    requires AllApplicable(xs) && AllApplicable(ys)
    requires forall r :: r in xs <==> r in ys
    requires Identified(xs)
    requires p == LastWriter ==> forall key :: StampsDistinct(Writes(s1.t, (ns, key)) + PutsIn(xs, key))
    ensures Agree(ns, ApplyAll(p, ns, xs, s1), ApplyAll(p, ns, ys, s2))
    ensures forall key :: Visible(ApplyAll(p, ns, xs, s1).t, (ns, key)) == Visible(ApplyAll(p, ns, ys, s2).t, (ns, key))
  {
    hide SyncAll, Shaped, AllApplicable, KeyAgrees, StampsDistinct, PutsIn;
    var seen := LogVersions(s1.log);
    var fx, fy := Fresh(xs, seen), Fresh(ys, seen);
    ApplyAllFresh(p, ns, xs, s1);
    ApplyAllFresh(p, ns, ys, s2);
    FreshSame(xs, ys, seen);
    assert LogVersions(xs) == LogVersions(ys);
    var (a, b) := (ApplyAll(p, ns, xs, s1), ApplyAll(p, ns, ys, s2));
    forall key
      ensures KeyAgrees(a.t, b.t, (ns, key)) && Visible(a.t, (ns, key)) == Visible(b.t, (ns, key))
    {
      FreshApplicable(xs, seen);
      FreshApplicable(ys, seen);
      ReachedAll(p, ns, fx, |s1.log|, s1.t, key);
      ReachedAll(p, ns, fy, |s2.log|, s2.t, key);
      PutsPermuted(fx, fy, key);
      if p == LastWriter { FewerStamps(Writes(s1.t, (ns, key)), xs, fx, key); }
      SameOutcome(p, s1.t, a.t, s2.t, b.t, (ns, key), PutsIn(fx, key), DeletesIn(fx, key));
      AgreeVisible(a.t, b.t, (ns, key));
    }
  }

  lemma AgreeVisible(t1: Tables, t2: Tables, k: EntryKey)
    requires KeyAgrees(t1, t2, k)
    ensures Visible(t1, k) == Visible(t2, k)
  {
  }

  lemma FreshSame(xs: seq<Record>, ys: seq<Record>, seen: set<Identity>)
    requires forall r :: r in xs <==> r in ys
    requires Identified(xs)
    ensures multiset(Fresh(xs, seen)) == multiset(Fresh(ys, seen))
    ensures forall key :: DeletesIn(Fresh(xs, seen), key) <==> DeletesIn(Fresh(ys, seen), key)
    ensures forall r | r in Fresh(xs, seen) :: r in xs
  {
    hide VersionKey;
    assert Identified(ys) by {
      forall i, j | 0 <= i < |ys| && 0 <= j < |ys| && VersionKey(ys[i]) == VersionKey(ys[j])
        ensures ys[i] == ys[j]
      {
        assert ys[i] in xs && ys[j] in xs;
      }
    }
    FreshElements(xs, seen);
    FreshElements(ys, seen);
    SameElements(Fresh(xs, seen), Fresh(ys, seen));
  }

  lemma FreshApplicable(rs: seq<Record>, seen: set<Identity>)
    requires AllApplicable(rs)
    ensures AllApplicable(Fresh(rs, seen))
  {
    hide Applicable;
    FreshElements(rs, seen);
    var f := Fresh(rs, seen);
    forall i | 0 <= i < |f|
      ensures Applicable(f[i])
    {
      assert f[i] in f;
      assert f[i] in rs;
    }
  }

  lemma FewerStamps(ws: multiset<Write>, rs: seq<Record>, f: seq<Record>, key: Key)
    requires forall r | r in f :: r in rs
    requires StampsDistinct(ws + PutsIn(rs, key))
    ensures StampsDistinct(ws + PutsIn(f, key))
  {
    forall w | w in PutsIn(f, key)
      ensures w in PutsIn(rs, key)
    {
      PutsMember(f, key, w);
      PutsMember(rs, key, w);
    }
  }

  /** What the merged data is: from an empty namespace, a key is absent exactly
      when some record deletes it or none writes it; otherwise last-writer
      shows the newest write and Register shows every accepted write. */
  lemma Merged(p: Policy, ns: Name, rs: seq<Record>, key: Key)
    requires AllApplicable(rs) && Identified(rs)
    ensures var v := Visible(ApplyAll(p, ns, rs, Space([], Tables(map[], map[]))).t, (ns, key));
      && (v.None? <==> DeletesIn(rs, key) || PutsIn(rs, key) == multiset{})
      && (v.Some? && p == LastWriter ==> exists w :: v.value == multiset{w} && IsNewest(w, PutsIn(rs, key)))
      && (v.Some? && p == CrdtRegister ==> v.value == PutsIn(Fresh(rs, {}), key))
  {
    hide ApplyAll, SyncAll, PutsIn, Reached, Visible, IsNewest, DeletesIn;
    var s := Space([], Tables(map[], map[]));
    var f := Fresh(rs, {});
    NoVersions();
    ApplyAllFresh(p, ns, rs, s);
    FreshApplicable(rs, {});
    FreshElements(rs, {});
    ReachedAll(p, ns, f, 0, s.t, key);
    SameMembers(rs, f, key);
    VisibleOf(p, SyncAll(p, ns, f, 0, s.t), (ns, key), PutsIn(f, key), DeletesIn(f, key));
    forall w | IsNewest(w, PutsIn(f, key)) { NewestMembers(w, PutsIn(f, key), PutsIn(rs, key)); }
  }

  lemma VisibleOf(p: Policy, t: Tables, k: EntryKey, puts: multiset<Write>, deleted: bool)
    requires Reached(p, Tables(map[], map[]), t, k, puts, deleted)
    ensures var v := Visible(t, k);
      && (v.None? <==> deleted || puts == multiset{})
      && (v.Some? && p == LastWriter ==> exists w :: v.value == multiset{w} && IsNewest(w, puts))
      && (v.Some? && p == CrdtRegister ==> v.value == puts)
  {
    assert Writes(Tables(map[], map[]), k) + puts == puts;
    if k in t.index && k !in t.tombs && p == LastWriter {
      assert Visible(t, k).value == multiset{Erase(t.index[k].v)};
    }
  }

  lemma NewestMembers(w: Write, a: multiset<Write>, b: multiset<Write>)
    requires IsNewest(w, a) && forall x :: x in a <==> x in b
    ensures IsNewest(w, b)
  {
  }

  lemma SameMembers(a: seq<Record>, b: seq<Record>, key: Key)
    requires forall r :: r in a <==> r in b
    ensures forall w :: w in PutsIn(a, key) <==> w in PutsIn(b, key)
    ensures PutsIn(a, key) == multiset{} <==> PutsIn(b, key) == multiset{}
    ensures DeletesIn(a, key) <==> DeletesIn(b, key)
  {
    hide PutsIn;
    forall w
      ensures w in PutsIn(a, key) <==> w in PutsIn(b, key)
    {
      PutsMember(a, key, w);
      PutsMember(b, key, w);
    }
  }

  // ---------- replication is idempotent ----------

  lemma {:induction false} NothingFresh(rs: seq<Record>, seen: set<Identity>)
    requires LogVersions(rs) <= seen
    ensures Fresh(rs, seen) == []
    decreases |rs|
  {
    hide LogVersions;
    if rs != [] {
      VersionsSnoc(rs);
      NothingFresh(rs[..|rs| - 1], seen);
    }
  }

  /** Re-applying an applied batch, or any records drawn from it, changes
      nothing: no record appended, no table touched. */
  lemma Reapply(p: Policy, ns: Name, rs: seq<Record>, again: seq<Record>, s: Space)
    requires forall r | r in again :: r in rs
    ensures ApplyAll(p, ns, again, ApplyAll(p, ns, rs, s)) == ApplyAll(p, ns, rs, s)
  {
    var s' := ApplyAll(p, ns, rs, s);
    ApplyAllFresh(p, ns, rs, s);
    ApplyAllFresh(p, ns, again, s');
    NothingFresh(again, LogVersions(s'.log));
    assert s'.log + [] == s'.log;
  }

  /** Sync never appends a second record with a version the log holds. */
  lemma SyncedOnce(p: Policy, ns: Name, rs: seq<Record>, s: Space, i: nat, j: nat)
    requires i < j < |ApplyAll(p, ns, rs, s).log| && j >= |s.log|
    ensures VersionKey(ApplyAll(p, ns, rs, s).log[i]) != VersionKey(ApplyAll(p, ns, rs, s).log[j])
  {
    hide ApplyAll, SyncAll, VersionKey;
    ApplyAllFresh(p, ns, rs, s);
    FreshKeys(rs, LogVersions(s.log));
    var f := Fresh(rs, LogVersions(s.log));
    assert f[j - |s.log|] in f;
    if i < |s.log| { assert s.log[i] in s.log; }
  }

  ghost predicate DistinctVersions(rs: seq<Record>) {
    forall i, j | 0 <= i < j < |rs| :: VersionKey(rs[i]) != VersionKey(rs[j])
  }

  lemma {:induction false} FreshKeys(rs: seq<Record>, seen: set<Identity>)
    ensures forall r | r in Fresh(rs, seen) :: VersionKey(r) !in seen && VersionKey(r) in LogVersions(rs)
    ensures DistinctVersions(Fresh(rs, seen))
    decreases |rs|
  {
    if rs != [] {
      var n := |rs| - 1;
      FreshKeys(rs[..n], seen);
      VersionsSnoc(rs);
      var g := Fresh(rs[..n], seen);
      assert forall i | 0 <= i < |g| :: g[i] in g;
    }
  }

  // ---------- schemas and index definitions ----------

  /** The schema or index definition that a log leaves in force: its last one,
      unless that clears it.  Version stamps play no part. */
  function Definition(tag: Byte, rs: seq<Record>): Option<Bytes> {
    if rs == [] then None
    else
      var r := rs[|rs| - 1];
      if r.tag != tag then Definition(tag, rs[..|rs| - 1]) else if r.value == [] then None else Some(r.value)
  }

  lemma DefinitionSnoc(tag: Byte, rs: seq<Record>, r: Record)
    ensures Definition(tag, rs + [r]) ==
      if r.tag != tag then Definition(tag, rs) else if r.value == [] then None else Some(r.value)
  {
    assert (rs + [r])[..|rs|] == rs;
  }

  predicate OneDefinition(tag: Byte, rs: seq<Record>) {
    forall i, j | 0 <= i < |rs| && 0 <= j < |rs| && rs[i].tag == rs[j].tag == tag :: rs[i].value == rs[j].value
  }

  lemma {:induction false} DefinitionAmong(tag: Byte, rs: seq<Record>)
    ensures (forall r | r in rs :: r.tag != tag) ==> Definition(tag, rs).None?
    ensures forall i | 0 <= i < |rs| && rs[i].tag == tag && OneDefinition(tag, rs) ::
      Definition(tag, rs) == if rs[i].value == [] then None else Some(rs[i].value)
    decreases |rs|
  {
    if rs != [] {
      var n := |rs| - 1;
      DefinitionAmong(tag, rs[..n]);
      if OneDefinition(tag, rs) { assert OneDefinition(tag, rs[..n]); }
      forall i | 0 <= i < n && rs[i].tag == tag && OneDefinition(tag, rs)
        ensures Definition(tag, rs) == if rs[i].value == [] then None else Some(rs[i].value)
      {
        assert rs[..n][i] == rs[i];
      }
    }
  }

  /** One record moved to the end. */
  function Delayed(rs: seq<Record>, i: nat): seq<Record>
    requires i < |rs|
  {
    rs[..i] + rs[i + 1..] + [rs[i]]
  }

  lemma DelayedDefines(tag: Byte, rs: seq<Record>, i: nat)
    requires i < |rs| && rs[i].tag == tag
    ensures multiset(Delayed(rs, i)) == multiset(rs)
    ensures Definition(tag, Delayed(rs, i)) == if rs[i].value == [] then None else Some(rs[i].value)
  {
    assert rs == rs[..i] + [rs[i]] + rs[i + 1..];
    assert Delayed(rs, i)[|rs| - 1] == rs[i];
  }

  /** Unlike data, definitions follow the order of arrival: all orders of the same
      records leave the same definition exactly when the records agree on it. */
  lemma DefinitionsConvergeIff(tag: Byte, xs: seq<Record>)
    ensures (forall ys | multiset(ys) == multiset(xs) :: Definition(tag, ys) == Definition(tag, xs)) <==> OneDefinition(tag, xs)
  {
    hide Definition;
    if OneDefinition(tag, xs) {
      forall ys | multiset(ys) == multiset(xs) ensures Definition(tag, ys) == Definition(tag, xs) {
        SameDefinition(tag, xs, ys);
      }
    } else {
      var i, j :| 0 <= i < |xs| && 0 <= j < |xs| && xs[i].tag == xs[j].tag == tag && xs[i].value != xs[j].value;
      DelayedDefines(tag, xs, i);
      DelayedDefines(tag, xs, j);
      assert Definition(tag, Delayed(xs, i)) != Definition(tag, Delayed(xs, j));
    }
  }

  lemma SameDefinition(tag: Byte, xs: seq<Record>, ys: seq<Record>)
    requires multiset(ys) == multiset(xs) && OneDefinition(tag, xs)
    ensures Definition(tag, ys) == Definition(tag, xs)
  {
    hide Definition;
    forall r ensures r in ys <==> r in xs { assert r in multiset(ys) <==> r in multiset(xs); }
    DefinitionAmong(tag, xs);
    DefinitionAmong(tag, ys);
    assert OneDefinition(tag, ys) by {
      forall i, j | 0 <= i < |ys| && 0 <= j < |ys| && ys[i].tag == ys[j].tag == tag ensures ys[i].value == ys[j].value {
        assert ys[i] in xs && ys[j] in xs;
      }
    }
    if i :| 0 <= i < |ys| && ys[i].tag == tag {
      assert ys[i] in xs;
      var j :| 0 <= j < |xs| && xs[j] == ys[i];
    } else {
      forall r | r in xs ensures r.tag != tag { assert r in ys; }
    }
  }
}
