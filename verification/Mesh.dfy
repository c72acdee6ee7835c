/** Two nodes of a mesh, end to end: own writes, one exchange of pulls in each
    direction, and what both then show. */
module Mesh {
  import opened ByteStrings
  import opened Records
  import opened StoreSpec
  import opened Convergence
  import opened Replay
  import opened Reopen
  import opened PullCursor
  import opened Sync

  /** The tables are what replaying the node's own log gives. */
  predicate Faithful(p: Policy, ns: Name, s: Space) {
    s.t == SyncAll(p, ns, s.log, 0, EMPTY.t)
  }

  /** A node in good order. */
  ghost predicate Sound(p: Policy, ns: Name, s: Space) {
    Faithful(p, ns, s) && AllApplicable(s.log) && DistinctVersions(s.log)
  }

  /** Safe histories from a new namespace are faithful. */
  lemma SafeRunFaithful(p: Policy, ns: Name, acts: seq<Action>)
    requires AllApplicableActs(acts) && AllSafe(p, ns, History(p, ns, acts, EMPTY), EMPTY.t)
    ensures Faithful(p, ns, Run(p, ns, acts, EMPTY))
  {
    hide Run, SyncAll, AllSafe, History;
    ReplayEqualsLive(p, ns, acts, EMPTY);
    var log := Run(p, ns, acts, EMPTY).log;
    assert log[0..] == log;
  }

  /** `log'` continues `log` with records drawn from `more`. */
  ghost predicate Grown(log: seq<Record>, log': seq<Record>, more: seq<Record>) {
    log <= log' && forall i | |log| <= i < |log'| :: log'[i] in more
  }

  lemma GrownMembers(log: seq<Record>, log': seq<Record>, more: seq<Record>)
    requires Grown(log, log', more)
    ensures forall x | x in log' :: x in log || x in more
  {
    forall x | x in log' ensures x in log || x in more {
      var i :| 0 <= i < |log'| && log'[i] == x;
      if i < |log| { assert log[i] == log'[i]; }
    }
  }

  /** A synced record keeps a node in good order, and its log grows by at most
      that record. */
  lemma SyncedKeepsSound(p: Policy, ns: Name, r: Record, s: Space)
    requires Sound(p, ns, s) && Applicable(r)
    ensures var s' := ApplySynced(p, ns, r, s);
      && Sound(p, ns, s') && LogVersions(s'.log) == LogVersions(s.log) + {VersionKey(r)}
      && Grown(s.log, s'.log, [r])
  {
    hide SyncRecord, VersionKey, Applicable;
    if VersionKey(r) !in LogVersions(s.log) {
      var log := s.log + [r];
      assert log[..|s.log|] == s.log;
      VersionsSnoc(log);
      forall i, j | 0 <= i < j < |log| ensures VersionKey(log[i]) != VersionKey(log[j]) {
        if j == |s.log| { assert s.log[i] in s.log; }
      }
    }
  }

  lemma {:induction false} SyncedAllKeepsSound(p: Policy, ns: Name, rs: seq<Record>, s: Space)
    requires Sound(p, ns, s) && AllApplicable(rs)
    ensures var s' := ApplyAll(p, ns, rs, s);
      && Sound(p, ns, s') && LogVersions(s'.log) == LogVersions(s.log) + LogVersions(rs)
      && Grown(s.log, s'.log, rs)
  {
    hide Sound, ApplySynced, LogVersions, Applicable;
    if rs == [] {
      NoVersions();
    } else {
      var n := |rs| - 1;
      SyncedAllKeepsSound(p, ns, rs[..n], s);
      SyncedKeepsSound(p, ns, rs[n], ApplyAll(p, ns, rs[..n], s));
      VersionsSnoc(rs);
      assert rs == rs[..n] + [rs[n]];
    }
  }

  /** Everything a pull brings comes from the peer. */
  lemma DeliveredFromPeer(c: Crypto, peer: seq<Record>, head: nat)
    ensures forall r | r in Delivered(c, peer, head) :: r in peer
    ensures LogVersions(Delivered(c, peer, head)) <= LogVersions(peer)
    ensures AllApplicable(peer) ==> AllApplicable(Delivered(c, peer, head))
  {
    hide VersionKey, Applicable;
  }

  lemma {:induction false} PullsKeepSound(c: Crypto, p: Policy, ns: Name, peer: seq<Record>, s: Space, k: nat)
    requires Sound(p, ns, s) && AllApplicable(peer)
    ensures var s' := Pulls(c, p, ns, peer, s, k);
      && Sound(p, ns, s') && LogVersions(s.log) <= LogVersions(s'.log) <= LogVersions(s.log) + LogVersions(peer)
      && Grown(s.log, s'.log, peer)
  {
    hide Sound, ApplyAll, LogVersions, AllApplicable, Delivered;
    if k > 0 {
      PullsKeepSound(c, p, ns, peer, s, k - 1);
      var w := Pulls(c, p, ns, peer, s, k - 1);
      DeliveredFromPeer(c, peer, |w.log|);
      SyncedAllKeepsSound(p, ns, Delivered(c, peer, |w.log|), w);
    }
  }

  /** Sound nodes that hold the same records show the same data. */
  lemma SameRecordsAgree(p: Policy, ns: Name, a: Space, b: Space)
    requires Sound(p, ns, a) && Sound(p, ns, b) && forall r :: r in a.log <==> r in b.log
    requires p == LastWriter ==> forall key :: StampsDistinct(PutsIn(a.log, key))
    ensures forall key :: Visible(a.t, (ns, key)) == Visible(b.t, (ns, key))
  {
    hide SyncAll, StampsDistinct, PutsIn, ApplyAll, AllApplicable, Visible, Shaped;
    FaithfulIsApplied(p, ns, a);
    FaithfulIsApplied(p, ns, b);
    EmptyAgrees(p, ns);
    forall key ensures Convergence.Writes(EMPTY.t, (ns, key)) + PutsIn(a.log, key) == PutsIn(a.log, key) {}
    Converge(p, ns, a.log, b.log, EMPTY, EMPTY);
  }

  lemma EmptyAgrees(p: Policy, ns: Name)
    ensures Shaped(p, ns, EMPTY.t) && Agree(ns, EMPTY, EMPTY)
  {
  }

  /** A sound node is its own log applied, with deduplication, from nothing. */
  lemma FaithfulIsApplied(p: Policy, ns: Name, s: Space)
    requires Sound(p, ns, s)
    ensures ApplyAll(p, ns, s.log, EMPTY) == s
  {
    hide SyncAll, AllApplicable, ApplyAll, Fresh, LogVersions, DistinctVersions;
    ApplyAllFresh(p, ns, s.log, EMPTY);
    NoVersions();
    AllFresh(s.log);
    assert [] + s.log == s.log;
  }

  lemma {:induction false} AllFresh(rs: seq<Record>)
    requires DistinctVersions(rs)
    ensures Fresh(rs, {}) == rs
  {
    hide VersionKey;
    if rs != [] {
      var n := |rs| - 1;
      AllFresh(rs[..n]);
      assert rs == rs[..n] + [rs[n]];
    }
  }

  /** Equal version sets name equal records when versions identify records. */
  lemma SameVersionsSameRecords(all: seq<Record>, a: seq<Record>, b: seq<Record>)
    requires Identified(all) && LogVersions(a) <= LogVersions(b)
    requires (forall r | r in a :: r in all) && (forall r | r in b :: r in all)
    ensures forall r | r in a :: r in b
  {
    hide VersionKey;
    forall r | r in a ensures r in b {
      assert VersionKey(r) in LogVersions(b);
      var x :| x in b && VersionKey(x) == VersionKey(r);
      var i :| 0 <= i < |all| && all[i] == r;
      var j :| 0 <= j < |all| && all[j] == x;
    }
  }

  /** One exchange: A pulls all it can from B, then B from A. */
  function AfterPull(c: Crypto, p: Policy, ns: Name, s: Space, peer: Space): Space {
    Pulls(c, p, ns, peer.log, s, |peer.log|)
  }

  /** Whether a record can travel does not depend on where it is linked. */
  lemma {:induction false} ServableRecords(c: Crypto, h: Id32, rs: seq<Record>)
    ensures var bs := EncodeAll(c, h, rs);
      forall i | 0 <= i < |rs| :: |bs[i]| == HEADER_LEN + |Body(rs[i])|
    decreases |rs|
  {
    hide Body, RecordHash;
    if rs != [] {
      var b := Encode(c, rs[0], h);
      ServableRecords(c, RecordHash(c, h, b), rs[1..]);
    }
  }

  /** A log grown out of healthy ones is healthy when its versions are distinct. */
  lemma GrownHealthy(c: Crypto, a: seq<Record>, b: seq<Record>, log: seq<Record>)
    requires Healthy(c, a) && Healthy(c, b) && Grown(a, log, b) && DistinctVersions(log)
    ensures Healthy(c, log)
  {
    hide Storable, DistinctVersions, EncodeAll, Body;
    ServableRecords(c, ZERO_ID, a);
    ServableRecords(c, ZERO_ID, b);
    ServableRecords(c, ZERO_ID, log);
    var (as', bs, ls) := (EncodeAll(c, ZERO_ID, a), EncodeAll(c, ZERO_ID, b), EncodeAll(c, ZERO_ID, log));
    forall i | 0 <= i < |log| ensures Storable(log[i]) && Servable(ls[i]) {
      if i < |a| {
        assert log[i] == a[i] && Servable(as'[i]);
      } else {
        var j :| 0 <= j < |b| && b[j] == log[i];
        assert Servable(bs[j]);
      }
    }
  }

  /** What a node pulled from its peer never stands in the peer's way. */
  lemma CoveredByOwn(a: seq<Record>, log: seq<Record>, b: Space)
    requires Grown(a, log, b.log)
    ensures Covered(b, log) <==> Covered(b, a)
  {
    hide VersionKey;
    if Covered(b, log) {
      forall i | 0 <= i < |a| && i < |b.log| ensures VersionKey(a[i]) in LogVersions(b.log) {
        assert log[i] == a[i];
      }
    }
  }

  /** Two sound nodes exchange. They end with the same versions exactly when,
      before the exchange, neither missed below its own head a record of the
      other; and then they show the same data for every key. */
  lemma ExchangeConverges(c: Crypto, p: Policy, ns: Name, a: Space, b: Space)
    requires Sound(p, ns, a) && Sound(p, ns, b) && Identified(a.log + b.log)
    requires p == LastWriter ==> forall key :: StampsDistinct(PutsIn(a.log + b.log, key))
    requires Healthy(c, a.log) && Healthy(c, b.log)
    ensures var a' := AfterPull(c, p, ns, a, b); var b' := AfterPull(c, p, ns, b, a');
      && (LogVersions(a'.log) == LogVersions(b'.log) <==> Covered(a, b.log) && Covered(b, a.log))
      && (LogVersions(a'.log) == LogVersions(b'.log) ==> forall key :: Visible(a'.t, (ns, key)) == Visible(b'.t, (ns, key)))
  {
    hide Pulls, Healthy, Sound, Identified, StampsDistinct, PutsIn, LogVersions, Covered, Visible, Grown, DistinctVersions;
    var a' := AfterPull(c, p, ns, a, b);
    var b' := AfterPull(c, p, ns, b, a');
    SoundApplicable(p, ns, a);
    SoundApplicable(p, ns, b);
    PullsKeepSound(c, p, ns, b.log, a, |b.log|);
    SoundApplicable(p, ns, a');
    GrownHealthy(c, a.log, b.log, a'.log);
    CoveredByOwn(a.log, a'.log, b);
    PullsKeepSound(c, p, ns, a'.log, b, |a'.log|);
    CompleteIffVersions(c, p, ns, b.log, a);
    CompleteIffVersions(c, p, ns, a'.log, b);
    if LogVersions(a'.log) == LogVersions(b'.log) {
      var all := a.log + b.log;
      GrownMembers(a.log, a'.log, b.log);
      GrownMembers(b.log, b'.log, a'.log);
      SameVersionsSameRecords(all, a'.log, b'.log);
      SameVersionsSameRecords(all, b'.log, a'.log);
      if p == LastWriter {
        forall key ensures StampsDistinct(PutsIn(a'.log, key)) { FewerPuts(all, a'.log, key); }
      }
      SameRecordsAgree(p, ns, a', b');
    }
  }

  lemma SoundApplicable(p: Policy, ns: Name, s: Space)
    requires Sound(p, ns, s)
    ensures AllApplicable(s.log) && DistinctVersions(s.log)
  {
  }

  lemma FewerPuts(all: seq<Record>, rs: seq<Record>, key: Key)
    requires (forall r | r in rs :: r in all) && StampsDistinct(PutsIn(all, key))
    ensures StampsDistinct(PutsIn(rs, key))
  {
    hide PutsIn, StampsDistinct;
    assert multiset{} + PutsIn(all, key) == PutsIn(all, key) && multiset{} + PutsIn(rs, key) == PutsIn(rs, key);
    FewerStamps(multiset{}, all, rs, key);
  }

  /** Pulling as often as the peer has records: the node then holds every
      version of the peer exactly when it was covered before. */
  lemma CompleteIffVersions(c: Crypto, p: Policy, ns: Name, peer: seq<Record>, s: Space)
    requires Healthy(c, peer)
    ensures LogVersions(peer) <= LogVersions(Pulls(c, p, ns, peer, s, |peer|).log) <==> Covered(s, peer)
  {
    hide Pulls, Healthy, VersionKey, Covered;
    PullsCompleteIff(c, p, ns, peer, s);
    var e := Pulls(c, p, ns, peer, s, |peer|);
    if LogVersions(peer) <= LogVersions(e.log) {
      forall i | 0 <= i < |peer| ensures VersionKey(peer[i]) in LogVersions(e.log) {
        assert peer[i] in peer;
      }
      assert Complete(e, peer);
    }
  }

  /** A node that joins with an empty namespace catches up: pulling from a sound
      peer it ends with the peer's versions and shows the peer's data. */
  lemma NewNodeCatchesUp(c: Crypto, p: Policy, ns: Name, b: Space)
    requires Sound(p, ns, b) && Identified(b.log) && Healthy(c, b.log)
    requires p == LastWriter ==> forall key :: StampsDistinct(PutsIn(b.log, key))
    ensures var a := AfterPull(c, p, ns, EMPTY, b);
      LogVersions(a.log) == LogVersions(b.log) && forall key :: Visible(a.t, (ns, key)) == Visible(b.t, (ns, key))
  {
    hide Pulls, Healthy, Identified, StampsDistinct, PutsIn, Visible, SyncAll, AllApplicable, DistinctVersions;
    var a := AfterPull(c, p, ns, EMPTY, b);
    EmptySound(p, ns);
    NoVersions();
    PullsKeepSound(c, p, ns, b.log, EMPTY, |b.log|);
    CompleteIffVersions(c, p, ns, b.log, EMPTY);
    GrownMembers(EMPTY.log, a.log, b.log);
    SameVersionsSameRecords(b.log, a.log, b.log);
    SameVersionsSameRecords(b.log, b.log, a.log);
    if p == LastWriter {
      forall key ensures StampsDistinct(PutsIn(a.log, key)) { FewerPuts(b.log, a.log, key); }
    }
    SameRecordsAgree(p, ns, a, b);
  }

  lemma EmptySound(p: Policy, ns: Name)
    ensures Sound(p, ns, EMPTY)
  {
  }
}
