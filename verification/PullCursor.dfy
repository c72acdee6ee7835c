/** What a node obtains by pulling from a peer when the pull position is the
    node's own log length (`net/mod.rs`, `send_pull` and the guards of
    `on_hello` and `on_records`). */
module PullCursor {
  import opened ByteStrings
  import opened Records
  import opened StoreSpec
  import opened Convergence
  import opened Reopen
  import opened Sync

  /** The records one pull brings: the peer's run from our head + 1, as far as
      one reply carries. */
  function Delivered(c: Crypto, peer: seq<Record>, head: nat): seq<Record> {
    RunAt(peer, head + 1, |Reply(EncodeAll(c, ZERO_ID, peer), head + 1)|)
  }

  /** A pull is sent only while the peer's log is longer than ours. */
  function Pull(c: Crypto, p: Policy, ns: Name, peer: seq<Record>, s: Space): Space {
    if |s.log| >= |peer| then s else ApplyAll(p, ns, Delivered(c, peer, |s.log|), s)
  }

  function Pulls(c: Crypto, p: Policy, ns: Name, peer: seq<Record>, s: Space, k: nat): Space {
    if k == 0 then s else Pull(c, p, ns, peer, Pulls(c, p, ns, peer, s, k - 1))
  }

  /** Our log holds every version of the peer's log. */
  predicate Complete(s: Space, peer: seq<Record>) {
    forall i | 0 <= i < |peer| :: VersionKey(peer[i]) in LogVersions(s.log)
  }

  /** It holds every version the peer has below our own head. */
  predicate Covered(s: Space, peer: seq<Record>) {
    forall i | 0 <= i < |peer| && i < |s.log| :: VersionKey(peer[i]) in LogVersions(s.log)
  }

  /** A peer log in good order: records that can be stored, carried in a reply
      and told apart. */
  ghost predicate Healthy(c: Crypto, peer: seq<Record>) {
    AllStorable(peer) && DistinctVersions(peer) && ServableFrom(EncodeAll(c, ZERO_ID, peer), 1)
  }

  lemma {:induction false} KeyCount(rs: seq<Record>)
    ensures |LogVersions(rs)| <= |rs|
    ensures DistinctVersions(rs) ==> |LogVersions(rs)| == |rs|
  {
    hide VersionKey;
    if rs == [] {
      assert LogVersions(rs) == {};
    } else {
      var n := |rs| - 1;
      KeyCount(rs[..n]);
      VersionsSnoc(rs);
    }
  }

  /** One pull appends only versions from the peer's run, all of which it then holds. */
  lemma PullEffect(c: Crypto, p: Policy, ns: Name, peer: seq<Record>, s: Space)
    requires Healthy(c, peer)
    ensures var s' := Pull(c, p, ns, peer, s); var n := |Delivered(c, peer, |s.log|)|;
      && s.log <= s'.log
      && (|s.log| >= |peer| ==> s' == s)
      && (|s.log| < |peer| ==>
          && 1 <= n <= |peer| - |s.log|
          && |s'.log| <= |s.log| + n
          && LogVersions(s'.log) == LogVersions(s.log) + LogVersions(peer[|s.log|..|s.log| + n]))
  {
    hide EncodeAll, Reply, ServableFrom, AllStorable, ApplyAll, SyncAll, LogVersions, Fresh;
    if |s.log| < |peer| {
      var head := |s.log|;
      var bytes := EncodeAll(c, ZERO_ID, peer);
      ServableLater(bytes, head + 1);
      ReplyServable(bytes, head + 1);
      var rs := Delivered(c, peer, head);
      ApplyAllFresh(p, ns, rs, s);
      FreshShort(rs, LogVersions(s.log));
    }
  }

  lemma ServableLater(log: seq<Bytes>, from: nat)
    requires ServableFrom(log, 1) && from >= 1
    ensures ServableFrom(log, from)
  {
  }

  lemma {:induction false} FreshShort(rs: seq<Record>, seen: set<Identity>)
    ensures |Fresh(rs, seen)| <= |rs|
  {
    hide LogVersions, VersionKey;
    if rs != [] { FreshShort(rs[..|rs| - 1], seen); }
  }

  /** Below our head nothing more arrives: a version the peer holds there and we
      lack stays missing however often we pull. */
  lemma {:induction false} NeverRevisited(c: Crypto, p: Policy, ns: Name, peer: seq<Record>, s: Space, k: nat, i: nat)
    requires Healthy(c, peer) && i < |peer| && i < |s.log| && VersionKey(peer[i]) !in LogVersions(s.log)
    ensures var s' := Pulls(c, p, ns, peer, s, k); |s.log| <= |s'.log| && VersionKey(peer[i]) !in LogVersions(s'.log)
  {
    hide Pull, Healthy, VersionKey, Delivered;
    if k > 0 {
      NeverRevisited(c, p, ns, peer, s, k - 1, i);
      MissedByPull(c, p, ns, peer, Pulls(c, p, ns, peer, s, k - 1), i);
    }
  }

  lemma MissedByPull(c: Crypto, p: Policy, ns: Name, peer: seq<Record>, s: Space, i: nat)
    requires Healthy(c, peer) && i < |peer| && i < |s.log| && VersionKey(peer[i]) !in LogVersions(s.log)
    ensures var s' := Pull(c, p, ns, peer, s); s.log <= s'.log && VersionKey(peer[i]) !in LogVersions(s'.log)
  {
    hide Pull, VersionKey, Delivered, AllStorable, ServableFrom, EncodeAll;
    PullEffect(c, p, ns, peer, s);
  }

  /** While covered, a pull brings all of the peer's run it reached. */
  lemma PulledPrefix(c: Crypto, p: Policy, ns: Name, peer: seq<Record>, s: Space) returns (m: nat)
    requires Healthy(c, peer) && Covered(s, peer) && |s.log| < |peer|
    ensures var s' := Pull(c, p, ns, peer, s);
      |s.log| < m <= |peer| && |s.log| <= |s'.log| <= m && HeldUpTo(peer, m, LogVersions(s'.log))
  {
    hide Pull, VersionKey, Delivered, Healthy;
    PullEffect(c, p, ns, peer, s);
    m := |s.log| + |Delivered(c, peer, |s.log|)|;
    var run := peer[|s.log|..m];
    forall i | 0 <= i < m ensures VersionKey(peer[i]) in LogVersions(Pull(c, p, ns, peer, s).log) {
      if i >= |s.log| { assert run[i - |s.log|] in run; }
    }
  }

  /** While covered, a pull keeps it so and moves our head. */
  lemma CoveredAdvances(c: Crypto, p: Policy, ns: Name, peer: seq<Record>, s: Space)
    requires Healthy(c, peer) && Covered(s, peer)
    ensures var s' := Pull(c, p, ns, peer, s);
      Covered(s', peer) && (|s.log| < |peer| ==> |s'.log| > |s.log|) && |s'.log| >= |s.log|
  {
    hide Pull, VersionKey, LogVersions, AllStorable, ServableFrom, EncodeAll;
    if |s.log| < |peer| {
      var s' := Pull(c, p, ns, peer, s);
      var m := PulledPrefix(c, p, ns, peer, s);
      PrefixCount(peer, m, LogVersions(s'.log));
      KeyCount(s'.log);
    } else {
      PullEffect(c, p, ns, peer, s);
    }
  }

  predicate HeldUpTo(peer: seq<Record>, m: nat, seen: set<Identity>)
    requires m <= |peer|
  {
    forall i | 0 <= i < m :: VersionKey(peer[i]) in seen
  }

  lemma PrefixCount(peer: seq<Record>, m: nat, seen: set<Identity>)
    requires m <= |peer| && DistinctVersions(peer)
    requires HeldUpTo(peer, m, seen)
    ensures m <= |seen|
  {
    hide VersionKey;
    assert LogVersions(peer[..m]) <= seen;
    KeyCount(peer[..m]);
    SubsetCount(LogVersions(peer[..m]), seen);
  }

  lemma {:induction false} SubsetCount(a: set<Identity>, b: set<Identity>)
    requires a <= b
    ensures |a| <= |b|
  {
    if a != {} {
      var x :| x in a;
      SubsetCount(a - {x}, b - {x});
    }
  }

  lemma {:induction false} CoveredPulls(c: Crypto, p: Policy, ns: Name, peer: seq<Record>, s: Space, k: nat)
    requires Healthy(c, peer) && Covered(s, peer)
    ensures var s' := Pulls(c, p, ns, peer, s, k);
      Covered(s', peer) && (|s'.log| >= |peer| || |s'.log| >= |s.log| + k)
  {
    hide Pull, Healthy, VersionKey, Covered;
    if k > 0 {
      CoveredPulls(c, p, ns, peer, s, k - 1);
      CoveredAdvances(c, p, ns, peer, Pulls(c, p, ns, peer, s, k - 1));
    }
  }

  /** Pulling from a peer in good order obtains all of its log exactly when
      nothing it holds below our own head is missing here; then one pull per
      record is enough. */
  lemma PullsCompleteIff(c: Crypto, p: Policy, ns: Name, peer: seq<Record>, s: Space)
    requires Healthy(c, peer)
    ensures (exists k :: Complete(Pulls(c, p, ns, peer, s, k), peer)) <==> Covered(s, peer)
    ensures Covered(s, peer) ==> Complete(Pulls(c, p, ns, peer, s, |peer|), peer)
  {
    hide Pulls, Healthy, VersionKey;
    if Covered(s, peer) {
      CoveredPulls(c, p, ns, peer, s, |peer|);
    } else {
      var i :| 0 <= i < |peer| && i < |s.log| && VersionKey(peer[i]) !in LogVersions(s.log);
      forall k: nat ensures !Complete(Pulls(c, p, ns, peer, s, k), peer) {
        NeverRevisited(c, p, ns, peer, s, k, i);
      }
    }
  }

  // ---------- writes between pulls ----------

  /** Exactly when a record written at the peer can still be pulled: it does not
      land below our head, unless we hold its version already. */
  lemma PeerWriteDeliverable(s: Space, peer: seq<Record>, r: Record)
    requires Covered(s, peer)
    ensures Covered(s, peer + [r]) <==> |peer| >= |s.log| || VersionKey(r) in LogVersions(s.log)
  {
    hide VersionKey, LogVersions;
    assert (peer + [r])[|peer|] == r;
    forall i | 0 <= i < |peer| ensures (peer + [r])[i] == peer[i] {}
  }

  /** Exactly when a write of our own keeps everything at the peer within reach:
      we are not behind, or the peer's next record is one we hold. */
  lemma LocalWriteKeepsReach(s: Space, peer: seq<Record>, r: Record, t: Tables)
    requires Covered(s, peer)
    ensures Covered(Space(s.log + [r], t), peer) <==>
      |peer| <= |s.log| || VersionKey(peer[|s.log|]) in LogVersions(s.log) + {VersionKey(r)}
  {
    hide VersionKey;
    var log := s.log + [r];
    VersionsSnoc(log);
    assert log[..|s.log|] == s.log;
    if |s.log| < |peer| && Covered(Space(log, t), peer) {
      assert VersionKey(peer[|s.log|]) in LogVersions(log);
    }
  }

  /** Our node and one peer: appends on either side from any cause, and pulls. */
  datatype Event = OurAppend(r: Record, t: Tables) | PeerAppend(r: Record) | PullNow

  datatype Pair = Pair(s: Space, peer: seq<Record>)

  function Happen(c: Crypto, p: Policy, ns: Name, e: Event, x: Pair): Pair {
    match e
    case OurAppend(r, t) => x.(s := Space(x.s.log + [r], t))
    case PeerAppend(r) => x.(peer := x.peer + [r])
    case PullNow => x.(s := Pull(c, p, ns, x.peer, x.s))
  }

  function After(c: Crypto, p: Policy, ns: Name, run: seq<Event>, x: Pair): Pair {
    if run == [] then x else Happen(c, p, ns, run[|run| - 1], After(c, p, ns, run[..|run| - 1], x))
  }

  predicate Writes(run: seq<Event>, key: Identity) {
    exists i | 0 <= i < |run| :: run[i].OurAppend? && VersionKey(run[i].r) == key
  }

  lemma HealthyPrefix(c: Crypto, peer: seq<Record>, m: nat)
    requires Healthy(c, peer) && m <= |peer|
    ensures Healthy(c, peer[..m])
  {
    hide VersionKey, Storable, EncodeAll, Servable;
    EncodeAllPrefix(c, ZERO_ID, peer, m);
  }

  /** A version that the peer holds below our head and we lack never reaches us
      from that peer, in any run of writes on both sides and pulls. */
  lemma {:induction false} LostForever(c: Crypto, p: Policy, ns: Name, run: seq<Event>, x: Pair, i: nat)
    requires i < |x.peer| && i < |x.s.log| && VersionKey(x.peer[i]) !in LogVersions(x.s.log)
    requires Healthy(c, After(c, p, ns, run, x).peer) && !Writes(run, VersionKey(x.peer[i]))
    ensures var y := After(c, p, ns, run, x);
      x.peer <= y.peer && |x.s.log| <= |y.s.log| && VersionKey(x.peer[i]) !in LogVersions(y.s.log)
  {
    hide Healthy, Pull, VersionKey;
    if run != [] {
      var n := |run| - 1;
      var w := After(c, p, ns, run[..n], x);
      var y := After(c, p, ns, run, x);
      assert y.peer[..|w.peer|] == w.peer;
      HealthyPrefix(c, y.peer, |w.peer|);
      assert !Writes(run[..n], VersionKey(x.peer[i]));
      LostForever(c, p, ns, run[..n], x, i);
      match run[n] {
        case OurAppend(r, t) =>
          VersionsSnoc(w.s.log + [r]);
          assert (w.s.log + [r])[..|w.s.log|] == w.s.log;
        case PeerAppend(r) =>
        case PullNow => MissedByPull(c, p, ns, w.peer, w.s, i);
      }
    }
  }

  /** Two nodes that each wrote one record before their first exchange: neither
      ever obtains the other's record from the other, whatever follows. */
  lemma CrossedWrites(c: Crypto, p: Policy, ns: Name, run: seq<Event>, ours: Record, theirs: Record, t: Tables)
    requires VersionKey(ours) != VersionKey(theirs) && !Writes(run, VersionKey(theirs))
    requires Healthy(c, After(c, p, ns, run, Pair(Space([ours], t), [theirs])).peer)
    ensures VersionKey(theirs) !in LogVersions(After(c, p, ns, run, Pair(Space([ours], t), [theirs])).s.log)
  {
    hide Healthy, After, VersionKey;
    LostForever(c, p, ns, run, Pair(Space([ours], t), [theirs]), 0);
  }
}
