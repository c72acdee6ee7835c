/** The pull side of the mesh runner for one peer (`net/mod.rs`, `Runner`):
    phases, the per-tick chunk budget and peer-supplied targets. */
module PullRunner {
  import StoreSpec

  type Name = StoreSpec.Name

  const MAX_CHUNKS_PER_TICK: nat := 32
  const MAX_AHEAD: nat := 1000 * MAX_CHUNKS_PER_TICK * 2

  datatype Phase = Idle | WaitingDial | AwaitingHello | Pulling(ns: Name, target: nat) | Done | Bad

  type Target = (Name, nat)

  /** One configured peer.  `bound`: its peer id is known; `marked`: its address
      stands in `pending_dials`; `heads`: of the namespaces we host; `open`: our
      requests to this peer id not yet answered; `dials`: our dials to it not yet
      reported. */
  datatype Peer = Peer(
    phase: Phase, chunks: nat, queue: seq<Target>, heads: map<Name, nat>,
    open: nat, bound: bool, marked: bool, dials: nat)

  /** What happened to a batch of pulled records. */
  datatype Fate = WrongNs | Disallowed | Undecodable | Unverified | Failed(rise: nat) | Applied(n: nat)

  /** How an established connection is taken for this peer: its address is the
      marked one, or no address is and the scan picks this peer, or neither. */
  datatype Match = ByAddress | ByScan | Neither

  /** `own`: a dial of this peer's was reported, and not another's; `named`: the
      error carries our peer's id.  `Twin`: another configured name with the same
      peer id sends its hello; the answer will be taken for ours. */
  datatype Event =
    | Kick(connected: bool, dialOk: bool)
    | Connected(own: bool, how: Match)
    | Closed
    | DialFailed(own: bool, named: bool)
    | Twin
    | Hello(pinOk: bool, ads: seq<Target>)
    | Chunk(fate: Fate)
    | Refused
    | LocalWrite(ns: Name)

  // ---------- steps ----------

  function Head(s: Peer, ns: Name): nat {
    if ns in s.heads then s.heads[ns] else 0
  }

  function Raise(heads: map<Name, nat>, ns: Name, n: nat): map<Name, nat> {
    if ns in heads then heads[ns := heads[ns] + n] else heads
  }

  /** Namespaces we host where the peer claims to be ahead, each target capped. */
  function Ahead(ads: seq<Target>, heads: map<Name, nat>): seq<Target> {
    if ads == [] then []
    else
      var rest := Ahead(ads[..|ads| - 1], heads);
      var (ns, seqNo) := ads[|ads| - 1];
      if ns !in heads || heads[ns] >= seqNo then rest
      else rest + [(ns, if seqNo < heads[ns] + MAX_AHEAD then seqNo else heads[ns] + MAX_AHEAD)]
  }

  predicate InFlight(f: Phase) {
    f.WaitingDial? || f.AwaitingHello? || f.Pulling?
  }

  function Send(s: Peer, ns: Name, target: nat): Peer {
    s.(phase := Pulling(ns, target), open := s.open + 1)
  }

  function StartNext(s: Peer): Peer {
    if s.queue == [] then s.(phase := Done)
    else Send(s.(queue := s.queue[1..]), s.queue[0].0, s.queue[0].1)
  }

  function AfterChunk(s: Peer, ns: Name, target: nat, n: nat): Peer {
    var s1 := s.(heads := Raise(s.heads, ns, n));
    if n == 0 then s1.(phase := Done)
    else
      var s2 := s1.(chunks := s1.chunks + 1);
      if s2.chunks >= MAX_CHUNKS_PER_TICK then s2.(phase := Done)
      else if Head(s2, ns) < target then Send(s2, ns, target)
      else StartNext(s2)
  }

  predicate IsReply(e: Event) {
    e.Hello? || e.Chunk? || e.Refused?
  }

  /** A reply, its request already closed. */
  function Answer(e: Event, s: Peer): Peer
    requires IsReply(e)
  {
    match e
    case Hello(pinOk, ads) =>
      if !pinOk then s.(phase := Bad)
      else
        var pulls := Ahead(ads, s.heads);
        if pulls == [] then s.(phase := Done) else StartNext(s.(queue := pulls))
    case Chunk(fate) =>
      if !s.phase.Pulling? then s
      else
        var Pulling(ns, target) := s.phase;
        (match fate
         case WrongNs | Undecodable => s.(phase := Idle)
         case Disallowed | Unverified => s.(phase := Done)
         case Failed(rise) => s.(phase := Idle, heads := Raise(s.heads, ns, rise))
         case Applied(n) => AfterChunk(s, ns, target, n))
    case Refused => s.(phase := Idle)
  }

  function Greet(s: Peer): Peer {
    s.(phase := AwaitingHello, open := s.open + 1)
  }

  /** A known id is greeted or dialed by id, and waited for even when the dial
      could not start; an unknown one is dialed by address. */
  function KickPeer(connected: bool, dialOk: bool, s: Peer): Peer {
    var x := s.(chunks := 0);
    if InFlight(s.phase) then x
    else if s.bound then
      if connected then Greet(x) else x.(phase := WaitingDial, dials := s.dials + Bit(dialOk))
    else if dialOk then x.(phase := WaitingDial, marked := true, dials := s.dials + 1)
    else x.(phase := Idle, marked := false)
  }

  /** The name an established connection is credited to is this peer's. */
  predicate Found(how: Match, s: Peer) {
    (how.ByAddress? && s.marked) || (how.ByScan? && s.phase.WaitingDial? && !s.bound)
  }

  function ConnectPeer(how: Match, s: Peer): Peer {
    if !Found(how, s) then s
    else
      var x := s.(bound := true, marked := s.marked && !how.ByAddress?);
      if s.phase.WaitingDial? then Greet(x) else x
  }

  function FailDial(named: bool, s: Peer): Peer {
    if named then if s.bound then s.(phase := Idle) else s
    else s.(marked := false, phase := if s.phase.WaitingDial? then Idle else s.phase)
  }

  /** Whether an event can happen: a reply needs an open request, the report of a
      dial of ours a dial. */
  predicate Possible(e: Event, s: Peer) {
    && (IsReply(e) ==> s.open > 0)
    && ((e.Connected? || e.DialFailed?) && e.own ==> s.dials > 0)
  }

  /** One event; one that cannot happen changes nothing.  A reply answers one of
      our open requests, of whatever kind that request was. */
  function Step(e: Event, s: Peer): Peer {
    if !Possible(e, s) then s
    else
      match e
      case Kick(connected, dialOk) => KickPeer(connected, dialOk, s)
      case Connected(own, how) => ConnectPeer(how, s.(dials := s.dials - Bit(own)))
      case Closed => if s.bound && s.phase.WaitingDial? then s.(phase := Idle) else s
      case DialFailed(own, named) => FailDial(named, s.(dials := s.dials - Bit(own)))
      case Twin => s.(open := s.open + 1)
      case LocalWrite(ns) => s.(heads := Raise(s.heads, ns, 1))
      case _ => var x := s.(open := s.open - 1); if s.bound then Answer(e, x) else x
  }

  function Exec(run: seq<Event>, s: Peer): Peer {
    if run == [] then s else Step(run[|run| - 1], Exec(run[..|run| - 1], s))
  }

  function Bit(b: bool): nat {
    if b then 1 else 0
  }

  function Hellos(run: seq<Event>): nat {
    if run == [] then 0 else Hellos(run[..|run| - 1]) + Bit(run[|run| - 1].Hello?)
  }

  function Twins(run: seq<Event>): nat {
    if run == [] then 0 else Twins(run[..|run| - 1]) + Bit(run[|run| - 1].Twin?)
  }

  predicate NoKick(run: seq<Event>) {
    forall i | 0 <= i < |run| :: !run[i].Kick?
  }

  /** Replies received, and those among them taken as an answer to a pending pull. */
  function Replies(run: seq<Event>, s: Peer): nat {
    if run == [] then 0
    else Replies(run[..|run| - 1], s) + Bit(IsReply(run[|run| - 1]) && Exec(run[..|run| - 1], s).open > 0)
  }

  function Handled(run: seq<Event>, s: Peer): nat {
    if run == [] then 0
    else
      var x := Exec(run[..|run| - 1], s);
      Handled(run[..|run| - 1], s) + Bit(run[|run| - 1].Chunk? && x.open > 0 && x.phase.Pulling?)
  }

  // ---------- one step ----------

  /** Every target set by a hello is ahead of our head, within the cap and
      within the peer's claim. */
  predicate TargetOk(t: Target, ads: seq<Target>, heads: map<Name, nat>) {
    t.0 in heads && heads[t.0] < t.1 <= heads[t.0] + MAX_AHEAD && exists i | 0 <= i < |ads| :: ads[i].0 == t.0 && t.1 <= ads[i].1
  }

  lemma {:induction false} AheadTargets(ads: seq<Target>, heads: map<Name, nat>)
    ensures forall i | 0 <= i < |Ahead(ads, heads)| :: TargetOk(Ahead(ads, heads)[i], ads, heads)
  {
    if ads != [] {
      var n := |ads| - 1;
      AheadTargets(ads[..n], heads);
      forall t | TargetOk(t, ads[..n], heads) ensures TargetOk(t, ads, heads) {
        var i :| 0 <= i < n && ads[..n][i].0 == t.0 && t.1 <= ads[..n][i].1;
        assert ads[i] == ads[..n][i];
      }
      assert ads[n].0 == ads[n].0;
    }
  }

  /** The targets a state still has in hand. */
  predicate Holds(s: Peer, t: Target) {
    (s.phase.Pulling? && t == (s.phase.ns, s.phase.target)) || t in s.queue
  }

  /** After a hello starts a pull every target in hand is bounded. */
  lemma HelloTargets(s: Peer, ads: seq<Target>, t: Target)
    requires s.open > 0 && s.bound
    requires Step(Hello(true, ads), s).phase.Pulling? && Holds(Step(Hello(true, ads), s), t)
    ensures TargetOk(t, ads, s.heads)
  {
    hide TargetOk;
    AheadTargets(ads, s.heads);
    var q := Ahead(ads, s.heads);
    var i :| 0 <= i < |q| && q[i] == t;
  }

  /** No other event introduces a target. */
  lemma StepKeepsTargets(e: Event, s: Peer, t: Target)
    requires !e.Hello? && Holds(Step(e, s), t)
    ensures Holds(s, t)
  {
  }

  /** Pulling the same namespace again follows a strict rise of its head, which
      is still short of the target. */
  lemma RepullNeedsRise(s: Peer, fate: Fate)
    requires s.open > 0 && s.bound && s.phase.Pulling? && s.phase.ns in s.heads
    requires Step(Chunk(fate), s).phase.Pulling? && Step(Chunk(fate), s).queue == s.queue
    ensures Step(Chunk(fate), s).phase == s.phase
    ensures Head(Step(Chunk(fate), s), s.phase.ns) > Head(s, s.phase.ns)
    ensures Head(Step(Chunk(fate), s), s.phase.ns) < s.phase.target
    ensures Step(Chunk(fate), s).chunks == s.chunks + 1 < MAX_CHUNKS_PER_TICK
  {
  }

  // ---------- whole rounds ----------

  predicate NoHello(run: seq<Event>) {
    forall i | 0 <= i < |run| :: !run[i].Hello?
  }

  /** Targets in hand at the end of a run without hellos were there at its start. */
  lemma {:induction false} RunKeepsTargets(run: seq<Event>, s: Peer, t: Target)
    requires NoHello(run) && Holds(Exec(run, s), t)
    ensures Holds(s, t)
  {
    hide Step, Holds;
    if run != [] {
      var n := |run| - 1;
      StepKeepsTargets(run[n], Exec(run[..n], s), t);
      RunKeepsTargets(run[..n], s, t);
    }
  }

  /** From a hello to the next one, whatever happens in between, no target in
      hand exceeds the head seen at the hello by more than the cap. */
  lemma TargetsBounded(run: seq<Event>, s: Peer, ads: seq<Target>, t: Target)
    requires NoHello(run) && s.open > 0 && s.bound
    requires var h := Step(Hello(true, ads), s); h.phase.Pulling? && Holds(Exec(run, h), t)
    ensures t.0 in s.heads && s.heads[t.0] < t.1 <= s.heads[t.0] + MAX_AHEAD
  {
    hide Step, Holds, Exec;
    var h := Step(Hello(true, ads), s);
    RunKeepsTargets(run, h, t);
    HelloTargets(s, ads, t);
  }

  /** Requests open, or about to be opened by a pending dial. */
  function Budget(s: Peer): nat {
    s.open + Bit(s.phase.WaitingDial?)
  }

  function Counted(s: Peer): nat {
    if s.chunks < MAX_CHUNKS_PER_TICK then s.chunks else MAX_CHUNKS_PER_TICK - 1
  }

  /** Between two kicks, whatever the peer answers and however often with a hello:
      the requests open never exceed those open at the start and those of twins;
      every chunk past the 31st uses one of them up; and replies handled are
      bounded by them.  Replies of all kinds are bounded up to the hellos. */
  lemma {:induction false} RoundBudget(run: seq<Event>, s: Peer)
    requires NoKick(run) && s.chunks == 0
    ensures var y := Exec(run, s); var k := Budget(s) + Twins(run);
      && Budget(y) <= k
      && (y.chunks < MAX_CHUNKS_PER_TICK || y.chunks + Budget(y) < MAX_CHUNKS_PER_TICK + k)
      && Handled(run, s) + Budget(y) <= Counted(y) + k
      && Replies(run, s) + Budget(y) <= Counted(y) + k + Hellos(run)
  {
    hide Step;
    if run != [] {
      var n := |run| - 1;
      RoundBudget(run[..n], s);
      StepBudget(run[n], Exec(run[..n], s));
    }
  }

  lemma StepBudget(e: Event, x: Peer)
    requires !e.Kick?
    ensures var y := Step(e, x);
      && (!IsReply(e) ==> y.chunks == x.chunks && Budget(y) <= Budget(x) + Bit(e.Twin?))
      && (IsReply(e) && x.open == 0 ==> y == x)
      && (IsReply(e) && !e.Chunk? ==> y.chunks == x.chunks)
      && (e.Hello? ==> Budget(y) <= Budget(x))
      && (e.Refused? && x.open > 0 ==> Budget(y) < Budget(x))
      && (e.Chunk? && x.open > 0 ==> ChunkCost(x, y))
  {
    hide Ahead, Raise;
  }

  /** A reply to a pull closes its request; a new one is opened only along with a
      counted chunk below the cap. */
  predicate ChunkCost(x: Peer, y: Peer) {
    || (y.chunks == x.chunks && Budget(y) < Budget(x))
    || (x.phase.Pulling? && y.chunks == x.chunks + 1 && Budget(y) < Budget(x))
    || (x.phase.Pulling? && y.chunks == x.chunks + 1 < MAX_CHUNKS_PER_TICK && Budget(y) == Budget(x))
  }

  /** At most 32 chunks, and 32 replies handled, between two kicks when at most
      one request is open or pending at the first. */
  lemma ThirtyTwoChunks(run: seq<Event>, s: Peer)
    requires NoKick(run) && s.chunks == 0 && Budget(s) + Twins(run) <= 1
    ensures Exec(run, s).chunks <= MAX_CHUNKS_PER_TICK
    ensures Handled(run, s) <= MAX_CHUNKS_PER_TICK
  {
    hide Exec, Hellos, Replies, Handled;
    RoundBudget(run, s);
  }

  // ---------- every run ----------

  /** Another name's request to our peer id, or a dial error that hits a peer
      already greeted: either leaves a request open that is not ours to wait for. */
  predicate Stray(e: Event, s: Peer) {
    || e.Twin?
    || (e.DialFailed? && Possible(e, s) && e.named && s.bound && (s.phase.AwaitingHello? || s.phase.Pulling?))
  }

  function Strays(run: seq<Event>, s: Peer): nat {
    if run == [] then 0
    else Strays(run[..|run| - 1], s) + Bit(Stray(run[|run| - 1], Exec(run[..|run| - 1], s)))
  }

  /** Up to `k` stray requests, one request at most, and none at rest; the chunk
      budget leaves room for all of them. */
  predicate Tidy(s: Peer, k: nat) {
    Budget(s) <= Bit(InFlight(s.phase)) + k && s.chunks + Budget(s) <= MAX_CHUNKS_PER_TICK + k
  }

  lemma StepKeepsTidy(e: Event, s: Peer, k: nat)
    requires Tidy(s, k)
    ensures Tidy(Step(e, s), k + Bit(Stray(e, s)))
  {
    hide Ahead, Raise;
  }

  /** In every run, through any number of kicks and against any answers and
      network events, a peer counts at most 32 chunks since the last kick and has
      at most one request open, up to the strays of the run. */
  lemma {:induction false} NeverOverBudget(run: seq<Event>, s: Peer)
    requires Tidy(s, 0)
    ensures var (y, k) := (Exec(run, s), Strays(run, s));
      Tidy(y, k) && y.chunks <= MAX_CHUNKS_PER_TICK + k && y.open <= 1 + k
  {
    hide Step, Stray;
    if run != [] {
      var n := |run| - 1;
      NeverOverBudget(run[..n], s);
      StepKeepsTidy(run[n], Exec(run[..n], s), Strays(run[..n], s));
    }
  }

  // ---------- waiting for nothing ----------

  /** Only a peer with a known id was ever sent a request. */
  predicate Known(s: Peer) {
    s.phase.AwaitingHello? || s.phase.Pulling? ==> s.bound
  }

  lemma StepKeepsKnown(e: Event, s: Peer)
    requires Known(s)
    ensures Known(Step(e, s)) && (s.bound ==> Step(e, s).bound)
  {
    hide Ahead, Raise;
  }

  lemma {:induction false} RunKeepsKnown(run: seq<Event>, s: Peer)
    requires Known(s)
    ensures Known(Exec(run, s)) && (s.bound ==> Exec(run, s).bound)
  {
    hide Step, Known;
    if run != [] {
      var n := |run| - 1;
      RunKeepsKnown(run[..n], s);
      StepKeepsKnown(run[n], Exec(run[..n], s));
    }
  }

  /** Whoever waits for a reply has a request open, whoever waits for a dial has
      one under way. */
  predicate Alive(s: Peer) {
    && (s.phase.AwaitingHello? || s.phase.Pulling? ==> s.open > 0)
    && (s.phase.WaitingDial? ==> s.dials > 0)
  }

  /** What leaves a peer waiting for nothing: records in answer to the only open
      request, a hello; an answered dial that is not found to be this peer's; a
      failed dial that names an id not yet bound; a dial by id that cannot start. */
  predicate Strands(e: Event, s: Peer) {
    || (e.Chunk? && s.phase.AwaitingHello? && s.open == 1)
    || (e.Connected? && e.own && s.phase.WaitingDial? && s.dials == 1 && !Found(e.how, s))
    || (e.DialFailed? && e.own && e.named && s.phase.WaitingDial? && s.dials == 1 && !s.bound)
    || (e.Kick? && !InFlight(s.phase) && s.bound && !e.connected && !e.dialOk && s.dials == 0)
  }

  lemma AliveUnlessStranded(e: Event, s: Peer)
    requires Known(s) && Alive(s)
    ensures Alive(Step(e, s)) <==> !Strands(e, s)
  {
    hide Answer;
    if IsReply(e) && s.open > 0 { AnswerSettles(e, s.(open := s.open - 1)); }
  }

  /** At rest, or with a new request out. */
  predicate Settled(s: Peer) {
    !InFlight(s.phase) || (s.phase.Pulling? && s.open > 0)
  }

  /** A handled reply settles the peer, but for records that were not asked for. */
  lemma AnswerSettles(e: Event, s: Peer)
    requires IsReply(e)
    ensures if e.Chunk? && !s.phase.Pulling? then Answer(e, s) == s else Settled(Answer(e, s))
  {
    hide Ahead, Raise, AfterChunk;
    if e.Chunk? && e.fate.Applied? && s.phase.Pulling? { ChunkSettles(s, s.phase.ns, s.phase.target, e.fate.n); }
  }

  lemma ChunkSettles(s: Peer, ns: Name, target: nat, n: nat)
    ensures Settled(AfterChunk(s, ns, target, n))
  {
    hide Raise;
  }

  /** What frees a peer that waits for nothing; a kick is not among it. */
  predicate Frees(e: Event, s: Peer) {
    if s.phase.WaitingDial? then
      || (e.Connected? && !e.own && Found(e.how, s))
      || (e.Closed? && s.bound)
      || (e.DialFailed? && !e.own && (e.named ==> s.bound))
      || ((e.Hello? || e.Refused?) && s.open > 0 && s.bound)
    else
      e.Twin? || (e.DialFailed? && Possible(e, s) && e.named)
  }

  lemma StrandedUnlessFreed(e: Event, s: Peer)
    requires Known(s) && !Alive(s)
    ensures Alive(Step(e, s)) <==> Frees(e, s)
    ensures !Frees(e, s) ==> Step(e, s).phase == s.phase && Step(e, s).open <= s.open + Bit(e.Twin?)
  {
    hide Ahead, Raise;
  }

  predicate NoneFrees(run: seq<Event>, s: Peer) {
    run == [] || (NoneFrees(run[..|run| - 1], s) && !Frees(run[|run| - 1], Exec(run[..|run| - 1], s)))
  }

  /** A stranded peer waits through any run of other events, kicks included,
      and sends nothing. */
  lemma {:induction false} WaitsForEver(run: seq<Event>, s: Peer)
    requires Known(s) && !Alive(s) && NoneFrees(run, s)
    ensures var y := Exec(run, s); !Alive(y) && y.phase == s.phase && y.open <= s.open + Twins(run)
  {
    hide Step, Alive, Frees, Known;
    if run != [] {
      var n := |run| - 1;
      WaitsForEver(run[..n], s);
      RunKeepsKnown(run[..n], s);
      StrandedUnlessFreed(run[n], Exec(run[..n], s));
    }
  }

  /** A peer whose id is known and whose address is no longer marked: once its
      connection is gone, the next kick dials it by id, and the answer to that
      dial greets nobody, however it is matched. */
  lemma RedialUnheard(s: Peer, how: Match)
    requires s.bound && !s.marked && s.dials == 0 && !InFlight(s.phase)
    ensures var y := Step(Connected(true, how), Step(Kick(false, true), s));
      y.phase.WaitingDial? && !Alive(y) && y.open == s.open
  {
  }

  // ---------- the bounds are exact ----------

  function Times(e: Event, n: nat): (run: seq<Event>)
    ensures |run| == n && forall i | 0 <= i < n :: run[i] == e
  {
    if n == 0 then [] else Times(e, n - 1) + [e]
  }

  lemma {:induction false} ExecConcat(a: seq<Event>, b: seq<Event>, s: Peer)
    ensures Exec(a + b, s) == Exec(b, Exec(a, s)) && Twins(a + b) == Twins(a) + Twins(b)
  {
    hide Step;
    if b == [] {
      assert a + b == a;
    } else {
      var n := |b| - 1;
      assert (a + b)[..|a| + n] == a + b[..n];
      ExecConcat(a, b[..n], s);
    }
  }

  lemma Single(e: Event, s: Peer)
    ensures Exec([e], s) == Step(e, s) && Twins([e]) == Bit(e.Twin?)
  {
    hide Step;
    assert [e][..0] == [];
  }

  /** Our node hosting one namespace, far behind its target. */
  function Lagging(ns: Name, phase: Phase, head: nat, chunks: nat, open: nat): Peer {
    Peer(phase, chunks, [], map[ns := head], open, true, false, 0)
  }

  function Advert(ns: Name, head: nat): Event {
    Hello(true, [(ns, head + MAX_AHEAD)])
  }

  lemma AdvertStarts(ns: Name, phase: Phase, head: nat, chunks: nat, open: nat)
    requires open > 0
    ensures Step(Advert(ns, head), Lagging(ns, phase, head, chunks, open)) ==
      Lagging(ns, Pulling(ns, head + MAX_AHEAD), head, chunks, open)
  {
    var ads: seq<Target> := [(ns, head + MAX_AHEAD)];
    assert ads[..0] == [] && ads[1..] == [];
    assert Ahead(ads, map[ns := head]) == ads;
  }

  /** One single-record chunk: the pull goes on, or ends at the cap. */
  lemma OneChunk(ns: Name, target: nat, head: nat, chunks: nat, open: nat)
    requires open > 0 && head + 1 < target
    ensures Step(Chunk(Applied(1)), Lagging(ns, Pulling(ns, target), head, chunks, open)) ==
      if chunks + 1 < MAX_CHUNKS_PER_TICK then Lagging(ns, Pulling(ns, target), head + 1, chunks + 1, open)
      else Lagging(ns, Done, head + 1, chunks + 1, open - 1)
  {
    hide Ahead;
    assert map[ns := head][ns := head + 1] == map[ns := head + 1];
  }

  lemma {:induction false} ManyChunks(ns: Name, target: nat, n: nat, open: nat)
    requires open > 0 && n < MAX_CHUNKS_PER_TICK && n < target
    ensures Exec(Times(Chunk(Applied(1)), n), Lagging(ns, Pulling(ns, target), 0, 0, open)) ==
      Lagging(ns, Pulling(ns, target), n, n, open)
    ensures Twins(Times(Chunk(Applied(1)), n)) == 0
  {
    hide Step, Lagging;
    if n > 0 {
      assert Times(Chunk(Applied(1)), n)[..n - 1] == Times(Chunk(Applied(1)), n - 1);
      ManyChunks(ns, target, n - 1, open);
      OneChunk(ns, target, n - 1, n - 1, open);
    }
  }

  predicate Answers(run: seq<Event>) {
    forall i | 0 <= i < |run| :: IsReply(run[i])
  }

  lemma {:induction false} AnswersNeverStray(run: seq<Event>, s: Peer)
    requires Answers(run)
    ensures NoKick(run) && Twins(run) == 0 && Strays(run, s) == 0
  {
    hide Step;
    if run != [] { AnswersNeverStray(run[..|run| - 1], s); }
  }

  /** A full round on one of `open` requests. */
  lemma FullRound(ns: Name, open: nat) returns (run: seq<Event>)
    requires open > 0
    ensures Answers(run)
    ensures Exec(run, Lagging(ns, AwaitingHello, 0, 0, open)) == Lagging(ns, Done, MAX_CHUNKS_PER_TICK, MAX_CHUNKS_PER_TICK, open - 1)
  {
    hide Step, Lagging;
    var one := Chunk(Applied(1));
    var n := MAX_CHUNKS_PER_TICK - 1;
    var s := Lagging(ns, AwaitingHello, 0, 0, open);
    var front := [Advert(ns, 0)] + Times(one, n);
    AdvertStarts(ns, AwaitingHello, 0, 0, open);
    Single(Advert(ns, 0), s);
    ManyChunks(ns, MAX_AHEAD, n, open);
    ExecConcat([Advert(ns, 0)], Times(one, n), s);
    OneChunk(ns, MAX_AHEAD, n, n, open);
    Single(one, Exec(front, s));
    ExecConcat(front, [one], s);
    run := front + [one];
  }

  /** Every further open request admits one more chunk. */
  lemma {:induction false} OpenBuysChunk(ns: Name, open: nat, used: nat) returns (run: seq<Event>)
    requires used < open
    ensures Answers(run)
    ensures Exec(run, Lagging(ns, AwaitingHello, 0, 0, open)) ==
      Lagging(ns, Done, MAX_CHUNKS_PER_TICK + used, MAX_CHUNKS_PER_TICK + used, open - 1 - used)
  {
    hide Step, Lagging;
    if used == 0 {
      run := FullRound(ns, open);
    } else {
      var front := OpenBuysChunk(ns, open, used - 1);
      var s := Lagging(ns, AwaitingHello, 0, 0, open);
      var h := MAX_CHUNKS_PER_TICK + used - 1;
      AdvertStarts(ns, Done, h, h, open - used);
      OneChunk(ns, h + MAX_AHEAD, h, h, open - used);
      ExecConcat(front, [Advert(ns, h)], s);
      Single(Advert(ns, h), Exec(front, s));
      ExecConcat(front + [Advert(ns, h)], [Chunk(Applied(1))], s);
      Single(Chunk(Applied(1)), Exec(front + [Advert(ns, h)], s));
      run := front + [Advert(ns, h)] + [Chunk(Applied(1))];
    }
  }

  /** Two configured names with one peer id: after a kick both hellos are open,
      and the name that answers are credited to counts 33 chunks before the next
      kick. */
  lemma TwinNamesOverrun(ns: Name) returns (run: seq<Event>)
    ensures NoKick(run)
    ensures Exec(run, Step(Twin, Step(Kick(true, true), Lagging(ns, Idle, 0, 0, 0)))).chunks == MAX_CHUNKS_PER_TICK + 1
  {
    run := OpenBuysChunk(ns, 2, 1);
    AnswersNeverStray(run, Lagging(ns, AwaitingHello, 0, 0, 2));
  }

  lemma {:induction false} StraysConcat(a: seq<Event>, b: seq<Event>, s: Peer)
    ensures Strays(a + b, s) == Strays(a, s) + Strays(b, Exec(a, s))
  {
    hide Exec, Stray;
    if b == [] {
      assert a + b == a;
    } else {
      var n := |b| - 1;
      assert (a + b)[..|a| + n] == a + b[..n];
      ExecConcat(a, b[..n], s);
      StraysConcat(a, b[..n], s);
    }
  }

  /** The connection is lost and the peer dialed; the loss is reported; the peer
      has connected to us by the next kick and is greeted; then our dial fails. */
  function LateFailure(): seq<Event> {
    [Kick(false, true), Closed, Kick(true, true), DialFailed(true, true)]
  }

  lemma LateFailureStrays(ns: Name, open: nat)
    ensures var s := Lagging(ns, Idle, 0, 0, open);
      && Exec(LateFailure(), s) == Lagging(ns, Idle, 0, 0, open + 1)
      && Strays(LateFailure(), s) == 1 && Twins(LateFailure()) == 0
  {
    var s := Lagging(ns, Idle, 0, 0, open);
    var a, b, c, d := [LateFailure()[0]], LateFailure()[..2], LateFailure()[..3], LateFailure();
    assert a[..0] == [] && b[..1] == a && c[..2] == b && d[..3] == c;
    assert Exec(a, s) == s.(phase := WaitingDial, dials := 1) && Strays(a, s) == Twins(a) == 0;
    assert Exec(b, s) == s.(dials := 1) && Strays(b, s) == Twins(b) == 0;
    assert Exec(c, s) == s.(phase := AwaitingHello, open := open + 1, dials := 1) && Strays(c, s) == Twins(c) == 0;
  }

  lemma {:induction false} LateFailures(ns: Name, k: nat) returns (run: seq<Event>)
    ensures var s := Lagging(ns, Idle, 0, 0, 0);
      Exec(run, s) == Lagging(ns, Idle, 0, 0, k) && Strays(run, s) == k && Twins(run) == 0
  {
    hide Step, Stray;
    run := [];
    if k > 0 {
      var s := Lagging(ns, Idle, 0, 0, 0);
      var front := LateFailures(ns, k - 1);
      LateFailureStrays(ns, k - 1);
      ExecConcat(front, LateFailure(), s);
      StraysConcat(front, LateFailure(), s);
      run := front + LateFailure();
    }
  }

  /** Dial errors alone, `k` of them on a greeted peer, let a peer with its own
      id count `32 + k` chunks between two kicks. */
  lemma DialErrorsOverrun(ns: Name, k: nat) returns (run: seq<Event>)
    ensures var s := Lagging(ns, Idle, 0, 0, 0);
      Strays(run, s) == k && Twins(run) == 0 && Exec(run, s).chunks == MAX_CHUNKS_PER_TICK + k
  {
    hide Step, Stray;
    var s := Lagging(ns, Idle, 0, 0, 0);
    var front := LateFailures(ns, k);
    var kick := [Kick(true, true)];
    KickGreets(ns, k);
    ExecConcat(front, kick, s);
    StraysConcat(front, kick, s);
    var back := OpenBuysChunk(ns, k + 1, k);
    var greeted := Lagging(ns, AwaitingHello, 0, 0, k + 1);
    AnswersNeverStray(back, greeted);
    ExecConcat(front + kick, back, s);
    StraysConcat(front + kick, back, s);
    run := front + kick + back;
  }

  lemma KickGreets(ns: Name, open: nat)
    ensures var s := Lagging(ns, Idle, 0, 0, open);
      && Exec([Kick(true, true)], s) == Lagging(ns, AwaitingHello, 0, 0, open + 1)
      && Strays([Kick(true, true)], s) == Twins([Kick(true, true)]) == 0
  {
    assert [Kick(true, true)][..0] == [];
  }

  /** 32 chunks bound all runs with `k` strays exactly when there are none. */
  lemma BudgetIffNoStray(k: nat)
    ensures (forall run, s: Peer | Tidy(s, 0) && Strays(run, s) == k :: Exec(run, s).chunks <= MAX_CHUNKS_PER_TICK) <==> k == 0
  {
    hide Exec, Strays;
    if k == 0 {
      forall run, s: Peer | Tidy(s, 0) && Strays(run, s) == k ensures Exec(run, s).chunks <= MAX_CHUNKS_PER_TICK {
        NeverOverBudget(run, s);
      }
    } else {
      var run := DialErrorsOverrun([], k);
      assert Exec(run, Lagging([], Idle, 0, 0, 0)).chunks > MAX_CHUNKS_PER_TICK;
    }
  }

  /** With `k` requests of ours open, pending or sent by a twin between two kicks,
      32 chunks bound every run exactly when `k` is at most one. */
  lemma BudgetIffOneOpen(k: nat)
    ensures
      (forall run, s: Peer | NoKick(run) && s.chunks == 0 && Budget(s) + Twins(run) == k ::
        Exec(run, s).chunks <= MAX_CHUNKS_PER_TICK)
      <==> k <= 1
  {
    hide Exec, Twins, NoKick;
    if k <= 1 {
      forall run, s: Peer | NoKick(run) && s.chunks == 0 && Budget(s) + Twins(run) == k
        ensures Exec(run, s).chunks <= MAX_CHUNKS_PER_TICK
      {
        ThirtyTwoChunks(run, s);
      }
    } else {
      var run := OpenBuysChunk([], k, 1);
      var s := Lagging([], AwaitingHello, 0, 0, k);
      AnswersNeverStray(run, s);
      assert Exec(run, s).chunks > MAX_CHUNKS_PER_TICK;
    }
  }

  /** Replies are bounded only up to the hellos among them: a peer that answers
      every pull with a hello that claims to be ahead keeps a round going. */
  lemma HelloKeepsRoundOpen(ns: Name, n: nat)
    ensures var s := Lagging(ns, Pulling(ns, MAX_AHEAD), 0, 0, 1); var run := Times(Advert(ns, 0), n);
      NoKick(run) && Exec(run, s) == s && Replies(run, s) == n
  {
    AdvertStarts(ns, Pulling(ns, MAX_AHEAD), 0, 0, 1);
    Loop(Advert(ns, 0), Lagging(ns, Pulling(ns, MAX_AHEAD), 0, 0, 1), n);
  }

  /** A reply that changes nothing can come any number of times. */
  lemma {:induction false} Loop(e: Event, s: Peer, n: nat)
    requires IsReply(e) && s.open > 0 && Step(e, s) == s
    ensures Exec(Times(e, n), s) == s && Replies(Times(e, n), s) == n
  {
    hide Step, IsReply;
    if n > 0 {
      assert Times(e, n)[..n - 1] == Times(e, n - 1);
      Loop(e, s, n - 1);
    }
  }

  // ---------- the runner ----------

  /** The runner's fields for one peer; the store is seen through its heads. */
  class Runner {
    var phase: Phase
    var roundChunks: nat
    var pending: seq<Target>
    var heads: map<Name, nat>
    var bound: bool
    var pendingDial: bool
    var open: nat
    var dials: nat

    function State(): Peer
      reads this
    {
      Peer(phase, roundChunks, pending, heads, open, bound, pendingDial, dials)
    }

    constructor (hosted: map<Name, nat>)
      ensures State() == Peer(Idle, 0, [], hosted, 0, false, false, 0)
      ensures Tidy(State(), 0) && Known(State()) && Alive(State())
    {
      phase, roundChunks, pending, heads := Idle, 0, [], hosted;
      bound, pendingDial, open, dials := false, false, 0, 0;
    }

    /** `connected`: to the known id; `dialOk`: the dial could be started. */
    method KickAll(connected: bool, dialOk: bool)
      modifies this
      ensures State() == Step(Kick(connected, dialOk), old(State()))
    {
      roundChunks := 0;
      if phase.AwaitingHello? || phase.Pulling? || phase.WaitingDial? { return; }
      phase := Idle;
      if dialOk && !(bound && connected) { dials := dials + 1; }
      if bound {
        if !connected {
          phase := WaitingDial;
          return;
        }
        SendHello();
      } else {
        pendingDial := false;
        if dialOk { pendingDial, phase := true, WaitingDial; }
      }
    }

    method SendHello()
      modifies this`phase, this`open
      ensures phase == AwaitingHello && open == old(open) + 1
    {
      open := open + 1;
      phase := AwaitingHello;
    }

    /** A dialed connection is established. */
    method OnConnected(own: bool, how: Match)
      requires own ==> dials > 0
      modifies this
      ensures State() == Step(Connected(own, how), old(State()))
    {
      if own { dials := dials - 1; }
      var mine := how.ByAddress? && pendingDial;
      if mine { pendingDial := false; }
      if !mine && how.ByScan? { mine := phase.WaitingDial? && !bound; }
      if mine {
        bound := true;
        if phase.WaitingDial? { SendHello(); }
      }
    }

    method OnClosed()
      modifies this`phase
      ensures State() == Step(Closed, old(State()))
    {
      if bound && phase.WaitingDial? { phase := Idle; }
    }

    method OnDialError(own: bool, named: bool)
      requires own ==> dials > 0
      modifies this
      ensures State() == Step(DialFailed(own, named), old(State()))
    {
      if own { dials := dials - 1; }
      if named {
        if bound { phase := Idle; }
      } else {
        pendingDial := false;
        if phase.WaitingDial? { phase := Idle; }
      }
    }

    /** A denial or an outbound failure. */
    method OnRefused()
      requires open > 0
      modifies this`phase, this`open
      ensures State() == Step(Refused, old(State()))
    {
      open := open - 1;
      if bound { phase := Idle; }
    }

    /** Called on a reply, so with a request open. `from`: the position asked for
        when a pull is sent, one past our own head of that namespace. */
    method OnHello(pinOk: bool, ads: seq<Target>) returns (from: nat)
      requires open > 0
      modifies this
      ensures State() == Step(Hello(pinOk, ads), old(State()))
      ensures bound && phase.Pulling? ==> from == Head(State(), phase.ns) + 1
    {
      open, from := open - 1, 0;
      if !bound { return; }
      if !pinOk {
        phase := Bad;
        return;
      }
      var pulls: seq<Target> := [];
      for i := 0 to |ads|
        invariant State() == old(State()).(open := old(open) - 1)
        invariant pulls == Ahead(ads[..i], heads)
      {
        assert ads[..i + 1][..i] == ads[..i];
        var (ns, seqNo) := ads[i];
        if ns !in heads { continue; }
        var local := heads[ns];
        if local < seqNo {
          var maxTarget := local + MAX_AHEAD;
          var target := if seqNo < maxTarget then seqNo else maxTarget;
          if local < target { pulls := pulls + [(ns, target)]; }
        }
      }
      assert ads[..|ads|] == ads;
      if pulls == [] {
        phase := Done;
        return;
      }
      pending := pulls[1..];
      from := SendPull(pulls[0].0, pulls[0].1);
    }

    method SendPull(ns: Name, target: nat) returns (from: nat)
      modifies this`phase, this`open
      ensures State() == Send(old(State()), ns, target)
      ensures from == Head(State(), ns) + 1
    {
      from := (if ns in heads then heads[ns] else 0) + 1;
      open := open + 1;
      phase := Pulling(ns, target);
    }

    /** Called on a reply, so with a request open. */
    method OnRecords(fate: Fate) returns (from: nat)
      requires open > 0
      modifies this
      ensures State() == Step(Chunk(fate), old(State()))
      ensures bound && phase.Pulling? ==> from == Head(State(), phase.ns) + 1
    {
      hide Raise, Ahead, KickPeer, ConnectPeer, FailDial, StartNext;
      open, from := open - 1, 0;
      if !bound || !phase.Pulling? { return; }
      var ns, target := phase.ns, phase.target;
      match fate
      case WrongNs => phase := Idle; return;
      case Disallowed => phase := Done; return;
      case Undecodable => phase := Idle; return;
      case Unverified => phase := Done; return;
      case Failed(rise) =>
        heads := Raise(heads, ns, rise);
        phase := Idle;
        return;
      case Applied(n) =>
        heads := Raise(heads, ns, n);
        var localSeq := if ns in heads then heads[ns] else 0;
        if n == 0 {
          phase := Done;
          return;
        }
        roundChunks := roundChunks + 1;
        if roundChunks >= MAX_CHUNKS_PER_TICK {
          phase := Done;
          return;
        }
        if localSeq < target {
          from := SendPull(ns, target);
          return;
        }
        from := PullNext();
    }

    /** The next queued namespace, or the end of the round. */
    method PullNext() returns (from: nat)
      modifies this`phase, this`pending, this`open
      ensures State() == StartNext(old(State()))
      ensures phase.Pulling? ==> from == Head(State(), phase.ns) + 1
    {
      from := 0;
      if pending == [] {
        phase := Done;
        return;
      }
      var next := pending[0];
      pending := pending[1..];
      from := SendPull(next.0, next.1);
    }
  }
}
