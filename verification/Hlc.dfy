/** The hybrid logical clock (`core/hlc.rs`): the lock-free issuer `Hlc::now` as
    a machine of atomic steps by any number of threads, and `Hlc::observed`. */
module HybridClock {

  const COUNTER_SPAN: nat := 0x1_0000
  const U64: nat := 0x1_0000_0000_0000_0000
  const MS_LIMIT: nat := 0x1_0000_0000_0000

  /** Where a thread stands inside `now`: about to load the watermark, about to
      compare-exchange it from `expected`, or about to fetch-and-add. */
  datatype Thread = Idle | Load(base: nat) | Exchange(base: nat, expected: nat) | Bump(base: nat)

  /** A timestamp handed out, with the caller's own clock reading. */
  datatype Issue = Issue(base: nat, value: nat)

  datatype State = State(last: nat, threads: map<nat, Thread>, issued: seq<Issue>)

  /** One atomic step of thread `t`. A compare-exchange may fail spuriously. */
  datatype Step = Begin(t: nat, ms: nat) | LoadLast(t: nat) | Exchanged(t: nat) | LostRace(t: nat) | Bumped(t: nat)

  function At(s: State, t: nat): Thread {
    if t in s.threads then s.threads[t] else Idle
  }

  predicate Enabled(s: State, a: Step) {
    match a
    case Begin(t, ms) => At(s, t).Idle? && ms < MS_LIMIT
    case LoadLast(t) => At(s, t).Load?
    case Exchanged(t) => At(s, t).Exchange? && At(s, t).expected == s.last
    case LostRace(t) => At(s, t).Exchange?
    case Bumped(t) => At(s, t).Bump?
  }

  function Move(s: State, t: nat, th: Thread): State {
    s.(threads := s.threads[t := th])
  }

  function Exec(s: State, a: Step): State
    requires Enabled(s, a)
  {
    match a
    case Begin(t, ms) => Move(s, t, Load(ms * COUNTER_SPAN))
    case LoadLast(t) =>
      var base := At(s, t).base;
      Move(s, t, if base > s.last then Exchange(base, s.last) else Bump(base))
    case Exchanged(t) =>
      var base := At(s, t).base;
      Move(State(base, s.threads, s.issued + [Issue(base, base)]), t, Idle)
    case LostRace(t) => Move(s, t, Load(At(s, t).base))
    case Bumped(t) =>
      // Both the watermark and the value returned wrap at 64 bits.
      var next := (s.last + 1) % U64;
      Move(State(next, s.threads, s.issued + [Issue(At(s, t).base, next)]), t, Idle)
  }

  const START: State := State(0, map[], [])

  /** A schedule: any interleaving in which every step is enabled. */
  predicate Schedule(run: seq<Step>)
    decreases |run|, 0
  {
    run == [] || (Schedule(run[..|run| - 1]) && Enabled(After(run[..|run| - 1]), run[|run| - 1]))
  }

  function After(run: seq<Step>): State
    requires Schedule(run)
    decreases |run|, 1
  {
    if run == [] then START else Exec(After(run[..|run| - 1]), run[|run| - 1])
  }

  /** No fetch-and-add ever met the largest 64-bit value. */
  predicate NeverWraps(run: seq<Step>)
    requires Schedule(run)
  {
    run == [] ||
    (NeverWraps(run[..|run| - 1]) && (run[|run| - 1].Bumped? ==> After(run[..|run| - 1]).last < U64 - 1))
  }

  /** Timestamps rise strictly in issue order, so they are distinct. */
  predicate Increasing(issued: seq<Issue>) {
    forall i, j | 0 <= i < j < |issued| :: issued[i].value < issued[j].value
  }

  predicate ThreadOk(th: Thread, last: nat) {
    match th
    case Idle => true
    case Load(b) => b < U64
    case Exchange(b, e) => e < b < U64
    case Bump(b) => b <= last
  }

  ghost predicate Inv(s: State) {
    && s.last < U64
    && (forall t | t in s.threads :: ThreadOk(s.threads[t], s.last))
    && Increasing(s.issued)
    && (forall i | 0 <= i < |s.issued| :: s.issued[i].base <= s.issued[i].value <= s.last)
    && (s.last == 0 || (s.issued != [] && s.issued[|s.issued| - 1].value == s.last))
  }

  lemma ExecKeepsInv(s: State, a: Step)
    requires Inv(s) && Enabled(s, a) && (a.Bumped? ==> s.last < U64 - 1)
    ensures Inv(Exec(s, a)) && s.last <= Exec(s, a).last
  {
    hide Increasing;
    var e := Exec(s, a);
    assert ThreadOk(At(s, a.t), s.last);
    if a.Exchanged? || a.Bumped? {
      IssueKeepsOrder(s.issued, e.issued[|s.issued|], s.last);
    }
  }

  lemma IssueKeepsOrder(issued: seq<Issue>, i: Issue, last: nat)
    requires Increasing(issued) && last < i.value && forall k | 0 <= k < |issued| :: issued[k].value <= last
    ensures Increasing(issued + [i])
  {
  }

  lemma {:induction false} RunKeepsInv(run: seq<Step>)
    requires Schedule(run) && NeverWraps(run)
    ensures Inv(After(run))
  {
    hide Enabled, Exec, Inv;
    if run == [] {
      StartInv();
    } else {
      RunKeepsInv(run[..|run| - 1]);
      ExecKeepsInv(After(run[..|run| - 1]), run[|run| - 1]);
    }
  }

  lemma StartInv()
    ensures Inv(START)
  {
  }

  lemma WrapIssuesZero(s: State, a: Step)
    requires Inv(s) && Enabled(s, a) && a.Bumped? && s.last == U64 - 1
    ensures !Increasing(Exec(s, a).issued)
  {
    var n := |s.issued|;
    var e := Exec(s, a).issued;
    assert e[n - 1].value == s.last && e[n].value == 0;
  }

  /** Issued lists only grow. */
  lemma ExecExtends(s: State, a: Step)
    requires Enabled(s, a) && Increasing(Exec(s, a).issued)
    ensures Increasing(s.issued)
  {
    assert forall i | 0 <= i < |s.issued| :: Exec(s, a).issued[i] == s.issued[i];
  }

  /** Exactly: in every interleaving the timestamps issued increase strictly if
      and only if the 64-bit watermark never wraps. */
  lemma {:induction false} IncreasingIffNoWrap(run: seq<Step>)
    requires Schedule(run)
    ensures Increasing(After(run).issued) <==> NeverWraps(run)
  {
    hide Enabled, Exec, Inv, Increasing;
    if run == [] {
      StartInv();
      NoneIncreasing();
    } else {
      var init := run[..|run| - 1];
      var a := run[|run| - 1];
      IncreasingIffNoWrap(init);
      if NeverWraps(run) {
        RunKeepsInv(run);
        InvIncreasing(After(run));
      } else if Increasing(After(run).issued) {
        ExecExtends(After(init), a);
        RunKeepsInv(init);
        LastBelow(After(init));
        WrapIssuesZero(After(init), a);
      }
    }
  }

  lemma NoneIncreasing()
    ensures Increasing([])
  {
  }

  lemma InvIncreasing(s: State)
    requires Inv(s)
    ensures Increasing(s.issued)
  {
  }

  lemma LastBelow(s: State)
    requires Inv(s)
    ensures s.last < U64
  {
  }

  // ---------- a condition the caller can check ----------

  predicate ClocksBelow(run: seq<Step>, ms: nat) {
    forall i | 0 <= i < |run| && run[i].Begin? :: run[i].ms <= ms
  }

  ghost predicate Bounded(s: State, ms: nat) {
    && s.last <= ms * COUNTER_SPAN + |s.issued|
    && (forall t | t in s.threads && !s.threads[t].Idle? :: s.threads[t].base <= ms * COUNTER_SPAN)
  }

  lemma ExecKeepsBound(s: State, a: Step, ms: nat)
    requires Bounded(s, ms) && Enabled(s, a) && (a.Begin? ==> a.ms <= ms)
    ensures Bounded(Exec(s, a), ms) && |s.issued| <= |Exec(s, a).issued|
  {
  }

  lemma {:induction false} RunKeepsBound(run: seq<Step>, ms: nat)
    requires Schedule(run) && ClocksBelow(run, ms)
    ensures Bounded(After(run), ms)
    ensures ms * COUNTER_SPAN + |After(run).issued| < U64 ==> NeverWraps(run)
  {
    hide Enabled, Exec, Bounded;
    if run == [] {
      StartBound(ms);
    } else {
      var init := run[..|run| - 1];
      var a := run[|run| - 1];
      RunKeepsBound(init, ms);
      ExecKeepsBound(After(init), a, ms);
      if a.Bumped? { BumpIssues(After(init), a, ms); }
    }
  }

  lemma StartBound(ms: nat)
    ensures Bounded(START, ms)
  {
  }

  lemma BumpIssues(s: State, a: Step, ms: nat)
    requires Enabled(s, a) && a.Bumped? && Bounded(s, ms)
    ensures ms * COUNTER_SPAN + |Exec(s, a).issued| < U64 ==> s.last < U64 - 1
  {
  }

  /** With clock readings up to `ms` and fewer issues than the counter space
      above it, in every interleaving all timestamps are distinct, rise in
      issue order, and are at least their caller's own clock reading. */
  lemma IssuerSafe(run: seq<Step>, ms: nat)
    requires Schedule(run) && ClocksBelow(run, ms)
    requires ms * COUNTER_SPAN + |After(run).issued| < U64
    ensures var issued := After(run).issued;
      && Increasing(issued)
      && forall i | 0 <= i < |issued| :: issued[i].base <= issued[i].value <= After(run).last
  {
    RunKeepsBound(run, ms);
    RunKeepsInv(run);
  }

  // ---------- merging a remote timestamp ----------

  /** `observed`: the physical part is the high 48 bits, the counter the low 16. */
  function Observed(self: nat, other: nat): (r: nat)
    requires self < U64 && other < U64
  {
    var prevPhys := self / COUNTER_SPAN;
    var m := if self >= other then self else other;
    if m / COUNTER_SPAN == prevPhys then
      var c := m % COUNTER_SPAN + 1;
      if c > COUNTER_SPAN - 1 then ((prevPhys + 1) * COUNTER_SPAN) % U64
      else m - m % COUNTER_SPAN + c
    else
      m
  }

  /** The clock moves strictly forward, to at least the remote value and past it
      when both share a millisecond, except from the very last 64-bit value. */
  lemma ObservedAdvances(self: nat, other: nat)
    requires self < U64 && other < U64
    ensures var r := Observed(self, other); var m := if self >= other then self else other;
      var same := m / COUNTER_SPAN == self / COUNTER_SPAN;
      && (self < r && other <= r && (same ==> other < r) <==> !(same && m == U64 - 1))
      && (!(same && m == U64 - 1) ==> r == if same then m + 1 else other)
  {
    var m := if self >= other then self else other;
    assert m == (m / COUNTER_SPAN) * COUNTER_SPAN + m % COUNTER_SPAN;
  }
}
