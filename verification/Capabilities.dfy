/** Capabilities and their verification (`caps.rs`), the authorization ladder
    and its verdict cache (`ns.rs`), and the epoch discipline of the server. */
module Capabilities {
  import opened ByteStrings
  import opened Records

  datatype Tier = L1 | L2 | L3

  datatype Scope = Scope(host: string, tier: Tier, ns: string, prefix: Option<string>)

  function TierName(t: Tier): string {
    match t
    case L1 => "l1"
    case L2 => "l2"
    case L3 => "l3"
  }

  function ToUrl(s: Scope): string {
    "bmdb://" + s.host + "/" + TierName(s.tier) + "/" + s.ns +
    (match s.prefix case None => "" case Some(p) => "/" + p)
  }

  /** Same host, tier and namespace, and a prefix that ends at a segment. */
  predicate Covers(a: Scope, b: Scope) {
    && a.host == b.host && a.tier == b.tier && a.ns == b.ns
    && match (a.prefix, b.prefix)
       case (Some(p), Some(q)) => q == p || p + "/" <= q
       case (Some(_), None) => false
       case (None, _) => true
  }

  type Perms = bv8
  const ADMIN: Perms := 4

  predicate Contains(have: Perms, want: Perms) {
    have & want == want
  }

  type PublicKey = Bytes
  type Digest = string

  /** The fields a signature covers, in their signed form. */
  datatype SignView = SignView(url: string, perms: Perms, expiry: Option<nat>, nonce: nat, issuer: PublicKey, subject: PublicKey)

  datatype Capability = Capability(
    scope: Scope, perms: Perms, expiry: Option<nat>, nonce: nat, issuer: PublicKey, subject: PublicKey, sig: Bytes)

  /** ed25519 verification, the content digest, and the text form of a key. */
  datatype Primitives = Primitives(
    sigOk: (PublicKey, SignView, Bytes) -> bool,
    digest: (SignView, Bytes) -> Digest,
    hex: PublicKey -> string)

  function ViewOf(cap: Capability): SignView {
    SignView(ToUrl(cap.scope), cap.perms, cap.expiry, cap.nonce, cap.issuer, cap.subject)
  }

  function DigestOf(x: Primitives, cap: Capability): Digest {
    x.digest(ViewOf(cap), cap.sig)
  }

  datatype Keyring = Keyring(active: PublicKey, retired: seq<PublicKey>)

  predicate AcceptsIssuer(ring: Keyring, issuer: PublicKey) {
    issuer == ring.active || issuer in ring.retired
  }

  datatype Revocations = Revocations(byPrincipal: set<(string, string)>, byNonce: set<nat>)

  predicate IsRevoked(revs: Revocations, url: string, principal: string, nonce: nat) {
    (url, principal) in revs.byPrincipal || nonce in revs.byNonce
  }

  datatype Verdict = Valid | BadIssuer | BadSig | Expired | Revoked | Malformed

  predicate Lapsed(expiry: Option<nat>, now: nat) {
    expiry.Some? && now >= expiry.value
  }

  /** `Capability::verify`. */
  function Verify(x: Primitives, cap: Capability, ring: Keyring, principal: PublicKey, revs: Revocations, now: nat): Verdict {
    if !AcceptsIssuer(ring, cap.issuer) then BadIssuer
    else if !x.sigOk(cap.issuer, ViewOf(cap), cap.sig) then BadSig
    else if cap.subject != principal then Malformed
    else if Lapsed(cap.expiry, now) then Expired
    else if IsRevoked(revs, ToUrl(cap.scope), x.hex(principal), cap.nonce) then Revoked
    else Valid
  }

  /** `verify_or_cached`: a cached verdict skips signature and revocation. */
  function VerifyOrCached(x: Primitives, cap: Capability, ring: Keyring, principal: PublicKey, revs: Revocations, now: nat, cached: bool): Verdict {
    if !AcceptsIssuer(ring, cap.issuer) then BadIssuer
    else if cap.subject != principal then Malformed
    else if Lapsed(cap.expiry, now) then Expired
    else if cached then Valid
    else if !x.sigOk(cap.issuer, ViewOf(cap), cap.sig) then BadSig
    else if IsRevoked(revs, ToUrl(cap.scope), x.hex(principal), cap.nonce) then Revoked
    else Valid
  }

  // ---------- requests ----------

  datatype Request = Request(scope: Scope, principal: PublicKey, perms: Perms, caps: seq<Capability>, host: string, now: nat)

  /** The capability fits the request, whoever signed it. */
  predicate Suits(x: Primitives, cap: Capability, q: Request) {
    match q.scope.tier
    case L1 => cap.scope.tier == L1 && cap.scope.ns == "*" && Contains(cap.perms, ADMIN)
    case L2 => cap.scope.tier == L2 && Covers(cap.scope, q.scope) && Contains(cap.perms, q.perms)
    case L3 =>
      && cap.scope.tier == L3 && Covers(cap.scope, q.scope)
      && "u/" + x.hex(cap.subject) == q.scope.ns && Contains(cap.perms, q.perms)
  }

  predicate Grants(x: Primitives, cap: Capability, ring: Keyring, revs: Revocations, q: Request) {
    Suits(x, cap, q) && Verify(x, cap, ring, q.principal, revs, q.now) == Valid
  }

  /** Authorization without any cache. */
  predicate Authorized(x: Primitives, ring: Keyring, revs: Revocations, q: Request) {
    q.scope.host == q.host && exists i | 0 <= i < |q.caps| :: Grants(x, q.caps[i], ring, revs, q)
  }

  // ---------- the verdict cache ----------

  const SHARDS: nat := 256
  const SHARD_CAP: nat := 8192

  /** Per shard a map from digest to the epoch of its full verification, and a
      tick that no longer matches once the shard has been cleared. */
  datatype Cache = Cache(shards: map<nat, map<Digest, nat>>, ticks: map<nat, nat>)

  function ShardOf(d: Digest): nat {
    if d == [] then 0 else d[0] as int % SHARDS
  }

  function ShardMap(c: Cache, s: nat): map<Digest, nat> {
    if s in c.shards then c.shards[s] else map[]
  }

  function TickOf(c: Cache, s: nat): nat {
    if s in c.ticks then c.ticks[s] else 0
  }

  /** The shard's map holds a verdict of this epoch. */
  predicate Stored(c: Cache, d: Digest, epoch: nat) {
    d in ShardMap(c, ShardOf(d)) && ShardMap(c, ShardOf(d))[d] == epoch
  }

  /** `epoch_ok`, when the shard's lock is free. */
  predicate Hit(c: Cache, d: Digest, epoch: nat) {
    TickOf(c, ShardOf(d)) == 0 && Stored(c, d, epoch)
  }

  /** `mark_verified`. */
  function Mark(c: Cache, d: Digest, epoch: nat, cached: bool): Cache {
    if cached then c
    else
      var s := ShardOf(d);
      var full := |ShardMap(c, s)| >= SHARD_CAP;
      var m := if full then map[] else ShardMap(c, s);
      Cache(c.shards[s := m[d := epoch]], if full then c.ticks[s := TickOf(c, s) + 1] else c.ticks)
  }

  /** What a digest is taken of. */
  type Signed = (SignView, Bytes)

  function SignedOf(cap: Capability): Signed {
    (ViewOf(cap), cap.sig)
  }

  function DigestAt(x: Primitives, k: Signed): Digest {
    x.digest(k.0, k.1)
  }

  /** No two of the capabilities in `known` share a digest. */
  predicate Injective(x: Primitives, known: set<Signed>) {
    forall k, l | k in known && l in known && DigestAt(x, k) == DigestAt(x, l) :: k == l
  }

  predicate Shown(known: set<Signed>, caps: seq<Capability>) {
    forall i | 0 <= i < |caps| :: SignedOf(caps[i]) in known
  }

  /** Signature and revocation state of a signed view, under its own subject. */
  predicate Sound(x: Primitives, ring: Keyring, revs: Revocations, v: SignView, sig: Bytes) {
    && AcceptsIssuer(ring, v.issuer)
    && x.sigOk(v.issuer, v, sig)
    && !IsRevoked(revs, v.url, x.hex(v.subject), v.nonce)
  }

  /** No entry is from the future, and every entry of the current epoch belongs
      to a known signed view whose signature checks and which is not revoked. */
  ghost predicate CacheSound(x: Primitives, known: set<Signed>, ring: Keyring, revs: Revocations, epoch: nat, c: Cache) {
    forall s, d | s in c.shards && d in c.shards[s] :: EntryOk(x, known, ring, revs, epoch, d, c.shards[s][d])
  }

  predicate EntryOk(x: Primitives, known: set<Signed>, ring: Keyring, revs: Revocations, epoch: nat, d: Digest, marked: nat) {
    marked <= epoch && (marked == epoch ==> Vouched(x, known, ring, revs, d))
  }

  predicate Vouched(x: Primitives, known: set<Signed>, ring: Keyring, revs: Revocations, d: Digest) {
    exists k | k in known :: DigestAt(x, k) == d && Sound(x, ring, revs, k.0, k.1)
  }

  /** A verdict stored in this epoch vouches for exactly the presented capability. */
  lemma HitIsSound(x: Primitives, known: set<Signed>, ring: Keyring, revs: Revocations, epoch: nat, c: Cache, cap: Capability)
    requires Injective(x, known) && SignedOf(cap) in known
    requires CacheSound(x, known, ring, revs, epoch, c) && Stored(c, DigestOf(x, cap), epoch)
    ensures Sound(x, ring, revs, ViewOf(cap), cap.sig)
  {
    hide Sound;
    var d := DigestOf(x, cap);
    assert ShardOf(d) in c.shards && d in c.shards[ShardOf(d)];
    assert EntryOk(x, known, ring, revs, epoch, d, c.shards[ShardOf(d)][d]);
    var k :| k in known && DigestAt(x, k) == d && Sound(x, ring, revs, k.0, k.1);
    assert DigestAt(x, SignedOf(cap)) == d;
  }

  lemma MarkKeepsSound(x: Primitives, known: set<Signed>, ring: Keyring, revs: Revocations, epoch: nat, c: Cache, cap: Capability, cached: bool)
    requires CacheSound(x, known, ring, revs, epoch, c)
    requires SignedOf(cap) in known && Sound(x, ring, revs, ViewOf(cap), cap.sig)
    ensures CacheSound(x, known, ring, revs, epoch, Mark(c, DigestOf(x, cap), epoch, cached))
  {
    hide Sound;
    var d := DigestOf(x, cap);
    var c' := Mark(c, d, epoch, cached);
    assert DigestAt(x, SignedOf(cap)) == d;
    assert Vouched(x, known, ring, revs, d);
    forall s, e | s in c'.shards && e in c'.shards[s]
      ensures EntryOk(x, known, ring, revs, epoch, e, c'.shards[s][e])
    {
      if cached || s != ShardOf(d) || e != d {
        assert s in c.shards && e in c.shards[s] && c'.shards[s][e] == c.shards[s][e];
      }
    }
  }

  /** A revocation bumps the epoch, which retires every entry at once. */
  lemma RevokeKeepsSound(x: Primitives, known: set<Signed>, ring: Keyring, revs: Revocations, revs': Revocations, epoch: nat, c: Cache)
    requires CacheSound(x, known, ring, revs, epoch, c)
    ensures CacheSound(x, known, ring, revs', epoch + 1, c)
  {
    forall s, d | s in c.shards && d in c.shards[s]
      ensures EntryOk(x, known, ring, revs', epoch + 1, d, c.shards[s][d])
    {
      assert EntryOk(x, known, ring, revs, epoch, d, c.shards[s][d]);
    }
  }

  /** With a sound cache verdict, the cached check allows exactly what the
      full check allows. */
  lemma CachedVerdict(x: Primitives, cap: Capability, ring: Keyring, principal: PublicKey, revs: Revocations, now: nat, cached: bool)
    requires cached ==> Sound(x, ring, revs, ViewOf(cap), cap.sig)
    ensures VerifyOrCached(x, cap, ring, principal, revs, now, cached) == Valid <==> Verify(x, cap, ring, principal, revs, now) == Valid
    ensures Verify(x, cap, ring, principal, revs, now) == Valid ==> Sound(x, ring, revs, ViewOf(cap), cap.sig)
  {
  }

  // ---------- one request at a time ----------

  class CapCache {
    var shards: map<nat, map<Digest, nat>>
    var ticks: map<nat, nat>

    ghost function View(): Cache
      reads this
    {
      Cache(shards, ticks)
    }

    constructor ()
      ensures View() == Cache(map[], map[])
    {
      shards, ticks := map[], map[];
    }

    /** Was `d` fully verified in `epoch`? `busy`: the shard lock is taken. */
    method EpochOk(d: Digest, epoch: nat, busy: bool) returns (ok: bool)
      ensures ok <==> !busy && Hit(View(), d, epoch)
    {
      var s := ShardOf(d);
      if s in ticks && ticks[s] != 0 { return false; }
      if busy || s !in shards { return false; }
      return d in shards[s] && shards[s][d] == epoch;
    }

    method MarkVerified(d: Digest, epoch: nat, cached: bool)
      modifies this
      ensures View() == Mark(old(View()), d, epoch, cached)
    {
      if cached { return; }
      var s := ShardOf(d);
      var m := if s in shards then shards[s] else map[];
      if |m| >= SHARD_CAP {
        m := map[];
        ticks := ticks[s := (if s in ticks then ticks[s] else 0) + 1];
      }
      shards := shards[s := m[d := epoch]];
    }

    /** `authorize_cached`: try each capability, stop at the first that fits
        and verifies. Any lock contention `busy` may hide a cache entry. */
    method AuthorizeCached(
        x: Primitives, ghost known: set<Signed>, ring: Keyring, revs: Revocations, epoch: nat, q: Request, busy: seq<bool>)
        returns (allowed: bool)
      requires Injective(x, known) && Shown(known, q.caps) && |busy| == |q.caps|
      requires CacheSound(x, known, ring, revs, epoch, View())
      modifies this
      ensures allowed <==> Authorized(x, ring, revs, q)
      ensures CacheSound(x, known, ring, revs, epoch, View())
    {
      hide CacheSound, Injective, Stored, Mark, Verify, VerifyOrCached, Sound, Suits;
      if q.scope.host != q.host { return false; }
      for i := 0 to |q.caps|
        invariant CacheSound(x, known, ring, revs, epoch, View())
        invariant forall j | 0 <= j < i :: !Grants(x, q.caps[j], ring, revs, q)
      {
        var cap := q.caps[i];
        var d := DigestOf(x, cap);
        var cached := EpochOk(d, epoch, busy[i]);
        if cached { HitIsSound(x, known, ring, revs, epoch, View(), cap); }
        CachedVerdict(x, cap, ring, q.principal, revs, q.now, cached);
        if VerifyOrCached(x, cap, ring, q.principal, revs, q.now, cached) == Valid && Suits(x, cap, q) {
          MarkKeepsSound(x, known, ring, revs, epoch, View(), cap, cached);
          MarkVerified(d, epoch, cached);
          assert Grants(x, q.caps[i], ring, revs, q);
          return true;
        }
      }
      return false;
    }
  }

  // ---------- any interleaving of requests and revocations ----------

  /** A request holds the revocation read lock from start to answer. For each
      capability it loads the shard's tick, reads the shard's map, judges, and
      marks the one it accepts; other requests may move in between. */
  datatype Stage = Looking | Reading(intact: bool) | Judging(cached: bool) | Marking(cached: bool)

  datatype Active = Active(q: Request, epoch: nat, i: nat, stage: Stage)

  /** An answer, with the revocations in force when it was given. */
  datatype Answer = Answer(q: Request, revs: Revocations, allowed: bool)

  datatype Server = Server(cache: Cache, revs: Revocations, epoch: nat, active: map<nat, Active>, answers: seq<Answer>)

  datatype Step =
    | Arrive(id: nat, q: Request)
    | Look(id: nat)
    | Read(id: nat, busy: bool)
    | Judge(id: nat)
    | MarkStep(id: nat)
    | GiveUp(id: nat)
    | Revoke(url: string, principal: string)

  predicate Enabled(s: Server, a: Step) {
    match a
    case Arrive(id, _) => id !in s.active
    case Look(id) => id in s.active && s.active[id].stage.Looking? && s.active[id].i < |s.active[id].q.caps|
                     && s.active[id].q.scope.host == s.active[id].q.host
    case Read(id, _) => id in s.active && s.active[id].stage.Reading? && s.active[id].i < |s.active[id].q.caps|
    case Judge(id) => id in s.active && s.active[id].stage.Judging? && s.active[id].i < |s.active[id].q.caps|
    case MarkStep(id) => id in s.active && s.active[id].stage.Marking? && s.active[id].i < |s.active[id].q.caps|
    case GiveUp(id) => id in s.active && s.active[id].stage.Looking?
                       && (s.active[id].i == |s.active[id].q.caps| || s.active[id].q.scope.host != s.active[id].q.host)
    // The write lock waits for every reader.
    case Revoke(_, _) => s.active == map[]
  }

  function Finish(s: Server, id: nat, allowed: bool): Server
    requires id in s.active
  {
    s.(active := s.active - {id}, answers := s.answers + [Answer(s.active[id].q, s.revs, allowed)])
  }

  function Exec(x: Primitives, ring: Keyring, s: Server, a: Step): Server
    requires Enabled(s, a)
  {
    match a
    case Arrive(id, q) => s.(active := s.active[id := Active(q, s.epoch, 0, Looking)])
    case Look(id) =>
      var r := s.active[id];
      var intact := TickOf(s.cache, ShardOf(DigestOf(x, r.q.caps[r.i]))) == 0;
      s.(active := s.active[id := r.(stage := Reading(intact))])
    case Read(id, busy) =>
      var r := s.active[id];
      var hit := r.stage.intact && !busy && Stored(s.cache, DigestOf(x, r.q.caps[r.i]), r.epoch);
      s.(active := s.active[id := r.(stage := Judging(hit))])
    case Judge(id) =>
      var r := s.active[id];
      var cap := r.q.caps[r.i];
      var ok := VerifyOrCached(x, cap, ring, r.q.principal, s.revs, r.q.now, r.stage.cached) == Valid && Suits(x, cap, r.q);
      s.(active := s.active[id := if ok then r.(stage := Marking(r.stage.cached)) else r.(i := r.i + 1, stage := Looking)])
    case MarkStep(id) =>
      var r := s.active[id];
      Finish(s.(cache := Mark(s.cache, DigestOf(x, r.q.caps[r.i]), r.epoch, r.stage.cached)), id, true)
    case GiveUp(id) => Finish(s, id, false)
    case Revoke(url, principal) =>
      s.(revs := s.revs.(byPrincipal := s.revs.byPrincipal + {(url, principal)}), epoch := s.epoch + 1)
  }

  /** What an unanswered request has established so far. */
  ghost predicate ActiveOk(x: Primitives, known: set<Signed>, ring: Keyring, s: Server, r: Active) {
    && Shown(known, r.q.caps)
    && r.epoch == s.epoch && r.i <= |r.q.caps|
    && (forall j | 0 <= j < r.i :: !Grants(x, r.q.caps[j], ring, s.revs, r.q))
    && (!r.stage.Looking? ==> r.i < |r.q.caps| && r.q.scope.host == r.q.host)
    && (r.stage.Judging? && r.stage.cached ==> Sound(x, ring, s.revs, ViewOf(r.q.caps[r.i]), r.q.caps[r.i].sig))
    && (r.stage.Marking? ==> Grants(x, r.q.caps[r.i], ring, s.revs, r.q))
  }

  ghost predicate AnswersOk(x: Primitives, ring: Keyring, answers: seq<Answer>) {
    forall i | 0 <= i < |answers| :: answers[i].allowed <==> Authorized(x, ring, answers[i].revs, answers[i].q)
  }

  ghost predicate Inv(x: Primitives, known: set<Signed>, ring: Keyring, s: Server) {
    && CacheSound(x, known, ring, s.revs, s.epoch, s.cache)
    && (forall id | id in s.active :: ActiveOk(x, known, ring, s, s.active[id]))
    && AnswersOk(x, ring, s.answers)
  }

  lemma LookKeepsInv(x: Primitives, known: set<Signed>, ring: Keyring, s: Server, a: Step)
    requires Injective(x, known) && Inv(x, known, ring, s) && Enabled(s, a) && (a.Look? || a.Read?)
    ensures Inv(x, known, ring, Exec(x, ring, s, a))
  {
    hide CacheSound, Injective, Stored, Sound, Grants, AnswersOk;
    var r := s.active[a.id];
    var cap := r.q.caps[r.i];
    if Stored(s.cache, DigestOf(x, cap), r.epoch) { HitIsSound(x, known, ring, s.revs, s.epoch, s.cache, cap); }
  }

  lemma JudgeKeepsInv(x: Primitives, known: set<Signed>, ring: Keyring, s: Server, a: Step)
    requires Inv(x, known, ring, s) && Enabled(s, a) && a.Judge?
    ensures Inv(x, known, ring, Exec(x, ring, s, a))
  {
    hide CacheSound, Sound, Verify, VerifyOrCached, Suits, AnswersOk;
    var r := s.active[a.id];
    CachedVerdict(x, r.q.caps[r.i], ring, r.q.principal, s.revs, r.q.now, r.stage.cached);
  }

  lemma FinishKeepsInv(x: Primitives, known: set<Signed>, ring: Keyring, s: Server, a: Step)
    requires Inv(x, known, ring, s) && Enabled(s, a) && (a.MarkStep? || a.GiveUp?)
    ensures Inv(x, known, ring, Exec(x, ring, s, a))
  {
    hide CacheSound, Sound, Verify, Suits, Mark;
    var r := s.active[a.id];
    if a.MarkStep? {
      var cap := r.q.caps[r.i];
      CachedVerdict(x, cap, ring, r.q.principal, s.revs, r.q.now, false);
      MarkKeepsSound(x, known, ring, s.revs, s.epoch, s.cache, cap, r.stage.cached);
    }
  }

  lemma ExecKeepsInv(x: Primitives, known: set<Signed>, ring: Keyring, s: Server, a: Step)
    requires Injective(x, known) && Inv(x, known, ring, s) && Enabled(s, a)
    requires a.Arrive? ==> Shown(known, a.q.caps)
    ensures Inv(x, known, ring, Exec(x, ring, s, a))
  {
    match a
    case Arrive(_, _) => hide CacheSound, Grants, AnswersOk;
    case Look(_) => LookKeepsInv(x, known, ring, s, a);
    case Read(_, _) => LookKeepsInv(x, known, ring, s, a);
    case Judge(_) => JudgeKeepsInv(x, known, ring, s, a);
    case MarkStep(_) => FinishKeepsInv(x, known, ring, s, a);
    case GiveUp(_) => FinishKeepsInv(x, known, ring, s, a);
    case Revoke(_, _) =>
      hide CacheSound, Grants, AnswersOk;
      RevokeKeepsSound(x, known, ring, s.revs, Exec(x, ring, s, a).revs, s.epoch, s.cache);
  }

  predicate Schedule(x: Primitives, ring: Keyring, revs: Revocations, run: seq<Step>)
    decreases |run|, 0
  {
    run == [] ||
    (Schedule(x, ring, revs, run[..|run| - 1]) && Enabled(After(x, ring, revs, run[..|run| - 1]), run[|run| - 1]))
  }

  /** The server after a run, started with revocations `revs` and no cache. */
  function After(x: Primitives, ring: Keyring, revs: Revocations, run: seq<Step>): Server
    requires Schedule(x, ring, revs, run)
    decreases |run|, 1
  {
    if run == [] then Server(Cache(map[], map[]), revs, 0, map[], [])
    else Exec(x, ring, After(x, ring, revs, run[..|run| - 1]), run[|run| - 1])
  }

  /** Every capability presented in the run is known. */
  predicate Presents(run: seq<Step>, known: set<Signed>) {
    forall i | 0 <= i < |run| :: run[i].Arrive? ==> Shown(known, run[i].q.caps)
  }

  /** In every interleaving of requests, tick loads, cache reads, cache writes
      and revocations, every answer is the one uncached verification gives under
      the revocations in force when it was given, unless two of the presented
      capabilities share a digest. */
  lemma {:induction false} CachedAnswersExact(x: Primitives, known: set<Signed>, ring: Keyring, revs: Revocations, run: seq<Step>)
    requires Presents(run, known) && Injective(x, known) && Schedule(x, ring, revs, run)
    ensures Inv(x, known, ring, After(x, ring, revs, run))
    ensures AnswersOk(x, ring, After(x, ring, revs, run).answers)
    decreases |run|
  {
    if run != [] {
      hide Enabled, Exec, Inv, Injective, Shown;
      CachedAnswersExact(x, known, ring, revs, run[..|run| - 1]);
      ExecKeepsInv(x, known, ring, After(x, ring, revs, run[..|run| - 1]), run[|run| - 1]);
      InvAnswers(x, known, ring, After(x, ring, revs, run));
    }
  }

  lemma InvAnswers(x: Primitives, known: set<Signed>, ring: Keyring, s: Server)
    requires Inv(x, known, ring, s)
    ensures AnswersOk(x, ring, s.answers)
  {
  }
}
