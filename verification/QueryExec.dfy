/** Query execution and the read/write classifier (`query/mod.rs`), and the
    lock choice of the server's query route (`server/mod.rs`, `run_ql`). */
module QueryExec {
  import opened ByteStrings
  import opened Records
  import opened StoreSpec
  import opened Replay
  import opened SecondaryIndex
  import opened QueryParser
  import S = Store

  datatype Val = Null | Bool(b: bool) | Num(n: nat) | Text(s: Bytes) | List(xs: seq<Val>)

  datatype Fault = UnknownFn | TypeFault | NoScope | StoreFault

  datatype Out<+T> = Fine(v: T) | Fail(f: Fault)

  type Db = S.Db

  /** What the interpreter takes from outside: the clock, text and JSON
      conversions, and the sorted enumerations of the index. */
  datatype Env = Env(
    clock: nat -> U64,
    host: Id32,
    number: Bytes -> Option<U64>,
    hex: Bytes -> Bytes,
    fieldsJson: seq<Field> -> Bytes,
    parseFields: Bytes -> seq<Field>,
    extract: Extract,
    scan: (Tables, Name, Bytes) -> seq<(Key, Entry)>,
    liveKeys: (Tables, Name) -> seq<Key>)

  datatype Handle = ReadHandle | WriteHandle

  /** `asked` records that the mutable store was requested; `ticks` counts
      clock readings. */
  datatype Ctx = Ctx(db: Db, scope: Option<Name>, ticks: nat, asked: bool)

  /** The functions a query may name. */
  datatype Fn =
    | Now | HlcNow | Before | ClockSkew | Use | CreateNs | Get | Put | Del | Scan | GetAll
    | IndexCreate | IndexFields | IndexDrop | ByIndex | Unknown

  function Chars(s: Bytes): string {
    if s == [] then "" else [s[0] as char] + Chars(s[1..])
  }

  function FnNamed(s: string): Fn {
    if s == "now" then Now else if s == "hlc" then HlcNow else if s == "before" then Before
    else if s == "clock_skew" then ClockSkew else if s == "use" then Use else if s == "create_ns" then CreateNs
    else if s == "get" then Get else if s == "put" then Put else if s == "del" then Del
    else if s == "scan" then Scan else if s == "get_all" then GetAll
    else if s == "index_create" then IndexCreate else if s == "index_fields" then IndexFields
    else if s == "index_drop" then IndexDrop else if s == "by_index" then ByIndex
    else Unknown
  }

  function FnOf(call: Call): Fn {
    FnNamed(Chars(call.name))
  }

  /** Least and most arguments accepted; `None` where there is no upper limit. */
  function Arity(f: Fn): (nat, Option<nat>) {
    match f
    case Now | HlcNow => (0, Some(0))
    case Before | Put => (2, Some(2))
    case ByIndex => (2, Some(3))
    case IndexCreate => (1, None)
    case IndexFields | IndexDrop | Unknown => (0, None)
    case _ => (1, Some(1))
  }

  predicate ArityOk(f: Fn, n: nat) {
    var (least, most) := Arity(f);
    least <= n && (most.Some? ==> n <= most.value)
  }

  // ---------- store operations a query can reach ----------

  function FieldsOf(e: Env, db: Db, ns: Name): seq<Field> {
    S.FieldList(e.parseFields, db.defs, ns)
  }

  function WriteOp(e: Env, db: Db, ns: Name, op: Record): S.Effect {
    S.WriteOp(e.extract, e.parseFields, db, ns, op)
  }

  function SetIndex(e: Env, db: Db, ns: Name, def: Option<Bytes>, hlc: U64): S.Effect {
    var r := Record(TAG_INDEX, [], hlc, e.host, e.host, if def.Some? then def.value else [], 0, []);
    S.DefineIndex(e.extract, e.parseFields, db, ns, def, r, e.liveKeys(db.t, ns))
  }

  function ValueText(en: Entry): Val {
    match Latest(en)
    case None => Text([])
    case Some(v) => Text(v.value)
  }

  function VersionVals(e: Env, vs: seq<Version>): seq<Val> {
    if vs == [] then []
    else [Text(e.hex(vs[0].replica)), Num(vs[0].hlc), Text(vs[0].value)] + VersionVals(e, vs[1..])
  }

  function RowVals(rows: seq<(Key, Entry)>): seq<Val> {
    if rows == [] then [] else [Text(rows[0].0), ValueText(rows[0].1)] + RowVals(rows[1..])
  }

  function Texts(xs: seq<Bytes>): seq<Val> {
    if xs == [] then [] else [Text(xs[0])] + Texts(xs[1..])
  }

  // ---------- evaluation ----------

  /** Ask for the mutable store; under a read handle that is an error. */
  function Mutate(h: Handle, ctx: Ctx, x: S.Effect): (Out<Val>, Ctx) {
    var c := ctx.(asked := true);
    if h.ReadHandle? then (Fail(TypeFault), c)
    else (if x.ok then Fine(Bool(true)) else Fail(StoreFault), c.(db := x.db))
  }

  function Tick(ctx: Ctx): Ctx {
    ctx.(ticks := ctx.ticks + 1)
  }

  /** How many of its arguments a function of the scoped namespace evaluates. */
  function Used(f: Fn, n: nat): (k: nat)
    ensures k <= n
  {
    if f.IndexFields? || f.IndexDrop? then 0 else if f.ByIndex? && n >= 2 then 2 else n
  }

  /** The fewest it can work with. */
  function Needs(f: Fn): nat {
    match f
    case Put | ByIndex => 2
    case IndexFields | IndexDrop => 0
    case _ => 1
  }

  /** Reads and writes of the scoped namespace, their arguments evaluated. */
  function Scoped(e: Env, h: Handle, f: Fn, ns: Name, xs: seq<Bytes>, ctx: Ctx): (Out<Val>, Ctx) {
    if |xs| < Needs(f) then (Fail(TypeFault), ctx)
    else
      match f
      case Put =>
        var op := Record(TAG_PUT, xs[0], e.clock(ctx.ticks), e.host, e.host, xs[1], 0, []);
        Mutate(h, Tick(ctx), WriteOp(e, ctx.db, ns, op))
      case Del =>
        var op := Record(TAG_DEL, xs[0], e.clock(ctx.ticks), e.host, e.host, [], 0, []);
        Mutate(h, Tick(ctx), WriteOp(e, ctx.db, ns, op))
      case IndexCreate => Mutate(h, Tick(ctx), SetIndex(e, ctx.db, ns, Some(e.fieldsJson(xs)), e.clock(ctx.ticks)))
      case IndexDrop => Mutate(h, Tick(ctx), SetIndex(e, ctx.db, ns, None, e.clock(ctx.ticks)))
      case Get =>
        (Fine(match StoreSpec.Get(ctx.db.t, (ns, xs[0])) case None => Null case Some(en) => ValueText(en)), ctx)
      case Scan => (Fine(List(RowVals(e.scan(ctx.db.t, ns, xs[0])))), ctx)
      case GetAll =>
        (Fine(match StoreSpec.Get(ctx.db.t, (ns, xs[0]))
              case None => Null
              case Some(Lww(v)) => List(VersionVals(e, [v]))
              case Some(Register(vs)) => List(VersionVals(e, vs))), ctx)
      case IndexFields => (Fine(List(Texts(FieldsOf(e, ctx.db, ns)))), ctx)
      case ByIndex => (Fine(List(Texts(TakeKeys(From(Rows(ctx.db.sec, ns, xs[0]), xs[1]), xs[1])))), ctx)
      case _ => (Fail(UnknownFn), ctx)
  }

  function StrOf(e: Env, h: Handle, remote: bool, a: Arg, ctx: Ctx): (Out<Bytes>, Ctx)
    decreases a
  {
    match a
    case StrArg(s) => (Fine(s), ctx)
    case CallArg(c) =>
      var (r, ctx') := Exec(e, h, remote, c, ctx);
      (match r case Fail(f) => Fail(f) case Fine(Text(s)) => Fine(s) case Fine(_) => Fail(TypeFault), ctx')
  }

  function NumOf(e: Env, h: Handle, remote: bool, a: Arg, ctx: Ctx): (Out<nat>, Ctx)
    decreases a
  {
    match a
    case StrArg(s) => (match e.number(s) case None => Fail(TypeFault) case Some(n) => Fine(n), ctx)
    case CallArg(c) =>
      var (r, ctx') := Exec(e, h, remote, c, ctx);
      (match r case Fail(f) => Fail(f) case Fine(Num(n)) => Fine(n) case Fine(_) => Fail(TypeFault), ctx')
  }

  /** The first `n` arguments as strings, left to right, up to the first failure. */
  function StrsOf(e: Env, h: Handle, remote: bool, args: seq<Arg>, n: nat, ctx: Ctx): (Out<seq<Bytes>>, Ctx)
    requires n <= |args|
    decreases args, n
  {
    if n == 0 then (Fine([]), ctx)
    else
      var (rs, c1) := StrsOf(e, h, remote, args, n - 1, ctx);
      if rs.Fail? then (rs, c1)
      else
        var (r, c2) := StrOf(e, h, remote, args[n - 1], c1);
        (match r case Fail(f) => Fail(f) case Fine(x) => Fine(rs.v + [x]), c2)
  }

  function Exec(e: Env, h: Handle, remote: bool, call: Call, ctx: Ctx): (Out<Val>, Ctx)
    decreases call
  {
    var f := FnOf(call);
    if f.Unknown? then (Fail(UnknownFn), ctx)
    else if !ArityOk(f, |call.args|) then (Fail(TypeFault), ctx)
    else if f.Now? then (Fine(Num(e.clock(ctx.ticks) / 0x1_0000)), Tick(ctx))
    else if f.HlcNow? then (Fine(Num(e.clock(ctx.ticks))), Tick(ctx))
    else if f.Before? then
      var (a, c1) := NumOf(e, h, remote, call.args[0], ctx);
      if a.Fail? then (Fail(a.f), c1)
      else
        var (b, c2) := NumOf(e, h, remote, call.args[1], c1);
        (if b.Fail? then Fail(b.f) else Fine(Bool(a.v < b.v)), c2)
    else if f.ClockSkew? then
      var (a, c1) := StrOf(e, h, remote, call.args[0], ctx);
      (if a.Fail? then Fail(a.f)
       else if a.v !in c1.db.clocks then Fine(Null)
       else Fine(Num(if c1.db.clocks[a.v] > 0 then c1.db.clocks[a.v] else 0)), c1)
    else if f.Use? || f.CreateNs? then
      if remote then (Fail(TypeFault), ctx)
      else
        var (a, c1) := StrOf(e, h, remote, call.args[0], ctx);
        if a.Fail? then (Fail(a.f), c1)
        else if f.CreateNs? then Mutate(h, c1, S.NewNs(c1.db, a.v, LastWriter))
        else if a.v !in c1.db.policies then (Fail(StoreFault), c1)
        else (Fine(Bool(true)), c1.(scope := Some(a.v)))
    else if ctx.scope.None? then (Fail(NoScope), ctx)
    else
      var (rs, c1) := StrsOf(e, h, remote, call.args, Used(f, |call.args|), ctx);
      if rs.Fail? then (Fail(rs.f), c1) else Scoped(e, h, f, ctx.scope.value, rs.v, c1)
  }

  // ---------- classification ----------

  predicate IsMutator(f: Fn) {
    f.Put? || f.Del? || f.IndexCreate? || f.IndexDrop?
  }

  predicate ContainsMutator(call: Call) {
    IsMutator(FnOf(call)) || exists i | 0 <= i < |call.args| :: ArgMutates(call.args[i])
  }

  predicate ArgMutates(a: Arg) {
    a.CallArg? && ContainsMutator(a.c)
  }

  datatype Kind = ReadOnly | Mutating | ParseError

  function Classify(src: Bytes): Kind {
    var r := ParseStatement(src);
    if r.Bad? then ParseError else if ContainsMutator(r.value) then Mutating else ReadOnly
  }

  // ---------- the read verdict is sound ----------

  /** No node of the call asks for the mutable store: no mutator, and no
      `create_ns` unless it is refused for remote callers. */
  predicate Quiet(remote: bool, call: Call) {
    && !IsMutator(FnOf(call))
    && (remote || !FnOf(call).CreateNs?)
    && forall i | 0 <= i < |call.args| :: QuietArg(remote, call.args[i])
  }

  predicate QuietArg(remote: bool, a: Arg) {
    a.CallArg? ==> Quiet(remote, a.c)
  }

  lemma {:induction false} RemoteQuiet(call: Call)
    ensures Quiet(true, call) <==> !ContainsMutator(call)
    decreases call
  {
    hide FnNamed;
    forall i | 0 <= i < |call.args|
      ensures QuietArg(true, call.args[i]) <==> !ArgMutates(call.args[i])
    {
      RemoteQuietArg(call.args[i]);
    }
  }

  lemma {:induction false} RemoteQuietArg(a: Arg)
    ensures QuietArg(true, a) <==> !ArgMutates(a)
    decreases a
  {
    if a.CallArg? { RemoteQuiet(a.c); }
  }

  /** Only the clock moved and, for a local caller, the scope. */
  predicate Untouched(remote: bool, before: Ctx, after: Ctx) {
    && after.db == before.db
    && after.asked == before.asked
    && (remote ==> after.scope == before.scope)
  }

  lemma {:induction false} QuietCall(e: Env, remote: bool, call: Call, ctx: Ctx)
    requires Quiet(remote, call)
    ensures Exec(e, ReadHandle, remote, call, ctx) == Exec(e, WriteHandle, remote, call, ctx)
    ensures Untouched(remote, ctx, Exec(e, ReadHandle, remote, call, ctx).1)
    decreases call
  {
    hide FnNamed, Chars, Scoped;
    var f := FnOf(call);
    if f.Unknown? || !ArityOk(f, |call.args|) { return; }
    if f.Before? {
      QuietNum(e, remote, call.args[0], ctx);
      QuietNum(e, remote, call.args[1], NumOf(e, ReadHandle, remote, call.args[0], ctx).1);
    } else if f.ClockSkew? || f.Use? {
      QuietStr(e, remote, call.args[0], ctx);
    } else if !f.Now? && !f.HlcNow? && !f.CreateNs? && ctx.scope.Some? {
      var n := Used(f, |call.args|);
      QuietStrs(e, remote, call.args, n, ctx);
      var x := StrsOf(e, ReadHandle, remote, call.args, n, ctx);
      if x.0.Fine? { QuietScoped(e, f, ctx.scope.value, x.0.v, x.1); }
    }
  }

  lemma QuietScoped(e: Env, f: Fn, ns: Name, xs: seq<Bytes>, ctx: Ctx)
    requires !IsMutator(f)
    ensures Scoped(e, ReadHandle, f, ns, xs, ctx) == Scoped(e, WriteHandle, f, ns, xs, ctx)
    ensures Scoped(e, ReadHandle, f, ns, xs, ctx).1 == ctx
  {
  }

  lemma {:induction false} QuietNum(e: Env, remote: bool, a: Arg, ctx: Ctx)
    requires QuietArg(remote, a)
    ensures NumOf(e, ReadHandle, remote, a, ctx) == NumOf(e, WriteHandle, remote, a, ctx)
    ensures Untouched(remote, ctx, NumOf(e, ReadHandle, remote, a, ctx).1)
    decreases a
  {
    hide Exec;
    if a.CallArg? { QuietCall(e, remote, a.c, ctx); }
  }

  lemma {:induction false} QuietStr(e: Env, remote: bool, a: Arg, ctx: Ctx)
    requires QuietArg(remote, a)
    ensures StrOf(e, ReadHandle, remote, a, ctx) == StrOf(e, WriteHandle, remote, a, ctx)
    ensures Untouched(remote, ctx, StrOf(e, ReadHandle, remote, a, ctx).1)
    decreases a
  {
    hide Exec;
    if a.CallArg? { QuietCall(e, remote, a.c, ctx); }
  }

  lemma {:induction false} QuietStrs(e: Env, remote: bool, args: seq<Arg>, n: nat, ctx: Ctx)
    requires n <= |args|
    requires forall i | 0 <= i < |args| :: QuietArg(remote, args[i])
    ensures StrsOf(e, ReadHandle, remote, args, n, ctx) == StrsOf(e, WriteHandle, remote, args, n, ctx)
    ensures Untouched(remote, ctx, StrsOf(e, ReadHandle, remote, args, n, ctx).1)
    decreases args, n
  {
    hide StrOf, QuietArg;
    if n > 0 {
      QuietStrs(e, remote, args, n - 1, ctx);
      QuietStr(e, remote, args[n - 1], StrsOf(e, ReadHandle, remote, args, n - 1, ctx).1);
    }
  }

  // ---------- a read handle never changes the store ----------

  lemma {:induction false} ReadKeeps(e: Env, remote: bool, call: Call, ctx: Ctx)
    ensures Exec(e, ReadHandle, remote, call, ctx).1.db == ctx.db
    decreases call
  {
    hide FnNamed, Chars, Scoped, S.NewNs;
    var f := FnOf(call);
    if f.Unknown? || !ArityOk(f, |call.args|) { return; }
    if f.Before? {
      ReadKeepsArg(e, remote, call.args[0], ctx);
      ReadKeepsArg(e, remote, call.args[1], NumOf(e, ReadHandle, remote, call.args[0], ctx).1);
    } else if f.ClockSkew? || f.Use? || f.CreateNs? {
      ReadKeepsArg(e, remote, call.args[0], ctx);
    } else if !f.Now? && !f.HlcNow? && ctx.scope.Some? {
      var n := Used(f, |call.args|);
      ReadKeepsArgs(e, remote, call.args, n, ctx);
      var x := StrsOf(e, ReadHandle, remote, call.args, n, ctx);
      if x.0.Fine? { ReadKeepsScoped(e, f, ctx.scope.value, x.0.v, x.1); }
    }
  }

  lemma ReadKeepsScoped(e: Env, f: Fn, ns: Name, xs: seq<Bytes>, ctx: Ctx)
    ensures Scoped(e, ReadHandle, f, ns, xs, ctx).1.db == ctx.db
  {
  }

  lemma {:induction false} ReadKeepsArg(e: Env, remote: bool, a: Arg, ctx: Ctx)
    ensures StrOf(e, ReadHandle, remote, a, ctx).1.db == ctx.db
    ensures NumOf(e, ReadHandle, remote, a, ctx).1.db == ctx.db
    decreases a
  {
    hide Exec;
    if a.CallArg? { ReadKeeps(e, remote, a.c, ctx); }
  }

  lemma {:induction false} ReadKeepsArgs(e: Env, remote: bool, args: seq<Arg>, n: nat, ctx: Ctx)
    requires n <= |args|
    ensures StrsOf(e, ReadHandle, remote, args, n, ctx).1.db == ctx.db
    decreases args, n
  {
    hide StrOf;
    if n > 0 {
      ReadKeepsArgs(e, remote, args, n - 1, ctx);
      ReadKeepsArg(e, remote, args[n - 1], StrsOf(e, ReadHandle, remote, args, n - 1, ctx).1);
    }
  }

  // ---------- the query route ----------

  /** Parse and execute one statement; `None` where it does not parse. */
  function Eval(e: Env, h: Handle, remote: bool, src: Bytes, ctx: Ctx): (Option<Out<Val>>, Ctx) {
    var r := ParseStatement(src);
    if r.Bad? then (None, ctx)
    else
      var (v, c) := Exec(e, h, remote, r.value, ctx);
      (Some(v), c)
  }

  /** Classify first; take the write lock only for a mutating statement. */
  function RunQl(e: Env, ns: Name, src: Bytes, db: Db, ticks: nat): (Option<Out<Val>>, Ctx) {
    var ctx := Ctx(db, Some(ns), ticks, false);
    match Classify(src)
    case ParseError => (None, ctx)
    case Mutating => Eval(e, WriteHandle, true, src, ctx)
    case ReadOnly => Eval(e, ReadHandle, true, src, ctx)
  }

  /** Choosing the lock by classification is unobservable: the route answers
      exactly as if every statement ran under the write lock.  A statement
      classified read-only leaves the store alone and never asks for it, and
      no remote statement leaves the namespace it was authorised for. */
  lemma LockChoiceUnobservable(e: Env, ns: Name, src: Bytes, db: Db, ticks: nat)
    ensures RunQl(e, ns, src, db, ticks) == Eval(e, WriteHandle, true, src, Ctx(db, Some(ns), ticks, false))
    ensures Classify(src).ReadOnly? ==>
      RunQl(e, ns, src, db, ticks).1.db == db && !RunQl(e, ns, src, db, ticks).1.asked
    ensures RunQl(e, ns, src, db, ticks).1.scope == Some(ns)
  {
    hide Exec, ParseStatement, ContainsMutator, Quiet;
    var ctx := Ctx(db, Some(ns), ticks, false);
    var r := ParseStatement(src);
    if r.Got? {
      RemoteQuiet(r.value);
      RemoteKeepsScope(e, WriteHandle, r.value, ctx);
      if !ContainsMutator(r.value) { QuietCall(e, true, r.value, ctx); }
    }
  }

  /** A mutation that reaches a read handle fails closed: whatever the
      statement and the caller, the store is unchanged. */
  lemma FailsClosed(e: Env, remote: bool, src: Bytes, ctx: Ctx)
    ensures Eval(e, ReadHandle, remote, src, ctx).1.db == ctx.db
  {
    hide Exec, ParseStatement;
    var r := ParseStatement(src);
    if r.Got? { ReadKeeps(e, remote, r.value, ctx); }
  }

  lemma {:induction false} RemoteKeepsScope(e: Env, h: Handle, call: Call, ctx: Ctx)
    ensures Exec(e, h, true, call, ctx).1.scope == ctx.scope
    decreases call
  {
    hide FnNamed, Chars, Scoped;
    var f := FnOf(call);
    if f.Unknown? || !ArityOk(f, |call.args|) { return; }
    if f.Before? {
      RemoteKeepsArg(e, h, call.args[0], ctx);
      RemoteKeepsArg(e, h, call.args[1], NumOf(e, h, true, call.args[0], ctx).1);
    } else if f.ClockSkew? {
      RemoteKeepsArg(e, h, call.args[0], ctx);
    } else if !f.Now? && !f.HlcNow? && !f.Use? && !f.CreateNs? && ctx.scope.Some? {
      var n := Used(f, |call.args|);
      RemoteKeepsArgs(e, h, call.args, n, ctx);
      var x := StrsOf(e, h, true, call.args, n, ctx);
      if x.0.Fine? { ScopedKeepsScope(e, h, f, ctx.scope.value, x.0.v, x.1); }
    }
  }

  lemma ScopedKeepsScope(e: Env, h: Handle, f: Fn, ns: Name, xs: seq<Bytes>, ctx: Ctx)
    ensures Scoped(e, h, f, ns, xs, ctx).1.scope == ctx.scope
  {
  }

  lemma {:induction false} RemoteKeepsArg(e: Env, h: Handle, a: Arg, ctx: Ctx)
    ensures StrOf(e, h, true, a, ctx).1.scope == ctx.scope
    ensures NumOf(e, h, true, a, ctx).1.scope == ctx.scope
    decreases a
  {
    hide Exec;
    if a.CallArg? { RemoteKeepsScope(e, h, a.c, ctx); }
  }

  lemma {:induction false} RemoteKeepsArgs(e: Env, h: Handle, args: seq<Arg>, n: nat, ctx: Ctx)
    requires n <= |args|
    ensures StrsOf(e, h, true, args, n, ctx).1.scope == ctx.scope
    decreases args, n
  {
    hide StrOf;
    if n > 0 {
      RemoteKeepsArgs(e, h, args, n - 1, ctx);
      RemoteKeepsArg(e, h, args[n - 1], StrsOf(e, h, true, args, n - 1, ctx).1);
    }
  }

  /** The read-only verdict is a promise about remote callers only: for a local
      one, `create_ns` of a new namespace is classified read-only and adds it. */
  lemma LocalCreateNs(e: Env, call: Call, ns: Name, ctx: Ctx)
    requires FnOf(call).CreateNs? && call.args == [StrArg(ns)]
    requires S.ValidNs(ns) && ns !in ctx.db.policies
    ensures !ContainsMutator(call)
    ensures ns in Exec(e, WriteHandle, false, call, ctx).1.db.policies
  {
    hide FnNamed, Chars;
    assert !ArgMutates(call.args[0]);
  }

  /** The stored version of a register, if any, that outranks a write stamped
      `(hlc, replica)`. */
  function Outranking(p: Policy, t: Tables, k: EntryKey, hlc: U64, replica: Id32): Option<Version> {
    if p.LastWriter? || k !in t.index || !t.index[k].Register? || t.index[k].vs == [] then None
    else
      var best := Newest(t.index[k].vs);
      if StampLess(hlc, replica, best.hlc, best.replica) then Some(best) else None
  }

  /** After `put`, `get` answers the value written; in a register it answers
      instead the stored version that outranks the write, if there is one. */
  lemma PutThenGet(e: Env, remote: bool, put: Call, get: Call, key: Bytes, value: Bytes, ns: Name, ctx: Ctx)
    requires FnOf(put).Put? && put.args == [StrArg(key), StrArg(value)]
    requires FnOf(get).Get? && get.args == [StrArg(key)]
    requires ctx.scope == Some(ns) && ns in ctx.db.logs && ns in ctx.db.policies
    requires Shaped(ctx.db.policies[ns], ns, ctx.db.t)
    ensures
      var (a, c) := Exec(e, WriteHandle, remote, put, ctx);
      var best := Outranking(ctx.db.policies[ns], ctx.db.t, (ns, key), e.clock(ctx.ticks), e.host);
      && a == Fine(Bool(true))
      && Exec(e, WriteHandle, remote, get, c) == (Fine(Text(if best.Some? then best.value.value else value)), c)
  {
    hide FnOf, Exec, Refresh, Newest;
    LiteralCall(e, WriteHandle, remote, put, [key, value], ctx);
    var (a, c) := Exec(e, WriteHandle, remote, put, ctx);
    LiteralCall(e, WriteHandle, remote, get, [key], c);
    var k := (ns, key);
    var op := Record(TAG_PUT, key, e.clock(ctx.ticks), e.host, e.host, value, 0, []);
    var v := VersionOf(op, |ctx.db.logs[ns]| + 1);
    if ctx.db.policies[ns].CrdtRegister? {
      NewestSnoc(if k in ctx.db.t.index then ctx.db.t.index[k].vs else [], v);
    }
  }

  lemma NewestSnoc(vs: seq<Version>, v: Version)
    ensures Newest(vs + [v]) == if vs != [] && Older(v, Newest(vs)) then Newest(vs) else v
  {
    assert (vs + [v])[..|vs|] == vs;
  }

  /** A key deleted by `del` reads as null, under either policy. */
  lemma DelThenGet(e: Env, remote: bool, del: Call, get: Call, key: Bytes, ns: Name, ctx: Ctx)
    requires FnOf(del).Del? && FnOf(get).Get? && del.args == [StrArg(key)] && get.args == [StrArg(key)]
    requires ctx.scope == Some(ns) && ns in ctx.db.logs && ns in ctx.db.policies
    ensures
      var (a, c) := Exec(e, WriteHandle, remote, del, ctx);
      a == Fine(Bool(true)) && Exec(e, WriteHandle, remote, get, c) == (Fine(Null), c)
  {
    hide FnOf, Exec, RemoveKey;
    LiteralCall(e, WriteHandle, remote, del, [key], ctx);
    var (a, c) := Exec(e, WriteHandle, remote, del, ctx);
    LiteralCall(e, WriteHandle, remote, get, [key], c);
  }

  lemma {:induction false} Literals(e: Env, h: Handle, remote: bool, args: seq<Arg>, xs: seq<Bytes>, ctx: Ctx)
    requires |args| == |xs| && forall i | 0 <= i < |args| :: args[i] == StrArg(xs[i])
    ensures StrsOf(e, h, remote, args, |args|, ctx) == (Fine(xs), ctx)
  {
    hide Exec;
    var n := 0;
    while n < |args|
      invariant n <= |args|
      invariant StrsOf(e, h, remote, args, n, ctx) == (Fine(xs[..n]), ctx)
    {
      assert xs[..n + 1] == xs[..n] + [xs[n]];
      n := n + 1;
    }
    assert xs[..n] == xs;
  }

  lemma LiteralCall(e: Env, h: Handle, remote: bool, call: Call, xs: seq<Bytes>, ctx: Ctx)
    requires FnOf(call).Put? || FnOf(call).Del? || FnOf(call).Get? || FnOf(call).IndexCreate? || FnOf(call).ByIndex?
    requires Used(FnOf(call), |call.args|) == |call.args|
    requires ArityOk(FnOf(call), |call.args|) && ctx.scope.Some?
    requires |call.args| == |xs| && forall i | 0 <= i < |xs| :: call.args[i] == StrArg(xs[i])
    ensures Exec(e, h, remote, call, ctx) == Scoped(e, h, FnOf(call), ctx.scope.value, xs, ctx)
  {
    hide FnNamed, Chars, Scoped;
    Literals(e, h, remote, call.args, xs, ctx);
  }

  /** The outside functions behave: index fields survive their JSON form, and the
      live keys of a namespace are enumerated. */
  ghost predicate Honest(e: Env, t: Tables, ns: Name, fields: seq<Field>) {
    e.parseFields(e.fieldsJson(fields)) == fields && LiveKeys(t, ns, e.liveKeys(t, ns))
  }

  /** After `index_create` on a namespace without index rows, `by_index` answers
      with exactly the keys whose visible value has that field value, each once,
      in key order. */
  lemma IndexThenQuery(e: Env, remote: bool, create: Call, query: Call, fields: seq<Field>, f: Field, want: Bytes, ns: Name, ctx: Ctx)
    requires FnOf(create).IndexCreate? && |create.args| == |fields| > 0
    requires forall i | 0 <= i < |fields| :: create.args[i] == StrArg(fields[i])
    requires FnOf(query).ByIndex? && query.args == [StrArg(f), StrArg(want)] && f in fields
    requires ctx.scope == Some(ns) && ns in ctx.db.logs && ns in ctx.db.policies
    requires Honest(e, ctx.db.t, ns, fields) && forall g | g in fields :: Rows(ctx.db.sec, ns, g) == []
    ensures
      var (a, c) := Exec(e, WriteHandle, remote, create, ctx);
      var ks := TakeKeys(From(Rows(c.db.sec, ns, f), want), want);
      && a == Fine(Bool(true)) && c.db.t == ctx.db.t
      && Exec(e, WriteHandle, remote, query, c) == (Fine(List(Texts(ks))), c)
      && KeysAscend(ks)
      && forall k :: k in ks <==> Shown(ctx.db.t, ns, k).Some? && want in e.extract(Shown(ctx.db.t, ns, k).value, f)
  {
    hide FnOf, Exec, Rebuild, From, TakeKeys, Texts, KeysAscend, Shown, Rows;
    IndexCreated(e, remote, create, fields, ns, ctx);
    var (a, c) := Exec(e, WriteHandle, remote, create, ctx);
    LiteralCall(e, WriteHandle, remote, query, [f, want], c);
    RebuildExact(e.extract, ctx.db.sec, ns, fields, e.liveKeys(ctx.db.t, ns), ctx.db.t);
    ByIndexExact(e.extract, c.db.sec, ctx.db.t, ns, f, want);
  }

  lemma IndexCreated(e: Env, remote: bool, create: Call, fields: seq<Field>, ns: Name, ctx: Ctx)
    requires FnOf(create).IndexCreate? && |create.args| == |fields| > 0
    requires forall i | 0 <= i < |fields| :: create.args[i] == StrArg(fields[i])
    requires ctx.scope == Some(ns) && ns in ctx.db.logs && ns in ctx.db.policies
    requires e.parseFields(e.fieldsJson(fields)) == fields
    ensures
      var (a, c) := Exec(e, WriteHandle, remote, create, ctx);
      && a == Fine(Bool(true)) && c.db.t == ctx.db.t && c.scope == ctx.scope
      && c.db.sec == Rebuild(e.extract, ctx.db.sec, ns, fields, e.liveKeys(ctx.db.t, ns), ctx.db.t)
  {
    hide FnOf, Exec, Rebuild;
    LiteralCall(e, WriteHandle, remote, create, fields, ctx);
  }
}
