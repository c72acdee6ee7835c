/** Little-endian readers and writers (`storage/mod.rs`, structs `W` and `R`),
    paired so that the laws of a layout follow from the laws of its parts. */
module Codecs {
  import opened ByteStrings

  datatype Res<+T> = Got(v: T, pos: nat) | Bad

  datatype Codec<!T> = Codec(write: T -> Bytes, read: (Bytes, nat) -> Res<T>)

  /** What is written is read back, wherever it stands. */
  ghost predicate RoundTrips<T(!new)>(c: Codec<T>, x: T) {
    forall buf: Bytes, p: nat | At(buf, p, c.write(x)) :: c.read(buf, p) == Got(x, p + |c.write(x)|)
  }

  /** A successful read does not depend on the bytes after it. */
  ghost predicate Stable<T(!new)>(c: Codec<T>) {
    forall buf: Bytes, k: nat, p: nat | k <= |buf| && c.read(buf[..k], p).Got? :: c.read(buf, p) == c.read(buf[..k], p)
  }

  // ---------- scalars ----------

  /** `n` bytes at the cursor. */
  function Take(buf: Bytes, p: nat, n: nat): Res<Bytes> {
    if p + n > |buf| then Bad else Got(buf[p..p + n], p + n)
  }

  function U8C(): Codec<Byte> {
    Codec<Byte>.Codec((x: Byte) => [x], (buf: Bytes, p: nat) => if p >= |buf| then Bad else Got(buf[p], p + 1))
  }

  /** Lengths are cast to 32 bits on the way out. */
  function U32C(): Codec<nat> {
    Codec<nat>.Codec(
      (x: nat) => Le(x % U32_LIMIT, 4),
      (buf: Bytes, p: nat) => if p + 4 > |buf| then Bad else Got(ReadU32(buf[p..p + 4]), p + 4))
  }

  function U64C(): Codec<U64> {
    Codec<U64>.Codec(
      (x: U64) => Le(x, 8),
      (buf: Bytes, p: nat) => if p + 8 > |buf| then Bad else Got(ReadU64(buf[p..p + 8]), p + 8))
  }

  /** Two's complement. */
  function I64C(): Codec<int> {
    Codec<int>.Codec(
      (x: int) => Le(x % U64_LIMIT, 8),
      (buf: Bytes, p: nat) =>
        if p + 8 > |buf| then Bad
        else var u := ReadU64(buf[p..p + 8]); Got(if u < U64_LIMIT / 2 then u else u - U64_LIMIT, p + 8))
  }

  function IdC(): Codec<Id32> {
    Codec<Id32>.Codec((x: Id32) => x, (buf: Bytes, p: nat) => if p + 32 > |buf| then Bad else Got(buf[p..p + 32], p + 32))
  }

  /** A 32-bit length, then that many bytes. */
  function BytesC(): Codec<Bytes> {
    Codec<Bytes>.Codec(
      (x: Bytes) => Le(|x| % U32_LIMIT, 4) + x,
      (buf: Bytes, p: nat) => match U32C().read(buf, p) case Bad => Bad case Got(n, q) => Take(buf, q, n))
  }

  lemma SliceOfTake(buf: Bytes, k: nat, p: nat, n: nat)
    requires k <= |buf| && p + n <= k
    ensures buf[..k][p..p + n] == buf[p..p + n]
  {
  }

  lemma U8Law(x: Byte)
    ensures Lawful(U8C(), x)
  {
    forall buf: Bytes, p: nat | At(buf, p, U8C().write(x)) ensures U8C().read(buf, p) == Got(x, p + 1) {
      AtByte(buf, p, x);
    }
  }

  lemma U32Law(x: nat)
    requires x < U32_LIMIT
    ensures Lawful(U32C(), x)
  {
    hide Le, UnLe;
    U32RoundTrip(x);
    forall buf: Bytes, k: nat, p: nat | k <= |buf| && U32C().read(buf[..k], p).Got?
      ensures U32C().read(buf, p) == U32C().read(buf[..k], p)
    {
      SliceOfTake(buf, k, p, 4);
    }
  }

  lemma U64Law(x: U64)
    ensures Lawful(U64C(), x)
  {
    hide Le, UnLe;
    U64RoundTrip(x);
    forall buf: Bytes, k: nat, p: nat | k <= |buf| && U64C().read(buf[..k], p).Got?
      ensures U64C().read(buf, p) == U64C().read(buf[..k], p)
    {
      SliceOfTake(buf, k, p, 8);
    }
  }

  lemma I64Law(x: int)
    requires -(U64_LIMIT / 2) <= x < U64_LIMIT / 2
    ensures Lawful(I64C(), x)
  {
    hide Le, UnLe;
    assert x % U64_LIMIT == if x >= 0 then x else x + U64_LIMIT;
    U64RoundTrip(x % U64_LIMIT);
    forall buf: Bytes, k: nat, p: nat | k <= |buf| && I64C().read(buf[..k], p).Got?
      ensures I64C().read(buf, p) == I64C().read(buf[..k], p)
    {
      SliceOfTake(buf, k, p, 8);
    }
  }

  lemma IdLaw(x: Id32)
    ensures Lawful(IdC(), x)
  {
    forall buf: Bytes, k: nat, p: nat | k <= |buf| && IdC().read(buf[..k], p).Got?
      ensures IdC().read(buf, p) == IdC().read(buf[..k], p)
    {
      SliceOfTake(buf, k, p, 32);
    }
  }

  lemma BytesReads(x: Bytes)
    requires |x| < U32_LIMIT
    ensures RoundTrips(BytesC(), x)
  {
    hide Le, UnLe, Stable;
    U32Law(|x|);
    forall buf: Bytes, p: nat | At(buf, p, BytesC().write(x)) ensures BytesC().read(buf, p) == Got(x, p + 4 + |x|) {
      AtSplit(buf, p, Le(|x| % U32_LIMIT, 4), x);
      assert At(buf, p, U32C().write(|x|));
    }
  }

  lemma BytesStable()
    ensures Stable(BytesC())
  {
    hide Le, UnLe, RoundTrips;
    U32Law(0);
    forall buf: Bytes, k: nat, p: nat | k <= |buf| && BytesC().read(buf[..k], p).Got?
      ensures BytesC().read(buf, p) == BytesC().read(buf[..k], p)
    {
      var n := U32C().read(buf[..k], p);
      assert U32C().read(buf, p) == n;
      SliceOfTake(buf, k, p + 4, n.v);
    }
  }

  lemma BytesLaw(x: Bytes)
    requires |x| < U32_LIMIT
    ensures Lawful(BytesC(), x)
  {
    hide BytesC, RoundTrips, Stable;
    BytesReads(x);
    BytesStable();
  }

  // ---------- composition ----------

  function PairC<A, B>(a: Codec<A>, b: Codec<B>): Codec<(A, B)> {
    Codec(
      (x: (A, B)) => a.write(x.0) + b.write(x.1),
      (buf, p) =>
        match a.read(buf, p)
        case Bad => Bad
        case Got(x, q) => (match b.read(buf, q) case Bad => Bad case Got(y, r) => Got((x, y), r)))
  }

  /** Both laws of a codec, at one value. */
  ghost predicate Lawful<T(!new)>(c: Codec<T>, x: T) {
    RoundTrips(c, x) && Stable(c)
  }

  lemma PairReads<A(!new), B(!new)>(a: Codec<A>, b: Codec<B>, x: A, y: B)
    requires RoundTrips(a, x) && RoundTrips(b, y)
    ensures RoundTrips(PairC(a, b), (x, y))
  {
    var c := PairC(a, b);
    forall buf: Bytes, p: nat | At(buf, p, c.write((x, y)))
      ensures c.read(buf, p) == Got((x, y), p + |c.write((x, y))|)
    {
      AtSplit(buf, p, a.write(x), b.write(y));
    }
  }

  lemma PairStable<A(!new), B(!new)>(a: Codec<A>, b: Codec<B>)
    requires Stable(a) && Stable(b)
    ensures Stable(PairC(a, b))
  {
    var c := PairC(a, b);
    forall buf: Bytes, k: nat, p: nat | k <= |buf| && c.read(buf[..k], p).Got?
      ensures c.read(buf, p) == c.read(buf[..k], p)
    {
      var x := a.read(buf[..k], p);
      assert a.read(buf, p) == x;
      assert b.read(buf[..k], x.pos).Got?;
    }
  }

  lemma PairLaw<A(!new), B(!new)>(a: Codec<A>, b: Codec<B>, x: A, y: B)
    requires Lawful(a, x) && Lawful(b, y)
    ensures Lawful(PairC(a, b), (x, y))
  {
    hide RoundTrips, Stable, PairC;
    PairReads(a, b, x, y);
    PairStable(a, b);
  }

  lemma PairWrite<A, B>(a: Codec<A>, b: Codec<B>, x: A, y: B)
    ensures PairC(a, b).write((x, y)) == a.write(x) + b.write(y)
  {
  }

  lemma PairRead<A, B>(a: Codec<A>, b: Codec<B>, buf: Bytes, p: nat)
    ensures var x := a.read(buf, p);
      PairC(a, b).read(buf, p) ==
        if x.Bad? then Bad
        else var y := b.read(buf, x.pos); if y.Bad? then Bad else Got((x.v, y.v), y.pos)
  {
  }

  /** The same bytes under another shape. */
  function IsoC<A, B>(c: Codec<A>, to: A -> B, from: B -> A): Codec<B> {
    Codec(
      (y: B) => c.write(from(y)),
      (buf, p) => match c.read(buf, p) case Bad => Bad case Got(x, q) => Got(to(x), q))
  }

  lemma IsoWrite<A, B>(c: Codec<A>, to: A -> B, from: B -> A, y: B)
    ensures IsoC(c, to, from).write(y) == c.write(from(y))
  {
  }

  lemma IsoLaw<A(!new), B(!new)>(c: Codec<A>, to: A -> B, from: B -> A, y: B)
    requires Lawful(c, from(y)) && to(from(y)) == y
    ensures Lawful(IsoC(c, to, from), y)
  {
    var d := IsoC(c, to, from);
    forall buf: Bytes, k: nat, p: nat | k <= |buf| && d.read(buf[..k], p).Got?
      ensures d.read(buf, p) == d.read(buf[..k], p)
    {
      assert c.read(buf[..k], p).Got?;
    }
  }

  // ---------- counted lists ----------

  function WriteMany<T>(c: Codec<T>, xs: seq<T>): Bytes {
    if xs == [] then [] else c.write(xs[0]) + WriteMany(c, xs[1..])
  }

  function ReadMany<T>(c: Codec<T>, buf: Bytes, p: nat, n: nat): Res<seq<T>>
    decreases n
  {
    if n == 0 then Got([], p)
    else
      match c.read(buf, p)
      case Bad => Bad
      case Got(x, q) => (match ReadMany(c, buf, q, n - 1) case Bad => Bad case Got(xs, r) => Got([x] + xs, r))
  }

  function ListC<T>(c: Codec<T>): Codec<seq<T>> {
    Codec(
      (xs: seq<T>) => U32C().write(|xs|) + WriteMany(c, xs),
      (buf, p) => match U32C().read(buf, p) case Bad => Bad case Got(n, q) => ReadMany(c, buf, q, n))
  }

  lemma {:induction false} ManyLaw<T(!new)>(c: Codec<T>, xs: seq<T>, buf: Bytes, p: nat)
    requires forall i | 0 <= i < |xs| :: RoundTrips(c, xs[i])
    requires At(buf, p, WriteMany(c, xs))
    ensures ReadMany(c, buf, p, |xs|) == Got(xs, p + |WriteMany(c, xs)|)
    decreases |xs|
  {
    hide At;
    if xs != [] {
      assert RoundTrips(c, xs[0]);
      AtSplit(buf, p, c.write(xs[0]), WriteMany(c, xs[1..]));
      ManyLaw(c, xs[1..], buf, p + |c.write(xs[0])|);
      assert [xs[0]] + xs[1..] == xs;
    }
  }

  lemma {:induction false} ManyStable<T(!new)>(c: Codec<T>, buf: Bytes, k: nat, p: nat, n: nat)
    requires Stable(c) && k <= |buf| && ReadMany(c, buf[..k], p, n).Got?
    ensures ReadMany(c, buf, p, n) == ReadMany(c, buf[..k], p, n)
    decreases n
  {
    if n > 0 {
      var x := c.read(buf[..k], p);
      assert c.read(buf, p) == x;
      ManyStable(c, buf, k, x.pos, n - 1);
    }
  }

  lemma ListReads<T(!new)>(c: Codec<T>, xs: seq<T>)
    requires |xs| < U32_LIMIT && forall i | 0 <= i < |xs| :: RoundTrips(c, xs[i])
    ensures RoundTrips(ListC(c), xs)
  {
    hide Le, UnLe, WriteMany, ReadMany;
    U32Law(|xs|);
    var d := ListC(c);
    forall buf: Bytes, p: nat | At(buf, p, d.write(xs))
      ensures d.read(buf, p) == Got(xs, p + |d.write(xs)|)
    {
      AtSplit(buf, p, U32C().write(|xs|), WriteMany(c, xs));
      ManyLaw(c, xs, buf, p + 4);
    }
  }

  lemma ListStable<T(!new)>(c: Codec<T>)
    requires Stable(c)
    ensures Stable(ListC(c))
  {
    hide Le, UnLe, ReadMany;
    U32Law(0);
    var d := ListC(c);
    forall buf: Bytes, k: nat, p: nat | k <= |buf| && d.read(buf[..k], p).Got?
      ensures d.read(buf, p) == d.read(buf[..k], p)
    {
      var n := U32C().read(buf[..k], p);
      assert U32C().read(buf, p) == n;
      ManyStable(c, buf, k, n.pos, n.v);
    }
  }

  lemma ListLaw<T(!new)>(c: Codec<T>, xs: seq<T>)
    requires |xs| < U32_LIMIT && Stable(c) && forall i | 0 <= i < |xs| :: RoundTrips(c, xs[i])
    ensures Lawful(ListC(c), xs)
  {
    hide RoundTrips, Stable, ListC;
    ListReads(c, xs);
    ListStable(c);
  }
}
