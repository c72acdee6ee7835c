/** Byte strings, fixed-width little-endian integers, concatenation, and the
    byte-lexicographic order that the store's sorted maps and sets use. */
module ByteStrings {

  type Byte = b: int | 0 <= b < 256
  type Bytes = seq<Byte>

  /** A 32-byte hash, replica id or author key. */
  type Id32 = b: Bytes | |b| == 32 witness Zeros(32)

  type U32 = n: int | 0 <= n < 0x1_0000_0000
  type U64 = n: int | 0 <= n < 0x1_0000_0000_0000_0000

  const ZERO_ID: Id32 := Zeros(32)
  const U32_LIMIT: nat := 0x1_0000_0000
  const U64_LIMIT: nat := 0x1_0000_0000_0000_0000

  function Zeros(n: nat): (b: Bytes)
    ensures |b| == n
  {
    if n == 0 then [] else [0] + Zeros(n - 1)
  }

  // ---------- little-endian integers ----------

  function Pow256(w: nat): (p: nat)
    ensures p > 0
  {
    if w == 0 then 1 else 256 * Pow256(w - 1)
  }

  /** The low `w` bytes of `n`, least significant first; a cast to a narrower
      integer type is therefore already part of it. */
  function Le(n: nat, w: nat): (b: Bytes)
    ensures |b| == w
  {
    if w == 0 then [] else [n % 256] + Le(n / 256, w - 1)
  }

  function UnLe(b: Bytes): (n: nat)
    ensures n < Pow256(|b|)
  {
    if b == [] then 0 else b[0] + 256 * UnLe(b[1..])
  }

  lemma {:induction false} UnLeOfLe(n: nat, w: nat)
    requires n < Pow256(w)
    ensures UnLe(Le(n, w)) == n
  {
    if w > 0 {
      assert Le(n, w)[1..] == Le(n / 256, w - 1);
      UnLeOfLe(n / 256, w - 1);
    }
  }

  lemma {:induction false} LeOfUnLe(b: Bytes)
    ensures Le(UnLe(b), |b|) == b
  {
    if b != [] {
      LeOfUnLe(b[1..]);
      assert UnLe(b) % 256 == b[0] && UnLe(b) / 256 == UnLe(b[1..]);
    }
  }

  lemma Pow256Widths()
    ensures Pow256(4) == U32_LIMIT
    ensures Pow256(8) == U64_LIMIT
  {
    assert Pow256(1) == 256;
    assert Pow256(2) == 0x1_0000;
    assert Pow256(3) == 0x100_0000;
    assert Pow256(4) == 0x1_0000_0000;
    assert Pow256(5) == 0x100_0000_0000;
    assert Pow256(6) == 0x1_0000_0000_0000;
    assert Pow256(7) == 0x100_0000_0000_0000;
  }

  lemma U32RoundTrip(n: nat)
    requires n < U32_LIMIT
    ensures UnLe(Le(n, 4)) == n
  {
    Pow256Widths();
    UnLeOfLe(n, 4);
  }

  lemma U64RoundTrip(n: nat)
    requires n < U64_LIMIT
    ensures UnLe(Le(n, 8)) == n
  {
    Pow256Widths();
    UnLeOfLe(n, 8);
  }

  function ReadU32(b: Bytes): U32
    requires |b| == 4
  {
    Pow256Widths();
    UnLe(b)
  }

  function ReadU64(b: Bytes): U64
    requires |b| == 8
  {
    Pow256Widths();
    UnLe(b)
  }

  // ---------- occurrence of one byte string in another ----------

  /** `x` stands at offset `p` of `buf`. */
  ghost predicate At(buf: Bytes, p: nat, x: Bytes) {
    p + |x| <= |buf| && buf[p..p + |x|] == x
  }

  lemma AtSplit(buf: Bytes, p: nat, x: Bytes, y: Bytes)
    ensures At(buf, p, x + y) <==> At(buf, p, x) && At(buf, p + |x|, y)
  {
    if At(buf, p, x + y) {
      assert buf[p..p + |x|] == buf[p..p + |x + y|][..|x|] == x;
      assert buf[p + |x|..p + |x| + |y|] == buf[p..p + |x + y|][|x|..] == y;
    }
    if At(buf, p, x) && At(buf, p + |x|, y) {
      assert buf[p..p + |x + y|] == buf[p..p + |x|] + buf[p + |x|..p + |x| + |y|];
    }
  }

  lemma AtByte(buf: Bytes, p: nat, x: Byte)
    ensures At(buf, p, [x]) <==> p < |buf| && buf[p] == x
    ensures p <= |buf| ==> At(buf, p, [])
  {
    if p < |buf| { assert buf[p..p + 1] == [buf[p]]; }
  }

  /** Every slice stands where it was cut, and is its own little-endian form. */
  lemma AtSlice(buf: Bytes, p: nat, n: nat)
    requires p + n <= |buf|
    ensures At(buf, p, buf[p..p + n])
    ensures Le(UnLe(buf[p..p + n]), n) == buf[p..p + n]
  {
    LeOfUnLe(buf[p..p + n]);
  }

  lemma AtFits(buf: Bytes, p: nat, x: Bytes)
    requires At(buf, p, x)
    ensures p + |x| <= |buf| && buf[p..p + |x|] == x
  {
  }

  // ---------- concatenation ----------

  lemma Assoc<T>(a: seq<T>, b: seq<T>, c: seq<T>)
    ensures (a + b) + c == a + (b + c)
  {
  }

  function Flat(bs: seq<Bytes>): Bytes {
    if bs == [] then [] else bs[0] + Flat(bs[1..])
  }

  lemma {:induction false} FlatConcat(a: seq<Bytes>, b: seq<Bytes>)
    ensures Flat(a + b) == Flat(a) + Flat(b)
  {
    if a == [] {
      assert a + b == b;
    } else {
      FlatConcat(a[1..], b);
      assert (a + b)[1..] == a[1..] + b;
      Assoc(a[0], Flat(a[1..]), Flat(b));
    }
  }

  lemma FlatSingle(b: Bytes)
    ensures Flat([b]) == b
  {
    assert [b][1..] == [];
  }

  lemma FlatSnoc(a: seq<Bytes>, b: Bytes)
    ensures Flat(a + [b]) == Flat(a) + b
  {
    FlatConcat(a, [b]);
    FlatSingle(b);
  }

  /** Element `i` stands in the concatenation right after its predecessors. */
  lemma FlatAt(bs: seq<Bytes>, i: nat)
    requires i < |bs|
    ensures At(Flat(bs), |Flat(bs[..i])|, bs[i])
    ensures |Flat(bs[..i + 1])| == |Flat(bs[..i])| + |bs[i]|
  {
    assert bs == bs[..i] + ([bs[i]] + bs[i + 1..]);
    FlatConcat(bs[..i], [bs[i]] + bs[i + 1..]);
    FlatConcat([bs[i]], bs[i + 1..]);
    FlatSingle(bs[i]);
    assert bs[..i + 1] == bs[..i] + [bs[i]];
    FlatSnoc(bs[..i], bs[i]);
  }

  // ---------- byte-lexicographic order ----------

  predicate Less(a: Bytes, b: Bytes) {
    b != [] && (a == [] || a[0] < b[0] || (a[0] == b[0] && Less(a[1..], b[1..])))
  }

  lemma {:induction false} LessIrreflexive(a: Bytes)
    ensures !Less(a, a)
  {
    if a != [] { LessIrreflexive(a[1..]); }
  }

  lemma {:induction false} LessTransitive(a: Bytes, b: Bytes, c: Bytes)
    requires Less(a, b) && Less(b, c)
    ensures Less(a, c)
  {
    if a != [] && a[0] == b[0] == c[0] { LessTransitive(a[1..], b[1..], c[1..]); }
  }

  lemma {:induction false} LessTotal(a: Bytes, b: Bytes)
    ensures a == b || Less(a, b) || Less(b, a)
  {
    if a != [] && b != [] && a[0] == b[0] {
      LessTotal(a[1..], b[1..]);
      assert a == [a[0]] + a[1..] && b == [b[0]] + b[1..];
    }
  }
}
