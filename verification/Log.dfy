/** The segmented, hash-chained append log (`storage/log.rs`, struct `Log`).

    Segment files are byte strings; `groups` is the abstract content, the
    records of each segment in order. Everything observable is a function of
    the flat record list `Join(groups)`. */
module SegmentedLog {
  import opened ByteStrings
  import opened Records

  const SEGMENT_BYTES: nat := 64 * 1024 * 1024

  /** A byte string whose length field describes it. */
  predicate Framed(b: Bytes) {
    |b| >= HEADER_LEN && ReadU32(b[1..5]) == |b| - HEADER_LEN
  }

  predicate AllFramed(recs: seq<Bytes>) {
    forall i | 0 <= i < |recs| :: Framed(recs[i])
  }

  function Join(groups: seq<seq<Bytes>>): seq<Bytes> {
    if groups == [] then [] else groups[0] + Join(groups[1..])
  }

  lemma {:induction false} JoinConcat(a: seq<seq<Bytes>>, b: seq<seq<Bytes>>)
    ensures Join(a + b) == Join(a) + Join(b)
  {
    if a == [] {
      assert a + b == b;
    } else {
      JoinConcat(a[1..], b);
      assert (a + b)[1..] == a[1..] + b;
      Assoc(a[0], Join(a[1..]), Join(b));
    }
  }

  lemma JoinLast(groups: seq<seq<Bytes>>)
    requires groups != []
    ensures Join(groups) == Join(groups[..|groups| - 1]) + groups[|groups| - 1]
  {
    var n := |groups| - 1;
    assert groups == groups[..n] + [groups[n]];
    JoinConcat(groups[..n], [groups[n]]);
    var last: seq<seq<Bytes>> := [groups[n]];
    assert last[1..] == [] && groups[n] + [] == groups[n];
  }

  // ---------- the hash chain ----------

  /** The chain head after appending `recs` to a log whose head is `h`. */
  function HeadAfter(c: Crypto, h: Id32, recs: seq<Bytes>): Id32 {
    if recs == [] || |recs[|recs| - 1]| < HEADER_LEN then h
    else var last := recs[|recs| - 1]; RecordHash(c, last[9..41], last)
  }

  lemma HeadConcat(c: Crypto, h: Id32, a: seq<Bytes>, b: seq<Bytes>)
    requires AllFramed(b)
    ensures HeadAfter(c, h, a + b) == HeadAfter(c, HeadAfter(c, h, a), b)
  {
    if b == [] { assert a + b == a; }
  }

  lemma HeadNone(c: Crypto, h: Id32)
    ensures HeadAfter(c, h, []) == h
  {
  }

  lemma HeadSingle(c: Crypto, h: Id32, b: Bytes)
    requires Framed(b) && b[9..41] == h
    ensures HeadAfter(c, h, [b]) == RecordHash(c, h, b)
  {
  }

  /** Every record parses and links to its predecessor, the first one to `h`. */
  predicate ChainOk(c: Crypto, h: Id32, recs: seq<Bytes>)
    decreases |recs|
  {
    recs == [] || (Parse(c, recs[0], Some(h)).Ok? && ChainOk(c, RecordHash(c, h, recs[0]), recs[1..]))
  }

  lemma ParsedLink(c: Crypto, b: Bytes, h: Id32)
    requires Parse(c, b, Some(h)).Ok?
    ensures Framed(b) && ValidTag(b[0]) && b[9..41] == h && Parse(c, b, Some(h)).value.1 == h
  {
    hide ParseBody;
  }

  lemma {:induction false} ChainFramed(c: Crypto, h: Id32, recs: seq<Bytes>)
    requires ChainOk(c, h, recs)
    ensures AllFramed(recs)
    decreases |recs|
  {
    hide Parse;
    if recs != [] {
      ParsedLink(c, recs[0], h);
      ChainFramed(c, RecordHash(c, h, recs[0]), recs[1..]);
    }
  }

  lemma {:induction false} ChainConcat(c: Crypto, h: Id32, a: seq<Bytes>, b: seq<Bytes>)
    requires AllFramed(a)
    ensures ChainOk(c, h, a + b) <==> ChainOk(c, h, a) && ChainOk(c, HeadAfter(c, h, a), b)
    decreases |a|
  {
    hide Parse, HeadAfter, RecordHash, Framed;
    if a == [] {
      assert a + b == b;
      HeadNone(c, h);
    } else {
      if Parse(c, a[0], Some(h)).Ok? {
        ParsedLink(c, a[0], h);
        HeadSingle(c, h, a[0]);
        HeadConcat(c, h, [a[0]], a[1..]);
        assert [a[0]] + a[1..] == a;
      }
      ChainConcat(c, RecordHash(c, h, a[0]), a[1..], b);
      assert (a + b)[1..] == a[1..] + b;
    }
  }

  /** `x` is what was hashed for one of the records of log `a`. */
  ghost predicate Link(c: Crypto, a: seq<Bytes>, x: Bytes) {
    exists i | 0 <= i < |a| :: x == Hashed(c, a, i)
  }

  function Hashed(c: Crypto, a: seq<Bytes>, i: nat): Bytes
    requires i < |a|
  {
    HeadAfter(c, ZERO_ID, a[..i]) + a[i]
  }

  /** The last link of a chained log. */
  lemma LastLink(c: Crypto, a: seq<Bytes>)
    requires ChainOk(c, ZERO_ID, a) && a != []
    ensures ChainOk(c, ZERO_ID, a[..|a| - 1])
    ensures HeadAfter(c, ZERO_ID, a) == c.sha(Hashed(c, a, |a| - 1)) && Link(c, a, Hashed(c, a, |a| - 1))
  {
    hide Parse, HeadAfter, Framed;
    var (a', x) := (a[..|a| - 1], a[|a| - 1]);
    assert a == a' + [x];
    ChainFramed(c, ZERO_ID, a);
    ChainConcat(c, ZERO_ID, a', [x]);
    ParsedLink(c, [x][0], HeadAfter(c, ZERO_ID, a'));
    HeadConcat(c, ZERO_ID, a', [x]);
    HeadSingle(c, HeadAfter(c, ZERO_ID, a'), x);
  }

  lemma LinksDiffer(h1: Id32, x: Bytes, h2: Id32, y: Bytes)
    requires h1 != h2 || x != y
    ensures h1 + x != h2 + y
  {
    assert x == (h1 + x)[32..] && y == (h2 + y)[32..];
    assert h1 == (h1 + x)[..32] && h2 == (h2 + y)[..32];
  }

  /** The links of a log without its last record are links of the log. */
  lemma LinkOfFront(c: Crypto, a: seq<Bytes>, x: Bytes)
    requires a != [] && Link(c, a[..|a| - 1], x)
    ensures Link(c, a, x)
  {
    hide HeadAfter;
    var n := |a| - 1;
    var i :| 0 <= i < n && x == Hashed(c, a[..n], i);
    assert a[..n][..i] == a[..i];
    assert x == Hashed(c, a, i);
  }

  /** Two inputs that were hashed for the two logs collide, or one of them
      hashes to the head of the empty log. */
  ghost predicate Defeats(c: Crypto, a: seq<Bytes>, b: seq<Bytes>, x: Bytes, y: Bytes) {
    || (Link(c, a, x) && Link(c, b, y) && x != y && c.sha(x) == c.sha(y))
    || ((Link(c, a, x) || Link(c, b, x)) && c.sha(x) == ZERO_ID)
  }

  lemma DefeatsLonger(c: Crypto, a: seq<Bytes>, b: seq<Bytes>, x: Bytes, y: Bytes)
    requires a != [] && b != [] && Defeats(c, a[..|a| - 1], b[..|b| - 1], x, y)
    ensures Defeats(c, a, b, x, y)
  {
    hide Link;
    if Link(c, a[..|a| - 1], x) { LinkOfFront(c, a, x); }
    if Link(c, b[..|b| - 1], x) { LinkOfFront(c, b, x); }
    if Link(c, b[..|b| - 1], y) { LinkOfFront(c, b, y); }
  }

  /** Tamper evidence, for every hash: two chained logs with the same head hold
      the same bytes, or the hash fails on the very inputs it was applied to in
      these two logs: two of them collide, or one hashes to the empty head. */
  lemma {:induction false} HeadDeterminesLog(c: Crypto, a: seq<Bytes>, b: seq<Bytes>) returns (x: Bytes, y: Bytes)
    requires ChainOk(c, ZERO_ID, a) && ChainOk(c, ZERO_ID, b)
    requires HeadAfter(c, ZERO_ID, a) == HeadAfter(c, ZERO_ID, b)
    ensures a == b || Defeats(c, a, b, x, y)
    decreases |a|
  {
    hide ChainOk, HeadAfter, Link, Parse, Framed;
    HeadNone(c, ZERO_ID);
    x, y := [], [];
    if a != [] {
      LastLink(c, a);
      x := Hashed(c, a, |a| - 1);
    }
    if b != [] {
      LastLink(c, b);
      y := Hashed(c, b, |b| - 1);
    }
    if a == [] {
      x := y;
    } else if b != [] {
      var (a', r) := (a[..|a| - 1], a[|a| - 1]);
      var (b', s) := (b[..|b| - 1], b[|b| - 1]);
      var (h, k) := (HeadAfter(c, ZERO_ID, a'), HeadAfter(c, ZERO_ID, b'));
      if h == k && r == s {
        x, y := HeadDeterminesLog(c, a', b');
        assert a == a' + [r] && b == b' + [s];
        if a' != b' { DefeatsLonger(c, a, b, x, y); }
      } else {
        LinksDiffer(h, r, k, s);
      }
    }
  }

  // ---------- segment layout ----------

  /** Where an append puts record `b`: the last segment, or a fresh one when
      the last is not empty and `b` would push it past the cap. */
  function Place(groups: seq<seq<Bytes>>, b: Bytes): (r: seq<seq<Bytes>>)
    requires groups != []
    ensures r != []
  {
    var last := groups[|groups| - 1];
    if |Flat(last)| > 0 && |Flat(last)| + |b| > SEGMENT_BYTES then groups + [[b]]
    else groups[..|groups| - 1] + [last + [b]]
  }

  /** The segments of a new log after appending `recs` one by one. */
  function Segments(recs: seq<Bytes>): (r: seq<seq<Bytes>>)
    ensures r != []
  {
    if recs == [] then [[]] else Place(Segments(recs[..|recs| - 1]), recs[|recs| - 1])
  }

  lemma {:induction false} SegmentsJoin(recs: seq<Bytes>)
    ensures Join(Segments(recs)) == recs
  {
    hide Place;
    if recs == [] {
      var one: seq<seq<Bytes>> := [[]];
      assert one[1..] == [];
    } else {
      var n := |recs| - 1;
      SegmentsJoin(recs[..n]);
      PlaceJoin(Segments(recs[..n]), recs[n]);
      assert recs == recs[..n] + [recs[n]];
    }
  }

  lemma PlaceJoin(groups: seq<seq<Bytes>>, b: Bytes)
    requires groups != []
    ensures Join(Place(groups, b)) == Join(groups) + [b]
  {
    var p := Place(groups, b);
    JoinLast(p);
    JoinLast(groups);
    var n := |groups| - 1;
    if |p| == |groups| {
      assert p[..n] == groups[..n];
    } else {
      assert p[..n + 1] == groups;
    }
  }

  /** A segment past the cap holds a single oversized record. */
  predicate WithinCap(g: seq<Bytes>) {
    |Flat(g)| <= SEGMENT_BYTES || |g| == 1
  }

  ghost predicate AllWithinCap(groups: seq<seq<Bytes>>) {
    forall g | g in groups :: WithinCap(g)
  }

  lemma PlaceWithinCap(groups: seq<seq<Bytes>>, b: Bytes)
    requires groups != [] && AllWithinCap(groups)
    requires NonEmpty(groups[|groups| - 1])
    ensures AllWithinCap(Place(groups, b))
  {
    var last := groups[|groups| - 1];
    FlatSnoc(last, b);
    FlatEmpty(last);
    assert [] + [b] == [b];
  }

  predicate NonEmpty(g: seq<Bytes>) {
    forall i | 0 <= i < |g| :: |g[i]| > 0
  }

  lemma FlatEmpty(g: seq<Bytes>)
    requires NonEmpty(g)
    ensures Flat(g) == [] <==> g == []
  {
    if g != [] { assert |g[0]| > 0; }
  }

  /** Segment `g` was closed because the next segment's first record did not fit. */
  predicate ClosedBy(g: seq<Bytes>, next: seq<Bytes>) {
    |Flat(g)| > 0 && next != [] && |Flat(g)| + |next[0]| > SEGMENT_BYTES
  }

  /** Every segment is within the cap and was closed as late as possible. */
  predicate Greedy(groups: seq<seq<Bytes>>) {
    var n := |groups| - 1;
    n >= 0 && WithinCap(groups[n]) && (n > 0 ==> ClosedBy(groups[n - 1], groups[n]) && Greedy(groups[..n]))
  }

  lemma PlaceGreedy(g: seq<seq<Bytes>>, b: Bytes)
    requires g != [] && Greedy(g) && NonEmpty(g[|g| - 1])
    ensures Greedy(Place(g, b))
  {
    hide Flat;
    var n := |g| - 1;
    var p := Place(g, b);
    FlatSnoc(g[n], b);
    FlatEmpty(g[n]);
    if |p| == |g| {
      assert p[..n] == g[..n];
    } else {
      assert p[..n + 1] == g;
    }
  }

  lemma {:induction false} SegmentsGreedy(recs: seq<Bytes>)
    requires NonEmpty(recs)
    ensures Greedy(Segments(recs)) && Join(Segments(recs)) == recs
  {
    hide Flat, Place;
    if recs == [] {
      JoinLast([[]]);
      FlatEmpty([]);
    } else {
      var k := |recs| - 1;
      SegmentsGreedy(recs[..k]);
      var g := Segments(recs[..k]);
      assert recs == recs[..k] + [recs[k]];
      JoinLast(g);
      assert NonEmpty(g[|g| - 1]) by { assert g[|g| - 1] == recs[..k][k - |g[|g| - 1]|..]; }
      PlaceJoin(g, recs[k]);
      PlaceGreedy(g, recs[k]);
    }
  }

  /** The layout is determined: any greedy arrangement of the records is the
      one that appending them produces. */
  lemma {:induction false} SegmentsUnique(groups: seq<seq<Bytes>>)
    requires groups != [] && Greedy(groups)
    ensures groups == Segments(Join(groups))
    decreases |Join(groups)|
  {
    hide Flat, Greedy, Place;
    var n := |groups| - 1;
    var last := groups[n];
    JoinLast(groups);
    if last == [] {
      GreedyEnd(groups);
      JoinLast(groups);
    } else {
      var before := Before(groups);
      BeforeJoin(groups);
      BeforeGreedy(groups);
      SegmentsUnique(before);
    }
  }

  /** The arrangement one append earlier. */
  ghost function Before(groups: seq<seq<Bytes>>): (r: seq<seq<Bytes>>)
    requires groups != [] && groups[|groups| - 1] != []
    ensures r != []
  {
    var n := |groups| - 1;
    var k := |groups[n]| - 1;
    if k == 0 && n > 0 then groups[..n] else groups[..n] + [groups[n][..k]]
  }

  lemma GreedyEnd(groups: seq<seq<Bytes>>)
    requires Greedy(groups) && groups[|groups| - 1] == []
    ensures groups == [[]]
  {
  }

  lemma BeforeJoin(groups: seq<seq<Bytes>>)
    requires groups != [] && groups[|groups| - 1] != []
    ensures var last := groups[|groups| - 1]; Join(groups) == Join(Before(groups)) + [last[|last| - 1]]
  {
    var n := |groups| - 1;
    var before := Before(groups);
    JoinLast(groups);
    if |before| == |groups| {
      JoinLast(before);
      assert before[..n] == groups[..n];
    }
  }

  lemma BeforeGreedy(groups: seq<seq<Bytes>>)
    requires Greedy(groups) && groups[|groups| - 1] != []
    ensures Greedy(Before(groups))
    ensures var last := groups[|groups| - 1]; groups == Place(Before(groups), last[|last| - 1])
  {
    hide Flat;
    var n := |groups| - 1;
    var last := groups[n];
    var k := |last| - 1;
    var before := Before(groups);
    assert last == last[..k] + [last[k]];
    assert groups == groups[..n] + [last];
    FlatSnoc(last[..k], last[k]);
    FlatEmpty([]);
    if |before| == |groups| {
      assert before[..n] == groups[..n];
      if n > 0 { assert before[n - 1] == groups[n - 1]; }
    }
  }
}
