/** The index snapshot (`storage/mod.rs`): the bytes `checkpoint` writes and what
    `load_snap` restores from them. */
module Snapshots {
  import opened ByteStrings
  import opened StoreSpec
  import opened Codecs

  datatype Load<+T> = Loaded(value: T) | Corrupt

  const MAGIC_V2: Bytes := [66, 77, 68, 66, 73, 68, 88, 50]
  const MAGIC_V1: Bytes := [66, 77, 68, 66, 73, 68, 88, 49]

  // ---------- versions ----------

  type Parts = (U64, (Id32, (Id32, (Bytes, (U64, U64)))))
  type OldParts = (U64, (Id32, (Id32, (Bytes, U64))))

  function FromParts(x: Parts): Version {
    Version(x.0, x.1.0, x.1.1.0, x.1.1.1.0, x.1.1.1.1.0, x.1.1.1.1.1)
  }

  function ToParts(v: Version): Parts {
    (v.hlc, (v.replica, (v.author, (v.value, (v.seqNo % U64_LIMIT, v.expiresAt)))))
  }

  /** The layout before expiry existed. */
  function FromOldParts(x: OldParts): Version {
    Version(x.0, x.1.0, x.1.1.0, x.1.1.1.0, x.1.1.1.1, 0)
  }

  function ToOldParts(v: Version): OldParts {
    (v.hlc, (v.replica, (v.author, (v.value, v.seqNo % U64_LIMIT))))
  }

  function VersionC(v1: bool): Codec<Version> {
    if v1 then
      IsoC(PairC(U64C(), PairC(IdC(), PairC(IdC(), PairC(BytesC(), U64C())))), FromOldParts, ToOldParts)
    else
      IsoC(PairC(U64C(), PairC(IdC(), PairC(IdC(), PairC(BytesC(), PairC(U64C(), U64C()))))), FromParts, ToParts)
  }

  predicate VersionFits(v1: bool, v: Version) {
    |v.value| < U32_LIMIT && v.seqNo < U64_LIMIT && (v1 ==> v.expiresAt == 0)
  }

  lemma VersionLaw(v1: bool, v: Version)
    requires VersionFits(v1, v)
    ensures Lawful(VersionC(v1), v)
  {
    hide Lawful, U64C, IdC, BytesC, PairC, IsoC;
    U64Law(v.hlc); U64Law(v.seqNo); U64Law(v.expiresAt);
    IdLaw(v.replica); IdLaw(v.author);
    BytesLaw(v.value);
    if v1 {
      var a := PairC(BytesC(), U64C());
      var b := PairC(IdC(), a);
      var c := PairC(IdC(), b);
      PairLaw(BytesC(), U64C(), v.value, v.seqNo);
      PairLaw(IdC(), a, v.author, (v.value, v.seqNo));
      PairLaw(IdC(), b, v.replica, (v.author, (v.value, v.seqNo)));
      PairLaw(U64C(), c, v.hlc, (v.replica, (v.author, (v.value, v.seqNo))));
      IsoLaw(PairC(U64C(), c), FromOldParts, ToOldParts, v);
    } else {
      var stamps: (U64, U64) := (v.seqNo, v.expiresAt);
      PairLaw(U64C(), U64C(), v.seqNo, v.expiresAt);
      var a := PairC(BytesC(), PairC(U64C(), U64C()));
      var b := PairC(IdC(), a);
      var c := PairC(IdC(), b);
      PairLaw(BytesC(), PairC(U64C(), U64C()), v.value, stamps);
      PairLaw(IdC(), a, v.author, (v.value, stamps));
      PairLaw(IdC(), b, v.replica, (v.author, (v.value, stamps)));
      PairLaw(U64C(), c, v.hlc, (v.replica, (v.author, (v.value, stamps))));
      IsoLaw(PairC(U64C(), c), FromParts, ToParts, v);
    }
  }

  // ---------- entries and namespaces ----------

  function EntryC(v1: bool): Codec<Entry> {
    Codec<Entry>.Codec(
      (e: Entry) =>
        match e
        case Lww(v) => U8C().write(0) + VersionC(v1).write(v)
        case Register(vs) => U8C().write(1) + ListC(VersionC(v1)).write(vs),
      (buf: Bytes, p: nat) =>
        match U8C().read(buf, p)
        case Bad => Bad
        case Got(tag, q) =>
          if tag == 0 then
            (match VersionC(v1).read(buf, q) case Bad => Bad case Got(v, r) => Got(Lww(v), r))
          else if tag == 1 then
            (match ListC(VersionC(v1)).read(buf, q) case Bad => Bad case Got(vs, r) => Got(Register(vs), r))
          else Bad)
  }

  predicate EntryFits(v1: bool, e: Entry) {
    match e
    case Lww(v) => VersionFits(v1, v)
    case Register(vs) => |vs| < U32_LIMIT && forall i | 0 <= i < |vs| :: VersionFits(v1, vs[i])
  }

  lemma VersionsLaw(v1: bool, vs: seq<Version>)
    requires |vs| < U32_LIMIT && forall i | 0 <= i < |vs| :: VersionFits(v1, vs[i])
    ensures Lawful(ListC(VersionC(v1)), vs)
  {
    hide RoundTrips, Stable, VersionC, ListC;
    VersionLaw(v1, Version(0, ZERO_ID, ZERO_ID, [], 0, 0));
    forall i | 0 <= i < |vs| ensures RoundTrips(VersionC(v1), vs[i]) { VersionLaw(v1, vs[i]); }
    ListLaw(VersionC(v1), vs);
  }

  lemma LwwReads(v1: bool, v: Version, buf: Bytes, p: nat)
    requires VersionFits(v1, v) && At(buf, p, EntryC(v1).write(Lww(v)))
    ensures EntryC(v1).read(buf, p) == Got(Lww(v), p + |EntryC(v1).write(Lww(v))|)
  {
    hide VersionC, ListC, U8C, Stable, At;
    U8Law(0);
    VersionLaw(v1, v);
    AtSplit(buf, p, U8C().write(0), VersionC(v1).write(v));
    assert U8C().read(buf, p) == Got(0, p + |U8C().write(0)|);
  }

  lemma RegisterReads(v1: bool, vs: seq<Version>, buf: Bytes, p: nat)
    requires EntryFits(v1, Register(vs)) && At(buf, p, EntryC(v1).write(Register(vs)))
    ensures EntryC(v1).read(buf, p) == Got(Register(vs), p + |EntryC(v1).write(Register(vs))|)
  {
    hide VersionC, ListC, U8C, Stable, At;
    U8Law(1);
    VersionsLaw(v1, vs);
    AtSplit(buf, p, U8C().write(1), ListC(VersionC(v1)).write(vs));
    assert U8C().read(buf, p) == Got(1, p + |U8C().write(1)|);
  }

  lemma EntryReads(v1: bool, e: Entry)
    requires EntryFits(v1, e)
    ensures RoundTrips(EntryC(v1), e)
  {
    hide EntryC, At;
    forall buf: Bytes, p: nat | At(buf, p, EntryC(v1).write(e))
      ensures EntryC(v1).read(buf, p) == Got(e, p + |EntryC(v1).write(e)|)
    {
      match e
      case Lww(v) => LwwReads(v1, v, buf, p);
      case Register(vs) => RegisterReads(v1, vs, buf, p);
    }
  }

  lemma EntryStable(v1: bool)
    ensures Stable(EntryC(v1))
  {
    hide VersionC, ListC, U8C;
    U8Law(0);
    VersionLaw(v1, Version(0, ZERO_ID, ZERO_ID, [], 0, 0));
    VersionsLaw(v1, []);
    var c := EntryC(v1);
    forall buf: Bytes, k: nat, p: nat | k <= |buf| && c.read(buf[..k], p).Got?
      ensures c.read(buf, p) == c.read(buf[..k], p)
    {
      var tag := U8C().read(buf[..k], p);
      assert U8C().read(buf, p) == tag;
      if tag.v == 0 {
        assert VersionC(v1).read(buf[..k], tag.pos).Got?;
      } else {
        assert ListC(VersionC(v1)).read(buf[..k], tag.pos).Got?;
      }
    }
  }

  function PolicyC(): Codec<Policy> {
    Codec<Policy>.Codec(
      (x: Policy) => U8C().write(if x.LastWriter? then 0 else 1),
      (buf: Bytes, p: nat) =>
        match U8C().read(buf, p)
        case Bad => Bad
        case Got(b, q) => if b == 0 then Got(LastWriter, q) else if b == 1 then Got(CrdtRegister, q) else Bad)
  }

  lemma PolicyLaw(x: Policy)
    ensures Lawful(PolicyC(), x)
  {
    hide U8C;
    U8Law(0);
    U8Law(1);
    var c := PolicyC();
    forall buf: Bytes, k: nat, p: nat | k <= |buf| && c.read(buf[..k], p).Got?
      ensures c.read(buf, p) == c.read(buf[..k], p)
    {
      assert U8C().read(buf[..k], p).Got?;
    }
  }

  /** One namespace as listed in a snapshot. */
  datatype NsImage = NsImage(
    ns: Name, policy: Policy, seqNo: U64, head: Id32, entries: seq<(Key, Entry)>, tombs: seq<(Key, U64)>)

  type NsParts = (Name, (Policy, (U64, (Id32, (seq<(Key, Entry)>, seq<(Key, U64)>)))))

  function FromNsParts(x: NsParts): NsImage {
    NsImage(x.0, x.1.0, x.1.1.0, x.1.1.1.0, x.1.1.1.1.0, x.1.1.1.1.1)
  }

  function ToNsParts(n: NsImage): NsParts {
    (n.ns, (n.policy, (n.seqNo, (n.head, (n.entries, n.tombs)))))
  }

  function EntriesC(v1: bool): Codec<seq<(Key, Entry)>> {
    ListC(PairC(BytesC(), EntryC(v1)))
  }

  function TombsC(): Codec<seq<(Key, U64)>> {
    ListC(PairC(BytesC(), U64C()))
  }

  function NsC(v1: bool): Codec<NsImage> {
    IsoC(
      PairC(BytesC(), PairC(PolicyC(), PairC(U64C(), PairC(IdC(), PairC(EntriesC(v1), TombsC()))))),
      FromNsParts, ToNsParts)
  }

  predicate NsFits(v1: bool, n: NsImage) {
    && |n.ns| < U32_LIMIT && |n.entries| < U32_LIMIT && |n.tombs| < U32_LIMIT
    && (forall i | 0 <= i < |n.entries| :: |n.entries[i].0| < U32_LIMIT && EntryFits(v1, n.entries[i].1))
    && (forall i | 0 <= i < |n.tombs| :: |n.tombs[i].0| < U32_LIMIT)
  }

  lemma EntriesLaw(v1: bool, es: seq<(Key, Entry)>)
    requires |es| < U32_LIMIT && forall i | 0 <= i < |es| :: |es[i].0| < U32_LIMIT && EntryFits(v1, es[i].1)
    ensures Lawful(EntriesC(v1), es)
  {
    hide RoundTrips, Stable, EntryC, BytesC, ListC, PairC, EntryFits;
    BytesStable();
    EntryStable(v1);
    PairStable(BytesC(), EntryC(v1));
    forall i | 0 <= i < |es| ensures RoundTrips(PairC(BytesC(), EntryC(v1)), es[i]) {
      BytesReads(es[i].0);
      EntryReads(v1, es[i].1);
      PairReads(BytesC(), EntryC(v1), es[i].0, es[i].1);
    }
    ListLaw(PairC(BytesC(), EntryC(v1)), es);
  }

  lemma TombsLaw(ts: seq<(Key, U64)>)
    requires |ts| < U32_LIMIT && forall i | 0 <= i < |ts| :: |ts[i].0| < U32_LIMIT
    ensures Lawful(TombsC(), ts)
  {
    hide RoundTrips, Stable, U64C, BytesC, ListC, PairC;
    BytesStable();
    U64Law(0);
    PairStable(BytesC(), U64C());
    forall i | 0 <= i < |ts| ensures RoundTrips(PairC(BytesC(), U64C()), ts[i]) {
      BytesReads(ts[i].0);
      U64Law(ts[i].1);
      PairReads(BytesC(), U64C(), ts[i].0, ts[i].1);
    }
    ListLaw(PairC(BytesC(), U64C()), ts);
  }

  lemma NsLaw(v1: bool, n: NsImage)
    requires NsFits(v1, n)
    ensures Lawful(NsC(v1), n)
  {
    hide Lawful, EntriesC, TombsC, BytesC, PolicyC, U64C, IdC, PairC, IsoC, EntryFits;
    BytesLaw(n.ns);
    PolicyLaw(n.policy);
    U64Law(n.seqNo);
    IdLaw(n.head);
    EntriesLaw(v1, n.entries);
    TombsLaw(n.tombs);
    var a := PairC(EntriesC(v1), TombsC());
    var b := PairC(IdC(), a);
    var c := PairC(U64C(), b);
    var d := PairC(PolicyC(), c);
    PairLaw(EntriesC(v1), TombsC(), n.entries, n.tombs);
    PairLaw(IdC(), a, n.head, (n.entries, n.tombs));
    PairLaw(U64C(), b, n.seqNo, (n.head, (n.entries, n.tombs)));
    PairLaw(PolicyC(), c, n.policy, (n.seqNo, (n.head, (n.entries, n.tombs))));
    PairLaw(BytesC(), d, n.ns, (n.policy, (n.seqNo, (n.head, (n.entries, n.tombs)))));
    IsoLaw(PairC(BytesC(), d), FromNsParts, ToNsParts, n);
  }

  // ---------- the whole file ----------

  /** A snapshot's content in file order. */
  datatype Image = Image(revision: U64, meta: seq<(Bytes, Bytes)>, clocks: seq<(Bytes, int)>, spaces: seq<NsImage>)

  type ImageParts = (U64, (seq<(Bytes, Bytes)>, (seq<(Bytes, int)>, seq<NsImage>)))

  function FromImageParts(x: ImageParts): Image {
    Image(x.0, x.1.0, x.1.1.0, x.1.1.1)
  }

  function ToImageParts(m: Image): ImageParts {
    (m.revision, (m.meta, (m.clocks, m.spaces)))
  }

  function MetaC(): Codec<seq<(Bytes, Bytes)>> {
    ListC(PairC(BytesC(), BytesC()))
  }

  function ClocksC(): Codec<seq<(Bytes, int)>> {
    ListC(PairC(BytesC(), I64C()))
  }

  function ImageC(v1: bool): Codec<Image> {
    IsoC(PairC(U64C(), PairC(MetaC(), PairC(ClocksC(), ListC(NsC(v1))))), FromImageParts, ToImageParts)
  }

  /** Every length and count fits its 32-bit field. */
  predicate ImageFits(v1: bool, m: Image) {
    && |m.meta| < U32_LIMIT && |m.clocks| < U32_LIMIT && |m.spaces| < U32_LIMIT
    && (forall i | 0 <= i < |m.meta| :: |m.meta[i].0| < U32_LIMIT && |m.meta[i].1| < U32_LIMIT)
    && (forall i | 0 <= i < |m.clocks| :: |m.clocks[i].0| < U32_LIMIT && -(U64_LIMIT / 2) <= m.clocks[i].1 < U64_LIMIT / 2)
    && (forall i | 0 <= i < |m.spaces| :: NsFits(v1, m.spaces[i]))
  }

  lemma MetaLaw(xs: seq<(Bytes, Bytes)>)
    requires |xs| < U32_LIMIT && forall i | 0 <= i < |xs| :: |xs[i].0| < U32_LIMIT && |xs[i].1| < U32_LIMIT
    ensures Lawful(MetaC(), xs)
  {
    hide RoundTrips, Stable, BytesC, ListC, PairC;
    BytesStable();
    PairStable(BytesC(), BytesC());
    forall i | 0 <= i < |xs| ensures RoundTrips(PairC(BytesC(), BytesC()), xs[i]) {
      BytesReads(xs[i].0);
      BytesReads(xs[i].1);
      PairReads(BytesC(), BytesC(), xs[i].0, xs[i].1);
    }
    ListLaw(PairC(BytesC(), BytesC()), xs);
  }

  lemma ClocksLaw(xs: seq<(Bytes, int)>)
    requires |xs| < U32_LIMIT
    requires forall i | 0 <= i < |xs| :: |xs[i].0| < U32_LIMIT && -(U64_LIMIT / 2) <= xs[i].1 < U64_LIMIT / 2
    ensures Lawful(ClocksC(), xs)
  {
    hide RoundTrips, Stable, BytesC, I64C, ListC, PairC;
    BytesStable();
    I64Law(0);
    PairStable(BytesC(), I64C());
    forall i | 0 <= i < |xs| ensures RoundTrips(PairC(BytesC(), I64C()), xs[i]) {
      BytesReads(xs[i].0);
      I64Law(xs[i].1);
      PairReads(BytesC(), I64C(), xs[i].0, xs[i].1);
    }
    ListLaw(PairC(BytesC(), I64C()), xs);
  }

  lemma SpacesLaw(v1: bool, ns: seq<NsImage>)
    requires |ns| < U32_LIMIT && forall i | 0 <= i < |ns| :: NsFits(v1, ns[i])
    ensures Lawful(ListC(NsC(v1)), ns)
  {
    hide RoundTrips, Stable, NsC, ListC, NsFits;
    assert NsFits(v1, NsImage([], LastWriter, 0, ZERO_ID, [], [])) by { EmptyNsFits(v1); }
    NsLaw(v1, NsImage([], LastWriter, 0, ZERO_ID, [], []));
    forall i | 0 <= i < |ns| ensures RoundTrips(NsC(v1), ns[i]) { NsLaw(v1, ns[i]); }
    ListLaw(NsC(v1), ns);
  }

  lemma EmptyNsFits(v1: bool)
    ensures NsFits(v1, NsImage([], LastWriter, 0, ZERO_ID, [], []))
  {
  }

  lemma ImageLaw(v1: bool, m: Image)
    requires ImageFits(v1, m)
    ensures Lawful(ImageC(v1), m)
  {
    hide Lawful, U64C, MetaC, ClocksC, ListC, NsC, PairC, IsoC, NsFits;
    U64Law(m.revision);
    MetaLaw(m.meta);
    ClocksLaw(m.clocks);
    SpacesLaw(v1, m.spaces);
    var a := PairC(ClocksC(), ListC(NsC(v1)));
    var b := PairC(MetaC(), a);
    PairLaw(ClocksC(), ListC(NsC(v1)), m.clocks, m.spaces);
    PairLaw(MetaC(), a, m.meta, (m.clocks, m.spaces));
    PairLaw(U64C(), b, m.revision, (m.meta, (m.clocks, m.spaces)));
    IsoLaw(PairC(U64C(), b), FromImageParts, ToImageParts, m);
  }

  /** A snapshot file: magic, then the content. */
  function Save(v1: bool, m: Image): Bytes {
    (if v1 then MAGIC_V1 else MAGIC_V2) + ImageC(v1).write(m)
  }

  function LoadImage(bytes: Bytes): Load<Image> {
    if |bytes| < 8 || (bytes[..8] != MAGIC_V1 && bytes[..8] != MAGIC_V2) then Corrupt
    else
      match ImageC(bytes[..8] == MAGIC_V1).read(bytes[8..], 0)
      case Bad => Corrupt
      case Got(m, q) => if q != |bytes| - 8 then Corrupt else Loaded(m)
  }

  /** What is saved is loaded, in the current layout and in the one without
      expiry times. */
  lemma SaveLoads(v1: bool, m: Image)
    requires ImageFits(v1, m)
    ensures LoadImage(Save(v1, m)) == Loaded(m)
  {
    hide ImageC, ImageFits, Stable;
    ImageLaw(v1, m);
    var body := ImageC(v1).write(m);
    assert Save(v1, m)[8..] == body && Save(v1, m)[..8] == if v1 then MAGIC_V1 else MAGIC_V2;
    assert body[0..|body|] == body;
    assert At(body, 0, body);
  }

  /** A snapshot cut short at any byte, or followed by anything, is refused. */
  lemma DamagedLengthRefused(v1: bool, m: Image, k: nat, tail: Bytes)
    requires ImageFits(v1, m)
    ensures k < |Save(v1, m)| ==> LoadImage(Save(v1, m)[..k]) == Corrupt
    ensures tail != [] ==> LoadImage(Save(v1, m) + tail) == Corrupt
  {
    hide ImageC, ImageFits;
    ImageLaw(v1, m);
    var all := Save(v1, m);
    var body := ImageC(v1).write(m);
    assert all[8..] == body && all[..8] == if v1 then MAGIC_V1 else MAGIC_V2;
    assert body[0..|body|] == body;
    assert ImageC(v1).read(body, 0) == Got(m, |body|);
    if 8 <= k < |all| {
      assert all[..k][8..] == body[..k - 8] && all[..k][..8] == all[..8];
      if ImageC(v1).read(body[..k - 8], 0).Got? {
        assert ImageC(v1).read(body, 0) == ImageC(v1).read(body[..k - 8], 0);
      }
    }
    if tail != [] {
      assert (all + tail)[8..] == body + tail && (all + tail)[..8] == all[..8];
      assert (body + tail)[0..|body|] == body;
      assert At(body + tail, 0, body);
    }
  }

  // ---------- the tables a snapshot stands for ----------

  /** What a snapshot carries of a store. */
  datatype State = State(
    revision: U64, meta: map<Bytes, Bytes>, clocks: map<Bytes, int>,
    policies: map<Name, Policy>, heads: map<Name, (U64, Id32)>, t: Tables)

  function MapOf<K, V>(xs: seq<(K, V)>): map<K, V> {
    if xs == [] then map[] else MapOf(xs[..|xs| - 1])[xs[|xs| - 1].0 := xs[|xs| - 1].1]
  }

  function AddRows<V>(m: map<EntryKey, V>, ns: Name, xs: seq<(Key, V)>): map<EntryKey, V> {
    if xs == [] then m else AddRows(m, ns, xs[..|xs| - 1])[(ns, xs[|xs| - 1].0) := xs[|xs| - 1].1]
  }

  function AddSpace(s: State, n: NsImage): State {
    s.(policies := s.policies[n.ns := n.policy],
       heads := s.heads[n.ns := (n.seqNo, n.head)],
       t := Tables(AddRows(s.t.index, n.ns, n.entries), AddRows(s.t.tombs, n.ns, n.tombs)))
  }

  function AddSpaces(s: State, spaces: seq<NsImage>): State {
    if spaces == [] then s else AddSpace(AddSpaces(s, spaces[..|spaces| - 1]), spaces[|spaces| - 1])
  }

  /** Inserting everything a snapshot lists into an empty store. */
  function Restore(m: Image): State {
    AddSpaces(State(m.revision, MapOf(m.meta), MapOf(m.clocks), map[], map[], Tables(map[], map[])), m.spaces)
  }

  /** `xs` enumerates `m`, each key once. */
  ghost predicate Lists<K(!new), V(!new)>(xs: seq<(K, V)>, m: map<K, V>) {
    && (forall i, j | 0 <= i < j < |xs| :: xs[i].0 != xs[j].0)
    && (forall i | 0 <= i < |xs| :: xs[i].0 in m && m[xs[i].0] == xs[i].1)
    && (forall k | k in m :: exists i | 0 <= i < |xs| :: xs[i].0 == k)
  }

  /** `xs` enumerates the rows of `m` under `ns`, each key once. */
  ghost predicate ListsRows<V(!new)>(xs: seq<(Key, V)>, m: map<EntryKey, V>, ns: Name) {
    && (forall i, j | 0 <= i < j < |xs| :: xs[i].0 != xs[j].0)
    && (forall i | 0 <= i < |xs| :: (ns, xs[i].0) in m && m[(ns, xs[i].0)] == xs[i].1)
    && (forall k: EntryKey | k in m && k.0 == ns :: exists i | 0 <= i < |xs| :: xs[i].0 == k.1)
  }

  lemma {:induction false} MapOfPrefix<K(!new), V(!new)>(xs: seq<(K, V)>, m: map<K, V>)
    requires forall i, j | 0 <= i < j < |xs| :: xs[i].0 != xs[j].0
    requires forall i | 0 <= i < |xs| :: xs[i].0 in m && m[xs[i].0] == xs[i].1
    ensures forall k :: k in MapOf(xs) <==> exists i | 0 <= i < |xs| :: xs[i].0 == k
    ensures forall k | k in MapOf(xs) :: k in m && MapOf(xs)[k] == m[k]
  {
    if xs != [] {
      var n := |xs| - 1;
      MapOfPrefix(xs[..n], m);
      forall k ensures k in MapOf(xs) <==> exists i | 0 <= i < |xs| :: xs[i].0 == k {
        if i :| 0 <= i < |xs| && xs[i].0 == k {
          if i < n { assert xs[..n][i].0 == k; }
        }
        if k in MapOf(xs[..n]) {
          var i :| 0 <= i < n && xs[..n][i].0 == k;
          assert xs[i].0 == k;
        }
      }
    }
  }

  lemma MapOfLists<K(!new), V(!new)>(xs: seq<(K, V)>, m: map<K, V>)
    requires Lists(xs, m)
    ensures MapOf(xs) == m
  {
    MapOfPrefix(xs, m);
  }

  function Only<V>(m: map<EntryKey, V>, names: set<Name>): map<EntryKey, V> {
    map k: EntryKey | k in m && k.0 in names :: m[k]
  }

  lemma {:induction false} AddRowsMeaning<V(!new)>(m: map<EntryKey, V>, ns: Name, xs: seq<(Key, V)>, full: map<EntryKey, V>)
    requires forall i | 0 <= i < |xs| :: (ns, xs[i].0) in full && full[(ns, xs[i].0)] == xs[i].1
    requires forall k: EntryKey | k in m :: k in full && m[k] == full[k]
    ensures var r := AddRows(m, ns, xs);
      && (forall k: EntryKey :: k in r <==> k in m || (k.0 == ns && exists i | 0 <= i < |xs| :: xs[i].0 == k.1))
      && (forall k: EntryKey | k in r :: k in full && r[k] == full[k])
  {
    if xs != [] {
      var n := |xs| - 1;
      AddRowsMeaning(m, ns, xs[..n], full);
      var r := AddRows(m, ns, xs);
      forall k: EntryKey ensures k in r <==> k in m || (k.0 == ns && exists i | 0 <= i < |xs| :: xs[i].0 == k.1) {
        if k in AddRows(m, ns, xs[..n]) && k !in m {
          var i :| 0 <= i < n && xs[..n][i].0 == k.1;
          assert xs[i].0 == k.1;
        }
        if k.0 == ns {
          if i :| 0 <= i < |xs| && xs[i].0 == k.1 {
            if i < n { assert xs[..n][i].0 == k.1; } else { assert k == (ns, xs[n].0); }
          }
        }
      }
    }
  }

  lemma AddRowsOnly<V(!new)>(full: map<EntryKey, V>, names: set<Name>, ns: Name, xs: seq<(Key, V)>)
    requires ListsRows(xs, full, ns)
    ensures AddRows(Only(full, names), ns, xs) == Only(full, names + {ns})
  {
    AddRowsMeaning(Only(full, names), ns, xs, full);
  }

  /** The snapshot lists this store: all of its meta and clocks, and for each
      known namespace its policy, head, entries and tombstones. */
  ghost predicate Describes(m: Image, s: State) {
    && m.revision == s.revision && Lists(m.meta, s.meta) && Lists(m.clocks, s.clocks)
    && (forall i, j | 0 <= i < j < |m.spaces| :: m.spaces[i].ns != m.spaces[j].ns)
    && (forall ns | ns in s.policies :: exists i | 0 <= i < |m.spaces| :: m.spaces[i].ns == ns)
    && (forall i | 0 <= i < |m.spaces| :: DescribesNs(m.spaces[i], s))
  }

  ghost predicate DescribesNs(n: NsImage, s: State) {
    && n.ns in s.policies && n.policy == s.policies[n.ns]
    && n.ns in s.heads && (n.seqNo, n.head) == s.heads[n.ns]
    && ListsRows(n.entries, s.t.index, n.ns) && ListsRows(n.tombs, s.t.tombs, n.ns)
  }

  function Names(spaces: seq<NsImage>): set<Name> {
    set i | 0 <= i < |spaces| :: spaces[i].ns
  }

  function OnlyNames<V>(m: map<Name, V>, names: set<Name>): map<Name, V> {
    map n | n in m && n in names :: m[n]
  }

  function Known(s: State, names: set<Name>): State {
    s.(policies := OnlyNames(s.policies, names), heads := OnlyNames(s.heads, names),
       t := Tables(Only(s.t.index, names), Only(s.t.tombs, names)))
  }

  lemma NamesSnoc(spaces: seq<NsImage>)
    requires spaces != []
    ensures var n := |spaces| - 1; Names(spaces) == Names(spaces[..n]) + {spaces[n].ns}
  {
    var n := |spaces| - 1;
    forall x ensures x in Names(spaces) <==> x in Names(spaces[..n]) + {spaces[n].ns} {
      if x in Names(spaces) {
        var i :| 0 <= i < |spaces| && spaces[i].ns == x;
        if i < n { assert spaces[..n][i].ns == x; }
      }
      if x in Names(spaces[..n]) {
        var i :| 0 <= i < n && spaces[..n][i].ns == x;
        assert spaces[i].ns == x;
      }
    }
  }

  lemma AddSpaceKnown(s: State, names: set<Name>, n: NsImage)
    requires DescribesNs(n, s)
    ensures AddSpace(Known(s, names), n) == Known(s, names + {n.ns})
  {
    hide ListsRows, AddRows, Only;
    AddRowsOnly(s.t.index, names, n.ns, n.entries);
    AddRowsOnly(s.t.tombs, names, n.ns, n.tombs);
  }

  lemma {:induction false} AddSpacesKnown(s: State, spaces: seq<NsImage>)
    requires forall i | 0 <= i < |spaces| :: DescribesNs(spaces[i], s)
    ensures AddSpaces(Known(s, {}), spaces) == Known(s, Names(spaces))
  {
    hide DescribesNs, AddSpace, Known;
    if spaces == [] {
      assert Names(spaces) == {};
    } else {
      var n := |spaces| - 1;
      AddSpacesKnown(s, spaces[..n]);
      NamesSnoc(spaces);
      AddSpaceKnown(s, Names(spaces[..n]), spaces[n]);
    }
  }

  /** Every row belongs to a namespace that has a policy, as does every head. */
  ghost predicate Closed(s: State) {
    && (forall k: EntryKey | k in s.t.index :: k.0 in s.policies)
    && (forall k: EntryKey | k in s.t.tombs :: k.0 in s.policies)
    && s.heads.Keys == s.policies.Keys
  }

  /** Loading the bytes a checkpoint writes restores revision, meta, peer clocks,
      policies, heads, every entry and every tombstone, exactly when no row
      stands outside the known namespaces. */
  lemma CheckpointRestores(m: Image, s: State)
    requires Describes(m, s) && ImageFits(false, m)
    ensures LoadImage(Save(false, m)) == Loaded(m)
    ensures Restore(m) == Known(s, s.policies.Keys)
    ensures Restore(m) == s <==> Closed(s)
  {
    hide ImageFits, LoadImage, Save, Lists, ListsRows, AddSpaces, Only;
    SaveLoads(false, m);
    MapOfLists(m.meta, s.meta);
    MapOfLists(m.clocks, s.clocks);
    AddSpacesKnown(s, m.spaces);
    NothingKnown(s);
    DescribedNames(m, s);
    KnownIffClosed(s);
  }

  lemma NothingKnown(s: State)
    ensures Known(s, {}) == State(s.revision, s.meta, s.clocks, map[], map[], Tables(map[], map[]))
  {
    assert OnlyNames(s.policies, {}) == map[] && OnlyNames(s.heads, {}) == map[];
    assert Only(s.t.index, {}) == map[] && Only(s.t.tombs, {}) == map[];
  }

  lemma DescribedNames(m: Image, s: State)
    requires Describes(m, s)
    ensures Names(m.spaces) == s.policies.Keys
  {
    hide Lists, ListsRows;
    forall ns | ns in s.policies ensures ns in Names(m.spaces) {
      var i :| 0 <= i < |m.spaces| && m.spaces[i].ns == ns;
    }
  }

  lemma OnlyIff<V(!new)>(m: map<EntryKey, V>, names: set<Name>)
    ensures Only(m, names) == m <==> forall k: EntryKey | k in m :: k.0 in names
  {
    if Only(m, names) == m {
      forall k: EntryKey | k in m ensures k.0 in names { assert k in Only(m, names); }
    }
  }

  lemma KnownIffClosed(s: State)
    requires s.policies.Keys <= s.heads.Keys
    ensures Known(s, s.policies.Keys) == s <==> Closed(s)
  {
    hide Only;
    var names := s.policies.Keys;
    OnlyIff(s.t.index, names);
    OnlyIff(s.t.tombs, names);
    assert OnlyNames(s.policies, names) == s.policies;
    assert OnlyNames(s.heads, names) == s.heads <==> s.heads.Keys == names by {
      assert OnlyNames(s.heads, names).Keys == names;
    }
  }

  // ---------- writing and reading step by step ----------

  lemma {:induction false} WriteManySnoc<T>(c: Codec<T>, xs: seq<T>, x: T)
    ensures WriteMany(c, xs + [x]) == WriteMany(c, xs) + c.write(x)
  {
    if xs == [] {
      assert [x][1..] == [] && ([] + [x]) == [x];
    } else {
      WriteManySnoc(c, xs[1..], x);
      assert (xs + [x])[1..] == xs[1..] + [x];
      Assoc(c.write(xs[0]), WriteMany(c, xs[1..]), c.write(x));
    }
  }

  /** A count, then every element. */
  method WriteList<T>(c: Codec<T>, xs: seq<T>) returns (out: Bytes)
    ensures out == ListC(c).write(xs)
  {
    hide U32C, WriteMany;
    var count := U32C().write(|xs|);
    var rows: Bytes := [];
    assert WriteMany(c, xs[..0]) == [] by { WriteNothing(c); }
    for i := 0 to |xs|
      invariant rows == WriteMany(c, xs[..i])
    {
      WriteManySnoc(c, xs[..i], xs[i]);
      assert xs[..i] + [xs[i]] == xs[..i + 1];
      rows := rows + c.write(xs[i]);
    }
    assert xs[..|xs|] == xs;
    out := count + rows;
  }

  lemma WriteNothing<T>(c: Codec<T>)
    ensures WriteMany(c, []) == []
  {
  }

  /** A count, then that many elements, up to the first bad one. */
  method ReadList<T>(c: Codec<T>, buf: Bytes, pos: nat) returns (res: Res<seq<T>>)
    ensures res == ListC(c).read(buf, pos)
  {
    hide U32C;
    var count := U32C().read(buf, pos);
    if count.Bad? { return Bad; }
    var xs: seq<T> := [];
    var p := count.pos;
    ghost var all := ReadMany(c, buf, p, count.v);
    assert all == Prefixed(xs, all) by { PrefixedNone(all); }
    for i := 0 to count.v
      invariant all == Prefixed(xs, ReadMany(c, buf, p, count.v - i))
    {
      var x := c.read(buf, p);
      if x.Bad? { return Bad; }
      ghost var rest := ReadMany(c, buf, x.pos, count.v - i - 1);
      if rest.Got? { Assoc(xs, [x.v], rest.v); }
      xs, p := xs + [x.v], x.pos;
    }
    assert xs + [] == xs;
    return Got(xs, p);
  }

  function Prefixed<T>(xs: seq<T>, r: Res<seq<T>>): Res<seq<T>> {
    if r.Got? then Got(xs + r.v, r.pos) else Bad
  }

  lemma PrefixedNone<T>(r: Res<seq<T>>)
    ensures Prefixed([], r) == r
  {
    if r.Got? { assert [] + r.v == r.v; }
  }

  method WriteNs(n: NsImage) returns (out: Bytes)
    ensures out == NsC(false).write(n)
  {
    hide BytesC, PolicyC, U64C, IdC, EntryC, ListC;
    var head := BytesC().write(n.ns);
    var policy := PolicyC().write(n.policy);
    var seqNo := U64C().write(n.seqNo);
    var hash := IdC().write(n.head);
    var entries := WriteList(PairC(BytesC(), EntryC(false)), n.entries);
    var tombs := WriteList(PairC(BytesC(), U64C()), n.tombs);
    out := head + (policy + (seqNo + (hash + (entries + tombs))));
    NsLayout(n);
  }

  lemma NsLayout(n: NsImage)
    ensures NsC(false).write(n) ==
      BytesC().write(n.ns) + (PolicyC().write(n.policy) + (U64C().write(n.seqNo) + (IdC().write(n.head) +
        (EntriesC(false).write(n.entries) + TombsC().write(n.tombs)))))
  {
    hide BytesC, PolicyC, U64C, IdC, EntriesC, TombsC, PairC, IsoC;
    var a := PairC(EntriesC(false), TombsC());
    var b := PairC(IdC(), a);
    var c := PairC(U64C(), b);
    var d := PairC(PolicyC(), c);
    IsoWrite(PairC(BytesC(), d), FromNsParts, ToNsParts, n);
    PairWrite(EntriesC(false), TombsC(), n.entries, n.tombs);
    PairWrite(IdC(), a, n.head, (n.entries, n.tombs));
    PairWrite(U64C(), b, n.seqNo, (n.head, (n.entries, n.tombs)));
    PairWrite(PolicyC(), c, n.policy, (n.seqNo, (n.head, (n.entries, n.tombs))));
    PairWrite(BytesC(), d, n.ns, (n.policy, (n.seqNo, (n.head, (n.entries, n.tombs)))));
  }

  method ReadNs(v1: bool, buf: Bytes, pos: nat) returns (res: Res<NsImage>)
    ensures res == NsC(v1).read(buf, pos)
  {
    hide BytesC, PolicyC, U64C, IdC, EntryC, ListC, PairC;
    ghost var a := PairC(EntriesC(v1), TombsC());
    ghost var b := PairC(IdC(), a);
    ghost var c := PairC(U64C(), b);
    ghost var d := PairC(PolicyC(), c);
    var ns := BytesC().read(buf, pos);
    PairRead(BytesC(), d, buf, pos);
    if ns.Bad? { return Bad; }
    PairRead(PolicyC(), c, buf, ns.pos);
    var policy := PolicyC().read(buf, ns.pos);
    if policy.Bad? { return Bad; }
    PairRead(U64C(), b, buf, policy.pos);
    var seqNo := U64C().read(buf, policy.pos);
    if seqNo.Bad? { return Bad; }
    PairRead(IdC(), a, buf, seqNo.pos);
    var head := IdC().read(buf, seqNo.pos);
    if head.Bad? { return Bad; }
    PairRead(EntriesC(v1), TombsC(), buf, head.pos);
    var entries := ReadList(PairC(BytesC(), EntryC(v1)), buf, head.pos);
    if entries.Bad? { return Bad; }
    var tombs := ReadList(PairC(BytesC(), U64C()), buf, entries.pos);
    if tombs.Bad? { return Bad; }
    return Got(NsImage(ns.v, policy.v, seqNo.v, head.v, entries.v, tombs.v), tombs.pos);
  }

  /** The bytes of `index.snap`. */
  method Checkpoint(m: Image) returns (out: Bytes)
    ensures out == Save(false, m)
  {
    hide U32C, U64C, BytesC, I64C, NsC, ListC, WriteMany;
    var revision := U64C().write(m.revision);
    var meta := WriteList(PairC(BytesC(), BytesC()), m.meta);
    var clocks := WriteList(PairC(BytesC(), I64C()), m.clocks);
    var spaces: Bytes := [];
    assert WriteMany(NsC(false), m.spaces[..0]) == [] by { WriteNothing(NsC(false)); }
    for i := 0 to |m.spaces|
      invariant spaces == WriteMany(NsC(false), m.spaces[..i])
    {
      WriteManySnoc(NsC(false), m.spaces[..i], m.spaces[i]);
      assert m.spaces[..i] + [m.spaces[i]] == m.spaces[..i + 1];
      var one := WriteNs(m.spaces[i]);
      spaces := spaces + one;
    }
    assert m.spaces[..|m.spaces|] == m.spaces;
    spaces := U32C().write(|m.spaces|) + spaces;
    ListLayout(NsC(false), m.spaces);
    out := MAGIC_V2 + (revision + (meta + (clocks + spaces)));
    ImageLayout(m);
  }

  lemma ListLayout<T>(c: Codec<T>, xs: seq<T>)
    ensures ListC(c).write(xs) == U32C().write(|xs|) + WriteMany(c, xs)
  {
  }

  lemma ImageLayout(m: Image)
    ensures ImageC(false).write(m) ==
      U64C().write(m.revision) + (MetaC().write(m.meta) + (ClocksC().write(m.clocks) + ListC(NsC(false)).write(m.spaces)))
  {
    hide U64C, MetaC, ClocksC, NsC, ListC, PairC, IsoC;
    var a := PairC(ClocksC(), ListC(NsC(false)));
    var b := PairC(MetaC(), a);
    IsoWrite(PairC(U64C(), b), FromImageParts, ToImageParts, m);
    PairWrite(ClocksC(), ListC(NsC(false)), m.clocks, m.spaces);
    PairWrite(MetaC(), a, m.meta, (m.clocks, m.spaces));
    PairWrite(U64C(), b, m.revision, (m.meta, (m.clocks, m.spaces)));
  }

  /** A store being opened. */
  class Opening {
    var revision: U64
    var meta: map<Bytes, Bytes>
    var clocks: map<Bytes, int>
    var policies: map<Name, Policy>
    var heads: map<Name, (U64, Id32)>
    var index: map<EntryKey, Entry>
    var tombs: map<EntryKey, U64>

    function Contents(): State
      reads this
    {
      State(revision, meta, clocks, policies, heads, Tables(index, tombs))
    }

    constructor ()
      ensures Contents() == State(0, map[], map[], map[], map[], Tables(map[], map[]))
    {
      revision, meta, clocks, policies, heads, index, tombs := 0, map[], map[], map[], map[], map[], map[];
    }

    method InsertNs(n: NsImage)
      modifies this`policies, this`heads, this`index, this`tombs
      ensures Contents() == AddSpace(old(Contents()), n)
    {
      for i := 0 to |n.entries|
        invariant index == AddRows(old(index), n.ns, n.entries[..i])
        invariant tombs == old(tombs) && policies == old(policies) && heads == old(heads)
      {
        assert n.entries[..i + 1][..i] == n.entries[..i];
        index := index[(n.ns, n.entries[i].0) := n.entries[i].1];
      }
      assert n.entries[..|n.entries|] == n.entries;
      for i := 0 to |n.tombs|
        invariant tombs == AddRows(old(tombs), n.ns, n.tombs[..i])
        invariant index == AddRows(old(index), n.ns, n.entries) && policies == old(policies) && heads == old(heads)
      {
        assert n.tombs[..i + 1][..i] == n.tombs[..i];
        tombs := tombs[(n.ns, n.tombs[i].0) := n.tombs[i].1];
      }
      assert n.tombs[..|n.tombs|] == n.tombs;
      policies := policies[n.ns := n.policy];
      heads := heads[n.ns := (n.seqNo, n.head)];
    }

    /** The namespaces of a snapshot, inserted as they are read. */
    method LoadSpaces(v1: bool, buf: Bytes, pos: nat) returns (res: Res<seq<NsImage>>)
      modifies this`policies, this`heads, this`index, this`tombs
      ensures res == ListC(NsC(v1)).read(buf, pos)
      ensures res.Got? ==> Contents() == AddSpaces(old(Contents()), res.v)
    {
      hide U32C, NsC, AddSpace;
      var count := U32C().read(buf, pos);
      if count.Bad? { return Bad; }
      var p := count.pos;
      var done: seq<NsImage> := [];
      ghost var all := ReadMany(NsC(v1), buf, p, count.v);
      PrefixedNone(all);
      for i := 0 to count.v
        invariant all == Prefixed(done, ReadMany(NsC(v1), buf, p, count.v - i))
        invariant Contents() == AddSpaces(old(Contents()), done)
      {
        var n := ReadNs(v1, buf, p);
        if n.Bad? { return Bad; }
        ghost var rest := ReadMany(NsC(v1), buf, n.pos, count.v - i - 1);
        if rest.Got? { Assoc(done, [n.v], rest.v); }
        InsertNs(n.v);
        assert (done + [n.v])[..|done|] == done;
        done, p := done + [n.v], n.pos;
      }
      assert done + [] == done;
      return Got(done, p);
    }

    /** A fresh store takes over everything a snapshot lists, or refuses it. */
    method LoadSnap(bytes: Bytes) returns (ok: bool)
      requires Contents() == State(0, map[], map[], map[], map[], Tables(map[], map[]))
      modifies this
      ensures ok <==> LoadImage(bytes).Loaded?
      ensures ok ==> Contents() == Restore(LoadImage(bytes).value)
    {
      hide U64C, BytesC, I64C, NsC, ListC, PairC, AddSpaces, MapOf;
      if |bytes| < 8 { return false; }
      var v1 := bytes[..8] == MAGIC_V1;
      if !v1 && bytes[..8] != MAGIC_V2 { return false; }
      var buf := bytes[8..];
      ghost var a := PairC(ClocksC(), ListC(NsC(v1)));
      ghost var b := PairC(MetaC(), a);
      PairRead(U64C(), b, buf, 0);
      var rev := U64C().read(buf, 0);
      if rev.Bad? { return false; }
      revision := rev.v;
      PairRead(MetaC(), a, buf, rev.pos);
      var rows := ReadList(PairC(BytesC(), BytesC()), buf, rev.pos);
      if rows.Bad? { return false; }
      meta := Collect(rows.v);
      PairRead(ClocksC(), ListC(NsC(v1)), buf, rows.pos);
      var diffs := ReadList(PairC(BytesC(), I64C()), buf, rows.pos);
      if diffs.Bad? { return false; }
      clocks := Collect(diffs.v);
      var spaces := LoadSpaces(v1, buf, diffs.pos);
      if spaces.Bad? { return false; }
      ok := spaces.pos == |buf|;
      if ok {
        assert LoadImage(bytes) == Loaded(Image(rev.v, rows.v, diffs.v, spaces.v));
      }
    }
  }

  /** Insert the pairs one after another. */
  method Collect<K(==), V>(xs: seq<(K, V)>) returns (m: map<K, V>)
    ensures m == MapOf(xs)
  {
    m := map[];
    for i := 0 to |xs|
      invariant m == MapOf(xs[..i])
    {
      assert xs[..i + 1][..i] == xs[..i];
      m := m[xs[i].0 := xs[i].1];
    }
    assert xs[..|xs|] == xs;
  }
}
