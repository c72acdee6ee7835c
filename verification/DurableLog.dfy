/** The live log object: append, windowed reads through the prefix sums of the
    segment lengths, and recovery of segment files after a crash. */
module DurableLog {
  import opened ByteStrings
  import opened Records
  import opened SegmentedLog

  function Sum(lens: seq<nat>): nat {
    if lens == [] then 0 else Sum(lens[..|lens| - 1]) + lens[|lens| - 1]
  }

  /** Start offset of each record in the concatenated byte stream. */
  function Offsets(recs: seq<Bytes>): (o: seq<nat>)
    ensures |o| == |recs|
  {
    if recs == [] then [] else var init := recs[..|recs| - 1]; Offsets(init) + [|Flat(init)|]
  }

  /** Records `lo + 1 ..= hi` with their sequence numbers. */
  function Numbered(recs: seq<Bytes>, lo: nat, hi: nat): (r: seq<(nat, Bytes)>)
    requires hi <= |recs|
  {
    if lo >= hi then [] else Numbered(recs, lo, hi - 1) + [(hi, recs[hi - 1])]
  }

  /** What reading from sequence number `from` promises: at most `max` records
      (0 = no bound), nothing when `from` is not a sequence number. */
  function Window(recs: seq<Bytes>, from: nat, max: nat): seq<(nat, Bytes)> {
    if from == 0 || from > |recs| then []
    else if max == 0 || from - 1 + max > |recs| then Numbered(recs, from - 1, |recs|)
    else Numbered(recs, from - 1, from - 1 + max)
  }

  lemma {:induction false} OffsetAt(recs: seq<Bytes>, i: nat)
    requires i < |recs|
    ensures Offsets(recs)[i] == |Flat(recs[..i])|
  {
    hide Flat;
    var n := |recs| - 1;
    if i < n {
      OffsetAt(recs[..n], i);
      assert recs[..n][..i] == recs[..i];
    }
  }

  /** Segment files and their cached lengths show the grouped records. */
  ghost predicate Layout(files: seq<Bytes>, lens: seq<nat>, groups: seq<seq<Bytes>>) {
    && |files| == |lens| == |groups|
    && (forall i | 0 <= i < |groups| :: files[i] == Flat(groups[i]) && lens[i] == |files[i]|)
  }

  lemma {:induction false} LayoutSum(files: seq<Bytes>, lens: seq<nat>, groups: seq<seq<Bytes>>)
    requires Layout(files, lens, groups)
    ensures Sum(lens) == |Flat(Join(groups))|
  {
    hide Flat;
    var n := |lens| - 1;
    if lens == [] {
      FlatEmpty([]);
    } else {
      LayoutSum(files[..n], lens[..n], groups[..n]);
      JoinLast(groups);
      FlatConcat(Join(groups[..n]), groups[n]);
    }
  }

  lemma NonEmptyPrefix(a: seq<Bytes>, b: seq<Bytes>)
    requires NonEmpty(a + b)
    ensures NonEmpty(a)
  {
    assert forall i | 0 <= i < |a| :: a[i] == (a + b)[i];
  }

  lemma JoinNone()
    ensures Join([]) == []
  {
  }

  /** No record straddles segments: record `i` lies whole inside one file, at
      its stream offset minus the lengths of the files before. */
  lemma {:induction false} Locate(files: seq<Bytes>, lens: seq<nat>, groups: seq<seq<Bytes>>, i: nat) returns (g: nat)
    requires Layout(files, lens, groups) && i < |Join(groups)|
    requires NonEmpty(Join(groups))
    ensures g < |files|
    ensures var off := |Flat(Join(groups)[..i])|;
      && Sum(lens[..g]) <= off < Sum(lens[..g + 1])
      && At(files[g], off - Sum(lens[..g]), Join(groups)[i])
  {
    hide Flat, Join, At;
    var n := |groups| - 1;
    if groups == [] { JoinNone(); }
    var init := Join(groups[..n]);
    JoinLast(groups);
    LayoutSum(files[..n], lens[..n], groups[..n]);
    if i < |init| {
      assert Join(groups)[..i] == init[..i];
      NonEmptyPrefix(init, groups[n]);
      g := Locate(files[..n], lens[..n], groups[..n], i);
      assert lens[..n][..g] == lens[..g] && lens[..n][..g + 1] == lens[..g + 1];
    } else {
      g := n;
      var j := i - |init|;
      assert Join(groups)[..i] == init + groups[n][..j];
      FlatConcat(init, groups[n][..j]);
      FlatAt(groups[n], j);
      assert lens[..n + 1] == lens;
      AtFits(files[n], |Flat(groups[n][..j])|, groups[n][j]);
      assert |Join(groups)[i]| > 0;
    }
  }

  lemma {:induction false} SumMonotone(lens: seq<nat>, i: nat, j: nat)
    requires i <= j <= |lens|
    ensures Sum(lens[..i]) <= Sum(lens[..j])
    decreases j
  {
    if i < j {
      SumMonotone(lens, i, j - 1);
      assert lens[..j][..j - 1] == lens[..j - 1];
    }
  }

  lemma OffsetsSnoc(recs: seq<Bytes>, b: Bytes)
    ensures Offsets(recs + [b]) == Offsets(recs) + [|Flat(recs)|]
  {
    hide Flat;
    assert (recs + [b])[..|recs|] == recs;
  }

  /** The cached values after one more record. */
  lemma AppendDerived(c: Crypto, recs: seq<Bytes>, b: Bytes)
    requires AllFramed(recs) && Framed(b)
    ensures |b| >= HEADER_LEN && AllFramed(recs + [b])
    ensures HeadAfter(c, ZERO_ID, recs + [b]) == RecordHash(c, b[9..41], b)
    ensures Offsets(recs + [b]) == Offsets(recs) + [|Flat(recs)|]
  {
    hide Flat;
    OffsetsSnoc(recs, b);
  }

  lemma AppendLayout(files: seq<Bytes>, lens: seq<nat>, groups: seq<seq<Bytes>>, b: Bytes, rolled: bool)
    requires groups != [] && Layout(files, lens, groups)
    requires var n := |lens| - 1; rolled == (lens[n] > 0 && lens[n] + |b| > SEGMENT_BYTES)
    ensures var fs := if rolled then files + [[]] else files;
      var ls := if rolled then lens + [0] else lens;
      var n := |ls| - 1;
      && Sum(ls) == |Flat(Join(groups))|
      && Layout(fs[n := fs[n] + b], ls[n := ls[n] + |b|], Place(groups, b))
  {
    hide Flat;
    LayoutSum(files, lens, groups);
    var n := |lens| - 1;
    FlatSnoc(groups[n], b);
    FlatSnoc([], b);
    FlatEmpty([]);
    assert [] + [b] == [b];
    if rolled { assert (lens + [0])[..n + 1] == lens; }
  }

  lemma LayoutLengths(files: seq<Bytes>, lens: seq<nat>, groups: seq<seq<Bytes>>)
    requires Layout(files, lens, groups)
    ensures |files| == |lens| == |groups|
  {
  }

  lemma FramedHeader(b: Bytes)
    requires Framed(b)
    ensures |b| >= HEADER_LEN
  {
  }

  lemma AllFramedNonEmpty(recs: seq<Bytes>)
    requires AllFramed(recs)
    ensures NonEmpty(recs)
  {
  }

  /** A framed record at offset `o` is recovered by its own length field. */
  lemma FramedSlices(f: Bytes, o: nat, rec: Bytes)
    requires At(f, o, rec) && Framed(rec)
    ensures o + HEADER_LEN <= |f|
    ensures var declared := ReadU32(f[o..o + HEADER_LEN][1..5]);
      && o + HEADER_LEN + declared <= |f|
      && f[o..o + HEADER_LEN] + f[o + HEADER_LEN..o + HEADER_LEN + declared] == rec
  {
    assert rec == f[o..o + |rec|];
    assert f[o..o + HEADER_LEN] == rec[..HEADER_LEN];
    assert rec[..HEADER_LEN][1..5] == rec[1..5];
  }

  class Log {
    const c: Crypto
    var files: seq<Bytes>
    var segLens: seq<nat>
    var curLen: nat
    var seqNo: nat
    var head: Id32
    var offsets: seq<nat>
    ghost var groups: seq<seq<Bytes>>

    ghost function Recs(): seq<Bytes>
      reads this
    {
      Join(groups)
    }

    /** All cached fields are determined by the appended records. */
    ghost predicate Valid()
      reads this
    {
      && groups != []
      && Layout(files, segLens, groups)
      && curLen == segLens[|segLens| - 1]
      && AllFramed(Recs())
      && seqNo == |Recs()|
      && head == HeadAfter(c, ZERO_ID, Recs())
      && offsets == Offsets(Recs())
    }

    /** A log over recovered segment content; `New` is the empty log. */
    constructor Show(c: Crypto, ghost groups: seq<seq<Bytes>>, files: seq<Bytes>, lens: seq<nat>, offsets: seq<nat>, head: Id32)
      requires groups != [] && Layout(files, lens, groups)
      requires AllFramed(Join(groups))
      requires offsets == Offsets(Join(groups)) && head == HeadAfter(c, ZERO_ID, Join(groups))
      ensures Valid() && this.groups == groups && this.c == c && this.files == files
    {
      this.c := c;
      this.groups := groups;
      this.files := files;
      this.segLens := lens;
      this.curLen := lens[|lens| - 1];
      this.seqNo := |offsets|;
      this.head := head;
      this.offsets := offsets;
    }

    method Append(bytes: Bytes) returns (seqOut: nat)
      requires Valid() && Framed(bytes)
      modifies this
      ensures Valid()
      ensures groups == Place(old(groups), bytes)
      ensures Recs() == old(Recs()) + [bytes] && seqOut == |Recs()|
    {
      hide Flat, Framed, Offsets, Sum, Join, Place, Layout, AllFramed, HeadAfter;
      PlaceJoin(groups, bytes);
      AppendDerived(c, Recs(), bytes);
      var rolled := curLen > 0 && curLen + |bytes| > SEGMENT_BYTES;
      LayoutLengths(files, segLens, groups);
      AppendLayout(files, segLens, groups, bytes, rolled);
      if rolled {
        files := files + [[]];
        curLen := 0;
        segLens := segLens + [0];
      }
      var off := Sum(segLens);
      var n := |files| - 1;
      files := files[n := files[n] + bytes];
      curLen := curLen + |bytes|;
      segLens := segLens[n := curLen];
      seqNo := seqNo + 1;
      offsets := offsets + [off];
      head := RecordHash(c, bytes[9..41], bytes);
      groups := Place(groups, bytes);
      seqOut := seqNo;
    }

    /** The segment that holds stream offset `off`, and that segment's start. */
    method SegmentAt(off: nat) returns (res: Outcome<(nat, nat)>)
      requires Valid()
      ensures res.Ok? <==> off < Sum(segLens)
      ensures res.Ok? ==> var (i, start) := res.value;
        i < |segLens| && start == Sum(segLens[..i]) <= off < Sum(segLens[..i + 1])
      ensures !res.Trap?
    {
      hide Flat, Layout;
      var acc := 0;
      for i := 0 to |segLens|
        invariant acc == Sum(segLens[..i]) <= off
      {
        assert segLens[..i + 1][..i] == segLens[..i];
        if off < acc + segLens[i] {
          SumMonotone(segLens, i + 1, |segLens|);
          assert segLens[..|segLens|] == segLens;
          return Ok((i, acc));
        }
        acc := acc + segLens[i];
      }
      assert segLens[..|segLens|] == segLens;
      return Corrupt;
    }

    /** Read one record: its header first, then as many bytes as it declares. */
    method ReadAt(idx: nat) returns (bytes: Bytes)
      requires Valid() && idx < |offsets|
      ensures bytes == Recs()[idx]
    {
      hide Flat, Layout, Sum, Join, Framed, Offsets;
      AllFramedNonEmpty(Recs());
      LayoutLengths(files, segLens, groups);
      OffsetAt(Recs(), idx);
      ghost var g := Locate(files, segLens, groups, idx);
      var off := offsets[idx];
      SumMonotone(segLens, g + 1, |segLens|);
      assert segLens[..|segLens|] == segLens;
      var seg := SegmentAt(off);
      var (i, start) := seg.value;
      if i < g { SumMonotone(segLens, i + 1, g); }
      if g < i { SumMonotone(segLens, g + 1, i); }
      var f, o := files[i], off - start;
      FramedSlices(f, o, Recs()[idx]);
      var hdr := f[o..o + HEADER_LEN];
      var declared := ReadU32(hdr[1..5]);
      bytes := hdr + f[o + HEADER_LEN..o + HEADER_LEN + declared];
    }

    method ReadRecords(from: nat, max: nat) returns (out: seq<(nat, Bytes)>)
      requires Valid()
      ensures out == Window(Recs(), from, max)
    {
      hide Flat, Layout, Join, Offsets, Framed;
      out := [];
      if from == 0 || from > seqNo { return; }
      var start := from - 1;
      var end := if max == 0 || start + max > |offsets| then |offsets| else start + max;
      for idx := start to end
        invariant out == Numbered(Recs(), start, idx)
      {
        var bytes := ReadAt(idx);
        out := out + [(idx + 1, bytes)];
      }
    }
  }
}
