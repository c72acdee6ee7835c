/** Base64 and base64url (`util.rs`): unpadded encoding, decoding that tolerates
    up to two trailing `=`. */
module Base64 {
  import opened ByteStrings

  datatype Alphabet = Standard | UrlSafe

  datatype Decoded = Ok(data: Bytes) | Padding | BadByte | BadLength

  type Sextet = x: nat | x < 64

  const PAD: Byte := 61
  const INVALID: nat := 255

  /** Letters, digits, then the two symbols that depend on the alphabet. */
  function Symbol(a: Alphabet, i: Sextet): (c: Byte)
    ensures c < 128 && c != PAD
  {
    if i < 26 then 65 + i
    else if i < 52 then 71 + i
    else if i < 62 then i - 4
    else if i == 62 then (if a.Standard? then 43 else 45)
    else (if a.Standard? then 47 else 95)
  }

  /** The sextet a byte stands for. */
  function Value(a: Alphabet, c: Byte): (v: nat)
    ensures v == INVALID || (v < 64 && Symbol(a, v) == c)
    ensures c == PAD || c >= 128 ==> v == INVALID
  {
    if 65 <= c <= 90 then c - 65
    else if 97 <= c <= 122 then c - 71
    else if 48 <= c <= 57 then c + 4
    else if c == (if a.Standard? then 43 else 45) then 62
    else if c == (if a.Standard? then 47 else 95) then 63
    else INVALID
  }

  lemma ValueOfSymbol(a: Alphabet, i: Sextet)
    ensures Value(a, Symbol(a, i)) == i
  {
  }

  // ---------- groups ----------

  function Word(b0: nat, b1: nat, b2: nat): nat {
    b0 * 0x1_0000 + b1 * 0x100 + b2
  }

  function Word6(v0: nat, v1: nat, v2: nat, v3: nat): nat {
    v0 * 0x4_0000 + v1 * 0x1000 + v2 * 64 + v3
  }

  /** The sextets of a chunk of one to three bytes. */
  function Split(chunk: Bytes): (r: seq<Sextet>)
    requires 1 <= |chunk| <= 3
    ensures |r| == |chunk| + 1
  {
    var n := Word(chunk[0], if |chunk| > 1 then chunk[1] else 0, if |chunk| > 2 then chunk[2] else 0);
    if |chunk| == 1 then [n / 0x4_0000, n / 0x1000 % 64]
    else if |chunk| == 2 then [n / 0x4_0000, n / 0x1000 % 64, n / 64 % 64]
    else [n / 0x4_0000, n / 0x1000 % 64, n / 64 % 64, n % 64]
  }

  /** The bytes of a chunk of two to four sextets; a lone sextet gives one byte. */
  function Merge(chunk: seq<Sextet>): (r: Bytes)
    requires 1 <= |chunk| <= 4
    ensures |r| == if |chunk| == 1 then 1 else |chunk| - 1
  {
    var n := Word6(chunk[0], if |chunk| > 1 then chunk[1] else 0, if |chunk| > 2 then chunk[2] else 0, if |chunk| > 3 then chunk[3] else 0);
    if |chunk| <= 2 then [n / 0x1_0000]
    else if |chunk| == 3 then [n / 0x1_0000, n / 0x100 % 0x100]
    else [n / 0x1_0000, n / 0x100 % 0x100, n % 0x100]
  }

  lemma WordSplits(n: nat)
    requires n < 0x100_0000
    ensures Word6(n / 0x4_0000, n / 0x1000 % 64, n / 64 % 64, n % 64) == n
    ensures Word(n / 0x1_0000, n / 0x100 % 0x100, n % 0x100) == n
  {
    var q := n / 64;
    var p := q / 64;
    assert n == 64 * q + n % 64 && q == 64 * p + q % 64;
    assert n / 0x1000 == p && n / 0x4_0000 == p / 64;
    var u := n / 0x100;
    assert n == 0x100 * u + n % 0x100 && n / 0x1_0000 == u / 0x100;
  }

  lemma WordParts(b0: Byte, b1: Byte, b2: Byte)
    ensures var n := Word(b0, b1, b2); n < 0x100_0000 && n / 0x1_0000 == b0 && n / 0x100 % 0x100 == b1 && n % 0x100 == b2
  {
    var n := Word(b0, b1, b2);
    assert n / 0x100 == b0 as nat * 0x100 + b1;
  }

  lemma Word6Parts(v0: Sextet, v1: Sextet, v2: Sextet, v3: Sextet)
    ensures
      var n := Word6(v0, v1, v2, v3);
      n < 0x100_0000 && n / 0x4_0000 == v0 && n / 0x1000 % 64 == v1 && n / 64 % 64 == v2 && n % 64 == v3
  {
    var n := Word6(v0, v1, v2, v3);
    assert n / 64 == v0 * 0x1000 + v1 * 64 + v2;
    assert n / 0x1000 == v0 * 64 + v1;
  }

  lemma MergeOfSplit(chunk: Bytes)
    requires 1 <= |chunk| <= 3
    ensures Merge(Split(chunk)) == chunk
  {
    hide Word, Word6;
    var b1: Byte := if |chunk| > 1 then chunk[1] else 0;
    var b2: Byte := if |chunk| > 2 then chunk[2] else 0;
    var n := Word(chunk[0], b1, b2);
    WordParts(chunk[0], b1, b2);
    WordSplits(n);
    ShortWord(chunk[0], b1, b2);
  }

  lemma ShortWord(b0: Byte, b1: Byte, b2: Byte)
    ensures b2 == 0 ==> Word(b0, b1, b2) % 64 == 0
    ensures b1 == b2 == 0 ==> Word(b0, b1, b2) / 64 % 64 == 0
  {
  }

  /** The bits of the last sextet that fall outside the last byte are zero. */
  predicate TailClear(v: seq<Sextet>) {
    && (|v| % 4 == 2 ==> v[|v| - 1] % 16 == 0)
    && (|v| % 4 == 3 ==> v[|v| - 1] % 4 == 0)
  }

  lemma SplitOfMerge(chunk: seq<Sextet>)
    requires 2 <= |chunk| <= 4
    ensures Split(Merge(chunk)) == chunk <==> TailClear(chunk)
  {
    hide Word, Word6;
    var v2: Sextet := if |chunk| > 2 then chunk[2] else 0;
    var v3: Sextet := if |chunk| > 3 then chunk[3] else 0;
    Word6Parts(chunk[0], chunk[1], v2, v3);
    WordSplits(Word6(chunk[0], chunk[1], v2, v3));
    if |chunk| == 3 { MergeThree(chunk[0], chunk[1], v2); }
    if |chunk| == 2 { MergeTwo(chunk[0], chunk[1]); }
  }

  lemma MergeThree(v0: Sextet, v1: Sextet, v2: Sextet)
    ensures
      var n := Word6(v0, v1, v2, 0);
      var m := Word(n / 0x1_0000, n / 0x100 % 0x100, 0);
      m / 0x4_0000 == v0 && m / 0x1000 % 64 == v1 && m / 64 % 64 == v2 / 4 * 4
  {
    hide Word, Word6;
    ThreeBytes(v0, v1, v2);
    ThreeWord(v0, v1, v2);
    Word6Parts(v0, v1, v2 / 4 * 4, 0);
  }

  lemma ThreeBytes(v0: Sextet, v1: Sextet, v2: Sextet)
    ensures Word6(v0, v1, v2, 0) / 0x1_0000 == v0 * 4 + v1 / 16
    ensures Word6(v0, v1, v2, 0) / 0x100 % 0x100 == v1 % 16 * 16 + v2 / 4
  {
    var n := Word6(v0, v1, v2, 0);
    var u := n / 0x100;
    assert u == v0 * 0x400 + v1 * 16 + v2 / 4;
    assert n == u * 0x100 + n % 0x100;
    assert n / 0x1_0000 == u / 0x100;
    assert v1 == v1 / 16 * 16 + v1 % 16;
    assert u == (v0 * 4 + v1 / 16) * 0x100 + (v1 % 16 * 16 + v2 / 4);
  }

  lemma ThreeWord(v0: Sextet, v1: Sextet, v2: Sextet)
    ensures Word(v0 * 4 + v1 / 16, v1 % 16 * 16 + v2 / 4, 0) == Word6(v0, v1, v2 / 4 * 4, 0)
  {
  }

  lemma MergeTwo(v0: Sextet, v1: Sextet)
    ensures
      var m := Word(Word6(v0, v1, 0, 0) / 0x1_0000, 0, 0);
      m / 0x4_0000 == v0 && m / 0x1000 % 64 == v1 / 16 * 16
  {
    assert Word6(v0, v1, 0, 0) / 0x1_0000 == v0 * 4 + v1 / 16;
    Word6Parts(v0, v1 / 16 * 16, 0, 0);
  }

  // ---------- whole texts ----------

  function Sextets(data: Bytes): seq<Sextet> {
    if data == [] then []
    else if |data| <= 3 then Split(data)
    else Split(data[..3]) + Sextets(data[3..])
  }

  function Octets(v: seq<Sextet>): Bytes {
    if v == [] then []
    else if |v| <= 4 then Merge(v)
    else Merge(v[..4]) + Octets(v[4..])
  }

  function Spell(a: Alphabet, v: seq<Sextet>): (r: Bytes)
    ensures |r| == |v|
    ensures forall i | 0 <= i < |v| :: r[i] == Symbol(a, v[i])
  {
    if v == [] then [] else Spell(a, v[..|v| - 1]) + [Symbol(a, v[|v| - 1])]
  }

  function Encode(a: Alphabet, data: Bytes): Bytes {
    Spell(a, Sextets(data))
  }

  /** The text without up to `n` trailing pads. */
  function Strip(s: Bytes, n: nat): Bytes {
    if n > 0 && s != [] && s[|s| - 1] == PAD then Strip(s[..|s| - 1], n - 1) else s
  }

  predicate Spelled(a: Alphabet, s: Bytes) {
    forall i | 0 <= i < |s| :: Value(a, s[i]) != INVALID
  }

  function Read(a: Alphabet, s: Bytes): (v: seq<Sextet>)
    requires Spelled(a, s)
    ensures |v| == |s|
    ensures forall i | 0 <= i < |s| :: v[i] == Value(a, s[i])
  {
    if s == [] then [] else Read(a, s[..|s| - 1]) + [Value(a, s[|s| - 1])]
  }

  function Decode(a: Alphabet, s: Bytes): Decoded {
    var src := Strip(s, 2);
    if PAD in src then Padding
    else if !Spelled(a, src) then BadByte
    else if |src| % 4 == 1 then BadLength
    else Ok(Octets(Read(a, src)))
  }

  // ---------- laws ----------

  lemma {:induction false} SextetsLength(data: Bytes)
    ensures |Sextets(data)| == |data| / 3 * 4 + (if |data| % 3 == 0 then 0 else |data| % 3 + 1)
  {
    hide Split;
    if |data| > 3 {
      SextetsLength(data[3..]);
      assert |data| / 3 == (|data| - 3) / 3 + 1 && |data| % 3 == (|data| - 3) % 3;
    }
  }

  lemma {:induction false} OctetsOfSextets(data: Bytes)
    ensures Octets(Sextets(data)) == data
  {
    hide Split, Merge;
    if 1 <= |data| <= 3 {
      MergeOfSplit(data);
    } else if data != [] {
      MergeOfSplit(data[..3]);
      OctetsOfSextets(data[3..]);
      var v := Sextets(data);
      SextetsLength(data[3..]);
      assert v[..4] == Split(data[..3]) && v[4..] == Sextets(data[3..]);
      assert data == data[..3] + data[3..];
    }
  }

  lemma {:induction false} SextetsOfOctets(v: seq<Sextet>)
    requires |v| % 4 != 1
    ensures Sextets(Octets(v)) == v <==> TailClear(v)
  {
    hide Split, Merge, TailClear;
    if 1 <= |v| <= 4 {
      SplitOfMerge(v);
    } else if v == [] {
      TailNone();
    } else {
      SextetsOfOctets(v[4..]);
      FirstGroup(v);
      TailLater(v);
      assert v == v[..4] + v[4..];
    }
  }

  lemma TailNone()
    ensures TailClear([])
  {
  }

  lemma TailLater(v: seq<Sextet>)
    requires |v| > 4
    ensures TailClear(v) <==> TailClear(v[4..])
  {
  }

  lemma FirstGroup(v: seq<Sextet>)
    requires |v| > 4
    ensures Sextets(Octets(v)) == v[..4] + Sextets(Octets(v[4..]))
  {
    hide Split, Merge;
    SplitOfMerge(v[..4]);
    var d := Octets(v);
    OctetsNonEmpty(v[4..]);
    assert d[..3] == Merge(v[..4]) && d[3..] == Octets(v[4..]);
  }

  lemma OctetsNonEmpty(v: seq<Sextet>)
    requires v != []
    ensures Octets(v) != []
  {
  }

  lemma ReadOfSpell(a: Alphabet, v: seq<Sextet>)
    ensures Spelled(a, Spell(a, v)) && Read(a, Spell(a, v)) == v
    ensures PAD !in Spell(a, v)
  {
    forall i | 0 <= i < |v|
      ensures Value(a, Spell(a, v)[i]) == v[i]
    {
      ValueOfSymbol(a, v[i]);
    }
  }

  lemma SpellOfRead(a: Alphabet, s: Bytes)
    requires Spelled(a, s)
    ensures Spell(a, Read(a, s)) == s
  {
  }

  function Pads(n: nat): (r: Bytes)
    ensures |r| == n && forall i | 0 <= i < n :: r[i] == PAD
  {
    if n == 0 then [] else [PAD] + Pads(n - 1)
  }

  lemma {:induction false} StripPads(s: Bytes, n: nat, k: nat)
    requires PAD !in s && k <= n
    ensures Strip(s + Pads(k), n) == s
  {
    if k == 0 {
      assert s + Pads(0) == s;
    } else {
      assert (s + Pads(k))[..|s| + k - 1] == s + Pads(k - 1);
      StripPads(s, n - 1, k - 1);
    }
  }

  /** Every byte string survives, in either alphabet, with up to two pads added. */
  lemma RoundTrip(a: Alphabet, data: Bytes, pads: nat)
    requires pads <= 2
    ensures Decode(a, Encode(a, data) + Pads(pads)) == Ok(data)
    ensures Decode(a, Encode(a, data)) == Ok(data)
  {
    hide Octets, Sextets, Spell;
    var text := Spell(a, Sextets(data));
    ReadOfSpell(a, Sextets(data));
    StripPads(text, 2, pads);
    StripPads(text, 2, 0);
    assert text + Pads(0) == text;
    DecodeStripped(a, data, text);
    DecodeStripped(a, data, text + Pads(pads));
  }

  lemma DecodeStripped(a: Alphabet, data: Bytes, s: Bytes)
    requires Strip(s, 2) == Encode(a, data)
    ensures Decode(a, s) == Ok(data)
  {
    hide Octets, Sextets, Strip;
    ReadOfSpell(a, Sextets(data));
    SextetsLength(data);
    OctetsOfSextets(data);
  }

  /** A decodable text is the encoding of what it decodes to, pads aside,
      exactly when its unused trailing bits are zero. */
  lemma Reencode(a: Alphabet, s: Bytes)
    requires Decode(a, s).Ok?
    ensures Encode(a, Decode(a, s).data) == Strip(s, 2) <==> TailClear(Read(a, Strip(s, 2)))
  {
    hide Octets, Sextets, TailClear;
    var src := Strip(s, 2);
    var v := Read(a, src);
    SextetsOfOctets(v);
    SpellOfRead(a, src);
    if Spell(a, Sextets(Octets(v))) == src { ReadOfSpell(a, Sextets(Octets(v))); }
  }

  /** Exact length of an encoding, never more than the padded length. */
  lemma EncodedLength(a: Alphabet, data: Bytes)
    ensures |Encode(a, data)| == |data| / 3 * 4 + (if |data| % 3 == 0 then 0 else |data| % 3 + 1)
    ensures |Encode(a, data)| <= (|data| + 2) / 3 * 4
  {
    hide Sextets;
    SextetsLength(data);
    assert |data| == |data| / 3 * 3 + |data| % 3;
  }

  // ---------- the loops ----------

  lemma SpellConcat(a: Alphabet, u: seq<Sextet>, v: seq<Sextet>)
    ensures Spell(a, u + v) == Spell(a, u) + Spell(a, v)
  {
  }

  method EncodeImpl(data: Bytes, a: Alphabet) returns (out: Bytes)
    ensures out == Encode(a, data)
  {
    hide Split, Symbol, Encode, Spell;
    out := [];
    var i := 0;
    assert data[0..] == data;
    while i < |data|
      invariant 0 <= i <= |data|
      invariant out + Encode(a, data[i..]) == Encode(a, data)
    {
      var chunk := if i + 3 <= |data| then data[i..i + 3] else data[i..];
      var group := EncodeGroup(chunk, a);
      EncodeStep(a, data[i..], chunk);
      Assoc(out, group, Encode(a, data[i..][|chunk|..]));
      out := out + group;
      assert data[i..][|chunk|..] == data[i + |chunk|..];
      i := i + |chunk|;
    }
    EncodeEmpty(a);
    assert data[i..] == [] && out + [] == out;
  }

  lemma EncodeEmpty(a: Alphabet)
    ensures Encode(a, []) == []
  {
  }

  lemma EncodeStep(a: Alphabet, data: Bytes, chunk: Bytes)
    requires data != [] && chunk == if |data| >= 3 then data[..3] else data
    ensures Encode(a, data) == Spell(a, Split(chunk)) + Encode(a, data[|chunk|..])
  {
    hide Split;
    SextetsStep(data, chunk);
    SpellConcat(a, Split(chunk), Sextets(data[|chunk|..]));
  }

  method EncodeGroup(chunk: Bytes, a: Alphabet) returns (out: Bytes)
    requires 1 <= |chunk| <= 3
    ensures out == Spell(a, Split(chunk))
  {
    var b1 := if |chunk| > 1 then chunk[1] else 0;
    var b2 := if |chunk| > 2 then chunk[2] else 0;
    var n := Word(chunk[0], b1, b2);
    out := [Symbol(a, n / 0x4_0000), Symbol(a, n / 0x1000 % 64)];
    if |chunk| > 1 { out := out + [Symbol(a, n / 64 % 64)]; }
    if |chunk| > 2 { out := out + [Symbol(a, n % 64)]; }
  }

  lemma SextetsStep(data: Bytes, chunk: Bytes)
    requires data != [] && chunk == if |data| >= 3 then data[..3] else data
    ensures Sextets(data) == Split(chunk) + Sextets(data[|chunk|..])
  {
    if |data| <= 3 { assert chunk == data; }
  }

  lemma OctetsStep(v: seq<Sextet>, chunk: seq<Sextet>)
    requires v != [] && chunk == if |v| >= 4 then v[..4] else v
    ensures Octets(v) == Merge(chunk) + Octets(v[|chunk|..])
  {
    if |v| <= 4 { assert chunk == v; }
  }

  method DecodeImpl(s: Bytes, a: Alphabet) returns (r: Decoded)
    ensures r == Decode(a, s)
  {
    var rev := RevTable(a);
    var src := s;
    var pad := 0;
    while pad < 2 && src != [] && src[|src| - 1] == PAD
      invariant pad <= 2
      invariant Strip(src, 2 - pad) == Strip(s, 2)
    {
      src := src[..|src| - 1];
      pad := pad + 1;
    }
    if PAD in src { return Padding; }
    var valid: seq<Sextet> := [];
    for i := 0 to |src|
      invariant |valid| == i && Spelled(a, src[..i])
      invariant forall k | 0 <= k < i :: valid[k] == Value(a, src[k])
    {
      if src[i] >= 128 || rev[src[i]] == INVALID { return BadByte; }
      valid := valid + [rev[src[i]]];
    }
    assert src[..|src|] == src && valid == Read(a, src);
    if |valid| % 4 == 1 { return BadLength; }
    var out := DecodeChunks(valid);
    return Ok(out);
  }

  method RevTable(a: Alphabet) returns (rev: array<nat>)
    ensures rev.Length == 128 && forall c: Byte | c < 128 :: rev[c] == Value(a, c)
  {
    rev := new nat[128](_ => INVALID);
    for i := 0 to 64
      invariant forall c: Byte | c < 128 :: rev[c] == if Value(a, c) < i then Value(a, c) else INVALID
    {
      ValueOfSymbol(a, i);
      rev[Symbol(a, i)] := i;
    }
  }

  method DecodeChunks(valid: seq<Sextet>) returns (out: Bytes)
    ensures out == Octets(valid)
  {
    hide Merge, Octets;
    out := [];
    var i := 0;
    assert valid[0..] == valid;
    while i < |valid|
      invariant 0 <= i <= |valid|
      invariant out + Octets(valid[i..]) == Octets(valid)
    {
      var chunk := if i + 4 <= |valid| then valid[i..i + 4] else valid[i..];
      OctetsStep(valid[i..], chunk);
      var group := DecodeGroup(chunk);
      Assoc(out, group, Octets(valid[i..][|chunk|..]));
      out := out + group;
      assert valid[i..][|chunk|..] == valid[i + |chunk|..];
      i := i + |chunk|;
    }
    OctetsNone();
    assert valid[i..] == [] && out + [] == out;
  }

  lemma OctetsNone()
    ensures Octets([]) == []
  {
  }

  /** A sextet shifted to its place in the 24-bit word. */
  function Term(v: nat, i: nat): nat {
    if i == 0 then v * 0x4_0000 else if i == 1 then v * 0x1000 else if i == 2 then v * 64 else v
  }

  function Partial(chunk: seq<Sextet>, i: nat): nat
    requires i <= |chunk|
  {
    if i == 0 then 0 else Partial(chunk, i - 1) + Term(chunk[i - 1], i - 1)
  }

  lemma PartialWord(chunk: seq<Sextet>)
    requires 1 <= |chunk| <= 4
    ensures
      var n := Partial(chunk, |chunk|);
      && n < 0x100_0000
      && n == Word6(chunk[0], if |chunk| > 1 then chunk[1] else 0, if |chunk| > 2 then chunk[2] else 0, if |chunk| > 3 then chunk[3] else 0)
  {
    assert Partial(chunk, 1) == Term(chunk[0], 0);
    if |chunk| > 1 { assert Partial(chunk, 2) == Partial(chunk, 1) + Term(chunk[1], 1); }
    if |chunk| > 2 { assert Partial(chunk, 3) == Partial(chunk, 2) + Term(chunk[2], 2); }
    if |chunk| > 3 { assert Partial(chunk, 4) == Partial(chunk, 3) + Term(chunk[3], 3); }
  }

  method DecodeGroup(chunk: seq<Sextet>) returns (out: Bytes)
    requires 1 <= |chunk| <= 4
    ensures out == Merge(chunk)
  {
    hide Word6, Term;
    var n: nat := 0;
    for i := 0 to |chunk|
      invariant n == Partial(chunk, i)
    {
      n := n + Term(chunk[i], i);
    }
    PartialWord(chunk);
    out := [n / 0x1_0000];
    if |chunk| >= 3 { out := out + [n / 0x100 % 0x100]; }
    if |chunk| == 4 { out := out + [n % 0x100]; }
  }
}
