/** The query language front end (`query/mod.rs`): tokenizer and
    recursive-descent parser over bytes, a canonical printer, and the tokenizer
    object that walks the source with a cursor, line and column. */
module QueryParser {
  import opened ByteStrings
  import opened Records

  datatype Tok = Ident(name: Bytes) | Str(s: Bytes) | LParen | RParen | Comma

  datatype Arg = StrArg(s: Bytes) | CallArg(c: Call)

  datatype Call = Call(name: Bytes, args: seq<Arg>)

  /** A result and the cursor after it, or the cursor where parsing failed. */
  datatype Res<+T> = Got(value: T, pos: nat) | Bad(pos: nat) {
    predicate IsFailure() { Bad? }
    function PropagateFailure<U>(): Res<U>
      requires Bad?
    {
      Bad(pos)
    }
    function Extract(): (T, nat)
      requires Got?
    {
      (value, pos)
    }
  }

  const QUOTE: Byte := 34
  const BACKSLASH: Byte := 92
  const OPEN: Byte := 40
  const CLOSE: Byte := 41
  const COMMA: Byte := 44
  const NEWLINE: Byte := 10
  const TAB: Byte := 9
  const LOWER_N: Byte := 110
  const LOWER_T: Byte := 116

  predicate IsSpace(b: Byte) {
    b == 32 || b == 9 || b == 10 || b == 12 || b == 13
  }

  predicate IsAlpha(b: Byte) {
    65 <= b <= 90 || 97 <= b <= 122
  }

  predicate IsNameStart(b: Byte) {
    IsAlpha(b) || b == 95
  }

  predicate IsNameByte(b: Byte) {
    IsNameStart(b) || 48 <= b <= 57
  }

  // ---------- tokens ----------

  function SkipWs(src: Bytes, p: nat): (q: nat)
    ensures p <= q && (p <= |src| ==> q <= |src|)
    ensures q < |src| ==> !IsSpace(src[q])
    decreases |src| - p
  {
    if p < |src| && IsSpace(src[p]) then SkipWs(src, p + 1) else p
  }

  function NameEnd(src: Bytes, p: nat): (q: nat)
    ensures p <= q && (p <= |src| ==> q <= |src|)
    decreases |src| - p
  {
    if p < |src| && IsNameByte(src[p]) then NameEnd(src, p + 1) else p
  }

  function Unescape(b: Byte): Option<Byte> {
    if b == QUOTE || b == BACKSLASH then Some(b)
    else if b == LOWER_N then Some(NEWLINE)
    else if b == LOWER_T then Some(TAB)
    else None
  }

  /** The rest of a string literal, after its opening quote. */
  function ReadStr(src: Bytes, p: nat): (r: Res<Bytes>)
    ensures r.Got? ==> p < r.pos <= |src|
    ensures r.Bad? && p <= |src| ==> p <= r.pos <= |src|
    decreases |src| - p
  {
    if p >= |src| then Bad(p)
    else if src[p] == QUOTE then Got([], p + 1)
    else if src[p] == BACKSLASH then
      if p + 1 >= |src| then Bad(p + 1)
      else match Unescape(src[p + 1])
        case None => Bad(p + 2)
        case Some(b) => Cons(b, ReadStr(src, p + 2))
    else Cons(src[p], ReadStr(src, p + 1))
  }

  function Cons(b: Byte, r: Res<Bytes>): Res<Bytes> {
    match r
    case Got(s, q) => Got([b] + s, q)
    case Bad(q) => Bad(q)
  }

  function Token(src: Bytes, p: nat): (r: Res<Option<Tok>>)
    ensures r.Got? && r.value.Some? ==> p < r.pos <= |src|
    ensures p <= |src| ==> p <= r.pos <= |src|
  {
    var q := SkipWs(src, p);
    if q >= |src| then Got(None, q)
    else if src[q] == OPEN then Got(Some(LParen), q + 1)
    else if src[q] == CLOSE then Got(Some(RParen), q + 1)
    else if src[q] == COMMA then Got(Some(Comma), q + 1)
    else if src[q] == QUOTE then
      match ReadStr(src, q + 1)
      case Got(s, e) => Got(Some(Str(s)), e)
      case Bad(e) => Bad(e)
    else if IsNameStart(src[q]) then
      var e := NameEnd(src, q + 1);
      Got(Some(Ident(src[q..e])), e)
    else Bad(q)
  }

  // ---------- calls ----------

  /** Arguments up to the closing parenthesis; a comma may not come first. */
  function ParseArgs(src: Bytes, p: nat, none: bool): (r: Res<seq<Arg>>)
    ensures r.Got? ==> p < r.pos <= |src|
    ensures r.Bad? && p <= |src| ==> p <= r.pos <= |src|
    decreases |src| - p, 1
  {
    var t := Token(src, p);
    if t.Bad? then Bad(t.pos)
    else if t.value.None? then Bad(t.pos)
    else match t.value.value
      case RParen => Got([], t.pos)
      case Comma => if none then Bad(t.pos) else ParseArgs(src, t.pos, false)
      case Str(s) => Push(StrArg(s), ParseArgs(src, t.pos, false))
      case Ident(n) =>
        var c := ParseNamed(src, t.pos, n);
        if c.Bad? then Bad(c.pos) else Push(CallArg(c.value), ParseArgs(src, c.pos, false))
      case LParen => Bad(t.pos)
  }

  function Push(a: Arg, r: Res<seq<Arg>>): Res<seq<Arg>> {
    match r
    case Got(args, q) => Got([a] + args, q)
    case Bad(q) => Bad(q)
  }

  /** The parenthesised part of a call whose name was already read. */
  function ParseNamed(src: Bytes, p: nat, name: Bytes): (r: Res<Call>)
    ensures r.Got? ==> p < r.pos <= |src|
    ensures r.Bad? && p <= |src| ==> p <= r.pos <= |src|
    decreases |src| - p, 0
  {
    var t := Token(src, p);
    if t.Bad? then Bad(t.pos)
    else if t.value != Some(LParen) then Bad(t.pos)
    else match ParseArgs(src, t.pos, true)
      case Got(args, q) => Got(Call(name, args), q)
      case Bad(q) => Bad(q)
  }

  /** A whole statement: one call and nothing after it but white space. */
  function ParseStatement(src: Bytes): Res<Call> {
    var t := Token(src, 0);
    if t.Bad? then Bad(t.pos)
    else if t.value.None? || !t.value.value.Ident? then Bad(t.pos)
    else
      var c := ParseNamed(src, t.pos, t.value.value.name);
      if c.Bad? then c
      else
        var e := SkipWs(src, c.pos);
        if e < |src| then Bad(e) else Got(c.value, e)
  }

  // ---------- the canonical printer ----------

  predicate ValidName(n: Bytes) {
    n != [] && IsNameStart(n[0]) && forall i | 0 <= i < |n| :: IsNameByte(n[i])
  }

  predicate ValidCall(c: Call) {
    ValidName(c.name) && forall a | a in c.args :: a.CallArg? ==> ValidCall(a.c)
  }

  function Escape(s: Bytes): Bytes {
    if s == [] then []
    else
      (if s[0] == QUOTE || s[0] == BACKSLASH then [BACKSLASH, s[0]]
       else if s[0] == NEWLINE then [BACKSLASH, LOWER_N]
       else if s[0] == TAB then [BACKSLASH, LOWER_T]
       else [s[0]]) + Escape(s[1..])
  }

  function PrintStr(s: Bytes): Bytes {
    [QUOTE] + (Escape(s) + [QUOTE])
  }

  function PrintArg(a: Arg): Bytes
    decreases a
  {
    match a
    case StrArg(s) => PrintStr(s)
    case CallArg(c) => Print(c)
  }

  function Print(c: Call): Bytes
    decreases c
  {
    c.name + ([OPEN] + PrintArgs(c.args))
  }

  function PrintArgs(args: seq<Arg>): Bytes
    decreases args, 1
  {
    if args == [] then [CLOSE] else PrintArg(args[0]) + PrintRest(args[1..])
  }

  function PrintRest(args: seq<Arg>): Bytes
    decreases args, 0
  {
    if args == [] then [CLOSE] else [COMMA] + (PrintArg(args[0]) + PrintRest(args[1..]))
  }

  // ---------- parsing undoes printing ----------

  lemma {:induction false} EscapedReads(src: Bytes, p: nat, s: Bytes)
    requires At(src, p, Escape(s) + [QUOTE])
    ensures ReadStr(src, p) == Got(s, p + |Escape(s)| + 1)
    decreases |s|
  {
    hide At;
    if s == [] {
      assert Escape(s) + [QUOTE] == [QUOTE];
      AtByte(src, p, QUOTE);
    } else {
      var rest := Escape(s[1..]);
      var head := Escape([s[0]]);
      EscapeHead(s);
      Assoc(head, rest, [QUOTE]);
      AtSplit(src, p, head, rest + [QUOTE]);
      EscapedReads(src, p + |head|, s[1..]);
      HeadReads(src, p, s[0]);
      assert s == [s[0]] + s[1..];
    }
  }

  lemma EscapeHead(s: Bytes)
    requires s != []
    ensures Escape(s) == Escape([s[0]]) + Escape(s[1..])
  {
    assert [s[0]][1..] == [];
    assert Escape([s[0]][1..]) == [];
  }

  /** One printed character is read back as one character. */
  lemma HeadReads(src: Bytes, p: nat, b: Byte)
    requires At(src, p, Escape([b]))
    ensures ReadStr(src, p) == Cons(b, ReadStr(src, p + |Escape([b])|))
  {
    var e := Escape([b]);
    assert [b][1..] == [] && Escape([b][1..]) == [];
    assert src[p] == src[p..p + |e|][0] == e[0];
    if |e| == 2 { assert src[p + 1] == src[p..p + |e|][1] == e[1]; }
  }

  lemma {:induction false} NameReads(src: Bytes, p: nat, n: Bytes)
    requires At(src, p, n) && p + |n| < |src| && !IsNameByte(src[p + |n|])
    requires forall i | 0 <= i < |n| :: IsNameByte(n[i])
    ensures NameEnd(src, p) == p + |n|
    decreases |n|
  {
    if n != [] {
      assert src[p] == src[p..p + |n|][0] == n[0];
      assert src[p + 1..p + 1 + |n[1..]|] == src[p..p + |n|][1..] == n[1..];
      NameReads(src, p + 1, n[1..]);
    }
  }

  /** Tokens of printed text start right at the cursor. */
  lemma TokenAt(src: Bytes, p: nat, b: Byte)
    requires At(src, p, [b]) && !IsSpace(b)
    ensures SkipWs(src, p) == p < |src| && src[p] == b
  {
    AtByte(src, p, b);
  }

  lemma IdentToken(src: Bytes, p: nat, n: Bytes)
    requires ValidName(n) && At(src, p, n + [OPEN])
    ensures Token(src, p) == Got(Some(Ident(n)), p + |n|)
  {
    hide At, NameEnd;
    AtSplit(src, p, n, [OPEN]);
    AtByte(src, p + |n|, OPEN);
    assert n == [n[0]] + n[1..];
    AtSplit(src, p, [n[0]], n[1..]);
    AtByte(src, p, n[0]);
    AtFits(src, p, n);
    NameReads(src, p + 1, n[1..]);
  }

  lemma StrToken(src: Bytes, p: nat, s: Bytes)
    requires At(src, p, PrintStr(s))
    ensures Token(src, p) == Got(Some(Str(s)), p + |PrintStr(s)|)
  {
    hide At, Escape, ReadStr;
    AtSplit(src, p, [QUOTE], Escape(s) + [QUOTE]);
    TokenAt(src, p, QUOTE);
    EscapedReads(src, p + 1, s);
  }

  lemma {:induction false} CallParses(src: Bytes, p: nat, c: Call)
    requires ValidCall(c) && At(src, p, [OPEN] + PrintArgs(c.args))
    ensures ParseNamed(src, p, c.name) == Got(c, p + 1 + |PrintArgs(c.args)|)
    decreases c, 3
  {
    hide At, ParseArgs, PrintArgs;
    AtSplit(src, p, [OPEN], PrintArgs(c.args));
    TokenAt(src, p, OPEN);
    ArgsParse(src, p + 1, c.args);
  }

  lemma {:induction false} ArgsParse(src: Bytes, p: nat, args: seq<Arg>)
    requires (forall a | a in args :: a.CallArg? ==> ValidCall(a.c)) && At(src, p, PrintArgs(args))
    ensures ParseArgs(src, p, true) == Got(args, p + |PrintArgs(args)|)
    decreases args, 2
  {
    if args == [] {
      TokenAt(src, p, CLOSE);
    } else {
      ArgParses(src, p, args, true);
    }
  }

  lemma {:induction false} ArgToken(src: Bytes, p: nat, a: Arg)
    requires (a.CallArg? ==> ValidCall(a.c)) && At(src, p, PrintArg(a))
    ensures match a
      case StrArg(s) => Token(src, p) == Got(Some(Str(s)), p + |PrintArg(a)|)
      case CallArg(c) =>
        && Token(src, p) == Got(Some(Ident(c.name)), p + |c.name|)
        && ParseNamed(src, p + |c.name|, c.name) == Got(c, p + |PrintArg(a)|)
    decreases a, 0
  {
    hide At, PrintStr, Token, ParseNamed, PrintArgs, ValidName;
    if a.StrArg? {
      StrToken(src, p, a.s);
    } else {
      var n := a.c.name;
      AtSplit(src, p, n, [OPEN] + PrintArgs(a.c.args));
      NameThenOpen(src, p, a.c);
      IdentToken(src, p, n);
      CallParses(src, p + |n|, a.c);
    }
  }

  /** An argument and whatever printed arguments follow it. */
  lemma {:induction false} ArgParses(src: Bytes, p: nat, args: seq<Arg>, none: bool)
    requires args != [] && (forall a | a in args :: a.CallArg? ==> ValidCall(a.c))
    requires At(src, p, PrintArg(args[0]) + PrintRest(args[1..]))
    ensures ParseArgs(src, p, none) == Got(args, p + |PrintArg(args[0]) + PrintRest(args[1..])|)
    decreases args, 1
  {
    hide At, PrintArg, PrintRest, Token, ParseNamed, ValidCall;
    AtSplit(src, p, PrintArg(args[0]), PrintRest(args[1..]));
    ArgToken(src, p, args[0]);
    RestParses(src, p + |PrintArg(args[0])|, args[1..]);
    assert args == [args[0]] + args[1..];
  }

  lemma NameThenOpen(src: Bytes, p: nat, c: Call)
    requires At(src, p, Print(c))
    ensures At(src, p, c.name + [OPEN])
  {
    hide At;
    Assoc(c.name, [OPEN], PrintArgs(c.args));
    AtSplit(src, p, c.name + [OPEN], PrintArgs(c.args));
  }

  lemma {:induction false} RestParses(src: Bytes, p: nat, args: seq<Arg>)
    requires (forall a | a in args :: a.CallArg? ==> ValidCall(a.c)) && At(src, p, PrintRest(args))
    ensures ParseArgs(src, p, false) == Got(args, p + |PrintRest(args)|)
    decreases args, 2
  {
    hide At;
    if args == [] {
      TokenAt(src, p, CLOSE);
    } else {
      var tail := PrintArg(args[0]) + PrintRest(args[1..]);
      AtSplit(src, p, [COMMA], tail);
      TokenAt(src, p, COMMA);
      ArgParses(src, p + 1, args, false);
    }
  }

  /** For every call tree with valid names and any string contents, parsing the
      printed statement gives the tree back. */
  lemma PrintParses(c: Call)
    requires ValidCall(c)
    ensures ParseStatement(Print(c)) == Got(c, |Print(c)|)
  {
    hide ParseNamed, Token, PrintArgs, ValidName;
    var src := Print(c);
    assert At(src, 0, src);
    NameThenOpen(src, 0, c);
    IdentToken(src, 0, c.name);
    AtSplit(src, 0, c.name, [OPEN] + PrintArgs(c.args));
    CallParses(src, |c.name|, c);
  }

  // ---------- the tokenizer object ----------

  /** Line and column after the first `p` bytes. */
  function Place(src: Bytes, p: nat): (nat, nat)
    requires p <= |src|
  {
    if p == 0 then (1, 1)
    else
      var (line, col) := Place(src, p - 1);
      if src[p - 1] == NEWLINE then (line + 1, 1) else (line, col + 1)
  }

  datatype Parsed<+T> = Value(v: T) | Error(line: nat, col: nat)

  class Tokenizer {
    const src: Bytes
    var pos: nat
    var line: nat
    var col: nat

    ghost predicate Valid()
      reads this
    {
      pos <= |src| && (line, col) == Place(src, pos)
    }

    /** The outcome `out` and the cursor are those the specification gives. */
    ghost predicate Follows<T>(r: Res<T>, out: Parsed<T>)
      reads this
    {
      Valid() && pos == r.pos && out == (if r.Got? then Value(r.value) else Error(line, col))
    }

    constructor (src: Bytes)
      ensures Valid() && this.src == src && pos == 0
    {
      this.src, pos, line, col := src, 0, 1, 1;
    }

    method Bump() returns (b: Option<Byte>)
      requires Valid()
      modifies this
      ensures Valid()
      ensures old(pos) < |src| ==> b == Some(src[old(pos)]) && pos == old(pos) + 1
      ensures old(pos) == |src| ==> b == None && pos == old(pos)
    {
      if pos >= |src| { return None; }
      b := Some(src[pos]);
      pos := pos + 1;
      if b.value == NEWLINE {
        line, col := line + 1, 1;
      } else {
        col := col + 1;
      }
    }

    method SkipSpace()
      requires Valid()
      modifies this
      ensures Valid() && pos == SkipWs(src, old(pos))
    {
      hide Place;
      while pos < |src| && IsSpace(src[pos])
        invariant Valid() && SkipWs(src, pos) == SkipWs(src, old(pos))
        decreases |src| - pos
      {
        var _ := Bump();
      }
    }

    method ReadString() returns (out: Parsed<Bytes>)
      requires Valid()
      modifies this
      ensures Follows(ReadStr(src, old(pos)), out)
    {
      hide Place;
      var s: Bytes := [];
      ghost var all := ReadStr(src, pos);
      assert all.Got? ==> [] + all.value == all.value;
      while true
        invariant Valid() && all == Append(s, ReadStr(src, pos))
        decreases |src| - pos
      {
        var b := Bump();
        if b.None? { return Error(line, col); }
        if b.value == QUOTE {
          assert s + [] == s;
          return Value(s);
        }
        if b.value == BACKSLASH {
          var e := Bump();
          if e.None? { return Error(line, col); }
          var u := Unescape(e.value);
          if u.None? { return Error(line, col); }
          AppendStep(s, u.value, ReadStr(src, pos));
          s := s + [u.value];
        } else {
          AppendStep(s, b.value, ReadStr(src, pos));
          s := s + [b.value];
        }
      }
    }

    method ReadName() returns (name: Bytes)
      requires Valid()
      modifies this
      ensures Valid() && pos == NameEnd(src, old(pos)) && name == src[old(pos)..pos]
    {
      hide Place;
      name := [];
      while pos < |src| && IsNameByte(src[pos])
        invariant Valid() && old(pos) <= pos && NameEnd(src, pos) == NameEnd(src, old(pos))
        invariant name == src[old(pos)..pos]
        decreases |src| - pos
      {
        name := name + [src[pos]];
        var _ := Bump();
      }
    }

    method NextToken() returns (out: Parsed<Option<Tok>>)
      requires Valid()
      modifies this
      ensures Follows(Token(src, old(pos)), out)
    {
      hide Place, ReadStr, NameEnd;
      SkipSpace();
      if pos >= |src| { return Value(None); }
      var b := src[pos];
      if b == OPEN || b == CLOSE || b == COMMA {
        var _ := Bump();
        return Value(Some(if b == OPEN then LParen else if b == CLOSE then RParen else Comma));
      } else if b == QUOTE {
        var _ := Bump();
        var s := ReadString();
        return if s.Value? then Value(Some(Str(s.v))) else Error(s.line, s.col);
      } else if IsNameStart(b) {
        NameEndStep(src, pos);
        var n := ReadName();
        return Value(Some(Ident(n)));
      }
      return Error(line, col);
    }

    method ParseNamedCall(name: Bytes) returns (out: Parsed<Call>)
      requires Valid()
      modifies this
      ensures Follows(ParseNamed(src, old(pos), name), out)
      decreases |src| - pos
    {
      hide Place, Token;
      var start := pos;
      var open := NextToken();
      if open.Error? { return Error(open.line, open.col); }
      if open.v != Some(LParen) { return Error(line, col); }
      var args: seq<Arg> := [];
      ghost var all := ParseArgs(src, pos, true);
      assert all.Got? ==> [] + all.value == all.value;
      while true
        invariant Valid() && start < pos
        invariant all == Extend(args, ParseArgs(src, pos, args == []))
        decreases |src| - pos
      {
        var t := NextToken();
        if t.Error? { return Error(t.line, t.col); }
        if t.v.None? { return Error(line, col); }
        match t.v.value {
          case RParen =>
            assert args + [] == args;
            return Value(Call(name, args));
          case Comma =>
            if args == [] { return Error(line, col); }
          case Str(s) =>
            ExtendStep(args, StrArg(s), ParseArgs(src, pos, false));
            args := args + [StrArg(s)];
          case Ident(n) =>
            var c := ParseNamedCall(n);
            if c.Error? { return Error(c.line, c.col); }
            ExtendStep(args, CallArg(c.v), ParseArgs(src, pos, false));
            args := args + [CallArg(c.v)];
          case LParen =>
            return Error(line, col);
        }
      }
    }
  }

  ghost function Append(s: Bytes, r: Res<Bytes>): Res<Bytes> {
    match r
    case Got(t, q) => Got(s + t, q)
    case Bad(q) => Bad(q)
  }

  lemma AppendStep(s: Bytes, b: Byte, r: Res<Bytes>)
    ensures Append(s, Cons(b, r)) == Append(s + [b], r)
  {
    if r.Got? { Assoc(s, [b], r.value); }
  }

  ghost function Extend(done: seq<Arg>, r: Res<seq<Arg>>): Res<seq<Arg>> {
    match r
    case Got(args, q) => Got(done + args, q)
    case Bad(q) => Bad(q)
  }

  lemma ExtendStep(done: seq<Arg>, a: Arg, r: Res<seq<Arg>>)
    ensures Extend(done, Push(a, r)) == Extend(done + [a], r)
  {
    if r.Got? { Assoc(done, [a], r.value); }
  }

  lemma NameEndStep(src: Bytes, p: nat)
    requires p < |src| && IsNameStart(src[p])
    ensures NameEnd(src, p) == NameEnd(src, p + 1)
  {
  }

  /** Parse a whole statement, as evaluation and classification both do. */
  method Statement(src: Bytes) returns (out: Parsed<Call>)
    ensures var r := ParseStatement(src);
      out == if r.Got? then Value(r.value) else (assert r.pos <= |src|; Error(Place(src, r.pos).0, Place(src, r.pos).1))
  {
    hide Place, Token, ParseNamed;
    var t := new Tokenizer(src);
    var first := t.NextToken();
    if first.Error? { return Error(first.line, first.col); }
    if first.v.None? || !first.v.value.Ident? { return Error(t.line, t.col); }
    var c := t.ParseNamedCall(first.v.value.name);
    if c.Error? { return c; }
    t.SkipSpace();
    if t.pos < |src| { return Error(t.line, t.col); }
    return c;
  }
}
