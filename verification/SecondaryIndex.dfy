/** The derived secondary index: per namespace and field a sorted set of
    (field value, key) rows, kept in step with the tables by every write
    (`refresh_sec_index_for`, `remove_from_sec_index`), rebuilt on demand, and
    read by `by_index`. */
module SecondaryIndex {
  import opened ByteStrings
  import opened Records
  import opened StoreSpec
  import opened Replay

  type Field = Bytes
  type Row = (Bytes, Key)

  /** Scalar values of a field inside a stored value; JSON stays abstract. */
  type Extract = (Bytes, Field) -> seq<Bytes>

  type Sec = map<(Name, Field), seq<Row>>

  // ---------- sorted row sets ----------

  predicate RowLess(a: Row, b: Row) {
    Less(a.0, b.0) || (a.0 == b.0 && Less(a.1, b.1))
  }

  predicate Sorted(rows: seq<Row>) {
    rows == [] || (Sorted(rows[1..]) && forall i | 1 <= i < |rows| :: RowLess(rows[0], rows[i]))
  }

  function Insert(rows: seq<Row>, row: Row): seq<Row> {
    if rows == [] || RowLess(row, rows[0]) then [row] + rows
    else if row == rows[0] then rows
    else [rows[0]] + Insert(rows[1..], row)
  }

  function DropKey(rows: seq<Row>, key: Key): seq<Row> {
    if rows == [] then []
    else if rows[0].1 == key then DropKey(rows[1..], key)
    else [rows[0]] + DropKey(rows[1..], key)
  }

  lemma RowTransitive(a: Row, b: Row, c: Row)
    requires RowLess(a, b) && RowLess(b, c)
    ensures RowLess(a, c)
  {
    if Less(a.0, b.0) && Less(b.0, c.0) { LessTransitive(a.0, b.0, c.0); }
    if Less(a.1, b.1) && Less(b.1, c.1) { LessTransitive(a.1, b.1, c.1); }
  }

  lemma {:induction false} InsertRows(rows: seq<Row>, row: Row)
    requires Sorted(rows)
    ensures Sorted(Insert(rows, row))
    ensures forall r :: r in Insert(rows, row) <==> r == row || r in rows
  {
    hide RowLess;
    if rows == [] {
    } else if RowLess(row, rows[0]) {
      forall i | 0 <= i < |rows|
        ensures RowLess(row, rows[i])
      {
        if i > 0 { RowTransitive(row, rows[0], rows[i]); }
      }
      assert ([row] + rows)[1..] == rows;
    } else if row != rows[0] {
      InsertRows(rows[1..], row);
      RowTotal(row, rows[0]);
      var ins := [rows[0]] + Insert(rows[1..], row);
      assert ins[1..] == Insert(rows[1..], row);
      forall i | 1 <= i < |ins|
        ensures RowLess(rows[0], ins[i])
      {
        assert ins[i] in Insert(rows[1..], row);
        if ins[i] != row {
          var j :| 0 <= j < |rows[1..]| && rows[1..][j] == ins[i];
          assert rows[j + 1] == ins[i];
        }
      }
      assert rows == [rows[0]] + rows[1..];
    }
  }

  lemma RowTotal(a: Row, b: Row)
    ensures a == b || RowLess(a, b) || RowLess(b, a)
  {
    LessTotal(a.0, b.0);
    LessTotal(a.1, b.1);
  }

  lemma {:induction false} DropRows(rows: seq<Row>, key: Key)
    ensures forall r :: r in DropKey(rows, key) <==> r in rows && r.1 != key
    ensures Sorted(rows) ==> Sorted(DropKey(rows, key))
  {
    hide RowLess;
    if rows != [] {
      DropRows(rows[1..], key);
      assert rows == [rows[0]] + rows[1..];
      if rows[0].1 != key {
        var d := DropKey(rows, key);
        assert d[1..] == DropKey(rows[1..], key);
        if Sorted(rows) {
          forall i | 1 <= i < |d|
            ensures RowLess(rows[0], d[i])
          {
            assert d[i] in DropKey(rows[1..], key);
            var j :| 0 <= j < |rows[1..]| && rows[1..][j] == d[i];
            assert rows[j + 1] == d[i];
          }
        }
      }
    }
  }

  // ---------- maintenance ----------

  function Rows(sec: Sec, ns: Name, f: Field): seq<Row> {
    if (ns, f) in sec then sec[(ns, f)] else []
  }

  /** `remove_from_sec_index`: forget the key under every indexed field. */
  function RemoveKey(sec: Sec, ns: Name, fields: seq<Field>, key: Key): Sec {
    if fields == [] then sec
    else
      var s := RemoveKey(sec, ns, fields[..|fields| - 1], key);
      var f := fields[|fields| - 1];
      if (ns, f) in s then s[(ns, f) := DropKey(s[(ns, f)], key)] else s
  }

  function AddValues(sec: Sec, ns: Name, f: Field, values: seq<Bytes>, key: Key): Sec {
    if values == [] then sec
    else
      var s := AddValues(sec, ns, f, values[..|values| - 1], key);
      s[(ns, f) := Insert(Rows(s, ns, f), (values[|values| - 1], key))]
  }

  function AddFields(ex: Extract, sec: Sec, ns: Name, fields: seq<Field>, value: Bytes, key: Key): Sec {
    if fields == [] then sec
    else
      var f := fields[|fields| - 1];
      AddValues(AddFields(ex, sec, ns, fields[..|fields| - 1], value, key), ns, f, ex(value, f), key)
  }

  /** The value `get` and then the newest version show for a key. */
  function Shown(t: Tables, ns: Name, key: Key): Option<Bytes> {
    match Get(t, (ns, key))
    case None => None
    case Some(e) => match Latest(e)
      case None => None
      case Some(v) => Some(v.value)
  }

  /** `refresh_sec_index_for`: re-derive the rows of one key. */
  function Refresh(ex: Extract, sec: Sec, ns: Name, fields: seq<Field>, key: Key, t: Tables): Sec {
    var s := RemoveKey(sec, ns, fields, key);
    match Shown(t, ns, key)
    case None => s
    case Some(value) => AddFields(ex, s, ns, fields, value, key)
  }

  // ---------- exactness ----------

  /** The row that the tables call for. */
  ghost predicate Wanted(ex: Extract, t: Tables, ns: Name, f: Field, row: Row) {
    var v := Shown(t, ns, row.1);
    v.Some? && row.0 in ex(v.value, f)
  }

  ghost predicate FieldExact(ex: Extract, sec: Sec, t: Tables, ns: Name, f: Field) {
    Sorted(Rows(sec, ns, f)) && forall row :: row in Rows(sec, ns, f) <==> Wanted(ex, t, ns, f, row)
  }

  /** Every indexed field of the namespace has exactly the rows its visible
      values call for. */
  ghost predicate Exact(ex: Extract, sec: Sec, t: Tables, ns: Name, fields: seq<Field>) {
    forall f | f in fields :: FieldExact(ex, sec, t, ns, f)
  }

  lemma {:induction false} RemovedRows(sec: Sec, ns: Name, fields: seq<Field>, key: Key, f: Field)
    requires Sorted(Rows(sec, ns, f))
    ensures var s := RemoveKey(sec, ns, fields, key);
      && Sorted(Rows(s, ns, f))
      && forall row :: row in Rows(s, ns, f) <==> row in Rows(sec, ns, f) && (f in fields ==> row.1 != key)
  {
    hide Sorted, DropKey;
    if fields != [] {
      var n := |fields| - 1;
      RemovedRows(sec, ns, fields[..n], key, f);
      assert fields == fields[..n] + [fields[n]];
      DropRows(Rows(RemoveKey(sec, ns, fields[..n], key), ns, f), key);
      DropNone(key);
    }
  }

  lemma DropNone(key: Key)
    ensures DropKey([], key) == []
  {
  }

  /** One more row under field `g`, seen from field `f`. */
  lemma AddedRow(sec: Sec, ns: Name, g: Field, added: Row, f: Field)
    requires Sorted(Rows(sec, ns, f))
    ensures var s := sec[(ns, g) := Insert(Rows(sec, ns, g), added)];
      Sorted(Rows(s, ns, f)) && forall row :: row in Rows(s, ns, f) <==> row in Rows(sec, ns, f) || (f == g && row == added)
  {
    hide Sorted, Insert;
    if f == g { InsertRows(Rows(sec, ns, g), added); }
  }

  lemma {:induction false} AddedValues(sec: Sec, ns: Name, g: Field, values: seq<Bytes>, key: Key, f: Field)
    requires Sorted(Rows(sec, ns, f))
    ensures var s := AddValues(sec, ns, g, values, key);
      && Sorted(Rows(s, ns, f))
      && forall row :: row in Rows(s, ns, f) <==> row in Rows(sec, ns, f) || (f == g && row.1 == key && row.0 in values)
  {
    hide Sorted, Insert, Rows;
    if values != [] {
      var n := |values| - 1;
      AddedValues(sec, ns, g, values[..n], key, f);
      assert values == values[..n] + [values[n]];
      AddedRow(AddValues(sec, ns, g, values[..n], key), ns, g, (values[n], key), f);
    }
  }

  lemma {:induction false} AddedFields(ex: Extract, sec: Sec, ns: Name, fields: seq<Field>, value: Bytes, key: Key, f: Field)
    requires Sorted(Rows(sec, ns, f))
    ensures var s := AddFields(ex, sec, ns, fields, value, key);
      && Sorted(Rows(s, ns, f))
      && forall row :: row in Rows(s, ns, f) <==> row in Rows(sec, ns, f) || (f in fields && row.1 == key && row.0 in ex(value, f))
  {
    hide Sorted, AddValues;
    if fields != [] {
      var n := |fields| - 1;
      AddedFields(ex, sec, ns, fields[..n], value, key, f);
      assert fields == fields[..n] + [fields[n]];
      AddedValues(AddFields(ex, sec, ns, fields[..n], value, key), ns, fields[n], ex(value, fields[n]), key, f);
    }
  }

  /** Refreshing a key: its rows become the wanted ones, all others stay. */
  lemma RefreshedRows(ex: Extract, sec: Sec, ns: Name, fields: seq<Field>, key: Key, t: Tables, f: Field)
    requires Sorted(Rows(sec, ns, f)) && f in fields
    ensures var s := Refresh(ex, sec, ns, fields, key, t);
      && Sorted(Rows(s, ns, f))
      && forall row :: row in Rows(s, ns, f) <==> if row.1 == key then Wanted(ex, t, ns, f, row) else row in Rows(sec, ns, f)
  {
    hide Sorted, RemoveKey, AddFields;
    RemovedRows(sec, ns, fields, key, f);
    var s := RemoveKey(sec, ns, fields, key);
    var v := Shown(t, ns, key);
    if v.Some? { AddedFields(ex, s, ns, fields, v.value, key, f); }
  }

  /** A write that changes only `key`, followed by a refresh of `key`, keeps
      the index exact. */
  lemma RefreshKeepsExact(ex: Extract, sec: Sec, ns: Name, fields: seq<Field>, key: Key, t: Tables, t': Tables)
    requires Exact(ex, sec, t, ns, fields)
    requires forall k | k != key :: Shown(t', ns, k) == Shown(t, ns, k)
    ensures Exact(ex, Refresh(ex, sec, ns, fields, key, t'), t', ns, fields)
    ensures Shown(t', ns, key).None? ==> Refresh(ex, sec, ns, fields, key, t') == RemoveKey(sec, ns, fields, key)
  {
    hide Sorted, RemoveKey, AddFields, Shown;
    forall f | f in fields
      ensures FieldExact(ex, Refresh(ex, sec, ns, fields, key, t'), t', ns, f)
    {
      assert FieldExact(ex, sec, t, ns, f);
      RefreshedRows(ex, sec, ns, fields, key, t', f);
    }
  }

  // ---------- runs ----------

  datatype Indexed = Indexed(t: Tables, sec: Sec)

  /** One data operation on tables and index together: a put refreshes its
      key, a delete forgets it, a refused operation leaves the index alone. */
  function IndexedOp(ex: Extract, p: Policy, ns: Name, fields: seq<Field>, e: Event, x: Indexed): Indexed {
    var a := if e.local then LocalOp(p, ns, e.op, e.seqNo, x.t) else SyncOp(p, ns, e.op, e.seqNo, x.t);
    if !a.ok then Indexed(a.t, x.sec)
    else if IsPut(e.op) then Indexed(a.t, Refresh(ex, x.sec, ns, fields, e.op.key, a.t))
    else Indexed(a.t, RemoveKey(x.sec, ns, fields, e.op.key))
  }

  function IndexedRun(ex: Extract, p: Policy, ns: Name, fields: seq<Field>, es: seq<Event>, x: Indexed): Indexed {
    if es == [] then x
    else IndexedOp(ex, p, ns, fields, es[|es| - 1], IndexedRun(ex, p, ns, fields, es[..|es| - 1], x))
  }

  lemma OpTouchesOneKey(p: Policy, ns: Name, op: Record, seqNo: nat, t: Tables, k: Key)
    requires k != op.key
    ensures Shown(LocalOp(p, ns, op, seqNo, t).t, ns, k) == Shown(t, ns, k)
    ensures Shown(SyncOp(p, ns, op, seqNo, t).t, ns, k) == Shown(t, ns, k)
  {
    hide Latest;
  }

  lemma IndexedOpExact(ex: Extract, p: Policy, ns: Name, fields: seq<Field>, e: Event, x: Indexed)
    requires Shaped(p, ns, x.t) && IsOpTag(e.op.tag) && Exact(ex, x.sec, x.t, ns, fields)
    ensures var y := IndexedOp(ex, p, ns, fields, e, x);
      Shaped(p, ns, y.t) && Exact(ex, y.sec, y.t, ns, fields)
  {
    hide Exact, Refresh, RemoveKey, Shaped;
    OpKeepsShape(p, ns, e.op, e.seqNo, x.t);
    var t' := IndexedOp(ex, p, ns, fields, e, x).t;
    forall k | k != e.op.key
      ensures Shown(t', ns, k) == Shown(x.t, ns, k)
    {
      OpTouchesOneKey(p, ns, e.op, e.seqNo, x.t, k);
    }
    RefreshKeepsExact(ex, x.sec, ns, fields, e.op.key, x.t, t');
  }

  /** In every history of local and synced operations, on any tables that
      start with an exact index, the index stays exact. */
  lemma {:induction false} RunKeepsExact(ex: Extract, p: Policy, ns: Name, fields: seq<Field>, es: seq<Event>, x: Indexed)
    requires Shaped(p, ns, x.t) && AllOps(es) && Exact(ex, x.sec, x.t, ns, fields)
    ensures var y := IndexedRun(ex, p, ns, fields, es, x);
      Shaped(p, ns, y.t) && Exact(ex, y.sec, y.t, ns, fields) && y.t == Live(p, ns, es, x.t)
    decreases |es|
  {
    hide Exact, Refresh, RemoveKey, Shaped, LocalOp, SyncOp;
    if es != [] {
      var n := |es| - 1;
      RunKeepsExact(ex, p, ns, fields, es[..n], x);
      IndexedOpExact(ex, p, ns, fields, es[n], IndexedRun(ex, p, ns, fields, es[..n], x));
    }
  }

  lemma {:induction false} IndexedRunConcat(ex: Extract, p: Policy, ns: Name, fields: seq<Field>, es: seq<Event>, fs: seq<Event>, x: Indexed)
    ensures IndexedRun(ex, p, ns, fields, es + fs, x) == IndexedRun(ex, p, ns, fields, fs, IndexedRun(ex, p, ns, fields, es, x))
    decreases |fs|
  {
    hide IndexedOp;
    if fs == [] {
      assert es + fs == es;
    } else {
      var n := |fs| - 1;
      assert (es + fs)[..|es| + n] == es + fs[..n];
      IndexedRunConcat(ex, p, ns, fields, es, fs[..n], x);
    }
  }

  predicate Touches(es: seq<Event>, key: Key) {
    exists i | 0 <= i < |es| :: es[i].op.key == key
  }

  /** From any sorted rows: a history makes the rows of the keys it writes exact
      and leaves the rows of all others alone. */
  ghost predicate TouchedExact(ex: Extract, sec: Sec, ns: Name, f: Field, es: seq<Event>, y: Indexed) {
    && Sorted(Rows(y.sec, ns, f))
    && forall row :: row in Rows(y.sec, ns, f) <==>
         if Touches(es, row.1) then Wanted(ex, y.t, ns, f, row) else row in Rows(sec, ns, f)
  }

  lemma {:induction false} RunTouchedExact(ex: Extract, p: Policy, ns: Name, fields: seq<Field>, es: seq<Event>, x: Indexed, f: Field)
    requires Shaped(p, ns, x.t) && AllOps(es) && f in fields && Sorted(Rows(x.sec, ns, f))
    ensures var y := IndexedRun(ex, p, ns, fields, es, x); Shaped(p, ns, y.t) && TouchedExact(ex, x.sec, ns, f, es, y)
    decreases |es|
  {
    hide Sorted, Rows, IndexedOp, Shaped, Wanted;
    if es != [] {
      var n := |es| - 1;
      RunTouchedExact(ex, p, ns, fields, es[..n], x, f);
      var w := IndexedRun(ex, p, ns, fields, es[..n], x);
      IndexedOpRows(ex, p, ns, fields, es[n], w, f);
      forall key ensures Touches(es, key) <==> key == es[n].op.key || Touches(es[..n], key) {
        TouchesSnoc(es, key);
      }
    }
  }

  lemma TouchesSnoc(es: seq<Event>, key: Key)
    requires es != []
    ensures Touches(es, key) <==> key == es[|es| - 1].op.key || Touches(es[..|es| - 1], key)
  {
    var n := |es| - 1;
    if i :| 0 <= i < |es| && es[i].op.key == key {
      if i < n { assert es[..n][i].op.key == key; }
    }
    if i :| 0 <= i < n && es[..n][i].op.key == key { assert es[i].op.key == key; }
  }

  /** One operation: the rows of its key become those wanted, the others stay, and
      what other keys want is unchanged. */
  lemma IndexedOpRows(ex: Extract, p: Policy, ns: Name, fields: seq<Field>, e: Event, x: Indexed, f: Field)
    requires Shaped(p, ns, x.t) && IsOpTag(e.op.tag) && f in fields && Sorted(Rows(x.sec, ns, f))
    ensures var y := IndexedOp(ex, p, ns, fields, e, x);
      && Shaped(p, ns, y.t) && Sorted(Rows(y.sec, ns, f))
      && (forall row :: row in Rows(y.sec, ns, f) <==>
           if row.1 == e.op.key then Wanted(ex, y.t, ns, f, row) else row in Rows(x.sec, ns, f))
      && (forall row: Row | row.1 != e.op.key :: Wanted(ex, y.t, ns, f, row) <==> Wanted(ex, x.t, ns, f, row))
  {
    hide Sorted, Refresh, RemoveKey, Rows, Shaped, Shown;
    OpKeepsShape(p, ns, e.op, e.seqNo, x.t);
    var y := IndexedOp(ex, p, ns, fields, e, x);
    forall row: Row | row.1 != e.op.key ensures Wanted(ex, y.t, ns, f, row) <==> Wanted(ex, x.t, ns, f, row) {
      OpTouchesOneKey(p, ns, e.op, e.seqNo, x.t, row.1);
    }
    if IsPut(e.op) {
      RefreshedRows(ex, x.sec, ns, fields, e.op.key, y.t, f);
    } else {
      RemovedRows(x.sec, ns, fields, e.op.key, f);
      DeletedShown(p, ns, e, x.t);
    }
  }

  lemma DeletedShown(p: Policy, ns: Name, e: Event, t: Tables)
    requires e.op.tag == TAG_DEL
    ensures Shown(LocalOp(p, ns, e.op, e.seqNo, t).t, ns, e.op.key).None?
    ensures Shown(SyncOp(p, ns, e.op, e.seqNo, t).t, ns, e.op.key).None?
  {
  }

  // ---------- queries ----------

  /** Rows whose value is at least `start`, in order. */
  function From(rows: seq<Row>, start: Bytes): seq<Row> {
    if rows == [] then []
    else if Less(rows[0].0, start) then From(rows[1..], start)
    else [rows[0]] + From(rows[1..], start)
  }

  /** Keys of the leading run of rows whose value is `want`. */
  function TakeKeys(rows: seq<Row>, want: Bytes): seq<Key> {
    if rows == [] || rows[0].0 != want then [] else [rows[0].1] + TakeKeys(rows[1..], want)
  }

  predicate KeysAscend(ks: seq<Key>) {
    ks == [] || (KeysAscend(ks[1..]) && forall i | 1 <= i < |ks| :: Less(ks[0], ks[i]))
  }

  /** Every row after one above `want` is above `want`: stopping early is safe. */
  lemma {:induction false} NothingLater(rows: seq<Row>, want: Bytes, k: Key)
    requires Sorted(rows) && rows != [] && Less(want, rows[0].0)
    ensures (want, k) !in rows
  {
    LessIrreflexive(want);
    forall i | 0 <= i < |rows|
      ensures rows[i] != (want, k)
    {
      if i > 0 && rows[i].0 == want {
        assert RowLess(rows[0], rows[i]);
        if Less(rows[0].0, want) { LessTransitive(want, rows[0].0, want); }
      }
    }
  }

  lemma {:induction false} TakenKeys(rows: seq<Row>, want: Bytes)
    requires Sorted(rows) && forall i | 0 <= i < |rows| :: !Less(rows[i].0, want)
    ensures KeysAscend(TakeKeys(rows, want))
    ensures forall k :: k in TakeKeys(rows, want) <==> (want, k) in rows
  {
    if rows == [] {
    } else if rows[0].0 != want {
      LessTotal(rows[0].0, want);
      forall k { NothingLater(rows, want, k); }
    } else {
      var rest := TakeKeys(rows[1..], want);
      TakenKeys(rows[1..], want);
      assert rows == [rows[0]] + rows[1..];
      var ks := TakeKeys(rows, want);
      assert ks[1..] == rest;
      LessIrreflexive(want);
      forall i | 1 <= i < |ks|
        ensures Less(ks[0], ks[i])
      {
        assert ks[i] in rest;
        var j :| 0 <= j < |rows[1..]| && rows[1..][j] == (want, ks[i]);
        assert RowLess(rows[0], rows[j + 1]);
      }
    }
  }

  lemma {:induction false} FromRows(rows: seq<Row>, start: Bytes)
    requires Sorted(rows)
    ensures var r := From(rows, start);
      && Sorted(r)
      && (forall i | 0 <= i < |r| :: !Less(r[i].0, start))
      && (forall row :: row in r <==> row in rows && !Less(row.0, start))
  {
    hide RowLess;
    if rows != [] {
      FromRows(rows[1..], start);
      assert rows == [rows[0]] + rows[1..];
      var r := From(rows, start);
      if !Less(rows[0].0, start) {
        assert r[1..] == From(rows[1..], start);
        forall i | 1 <= i < |r|
          ensures RowLess(rows[0], r[i])
        {
          assert r[i] in From(rows[1..], start);
          var j :| 0 <= j < |rows[1..]| && rows[1..][j] == r[i];
          assert rows[j + 1] == r[i];
        }
      }
    }
  }

  /** `by_index` over an exact index: the keys whose shown value has `want`
      under the field, each once, in key order. */
  lemma ByIndexExact(ex: Extract, sec: Sec, t: Tables, ns: Name, f: Field, want: Bytes)
    requires FieldExact(ex, sec, t, ns, f)
    ensures var ks := TakeKeys(From(Rows(sec, ns, f), want), want);
      && KeysAscend(ks)
      && forall k :: k in ks <==> Shown(t, ns, k).Some? && want in ex(Shown(t, ns, k).value, f)
  {
    hide Sorted, From, TakeKeys, Shown, KeysAscend;
    var rows := Rows(sec, ns, f);
    FromRows(rows, want);
    TakenKeys(From(rows, want), want);
    LessIrreflexive(want);
    forall k
      ensures (want, k) in From(rows, want) <==> Wanted(ex, t, ns, f, (want, k))
    {
      assert (want, k) in From(rows, want) <==> (want, k) in rows && !Less((want, k).0, want);
    }
  }

  method IndexLookup(rows: seq<Row>, start: Bytes) returns (out: seq<Row>)
    ensures out == From(rows, start)
  {
    out := [];
    for i := 0 to |rows|
      invariant From(rows, start) == out + From(rows[i..], start)
    {
      assert rows[i..][1..] == rows[i + 1..];
      if !Less(rows[i].0, start) {
        assert out + ([rows[i]] + From(rows[i + 1..], start)) == out + [rows[i]] + From(rows[i + 1..], start);
        out := out + [rows[i]];
      }
    }
    assert out + [] == out;
  }

  /** The query loop, with its early exit. */
  method ByIndex(rows: seq<Row>, want: Bytes) returns (out: seq<Key>)
    ensures out == TakeKeys(From(rows, want), want)
  {
    var hits := IndexLookup(rows, want);
    out := [];
    for i := 0 to |hits|
      invariant TakeKeys(hits, want) == out + TakeKeys(hits[i..], want)
    {
      if hits[i].0 != want {
        assert out + [] == out;
        break;
      }
      assert hits[i..][1..] == hits[i + 1..];
      assert out + ([hits[i].1] + TakeKeys(hits[i + 1..], want)) == out + [hits[i].1] + TakeKeys(hits[i + 1..], want);
      out := out + [hits[i].1];
    }
    assert out + [] == out;
  }

  // ---------- rebuilding ----------

  /** `clear_sec_index_ns` keeps the rows of the named namespace and drops
      those of every other one. */
  function ClearNs(sec: Sec, ns: Name): Sec {
    map k | k in sec && k.0 == ns :: sec[k]
  }

  function RefreshAll(ex: Extract, sec: Sec, ns: Name, fields: seq<Field>, keys: seq<Key>, t: Tables): Sec {
    if keys == [] then sec
    else Refresh(ex, RefreshAll(ex, sec, ns, fields, keys[..|keys| - 1], t), ns, fields, keys[|keys| - 1], t)
  }

  /** `rebuild_sec_index_ns`, over the live keys of the namespace. */
  function Rebuild(ex: Extract, sec: Sec, ns: Name, fields: seq<Field>, keys: seq<Key>, t: Tables): Sec {
    var s := ClearNs(sec, ns);
    if fields == [] then s else RefreshAll(ex, s, ns, fields, keys, t)
  }

  ghost predicate LiveKeys(t: Tables, ns: Name, keys: seq<Key>) {
    forall k :: k in keys <==> (ns, k) in t.index && Latest(t.index[(ns, k)]).Some?
  }

  lemma {:induction false} RefreshAllRows(ex: Extract, sec: Sec, ns: Name, fields: seq<Field>, keys: seq<Key>, t: Tables, f: Field)
    requires Sorted(Rows(sec, ns, f)) && f in fields
    ensures var s := RefreshAll(ex, sec, ns, fields, keys, t);
      && Sorted(Rows(s, ns, f))
      && forall row :: row in Rows(s, ns, f) <==> if row.1 in keys then Wanted(ex, t, ns, f, row) else row in Rows(sec, ns, f)
  {
    hide Sorted, Refresh, Wanted;
    if keys != [] {
      var n := |keys| - 1;
      RefreshAllRows(ex, sec, ns, fields, keys[..n], t, f);
      assert keys == keys[..n] + [keys[n]];
      RefreshedRows(ex, RefreshAll(ex, sec, ns, fields, keys[..n], t), ns, fields, keys[n], t, f);
    }
  }

  /** Rebuilding one namespace makes its index exact exactly when no row left
      from before belongs to a key that is no longer live. */
  lemma RebuildExact(ex: Extract, sec: Sec, ns: Name, fields: seq<Field>, keys: seq<Key>, t: Tables)
    requires LiveKeys(t, ns, keys) && forall f | f in fields :: Sorted(Rows(sec, ns, f))
    ensures Exact(ex, Rebuild(ex, sec, ns, fields, keys, t), t, ns, fields) <==>
      forall f, row | f in fields && row in Rows(sec, ns, f) :: row.1 in keys
  {
    hide Sorted, RefreshAll, Wanted;
    var s := Rebuild(ex, sec, ns, fields, keys, t);
    forall f | f in fields
      ensures FieldExact(ex, s, t, ns, f) <==> forall row | row in Rows(sec, ns, f) :: row.1 in keys
    {
      assert Rows(ClearNs(sec, ns), ns, f) == Rows(sec, ns, f);
      RefreshAllRows(ex, ClearNs(sec, ns), ns, fields, keys, t, f);
      forall row: Row | row.1 !in keys
        ensures !Wanted(ex, t, ns, f, row)
      {
        DeadUnwanted(ex, t, ns, keys, f, row);
      }
    }
  }

  lemma DeadUnwanted(ex: Extract, t: Tables, ns: Name, keys: seq<Key>, f: Field, row: Row)
    requires LiveKeys(t, ns, keys) && row.1 !in keys
    ensures !Wanted(ex, t, ns, f, row)
  {
    hide Latest;
  }

  lemma {:induction false} RefreshAllElsewhere(ex: Extract, sec: Sec, ns: Name, fields: seq<Field>, keys: seq<Key>, t: Tables, k: (Name, Field))
    requires k.0 != ns
    ensures var s := RefreshAll(ex, sec, ns, fields, keys, t); (k in s <==> k in sec) && (k in sec ==> s[k] == sec[k])
  {
    if keys != [] {
      var n := |keys| - 1;
      RefreshAllElsewhere(ex, sec, ns, fields, keys[..n], t, k);
      var s := RefreshAll(ex, sec, ns, fields, keys[..n], t);
      RefreshElsewhere(ex, s, ns, fields, keys[n], t, k);
    }
  }

  lemma RefreshElsewhere(ex: Extract, sec: Sec, ns: Name, fields: seq<Field>, key: Key, t: Tables, k: (Name, Field))
    requires k.0 != ns
    ensures var s := Refresh(ex, sec, ns, fields, key, t); (k in s <==> k in sec) && (k in sec ==> s[k] == sec[k])
  {
    hide Shown;
    RemoveElsewhere(sec, ns, fields, key, k);
    var v := Shown(t, ns, key);
    if v.Some? { AddElsewhere(ex, RemoveKey(sec, ns, fields, key), ns, fields, v.value, key, k); }
  }

  lemma {:induction false} RemoveElsewhere(sec: Sec, ns: Name, fields: seq<Field>, key: Key, k: (Name, Field))
    requires k.0 != ns
    ensures var s := RemoveKey(sec, ns, fields, key); (k in s <==> k in sec) && (k in sec ==> s[k] == sec[k])
  {
    if fields != [] { RemoveElsewhere(sec, ns, fields[..|fields| - 1], key, k); }
  }

  lemma {:induction false} AddElsewhere(ex: Extract, sec: Sec, ns: Name, fields: seq<Field>, value: Bytes, key: Key, k: (Name, Field))
    requires k.0 != ns
    ensures var s := AddFields(ex, sec, ns, fields, value, key); (k in s <==> k in sec) && (k in sec ==> s[k] == sec[k])
  {
    if fields != [] {
      var n := |fields| - 1;
      AddElsewhere(ex, sec, ns, fields[..n], value, key, k);
      AddValuesElsewhere(AddFields(ex, sec, ns, fields[..n], value, key), ns, fields[n], ex(value, fields[n]), key, k);
    }
  }

  lemma {:induction false} AddValuesElsewhere(sec: Sec, ns: Name, f: Field, values: seq<Bytes>, key: Key, k: (Name, Field))
    requires k.0 != ns
    ensures var s := AddValues(sec, ns, f, values, key); (k in s <==> k in sec) && (k in sec ==> s[k] == sec[k])
  {
    if values != [] { AddValuesElsewhere(sec, ns, f, values[..|values| - 1], key, k); }
  }

  /** Rebuilding one namespace empties the index of every other. */
  lemma RebuildDropsOthers(ex: Extract, sec: Sec, ns: Name, fields: seq<Field>, keys: seq<Key>, t: Tables, other: Name, f: Field)
    requires other != ns
    ensures Rows(Rebuild(ex, sec, ns, fields, keys, t), other, f) == []
  {
    hide RefreshAll;
    RefreshAllElsewhere(ex, ClearNs(sec, ns), ns, fields, keys, t, (other, f));
  }

  /** A namespace with its field list and live keys. */
  datatype NsIndex = NsIndex(ns: Name, fields: seq<Field>, keys: seq<Key>)

  /** `rebuild_secondary_indexes`, run on every open. */
  function RebuildAll(ex: Extract, order: seq<NsIndex>, t: Tables): Sec {
    if order == [] then map[]
    else
      var prev := RebuildAll(ex, order[..|order| - 1], t);
      var x := order[|order| - 1];
      if x.fields == [] then prev else Rebuild(ex, prev, x.ns, x.fields, x.keys, t)
  }

  /** Position of the last namespace that has an index, if any. */
  function LastIndexed(order: seq<NsIndex>): int {
    if order == [] then -1
    else if order[|order| - 1].fields != [] then |order| - 1
    else LastIndexed(order[..|order| - 1])
  }

  ghost predicate Distinct(order: seq<NsIndex>) {
    forall i, j | 0 <= i < j < |order| :: order[i].ns != order[j].ns
  }

  function LastName(order: seq<NsIndex>): Option<Name> {
    var l := LastIndexed(order);
    if 0 <= l < |order| then Some(order[l].ns) else None
  }

  /** No namespace but `keep` has index rows. */
  ghost predicate OnlyRowsOf(s: Sec, keep: Option<Name>) {
    forall ns, f | Some(ns) != keep :: Rows(s, ns, f) == []
  }

  /** After a full rebuild only the last indexed namespace has rows, and its
      rows are exact. */
  lemma {:induction false} RebuildAllRows(ex: Extract, order: seq<NsIndex>, t: Tables)
    requires Distinct(order) && forall i | 0 <= i < |order| :: LiveKeys(t, order[i].ns, order[i].keys)
    ensures var l := LastIndexed(order); var s := RebuildAll(ex, order, t);
      && l < |order|
      && (l >= 0 ==> order[l].fields != [] && Exact(ex, s, t, order[l].ns, order[l].fields))
      && OnlyRowsOf(s, LastName(order))
  {
    hide Exact, LiveKeys, Rebuild, Sorted, Rows;
    if order != [] {
      var n := |order| - 1;
      var x := order[n];
      RebuildAllRows(ex, order[..n], t);
      var prev := RebuildAll(ex, order[..n], t);
      var l := LastIndexed(order[..n]);
      if l >= 0 { assert order[..n][l] == order[l] && order[l].ns != x.ns; }
      if x.fields != [] {
        SortedNone();
        assert Some(x.ns) != LastName(order[..n]);
        assert forall f :: Rows(prev, x.ns, f) == [];
        RebuildExact(ex, prev, x.ns, x.fields, x.keys, t);
        var s := RebuildAll(ex, order, t);
        forall ns, f | Some(ns) != Some(x.ns) ensures Rows(s, ns, f) == [] {
          RebuildDropsOthers(ex, prev, x.ns, x.fields, x.keys, t, ns, f);
        }
      }
    } else {
      NoRows();
    }
  }

  lemma NoRows()
    ensures OnlyRowsOf(map[], None)
  {
  }

  lemma SortedNone()
    ensures Sorted([])
  {
  }

  /** Reopening rebuilds the index of namespace `i` exactly when it is the last
      indexed one, or none of its values has an indexed field. */
  lemma ReopenIndexExact(ex: Extract, order: seq<NsIndex>, t: Tables, i: nat)
    requires Distinct(order) && forall i | 0 <= i < |order| :: LiveKeys(t, order[i].ns, order[i].keys)
    requires i < |order| && order[i].fields != []
    ensures Exact(ex, RebuildAll(ex, order, t), t, order[i].ns, order[i].fields) <==>
      i == LastIndexed(order) || forall f, row | f in order[i].fields :: !Wanted(ex, t, order[i].ns, f, row)
  {
    hide RebuildAll, LiveKeys, Sorted, Wanted;
    RebuildAllRows(ex, order, t);
    SomeIndexed(order, i);
    SortedNone();
    var l := LastIndexed(order);
    var s := RebuildAll(ex, order, t);
    var ns := order[i].ns;
    if i != l {
      assert ns != order[l].ns;
      assert forall f :: Rows(s, ns, f) == [];
      assert forall f :: FieldExact(ex, s, t, ns, f) <==> forall row :: !Wanted(ex, t, ns, f, row);
    }
  }

  lemma {:induction false} SomeIndexed(order: seq<NsIndex>, i: nat)
    requires i < |order| && order[i].fields != []
    ensures i <= LastIndexed(order) < |order|
  {
    if i < |order| - 1 && order[|order| - 1].fields == [] { SomeIndexed(order[..|order| - 1], i); }
  }
}
