/** A table as the data browser sees it, and the contracts of the engine calls on it:
    paged scans, look-ups by key, single-row edits and row images
    (backend/internal/platform/engine/rowreader.go and rowimage.go). */
module Tables {
  import opened Wrappers
  import opened Rows

  datatype Table = Table(columns: seq<Column>, key: seq<Column>, rows: map<Key, Row>)

  function ColumnSet(cols: seq<Column>): (s: set<Column>)
    ensures forall c :: c in s <==> c in cols
  {
    set c | c in cols
  }

  /** Rows are full, stored under their own key, and key columns are never NULL. */
  predicate WellFormed(t: Table) {
    && DistinctColumns(t.columns)
    && DistinctColumns(t.key)
    && (forall c :: c in t.key ==> c in t.columns)
    && (forall k :: k in t.rows ==> RowFits(t, k, t.rows[k]))
  }

  predicate RowFits(t: Table, k: Key, r: Row) {
    && r.Keys == ColumnSet(t.columns)
    && KeyAt(t.key, r) == k
    && Null !in k
  }

  function Lookup(t: Table, k: Key): Option<Row> {
    if k in t.rows then Some(t.rows[k]) else None
  }

  function KeyImage(t: Table, r: Row): Row {
    Pick(r, ColumnSet(t.key))
  }

  /** The image of a row's key columns has the row's key. */
  lemma KeyOfImage(t: Table, r: Row)
    ensures KeyAt(t.key, KeyImage(t, r)) == KeyAt(t.key, r)
  {
    forall i | 0 <= i < |t.key| ensures At(KeyImage(t, r), t.key[i]) == At(r, t.key[i]) {
    }
  }

  // ---- Checks and writes by key -------------------------------------------------------------

  datatype EngineError =
    | RowChanged        // the row is not as expected
    | StructureChanged  // an image names a column the table no longer has
    | Failed            // any other refusal: no such row, duplicate or NULL key, a lost connection

  /** What ApplyRowImage verifies under the row lock before it writes. */
  datatype Check =
    | Unchecked
    | ExpectImage(image: Option<Row>)
    | ExpectHash(cols: seq<Column>, hash: Fingerprint)

  predicate SameValues(want: Row, got: Row) {
    forall c :: c in want ==> c in got && got[c] == want[c]
  }

  predicate Passes(check: Check, current: Option<Row>) {
    match check
    case Unchecked => true
    case ExpectImage(None) => current.None?
    case ExpectImage(Some(want)) => current.Some? && SameValues(want, current.value)
    case ExpectHash(cols, hash) => current.Some? && RowHash(current.value, cols) == hash
  }

  datatype Op = Nothing | Insert | Update | Delete

  /** One row change with the row's images before and after it. */
  datatype RowChange = RowChange(op: Op, key: Key, before: Option<Row>, after: Option<Row>, undoable: bool)

  datatype ApplyRequest = ApplyRequest(key: Key, check: Check, want: Option<Row>)

  type Outcome = Result<(Table, RowChange), EngineError>

  /** The row an INSERT of values makes; the database fills the other columns from defaults. */
  function NewRow(t: Table, values: Row, defaults: Row): Row {
    map c | c in ColumnSet(t.columns) :: if c in values then values[c] else At(defaults, c)
  }

  function InsertInto(t: Table, values: Row, defaults: Row): (o: Outcome)
    requires WellFormed(t)
    ensures o.Ok? ==> WellFormed(o.value.0)
  {
    var row := NewRow(t, values, defaults);
    var k := KeyAt(t.key, row);
    if !(values.Keys <= ColumnSet(t.columns)) || Null in k || k in t.rows then Err(Failed)
    else Ok((t.(rows := t.rows[k := row]), RowChange(Insert, k, None, Some(row), true)))
  }

  lemma MovedRowFits(t: Table, key: Key, after: Row)
    requires WellFormed(t) && after.Keys == ColumnSet(t.columns) && Null !in KeyAt(t.key, after)
    ensures WellFormed(t.(rows := (t.rows - {key})[KeyAt(t.key, after) := after]))
  {
  }

  /** Sets the columns of values in the row at key; the row moves if they change its key. */
  function UpdateRowAt(t: Table, key: Key, values: Row): (o: Outcome)
    requires WellFormed(t)
    ensures o.Ok? ==> WellFormed(o.value.0)
  {
    if key !in t.rows || !(values.Keys <= ColumnSet(t.columns)) then Err(Failed)
    else
      var before := t.rows[key];
      var after := before + values;
      var k := KeyAt(t.key, after);
      if Null in k || (k != key && k in t.rows) then Err(Failed)
      else
        var touched := values.Keys + ColumnSet(t.key);
        assert RowFits(t, key, before);
        MovedRowFits(t, key, after);
        Ok((t.(rows := (t.rows - {key})[k := after]),
            RowChange(Update, k, Some(Pick(before, touched)), Some(Pick(after, touched)), true)))
  }

  function DeleteFrom(t: Table, key: Key): (o: Outcome)
    requires WellFormed(t)
    ensures o.Ok? ==> WellFormed(o.value.0)
  {
    if key !in t.rows then Err(Failed)
    else Ok((t.(rows := t.rows - {key}), RowChange(Delete, key, Some(t.rows[key]), None, true)))
  }

  /** A data-browser edit of one row. keyKnown is false when the database assigns the new row's
      key in a way that cannot be read back: the row is inserted but the change has no images. */
  datatype Edit =
    | InsertRow(values: Row, defaults: Row, keyKnown: bool)
    | UpdateRow(key: Key, values: Row)
    | DeleteRow(key: Key)

  function ChangeRow(t: Table, e: Edit): (o: Outcome)
    requires WellFormed(t)
    ensures o.Ok? ==> WellFormed(o.value.0)
  {
    match e
    case InsertRow(values, defaults, keyKnown) =>
      var o := InsertInto(t, values, defaults);
      if o.Ok? && !keyKnown then Ok((o.value.0, RowChange(Insert, [], None, None, false))) else o
    case UpdateRow(key, values) => UpdateRowAt(t, key, values)
    case DeleteRow(key) => DeleteFrom(t, key)
  }

  /** The wanted values a row does not hold yet. */
  function Changes(current: Row, want: Row): Row {
    map c | c in want && (c !in current || current[c] != want[c]) :: want[c]
  }

  /** ApplyRowImage: makes the row at req.key look like req.want, if the check passes. */
  function ApplyRow(t: Table, req: ApplyRequest, defaults: Row): (o: Outcome)
    requires WellFormed(t)
    ensures o.Ok? ==> WellFormed(o.value.0)
  {
    var current := Lookup(t, req.key);
    if !Passes(req.check, current) then Err(RowChanged)
    else match req.want
      case None =>
        if current.None? then Ok((t, RowChange(Nothing, req.key, None, None, true)))
        else DeleteFrom(t, req.key)
      case Some(want) =>
        if !(want.Keys <= ColumnSet(t.columns)) then Err(StructureChanged)
        else if current.None? then InsertInto(t, want, defaults)
        else
          var changed := Changes(current.value, want);
          if changed == map[] then Ok((t, RowChange(Nothing, req.key, None, None, true)))
          else UpdateRowAt(t, req.key, changed)
  }

  /** Where an update of the row at key leads, if the row and its columns are there. */
  function MovedTo(t: Table, key: Key, values: Row): Key
    requires key in t.rows
  {
    KeyAt(t.key, t.rows[key] + values)
  }

  /** An update succeeds exactly if its row and columns are there and the row's key stays, or moves to a
      free one; it then sets its values in that row and leaves every other as it is. */
  lemma UpdateTouchesOneRow(t: Table, key: Key, values: Row)
    requires WellFormed(t)
    ensures var o := UpdateRowAt(t, key, values);
            if key !in t.rows || !(values.Keys <= ColumnSet(t.columns)) then o == Err(Failed)
            else
              var k := MovedTo(t, key, values);
              && (o.Ok? <==> Null !in k && (k == key || k !in t.rows))
              && (o.Ok? ==> var (t', ch) := o.value;
                            && WellFormed(t') && t' == t.(rows := (t.rows - {key})[k := t.rows[key] + values]) && ch.key == k)
  {
  }

  /** The images a change reports are values the row had before and has after it. */
  predicate Images(t: Table, key: Key, ch: RowChange, t': Table) {
    && (ch.before.Some? ==> key in t.rows && SameValues(ch.before.value, t.rows[key]))
    && (ch.after.Some? ==> ch.key in t'.rows && SameValues(ch.after.value, t'.rows[ch.key]))
  }

  /** The row at key is gone or holds the wanted values, no other key's row changed, nothing is reported
      exactly if nothing changed, and the reported images are true. */
  ghost predicate WroteImage(t: Table, key: Key, want: Option<Row>, t': Table, ch: RowChange) {
    && t'.columns == t.columns && t'.key == t.key
    && (forall k :: k != key && k != ch.key ==> Lookup(t', k) == Lookup(t, k))
    && (want.None? ==> key !in t'.rows)
    && (want.Some? ==> ch.key in t'.rows && SameValues(want.value, t'.rows[ch.key]))
    && (ch.op.Nothing? <==> t'.rows == t.rows) && Images(t, key, ch, t')
  }

  lemma InsertWrites(t: Table, key: Key, want: Row, defaults: Row)
    requires WellFormed(t) && key !in t.rows && InsertInto(t, want, defaults).Ok?
    ensures var (t', ch) := InsertInto(t, want, defaults).value;
            WroteImage(t, key, Some(want), t', ch)
  {
    var (t', ch) := InsertInto(t, want, defaults).value;
    assert ch.key in t'.rows && ch.key !in t.rows;
  }

  lemma DeleteWrites(t: Table, key: Key)
    requires WellFormed(t) && key in t.rows
    ensures DeleteFrom(t, key).Ok?
    ensures var (t', ch) := DeleteFrom(t, key).value;
            WroteImage(t, key, None, t', ch)
  {
    var (t', ch) := DeleteFrom(t, key).value;
    assert key !in t'.rows;
  }

  lemma UpdateReports(t: Table, key: Key, values: Row) returns (k: Key, touched: set<Column>)
    requires WellFormed(t) && UpdateRowAt(t, key, values).Ok?
    ensures key in t.rows && touched == values.Keys + ColumnSet(t.key) && (k == key || k !in t.rows)
    ensures UpdateRowAt(t, key, values).value
         == (t.(rows := (t.rows - {key})[k := t.rows[key] + values]),
             RowChange(Update, k, Some(Pick(t.rows[key], touched)), Some(Pick(t.rows[key] + values, touched)), true))
  {
    k, touched := MovedTo(t, key, values), values.Keys + ColumnSet(t.key);
  }

  /** A row set to after, at k, is all that changes. */
  lemma RowMoved(rows: map<Key, Row>, key: Key, k: Key, after: Row)
    requires key in rows && (k == key || k !in rows) && after != rows[key]
    ensures var rows' := (rows - {key})[k := after];
            && rows' != rows && k in rows' && rows'[k] == after
            && (forall x :: x != key && x != k ==> (x in rows' <==> x in rows) && (x in rows ==> rows'[x] == rows[x]))
  {
    var rows' := (rows - {key})[k := after];
    assert k in rows' && rows'[k] == after;
  }

  lemma MoveWrites(t: Table, key: Key, want: Row, changed: Row, k: Key, touched: set<Column>, t': Table, ch: RowChange)
    requires key in t.rows && changed == Changes(t.rows[key], want) && changed != map[] && (k == key || k !in t.rows)
    requires touched == changed.Keys + ColumnSet(t.key) && t' == t.(rows := (t.rows - {key})[k := t.rows[key] + changed])
    requires ch == RowChange(Update, k, Some(Pick(t.rows[key], touched)), Some(Pick(t.rows[key] + changed, touched)), true)
    ensures WroteImage(t, key, Some(want), t', ch)
  {
    var row := t.rows[key];
    ChangesSuffice(row, want);
    ChangesDiffer(row, want);
    PickedValues(row, changed, t.key);
    RowMoved(t.rows, key, k, row + changed);
  }

  lemma UpdateWrites(t: Table, key: Key, want: Row)
    requires WellFormed(t) && key in t.rows && Changes(t.rows[key], want) != map[]
    requires UpdateRowAt(t, key, Changes(t.rows[key], want)).Ok?
    ensures var (t', ch) := UpdateRowAt(t, key, Changes(t.rows[key], want)).value;
            WroteImage(t, key, Some(want), t', ch)
  {
    var changed := Changes(t.rows[key], want);
    var k, touched := UpdateReports(t, key, changed);
    var (t', ch) := UpdateRowAt(t, key, changed).value;
    MoveWrites(t, key, want, changed, k, touched, t', ch);
  }

  /** Writing a row image is refused as changed exactly if the check fails on the row as it is. If it
      succeeds, the row at its key is gone or holds the wanted values, and no other row changed. */
  lemma ImageWriteTouchesOneRow(t: Table, req: ApplyRequest, defaults: Row)
    requires WellFormed(t)
    ensures var o := ApplyRow(t, req, defaults);
            && (o == Err(RowChanged) <==> !Passes(req.check, Lookup(t, req.key)))
            && (o.Ok? ==> WellFormed(o.value.0) && WroteImage(t, req.key, req.want, o.value.0, o.value.1))
  {
    var o, current := ApplyRow(t, req, defaults), Lookup(t, req.key);
    if o.Ok? {
      if req.want.None? {
        if current.Some? { DeleteWrites(t, req.key); }
      } else if current.None? {
        InsertWrites(t, req.key, req.want.value, defaults);
      } else {
        ChangesSuffice(current.value, req.want.value);
        if Changes(current.value, req.want.value) != map[] { UpdateWrites(t, req.key, req.want.value); }
      }
    }
  }

  lemma ChangesSuffice(current: Row, want: Row)
    ensures SameValues(want, current + Changes(current, want))
    ensures Changes(current, want) == map[] ==> SameValues(want, current)
  {
    forall c | c in want ensures c in current + Changes(current, want) && (current + Changes(current, want))[c] == want[c] {
      assert c in Changes(current, want) || (c in current && current[c] == want[c]);
    }
  }

  lemma ChangesDiffer(current: Row, want: Row)
    requires Changes(current, want) != map[]
    ensures current + Changes(current, want) != current
  {
    var c :| c in Changes(current, want);
    assert (current + Changes(current, want))[c] == want[c];
  }

  lemma PickedValues(row: Row, values: Row, key: seq<Column>)
    ensures var touched := values.Keys + ColumnSet(key);
            SameValues(Pick(row, touched), row) && SameValues(Pick(row + values, touched), row + values)
  {
  }

  // ---- Scans --------------------------------------------------------------------------------

  /** The database's order of row keys: keys of one table never tie. */
  type KeyOrder = Key -> real

  predicate Ordered(keys: set<Key>, rank: KeyOrder) {
    forall a, b :: a in keys && b in keys && rank(a) == rank(b) ==> a == b
  }

  predicate Ascending(ks: seq<Key>, rank: KeyOrder) {
    forall i, j :: 0 <= i < j < |ks| ==> rank(ks[i]) < rank(ks[j])
  }

  lemma {:induction false} LeastExists(keys: set<Key>, rank: KeyOrder)
    requires keys != {}
    ensures exists k :: k in keys && forall o :: o in keys ==> rank(k) <= rank(o)
  {
    var x :| x in keys;
    if keys != {x} {
      LeastExists(keys - {x}, rank);
      var y :| y in keys - {x} && forall o :: o in keys - {x} ==> rank(y) <= rank(o);
      var k := if rank(x) <= rank(y) then x else y;
      assert k in keys && forall o :: o in keys ==> rank(k) <= rank(o) by {
        forall o | o in keys ensures rank(k) <= rank(o) {
          if o != x { assert o in keys - {x}; }
        }
      }
    } else {
      assert forall o :: o in keys ==> o == x;
      assert x in keys && forall o :: o in keys ==> rank(x) <= rank(o);
    }
  }

  function Least(keys: set<Key>, rank: KeyOrder): (k: Key)
    requires keys != {} && Ordered(keys, rank)
    ensures k in keys && forall o :: o in keys && o != k ==> rank(k) < rank(o)
  {
    LeastExists(keys, rank);
    var k :| k in keys && forall o :: o in keys ==> rank(k) <= rank(o);
    k
  }

  function InOrder(keys: set<Key>, rank: KeyOrder): (ks: seq<Key>)
    requires Ordered(keys, rank)
    ensures Ascending(ks, rank)
    ensures forall k :: k in ks <==> k in keys
    decreases |keys|
  {
    if keys == {} then []
    else
      var k := Least(keys, rank);
      var rest := InOrder(keys - {k}, rank);
      assert forall o :: o in rest ==> rank(k) < rank(o);
      [k] + rest
  }

  lemma {:induction false} AscendingUnique(a: seq<Key>, b: seq<Key>, rank: KeyOrder)
    requires Ascending(a, rank) && Ascending(b, rank)
    requires forall k :: k in a <==> k in b
    ensures a == b
  {
    if a + b != [] {
      assert (a + b)[0] in a && (a + b)[0] in b;
      assert a[0] in b && b[0] in a;
      assert rank(a[0]) <= rank(b[0]) && rank(b[0]) <= rank(a[0]);
      var i :| 0 <= i < |b| && b[i] == a[0];
      assert i == 0;
      forall k ensures k in a[1..] <==> k in b[1..] {
        if k in a[1..] { assert k in b && k != a[0]; }
        if k in b[1..] { assert k in a && k != b[0]; }
      }
      AscendingUnique(a[1..], b[1..], rank);
      assert a == [a[0]] + a[1..] && b == [b[0]] + b[1..];
    }
  }

  /** The keys a scan has still to return after a position (None: from the start). */
  function KeysAfter(t: Table, rank: KeyOrder, after: Option<Key>): (ks: set<Key>)
    ensures ks <= t.rows.Keys
  {
    set k | k in t.rows && (after.None? || rank(k) > rank(after.value))
  }

  function Remaining(t: Table, rank: KeyOrder, after: Option<Key>): (ks: seq<Key>)
    requires Ordered(t.rows.Keys, rank)
    ensures Ascending(ks, rank)
    ensures forall k :: k in ks <==> k in KeysAfter(t, rank, after)
  {
    InOrder(KeysAfter(t, rank, after), rank)
  }

  function RowsOf(t: Table, ks: seq<Key>): (rs: seq<Row>)
    requires forall k :: k in ks ==> k in t.rows
    ensures |rs| == |ks| && forall i :: 0 <= i < |ks| ==> rs[i] == t.rows[ks[i]]
  {
    seq(|ks|, i requires 0 <= i < |ks| => assert ks[i] in ks; t.rows[ks[i]])
  }

  datatype ScanPage = ScanPage(columns: seq<Column>, key: seq<Column>, rows: seq<Row>, next: Option<Row>)

  /** The page a full or partial run of keys makes; a full page may have a successor. */
  function PageOf(t: Table, ks: seq<Key>, limit: nat): ScanPage
    requires forall k :: k in ks ==> k in t.rows
  {
    var n := if |ks| < limit then |ks| else limit;
    var rows := RowsOf(t, ks[..n]);
    ScanPage(t.columns, t.key, rows, if n == limit && n > 0 then Some(KeyImage(t, rows[n - 1])) else None)
  }

  /** ScanRows: up to limit rows after a key, in key order. */
  function ScanRows(t: Table, rank: KeyOrder, after: Option<Key>, limit: nat): (p: ScanPage)
    requires Ordered(t.rows.Keys, rank)
  {
    PageOf(t, Remaining(t, rank, after), limit)
  }

  /** Past its n-th key, an ascending run holds exactly the keys ranked above that key. */
  lemma SuffixByRank(ks: seq<Key>, rank: KeyOrder, n: nat, k: Key)
    requires Ascending(ks, rank) && 0 < n <= |ks|
    ensures k in ks[n..] <==> k in ks && rank(k) > rank(ks[n - 1])
  {
    if k in ks && rank(k) > rank(ks[n - 1]) {
      var i :| 0 <= i < |ks| && ks[i] == k;
      assert i >= n;
      assert ks[n..][i - n] == k;
    }
    if k in ks[n..] {
      var i :| 0 <= i < |ks| - n && ks[n..][i] == k;
      assert rank(ks[n - 1]) < rank(ks[n + i]);
    }
  }

  lemma RemainingAfterPrefix(t: Table, rank: KeyOrder, after: Option<Key>, n: nat)
    requires Ordered(t.rows.Keys, rank)
    requires 0 < n <= |Remaining(t, rank, after)|
    ensures var ks := Remaining(t, rank, after);
            Remaining(t, rank, Some(ks[n - 1])) == ks[n..]
  {
    var ks := Remaining(t, rank, after);
    var last := ks[n - 1];
    assert last in KeysAfter(t, rank, after);
    var rest := Remaining(t, rank, Some(last));
    forall k ensures k in rest <==> k in ks[n..] {
      SuffixByRank(ks, rank, n, k);
      assert k in KeysAfter(t, rank, Some(last)) <==> k in KeysAfter(t, rank, after) && rank(k) > rank(last);
    }
    assert Ascending(ks[n..], rank);
    AscendingUnique(rest, ks[n..], rank);
  }

  lemma PageIs(t: Table, ks: seq<Key>, limit: nat)
    requires WellFormed(t) && limit > 0 && forall k :: k in ks ==> k in t.rows
    ensures var p := PageOf(t, ks, limit);
            && |p.rows| <= |ks| && p.rows == RowsOf(t, ks[..|p.rows|]) && (p.next.None? ==> |p.rows| == |ks|)
            && (p.next.Some? ==> |p.rows| == limit && KeyAt(t.key, p.next.value) == ks[limit - 1])
  {
    if |ks| >= limit {
      var last := ks[limit - 1];
      assert last in ks;
      assert ks[..limit][limit - 1] == last;
      LastImage(t, last);
    }
  }

  lemma LastImage(t: Table, k: Key)
    requires WellFormed(t) && k in t.rows
    ensures KeyAt(t.key, KeyImage(t, t.rows[k])) == k
  {
    assert RowFits(t, k, t.rows[k]);
    KeyOfImage(t, t.rows[k]);
  }

  /** What one page leaves to scan: exactly the keys beyond it. */
  lemma ScanProgress(t: Table, rank: KeyOrder, after: Option<Key>, limit: nat)
    requires WellFormed(t) && Ordered(t.rows.Keys, rank) && limit > 0
    ensures var ks := Remaining(t, rank, after);
            var p := ScanRows(t, rank, after, limit);
            && |p.rows| <= |ks| && p.rows == RowsOf(t, ks[..|p.rows|])
            && (p.next.None? ==> |p.rows| == |ks|)
            && (p.next.Some? ==> |p.rows| == limit && Remaining(t, rank, Some(KeyAt(t.key, p.next.value))) == ks[limit..])
  {
    PageIs(t, Remaining(t, rank, after), limit);
    if ScanRows(t, rank, after, limit).next.Some? {
      RemainingAfterPrefix(t, rank, after, limit);
    }
  }

  datatype ReadError = NoRowKey | TooManyKeys | BadKey

  predicate KeyComplete(key: seq<Column>, r: Row) {
    forall c :: c in key ==> c in r && r[c] != Null
  }

  predicate Asked(t: Table, keys: seq<Row>, r: Row) {
    exists k :: k in keys && KeyAt(t.key, k) == KeyAt(t.key, r)
  }

  /** The rows of t that a list of key images asks for, and no others. */
  predicate Fetched(t: Table, keys: seq<Row>, rows: seq<Row>) {
    && (forall r :: r in rows ==> r.Keys == ColumnSet(t.columns) && Lookup(t, KeyAt(t.key, r)) == Some(r) && Asked(t, keys, r))
    && (forall k :: k in keys && KeyAt(t.key, k) in t.rows ==> t.rows[KeyAt(t.key, k)] in rows)
  }

  predicate EachOnce(rows: seq<Row>) {
    forall i, j :: 0 <= i < j < |rows| ==> rows[i] != rows[j]
  }

  /** GetRows: of the rows with these keys, those that exist, once each and in no promised order. The
      keys, at most maxKeys, must give every key column of the table. */
  method GetRows(t: Table, keys: seq<Row>, maxKeys: nat) returns (p: Result<ScanPage, ReadError>)
    requires WellFormed(t)
    ensures p.Err? <==> t.key == [] || |keys| > maxKeys || exists k :: k in keys && !KeyComplete(t.key, k)
    ensures p.Err? ==> p.error == (if t.key == [] then NoRowKey else if |keys| > maxKeys then TooManyKeys else BadKey)
    ensures p.Ok? ==> && p.value.columns == t.columns && p.value.key == t.key
                      && Fetched(t, keys, p.value.rows) && EachOnce(p.value.rows)
  {
    if t.key == [] {
      return Err(NoRowKey);
    }
    if |keys| > maxKeys {
      return Err(TooManyKeys);
    }
    var rows: seq<Row> := [];
    for n := 0 to |keys|
      invariant Fetched(t, keys[..n], rows) && EachOnce(rows)
      invariant forall k :: k in keys[..n] ==> KeyComplete(t.key, k)
    {
      assert keys[..n + 1] == keys[..n] + [keys[n]];
      if !KeyComplete(t.key, keys[n]) {
        return Err(BadKey);
      }
      var more := Fetch(t, keys[..n], rows, keys[n]);
      rows := more;
    }
    assert keys[..|keys|] == keys;
    p := Ok(ScanPage(t.columns, t.key, rows, None));
  }

  lemma AskedMore(t: Table, keys: seq<Row>, key: Row, r: Row)
    requires Asked(t, keys, r) || KeyAt(t.key, key) == KeyAt(t.key, r)
    ensures Asked(t, keys + [key], r)
  {
    if Asked(t, keys, r) {
      var x :| x in keys && KeyAt(t.key, x) == KeyAt(t.key, r);
      assert x in keys + [key];
    } else {
      assert key in keys + [key];
    }
  }

  /** One more key looked up. */
  method Fetch(t: Table, keys: seq<Row>, rows: seq<Row>, key: Row) returns (more: seq<Row>)
    requires WellFormed(t) && Fetched(t, keys, rows) && EachOnce(rows)
    ensures Fetched(t, keys + [key], more) && EachOnce(more)
  {
    var k := KeyAt(t.key, key);
    more := rows;
    if k in t.rows && t.rows[k] !in rows {
      assert RowFits(t, k, t.rows[k]);
      more := rows + [t.rows[k]];
    }
    forall r | r in more ensures Asked(t, keys + [key], r) {
      AskedMore(t, keys, key, r);
    }
  }
}
