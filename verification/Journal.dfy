/** The row change journal: what an entry keeps of a change, and why applying its inverse takes
    the change back (backend/internal/domain/rowchange/rowchange.go, backend/internal/app/dbadmin/changes.go). */
module Journal {
  import opened Wrappers
  import opened Rows
  import opened Tables

  const MAX_ENTRY_BYTES: nat := 262144
  const MAX_BATCH_UNDO: nat := 200

  type TableName = string
  type User = nat
  type Batch = nat

  type Database = map<TableName, Table>

  predicate WellFormedTables(db: Database) {
    forall n :: n in db ==> WellFormed(db[n])
  }

  datatype Source = Editor | Undo | Restore

  /** One journal entry; its id is its position in the journal, which is in creation order. */
  datatype Change = Change(
    table: TableName, op: Op, key: Key, before: Option<Row>, after: Option<Row>, undoable: bool,
    source: Source, batch: Option<Batch>, user: Option<User>, undoOf: Option<nat>, undoneBy: Option<User>)

  /** Who made an edit and which save it belongs to; no user means nobody is signed in. */
  datatype Meta = Meta(user: Option<User>, batch: Option<Batch>)

  /** What the database decides: column defaults, and how many bytes a change's images encode to. */
  datatype Env = Env(defaults: TableName -> Row, entryBytes: RowChange -> nat)

  function FromEngine(env: Env, table: TableName, source: Source, ch: RowChange, meta: Meta, undoOf: Option<nat>): Change {
    var tooBig := env.entryBytes(ch) > MAX_ENTRY_BYTES;
    Change(table, ch.op, ch.key, if tooBig then None else ch.before, if tooBig then None else ch.after,
           ch.undoable && !tooBig, source, meta.batch, meta.user, undoOf, None)
  }

  /** The apply request that takes c back; force skips the check of the row's present state. */
  function UndoRequest(c: Change, force: bool): ApplyRequest {
    var check, want :=
      match c.op
      case Insert => ExpectImage(c.after)
      case Update => ExpectImage(c.after)
      case Delete => ExpectImage(None)
      case Nothing => Unchecked,
      if c.op.Update? || c.op.Delete? then c.before else None;
    ApplyRequest(c.key, if force then Unchecked else check, want)
  }

  /** c is an undoable entry of a change that took table t to t', with exact images. */
  predicate Records(t: Table, c: Change, t': Table) {
    && WellFormed(t) && WellFormed(t') && t'.columns == t.columns && t'.key == t.key && c.undoable
    && match c.op
       case Nothing => false
       case Insert =>
         c.before.None? && c.after.Some? && c.key !in t.rows && t'.rows == t.rows[c.key := c.after.value]
       case Delete =>
         c.after.None? && Lookup(t, c.key) == c.before && c.before.Some? && t'.rows == t.rows - {c.key}
       case Update =>
         && c.before.Some? && c.after.Some?
         && RecordsUpdate(t, KeyAt(t.key, c.before.value), c.before.value, c.key, c.after.value, t')
  }

  /** The row at k0 had the values b; setting the values a moved it to k1. */
  predicate RecordsUpdate(t: Table, k0: Key, b: Row, k1: Key, a: Row, t': Table) {
    && a.Keys == b.Keys && ColumnSet(t.key) <= a.Keys <= ColumnSet(t.columns)
    && k0 in t.rows && SameValues(b, t.rows[k0])
    && KeyAt(t.key, a) == k1 && (k1 == k0 || k1 !in t.rows)
    && t'.rows == (t.rows - {k0})[k1 := t.rows[k0] + a]
  }

  lemma KeyOfPick(key: seq<Column>, r: Row, cols: set<Column>)
    requires ColumnSet(key) <= cols
    ensures KeyAt(key, Pick(r, cols)) == KeyAt(key, r)
  {
    forall i | 0 <= i < |key| ensures At(Pick(r, cols), key[i]) == At(r, key[i]) {
      assert key[i] in key;
    }
  }

  lemma OverlayPicked(before: Row, values: Row, extra: set<Column>)
    requires extra <= before.Keys
    ensures before + Pick(before + values, values.Keys + extra) == before + values
  {
    var picked := Pick(before + values, values.Keys + extra);
    forall c | c in before + values ensures (before + picked)[c] == (before + values)[c] {
      if c in values { assert picked[c] == values[c]; }
    }
    assert (before + picked).Keys == (before + values).Keys;
  }

  /** Writing back the values a row had before undoes an overlay of the same columns. */
  lemma OverlayReverted(row: Row, a: Row, b: Row)
    requires a.Keys == b.Keys && SameValues(b, row)
    ensures (row + a) + Changes(row + a, b) == row
  {
    var cur := row + a;
    var back := cur + Changes(cur, b);
    forall c | c in row ensures back[c] == row[c] {
      if c in b { assert row[c] == b[c]; }
    }
    assert back.Keys == row.Keys;
  }

  /** The images UpdateRowAt reports are exact. */
  lemma UpdateIsRecorded(t: Table, key: Key, values: Row)
    requires WellFormed(t) && UpdateRowAt(t, key, values).Ok?
    ensures var (t', ch) := UpdateRowAt(t, key, values).value;
            && t'.columns == t.columns && t'.key == t.key
            && ch.op == Update && ch.undoable && ch.before.Some? && ch.after.Some?
            && KeyAt(t.key, ch.before.value) == key
            && RecordsUpdate(t, key, ch.before.value, ch.key, ch.after.value, t')
  {
    var before := t.rows[key];
    assert RowFits(t, key, before);
    assert ColumnSet(t.key) <= before.Keys;
    var touched := values.Keys + ColumnSet(t.key);
    KeyOfPick(t.key, before, touched);
    KeyOfPick(t.key, before + values, touched);
    OverlayPicked(before, values, ColumnSet(t.key));
    assert Pick(before + values, touched).Keys == touched == Pick(before, touched).Keys;
  }

  /** What an outcome's journal entry says of it. */
  predicate RecordsOutcome(env: Env, table: TableName, source: Source, t: Table, o: Outcome, meta: Meta, undoOf: Option<nat>)
    requires o.Ok?
  {
    var (t', ch) := o.value;
    var c := FromEngine(env, table, source, ch, meta, undoOf);
    && t'.columns == t.columns && t'.key == t.key
    && (ch.op.Nothing? ==> t' == t)
    && (!ch.op.Nothing? && c.undoable ==> Records(t, c, t'))
  }

  lemma UpdateOutcome(env: Env, table: TableName, source: Source, t: Table, meta: Meta, undoOf: Option<nat>, key: Key, values: Row)
    requires WellFormed(t) && UpdateRowAt(t, key, values).Ok?
    ensures RecordsOutcome(env, table, source, t, UpdateRowAt(t, key, values), meta, undoOf)
  {
    UpdateIsRecorded(t, key, values);
  }

  lemma EditOutcome(env: Env, table: TableName, source: Source, t: Table, meta: Meta, undoOf: Option<nat>, e: Edit)
    requires WellFormed(t) && ChangeRow(t, e).Ok?
    ensures RecordsOutcome(env, table, source, t, ChangeRow(t, e), meta, undoOf)
  {
    if e.UpdateRow? {
      UpdateOutcome(env, table, source, t, meta, undoOf, e.key, e.values);
    }
  }

  lemma ImageOutcome(env: Env, table: TableName, source: Source, t: Table, meta: Meta, undoOf: Option<nat>, req: ApplyRequest)
    requires WellFormed(t) && ApplyRow(t, req, env.defaults(table)).Ok?
    ensures RecordsOutcome(env, table, source, t, ApplyRow(t, req, env.defaults(table)), meta, undoOf)
  {
    if req.want.Some? && req.key in t.rows {
      var changed := Changes(t.rows[req.key], req.want.value);
      if changed != map[] {
        UpdateOutcome(env, table, source, t, meta, undoOf, req.key, changed);
      }
    }
  }

  /** Whatever an edit or an image write reports as undoable is recorded exactly. */
  lemma OutcomeIsRecorded(env: Env, table: TableName, source: Source, t: Table, o: Outcome, meta: Meta, undoOf: Option<nat>,
                          e: Edit, req: ApplyRequest)
    requires WellFormed(t) && o.Ok?
    requires o == ChangeRow(t, e) || o == ApplyRow(t, req, env.defaults(table))
    ensures var (t', ch) := o.value;
            var c := FromEngine(env, table, source, ch, meta, undoOf);
            && t'.columns == t.columns && t'.key == t.key
            && (ch.op.Nothing? ==> t' == t)
            && (!ch.op.Nothing? && c.undoable ==> Records(t, c, t'))
  {
    if o == ChangeRow(t, e) {
      EditOutcome(env, table, source, t, meta, undoOf, e);
    } else {
      ImageOutcome(env, table, source, t, meta, undoOf, req);
    }
  }

  lemma UndoInsert(t: Table, c: Change, t': Table, force: bool, defaults: Row)
    requires Records(t, c, t') && c.op.Insert?
    ensures ApplyRow(t', UndoRequest(c, force), defaults)
         == Ok((t, RowChange(Delete, c.key, c.after, None, true)))
  {
    assert t'.rows - {c.key} == t.rows;
  }

  lemma UndoDelete(t: Table, c: Change, t': Table, force: bool, defaults: Row)
    requires Records(t, c, t') && c.op.Delete?
    ensures ApplyRow(t', UndoRequest(c, force), defaults)
         == Ok((t, RowChange(Insert, c.key, None, c.before, true)))
  {
    var row := c.before.value;
    assert RowFits(t, c.key, row);
    assert NewRow(t', row, defaults) == row;
    assert t'.rows[c.key := row] == t.rows;
  }

  lemma MovedRowReturns(rows: map<Key, Row>, k0: Key, k1: Key, cur: Row)
    requires k0 in rows && (k1 == k0 || k1 !in rows)
    ensures ((rows - {k0})[k1 := cur] - {k1})[k0 := rows[k0]] == rows
    ensures k0 == k1 && cur == rows[k0] ==> (rows - {k0})[k1 := cur] == rows
  {
  }

  /** Writing the before image back over the after image restores the whole row and its place. */
  lemma UndoUpdate(t: Table, c: Change, t': Table, force: bool, defaults: Row)
    requires Records(t, c, t') && c.op.Update?
    ensures var o := ApplyRow(t', UndoRequest(c, force), defaults);
            o.Ok? && o.value.0 == t
  {
    var a, b := c.after.value, c.before.value;
    var k0 := KeyAt(t.key, b);
    var row, cur := t.rows[k0], t'.rows[c.key];
    assert RowFits(t, k0, row) && RowFits(t', c.key, cur);
    OverlayReverted(row, a, b);
    MovedRowReturns(t.rows, k0, c.key, cur);
    var req := UndoRequest(c, force);
    assert Passes(req.check, Some(cur));
    if Changes(cur, b) == map[] {
      assert cur == row && c.key == k0;
    } else {
      assert UpdateRowAt(t', c.key, Changes(cur, b)).Ok?;
      assert UpdateRowAt(t', c.key, Changes(cur, b)).value.0 == t;
      assert ApplyRow(t', req, defaults) == UpdateRowAt(t', c.key, Changes(cur, b));
    }
  }

  /** Undoing a recorded change leads back to where it started. Unless the change had no effect,
      the undo is itself a change that the journal can record exactly. */
  lemma UndoIsInverse(env: Env, table: TableName, t: Table, c: Change, t': Table, force: bool, meta: Meta, undoOf: Option<nat>)
    requires Records(t, c, t')
    ensures var o := ApplyRow(t', UndoRequest(c, force), env.defaults(table));
            && o.Ok? && o.value.0 == t
            && var u := FromEngine(env, table, Undo, o.value.1, meta, undoOf);
               && (u.op.Nothing? ==> t == t')
               && (!u.op.Nothing? && u.undoable ==> Records(t', u, t))
  {
    var defaults := env.defaults(table);
    match c.op {
      case Insert => UndoInsert(t, c, t', force, defaults);
      case Delete => UndoDelete(t, c, t', force, defaults);
      case Update => UndoUpdate(t, c, t', force, defaults);
    }
    var req := UndoRequest(c, force);
    OutcomeIsRecorded(env, table, Undo, t', ApplyRow(t', req, defaults), meta, undoOf, DeleteRow([]), req);
  }
}
