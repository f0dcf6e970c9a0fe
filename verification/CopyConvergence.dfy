/** What comparing and restoring promise together: restoring a whole comparison makes the table match
    the backup, and a row that is not as compared is left alone. */
module CopyConvergence {
  import opened Wrappers
  import opened Rows
  import opened Tables
  import opened Journal
  import opened DataBrowser
  import opened CopyDiff
  import opened CopyRestore

  function InputOf(x: Item): RestoreInput {
    match x
    case Added(key, hash) => RestoreInput(key, KindAdded, hash)
    case Changed(key, _, hash) => RestoreInput(key, KindChanged, hash)
    case Removed(key) => RestoreInput(key, KindRemoved, map[])
  }

  predicate SameOn(a: Row, b: Row, cols: seq<Column>) {
    forall c :: c in cols ==> At(a, c) == At(b, c)
  }

  /** The table has a row at k exactly when the backup does, with the backup's values on all common columns. */
  predicate Settled(t: Table, backup: Table, k: Key) {
    && (k in t.rows <==> k in backup.rows)
    && (k in t.rows ==> SameOn(t.rows[k], backup.rows[k], Common(t.columns, backup.columns)))
  }

  ghost predicate OthersKept(t: Table, t': Table, k: Key) {
    forall j :: j != k ==> Lookup(t', j) == Lookup(t, j)
  }

  predicate SameShape(t: Table, u: Table) {
    t.columns == u.columns && t.key == u.key
  }

  lemma KeyColumnsCommon(t: Table, backup: Table)
    requires WellFormed(t) && WellFormed(backup) && t.key == backup.key
    ensures forall c :: c in t.key ==> c in Common(t.columns, backup.columns)
  {
  }

  lemma KeyPartIsExact(t: Table, k: Key)
    requires WellFormed(t) && k in t.rows
    ensures ExactKey(t.key, KeyPart(t.key, t.rows[k])) && KeyAt(t.key, KeyPart(t.key, t.rows[k])) == k
  {
    assert RowFits(t, k, t.rows[k]);
    KeyOfKeyPart(t.key, t.rows[k]);
    StoredRowKeyComplete(t, t.rows[k]);
  }

  function Wanted(backup: Table, k: Key, common: seq<Column>): Row
    requires k in backup.rows
  {
    map c | c in common :: At(backup.rows[k], c)
  }

  /** Writing the backup's common values keeps or gives the row the backup's key. */
  lemma WantedKey(t: Table, backup: Table, k: Key, base: Row)
    requires WellFormed(t) && WellFormed(backup) && t.key == backup.key && k in backup.rows
    ensures KeyAt(t.key, base + Wanted(backup, k, Common(t.columns, backup.columns))) == k
  {
    KeyColumnsCommon(t, backup);
    assert RowFits(backup, k, backup.rows[k]);
    var common := Common(t.columns, backup.columns);
    var row := base + Wanted(backup, k, common);
    forall i | 0 <= i < |t.key| ensures At(row, t.key[i]) == k[i] {
      assert t.key[i] in t.key && t.key[i] in common;
    }
  }

  lemma ApplyDeletes(t: Table, k: Key, check: Check, defaults: Row)
    requires WellFormed(t) && k in t.rows && Passes(check, Some(t.rows[k]))
    ensures var o := ApplyRow(t, ApplyRequest(k, check, None), defaults);
            o.Ok? && o.value.0 == t.(rows := t.rows - {k})
  {
  }

  lemma ApplyInserts(t: Table, k: Key, check: Check, want: Row, defaults: Row)
    requires WellFormed(t) && k !in t.rows && Passes(check, None) && want.Keys <= ColumnSet(t.columns)
    requires KeyAt(t.key, NewRow(t, want, defaults)) == k && Null !in k
    ensures var o := ApplyRow(t, ApplyRequest(k, check, Some(want)), defaults);
            o.Ok? && o.value.0 == t.(rows := t.rows[k := NewRow(t, want, defaults)])
  {
  }

  lemma OverlayByChanges(cur: Row, want: Row)
    ensures cur + Changes(cur, want) == cur + want
  {
  }

  lemma UpdateInPlace(t: Table, k: Key, changed: Row, after: Row)
    requires WellFormed(t) && k in t.rows && changed.Keys <= ColumnSet(t.columns)
    requires after == t.rows[k] + changed && KeyAt(t.key, after) == k && Null !in k
    ensures var o := UpdateRowAt(t, k, changed);
            o.Ok? && o.value.0 == t.(rows := t.rows[k := after])
  {
    UpdateTouchesOneRow(t, k, changed);
    assert (t.rows - {k})[k := after] == t.rows[k := after];
  }

  lemma ApplyUpdates(t: Table, k: Key, check: Check, want: Row, defaults: Row)
    requires WellFormed(t) && k in t.rows && Passes(check, Some(t.rows[k])) && want.Keys <= ColumnSet(t.columns)
    requires KeyAt(t.key, t.rows[k] + want) == k && Null !in k
    ensures var o := ApplyRow(t, ApplyRequest(k, check, Some(want)), defaults);
            o.Ok? && o.value.0 == t.(rows := t.rows[k := t.rows[k] + want])
  {
    var changed := Changes(t.rows[k], want);
    OverlayByChanges(t.rows[k], want);
    if changed == map[] {
      assert t.rows[k] + changed == t.rows[k];
      assert t.rows[k := t.rows[k]] == t.rows;
    } else {
      UpdateInPlace(t, k, changed, t.rows[k] + want);
    }
  }

  /** Since live was read, the row at k has neither come, gone, nor changed on a compared column. */
  predicate AsCompared(t: Table, live: Table, backup: Table, k: Key) {
    && (k in t.rows <==> k in live.rows)
    && (k in t.rows ==> SameOn(t.rows[k], live.rows[k], Common(live.columns, backup.columns)))
  }

  /** What restoring a reported row checks: its fingerprint when it was there, its absence when it was not. */
  function CheckOf(live: Table, backup: Table, k: Key): Check {
    var common := Common(live.columns, backup.columns);
    if k in live.rows then ExpectHash(common, RowHash(live.rows[k], common)) else ExpectImage(None)
  }

  function WantOf(live: Table, backup: Table, k: Key): Option<Row> {
    if k in backup.rows then Some(Wanted(backup, k, Common(live.columns, backup.columns))) else None
  }

  lemma RequestFor(t: Table, live: Table, backup: Table, k: Key)
    requires Comparable(live, backup) && SameShape(t, live) && Verdict(live, backup, k).Some?
    ensures var input := InputOf(Verdict(live, backup, k).value);
            && ExactKey(t.key, input.key)
            && RestoreRequest(t, backup, Common(live.columns, backup.columns), input)
               == Some(ApplyRequest(k, CheckOf(live, backup, k), WantOf(live, backup, k)))
  {
    if k in live.rows {
      KeyPartIsExact(live, k);
    } else {
      KeyPartIsExact(backup, k);
    }
  }

  lemma FingerprintsAgree(a: Row, b: Row, cols: seq<Column>)
    requires forall c :: c in cols ==> c in a && c in b
    ensures RowHash(a, cols) == RowHash(b, cols) <==> SameOn(a, b, cols)
  {
    if RowHash(a, cols) == RowHash(b, cols) {
      SameHashSameCells(a, b, cols);
    }
  }

  lemma CheckIsExact(t: Table, live: Table, backup: Table, k: Key)
    requires Comparable(live, backup) && WellFormed(t) && SameShape(t, live)
    ensures Passes(CheckOf(live, backup, k), Lookup(t, k)) <==> AsCompared(t, live, backup, k)
  {
    if k in t.rows && k in live.rows {
      assert RowFits(t, k, t.rows[k]) && RowFits(live, k, live.rows[k]);
      FingerprintsAgree(t.rows[k], live.rows[k], Common(live.columns, backup.columns));
    }
  }

  lemma WantedValues(backup: Table, k: Key, common: seq<Column>, row: Row)
    requires k in backup.rows && SameValues(Wanted(backup, k, common), row)
    ensures SameOn(row, backup.rows[k], common)
  {
    forall c | c in common ensures At(row, c) == At(backup.rows[k], c) {
      assert c in Wanted(backup, k, common);
    }
  }

  ghost predicate SettlesAlone(t: Table, o: Outcome, backup: Table, k: Key) {
    o.Ok? && SameShape(o.value.0, t) && Settled(o.value.0, backup, k) && OthersKept(t, o.value.0, k)
  }

  lemma DeletionSettles(t: Table, backup: Table, k: Key, check: Check, defaults: Row)
    requires WellFormed(t) && k in t.rows && k !in backup.rows && Passes(check, Some(t.rows[k]))
    ensures SettlesAlone(t, ApplyRow(t, ApplyRequest(k, check, None), defaults), backup, k)
  {
    ApplyDeletes(t, k, check, defaults);
  }

  lemma NewRowHolds(t: Table, want: Row, defaults: Row)
    requires want.Keys <= ColumnSet(t.columns)
    ensures SameValues(want, NewRow(t, want, defaults)) && NewRow(t, want, defaults) + want == NewRow(t, want, defaults)
  {
  }

  lemma WantedFits(t: Table, backup: Table, k: Key)
    requires WellFormed(backup) && k in backup.rows
    ensures Wanted(backup, k, Common(t.columns, backup.columns)).Keys <= ColumnSet(t.columns) && Null !in k
  {
    assert RowFits(backup, k, backup.rows[k]);
  }

  lemma InsertionSettles(t: Table, backup: Table, k: Key, check: Check, want: Row, defaults: Row)
    requires WellFormed(t) && WellFormed(backup) && t.key == backup.key && k !in t.rows && k in backup.rows
    requires Passes(check, None) && want == Wanted(backup, k, Common(t.columns, backup.columns))
    ensures SettlesAlone(t, ApplyRow(t, ApplyRequest(k, check, Some(want)), defaults), backup, k)
  {
    var row := NewRow(t, want, defaults);
    WantedFits(t, backup, k);
    NewRowHolds(t, want, defaults);
    WantedKey(t, backup, k, row);
    ApplyInserts(t, k, check, want, defaults);
    WantedValues(backup, k, Common(t.columns, backup.columns), row);
    InsertedAlone(t, k, row, backup);
  }

  lemma InsertedAlone(t: Table, k: Key, row: Row, backup: Table)
    requires k !in t.rows && k in backup.rows && SameOn(row, backup.rows[k], Common(t.columns, backup.columns))
    ensures var t' := t.(rows := t.rows[k := row]);
            SameShape(t', t) && Settled(t', backup, k) && OthersKept(t, t', k)
  {
  }

  lemma UpdateSettles(t: Table, backup: Table, k: Key, check: Check, want: Row, defaults: Row)
    requires WellFormed(t) && WellFormed(backup) && t.key == backup.key && k in t.rows && k in backup.rows
    requires Passes(check, Some(t.rows[k])) && want == Wanted(backup, k, Common(t.columns, backup.columns))
    ensures SettlesAlone(t, ApplyRow(t, ApplyRequest(k, check, Some(want)), defaults), backup, k)
  {
    assert RowFits(backup, k, backup.rows[k]) && want.Keys <= ColumnSet(t.columns);
    WantedKey(t, backup, k, t.rows[k]);
    ApplyUpdates(t, k, check, want, defaults);
    WantedValues(backup, k, Common(t.columns, backup.columns), t.rows[k] + want);
  }

  /** The write settles a row that is as compared, and only that row. */
  lemma ApplySettles(t: Table, live: Table, backup: Table, k: Key, defaults: Row)
    requires Comparable(live, backup) && WellFormed(t) && SameShape(t, live)
    requires Verdict(live, backup, k).Some? && AsCompared(t, live, backup, k)
    ensures SettlesAlone(t, ApplyRow(t, ApplyRequest(k, CheckOf(live, backup, k), WantOf(live, backup, k)), defaults), backup, k)
  {
    CheckIsExact(t, live, backup, k);
    var check := CheckOf(live, backup, k);
    if k !in backup.rows {
      DeletionSettles(t, backup, k, check, defaults);
    } else if k in t.rows {
      UpdateSettles(t, backup, k, check, Wanted(backup, k, Common(live.columns, backup.columns)), defaults);
    } else {
      InsertionSettles(t, backup, k, check, Wanted(backup, k, Common(live.columns, backup.columns)), defaults);
    }
  }

  lemma ConflictsUnlessAsCompared(t: Table, live: Table, backup: Table, k: Key, defaults: Row)
    requires Comparable(live, backup) && WellFormed(t) && SameShape(t, live) && !AsCompared(t, live, backup, k)
    ensures ApplyRow(t, ApplyRequest(k, CheckOf(live, backup, k), WantOf(live, backup, k)), defaults) == Err(RowChanged)
  {
    CheckIsExact(t, live, backup, k);
  }

  /** A request's write decides the outcome. */
  lemma RestoreOneWrites(env: Env, s: State, table: TableName, backup: Table, common: seq<Column>, input: RestoreInput, meta: Meta,
                         req: ApplyRequest, o: Outcome)
    returns (s': State, r: RestoreOutcome)
    requires Sound(s) && table in s.db && ExactKey(s.db[table].key, input.key)
    requires RestoreRequest(s.db[table], backup, common, input) == Some(req)
    requires o == ApplyRow(s.db[table], req, env.defaults(table))
    ensures RestoreOne(env, s, table, backup, common, input, meta, false) == (s', r) && Sound(s')
    ensures o.Ok? ==> r.Restored? && s'.db == s.db[table := o.value.0]
    ensures o == Err(RowChanged) ==> r.RowConflict? && s' == s
  {
    s', r := RestoreOne(env, s, table, backup, common, input, meta, false).0,
             RestoreOne(env, s, table, backup, common, input, meta, false).1;
  }

  /** A reported row is restored, and it alone, exactly when it is as compared; otherwise it is
      reported as a conflict and nothing changes. */
  lemma RestoredIffAsCompared(env: Env, s: State, table: TableName, live: Table, backup: Table, k: Key, x: Item, meta: Meta)
    returns (s': State, r: RestoreOutcome)
    requires Sound(s) && table in s.db && Comparable(live, backup) && SameShape(s.db[table], live)
    requires Verdict(live, backup, k) == Some(x)
    ensures RestoreOne(env, s, table, backup, Common(live.columns, backup.columns), InputOf(x), meta, false) == (s', r)
    ensures r.Restored? <==> AsCompared(s.db[table], live, backup, k)
    ensures r.RowConflict? <==> !AsCompared(s.db[table], live, backup, k)
    ensures r.RowConflict? ==> s' == s
    ensures r.Restored? ==> && Sound(s') && table in s'.db && WellFormed(s'.db[table]) && SameShape(s'.db[table], live)
                            && Settled(s'.db[table], backup, k) && OthersKept(s.db[table], s'.db[table], k)
  {
    var t := s.db[table];
    RequestFor(t, live, backup, k);
    var req := ApplyRequest(k, CheckOf(live, backup, k), WantOf(live, backup, k));
    var o := ApplyRow(t, req, env.defaults(table));
    if AsCompared(t, live, backup, k) {
      ApplySettles(t, live, backup, k, env.defaults(table));
    } else {
      ConflictsUnlessAsCompared(t, live, backup, k, env.defaults(table));
    }
    s', r := RestoreOneWrites(env, s, table, backup, Common(live.columns, backup.columns), InputOf(x), meta, req, o);
  }

  /** A row changed only in a column added since the backup passes as unchanged. */
  lemma DriftMissed(live: Table, backup: Table, k: Key, c: Column) returns (t: Table)
    requires Comparable(live, backup) && k in live.rows && c in live.columns && c !in backup.columns
    ensures WellFormed(t) && SameShape(t, live) && AsCompared(t, live, backup, k) && Lookup(t, k) != Lookup(live, k)
  {
    var row := live.rows[k];
    assert RowFits(live, k, row);
    var drifted := row[c := if row[c] == Null then Text("") else Null];
    forall i | 0 <= i < |live.key| ensures At(drifted, live.key[i]) == k[i] {
      assert live.key[i] in backup.key && live.key[i] in backup.columns;
    }
    t := live.(rows := live.rows[k := drifted]);
    assert RowFits(t, k, drifted);
  }

  /** What putting back a row that is as compared leaves of a column that the backup does not have: a row the
      backup has keeps it, however it changed meanwhile; one it does not have goes with it. */
  lemma DriftIsKeptIff(env: Env, s: State, table: TableName, live: Table, backup: Table, k: Key, x: Item, c: Column, meta: Meta)
    returns (s': State, r: RestoreOutcome)
    requires Sound(s) && table in s.db && Comparable(live, backup) && SameShape(s.db[table], live)
    requires Verdict(live, backup, k) == Some(x) && AsCompared(s.db[table], live, backup, k)
    requires k in s.db[table].rows && c in live.columns && c !in backup.columns
    ensures RestoreOne(env, s, table, backup, Common(live.columns, backup.columns), InputOf(x), meta, false) == (s', r)
    ensures r.Restored? && table in s'.db
    ensures if k in backup.rows then k in s'.db[table].rows && At(s'.db[table].rows[k], c) == At(s.db[table].rows[k], c)
            else k !in s'.db[table].rows
  {
    var t := s.db[table];
    var check := CheckOf(live, backup, k);
    RequestFor(t, live, backup, k);
    CheckIsExact(t, live, backup, k);
    if k in backup.rows {
      WantedFits(t, backup, k);
      WantedKey(t, backup, k, t.rows[k]);
      ApplyUpdates(t, k, check, Wanted(backup, k, Common(live.columns, backup.columns)), env.defaults(table));
    } else {
      ApplyDeletes(t, k, check, env.defaults(table));
    }
    var req := ApplyRequest(k, check, WantOf(live, backup, k));
    s', r := RestoreOneWrites(env, s, table, backup, Common(live.columns, backup.columns), InputOf(x), meta, req,
                              ApplyRow(t, req, env.defaults(table)));
  }

  lemma SameRowIfOnAllColumns(a: Row, b: Row, cols: seq<Column>)
    requires a.Keys == b.Keys && (forall c :: c in a ==> c in cols) && SameOn(a, b, cols)
    ensures a == b
  {
    forall c | c in a ensures a[c] == b[c] {
      assert c in cols;
    }
  }

  lemma DriftSeen(t: Table, live: Table, backup: Table, k: Key)
    requires Comparable(live, backup) && k in live.rows && forall c :: c in live.columns ==> c in backup.columns
    requires WellFormed(t) && SameShape(t, live) && AsCompared(t, live, backup, k)
    ensures Lookup(t, k) == Lookup(live, k)
  {
    assert RowFits(t, k, t.rows[k]) && RowFits(live, k, live.rows[k]);
    SameRowIfOnAllColumns(t.rows[k], live.rows[k], Common(live.columns, backup.columns));
  }

  /** The check sees every change of a row exactly when the backup has every column of the table. */
  lemma DriftSeenIff(live: Table, backup: Table, k: Key)
    requires Comparable(live, backup) && k in live.rows
    ensures (forall t :: WellFormed(t) && SameShape(t, live) && AsCompared(t, live, backup, k) ==> Lookup(t, k) == Lookup(live, k))
       <==> (forall c :: c in live.columns ==> c in backup.columns)
  {
    if c :| c in live.columns && c !in backup.columns {
      var t := DriftMissed(live, backup, k, c);
    } else {
      forall t | WellFormed(t) && SameShape(t, live) && AsCompared(t, live, backup, k) ensures Lookup(t, k) == Lookup(live, k) {
        DriftSeen(t, live, backup, k);
      }
    }
  }

  // ---- A whole comparison, restored in any number of calls ----------------------------------

  function ItemKey(key: seq<Column>, x: Item): Key {
    KeyAt(key, x.key)
  }

  function FirstKeys(key: seq<Column>, items: seq<Item>, n: nat): set<Key>
    requires n <= |items|
  {
    if n == 0 then {} else FirstKeys(key, items, n - 1) + {ItemKey(key, items[n - 1])}
  }

  lemma {:induction false} FirstKeysAre(key: seq<Column>, items: seq<Item>, n: nat)
    requires n <= |items|
    ensures forall k :: k in FirstKeys(key, items, n) <==> exists i :: 0 <= i < n && ItemKey(key, items[i]) == k
  {
    if n > 0 {
      FirstKeysAre(key, items, n - 1);
      forall k | exists i :: 0 <= i < n - 1 && ItemKey(key, items[i]) == k ensures k in FirstKeys(key, items, n) {
      }
      assert ItemKey(key, items[n - 1]) in FirstKeys(key, items, n);
      forall k | k in FirstKeys(key, items, n) && k != ItemKey(key, items[n - 1])
        ensures exists i :: 0 <= i < n && ItemKey(key, items[i]) == k
      {
        assert k in FirstKeys(key, items, n - 1);
      }
    }
  }

  /** The rows at the keys done match the backup; every other key is as it was when compared. */
  ghost predicate Progress(t: Table, live: Table, backup: Table, done: set<Key>) {
    && WellFormed(t) && SameShape(t, live)
    && (forall k :: if k in done then Settled(t, backup, k) else Lookup(t, k) == Lookup(live, k))
  }

  /** Every item is the verdict on its own key. */
  predicate VerdictItems(live: Table, backup: Table, items: seq<Item>) {
    forall i :: 0 <= i < |items| ==> Verdict(live, backup, ItemKey(live.key, items[i])) == Some(items[i])
  }

  lemma NextKeyIsNew(key: seq<Column>, items: seq<Item>, n: nat)
    requires n < |items| && KeysDiffer(key, items)
    ensures ItemKey(key, items[n]) !in FirstKeys(key, items, n)
  {
    FirstKeysAre(key, items, n);
  }

  lemma ProgressStep(t: Table, t': Table, live: Table, backup: Table, done: set<Key>, k: Key)
    requires Progress(t, live, backup, done)
    requires WellFormed(t') && SameShape(t', live) && Settled(t', backup, k) && OthersKept(t, t', k)
    ensures Progress(t', live, backup, done + {k})
  {
    forall j ensures if j in done + {k} then Settled(t', backup, j) else Lookup(t', j) == Lookup(live, j) {
      if j != k {
        assert Lookup(t', j) == Lookup(t, j);
        assert j in done ==> Settled(t, backup, j);
      }
    }
  }

  predicate AllRestored(outs: seq<RestoreOutcome>) {
    forall i :: 0 <= i < |outs| ==> outs[i].Restored?
  }

  function InputsOf(items: seq<Item>): (inputs: seq<RestoreInput>)
    ensures |inputs| == |items|
  {
    seq(|items|, i requires 0 <= i < |items| => InputOf(items[i]))
  }

  /** Restoring input m takes any state that satisfies inv(m) to one that satisfies inv(m + 1), and succeeds. */
  ghost predicate EachRestores(env: Env, table: TableName, backup: Table, common: seq<Column>, inputs: seq<RestoreInput>,
                               inv: (nat, State) -> bool)
  {
    && (forall m: nat, s :: inv(m, s) ==> Sound(s) && table in s.db && Common(s.db[table].columns, backup.columns) == common)
    && (forall m: nat, s, meta {:trigger RestoreOne(env, s, table, backup, common, inputs[m], meta, false)} ::
          m < |inputs| && inv(m, s) ==>
            var (s', o) := RestoreOne(env, s, table, backup, common, inputs[m], meta, false);
            o.Restored? && inv(m + 1, s'))
  }

  /** Step m takes any state that satisfies inv(lo + m) to one that satisfies inv(lo + m + 1), restoring its row. */
  ghost predicate EachStepKeeps(step: RestoreStep, count: nat, lo: nat, inv: (nat, State) -> bool) {
    forall m: nat, s {:trigger step(s, m)} :: m < count && inv(lo + m, s) ==>
      step(s, m).1.Restored? && inv(lo + m + 1, step(s, m).0)
  }

  /** An invariant that every step keeps, restoring its row, holds after all of them. */
  lemma {:induction false} RunStepsKeeps(step: RestoreStep, s: State, n: nat, count: nat, out: seq<RestoreOutcome>,
                                         lo: nat, hi: nat, inv: (nat, State) -> bool)
    returns (s': State, outs: seq<RestoreOutcome>)
    requires n <= count && hi == lo + count && inv(lo + n, s) && AllRestored(out)
    requires EachStepKeeps(step, count, lo, inv)
    ensures RunSteps(step, s, n, count, out) == (s', outs) && inv(hi, s') && AllRestored(outs)
    decreases count - n
  {
    if n < count {
      var (s1, o) := step(s, n);
      s', outs := RunStepsKeeps(step, s1, n + 1, count, out + [o], lo, hi, inv);
    } else {
      s', outs := s, out;
    }
  }

  lemma RestoringKeeps(env: Env, table: TableName, backup: Table, common: seq<Column>, inputs: seq<RestoreInput>,
                       lo: nat, call: Call, inv: (nat, State) -> bool)
    requires EachRestores(env, table, backup, common, inputs, inv)
    requires lo + |call.inputs| <= |inputs| && inputs[lo..lo + |call.inputs|] == call.inputs
    ensures EachStepKeeps(Restoring(env, table, backup, common, call.inputs, call.meta, {}), |call.inputs|, lo, inv)
  {
    var step := Restoring(env, table, backup, common, call.inputs, call.meta, {});
    forall m: nat, s: State {:trigger step(s, m)} | m < |call.inputs| && inv(lo + m, s)
      ensures step(s, m).1.Restored? && inv(lo + m + 1, step(s, m).0)
    {
      assert call.inputs[m] == inputs[lo + m];
      var (s', o) := RestoreOne(env, s, table, backup, common, inputs[lo + m], call.meta, false);
      assert step(s, m) == (s', o);
    }
  }

  /** One call restores its part of the inputs. */
  lemma CallKeeps(env: Env, s: State, table: TableName, backup: Table, common: seq<Column>, call: Call, lo: nat, hi: nat,
                  inv: (nat, State) -> bool)
    returns (s': State, outs: seq<RestoreOutcome>)
    requires EachStepKeeps(Restoring(env, table, backup, common, call.inputs, call.meta, {}), |call.inputs|, lo, inv)
    requires hi == lo + |call.inputs| && inv(lo, s)
    ensures RestoreAll(env, s, table, backup, common, call.inputs, call.meta, {}) == (s', outs)
    ensures inv(hi, s') && AllRestored(outs)
  {
    s', outs := RunStepsKeeps(Restoring(env, table, backup, common, call.inputs, call.meta, {}), s, 0, |call.inputs|, [], lo, hi, inv);
  }

  datatype Call = Call(inputs: seq<RestoreInput>, meta: Meta)

  function Flatten(calls: seq<Call>): seq<RestoreInput> {
    if calls == [] then [] else calls[0].inputs + Flatten(calls[1..])
  }

  /** Successive RestoreRows calls, and whether every row of every call was restored. */
  function RestoreCalls(env: Env, s: State, table: TableName, backup: Table, calls: seq<Call>): (State, bool)
    decreases |calls|
  {
    if calls == [] then (s, true)
    else if table !in s.db then (s, false)
    else
      var (s', outs) := RestoreAll(env, s, table, backup, Common(s.db[table].columns, backup.columns), calls[0].inputs,
                                   calls[0].meta, {});
      var (s'', ok) := RestoreCalls(env, s', table, backup, calls[1..]);
      (s'', ok && AllRestored(outs))
  }

  lemma {:induction false} RestoreCallsKeep(env: Env, s: State, table: TableName, backup: Table, common: seq<Column>,
                                            inputs: seq<RestoreInput>, lo: nat, calls: seq<Call>, inv: (nat, State) -> bool)
    returns (s': State)
    requires EachRestores(env, table, backup, common, inputs, inv)
    requires lo <= |inputs| && Flatten(calls) == inputs[lo..] && inv(lo, s)
    ensures RestoreCalls(env, s, table, backup, calls) == (s', true) && inv(|inputs|, s')
    decreases |calls|
  {
    if calls == [] {
      s' := s;
    } else {
      var call := calls[0];
      var hi := lo + |call.inputs|;
      assert inputs[lo..] == call.inputs + Flatten(calls[1..]);
      assert inputs[lo..hi] == inputs[lo..][..|call.inputs|] == call.inputs;
      assert inputs[hi..] == inputs[lo..][|call.inputs|..] == Flatten(calls[1..]);
      RestoringKeeps(env, table, backup, common, inputs, lo, call, inv);
      var s1, outs := CallKeeps(env, s, table, backup, common, call, lo, hi, inv);
      s' := RestoreCallsKeep(env, s1, table, backup, common, inputs, hi, calls[1..], inv);
    }
  }

  /** One more item restored. */
  lemma RestoreNext(env: Env, s: State, table: TableName, live: Table, backup: Table, done: set<Key>, x: Item, meta: Meta)
    returns (s': State, o: RestoreOutcome)
    requires Sound(s) && table in s.db && Comparable(live, backup)
    requires Verdict(live, backup, ItemKey(live.key, x)) == Some(x) && ItemKey(live.key, x) !in done
    requires Progress(s.db[table], live, backup, done)
    ensures RestoreOne(env, s, table, backup, Common(live.columns, backup.columns), InputOf(x), meta, false) == (s', o)
    ensures Sound(s') && table in s'.db && o.Restored? && Progress(s'.db[table], live, backup, done + {ItemKey(live.key, x)})
  {
    var k := ItemKey(live.key, x);
    assert Lookup(s.db[table], k) == Lookup(live, k);
    assert AsCompared(s.db[table], live, backup, k);
    s', o := RestoredIffAsCompared(env, s, table, live, backup, k, x, meta);
    ProgressStep(s.db[table], s'.db[table], live, backup, done, k);
  }

  lemma KeepNothing(cols: seq<Column>, within: set<Column>)
    requires forall c :: c in cols ==> c !in within
    ensures Keep(cols, within) == []
  {
    if Keep(cols, within) != [] {
      assert Keep(cols, within)[0] in Keep(cols, within);
    }
  }

  lemma SettledHasNoVerdict(t: Table, backup: Table, k: Key)
    requires Settled(t, backup, k)
    ensures Verdict(t, backup, k).None?
  {
    if k in t.rows {
      var common := Common(t.columns, backup.columns);
      KeepNothing(common, set c | c in common && At(t.rows[k], c) != At(backup.rows[k], c));
    }
  }

  lemma NoVerdictIsSettled(t: Table, backup: Table, k: Key)
    requires Verdict(t, backup, k).None?
    ensures Settled(t, backup, k)
  {
    if k in t.rows {
      var common := Common(t.columns, backup.columns);
      var differing := set c | c in common && At(t.rows[k], c) != At(backup.rows[k], c);
      assert Keep(common, differing) == [];
      forall c | c in common ensures At(t.rows[k], c) == At(backup.rows[k], c) {
        assert c !in differing;
      }
    }
  }

  /** What a full comparison's items are, index by index. */
  lemma FullDiffItems(live: Table, backup: Table, o: Orders) returns (items: seq<Item>)
    requires Comparable(live, backup) && o.Fits(live, backup)
    ensures items == FullDiff(live, backup, o)
    ensures VerdictItems(live, backup, items) && KeysDiffer(live.key, items)
    ensures forall k :: Verdict(live, backup, k).Some? ==> Verdict(live, backup, k).value in items
  {
    items := FullDiff(live, backup, o);
    DiffReportsEachKeyOnce(live, backup, o);
    forall i | 0 <= i < |items| ensures Verdict(live, backup, ItemKey(live.key, items[i])) == Some(items[i]) {
      assert items[i] in items;
      var k :| (k in live.rows || k in backup.rows) && Verdict(live, backup, k) == Some(items[i]);
      VerdictNamesKey(live, backup, k);
    }
    forall k | Verdict(live, backup, k).Some? ensures Verdict(live, backup, k).value in items {
      assert k in live.rows || k in backup.rows;
    }
  }

  ghost predicate After(table: TableName, live: Table, backup: Table, items: seq<Item>, n: nat, s: State) {
    n <= |items| && Sound(s) && table in s.db && Progress(s.db[table], live, backup, FirstKeys(live.key, items, n))
  }

  /** The n-th reported item, and the keys of those before it. */
  lemma ItemAt(live: Table, backup: Table, o: Orders, n: nat, next: nat) returns (x: Item, done: set<Key>)
    requires Comparable(live, backup) && o.Fits(live, backup) && n < |FullDiff(live, backup, o)| && next == n + 1
    ensures x == FullDiff(live, backup, o)[n] && done == FirstKeys(live.key, FullDiff(live, backup, o), n)
    ensures Verdict(live, backup, ItemKey(live.key, x)) == Some(x) && ItemKey(live.key, x) !in done
    ensures FirstKeys(live.key, FullDiff(live, backup, o), next) == done + {ItemKey(live.key, x)}
  {
    var items := FullDiffItems(live, backup, o);
    x, done := items[n], FirstKeys(live.key, items, n);
    assert Verdict(live, backup, ItemKey(live.key, x)) == Some(x);
    NextKeyIsNew(live.key, items, n);
  }

  lemma RestoreItem(env: Env, s: State, table: TableName, live: Table, backup: Table, o: Orders, n: nat, meta: Meta)
    returns (s': State, r: RestoreOutcome)
    requires Comparable(live, backup) && o.Fits(live, backup) && n < |FullDiff(live, backup, o)|
    requires After(table, live, backup, FullDiff(live, backup, o), n, s)
    ensures RestoreOne(env, s, table, backup, Common(live.columns, backup.columns), InputsOf(FullDiff(live, backup, o))[n],
                       meta, false) == (s', r)
    ensures r.Restored? && After(table, live, backup, FullDiff(live, backup, o), n + 1, s')
  {
    var x, done := ItemAt(live, backup, o, n, n + 1);
    s', r := RestoreNext(env, s, table, live, backup, done, x, meta);
  }

  lemma ItemsRestore(env: Env, table: TableName, live: Table, backup: Table, o: Orders, items: seq<Item>, inv: (nat, State) -> bool)
    requires Comparable(live, backup) && o.Fits(live, backup) && items == FullDiff(live, backup, o)
    requires forall n, s :: inv(n, s) == After(table, live, backup, items, n, s)
    ensures EachRestores(env, table, backup, Common(live.columns, backup.columns), InputsOf(items), inv)
  {
    forall m, s: State, meta | 0 <= m < |items| && inv(m, s)
      ensures var (s', r) := RestoreOne(env, s, table, backup, Common(live.columns, backup.columns), InputsOf(items)[m], meta, false);
              r.Restored? && inv(m + 1, s')
    {
      var s', r := RestoreItem(env, s, table, live, backup, o, m, meta);
    }
  }

  lemma AllSettled(t: Table, live: Table, backup: Table, o: Orders, k: Key)
    requires Comparable(live, backup) && o.Fits(live, backup)
    requires var items := FullDiff(live, backup, o);
             Progress(t, live, backup, FirstKeys(live.key, items, |items|))
    ensures Settled(t, backup, k)
  {
    var items := FullDiffItems(live, backup, o);
    FirstKeysAre(live.key, items, |items|);
    if Verdict(live, backup, k).Some? {
      var i :| 0 <= i < |items| && items[i] == Verdict(live, backup, k).value;
      VerdictNamesKey(live, backup, k);
      assert ItemKey(live.key, items[i]) == k;
    } else {
      NoVerdictIsSettled(live, backup, k);
      assert Lookup(t, k) == Lookup(live, k) by {
        forall i | 0 <= i < |items| ensures ItemKey(live.key, items[i]) != k {
          assert Verdict(live, backup, ItemKey(live.key, items[i])) == Some(items[i]);
        }
      }
    }
  }

  lemma SettledDiffEmpty(t: Table, backup: Table, o: Orders)
    requires Comparable(t, backup) && o.Fits(t, backup)
    requires forall k :: Settled(t, backup, k)
    ensures FullDiff(t, backup, o) == []
  {
    var items := FullDiffItems(t, backup, o);
    if items != [] {
      assert Verdict(t, backup, ItemKey(t.key, items[0])) == Some(items[0]);
      SettledHasNoVerdict(t, backup, ItemKey(t.key, items[0]));
    }
  }

  /** The table holds exactly the backup's keys, with its values on all common columns, and comparing
      them in the orders o finds nothing. */
  predicate Matches(t: Table, backup: Table, o: Orders) {
    && t.rows.Keys == backup.rows.Keys
    && (forall k :: k in t.rows ==> SameOn(t.rows[k], backup.rows[k], Common(t.columns, backup.columns)))
    && (o.Fits(t, backup) ==> FullDiff(t, backup, o) == [])
  }

  lemma RestoredWhole(t: Table, live: Table, backup: Table, o: Orders, again: Orders)
    requires Comparable(live, backup) && o.Fits(live, backup)
    requires var items := FullDiff(live, backup, o);
             Progress(t, live, backup, FirstKeys(live.key, items, |items|))
    ensures Matches(t, backup, again)
  {
    forall k ensures Settled(t, backup, k) {
      AllSettled(t, live, backup, o, k);
    }
    forall k | k in t.rows || k in backup.rows
      ensures k in t.rows && k in backup.rows && SameOn(t.rows[k], backup.rows[k], Common(t.columns, backup.columns))
    {
      assert Settled(t, backup, k);
    }
    if again.Fits(t, backup) {
      SettledDiffEmpty(t, backup, again);
    }
  }

  /** With nothing else writing and no engine failure, restoring every item of a full comparison, in
      however many calls, restores every row: the table then has exactly the backup's keys and the
      backup's values on all common columns, and a second full comparison is empty. */
  lemma RestoreConverges(env: Env, s: State, table: TableName, backup: Table, o: Orders, calls: seq<Call>, again: Orders)
    requires Sound(s) && table in s.db && Comparable(s.db[table], backup) && o.Fits(s.db[table], backup)
    requires Flatten(calls) == InputsOf(FullDiff(s.db[table], backup, o))
    ensures var (s', ok) := RestoreCalls(env, s, table, backup, calls);
            ok && table in s'.db && Matches(s'.db[table], backup, again)
  {
    var live := s.db[table];
    var items := FullDiff(live, backup, o);
    var inv := (n: nat, s1: State) => After(table, live, backup, items, n, s1);
    ItemsRestore(env, table, live, backup, o, items, inv);
    var s' := RestoreCallsKeep(env, s, table, backup, Common(live.columns, backup.columns), InputsOf(items), 0, calls, inv);
    RestoredWhole(s'.db[table], live, backup, o, again);
  }
}
