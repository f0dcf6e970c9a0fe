/** Putting rows of a table back as they were in a backup copy
    (backend/internal/app/dbadmin/backup_copy.go, RestoreRows). */
module CopyRestore {
  import opened Wrappers
  import opened Rows
  import opened Tables
  import opened Journal
  import opened DataBrowser
  import opened CopyDiff

  const MAX_RESTORE_ROWS: nat := 200

  datatype Kind = KindAdded | KindRemoved | KindChanged | KindUnknown

  /** One row to put back; liveHash is the comparison's fingerprint of the live row. */
  datatype RestoreInput = RestoreInput(key: Row, kind: Kind, liveHash: Fingerprint)

  datatype RestoreOutcome =
    | Restored(ref: Option<nat>)
    | RowConflict   // the row changed since it was compared
    | NoBackupRow   // the backup has no such row
    | RowFailed     // the engine refused or could not be reached

  datatype RestoreError = NothingChosen | TooMany | CopyNotReady | BadKind | BadRead(error: ReadError)

  /** The write that makes one live row match the backup, or None when the backup has no such row. */
  function RestoreRequest(t: Table, backup: Table, common: seq<Column>, input: RestoreInput): Option<ApplyRequest> {
    var there := Lookup(backup, KeyAt(backup.key, input.key));
    var check := if input.kind.KindRemoved? then ExpectImage(None) else ExpectHash(common, input.liveHash);
    if input.kind.KindAdded? then Some(ApplyRequest(KeyAt(t.key, input.key), check, None))
    else if there.None? then None
    else Some(ApplyRequest(KeyAt(t.key, input.key), check, Some(map c | c in common :: At(there.value, c))))
  }

  /** Whether a key image gives exactly the row key. */
  predicate ExactKey(key: seq<Column>, image: Row) {
    image.Keys == ColumnSet(key) && KeyComplete(key, image)
  }

  function RestoreOne(env: Env, s: State, table: TableName, backup: Table, common: seq<Column>, input: RestoreInput,
                      meta: Meta, fault: bool)
    : (r: (State, RestoreOutcome))
    requires Sound(s) && table in s.db
    ensures Sound(r.0) && table in r.0.db
  {
    var req := RestoreRequest(s.db[table], backup, common, input);
    if req.None? then (s, NoBackupRow)
    else if fault || !ExactKey(s.db[table].key, input.key) then (s, RowFailed)
    else match ApplyRow(s.db[table], req.value, env.defaults(table))
      case Err(Failed) => (s, RowFailed)
      case Err(_) => (s, RowConflict)
      case Ok((t, ch)) =>
        var (s', ref) := Recorded(env, s.(db := s.db[table := t]), table, Restore, ch, meta, None);
        (s', Restored(ref))
  }

  type RestoreStep = (State, nat) -> (State, RestoreOutcome)

  /** Takes steps n up to count one after the other, collecting their outcomes. */
  function RunSteps(step: RestoreStep, s: State, n: nat, count: nat, out: seq<RestoreOutcome>): (State, seq<RestoreOutcome>)
    requires n <= count
    decreases count - n
  {
    if n == count then (s, out)
    else
      var (s', o) := step(s, n);
      RunSteps(step, s', n + 1, count, out + [o])
  }

  /** Putting back the n-th of some rows; faults are the positions whose engine call fails. */
  function Restoring(env: Env, table: TableName, backup: Table, common: seq<Column>, inputs: seq<RestoreInput>, meta: Meta,
                     faults: set<nat>)
    : RestoreStep
  {
    (s: State, n: nat) =>
      if Sound(s) && table in s.db && n < |inputs| then RestoreOne(env, s, table, backup, common, inputs[n], meta, n in faults)
      else (s, RowFailed)
  }

  function RestoreAll(env: Env, s: State, table: TableName, backup: Table, common: seq<Column>, inputs: seq<RestoreInput>,
                      meta: Meta, faults: set<nat>)
    : (State, seq<RestoreOutcome>)
  {
    RunSteps(Restoring(env, table, backup, common, inputs, meta, faults), s, 0, |inputs|, [])
  }

  function InputKeys(inputs: seq<RestoreInput>): seq<Row> {
    seq(|inputs|, i requires 0 <= i < |inputs| => inputs[i].key)
  }

  /** No chosen key shares its text with another chosen key that the backup has. */
  predicate ToldApart(backup: Table, inputs: seq<RestoreInput>) {
    forall i, j :: 0 <= i < |inputs| && 0 <= j < |inputs| && KeyAt(backup.key, inputs[j].key) in backup.rows ==>
      Separates(backup.key, inputs[i].key, inputs[j].key)
  }

  predicate KnownKinds(inputs: seq<RestoreInput>) {
    forall i :: 0 <= i < |inputs| ==> !inputs[i].kind.KindUnknown?
  }

  /** byKey finds the backup's row of every input by the text of its key. */
  predicate FindsRows(backup: Table, inputs: seq<RestoreInput>, byKey: map<string, Row>) {
    forall i :: 0 <= i < |inputs| ==>
      Lookup(backup, KeyAt(backup.key, inputs[i].key)) == ByText(byKey, KeyString(backup.key, inputs[i].key))
  }

  lemma FoundIsAsked(backup: Table, inputs: seq<RestoreInput>, rows: seq<Row>, byKey: map<string, Row>, text: string)
    returns (j: nat)
    requires Fetched(backup, InputKeys(inputs), rows) && Indexed(backup.key, rows, byKey) && text in byKey
    ensures j < |inputs| && KeyAt(backup.key, inputs[j].key) == KeyAt(backup.key, byKey[text])
    ensures KeyAt(backup.key, inputs[j].key) in backup.rows && KeyString(backup.key, inputs[j].key) == text
    ensures Lookup(backup, KeyAt(backup.key, inputs[j].key)) == Some(byKey[text])
  {
    assert Asked(backup, InputKeys(inputs), byKey[text]);
    var k :| k in InputKeys(inputs) && KeyAt(backup.key, k) == KeyAt(backup.key, byKey[text]);
    j :| 0 <= j < |inputs| && InputKeys(inputs)[j] == k;
    SameKeySameText(backup.key, k, byKey[text]);
  }

  lemma PresentIsFound(backup: Table, inputs: seq<RestoreInput>, rows: seq<Row>, byKey: map<string, Row>, j: nat)
    requires WellFormed(backup) && j < |inputs| && KeyAt(backup.key, inputs[j].key) in backup.rows
    requires Fetched(backup, InputKeys(inputs), rows) && Indexed(backup.key, rows, byKey)
    ensures KeyString(backup.key, inputs[j].key) in byKey
  {
    InputKeyIn(inputs, j);
    StoredKey(backup, KeyAt(backup.key, inputs[j].key));
    SameKeySameText(backup.key, backup.rows[KeyAt(backup.key, inputs[j].key)], inputs[j].key);
  }

  lemma InputKeyIn(inputs: seq<RestoreInput>, j: nat)
    requires j < |inputs|
    ensures inputs[j].key in InputKeys(inputs)
  {
    assert InputKeys(inputs)[j] == inputs[j].key;
  }

  /** Looking chosen rows up by text finds those of their keys exactly if the texts tell the keys apart. */
  lemma FindsRowsIff(backup: Table, inputs: seq<RestoreInput>, rows: seq<Row>, byKey: map<string, Row>)
    requires WellFormed(backup) && Fetched(backup, InputKeys(inputs), rows) && Indexed(backup.key, rows, byKey)
    ensures FindsRows(backup, inputs, byKey) <==> ToldApart(backup, inputs)
  {
    var key := backup.key;
    if ToldApart(backup, inputs) {
      forall i | 0 <= i < |inputs|
        ensures Lookup(backup, KeyAt(key, inputs[i].key)) == ByText(byKey, KeyString(key, inputs[i].key))
      {
        var text := KeyString(key, inputs[i].key);
        if text in byKey {
          var j := FoundIsAsked(backup, inputs, rows, byKey, text);
          assert Separates(key, inputs[i].key, inputs[j].key);
        } else if KeyAt(key, inputs[i].key) in backup.rows {
          PresentIsFound(backup, inputs, rows, byKey, i);
        }
      }
    }
    if FindsRows(backup, inputs, byKey) {
      forall i, j | 0 <= i < |inputs| && 0 <= j < |inputs| && KeyAt(key, inputs[j].key) in backup.rows
        ensures Separates(key, inputs[i].key, inputs[j].key)
      {
        FindsApart(backup, inputs, rows, byKey, i, j);
      }
    }
  }

  lemma StoredKey(t: Table, k: Key)
    requires WellFormed(t) && k in t.rows
    ensures KeyAt(t.key, t.rows[k]) == k
  {
    assert RowFits(t, k, t.rows[k]);
  }

  lemma FindsApart(backup: Table, inputs: seq<RestoreInput>, rows: seq<Row>, byKey: map<string, Row>, i: nat, j: nat)
    requires WellFormed(backup) && Fetched(backup, InputKeys(inputs), rows) && Indexed(backup.key, rows, byKey)
    requires FindsRows(backup, inputs, byKey) && i < |inputs| && j < |inputs| && KeyAt(backup.key, inputs[j].key) in backup.rows
    ensures Separates(backup.key, inputs[i].key, inputs[j].key)
  {
    var key, x, y := backup.key, inputs[i].key, inputs[j].key;
    if KeyString(key, x) == KeyString(key, y) {
      PresentIsFound(backup, inputs, rows, byKey, j);
      StoredKey(backup, KeyAt(key, x));
      StoredKey(backup, KeyAt(key, y));
    } else if KeyAt(key, x) == KeyAt(key, y) {
      SameKeySameText(key, x, y);
    }
  }

  /** So it always is for one-column keys, and for keys whose values hold no NUL. */
  lemma SafeKeysToldApart(backup: Table, inputs: seq<RestoreInput>)
    requires |backup.key| == 1 || forall i :: 0 <= i < |inputs| ==> NulFree(KeyAt(backup.key, inputs[i].key))
    ensures ToldApart(backup, inputs)
  {
    forall i, j | 0 <= i < |inputs| && 0 <= j < |inputs| ensures Separates(backup.key, inputs[i].key, inputs[j].key) {
      if |backup.key| == 1 {
        SingleColumnKeysSeparate(backup.key, inputs[i].key, inputs[j].key);
      } else {
        NulFreeKeysSeparate(backup.key, inputs[i].key, inputs[j].key);
      }
    }
  }

  /** What the backup is taken to hold when the rows of some keys are found by the texts of those keys. */
  function AsFound(backup: Table, inputs: seq<RestoreInput>, byKey: map<string, Row>): Table {
    backup.(rows := FoundBy(PageKeys(backup.key, InputKeys(inputs)), byKey))
  }

  lemma FindsAsFound(backup: Table, inputs: seq<RestoreInput>, byKey: map<string, Row>)
    ensures FindsRows(AsFound(backup, inputs, byKey), inputs, byKey)
  {
    forall i | 0 <= i < |inputs| ensures KeyAt(backup.key, inputs[i].key) in PageKeys(backup.key, InputKeys(inputs)) {
      assert InputKeys(inputs)[i] == inputs[i].key;
    }
    forall i | 0 <= i < |inputs|
      ensures Lookup(AsFound(backup, inputs, byKey), KeyAt(backup.key, inputs[i].key))
           == ByText(byKey, KeyString(backup.key, inputs[i].key))
    {
      KeyStringIs(backup.key, inputs[i].key);
    }
  }

  /** Two backups in which the same rows are found are restored from alike. */
  lemma RestoredAlike(env: Env, s: State, table: TableName, a: Table, b: Table, byKey: map<string, Row>, common: seq<Column>,
                      inputs: seq<RestoreInput>, meta: Meta, faults: set<nat>)
    requires a.key == b.key && FindsRows(a, inputs, byKey) && FindsRows(b, inputs, byKey)
    ensures RestoreAll(env, s, table, a, common, inputs, meta, faults) == RestoreAll(env, s, table, b, common, inputs, meta, faults)
  {
    var f, g := Restoring(env, table, a, common, inputs, meta, faults), Restoring(env, table, b, common, inputs, meta, faults);
    forall s: State, n: nat | n < |inputs| ensures f(s, n) == g(s, n) {
      assert Lookup(a, KeyAt(a.key, inputs[n].key)) == Lookup(b, KeyAt(b.key, inputs[n].key));
    }
    StepsAlike(f, g, s, 0, |inputs|, []);
  }

  lemma {:induction false} StepsAlike(f: RestoreStep, g: RestoreStep, s: State, n: nat, count: nat, out: seq<RestoreOutcome>)
    requires n <= count && forall s: State, i: nat :: i < count ==> f(s, i) == g(s, i)
    ensures RunSteps(f, s, n, count, out) == RunSteps(g, s, n, count, out)
    decreases count - n
  {
    if n < count {
      var (s', o) := f(s, n);
      StepsAlike(f, g, s', n + 1, count, out + [o]);
    }
  }

  /** The rows are put back as found by the texts of their keys, among the backup's rows asked for; where
      the texts tell the keys apart, that is by their keys. */
  ghost predicate PutBack(env: Env, s: State, table: TableName, backup: Table, inputs: seq<RestoreInput>, meta: Meta,
                          faults: set<nat>, s': State, out: seq<RestoreOutcome>)
    requires table in s.db
  {
    var common := Common(s.db[table].columns, backup.columns);
    && (exists rows, byKey :: && Fetched(backup, InputKeys(inputs), rows) && Indexed(backup.key, rows, byKey)
                              && (s', out) == RestoreAll(env, s, table, AsFound(backup, inputs, byKey), common, inputs, meta, faults))
    && (ToldApart(backup, inputs) ==> (s', out) == RestoreAll(env, s, table, backup, common, inputs, meta, faults))
  }

  /** Makes rows of a table match the backup copy: changed rows get the backup's values, removed rows
      come back, added rows are deleted, each checked against the comparison first and journaled. */
  method RestoreRows(b: Browser, table: TableName, backup: Table, ready: bool, inputs: seq<RestoreInput>, meta: Meta,
                     maxGet: nat, faults: set<nat>)
    returns (r: Result<seq<RestoreOutcome>, RestoreError>)
    requires b.Valid() && table in b.db && WellFormed(backup) && maxGet >= MAX_RESTORE_ROWS
    modifies b
    ensures b.Valid()
    ensures r.Err? ==> b.Now() == old(b.Now())
    ensures inputs == [] ==> r == Err(NothingChosen)
    ensures |inputs| > MAX_RESTORE_ROWS ==> r == Err(TooMany)
    ensures 0 < |inputs| <= MAX_RESTORE_ROWS && !ready ==> r == Err(CopyNotReady)
    ensures r.Ok? <==> 0 < |inputs| <= MAX_RESTORE_ROWS && ready && KnownKinds(inputs) && backup.key != []
                       && forall k :: k in InputKeys(inputs) ==> KeyComplete(backup.key, k)
    ensures r.Ok? ==> PutBack(b.env, old(b.Now()), table, backup, inputs, meta, faults, b.Now(), r.value)
  {
    if inputs == [] {
      return Err(NothingChosen);
    }
    if |inputs| > MAX_RESTORE_ROWS {
      return Err(TooMany);
    }
    if !ready {
      return Err(CopyNotReady);
    }
    for i := 0 to |inputs|
      invariant forall j :: 0 <= j < i ==> !inputs[j].kind.KindUnknown?
    {
      if inputs[i].kind.KindUnknown? {
        return Err(BadKind);
      }
    }
    var got := GetRows(backup, InputKeys(inputs), maxGet);
    if got.Err? {
      return Err(BadRead(got.error));
    }
    var out := RestoreEach(b, table, backup, got.value.rows, inputs, meta, faults);
    r := Ok(out);
  }

  /** Indexes the backup's rows by key text and puts the chosen rows back in order. */
  method RestoreEach(b: Browser, table: TableName, backup: Table, rows: seq<Row>, inputs: seq<RestoreInput>, meta: Meta,
                     faults: set<nat>)
    returns (out: seq<RestoreOutcome>)
    requires b.Valid() && table in b.db && WellFormed(backup) && Fetched(backup, InputKeys(inputs), rows)
    modifies b
    ensures b.Valid() && PutBack(b.env, old(b.Now()), table, backup, inputs, meta, faults, b.Now(), out)
  {
    var byKey := IndexRows(backup.key, rows);
    var common, _ := CommonColumns(b.db[table].columns, backup.columns);
    ghost var found, s := AsFound(backup, inputs, byKey), b.Now();
    FindsAsFound(backup, inputs, byKey);
    out := RestoreInOrder(b, table, backup.key, found, common, byKey, inputs, meta, faults);
    if ToldApart(backup, inputs) {
      FindsRowsIff(backup, inputs, rows, byKey);
      RestoredAlike(b.env, s, table, found, backup, byKey, common, inputs, meta, faults);
    }
  }

  method RestoreInOrder(b: Browser, table: TableName, key: seq<Column>, ghost backup: Table, common: seq<Column>, byKey: map<string, Row>,
                        inputs: seq<RestoreInput>, meta: Meta, faults: set<nat>)
    returns (out: seq<RestoreOutcome>)
    requires b.Valid() && table in b.db && key == backup.key && FindsRows(backup, inputs, byKey)
    modifies b
    ensures b.Valid()
    ensures (b.Now(), out) == RestoreAll(b.env, old(b.Now()), table, backup, common, inputs, meta, faults)
  {
    out := [];
    ghost var start, step := b.Now(), Restoring(b.env, table, backup, common, inputs, meta, faults);
    for n := 0 to |inputs|
      invariant b.Valid() && table in b.db
      invariant RunSteps(step, b.Now(), n, |inputs|, out) == RunSteps(step, start, 0, |inputs|, [])
    {
      var o := RestoreRow(b, table, key, backup, common, byKey, inputs[n], meta, n in faults);
      out := out + [o];
    }
  }

  /** One row of RestoreRows, with the backup's rows indexed by key text. */
  method RestoreRow(b: Browser, table: TableName, key: seq<Column>, ghost backup: Table, common: seq<Column>, byKey: map<string, Row>,
                    input: RestoreInput, meta: Meta, fault: bool)
    returns (o: RestoreOutcome)
    requires b.Valid() && table in b.db && key == backup.key
    requires Lookup(backup, KeyAt(key, input.key)) == ByText(byKey, KeyString(key, input.key))
    modifies b
    ensures b.Valid() && table in b.db && (b.Now(), o) == RestoreOne(b.env, old(b.Now()), table, backup, common, input, meta, fault)
  {
    var t := b.db[table];
    var text := KeyString(key, input.key);
    var check := if input.kind.KindRemoved? then ExpectImage(None) else ExpectHash(common, input.liveHash);
    var want: Option<Row> := None;
    if !input.kind.KindAdded? {
      if text !in byKey {
        return NoBackupRow;
      }
      want := Some(map c | c in common :: At(byKey[text], c));
    }
    if fault || !ExactKey(t.key, input.key) {
      return RowFailed;
    }
    var applied := ApplyRow(t, ApplyRequest(KeyAt(t.key, input.key), check, want), b.env.defaults(table));
    if applied.Err? {
      return if applied.error.Failed? then RowFailed else RowConflict;
    }
    b.db := b.db[table := applied.value.0];
    var ref := b.Record(table, Restore, applied.value.1, meta, None);
    o := Restored(ref);
  }
}
