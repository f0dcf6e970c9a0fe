/** Saves of the data browser and their undo, end to end. */
module EditUndo {
  import opened Wrappers
  import opened Rows
  import opened Tables
  import opened Journal
  import opened DataBrowser

  /** The state after a save's edits, or None when one of them fails. */
  function Saved(env: Env, s: State, edits: seq<(TableName, Edit)>, meta: Meta): (r: Option<State>)
    requires Sound(s)
    ensures r.Some? ==> Sound(r.value) && |r.value.journal| >= |s.journal|
    decreases |edits|
  {
    if edits == [] then Some(s)
    else
      var (s', r) := Edited(env, s, edits[0].0, edits[0].1, meta, false);
      if r.Err? then None else Saved(env, s', edits[1..], meta)
  }

  /** A successful edit is journaled in its batch, with exact images when the entry is undoable. */
  lemma EditIsRecorded(env: Env, s: State, table: TableName, e: Edit, meta: Meta) returns (c: Change)
    requires Sound(s) && Edited(env, s, table, e, meta, false).1.Ok?
    ensures var s' := Edited(env, s, table, e, meta, false).0;
            && s'.journal == s.journal + [c] && c.batch == meta.batch && c.undoneBy.None?
            && (c.undoable ==> RecordsStep(s.db, c, s'.db))
  {
    var o := ChangeRow(s.db[table], e);
    OutcomeIsRecorded(env, table, Editor, s.db[table], o, meta, None, e, ApplyRequest([], Unchecked, None));
    c := FromEngine(env, table, Editor, o.value.1, meta, None);
    var s' := Edited(env, s, table, e, meta, false).0;
    assert s'.db[table] == o.value.0;
  }

  /** The first edit of a save and what it leaves to the others. */
  lemma FirstEdit(env: Env, s: State, edits: seq<(TableName, Edit)>, meta: Meta, end: State) returns (s1: State, c: Change)
    requires Sound(s) && edits != [] && Saved(env, s, edits, meta) == Some(end)
    ensures Sound(s1) && Saved(env, s1, edits[1..], meta) == Some(end)
    ensures s1.journal == s.journal + [c] && c.batch == meta.batch && c.undoneBy.None?
    ensures c.undoable ==> RecordsStep(s.db, c, s1.db)
  {
    s1 := Edited(env, s, edits[0].0, edits[0].1, meta, false).0;
    c := EditIsRecorded(env, s, edits[0].0, edits[0].1, meta);
  }

  /** Entries cs in one batch, journaled between two states, lead from one's tables to the other's. */
  predicate Journaled(s: State, cs: seq<Change>, states: seq<Database>, end: State, batch: Option<Batch>) {
    end.journal == s.journal + cs && InBatch(cs, batch) && Leads(states, cs, s.db, end.db)
  }

  lemma JournaledPrepend(s: State, c: Change, s1: State, rest: seq<Change>, tail: seq<Database>, end: State, batch: Option<Batch>)
    requires s1.journal == s.journal + [c] && c.batch == batch && c.undoneBy.None?
    requires c.undoable ==> RecordsStep(s.db, c, s1.db)
    requires Journaled(s1, rest, tail, end, batch)
    ensures Journaled(s, [c] + rest, [s.db] + tail, end, batch)
  {
    assert s1.journal + rest == s.journal + ([c] + rest);
    LeadsPrepend(s.db, c, s1.db, tail, rest, end.db);
  }

  lemma {:induction false} SaveIsChain(env: Env, s: State, edits: seq<(TableName, Edit)>, meta: Meta, end: State)
    returns (cs: seq<Change>, states: seq<Database>)
    requires Sound(s) && Saved(env, s, edits, meta) == Some(end)
    ensures |cs| == |edits| && Journaled(s, cs, states, end, meta.batch)
    decreases |edits|
  {
    if edits == [] {
      cs, states := [], [s.db];
      assert s.journal + [] == s.journal;
    } else {
      var s1, c := FirstEdit(env, s, edits, meta, end);
      var rest, tail := SaveIsChain(env, s1, edits[1..], meta, end);
      JournaledPrepend(s, c, s1, rest, tail, end, meta.batch);
      cs, states := [c] + rest, [s.db] + tail;
    }
  }

  /** Undoing a save of at most MAX_BATCH_UNDO edits, all journaled undoable and with no other edit in
      between, succeeds on every entry and returns the tables to what they were before the save,
      whichever tables, rows and keys the edits touched; undoing the undos reapplies the save. */
  lemma UndoRevertsSave(env: Env, s: State, edits: seq<(TableName, Edit)>, saveBy: Meta, undoBy: Meta, redoBy: Meta, force: bool)
    requires Sound(s) && Saved(env, s, edits, saveBy).Some? && |edits| <= MAX_BATCH_UNDO
    requires saveBy.batch.Some? && BatchUnused(s.journal, saveBy.batch.value)
    requires undoBy.user.Some? && redoBy.user.Some?
    requires AllUndoable(Saved(env, s, edits, saveBy).value.journal[|s.journal|..])
    ensures var saved := Saved(env, s, edits, saveBy).value;
            var r := UndoAll(env, saved, Newest(saved.journal, saveBy.batch.value, MAX_BATCH_UNDO), saved.journal,
                             undoBy, force, {}, []);
            && r.state.db == s.db && r.error.None?
            && |r.outcomes| == |edits| && (forall i :: 0 <= i < |edits| ==> r.outcomes[i].1.Undone?)
            && (undoBy.batch.Some? && BatchUnused(saved.journal, undoBy.batch.value)
                && AllUndoable(r.state.journal[|saved.journal|..]) ==>
                  var redo := UndoAll(env, r.state, Newest(r.state.journal, undoBy.batch.value, MAX_BATCH_UNDO),
                                      r.state.journal, redoBy, force, {}, []);
                  redo.state.db == saved.db && redo.error.None?)
  {
    var saved := Saved(env, s, edits, saveBy).value;
    var cs, states := SaveIsChain(env, s, edits, saveBy, saved);
    assert saved.journal[|s.journal|..] == cs;
    BatchUndoIsExact(env, saved, s.journal, cs, states, saveBy.batch.value, undoBy, redoBy, force);
  }

  /** An unforced undo that succeeds found the row as its change left it, on every column the change
      set; one that does not succeed changes no table and leaves the entry as claimable as before. */
  lemma UndoRespectsLaterChanges(env: Env, s: State, id: nat, meta: Meta, fault: bool)
    requires Sound(s) && id < |s.journal|
    ensures var c := s.journal[id];
            var (s', r) := UndoOne(env, s, id, c, meta, false, fault);
            && (r.Ok? && r.value.Undone? ==>
                  && c.table in s.db && c.undoneBy.None? && s'.journal[id].undoneBy == meta.user
                  && (match c.op
                      case Insert => c.after.Some? ==> c.key in s.db[c.table].rows
                                                       && SameValues(c.after.value, s.db[c.table].rows[c.key])
                      case Update => c.after.Some? ==> c.key in s.db[c.table].rows
                                                       && SameValues(c.after.value, s.db[c.table].rows[c.key])
                      case Delete => c.key !in s.db[c.table].rows
                      case Nothing => true))
            && (!(r.Ok? && r.value.Undone?) ==> s' == s)
  {
  }

  /** The row is, on every column that the change set, as the change left it. */
  predicate AsLeft(c: Change, t: Table) {
    if c.op.Delete? then c.key !in t.rows
    else c.after.Some? && c.key in t.rows && forall col :: col in c.after.value ==>
           col in t.rows[c.key] && t.rows[c.key][col] == c.after.value[col]
  }

  /** The images of a recorded change. */
  predicate HasImages(c: Change) {
    && !c.op.Nothing? && (c.op.Insert? || c.op.Update? ==> c.after.Some?) && (c.op.Update? || c.op.Delete? ==> c.before.Some?)
  }

  /** What an undo would write names a column that the table no longer has. */
  predicate Outdated(c: Change, t: Table) {
    !c.op.Insert? && c.before.Some? && exists col :: col in c.before.value && col !in t.columns
  }

  /** An undo that may go ahead ends in a conflict exactly if the row is no longer as the change left it and it
      is not forced, or if the table lost a column. */
  lemma ConflictIff(env: Env, s: State, id: nat, meta: Meta, force: bool)
    requires Sound(s) && id < |s.journal| && s.journal[id].undoable && s.journal[id].undoneBy.None?
    requires meta.user.Some? && HasImages(s.journal[id]) && s.journal[id].table in s.db
    ensures var c := s.journal[id];
            UndoOne(env, s, id, c, meta, force, false).1 == Ok(Conflict)
            <==> (!force && !AsLeft(c, s.db[c.table])) || Outdated(c, s.db[c.table])
  {
    var c := s.journal[id];
    var t := s.db[c.table];
    RefusedIff(t, c, force, env.defaults(c.table));
  }

  lemma RefusedIff(t: Table, c: Change, force: bool, defaults: Row)
    requires WellFormed(t) && HasImages(c)
    ensures var o := ApplyRow(t, UndoRequest(c, force), defaults);
            o == Err(RowChanged) || o == Err(StructureChanged) <==> (!force && !AsLeft(c, t)) || Outdated(c, t)
  {
    var req := UndoRequest(c, force);
    assert Passes(req.check, Lookup(t, c.key)) <==> force || AsLeft(c, t);
    if req.want.Some? {
      assert req.want.value.Keys <= ColumnSet(t.columns) <==> !Outdated(c, t);
    }
  }

  /** A forced undo that succeeds brings the row back whatever it had become: an inserted row is gone, any
      other holds what it held before the change; and no other row of the table has changed. */
  lemma ForcedUndoOverwrites(env: Env, s: State, id: nat, meta: Meta, fault: bool)
    requires Sound(s) && id < |s.journal| && HasImages(s.journal[id])
    ensures var c := s.journal[id];
            var (s', r) := UndoOne(env, s, id, c, meta, true, fault);
            r.Ok? && r.value.Undone? ==>
              && c.table in s.db && c.table in s'.db
              && (c.op.Insert? ==> s'.db[c.table].rows == s.db[c.table].rows - {c.key})
              && (!c.op.Insert? ==> exists k :: && k in s'.db[c.table].rows && SameValues(c.before.value, s'.db[c.table].rows[k])
                                                && forall other :: other != k && other != c.key ==>
                                                     Lookup(s'.db[c.table], other) == Lookup(s.db[c.table], other))
  {
    var c := s.journal[id];
    var (s', r) := UndoOne(env, s, id, c, meta, true, fault);
    if r.Ok? && r.value.Undone? {
      ImageWriteTouchesOneRow(s.db[c.table], UndoRequest(c, true), env.defaults(c.table));
    }
  }
}
