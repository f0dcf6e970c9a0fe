/** A restore is journaled as one save, so undoing that save takes it back. */
module RestoreUndo {
  import opened Wrappers
  import opened Rows
  import opened Tables
  import opened Journal
  import opened DataBrowser
  import opened EditUndo
  import opened CopyDiff
  import opened CopyRestore

  /** One step changed nothing, or one table as the one entry it journaled records. */
  predicate StepJournaled(s: State, s': State, batch: Option<Batch>) {
    || s' == s
    || (&& |s'.journal| == |s.journal| + 1 && s'.journal[..|s.journal|] == s.journal
        && var c := s'.journal[|s.journal|];
           c.batch == batch && c.undoneBy.None? && (c.undoable ==> RecordsStep(s.db, c, s'.db)))
  }

  lemma RestoreOneJournals(env: Env, s: State, table: TableName, backup: Table, common: seq<Column>, input: RestoreInput,
                           meta: Meta, fault: bool)
    requires Sound(s) && table in s.db
    ensures StepJournaled(s, RestoreOne(env, s, table, backup, common, input, meta, fault).0, meta.batch)
  {
    var t := s.db[table];
    var req := RestoreRequest(t, backup, common, input);
    if req.Some? && !fault && ExactKey(t.key, input.key) {
      var o := ApplyRow(t, req.value, env.defaults(table));
      if o.Ok? {
        OutcomeIsRecorded(env, table, Restore, t, o, meta, None, DeleteRow([]), req.value);
        WrittenIsJournaled(env, s, table, o.value.0, o.value.1, meta);
      }
    }
  }

  lemma WrittenIsJournaled(env: Env, s: State, table: TableName, t: Table, ch: RowChange, meta: Meta)
    requires table in s.db && (ch.op.Nothing? ==> t == s.db[table])
    requires var c := FromEngine(env, table, Restore, ch, meta, None);
             !ch.op.Nothing? && c.undoable ==> Records(s.db[table], c, t)
    ensures StepJournaled(s, Recorded(env, s.(db := s.db[table := t]), table, Restore, ch, meta, None).0, meta.batch)
  {
    var s' := Recorded(env, s.(db := s.db[table := t]), table, Restore, ch, meta, None).0;
    if ch.op.Nothing? {
      assert s.db[table := t] == s.db;
      assert s' == s;
    } else {
      assert s'.journal[..|s.journal|] == s.journal;
    }
  }

  /** Every step keeps the state sound and journals what it changes. */
  ghost predicate StepsJournal(step: RestoreStep, count: nat, table: TableName, batch: Option<Batch>) {
    forall n: nat, s {:trigger step(s, n)} :: n < count && Sound(s) && table in s.db ==>
      Sound(step(s, n).0) && table in step(s, n).0.db && StepJournaled(s, step(s, n).0, batch)
  }

  lemma {:induction false} RunStepsJournal(step: RestoreStep, s: State, n: nat, count: nat, out: seq<RestoreOutcome>,
                                           table: TableName, batch: Option<Batch>)
    returns (cs: seq<Change>, states: seq<Database>)
    requires n <= count && Sound(s) && table in s.db && StepsJournal(step, count, table, batch)
    ensures |cs| <= count - n && Sound(RunSteps(step, s, n, count, out).0)
    ensures Journaled(s, cs, states, RunSteps(step, s, n, count, out).0, batch)
    decreases count - n
  {
    if n == count {
      cs, states := [], [s.db];
      assert s.journal + [] == s.journal;
    } else {
      var (s1, o) := step(s, n);
      cs, states := RunStepsJournal(step, s1, n + 1, count, out + [o], table, batch);
      if s1 != s {
        var c := s1.journal[|s.journal|];
        assert s1.journal == s.journal + [c];
        JournaledPrepend(s, c, s1, cs, states, RunSteps(step, s, n, count, out).0, batch);
        cs, states := [c] + cs, [s.db] + states;
      }
    }
  }

  lemma RestoringJournals(env: Env, table: TableName, backup: Table, common: seq<Column>, inputs: seq<RestoreInput>, meta: Meta,
                          faults: set<nat>)
    ensures StepsJournal(Restoring(env, table, backup, common, inputs, meta, faults), |inputs|, table, meta.batch)
  {
    var step := Restoring(env, table, backup, common, inputs, meta, faults);
    forall n: nat, s: State {:trigger step(s, n)} | n < |inputs| && Sound(s) && table in s.db
      ensures Sound(step(s, n).0) && table in step(s, n).0.db && StepJournaled(s, step(s, n).0, meta.batch)
    {
      RestoreOneJournals(env, s, table, backup, common, inputs[n], meta, n in faults);
      assert step(s, n) == RestoreOne(env, s, table, backup, common, inputs[n], meta, n in faults);
    }
  }

  /** Whatever a restore of at most MAX_RESTORE_ROWS rows wrote, with some rows in conflict and some
      engine calls failing, undoing its batch takes back exactly, unless an entry was too big to keep its images. */
  lemma UndoRevertsRestore(env: Env, s: State, table: TableName, backup: Table, inputs: seq<RestoreInput>, meta: Meta,
                           faults: set<nat>, undoBy: Meta, force: bool)
    requires Sound(s) && table in s.db && |inputs| <= MAX_RESTORE_ROWS
    requires meta.batch.Some? && BatchUnused(s.journal, meta.batch.value) && undoBy.user.Some?
    ensures var after := RestoreAll(env, s, table, backup, Common(s.db[table].columns, backup.columns), inputs, meta, faults).0;
            && Sound(after) && |after.journal| >= |s.journal|
            && (AllUndoable(after.journal[|s.journal|..]) ==>
                  var r := UndoAll(env, after, Newest(after.journal, meta.batch.value, MAX_BATCH_UNDO), after.journal, undoBy,
                                   force, {}, []);
                  r.state.db == s.db && r.error.None?)
  {
    var common := Common(s.db[table].columns, backup.columns);
    var step := Restoring(env, table, backup, common, inputs, meta, faults);
    RestoringJournals(env, table, backup, common, inputs, meta, faults);
    var cs, states := RunStepsJournal(step, s, 0, |inputs|, [], table, meta.batch);
    var after := RestoreAll(env, s, table, backup, common, inputs, meta, faults).0;
    assert after.journal[|s.journal|..] == cs;
    if AllUndoable(cs) {
      BatchUndoIsExact(env, after, s.journal, cs, states, meta.batch.value, undoBy, undoBy, force);
    }
  }
}
