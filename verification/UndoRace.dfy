/** Any number of undo calls for one journal entry at the same time, step by step, with other people's
    edits of the table in between (backend/internal/app/dbadmin/changes.go, undo, and the guarded
    claim in backend/internal/infra/postgres/rowchange_repository.go). */
module UndoRace {
  import opened Wrappers
  import opened Rows
  import opened Tables
  import opened Journal
  import opened DataBrowser

  type Caller = nat

  /** Where a call stands: about to claim, to write the row, to release after a failed write, or done. */
  datatype Stage =
    | Claiming
    | Writing
    | Releasing(conflict: bool)
    | Done(result: Result<UndoOutcome, UndoError>)

  datatype Call = Call(force: bool, stage: Stage)

  /** The user's table, whether the entry is marked undone, and the calls. writers lists the calls
      that wrote the row; stuck says that some release did not reach the journal. */
  datatype System = System(table: Table, undone: bool, calls: map<Caller, Call>, writers: seq<Caller>, stuck: bool)

  predicate Holding(c: Call) {
    c.stage.Writing? || c.stage.Releasing?
  }

  function Move(s: System, p: Caller, stage: Stage): System
    requires p in s.calls
  {
    s.(calls := s.calls[p := s.calls[p].(stage := stage)])
  }

  predicate Start(s: System) {
    && WellFormed(s.table) && !s.undone && s.writers == [] && !s.stuck
    && forall p :: p in s.calls ==> s.calls[p].stage.Claiming?
  }

  /** ClaimUndo: a guarded update; error: it did not reach the journal. */
  predicate ClaimStep(s: System, s': System, p: Caller, error: bool) {
    && p in s.calls && s.calls[p].stage.Claiming?
    && s' == if error then Move(s, p, Done(Err(EngineFailed)))
             else if s.undone then Move(s, p, Done(Ok(AlreadyUndone)))
             else Move(s, p, Writing).(undone := true)
  }

  /** ApplyRowImage: checks and writes the row in one transaction; error: it did not get that far. */
  predicate WriteStep(s: System, s': System, c: Change, defaults: Row, p: Caller, error: bool) {
    && p in s.calls && s.calls[p].stage.Writing? && WellFormed(s.table)
    && var o := if error then Err(Failed) else ApplyRow(s.table, UndoRequest(c, s.calls[p].force), defaults);
       s' == if o.Ok?
             then Move(s, p, Done(Ok(Undone(None)))).(table := o.value.0, writers := s.writers + [p])
             else Move(s, p, Releasing(!o.error.Failed?))
  }

  /** ReleaseUndo: clears the mark whoever set it; error: it did not reach the journal. */
  predicate ReleaseStep(s: System, s': System, p: Caller, error: bool) {
    && p in s.calls && s.calls[p].stage.Releasing?
    && var done := Move(s, p, Done(if s.calls[p].stage.conflict then Ok(UndoOutcome.Conflict) else Err(EngineFailed)));
       s' == if error then done.(stuck := true) else done.(undone := false)
  }

  /** Someone else edits the table. */
  predicate EditStep(s: System, s': System) {
    WellFormed(s'.table) && s' == s.(table := s'.table)
  }

  ghost predicate Next(s: System, s': System, c: Change, defaults: Row) {
    || EditStep(s, s')
    || (exists p, error :: ClaimStep(s, s', p, error))
    || (exists p, error :: WriteStep(s, s', c, defaults, p, error))
    || (exists p, error :: ReleaseStep(s, s', p, error))
  }

  ghost predicate StepAt(trace: seq<System>, i: nat, c: Change, defaults: Row) {
    i + 1 < |trace| && Next(trace[i], trace[i + 1], c, defaults)
  }

  ghost predicate Run(trace: seq<System>, c: Change, defaults: Row) {
    trace != [] && Start(trace[0]) && forall i: nat :: i + 1 < |trace| ==> StepAt(trace, i, c, defaults)
  }

  predicate WroteRow(c: Call) {
    c.stage.Done? && c.stage.result.Ok? && c.stage.result.value.Undone?
  }

  /** The mark is held by the one call between its claim and its release, or by the one that wrote
      the row, or is left behind by a release that failed: never by two of them. */
  ghost predicate Inv(s: System) {
    && WellFormed(s.table)
    && (forall p, q :: p in s.calls && q in s.calls && Holding(s.calls[p]) && Holding(s.calls[q]) ==> p == q)
    && (forall p :: p in s.calls && Holding(s.calls[p]) ==> s.undone && s.writers == [] && !s.stuck)
    && |s.writers| <= 1 && (s.writers != [] ==> s.undone && !s.stuck) && (s.stuck ==> s.undone)
    && (s.undone ==> s.writers != [] || s.stuck || exists p :: p in s.calls && Holding(s.calls[p]))
    && (forall p :: p in s.calls ==> (WroteRow(s.calls[p]) <==> p in s.writers))
  }

  lemma ClaimKeeps(s: System, s': System, p: Caller, error: bool)
    requires Inv(s) && ClaimStep(s, s', p, error)
    ensures Inv(s')
  {
    if !error && !s.undone {
      assert Holding(s'.calls[p]);
    } else if s.undone && s.writers == [] && !s.stuck {
      var q :| q in s.calls && Holding(s.calls[q]);
      assert q in s'.calls && Holding(s'.calls[q]);
    }
  }

  lemma WriteKeeps(s: System, s': System, c: Change, defaults: Row, p: Caller, error: bool)
    requires Inv(s) && WriteStep(s, s', c, defaults, p, error)
    ensures Inv(s')
  {
    assert Holding(s.calls[p]);
    assert Holding(s'.calls[p]) || s'.writers == [p];
  }

  lemma ReleaseKeeps(s: System, s': System, p: Caller, error: bool)
    requires Inv(s) && ReleaseStep(s, s', p, error)
    ensures Inv(s')
  {
    assert Holding(s.calls[p]);
    forall q | q in s'.calls ensures !Holding(s'.calls[q]) {
      assert q != p ==> s'.calls[q] == s.calls[q];
    }
  }

  lemma NextKeeps(s: System, s': System, c: Change, defaults: Row)
    requires Inv(s) && Next(s, s', c, defaults)
    ensures Inv(s')
  {
    if p, error :| ClaimStep(s, s', p, error) {
      ClaimKeeps(s, s', p, error);
    } else if p, error :| WriteStep(s, s', c, defaults, p, error) {
      WriteKeeps(s, s', c, defaults, p, error);
    } else if p, error :| ReleaseStep(s, s', p, error) {
      ReleaseKeeps(s, s', p, error);
    }
  }

  lemma {:induction false} RunKeeps(trace: seq<System>, c: Change, defaults: Row, n: nat)
    requires Run(trace, c, defaults) && n < |trace|
    ensures Inv(trace[n])
  {
    if n > 0 {
      RunKeeps(trace, c, defaults, n - 1);
      assert StepAt(trace, n - 1, c, defaults);
      NextKeeps(trace[n - 1], trace[n], c, defaults);
    }
  }

  /** In every interleaving the inverse is applied at most once, by the one call that reports it. */
  lemma AppliedAtMostOnce(trace: seq<System>, c: Change, defaults: Row, n: nat)
    requires Run(trace, c, defaults) && n < |trace|
    ensures var s := trace[n];
            && |s.writers| <= 1
            && (forall p, q :: p in s.calls && q in s.calls && WroteRow(s.calls[p]) && WroteRow(s.calls[q]) ==> p == q)
  {
    RunKeeps(trace, c, defaults, n);
  }

  /** Once every call is done, the entry can be claimed again exactly when its inverse was not applied
      and every release of a failed attempt reached the journal. */
  lemma ClaimableAtRestIff(trace: seq<System>, c: Change, defaults: Row, n: nat)
    requires Run(trace, c, defaults) && n < |trace|
    requires forall p :: p in trace[n].calls ==> trace[n].calls[p].stage.Done?
    ensures !trace[n].undone <==> trace[n].writers == [] && !trace[n].stuck
  {
    RunKeeps(trace, c, defaults, n);
  }

  /** The row still has the values the change gave it, on every column it set, or is still gone. */
  predicate AsChanged(t: Table, c: Change) {
    match c.op
    case Insert => c.after.Some? ==> c.key in t.rows && SameValues(c.after.value, t.rows[c.key])
    case Update => c.after.Some? ==> c.key in t.rows && SameValues(c.after.value, t.rows[c.key])
    case Delete => c.key !in t.rows
    case Nothing => true
  }

  /** A call's own step changes the table only as the call succeeds, and an unforced one then found
      the row as the change had left it, whatever happened since it was read. */
  lemma OnlySuccessWrites(s: System, s': System, c: Change, defaults: Row)
    requires Next(s, s', c, defaults) && !EditStep(s, s')
    ensures s'.table != s.table ==> s'.writers != s.writers
    ensures s'.writers != s.writers ==>
              exists p :: p in s.calls && s'.writers == s.writers + [p] && WroteRow(s'.calls[p])
                          && (!s.calls[p].force ==> AsChanged(s.table, c))
  {
    if p, error :| WriteStep(s, s', c, defaults, p, error) {
      assert s'.writers != s.writers ==> p in s.calls && s'.writers == s.writers + [p] && WroteRow(s'.calls[p]);
    }
  }

  /** A release that does not reach the journal leaves the entry marked undone although its inverse
      was never applied, and every later call is told that it was already undone. */
  lemma LostReleaseBlocks(s: System, c: Change, defaults: Row, p: Caller, q: Caller) returns (trace: seq<System>, last: System)
    requires Start(s) && p in s.calls && q in s.calls && p != q
    ensures Run(trace, c, defaults) && trace[0] == s && trace[|trace| - 1] == last
    ensures last.table == s.table && last.writers == [] && p in last.calls && q in last.calls
    ensures last.calls[p].stage == Done(Err(EngineFailed)) && last.calls[q].stage == Done(Ok(AlreadyUndone))
  {
    var s1 := Move(s, p, Writing).(undone := true);
    var s2 := Move(s1, p, Releasing(false));
    var s3 := Move(s2, p, Done(Err(EngineFailed))).(stuck := true);
    last := Move(s3, q, Done(Ok(AlreadyUndone)));
    trace := [s, s1, s2, s3, last];
    assert ClaimStep(s, s1, p, false);
    assert WriteStep(s1, s2, c, defaults, p, true);
    assert ReleaseStep(s2, s3, p, true);
    assert ClaimStep(s3, last, q, false);
  }

  /** A call left alone does what the data browser's undo does in one piece. */
  lemma AloneIsUndoOne(env: Env, st: State, id: nat, user: User, force: bool) returns (s: System, s1: System, s2: System, s3: System)
    requires Sound(st) && id < |st.journal| && st.journal[id].undoable && st.journal[id].table in st.db
    ensures s == System(st.db[st.journal[id].table], st.journal[id].undoneBy.Some?, map[0 := Call(force, Claiming)], [], false)
    ensures ClaimStep(s, s1, 0, false) && 0 in s1.calls
    ensures if s1.calls[0].stage.Writing?
            then WriteStep(s1, s2, st.journal[id], env.defaults(st.journal[id].table), 0, false) else s2 == s1
    ensures 0 in s2.calls && if s2.calls[0].stage.Releasing? then ReleaseStep(s2, s3, 0, false) else s3 == s2
    ensures var (st', r) := UndoOne(env, st, id, st.journal[id], Meta(Some(user), None), force, false);
            && s3.table == st'.db[st.journal[id].table] && s3.undone == st'.journal[id].undoneBy.Some?
            && 0 in s3.calls && s3.calls[0].stage.Done? && SameOutcome(s3.calls[0].stage.result, r)
  {
    var c := st.journal[id];
    s := System(st.db[c.table], c.undoneBy.Some?, map[0 := Call(force, Claiming)], [], false);
    s1 := if s.undone then Move(s, 0, Done(Ok(AlreadyUndone))) else Move(s, 0, Writing).(undone := true);
    s2 := s1;
    if !s.undone {
      var o := ApplyRow(s.table, UndoRequest(c, force), env.defaults(c.table));
      s2 := if o.Ok? then Move(s1, 0, Done(Ok(Undone(None)))).(table := o.value.0, writers := s1.writers + [0])
            else Move(s1, 0, Releasing(!o.error.Failed?));
    }
    s3 := s2;
    if s2.calls[0].stage.Releasing? {
      s3 := Move(s2, 0, Done(if s2.calls[0].stage.conflict then Ok(UndoOutcome.Conflict) else Err(EngineFailed))).(undone := false);
    }
  }

  /** The same verdict, whatever entry the undo was journaled as. */
  predicate SameOutcome(a: Result<UndoOutcome, UndoError>, b: Result<UndoOutcome, UndoError>) {
    a == b || (a.Ok? && b.Ok? && a.value.Undone? && b.value.Undone?)
  }
}
