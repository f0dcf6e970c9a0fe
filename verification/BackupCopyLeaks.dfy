/** Which temporary databases outlive their backup copies, over every run: when a dropped copy's is
    gone, when it stays for good, and what else can keep one once everything has come to rest. */
module BackupCopyLeaks {
  import opened Wrappers
  import opened BackupCopies
  import opened BackupCopyRuns

  // ---- A copy's restore and drops ------------------------------------------------------------------

  /** The copy's restore is still to be requested or to finish. */
  predicate Pending(s: System, id: Id) {
    || (exists job :: job in s.jobs && s.jobs[job] == RestoreTask(id))
    || (exists p :: p in s.calls && s.calls[p] == Requesting(id))
  }

  /** A call whose restore request was refused is about to mark its copy failed or dropped. */
  predicate Refused(stage: Stage, id: Id) {
    stage == GivingUp(id) || stage == Abandoning(id)
  }

  /** The copies a call may go on to request a restore or drop of, or to report on. */
  predicate Handles(stage: Stage, id: Id) {
    match stage
    case Requesting(i) => i == id
    case GivingUp(i) => i == id
    case Abandoning(i) => i == id
    case DropRequest(i) => i == id
    case Restored(i, _) => i == id
    case RestoreFailed(i) => i == id
    case DropFinished(i, _) => i == id
    case ExpireRest(ids, _) => id in ids
    case ExpireLink(_, _, ids, _) => id in ids
    case _ => false
  }

  /** Nothing is under way for an id that has no copy. */
  predicate Unheard(s: System, id: Id) {
    && id !in s.made && id !in s.dropsAsked
    && (forall job :: job in s.jobs ==> s.jobs[job].id != id)
    && (forall p :: p in s.calls ==> !Handles(s.calls[p], id))
  }

  /** At most one restore is requested or running. */
  predicate Once(s: System, id: Id) {
    && (forall a, b :: a in s.jobs && b in s.jobs && s.jobs[a] == RestoreTask(id) && s.jobs[b] == RestoreTask(id) ==> a == b)
    && (forall p, q :: p in s.calls && q in s.calls && s.calls[p] == Requesting(id) && s.calls[q] == Requesting(id) ==> p == q)
    && (forall a, p :: a in s.jobs && p in s.calls && s.jobs[a] == RestoreTask(id) ==> s.calls[p] != Requesting(id))
  }

  /** A copy is restored at most once, and not after its request was refused; only that leaves a database. */
  predicate RestoresOnce(s: System, id: Id) {
    && (id !in s.rows ==> Unheard(s, id))
    && Once(s, id)
    && (Pending(s, id) ==> id !in s.made)
    && (forall p :: p in s.calls && Refused(s.calls[p], id) ==> id !in s.made && !Pending(s, id))
    && (id in s.scratch ==> id in s.made)
  }

  // ---- Every step keeps that ---------------------------------------------------------------------

  /** Where a call goes on with a copy, it had it in hand, or the copy is there. */
  lemma HandlesOn(rows: Rows, stage: Stage, inp: Input, id: Id)
    requires stage.Expiring? && !inp.lost ==> DueList(rows, inp.due, inp.now)
    requires Handles(Advance(rows, stage, inp).1, id)
    ensures Handles(stage, id) || id in Advance(rows, stage, inp).0
  {
  }

  lemma KeepsRows(rows: Rows, stage: Stage, inp: Input)
    ensures rows.Keys <= Advance(rows, stage, inp).0.Keys
  {
    AdvanceWrites(rows, stage, inp);
  }

  /** A refused restore is the only way to a refused call, and a fresh copy the only way to a request. */
  lemma RequestsOnce(rows: Rows, stage: Stage, inp: Input, id: Id)
    ensures var (rows', next) := Advance(rows, stage, inp);
            && (next == Requesting(id) ==> stage.Creating? && id == inp.newId && id in rows' && id !in rows)
            && (Refused(next, id) ==> Refused(stage, id) || (stage == Requesting(id) && inp.job.None?))
            && (id !in rows && id in rows' ==> next == Requesting(id))
  {
    AdvanceWrites(rows, stage, inp);
  }

  /** What a call's step does about one copy. */
  ghost predicate Effect(s: System, s': System, p: Caller, inp: Input, id: Id) {
    && p in s.calls && s'.calls.Keys == s.calls.Keys && (forall q :: q in s.calls && q != p ==> s'.calls[q] == s.calls[q])
    && s'.made == s.made && s'.scratch == s.scratch && s.rows.Keys <= s'.rows.Keys
    && (forall job :: job in s.jobs ==> job in s'.jobs && s'.jobs[job] == s.jobs[job])
    && (forall job :: job in s'.jobs && job !in s.jobs ==> Requested(s.calls[p]) == Some(s'.jobs[job]) && inp.job == Some(job))
    && (Handles(s'.calls[p], id) ==> Handles(s.calls[p], id) || id in s'.rows)
    && (s'.calls[p] == Requesting(id) ==> id !in s.rows)
    && (Refused(s'.calls[p], id) ==> Refused(s.calls[p], id) || (s.calls[p] == Requesting(id) && s'.jobs == s.jobs))
    && (id !in s.rows && id in s'.rows ==> s'.calls[p] == Requesting(id) && s'.jobs == s.jobs && s'.dropsAsked == s.dropsAsked)
    && (s.calls[p] == Requesting(id) ==> s'.calls[p] != Requesting(id))
    && s.dropsAsked <= s'.dropsAsked
    && (id in s'.dropsAsked && id !in s.dropsAsked ==> exists job :: job in s'.jobs && job !in s.jobs && s'.jobs[job] == DropTask(id))
  }

  lemma CallHas(s: System, s': System, p: Caller, inp: Input, id: Id)
    requires CallStep(s, s', p, inp)
    ensures Effect(s, s', p, inp, id)
  {
    var stage := s.calls[p];
    KeepsRows(s.rows, stage, inp);
    RequestsOnce(s.rows, stage, inp, id);
    if Handles(s'.calls[p], id) {
      HandlesOn(s.rows, stage, inp, id);
    }
    if id in s'.dropsAsked && id !in s.dropsAsked {
      assert s'.jobs[inp.job.value] == DropTask(id) && inp.job.value !in s.jobs;
    }
  }

  lemma RequestHandles(s: System, p: Caller, id: Id)
    requires p in s.calls && Requested(s.calls[p]).Some? && Requested(s.calls[p]).value.id == id
    ensures Handles(s.calls[p], id)
  {
  }

  /** If a call's step leaves the restore pending, it was pending, or the copy is new. */
  lemma PendingBefore(s: System, s': System, p: Caller, inp: Input, id: Id)
    requires Effect(s, s', p, inp, id) && Pending(s', id) && id in s.rows
    ensures Pending(s, id)
  {
    if job :| job in s'.jobs && s'.jobs[job] == RestoreTask(id) {
      if job !in s.jobs {
        assert s.calls[p] == Requesting(id);
      } else {
        assert s.jobs[job] == RestoreTask(id);
      }
    } else {
      var q :| q in s'.calls && s'.calls[q] == Requesting(id);
      assert q != p && s.calls[q] == Requesting(id);
    }
  }

  lemma NewCopyOnce(s: System, s': System, p: Caller, inp: Input, id: Id)
    requires RestoresOnce(s, id) && Effect(s, s', p, inp, id) && id !in s.rows && id in s'.rows
    ensures RestoresOnce(s', id)
  {
    assert forall q :: q in s.calls ==> !Handles(s.calls[q], id);
    assert forall q :: q in s'.calls && q != p ==> s'.calls[q] != Requesting(id) && !Refused(s'.calls[q], id);
  }

  lemma NoCopyYet(s: System, s': System, p: Caller, inp: Input, id: Id)
    requires RestoresOnce(s, id) && Effect(s, s', p, inp, id) && id !in s'.rows
    ensures RestoresOnce(s', id)
  {
    forall job | job in s'.jobs ensures s'.jobs[job].id != id {
      if job !in s.jobs && s'.jobs[job].id == id {
        RequestHandles(s, p, id);
      }
    }
    forall q | q in s'.calls ensures !Handles(s'.calls[q], id) {
      assert !Handles(s.calls[q], id);
    }
  }

  lemma OldCopyOnce(s: System, s': System, p: Caller, inp: Input, id: Id)
    requires RestoresOnce(s, id) && Effect(s, s', p, inp, id) && id in s.rows
    ensures RestoresOnce(s', id)
  {
    if Pending(s', id) {
      PendingBefore(s, s', p, inp, id);
    }
    forall q | q in s'.calls && Refused(s'.calls[q], id) ensures id !in s'.made && !Pending(s', id) {
      if q == p && !Refused(s.calls[p], id) {
        assert s.calls[p] == Requesting(id) && s'.jobs == s.jobs && Pending(s, id);
        assert forall o :: o in s'.calls ==> s'.calls[o] != Requesting(id);
        assert forall job :: job in s'.jobs ==> s'.jobs[job] != RestoreTask(id);
      } else {
        assert q in s.calls && Refused(s.calls[q], id);
      }
    }
    OnceKept(s, s', p, inp, id);
  }

  lemma OnceKept(s: System, s': System, p: Caller, inp: Input, id: Id)
    requires Once(s, id) && Effect(s, s', p, inp, id) && id in s.rows
    ensures Once(s', id)
  {
    forall a, q | a in s'.jobs && q in s'.calls && s'.jobs[a] == RestoreTask(id) ensures s'.calls[q] != Requesting(id) {
      if a !in s.jobs {
        assert s.calls[p] == Requesting(id);
      }
    }
    forall a, b | a in s'.jobs && b in s'.jobs && s'.jobs[a] == RestoreTask(id) && s'.jobs[b] == RestoreTask(id) ensures a == b {
      if a !in s.jobs || b !in s.jobs {
        assert s.calls[p] == Requesting(id);
      }
    }
  }

  lemma CallRestoresOnce(s: System, s': System, p: Caller, inp: Input, id: Id)
    requires RestoresOnce(s, id) && CallStep(s, s', p, inp)
    ensures RestoresOnce(s', id)
  {
    CallHas(s, s', p, inp, id);
    if id in s.rows {
      OldCopyOnce(s, s', p, inp, id);
    } else if id in s'.rows {
      NewCopyOnce(s, s', p, inp, id);
    } else {
      NoCopyYet(s, s', p, inp, id);
    }
  }

  /** What a job's end does about one copy. */
  predicate JobEffect(s: System, s': System, p: Caller, job: Job, id: Id) {
    && p !in s.calls && p in s'.calls && s'.calls.Keys == s.calls.Keys + {p} && job in s.jobs && s'.jobs == s.jobs - {job}
    && (forall q :: q in s.calls ==> s'.calls[q] == s.calls[q])
    && s'.rows == s.rows && s'.dropsAsked == s.dropsAsked
    && s'.calls[p] != Requesting(id) && !Refused(s'.calls[p], id) && (Handles(s'.calls[p], id) ==> s.jobs[job].id == id)
    && (s.jobs[job] != RestoreTask(id) ==> (id in s'.made <==> id in s.made) && (id in s'.scratch ==> id in s.scratch))
    && (id in s'.scratch ==> id in s.scratch || id in s'.made)
    && (id in s.made ==> id in s'.made)
  }

  lemma JobHas(s: System, s': System, p: Caller, job: Job, ok: bool, partly: bool, id: Id)
    requires JobStep(s, s', p, job, ok, partly)
    ensures JobEffect(s, s', p, job, id)
  {
  }

  lemma JobPending(s: System, s': System, p: Caller, job: Job, id: Id)
    requires Once(s, id) && JobEffect(s, s', p, job, id)
    ensures Pending(s', id) <==> Pending(s, id) && s.jobs[job] != RestoreTask(id)
  {
    if Pending(s, id) && s.jobs[job] != RestoreTask(id) {
      if a :| a in s.jobs && s.jobs[a] == RestoreTask(id) {
        assert a in s'.jobs && s'.jobs[a] == RestoreTask(id);
      } else {
        var q :| q in s.calls && s.calls[q] == Requesting(id);
        assert q in s'.calls && s'.calls[q] == Requesting(id);
      }
    }
    if a :| a in s'.jobs && s'.jobs[a] == RestoreTask(id) {
      assert a in s.jobs && s.jobs[a] == RestoreTask(id) && a != job;
    } else if q :| q in s'.calls && s'.calls[q] == Requesting(id) {
      assert q in s.calls && s.calls[q] == Requesting(id);
    }
  }

  lemma JobRestoresOnce(s: System, s': System, p: Caller, job: Job, id: Id)
    requires RestoresOnce(s, id) && JobEffect(s, s', p, job, id)
    ensures RestoresOnce(s', id)
  {
    JobPending(s, s', p, job, id);
    if s.jobs[job] == RestoreTask(id) {
      assert Pending(s, id);
    }
    forall q | q in s'.calls && Refused(s'.calls[q], id) ensures id !in s'.made && !Pending(s', id) {
      assert q in s.calls && Refused(s.calls[q], id);
    }
    assert Once(s', id);
  }

  lemma BeginRestoresOnce(s: System, s': System, p: Caller, stage: Stage, id: Id)
    requires RestoresOnce(s, id) && BeginStep(s, s', p, stage)
    ensures RestoresOnce(s', id) && (Pending(s', id) <==> Pending(s, id))
  {
    assert forall q :: q in s.calls ==> q in s'.calls && s'.calls[q] == s.calls[q];
  }

  lemma StepRestoresOnce(s: System, s': System, id: Id)
    requires RestoresOnce(s, id) && Next(s, s')
    ensures RestoresOnce(s', id)
  {
    if p, inp :| CallStep(s, s', p, inp) {
      CallRestoresOnce(s, s', p, inp, id);
    } else if p, job, ok, partly :| JobStep(s, s', p, job, ok, partly) {
      JobHas(s, s', p, job, ok, partly, id);
      JobRestoresOnce(s, s', p, job, id);
    } else {
      var p, stage :| BeginStep(s, s', p, stage);
      BeginRestoresOnce(s, s', p, stage, id);
    }
  }

  lemma {:induction false} RunRestoresOnce(trace: seq<System>, n: nat, id: Id)
    requires Run(trace) && n < |trace|
    ensures RestoresOnce(trace[n], id)
  {
    if n > 0 {
      RunRestoresOnce(trace, n - 1, id);
      assert StepAt(trace, n - 1);
      StepRestoresOnce(trace[n - 1], trace[n], id);
    }
  }

  // ---- Drops that wait for the restore -------------------------------------------------------------

  /** No drop of the copy is requested in this step while its restore is pending. */
  predicate Waits(s: System, s': System, id: Id) {
    Pending(s, id) ==> forall job :: job in s'.jobs && job !in s.jobs ==> s'.jobs[job] != DropTask(id)
  }

  predicate Gone(s: System, id: Id) {
    id !in s.scratch && !Pending(s, id)
  }

  predicate InOrder(s: System, id: Id) {
    && (id in s.dropsAsked ==> !Pending(s, id))
    && (forall p :: p in s.calls && s.calls[p] == DropFinished(id, true) ==> id in s.dropsAsked && id !in s.scratch)
    && (id in s.rows && s.rows[id].status.Dropped? ==> Gone(s, id))
  }

  /** A copy becomes dropped when a drop of it succeeded, or its restore was never requested. */
  lemma DroppedBy(rows: Rows, stage: Stage, inp: Input, id: Id)
    requires id in Advance(rows, stage, inp).0 && Advance(rows, stage, inp).0[id].status.Dropped?
    ensures (id in rows && rows[id].status.Dropped?) || stage == Abandoning(id) || stage == DropFinished(id, true)
  {
    AdvanceWrites(rows, stage, inp);
  }

  lemma DropFinishedIsNew(rows: Rows, stage: Stage, inp: Input, id: Id)
    ensures Advance(rows, stage, inp).1 != DropFinished(id, true)
  {
  }

  lemma CallInOrder(s: System, s': System, p: Caller, inp: Input, id: Id)
    requires RestoresOnce(s, id) && InOrder(s, id) && CallStep(s, s', p, inp) && Waits(s, s', id)
    ensures InOrder(s', id)
  {
    CallHas(s, s', p, inp, id);
    DropFinishedIsNew(s.rows, s.calls[p], inp, id);
    if Pending(s', id) && id in s.rows {
      PendingBefore(s, s', p, inp, id);
    }
    forall q | q in s'.calls && s'.calls[q] == DropFinished(id, true) ensures id in s'.dropsAsked && id !in s'.scratch {
      assert q != p && s.calls[q] == DropFinished(id, true);
    }
    if id in s'.rows && s'.rows[id].status.Dropped? {
      DroppedBy(s.rows, s.calls[p], inp, id);
      assert Refused(s.calls[p], id) || s.calls[p] == DropFinished(id, true) || s.rows[id].status.Dropped?;
    }
  }

  lemma JobInOrder(s: System, s': System, p: Caller, job: Job, ok: bool, partly: bool, id: Id)
    requires RestoresOnce(s, id) && InOrder(s, id) && Backed(s) && JobStep(s, s', p, job, ok, partly)
    ensures InOrder(s', id)
  {
    JobHas(s, s', p, job, ok, partly, id);
    JobPending(s, s', p, job, id);
    if s.jobs[job] == RestoreTask(id) {
      assert Pending(s, id);
    }
    forall q | q in s'.calls && s'.calls[q] == DropFinished(id, true) ensures id in s'.dropsAsked && id !in s'.scratch {
      assert q != p ==> s.calls[q] == DropFinished(id, true);
    }
  }

  lemma StepInOrder(s: System, s': System, id: Id)
    requires RestoresOnce(s, id) && InOrder(s, id) && Backed(s) && Next(s, s') && Waits(s, s', id)
    ensures InOrder(s', id)
  {
    if p, inp :| CallStep(s, s', p, inp) {
      CallInOrder(s, s', p, inp, id);
    } else if p, job, ok, partly :| JobStep(s, s', p, job, ok, partly) {
      JobInOrder(s, s', p, job, ok, partly, id);
    } else {
      var p, stage :| BeginStep(s, s', p, stage);
      BeginRestoresOnce(s, s', p, stage, id);
      assert forall q :: q in s'.calls && s'.calls[q] == DropFinished(id, true) ==> q in s.calls && s.calls[q] == DropFinished(id, true);
    }
  }

  ghost predicate WaitsAt(trace: seq<System>, i: nat, id: Id) {
    i + 1 < |trace| && Waits(trace[i], trace[i + 1], id)
  }

  lemma InOrderNext(trace: seq<System>, last: nat, n: nat, id: Id)
    requires Run(trace) && n == last + 1 && n < |trace| && InOrder(trace[last], id) && WaitsAt(trace, last, id)
    ensures InOrder(trace[n], id)
  {
    RunRestoresOnce(trace, last, id);
    RunKeeps(trace, last);
    assert StepAt(trace, last);
    StepInOrder(trace[last], trace[n], id);
  }

  lemma {:induction false} RunInOrder(trace: seq<System>, n: nat, id: Id)
    requires Run(trace) && n < |trace| && forall i: nat :: i < n ==> WaitsAt(trace, i, id)
    ensures InOrder(trace[n], id)
  {
    if n > 0 {
      var last: nat := n - 1;
      RunInOrder(trace, last, id);
      InOrderNext(trace, last, n, id);
    }
  }

  /** If no drop of a copy is ever requested while its restore is pending, a dropped copy has left no
      temporary database, and no restore that could still bring one. */
  lemma DroppedIsGone(trace: seq<System>, n: nat, id: Id)
    requires Run(trace) && n < |trace| && forall i: nat :: i < n ==> WaitsAt(trace, i, id)
    requires id in trace[n].rows && trace[n].rows[id].status.Dropped?
    ensures Gone(trace[n], id)
  {
    RunInOrder(trace, n, id);
  }

  // ---- Drops that do not ---------------------------------------------------------------------------

  /** A call that may yet request a drop of the copy, once that is dropped. */
  predicate MayAsk(stage: Stage, id: Id) {
    match stage
    case DropRequest(i) => i == id
    case RestoreFailed(i) => i == id
    case Restored(i, ok) => i == id && !ok
    case ExpireRest(ids, _) => id in ids
    case ExpireLink(_, _, ids, _) => id in ids
    case _ => false
  }

  /** A drop of the copy is still under way. */
  predicate Droppable(s: System, id: Id) {
    || (exists job :: job in s.jobs && s.jobs[job] == DropTask(id))
    || (exists p :: p in s.calls && MayAsk(s.calls[p], id))
  }

  predicate IsDropped(s: System, id: Id) {
    id in s.rows && s.rows[id].status.Dropped?
  }

  /** Dropped, with nothing under way but perhaps its restore. */
  predicate LeftBehind(s: System, id: Id) {
    IsDropped(s, id) && !Droppable(s, id)
  }

  /** A dropped copy is on no due list, and no call starts a drop of it anew. */
  lemma AsksNoMore(rows: Rows, stage: Stage, inp: Input, id: Id)
    requires id in rows && rows[id].status.Dropped? && MayAsk(Advance(rows, stage, inp).1, id)
    requires stage.Expiring? && !inp.lost ==> DueList(rows, inp.due, inp.now)
    ensures MayAsk(stage, id)
  {
  }

  lemma RequestAsks(stage: Stage, id: Id)
    requires Requested(stage) == Some(DropTask(id))
    ensures MayAsk(stage, id)
  {
  }

  lemma CallLeaves(s: System, s': System, p: Caller, inp: Input, id: Id)
    requires LeftBehind(s, id) && CallStep(s, s', p, inp)
    ensures LeftBehind(s', id) && s'.scratch == s.scratch
  {
    CallHas(s, s', p, inp, id);
    AdvanceWrites(s.rows, s.calls[p], inp);
    forall job | job in s'.jobs ensures s'.jobs[job] != DropTask(id) {
      if job !in s.jobs && s'.jobs[job] == DropTask(id) {
        RequestAsks(s.calls[p], id);
      }
    }
    forall q | q in s'.calls ensures !MayAsk(s'.calls[q], id) {
      if q == p && MayAsk(s'.calls[p], id) {
        AsksNoMore(s.rows, s.calls[p], inp, id);
      }
    }
  }

  /** A job's end leaves it so too, unless it is the failed end of the copy's own restore. */
  lemma JobLeaves(s: System, s': System, p: Caller, job: Job, ok: bool, partly: bool, id: Id)
    requires LeftBehind(s, id) && JobStep(s, s', p, job, ok, partly) && (ok || s.jobs[job] != RestoreTask(id))
    ensures LeftBehind(s', id)
  {
    assert s.jobs[job] != DropTask(id);
    assert forall a :: a in s'.jobs ==> a in s.jobs && s'.jobs[a] == s.jobs[a];
    assert forall q :: q in s.calls ==> q in s'.calls && s'.calls[q] == s.calls[q];
    assert !MayAsk(s'.calls[p], id);
  }

  // ---- What comes of them ----------------------------------------------------------------------------

  /** The copy's restore fails in this step: its callback begins. */
  predicate Fails(s: System, s': System, id: Id) {
    exists p :: p in s'.calls && p !in s.calls && s'.calls[p] == Restored(id, false)
  }

  /** The copy's restore ends in this step and leaves a temporary database, whether it succeeded or not. */
  predicate Makes(s: System, s': System, id: Id) {
    id in s'.made && id !in s.made
  }

  /** A drop of the copy ends in this step, and its temporary database is not there any more. */
  predicate Drops(s: System, s': System, id: Id) {
    id !in s'.scratch && exists p, ok :: p in s'.calls && p !in s.calls && s'.calls[p] == DropFinished(id, ok)
  }

  /** What a step does to a dropped copy's temporary database. */
  predicate Moves(s: System, s': System, id: Id) {
    && IsDropped(s', id)
    && (id in s'.scratch <==> Makes(s, s', id) || (id in s.scratch && !Drops(s, s', id)))
    && (Drops(s, s', id) ==> Droppable(s, id) && !Makes(s, s', id))
    && (Makes(s, s', id) || Fails(s, s', id) ==> Pending(s, id) && !Pending(s', id))
    && (Pending(s', id) ==> Pending(s, id))
    && (LeftBehind(s, id) && !Fails(s, s', id) ==> LeftBehind(s', id))
  }

  lemma CallMoves(s: System, s': System, p: Caller, inp: Input, id: Id)
    requires IsDropped(s, id) && CallStep(s, s', p, inp)
    ensures Moves(s, s', id)
  {
    CallHas(s, s', p, inp, id);
    AdvanceWrites(s.rows, s.calls[p], inp);
    if LeftBehind(s, id) {
      CallLeaves(s, s', p, inp, id);
    }
    if Pending(s', id) {
      PendingBefore(s, s', p, inp, id);
    }
  }

  lemma JobMoves(s: System, s': System, p: Caller, job: Job, ok: bool, partly: bool, id: Id)
    requires RestoresOnce(s, id) && IsDropped(s, id) && JobStep(s, s', p, job, ok, partly)
    ensures Moves(s, s', id)
  {
    JobHas(s, s', p, job, ok, partly, id);
    JobPending(s, s', p, job, id);
    assert s.jobs[job] == RestoreTask(id) ==> Pending(s, id);
    assert s.jobs[job] == DropTask(id) ==> Droppable(s, id);
    assert Fails(s, s', id) <==> s.jobs[job] == RestoreTask(id) && !ok;
    assert s.jobs[job] == DropTask(id) ==> s'.calls[p] == DropFinished(id, ok);
    if LeftBehind(s, id) && (ok || s.jobs[job] != RestoreTask(id)) {
      JobLeaves(s, s', p, job, ok, partly, id);
    }
  }

  lemma StepMoves(s: System, s': System, id: Id)
    requires RestoresOnce(s, id) && IsDropped(s, id) && Next(s, s')
    ensures Moves(s, s', id)
  {
    if p, inp :| CallStep(s, s', p, inp) {
      CallMoves(s, s', p, inp, id);
    } else if p, job, ok, partly :| JobStep(s, s', p, job, ok, partly) {
      JobMoves(s, s', p, job, ok, partly, id);
    } else {
      var p, stage :| BeginStep(s, s', p, stage);
      BeginRestoresOnce(s, s', p, stage, id);
      assert forall q :: q in s'.calls && MayAsk(s'.calls[q], id) ==> q in s.calls && MayAsk(s.calls[q], id);
    }
  }

  type Event = (System, System, Id) -> bool

  ghost predicate At(event: Event, trace: seq<System>, i: nat, id: Id) {
    i + 1 < |trace| && event(trace[i], trace[i + 1], id)
  }

  /** The event happens to the copy between the k-th and the n-th state. */
  ghost predicate Between(event: Event, trace: seq<System>, k: nat, n: nat, id: Id) {
    exists m: nat :: k <= m < n && At(event, trace, m, id)
  }

  lemma OneMoreStep(event: Event, trace: seq<System>, k: nat, last: nat, n: nat, id: Id)
    requires k <= last && n == last + 1 && n < |trace|
    ensures Between(event, trace, k, n, id) <==> Between(event, trace, k, last, id) || event(trace[last], trace[n], id)
  {
    assert At(event, trace, last, id) <==> event(trace[last], trace[n], id);
  }

  /** What holds of a copy n - k steps after it was left behind. */
  ghost predicate Fate(trace: seq<System>, k: nat, n: nat, id: Id)
    requires k <= n < |trace|
  {
    var failed := Between(Fails, trace, k, n, id);
    && IsDropped(trace[n], id)
    && (id in trace[n].scratch <==>
          (id in trace[k].scratch || Between(Makes, trace, k, n, id)) && !Between(Drops, trace, k, n, id))
    && (!failed ==> LeftBehind(trace[n], id) && !Between(Drops, trace, k, n, id))
    && (failed || Between(Makes, trace, k, n, id) || !Pending(trace[k], id) ==> !Pending(trace[n], id))
    && (id in trace[k].scratch ==> !failed && !Pending(trace[n], id))
  }

  lemma FateNext(trace: seq<System>, k: nat, last: nat, n: nat, id: Id)
    requires k <= last && n == last + 1 && n < |trace| && Fate(trace, k, last, id) && Moves(trace[last], trace[n], id)
    ensures Fate(trace, k, n, id)
  {
    OneMoreStep(Fails, trace, k, last, n, id);
    OneMoreStep(Makes, trace, k, last, n, id);
    OneMoreStep(Drops, trace, k, last, n, id);
  }

  lemma NotYet(event: Event, trace: seq<System>, k: nat, id: Id)
    ensures !Between(event, trace, k, k, id)
  {
  }

  lemma {:induction false} FateOf(trace: seq<System>, k: nat, n: nat, id: Id)
    requires Run(trace) && k <= n < |trace| && LeftBehind(trace[k], id)
    ensures Fate(trace, k, n, id)
    decreases n
  {
    if k < n {
      var last: nat := n - 1;
      FateOf(trace, k, last, id);
      RunRestoresOnce(trace, last, id);
      assert StepAt(trace, last);
      StepMoves(trace[last], trace[n], id);
      FateNext(trace, k, last, n, id);
    } else {
      RunRestoresOnce(trace, k, id);
      NotYet(Fails, trace, k, id);
      NotYet(Makes, trace, k, id);
      NotYet(Drops, trace, k, id);
    }
  }

  /** From where a copy is dropped and no drop of it is under way any more, its temporary database is there
      exactly if it was then, or the copy's restore has left one since, and no drop has ended without it since;
      there is such a drop only once that restore has failed, and none if the database was there from the
      first. No listing ever finds the copy due. */
  lemma LateRestoreLeaksIff(trace: seq<System>, k: nat, n: nat, id: Id)
    requires Run(trace) && k <= n < |trace| && LeftBehind(trace[k], id)
    ensures IsDropped(trace[n], id) && forall later: int :: !Due(trace[n].rows[id], later)
    ensures id in trace[n].scratch <==>
              (id in trace[k].scratch || Between(Makes, trace, k, n, id)) && !Between(Drops, trace, k, n, id)
    ensures Between(Drops, trace, k, n, id) ==> Between(Fails, trace, k, n, id)
    ensures id in trace[k].scratch ==> id in trace[n].scratch
  {
    FateOf(trace, k, n, id);
  }

  // ---- At rest -------------------------------------------------------------------------------------

  predicate AtRest(s: System) {
    s.jobs == map[] && forall p :: p in s.calls ==> Over(s.calls[p])
  }

  /** A call is still to report how the copy's restore ended. */
  predicate Reports(stage: Stage, id: Id) {
    (stage.Restored? && stage.id == id) || stage == RestoreFailed(id) || (stage.Readying? && stage.id == id)
  }

  /** The store is lost to the callback of the copy's restore, before that has written how it ended. */
  ghost predicate ReportLost(s: System, s': System, id: Id) {
    exists p, inp :: CallStep(s, s', p, inp) && Reports(s.calls[p], id) && inp.lost
  }

  ghost predicate ReportLostAt(trace: seq<System>, i: nat, id: Id) {
    i + 1 < |trace| && ReportLost(trace[i], trace[i + 1], id)
  }

  predicate Reported(s: System, id: Id) {
    id in s.made && id in s.rows && s.rows[id].status.Restoring? ==> exists p :: p in s.calls && Reports(s.calls[p], id)
  }

  lemma ReportTold(rows: Rows, stage: Stage, inp: Input, id: Id)
    requires Reports(stage, id) && !inp.lost && id in rows && rows[id].status.Restoring?
    ensures var (rows', next) := Advance(rows, stage, inp);
            id in rows' && (Reports(next, id) || !rows'[id].status.Restoring?)
  {
  }

  lemma RestoringBefore(rows: Rows, stage: Stage, inp: Input, id: Id)
    requires id in rows && Advance(rows, stage, inp).0[id].status.Restoring?
    ensures rows[id].status.Restoring?
  {
    AdvanceWrites(rows, stage, inp);
  }

  lemma CallReported(s: System, s': System, p: Caller, inp: Input, id: Id)
    requires RestoresOnce(s, id) && Reported(s, id) && CallStep(s, s', p, inp)
    ensures Reported(s', id) || ReportLost(s, s', id)
  {
    CallHas(s, s', p, inp, id);
    if id in s'.made && id in s.rows && s'.rows[id].status.Restoring? {
      RestoringBefore(s.rows, s.calls[p], inp, id);
      var q :| q in s.calls && Reports(s.calls[q], id);
      if q == p && !inp.lost {
        ReportTold(s.rows, s.calls[p], inp, id);
      }
      assert q in s'.calls && (q != p ==> Reports(s'.calls[q], id));
    }
  }

  lemma JobReported(s: System, s': System, p: Caller, job: Job, ok: bool, partly: bool, id: Id)
    requires Reported(s, id) && JobStep(s, s', p, job, ok, partly)
    ensures Reported(s', id)
  {
    if id in s'.made && id !in s.made {
      assert Reports(s'.calls[p], id);
    } else if q :| q in s.calls && Reports(s.calls[q], id) {
      assert q in s'.calls && Reports(s'.calls[q], id);
    }
  }

  lemma StepReported(s: System, s': System, id: Id)
    requires RestoresOnce(s, id) && Reported(s, id) && Next(s, s')
    ensures Reported(s', id) || ReportLost(s, s', id)
  {
    if p, inp :| CallStep(s, s', p, inp) {
      CallReported(s, s', p, inp, id);
    } else if p, job, ok, partly :| JobStep(s, s', p, job, ok, partly) {
      JobReported(s, s', p, job, ok, partly, id);
    } else {
      var p, stage :| BeginStep(s, s', p, stage);
      assert forall q :: q in s.calls && Reports(s.calls[q], id) ==> q in s'.calls && Reports(s'.calls[q], id);
    }
  }

  lemma {:induction false} RunReported(trace: seq<System>, n: nat, id: Id)
    requires Run(trace) && n < |trace|
    ensures Reported(trace[n], id) || exists i: nat :: i < n && ReportLostAt(trace, i, id)
  {
    if n > 0 {
      var last: nat := n - 1;
      RunReported(trace, last, id);
      if Reported(trace[last], id) {
        RunRestoresOnce(trace, last, id);
        assert StepAt(trace, last);
        StepReported(trace[last], trace[n], id);
        assert ReportLost(trace[last], trace[n], id) ==> ReportLostAt(trace, last, id);
      }
    }
  }

  ghost predicate DueSince(c: Copy, from: int) {
    forall now: int :: now >= from ==> Due(c, now)
  }

  /** Every listing from some time on finds the copy due. */
  ghost predicate ComesDue(c: Copy) {
    exists from :: DueSince(c, from)
  }

  lemma DueFrom(c: Copy, from: int)
    requires RowOk(c)
    requires c.status.Failed? || (c.status.Ready? && c.expiresAt == Some(from - 1))
             || (c.status.Dropping? && c.attempts < MAX_DROP_ATTEMPTS && from == c.updatedAt + STALE_AFTER + 1)
    ensures ComesDue(c)
  {
    assert DueSince(c, from);
  }

  /** Once nothing is under way, a temporary database that is still there belongs to a copy that comes due,
      or its drop was tried MAX_DROP_ATTEMPTS times, or the store was lost to the report of its restore, or a
      drop of it was requested while its restore was pending. */
  lemma WhatOutlives(trace: seq<System>, n: nat, id: Id)
    requires Run(trace) && n < |trace| && AtRest(trace[n]) && id in trace[n].scratch
    ensures id in trace[n].rows
    ensures var c := trace[n].rows[id];
            || ComesDue(c)
            || (c.status.Dropping? && c.attempts >= MAX_DROP_ATTEMPTS)
            || (c.status.Restoring? && exists i: nat :: i < n && ReportLostAt(trace, i, id))
            || (c.status.Dropped? && exists i: nat :: i < n && !WaitsAt(trace, i, id))
  {
    RunKeeps(trace, n);
    RunRestoresOnce(trace, n, id);
    var c := trace[n].rows[id];
    match c.status
    case Restoring => RunReported(trace, n, id);
    case Ready => DueFrom(c, c.expiresAt.value + 1);
    case Failed => DueFrom(c, 0);
    case Dropping => if c.attempts < MAX_DROP_ATTEMPTS { DueFrom(c, c.updatedAt + STALE_AFTER + 1); }
    case Dropped =>
      if forall i: nat :: i < n ==> WaitsAt(trace, i, id) {
        DroppedIsGone(trace, n, id);
      }
  }

  // ---- A run that leaks --------------------------------------------------------------------------------

  const DEFAULT_TTL: nat := 2 * 3600 * SECOND

  function Tick(now: int, job: Option<Job>, due: seq<Id>): Input {
    Input(now, 0, job, due, false)
  }

  lemma RunMore(trace: seq<System>, s: System)
    requires Run(trace) && Next(trace[|trace| - 1], s)
    ensures Run(trace + [s]) && (trace + [s])[|trace + [s]| - 1] == s
  {
    var longer := trace + [s];
    forall i: nat | i + 1 < |longer| ensures StepAt(longer, i) {
      if i + 1 < |trace| {
        assert StepAt(trace, i);
      }
    }
  }

  lemma RunThree(trace: seq<System>, a: System, b: System, c: System) returns (longer: seq<System>)
    requires Run(trace) && Next(trace[|trace| - 1], a) && Next(a, b) && Next(b, c)
    ensures Run(longer) && longer[|longer| - 1] == c
  {
    RunMore(trace, a);
    RunMore(trace + [a], b);
    RunMore(trace + [a] + [b], c);
    longer := trace + [a] + [b] + [c];
  }

  /** A copy is created and its restore is given job 0. */
  lemma CreatedWithJob() returns (trace: seq<System>, c: Copy)
    ensures Run(trace) && c == Written(NewCopy(0, DEFAULT_TTL, 0), SetJob(0), 0)
    ensures trace[|trace| - 1] == System(map[0 := c], map[0 := Finished(true)], map[0 := RestoreTask(0)], {}, {}, {}, {})
  {
    var c0 := NewCopy(0, DEFAULT_TTL, 0);
    c := Written(c0, SetJob(0), 0);
    var s0 := System(map[], map[], map[], {}, {}, {}, {});
    var s1 := s0.(calls := map[0 := Creating(0, DEFAULT_TTL)]);
    var s2 := System(map[0 := c0], map[0 := Requesting(0)], map[], {}, {}, {}, {});
    var s3 := System(map[0 := c0], map[0 := Linking(0, 0)], map[0 := RestoreTask(0)], {}, {}, {}, {});
    var s4 := System(map[0 := c], map[0 := Finished(true)], map[0 := RestoreTask(0)], {}, {}, {}, {});
    assert BeginStep(s0, s1, 0, Creating(0, DEFAULT_TTL));
    assert CallStep(s1, s2, 0, Tick(0, None, []));
    assert CallStep(s2, s3, 0, Tick(0, Some(0), []));
    assert CallStep(s3, s4, 0, Tick(0, None, []));
    trace := [s0, s1, s2, s3, s4];
  }

  /** A restore that fails after it has created its database, and whose report is lost: the copy stays
      restoring, its temporary database is there, and nothing will ever drop it. */
  lemma StrandedForGood() returns (trace: seq<System>, last: System)
    ensures Run(trace) && trace[|trace| - 1] == last && AtRest(last) && 0 in last.scratch
    ensures 0 in last.rows && last.rows[0].status.Restoring? && !ComesDue(last.rows[0])
  {
    var begun, c := CreatedWithJob();
    var s := begun[|begun| - 1];
    var s1 := s.(jobs := s.jobs - {0}, calls := s.calls[1 := Restored(0, false)], scratch := {0}, made := {0});
    assert JobStep(s, s1, 1, 0, false, true);
    last := s1.(calls := s1.calls[1 := Finished(false)]);
    assert CallStep(s1, last, 1, Input(0, 0, None, [], true));
    RunMore(begun, s1);
    RunMore(begun + [s1], last);
    trace := begun + [s1] + [last];
    forall from ensures !DueSince(last.rows[0], from) {
      assert !Due(last.rows[0], from);
    }
  }

  /** It is discarded while that job runs. */
  lemma DiscardedEarly() returns (trace: seq<System>, c: Copy)
    ensures Run(trace) && c.status.Dropping? && c.updatedAt == 0 && c.attempts == 0
    ensures trace[|trace| - 1] == System(map[0 := c], map[0 := Finished(true), 1 := Finished(true)], map[0 := RestoreTask(0)], {}, {}, {}, {})
  {
    var begun, c1 := CreatedWithJob();
    c := Written(c1, MarkDropping(None), 0);
    var jobs := map[0 := RestoreTask(0)];
    var s4 := System(map[0 := c1], map[0 := Finished(true)], jobs, {}, {}, {}, {});
    var s5 := System(map[0 := c1], map[0 := Finished(true), 1 := Discarding(0)], jobs, {}, {}, {}, {});
    var s6 := System(map[0 := c1], map[0 := Finished(true), 1 := Deferring(0)], jobs, {}, {}, {}, {});
    var s7 := System(map[0 := c], map[0 := Finished(true), 1 := Finished(true)], jobs, {}, {}, {}, {});
    assert BeginStep(s4, s5, 1, Discarding(0));
    assert CallStep(s5, s6, 1, Tick(0, None, []));
    assert CallStep(s6, s7, 1, Tick(0, None, []));
    trace := RunThree(begun, s5, s6, s7);
  }

  /** Once it has been dropping for STALE_AFTER, an expiry pass lists it ... */
  lemma Listed(s0: System, c: Copy) returns (s1: System, s2: System)
    requires s0 == System(map[0 := c], map[0 := Finished(true), 1 := Finished(true)], map[0 := RestoreTask(0)], {}, {}, {}, {})
    requires c.status.Dropping? && c.updatedAt == 0 && c.attempts == 0
    ensures Next(s0, s1) && Next(s1, s2)
    ensures s2 == s0.(calls := map[0 := Finished(true), 1 := Finished(true), 2 := ExpireRest([0], 0)])
  {
    var now := STALE_AFTER + 1;
    s1 := s0.(calls := s0.calls[2 := Expiring]);
    assert BeginStep(s0, s1, 2, Expiring);
    s2 := s0.(calls := s0.calls[2 := ExpireRest([0], 0)]);
    assert CallStep(s1, s2, 2, Tick(now, None, [0]));
  }

  /** ... and requests its drop, ... */
  lemma DropRequested(s2: System, c: Copy) returns (s3: System)
    requires s2 == System(map[0 := c], map[0 := Finished(true), 1 := Finished(true), 2 := ExpireRest([0], 0)],
                          map[0 := RestoreTask(0)], {}, {}, {}, {})
    ensures Next(s2, s3)
    ensures s3 == System(map[0 := c], map[0 := Finished(true), 1 := Finished(true), 2 := ExpireLink(0, 1, [], 0)],
                         map[0 := RestoreTask(0), 1 := DropTask(0)], {}, {}, {0}, {})
  {
    s3 := s2.(calls := s2.calls[2 := ExpireLink(0, 1, [], 0)], jobs := s2.jobs[1 := DropTask(0)], dropsAsked := {0});
    assert [0][1..] == [];
    assert CallStep(s2, s3, 2, Tick(0, Some(1), []));
  }

  /** ... and links its drop, job 1, ... */
  lemma DropLinked(s3: System, c: Copy) returns (s4: System, s5: System)
    requires s3 == System(map[0 := c], map[0 := Finished(true), 1 := Finished(true), 2 := ExpireLink(0, 1, [], 0)],
                          map[0 := RestoreTask(0), 1 := DropTask(0)], {}, {}, {0}, {})
    requires c.status.Dropping?
    ensures Next(s3, s4) && Next(s4, s5)
    ensures s5 == s3.(rows := map[0 := Written(c, MarkDropping(Some(1)), STALE_AFTER + 1)],
                      calls := map[0 := Finished(true), 1 := Finished(true), 2 := Expired(1)])
  {
    var now := STALE_AFTER + 1;
    s4 := s3.(rows := s3.rows[0 := Written(c, MarkDropping(Some(1)), now)], calls := s3.calls[2 := ExpireRest([], 1)]);
    assert CallStep(s3, s4, 2, Tick(now, None, []));
    s5 := s4.(calls := s4.calls[2 := Expired(1)]);
    assert CallStep(s4, s5, 2, Tick(now, None, []));
  }

  /** ... and drops it while job 0 still runs. */
  lemma DropEnded(s5: System) returns (s6: System, last: System)
    requires s5.jobs == map[0 := RestoreTask(0), 1 := DropTask(0)] && 0 in s5.rows
    requires s5.calls.Keys == {0, 1, 2} && forall q :: q in s5.calls ==> Over(s5.calls[q])
    ensures Next(s5, s6) && Next(s6, last)
    ensures last.jobs == map[0 := RestoreTask(0)] && 0 in last.rows && last.rows[0].status.Dropped?
    ensures 9 !in last.calls && forall q :: q in last.calls ==> Over(last.calls[q])
  {
    s6 := s5.(calls := s5.calls[3 := DropFinished(0, true)], jobs := s5.jobs - {1}, scratch := s5.scratch - {0});
    assert JobStep(s5, s6, 3, 1, true, false);
    last := s6.(rows := s6.rows[0 := Written(s6.rows[0], MarkDropped, STALE_AFTER)], calls := s6.calls[3 := Finished(true)]);
    assert CallStep(s6, last, 3, Tick(STALE_AFTER, None, []));
  }

  lemma FirstHalf() returns (trace: seq<System>, s3: System, c: Copy)
    ensures Run(trace) && trace[|trace| - 1] == s3 && c.status.Dropping?
    ensures s3 == System(map[0 := c], map[0 := Finished(true), 1 := Finished(true), 2 := ExpireLink(0, 1, [], 0)],
                         map[0 := RestoreTask(0), 1 := DropTask(0)], {}, {}, {0}, {})
  {
    var begun;
    begun, c := DiscardedEarly();
    var s1, s2 := Listed(begun[|begun| - 1], c);
    s3 := DropRequested(s2, c);
    trace := RunThree(begun, s1, s2, s3);
  }

  /** So a copy can be dropped, with nothing more under way but its restore. */
  lemma DropOvertakesRestore() returns (trace: seq<System>, last: System)
    ensures Run(trace) && trace[|trace| - 1] == last && LeftBehind(last, 0)
    ensures last.jobs == map[0 := RestoreTask(0)] && 9 !in last.calls && forall q :: q in last.calls ==> Over(last.calls[q])
  {
    var first, s3, c := FirstHalf();
    var s4, s5 := DropLinked(s3, c);
    var s6;
    s6, last := DropEnded(s5);
    NothingUnderWay(last);
    var most := RunThree(first, s4, s5, s6);
    RunMore(most, last);
    trace := most + [last];
  }

  lemma NothingUnderWay(s: System)
    requires IsDropped(s, 0) && s.jobs == map[0 := RestoreTask(0)] && forall q :: q in s.calls ==> Over(s.calls[q])
    ensures LeftBehind(s, 0)
  {
  }

  /** ... and that restore then succeeds, and leaves its temporary database for good. */
  lemma LeakedForGood() returns (trace: seq<System>, last: System)
    ensures Run(trace) && trace[|trace| - 1] == last
    ensures AtRest(last) && 0 in last.scratch && IsDropped(last, 0) && !ComesDue(last.rows[0])
  {
    var s;
    trace, s := DropOvertakesRestore();
    var inp := Tick(0, None, []);
    var s1 := s.(jobs := s.jobs - {0}, calls := s.calls[9 := Restored(0, true)], scratch := s.scratch + {0},
                 restored := s.restored + {0}, made := s.made + {0});
    assert JobStep(s, s1, 9, 0, true, false);
    var s2 := s1.(calls := s1.calls[9 := Readying(0, s.rows[0].ttl)]);
    assert CallStep(s1, s2, 9, inp);
    last := s2.(calls := s2.calls[9 := Finished(false)]);
    assert CallStep(s2, last, 9, inp);
    trace := RunThree(trace, s1, s2, last);
    forall from ensures !DueSince(last.rows[0], from) {
      assert !Due(last.rows[0], from);
    }
  }
}
