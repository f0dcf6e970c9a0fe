/** What holds of moves, verifications and backup copies over every run of calls, in any order. */
module MoveSafety {
  import opened Wrappers
  import opened Operations

  // ---- What every job keeps to -----------------------------------------------------------------------

  /** A finished job says when; an open one does not. */
  predicate Timed(s: System, j: Job) {
    && j.createdAt <= s.clock
    && (j.status.Open? <==> j.completedAt.None?)
    && (j.completedAt.Some? ==> j.createdAt <= j.completedAt.value <= s.clock)
  }

  /** k is the succeeded backup leg of the move whose restore leg has the params p and began at t. */
  predicate BackupLeg(s: System, k: Id, p: Params, t: nat) {
    && k in s.jobs && s.jobs[k].kind.BackupJob? && s.jobs[k].origin.MoveBackup? && s.jobs[k].status.Succeeded?
    && s.jobs[k].completedAt.Some? && s.jobs[k].completedAt.value <= t
    && s.jobs[k].params.backup == p.backup && p.backup.Some?
    && s.jobs[k].params.databaseId == p.moveSource && p.moveSource.Some?
    && s.jobs[k].params.moveDrop == p.moveDrop && s.jobs[k].params.moveTargetInstance == p.instance
    && s.jobs[k].params.moveTarget == p.database
  }

  /** r is the succeeded restore leg of a move that drops its source, the database d, at t. */
  predicate RestoreLeg(s: System, r: Id, d: Id, t: nat) {
    && r in s.jobs && s.jobs[r].kind.RestoreJob? && s.jobs[r].origin.MoveRestore? && s.jobs[r].status.Succeeded?
    && s.jobs[r].completedAt.Some? && s.jobs[r].completedAt.value <= t
    && s.jobs[r].params.moveSource == Some(d) && s.jobs[r].params.moveDrop
  }

  /** What a job's origin says about its kind and params, and about the jobs before it. */
  predicate JobOk(s: System, j: Job) {
    var p := j.params;
    && Timed(s, j)
    && match j.origin
       case PlainBackup => j.kind.BackupJob? && p.moveTargetInstance.None?
       case MoveBackup => j.kind.BackupJob? && p.databaseId.Some? && p.moveSource == p.databaseId && p.backup.Some?
       case UserRestore => j.kind.RestoreJob? && p.moveSource.None? && p.verify.None? && p.copy.None?
       case ImportedSql => j.kind.RestoreJob? && p.moveSource.None? && p.verify.None? && p.copy.None?
       case MoveRestore(k) => j.kind.RestoreJob? && p.verify.None? && p.copy.None? && BackupLeg(s, k, p, j.createdAt)
       case VerifyRestore => j.kind.RestoreJob? && p.verify.Some? && p.moveSource.None?
       case CopyRestore => j.kind.RestoreJob? && p.copy.Some? && p.verify.None? && p.moveSource.None?
       case UserDrop => j.kind.DeleteJob? && p.databaseId.Some? && p.copy.None?
       case MoveDrop(r) => j.kind.DeleteJob? && p.databaseId.Some? && p.copy.None? && RestoreLeg(s, r, p.databaseId.value, j.createdAt)
       case VerifyDrop => j.kind.DeleteJob? && p.databaseId.None? && p.copy.None?
       case CopyDrop => j.kind.DeleteJob? && p.databaseId.None? && p.copy.Some?
  }

  predicate ScratchDrop(j: Job) {
    j.origin.VerifyDrop? || j.origin.CopyDrop?
  }

  /** The access role hook ran only for finished drops of registered databases. */
  predicate DroppedOk(s: System, e: (Id, Id)) {
    && e.0 in s.jobs && s.jobs[e.0].kind.DeleteJob? && s.jobs[e.0].status.Succeeded?
    && s.jobs[e.0].params.databaseId == Some(e.1) && !ScratchDrop(s.jobs[e.0])
  }

  predicate Inv(s: System) {
    && (forall id :: id in s.jobs ==> id < s.next && JobOk(s, s.jobs[id]))
    && (forall i :: 0 <= i < |s.dropped| ==> DroppedOk(s, s.dropped[i]))
  }

  /** The same job, unless it was open, when it may have finished. */
  predicate Later(j: Job, j': Job) {
    && j'.kind == j.kind && j'.origin == j.origin && j'.params == j.params && j'.createdAt == j.createdAt
    && (!j.status.Open? ==> j' == j)
  }

  /** Jobs stay as they are, except that open ones finish. */
  predicate Onward(s: System, s': System) {
    && s.next <= s'.next && s.clock <= s'.clock
    && (forall id :: id in s.jobs ==> id in s'.jobs && Later(s.jobs[id], s'.jobs[id]))
  }

  lemma OnwardTransitive(a: System, b: System, c: System)
    requires Onward(a, b) && Onward(b, c)
    ensures Onward(a, c)
  {
    forall id | id in a.jobs ensures id in c.jobs && Later(a.jobs[id], c.jobs[id]) {
      assert Later(a.jobs[id], b.jobs[id]) && Later(b.jobs[id], c.jobs[id]);
    }
  }

  lemma JobOkOnward(s: System, s': System, j: Job)
    requires JobOk(s, j) && Onward(s, s')
    ensures JobOk(s', j)
  {
  }

  /** Same jobs and log, whatever else changed: nothing said here depends on the rest. */
  lemma InvElsewhere(s: System, s': System)
    requires Inv(s) && s'.jobs == s.jobs && s'.dropped == s.dropped && s.next <= s'.next && s.clock <= s'.clock
    ensures Inv(s') && Onward(s, s')
  {
    forall id | id in s'.jobs ensures JobOk(s', s'.jobs[id]) {
      JobOkOnward(s, s', s.jobs[id]);
    }
  }

  lemma InvNewJob(s: System, kind: JobType, origin: Origin, params: Params)
    requires Inv(s) && JobOk(s, Job(kind, origin, params, Open, s.clock, None))
    ensures var s' := NewJob(s, kind, origin, params);
            Inv(s') && Onward(s, s')
  {
    var s' := NewJob(s, kind, origin, params);
    assert s.next !in s.jobs;
    forall id | id in s'.jobs ensures JobOk(s', s'.jobs[id]) {
      JobOkOnward(s, s', s'.jobs[id]);
    }
    forall i | 0 <= i < |s'.dropped| ensures DroppedOk(s', s'.dropped[i]) {
      assert DroppedOk(s, s.dropped[i]);
    }
  }

  lemma InvTriggered(s: System, database: Id, move: Option<MoveSpec>)
    requires Inv(s) && LiveDatabase(s, database)
    ensures Inv(Triggered(s, database, move)) && Onward(s, Triggered(s, database, move))
  {
    var s0 := s.(next := s.next + 1);
    InvElsewhere(s, s0);
    var db := s.databases[database];
    var plain := NO_PARAMS.(instance := Some(db.instance), databaseId := Some(database), database := db.name, backup := Some(s.next));
    var params := if move.None? then plain
                  else plain.(moveSource := Some(database), moveTargetInstance := Some(move.value.targetInstance),
                              moveTarget := move.value.target, moveDrop := move.value.dropSource);
    var origin := if move.None? then PlainBackup else MoveBackup;
    InvNewJob(s0, BackupJob, origin, params);
    InvElsewhere(NewJob(s0, BackupJob, origin, params), Triggered(s, database, move));
  }

  lemma InvRestored(s: System, backup: Id, instance: Id, name: Name, moveSource: Option<Id>, moveDrop: bool, origin: Origin)
    requires Inv(s)
    requires var p := NO_PARAMS.(instance := Some(instance), database := name, backup := Some(backup),
                                 moveSource := moveSource, moveDrop := moveDrop);
             Restorable(s, backup) ==> JobOk(s, Job(RestoreJob, origin, p, Open, s.clock, None))
    ensures var s' := Restored(s, backup, instance, name, moveSource, moveDrop, origin);
            Inv(s') && Onward(s, s')
  {
    if Restorable(s, backup) {
      InvNewJob(s, RestoreJob, origin, NO_PARAMS.(instance := Some(instance), database := name, backup := Some(backup),
                                                  moveSource := moveSource, moveDrop := moveDrop));
    }
  }

  lemma InvDeleted(s: System, database: Id, physical: bool, origin: Origin)
    requires Inv(s) && (origin.UserDrop? || (origin.MoveDrop? && RestoreLeg(s, origin.restoreJob, database, s.clock)))
    ensures var s' := Deleted(s, database, physical, origin);
            Inv(s') && Onward(s, s')
  {
    if LiveDatabase(s, database) && !s.databases[database].system {
      var db := s.databases[database];
      var p := NO_PARAMS.(instance := Some(db.instance), databaseId := Some(database), database := db.name);
      var s1 := if physical then NewJob(s, DeleteJob, origin, p) else s;
      if physical {
        InvNewJob(s, DeleteJob, origin, p);
      }
      InvElsewhere(s1, Deleted(s, database, physical, origin));
    }
  }

  // ---- Completions -----------------------------------------------------------------------------------

  function Finished(s: System, job: Id, ok: bool): System
    requires job in s.jobs
  {
    s.(jobs := s.jobs[job := s.jobs[job].(status := if ok then Succeeded else Failed, completedAt := Some(s.clock))])
  }

  lemma InvFinished(s: System, job: Id, ok: bool)
    requires Inv(s) && job in s.jobs && s.jobs[job].status.Open?
    ensures Inv(Finished(s, job, ok)) && Onward(s, Finished(s, job, ok))
  {
    var s' := Finished(s, job, ok);
    forall id | id in s'.jobs ensures JobOk(s', s'.jobs[id]) {
      JobOkOnward(s, s', s.jobs[id]);
    }
    forall i | 0 <= i < |s'.dropped| ensures DroppedOk(s', s'.dropped[i]) {
      assert DroppedOk(s, s.dropped[i]);
    }
  }

  /** A job that has just finished, as the completion hooks find it. */
  predicate JustFinished(s: System, job: Id, ok: bool) {
    job in s.jobs && (s.jobs[job].status == if ok then Succeeded else Failed) && s.jobs[job].completedAt == Some(s.clock)
  }

  lemma InvCompletedBackup(s: System, job: Id, ok: bool, luck: Luck)
    requires Inv(s) && JustFinished(s, job, ok) && s.jobs[job].kind.BackupJob?
    ensures var s' := CompletedBackup(s, job, ok, luck);
            Inv(s') && Onward(s, s')
  {
    var p := s.jobs[job].params;
    assert JobOk(s, s.jobs[job]);
    var s1 := if p.backup.Some? && p.backup.value in s.backups
              then s.(backups := s.backups[p.backup.value := s.backups[p.backup.value].(
                     status := if ok then Succeeded else Failed, stored := ok && luck.stored)])
              else s;
    InvElsewhere(s, s1);
    if !(p.moveTargetInstance.None? || !ok || luck.restoreFails || p.backup.None?) {
      InvRestored(s1, p.backup.value, p.moveTargetInstance.value, p.moveTarget, p.moveSource, p.moveDrop, MoveRestore(job));
    }
  }

  lemma InvCompletedRestore(s: System, job: Id, ok: bool, luck: Luck)
    requires Inv(s) && JustFinished(s, job, ok) && s.jobs[job].kind.RestoreJob?
    ensures var s' := CompletedRestore(s, job, ok, luck);
            Inv(s') && Onward(s, s')
  {
    var p := s.jobs[job].params;
    assert JobOk(s, s.jobs[job]);
    if p.verify.Some? {
      if !luck.scratchFails {
        InvNewJob(s, DeleteJob, VerifyDrop, NO_PARAMS.(instance := p.instance, database := p.database));
      }
    } else if p.copy.Some? {
      InvElsewhere(s, CompletedRestore(s, job, ok, luck));
    } else if !(p.moveSource.None? || !ok || p.instance.None?) {
      InvCutover(s, job, luck);
    }
  }

  lemma CutoverIs(s: System, job: Id, luck: Luck, s1: System)
    requires job in s.jobs
    requires var p := s.jobs[job].params;
             && p.verify.None? && p.copy.None? && p.moveSource.Some? && p.instance.Some?
             && s1 == if luck.registerFails then s else Registered(s, p.instance.value, p.database, false)
    ensures var p := s.jobs[job].params;
            CompletedRestore(s, job, true, luck)
            == if p.moveDrop && !luck.dropFails then Deleted(s1, p.moveSource.value, true, MoveDrop(job)) else s1
  {
  }

  /** Only the restore leg of a move carries the move's source. */
  lemma MoveLegFinished(s: System, job: Id, t: nat)
    requires Inv(s) && JustFinished(s, job, true) && s.jobs[job].kind.RestoreJob? && t == s.clock
    requires s.jobs[job].params.moveSource.Some? && s.jobs[job].params.moveDrop
    ensures RestoreLeg(s, job, s.jobs[job].params.moveSource.value, t)
  {
    assert JobOk(s, s.jobs[job]);
  }

  /** The restore leg of a move succeeded. */
  lemma InvCutover(s: System, job: Id, luck: Luck)
    requires Inv(s) && JustFinished(s, job, true) && s.jobs[job].kind.RestoreJob?
    requires var p := s.jobs[job].params;
             p.verify.None? && p.copy.None? && p.moveSource.Some? && p.instance.Some?
    ensures var s' := CompletedRestore(s, job, true, luck);
            Inv(s') && Onward(s, s')
  {
    var p := s.jobs[job].params;
    var s1 := if luck.registerFails then s else Registered(s, p.instance.value, p.database, false);
    CutoverIs(s, job, luck, s1);
    InvElsewhere(s, s1);
    if p.moveDrop && !luck.dropFails {
      MoveLegFinished(s, job, s.clock);
      InvDropped(s, s1, job, p.moveSource.value);
    }
  }

  lemma InvDropped(s: System, s1: System, job: Id, source: Id)
    requires Inv(s1) && Onward(s, s1) && RestoreLeg(s, job, source, s1.clock) && s1.jobs == s.jobs
    ensures var s' := Deleted(s1, source, true, MoveDrop(job));
            Inv(s') && Onward(s, s')
  {
    InvDeleted(s1, source, true, MoveDrop(job));
    OnwardTransitive(s, s1, Deleted(s1, source, true, MoveDrop(job)));
  }

  lemma InvCompletedDelete(s: System, job: Id, ok: bool)
    requires Inv(s) && JustFinished(s, job, ok) && s.jobs[job].kind.DeleteJob?
    ensures var s' := CompletedDelete(s, job, ok);
            Inv(s') && Onward(s, s')
  {
    var s' := CompletedDelete(s, job, ok);
    assert JobOk(s, s.jobs[job]);
    forall id | id in s'.jobs ensures JobOk(s', s'.jobs[id]) {
      JobOkOnward(s, s', s.jobs[id]);
    }
    forall i | 0 <= i < |s'.dropped| ensures DroppedOk(s', s'.dropped[i]) {
      if i < |s.dropped| {
        assert DroppedOk(s, s.dropped[i]) && s'.dropped[i] == s.dropped[i];
      }
    }
  }

  /** What follows from a finished job, by its kind. */
  function FollowUp(s: System, job: Id, ok: bool, luck: Luck): System
    requires job in s.jobs
  {
    match s.jobs[job].kind
    case BackupJob => CompletedBackup(s, job, ok, luck)
    case RestoreJob => CompletedRestore(s, job, ok, luck)
    case DeleteJob => CompletedDelete(s, job, ok)
  }

  lemma CompletedIs(s: System, job: Id, ok: bool, luck: Luck)
    ensures Completed(s, job, ok, luck)
         == if job in s.jobs && s.jobs[job].status.Open? then FollowUp(Finished(s, job, ok), job, ok, luck) else s
  {
  }

  lemma InvFollowUp(s: System, job: Id, ok: bool, luck: Luck)
    requires Inv(s) && JustFinished(s, job, ok)
    ensures Inv(FollowUp(s, job, ok, luck)) && Onward(s, FollowUp(s, job, ok, luck))
  {
    match s.jobs[job].kind
    case BackupJob => InvCompletedBackup(s, job, ok, luck);
    case RestoreJob => InvCompletedRestore(s, job, ok, luck);
    case DeleteJob => InvCompletedDelete(s, job, ok);
  }

  lemma InvCompleted(s: System, job: Id, ok: bool, luck: Luck)
    requires Inv(s)
    ensures Inv(Completed(s, job, ok, luck)) && Onward(s, Completed(s, job, ok, luck))
  {
    CompletedIs(s, job, ok, luck);
    if job in s.jobs && s.jobs[job].status.Open? {
      var s1 := Finished(s, job, ok);
      InvFinished(s, job, ok);
      InvFollowUp(s1, job, ok, luck);
      OnwardTransitive(s, s1, FollowUp(s1, job, ok, luck));
    }
  }

  lemma InvDo(s: System, call: Call)
    requires Inv(s)
    ensures Inv(Do(s, call)) && Onward(s, Do(s, call))
  {
    match call
    case AddDatabase(_, _, _) => InvElsewhere(s, Do(s, call));
    case TriggerBackup(database) => if LiveDatabase(s, database) { InvTriggered(s, database, None); }
    case StartMove(database, spec) =>
      if LiveDatabase(s, database) {
        InvTriggered(s, database, Some(spec.(target := if spec.target == "" then s.databases[database].name else spec.target)));
      }
    case RestoreBackup(backup, instance, name) => InvRestored(s, backup, instance, name, None, false, UserRestore);
    case ImportSql(database) =>
      if LiveDatabase(s, database) {
        var db := s.databases[database];
        InvNewJob(s, RestoreJob, ImportedSql, NO_PARAMS.(instance := Some(db.instance), databaseId := Some(database), database := db.name));
      }
    case VerifyBackup(backup, scratch) => InvScratch(s, backup, scratch, Some(backup), None, VerifyRestore);
    case OpenCopy(backup, copy, scratch) => InvScratch(s, backup, scratch, None, Some(copy), CopyRestore);
    case DiscardCopy(instance, copy, scratch) =>
      InvNewJob(s, DeleteJob, CopyDrop, NO_PARAMS.(instance := Some(instance), database := scratch, copy := Some(copy)));
    case DeleteDatabase(database, physical) => InvDeleted(s, database, physical, UserDrop);
    case CompleteJob(job, ok, luck) => InvCompleted(s, job, ok, luck);
  }

  lemma InvScratch(s: System, backup: Id, scratch: Name, verify: Option<Id>, copy: Option<Id>, origin: Origin)
    requires Inv(s)
    requires (origin.VerifyRestore? && verify.Some? && copy.None?) || (origin.CopyRestore? && copy.Some? && verify.None?)
    ensures var s' := Scratch(s, backup, scratch, verify, copy, origin);
            Inv(s') && Onward(s, s')
  {
    if Restorable(s, backup) && LiveDatabase(s, s.backups[backup].database) {
      InvNewJob(s, RestoreJob, origin, NO_PARAMS.(instance := Some(s.databases[s.backups[backup].database].instance),
                                                  database := scratch, backup := Some(backup), verify := verify, copy := copy));
    }
  }

  lemma {:induction false} InvAlways(calls: seq<Call>)
    ensures Inv(After(calls))
    decreases |calls|
  {
    if calls != [] {
      var n := |calls| - 1;
      InvAlways(calls[..n]);
      InvDo(After(calls[..n]), calls[n]);
      InvElsewhere(Do(After(calls[..n]), calls[n]), After(calls));
    }
  }

  // ---- Which call made what ----------------------------------------------------------------------------

  /** What a job's origin says about the call that created it. */
  predicate Caused(call: Call, j: Job) {
    var p := j.params;
    match j.origin
    case UserDrop => p.databaseId.Some? && call == DeleteDatabase(p.databaseId.value, true)
    case MoveBackup => && call.StartMove? && p.databaseId == Some(call.database) && p.moveDrop == call.spec.dropSource
                       && p.moveTargetInstance == Some(call.spec.targetInstance)
                       && p.moveTarget == if call.spec.target == "" then p.database else call.spec.target
    case MoveRestore(k) => call.CompleteJob? && call.job == k && call.ok
    case MoveDrop(r) => call.CompleteJob? && call.job == r && call.ok
    case VerifyDrop => call.CompleteJob?
    case CopyDrop => call.DiscardCopy?
    case _ => true
  }

  /** A job of s', created or finished by the call, or as it was. */
  predicate MadeBy(s: System, s': System, call: Call, id: Id)
    requires id in s'.jobs
  {
    var j := s'.jobs[id];
    if id !in s.jobs then j.createdAt == s.clock && j.completedAt.None? && Caused(call, j)
    else
      || j == s.jobs[id]
      || (&& Later(s.jobs[id], j) && call.CompleteJob? && call.job == id && j.completedAt == Some(s.clock)
          && (j.status.Succeeded? <==> call.ok))
  }

  /** Nothing but new jobs, which the call caused. */
  ghost predicate Adds(s: System, s': System, call: Call) {
    && (forall id :: id in s.jobs ==> id in s'.jobs && s'.jobs[id] == s.jobs[id])
    && (forall id :: id in s'.jobs && id !in s.jobs ==>
          s'.jobs[id].createdAt == s.clock && s'.jobs[id].completedAt.None? && Caused(call, s'.jobs[id]))
  }

  lemma BackupAdds(s: System, job: Id, ok: bool, luck: Luck)
    requires Inv(s) && job in s.jobs
    ensures Adds(s, CompletedBackup(s, job, ok, luck), CompleteJob(job, ok, luck))
  {
  }

  lemma NewJobAdds(s: System, kind: JobType, origin: Origin, params: Params, call: Call)
    requires Inv(s) && Caused(call, Job(kind, origin, params, Open, s.clock, None))
    ensures Adds(s, NewJob(s, kind, origin, params), call)
  {
    assert s.next !in s.jobs;
  }

  lemma DeletedAdds(s: System, s1: System, d: Id, job: Id, call: Call)
    requires Inv(s) && s1.jobs == s.jobs && s1.next >= s.next && s1.clock == s.clock
    requires call.CompleteJob? && call.job == job && call.ok
    ensures Adds(s, Deleted(s1, d, true, MoveDrop(job)), call)
  {
    assert s1.next !in s.jobs;
  }

  lemma CutoverAdds(s: System, job: Id, luck: Luck)
    requires Inv(s) && job in s.jobs
    requires var p := s.jobs[job].params;
             p.verify.None? && p.copy.None? && p.moveSource.Some? && p.instance.Some?
    ensures Adds(s, CompletedRestore(s, job, true, luck), CompleteJob(job, true, luck))
  {
    var p := s.jobs[job].params;
    var s1 := if luck.registerFails then s else Registered(s, p.instance.value, p.database, false);
    CutoverIs(s, job, luck, s1);
    DeletedAdds(s, s1, p.moveSource.value, job, CompleteJob(job, true, luck));
  }

  lemma RestoreAdds(s: System, job: Id, ok: bool, luck: Luck)
    requires Inv(s) && job in s.jobs
    ensures Adds(s, CompletedRestore(s, job, ok, luck), CompleteJob(job, ok, luck))
  {
    var p := s.jobs[job].params;
    if p.verify.Some? {
      NewJobAdds(s, DeleteJob, VerifyDrop, NO_PARAMS.(instance := p.instance, database := p.database), CompleteJob(job, ok, luck));
    } else if p.copy.None? && p.moveSource.Some? && ok && p.instance.Some? {
      CutoverAdds(s, job, luck);
    }
  }

  lemma DeleteAdds(s: System, job: Id, ok: bool)
    requires job in s.jobs
    ensures CompletedDelete(s, job, ok).jobs == s.jobs
  {
  }

  lemma CompletionMakes(s: System, job: Id, ok: bool, luck: Luck, id: Id)
    requires Inv(s) && id in Completed(s, job, ok, luck).jobs
    ensures MadeBy(s, Completed(s, job, ok, luck), CompleteJob(job, ok, luck), id)
  {
    if job in s.jobs && s.jobs[job].status.Open? {
      var s1 := Finished(s, job, ok);
      InvFinished(s, job, ok);
      match s.jobs[job].kind
      case BackupJob => BackupAdds(s1, job, ok, luck);
      case RestoreJob => RestoreAdds(s1, job, ok, luck);
      case DeleteJob => DeleteAdds(s1, job, ok);
    }
  }

  lemma CallMakes(s: System, call: Call, id: Id)
    requires Inv(s) && id in Do(s, call).jobs
    ensures MadeBy(s, Do(s, call), call, id)
  {
    if call.CompleteJob? {
      CompletionMakes(s, call.job, call.ok, call.luck, id);
    } else {
      assert s.next !in s.jobs;
    }
  }

  /** The i-th call created the job, or finished it, according to the times the job bears. */
  predicate Traced(calls: seq<Call>, id: Id, j: Job) {
    && j.createdAt < |calls| && Caused(calls[j.createdAt], j)
    && (j.completedAt.Some? ==>
          && j.completedAt.value < |calls| && calls[j.completedAt.value].CompleteJob? && calls[j.completedAt.value].job == id
          && (j.status.Succeeded? <==> calls[j.completedAt.value].ok))
  }

  lemma LastCall(calls: seq<Call>, n: nat) returns (s: System, s': System)
    requires n + 1 == |calls|
    ensures s == After(calls[..n]) && s.clock == n && After(calls) == Tick(s')
    ensures forall id :: id in s'.jobs ==> MadeBy(s, s', calls[n], id)
  {
    s := After(calls[..n]);
    s' := Do(s, calls[n]);
    InvAlways(calls[..n]);
    ClockCounts(calls[..n]);
    forall id | id in s'.jobs ensures MadeBy(s, s', calls[n], id) {
      CallMakes(s, calls[n], id);
    }
  }

  lemma {:induction false} AllTraced(calls: seq<Call>, id: Id)
    requires id in After(calls).jobs
    ensures Traced(calls, id, After(calls).jobs[id])
    decreases |calls|
  {
    var n := |calls| - 1;
    var s, s' := LastCall(calls, n);
    if id in s.jobs {
      AllTraced(calls[..n], id);
    }
    TracedMore(calls, n, s, s', id);
  }

  lemma TracedMore(calls: seq<Call>, n: nat, s: System, s': System, id: Id)
    requires n + 1 == |calls| && s.clock == n && id in s'.jobs && MadeBy(s, s', calls[n], id)
    requires id in s.jobs ==> Traced(calls[..n], id, s.jobs[id])
    ensures Traced(calls, id, s'.jobs[id])
  {
  }

  lemma {:induction false} ClockCounts(calls: seq<Call>)
    ensures After(calls).clock == |calls|
    decreases |calls|
  {
    if calls != [] {
      ClockCounts(calls[..|calls| - 1]);
      SameClock(After(calls[..|calls| - 1]), calls[|calls| - 1]);
    }
  }

  lemma SameClock(s: System, call: Call)
    ensures Do(s, call).clock == s.clock
  {
  }

  // ---- Main results ------------------------------------------------------------------------------------

  /** b is the backup and r the restore of one move of the database d that was to drop it, both completed
      as succeeded, one after the other, before time t: as told by the calls. */
  predicate MovedBy(calls: seq<Call>, s: System, b: Id, r: Id, d: Id, t: nat) {
    && b in s.jobs && s.jobs[b].kind.BackupJob? && s.jobs[b].completedAt.Some?
    && r in s.jobs && s.jobs[r].kind.RestoreJob? && s.jobs[r].completedAt.Some?
    && s.jobs[b].params.databaseId == Some(d) && s.jobs[b].params.backup.Some? && s.jobs[r].params.backup == s.jobs[b].params.backup
    && s.jobs[b].createdAt <= s.jobs[b].completedAt.value <= s.jobs[r].createdAt <= s.jobs[r].completedAt.value <= t < |calls|
    && (var begun := calls[s.jobs[b].createdAt];
        && begun.StartMove? && begun.database == d && begun.spec.dropSource
        && s.jobs[r].params.instance == Some(begun.spec.targetInstance)
        && s.jobs[r].params.database == if begun.spec.target == "" then s.jobs[b].params.database else begun.spec.target)
    && (var saved := calls[s.jobs[b].completedAt.value]; saved.CompleteJob? && saved.job == b && saved.ok)
    && (var restored := calls[s.jobs[r].completedAt.value]; restored.CompleteJob? && restored.job == r && restored.ok)
  }

  /** Whenever a drop of a registered database is enqueued, either that very call asked for it, or it is
      the end of a move of that database that was to drop its source: the move's backup of it succeeded,
      and after that the restore of that same backup on the move's target, both before the drop. */
  lemma DropsAreAskedForOrMoved(calls: seq<Call>, drop: Id)
    requires var s := After(calls);
             drop in s.jobs && s.jobs[drop].kind.DeleteJob? && s.jobs[drop].params.databaseId.Some?
    ensures var s := After(calls);
            var j := s.jobs[drop];
            var d := j.params.databaseId.value;
            && j.createdAt < |calls|
            && (calls[j.createdAt] == DeleteDatabase(d, true) || exists b, r :: MovedBy(calls, s, b, r, d, j.createdAt))
  {
    InvAlways(calls);
    AllTraced(calls, drop);
    var s := After(calls);
    var j := s.jobs[drop];
    assert JobOk(s, j);
    if j.origin.MoveDrop? {
      MoveTraced(calls, s, j.origin.restoreJob, j.params.databaseId.value, j.createdAt);
    }
  }

  lemma MoveTraced(calls: seq<Call>, s: System, r: Id, d: Id, t: nat)
    requires s == After(calls) && Inv(s) && RestoreLeg(s, r, d, t) && t < |calls|
    ensures exists b :: MovedBy(calls, s, b, r, d, t)
  {
    assert JobOk(s, s.jobs[r]);
    var b := s.jobs[r].origin.backupJob;
    assert JobOk(s, s.jobs[b]);
    AllTraced(calls, r);
    AllTraced(calls, b);
    assert MovedBy(calls, s, b, r, d, t);
  }

  /** Completing a verification or copy restore registers and drops no database, touches no backup, and
      enqueues nothing but, for a verification, the drop at the place that it restored to. */
  lemma ScratchRestoresMoveNothing(calls: seq<Call>, job: Id, ok: bool, luck: Luck)
    requires var s := After(calls);
             job in s.jobs && (s.jobs[job].origin.VerifyRestore? || s.jobs[job].origin.CopyRestore?)
    ensures var s := After(calls);
            var s' := Completed(s, job, ok, luck);
            && s'.databases == s.databases && s'.backups == s.backups && s'.dropped == s.dropped
            && (forall id :: id in s'.jobs && id !in s.jobs ==>
                  && s.jobs[job].origin.VerifyRestore? && s'.jobs[id].origin.VerifyDrop? && s'.jobs[id].params.databaseId.None?
                  && s'.jobs[id].params.instance == s.jobs[job].params.instance
                  && s'.jobs[id].params.database == s.jobs[job].params.database)
  {
    InvAlways(calls);
    assert JobOk(After(calls), After(calls).jobs[job]);
  }

  /** The hook that removes a dropped database's access roles runs only for drops of registered
      databases that succeeded, never for the drop of a scratch database. */
  lemma RolesOutliveScratch(calls: seq<Call>, i: nat)
    requires i < |After(calls).dropped|
    ensures var s := After(calls);
            var (job, database) := s.dropped[i];
            && job in s.jobs && s.jobs[job].status.Succeeded? && s.jobs[job].params.databaseId == Some(database)
            && (s.jobs[job].origin.UserDrop? || s.jobs[job].origin.MoveDrop?)
  {
    InvAlways(calls);
    var s := After(calls);
    assert DroppedOk(s, s.dropped[i]);
    assert JobOk(s, s.jobs[s.dropped[i].0]);
  }

  /** Failing a job moves no database and enqueues nothing but the drop of a scratch database. */
  predicate NothingMoved(s: System, s': System) {
    && s'.databases == s.databases && s'.dropped == s.dropped
    && (forall id :: id in s'.jobs && id !in s.jobs ==> s'.jobs[id].origin.VerifyDrop?)
    && (forall id :: id in s.jobs ==> id in s'.jobs)
  }

  lemma FailedMovesNothing(s: System, job: Id, luck: Luck)
    requires Inv(s)
    ensures NothingMoved(s, Completed(s, job, false, luck))
    ensures job in s.jobs ==> !Completed(s, job, false, luck).jobs[job].status.Open?
  {
    if job in s.jobs {
      assert JobOk(s, s.jobs[job]);
    }
  }

  /** The jobs of s that are finished in s'. */
  function Closed(s: System, s': System): set<Id> {
    set id | id in s.jobs && id in s'.jobs && !s'.jobs[id].status.Open?
  }

  /** Failing the jobs an interrupted process left behind keeps all that holds of every run, leaves none of
      them open, and advances no move: no database is registered or dropped by it. */
  lemma {:induction false} FailStuckAdvancesNoMove(s: System, stuck: seq<(Id, Luck)>)
    requires Inv(s)
    ensures var s' := FailedAll(s, stuck);
            && Inv(s') && Onward(s, s') && NothingMoved(s, s')
            && (forall i :: 0 <= i < |stuck| && stuck[i].0 in s.jobs ==> stuck[i].0 in Closed(s, s'))
    decreases |stuck|
  {
    if stuck != [] {
      var n := |stuck| - 1;
      var s1 := FailedAll(s, stuck[..n]);
      FailStuckAdvancesNoMove(s, stuck[..n]);
      FailStuckStep(s, s1, stuck[n].0, stuck[n].1);
      LastToo(stuck, n, s.jobs.Keys, Closed(s, s1), Closed(s, FailedAll(s, stuck)));
    }
  }

  lemma LastToo(stuck: seq<(Id, Luck)>, n: nat, ids: set<Id>, before: set<Id>, after: set<Id>)
    requires |stuck| == n + 1 && after == before + (if stuck[n].0 in ids then {stuck[n].0} else {})
    requires forall i :: 0 <= i < n && stuck[..n][i].0 in ids ==> stuck[..n][i].0 in before
    ensures forall i :: 0 <= i < |stuck| && stuck[i].0 in ids ==> stuck[i].0 in after
  {
    forall i | 0 <= i < |stuck| && stuck[i].0 in ids ensures stuck[i].0 in after {
      assert i < n ==> stuck[..n][i] == stuck[i];
    }
  }

  lemma OthersStay(s: System, job: Id, luck: Luck)
    requires Inv(s)
    ensures forall id :: id in s.jobs && id != job ==> Completed(s, job, false, luck).jobs[id] == s.jobs[id]
  {
    InvCompleted(s, job, false, luck);
    forall id | id in s.jobs && id != job ensures Completed(s, job, false, luck).jobs[id] == s.jobs[id] {
      CompletionMakes(s, job, false, luck, id);
    }
  }

  lemma FailStuckStep(s: System, s1: System, job: Id, luck: Luck)
    requires Inv(s1) && Onward(s, s1) && NothingMoved(s, s1)
    ensures var s' := Completed(s1, job, false, luck);
            && Inv(s') && Onward(s, s') && NothingMoved(s, s')
            && Closed(s, s') == Closed(s, s1) + (if job in s.jobs then {job} else {})
  {
    var s' := Completed(s1, job, false, luck);
    InvCompleted(s1, job, false, luck);
    OnwardTransitive(s, s1, s');
    FailedMovesNothing(s1, job, luck);
    OthersStay(s1, job, luck);
  }

  lemma OneMore(from: set<Id>, before: set<Id>, id: Id)
    requires id in from ==> id in before
    ensures |(before + {id}) - from| == |before - from| + if id in before then 0 else 1
  {
    if id in before {
      assert before + {id} == before;
    } else {
      assert (before + {id}) - from == (before - from) + {id};
    }
  }

  lemma OneMoreClosed(s: System, s1: System, job: Id, luck: Luck)
    requires Inv(s1) && Onward(s, s1) && NothingMoved(s, s1) && job in s.jobs
    ensures var s' := Completed(s1, job, false, luck);
            CountClosed(s, s') == CountClosed(s, s1) + (if s1.jobs[job].status.Open? then 1 else 0)
  {
    var s' := Completed(s1, job, false, luck);
    FailStuckStep(s, s1, job, luck);
    assert Later(s.jobs[job], s1.jobs[job]);
    OneMore(Closed(s, s), Closed(s, s1), job);
  }

  lemma FailedAllMore(s: System, stuck: seq<(Id, Luck)>, i: nat, next: nat)
    requires next == i + 1 <= |stuck|
    ensures FailedAll(s, stuck[..next]) == Completed(FailedAll(s, stuck[..i]), stuck[i].0, false, stuck[i].1)
  {
    assert stuck[..next][..i] == stuck[..i];
  }

  /** How many of the jobs open in s are finished in s'. */
  function CountClosed(s: System, s': System): nat {
    |Closed(s, s') - Closed(s, s)|
  }

  /** One round of failing interrupted jobs closes the job, if it is still open. */
  lemma FailOneMore(s: System, stuck: seq<(Id, Luck)>, s1: System, job: Id, luck: Luck)
    requires Inv(s) && s1 == FailedAll(s, stuck) && job in s.jobs
    ensures job in s1.jobs
    ensures CountClosed(s, Completed(s1, job, false, luck)) == CountClosed(s, s1) + (if s1.jobs[job].status.Open? then 1 else 0)
  {
    FailStuckAdvancesNoMove(s, stuck);
    OneMoreClosed(s, s1, job, luck);
  }

  /** A job takes effect once: completing it again changes nothing. */
  lemma CompletesOnce(s: System, job: Id, ok: bool, luck: Luck, ok2: bool, luck2: Luck)
    requires Inv(s)
    ensures var s1 := Completed(s, job, ok, luck);
            job in s.jobs ==> Completed(s1, job, ok2, luck2) == s1
  {
    if job in s.jobs && s.jobs[job].status.Open? {
      InvFinished(s, job, ok);
      var s1 := Finished(s, job, ok);
      match s.jobs[job].kind
      case BackupJob => InvCompletedBackup(s1, job, ok, luck);
      case RestoreJob => InvCompletedRestore(s1, job, ok, luck);
      case DeleteJob => InvCompletedDelete(s1, job, ok);
    }
  }
}
