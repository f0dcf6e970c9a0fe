/** The services' completion path as it updates its stores (backend/internal/app/operation/service.go,
    Complete, with the move hooks of backend/internal/app/move/service.go). */
module OperationsService {
  import opened Wrappers
  import opened DatabaseNames
  import opened GoText
  import opened MoveSafety
  import opened Operations

  class Service {
    var databases: map<Id, Database>
    var backups: map<Id, Backup>
    var jobs: map<Id, Job>
    var next: Id
    var clock: nat
    var dropped: seq<(Id, Id)>
    var copyEvents: seq<Id>

    constructor ()
      ensures Now() == EMPTY
    {
      databases, backups, jobs, next, clock, dropped, copyEvents := map[], map[], map[], 0, 0, [], [];
    }

    function Now(): System
      reads this
    {
      System(databases, backups, jobs, next, clock, dropped, copyEvents)
    }

    /** Records a new pending operation. */
    method Create(kind: JobType, origin: Origin, params: Params) returns (id: Id)
      modifies this
      ensures Now() == NewJob(old(Now()), kind, origin, params) && id == old(next)
      ensures id in jobs && jobs[id].status.Open? && jobs[id].kind == kind && jobs[id].params == params && jobs[id].createdAt == clock
      ensures forall j :: j in old(jobs) && j != id ==> j in jobs && jobs[j] == old(jobs)[j]
    {
      id := next;
      jobs := jobs[id := Job(kind, origin, params, Open, clock, None)];
      next := next + 1;
    }

    /** Registers a database; false if its name is invalid, or taken on the instance. */
    method Register(instance: Id, name: Name, system: bool) returns (ok: bool)
      modifies this
      ensures Now() == Registered(old(Now()), instance, name, system)
      ensures ok <==> ValidName(TrimSpace(name)) && !Taken(old(Now()), instance, TrimSpace(name))
      ensures ok ==> old(next) in databases && databases[old(next)] == Database(instance, TrimSpace(name), system, false)
      ensures !ok ==> Now() == old(Now())
    {
      var n := TrimSpace(name);
      if !ValidName(n) {
        return false;
      }
      if Taken(Now(), instance, n) {
        return false;
      }
      databases := databases[next := Database(instance, n, system, false)];
      next := next + 1;
      ok := true;
    }

    method Trigger(database: Id, move: Option<MoveSpec>) returns (job: Id)
      requires LiveDatabase(Now(), database)
      modifies this
      ensures Now() == Triggered(old(Now()), database, move)
      ensures && job in jobs && jobs[job].kind.BackupJob? && jobs[job].status.Open? && jobs[job].params.databaseId == Some(database)
              && jobs[job].params.backup.Some? && jobs[job].params.backup.value in backups
              && backups[jobs[job].params.backup.value] == Backup(database, Open, false)
              && (jobs[job].params.moveSource == if move.Some? then Some(database) else None)
    {
      var db := databases[database];
      var backup := next;
      next := next + 1;
      var params := NO_PARAMS.(instance := Some(db.instance), databaseId := Some(database), database := db.name, backup := Some(backup));
      if move.Some? {
        params := params.(moveSource := Some(database), moveTargetInstance := Some(move.value.targetInstance),
                          moveTarget := move.value.target, moveDrop := move.value.dropSource);
      }
      job := Create(BackupJob, if move.None? then PlainBackup else MoveBackup, params);
      backups := backups[backup := Backup(database, Open, false)];
    }

    method Restore(backup: Id, instance: Id, name: Name, moveSource: Option<Id>, moveDrop: bool, origin: Origin) returns (ok: bool)
      modifies this
      ensures Now() == Operations.Restored(old(Now()), backup, instance, name, moveSource, moveDrop, origin)
      ensures ok <==> Restorable(old(Now()), backup)
      ensures ok ==> && old(next) in jobs && jobs[old(next)].kind.RestoreJob? && jobs[old(next)].params.backup == Some(backup)
                     && jobs[old(next)].params.instance == Some(instance) && jobs[old(next)].params.database == name
      ensures !ok ==> Now() == old(Now())
    {
      if backup !in backups || backups[backup].status != Succeeded || !backups[backup].stored {
        return false;
      }
      var _ := Create(RestoreJob, origin, NO_PARAMS.(instance := Some(instance), database := name, backup := Some(backup),
                                                     moveSource := moveSource, moveDrop := moveDrop));
      ok := true;
    }

    method Delete(database: Id, physical: bool, origin: Origin) returns (ok: bool)
      modifies this
      ensures Now() == Deleted(old(Now()), database, physical, origin)
      ensures ok <==> LiveDatabase(old(Now()), database) && !old(databases)[database].system
      ensures ok ==> !LiveDatabase(Now(), database)
      ensures ok && physical ==> old(next) in jobs && jobs[old(next)].kind.DeleteJob? && jobs[old(next)].params.databaseId == Some(database)
      ensures !ok || !physical ==> jobs == old(jobs)
    {
      if database !in databases || databases[database].deleted || databases[database].system {
        return false;
      }
      var db := databases[database];
      if physical {
        var _ := Create(DeleteJob, origin, NO_PARAMS.(instance := Some(db.instance), databaseId := Some(database), database := db.name));
      }
      databases := databases[database := db.(deleted := true)];
      ok := true;
    }

    /** The backup leg of a move is over: start its restore. */
    method OnBackupComplete(job: Id, p: Params, ok: bool, luck: Luck)
      modifies this
      ensures Now() == if p.moveTargetInstance.None? || !ok || luck.restoreFails || p.backup.None? then old(Now())
                       else Operations.Restored(old(Now()), p.backup.value, p.moveTargetInstance.value, p.moveTarget, p.moveSource,
                                                p.moveDrop, MoveRestore(job))
      ensures ok && !luck.restoreFails && p.moveTargetInstance.Some? && p.backup.Some? && Restorable(old(Now()), p.backup.value) ==>
                && old(next) in jobs && jobs[old(next)].kind.RestoreJob? && jobs[old(next)].origin == MoveRestore(job)
                && jobs[old(next)].params.backup == p.backup && jobs[old(next)].params.instance == p.moveTargetInstance
                && jobs[old(next)].params.moveSource == p.moveSource && jobs[old(next)].params.moveDrop == p.moveDrop
    {
      if p.moveTargetInstance.None? {
        return;
      }
      if !ok {
        return;
      }
      if luck.restoreFails || p.backup.None? {
        return;
      }
      var _ := Restore(p.backup.value, p.moveTargetInstance.value, p.moveTarget, p.moveSource, p.moveDrop, MoveRestore(job));
    }

    /** The restore leg of a move is over: register the target and, if asked to, drop the source. */
    method OnRestoreComplete(job: Id, p: Params, ok: bool, luck: Luck)
      requires job in jobs && p == jobs[job].params && p.verify.None? && p.copy.None?
      modifies this
      ensures Now() == CompletedRestore(old(Now()), job, ok, luck)
      ensures ok && !luck.registerFails && p.moveSource.Some? && p.instance.Some? && ValidName(TrimSpace(p.database))
              && !Taken(old(Now()), p.instance.value, TrimSpace(p.database)) && old(next) !in old(databases)
              && p.moveSource.value in old(databases) ==>
                old(next) in databases && databases[old(next)] == Database(p.instance.value, TrimSpace(p.database), false, false)
      ensures ok && !luck.dropFails && p.moveDrop && p.instance.Some? && p.moveSource.Some?
              && p.moveSource.value < old(next) && LiveDatabase(old(Now()), p.moveSource.value) && !old(databases)[p.moveSource.value].system ==>
                !LiveDatabase(Now(), p.moveSource.value)
    {
      if p.moveSource.None? {
        return;
      }
      if !ok || p.instance.None? {
        return;
      }
      if !luck.registerFails {
        var _ := Register(p.instance.value, p.database, false);
      }
      if p.moveDrop && !luck.dropFails {
        var _ := Delete(p.moveSource.value, true, MoveDrop(job));
      }
    }

    /** Finalizes an operation and applies its side effects; false if it was finalized already. */
    method Complete(job: Id, ok: bool, luck: Luck) returns (done: bool)
      modifies this
      ensures Now() == Completed(old(Now()), job, ok, luck)
      ensures done <==> job in old(jobs) && old(jobs)[job].status.Open?
      ensures !done ==> Now() == old(Now())
      ensures done && old(jobs)[job].kind.RestoreJob? && old(jobs)[job].params.verify.Some? && !luck.scratchFails ==>
                && old(next) in jobs && jobs[old(next)].kind.DeleteJob? && jobs[old(next)].params.databaseId.None?
                && jobs[old(next)].params.instance == old(jobs)[job].params.instance
                && jobs[old(next)].params.database == old(jobs)[job].params.database
    {
      if job !in jobs {
        return false;
      }
      var j := jobs[job];
      if j.status != Open {
        return false;
      }
      jobs := jobs[job := j.(status := if ok then Succeeded else Failed, completedAt := Some(clock))];
      done := true;
      var p := j.params;
      match j.kind {
        case BackupJob =>
          if p.backup.Some? && p.backup.value in backups {
            backups := backups[p.backup.value := backups[p.backup.value].(
              status := if ok then Succeeded else Failed, stored := ok && luck.stored)];
          }
          OnBackupComplete(job, p, ok, luck);
        case RestoreJob =>
          if p.verify.Some? {
            if !luck.scratchFails {
              var _ := Create(DeleteJob, VerifyDrop, NO_PARAMS.(instance := p.instance, database := p.database));
            }
          } else if p.copy.Some? {
            copyEvents := copyEvents + [job];
          } else {
            OnRestoreComplete(job, p, ok, luck);
          }
        case DeleteJob =>
          if p.copy.Some? {
            copyEvents := copyEvents + [job];
          } else if ok && p.databaseId.Some? && p.instance.Some? {
            dropped := dropped + [(job, p.databaseId.value)];
          }
      }
    }

    /** Fails every job listed as running for too long, and counts those it failed. */
    method FailStuck(stuck: seq<(Id, Luck)>) returns (n: nat)
      requires Inv(Now()) && forall i :: 0 <= i < |stuck| ==> stuck[i].0 in jobs
      modifies this
      ensures Now() == FailedAll(old(Now()), stuck)
      ensures n == CountClosed(old(Now()), Now())
    {
      n := 0;
      var i := 0;
      ghost var s := Now();
      while i < |stuck|
        invariant 0 <= i <= |stuck|
        invariant Now() == FailedAll(s, stuck[..i])
        invariant n == CountClosed(s, Now())
      {
        FailedAllMore(s, stuck, i, i + 1);
        FailOneMore(s, stuck[..i], Now(), stuck[i].0, stuck[i].1);
        var done := Complete(stuck[i].0, false, stuck[i].1);
        if done {
          n := n + 1;
        }
        i := i + 1;
      }
      assert stuck[..i] == stuck;
    }
  }
}
