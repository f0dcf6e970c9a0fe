/** Operations on databases and their completion, with the move saga that rides on them
    (backend/internal/app/operation/service.go, move/service.go, backup/service.go and
    database/service.go). Params are what the code decides by; origin records where a job came from. */
module Operations {
  import opened Wrappers
  import opened DatabaseNames
  import opened GoText

  type Id = nat
  type Name = string

  datatype JobType = BackupJob | RestoreJob | DeleteJob

  datatype Params = Params(
    instance: Option<Id>, databaseId: Option<Id>, database: Name, backup: Option<Id>,
    moveTargetInstance: Option<Id>, moveTarget: Name, moveSource: Option<Id>, moveDrop: bool,
    verify: Option<Id>, copy: Option<Id>)

  const NO_PARAMS := Params(None, None, "", None, None, "", None, false, None, None)

  datatype Origin =
    | PlainBackup | MoveBackup
    | UserRestore | ImportedSql | MoveRestore(backupJob: Id) | VerifyRestore | CopyRestore
    | UserDrop | MoveDrop(restoreJob: Id) | VerifyDrop | CopyDrop

  datatype JobStatus = Open | Succeeded | Failed

  /** Times count the calls made so far. */
  datatype Job = Job(kind: JobType, origin: Origin, params: Params, status: JobStatus, createdAt: nat, completedAt: Option<nat>)

  datatype Database = Database(instance: Id, name: Name, system: bool, deleted: bool)

  datatype Backup = Backup(database: Id, status: JobStatus, stored: bool)

  /** dropped logs the calls of the hook that removes a dropped database's access roles; copyEvents
      those of the backup copy hooks. */
  datatype System = System(databases: map<Id, Database>, backups: map<Id, Backup>, jobs: map<Id, Job>, next: Id, clock: nat,
                           dropped: seq<(Id, Id)>, copyEvents: seq<Id>)

  const EMPTY := System(map[], map[], map[], 0, 0, [], [])

  // ---- Registering databases ---------------------------------------------------------------------------

  predicate Taken(s: System, instance: Id, name: Name) {
    exists id :: id in s.databases && !s.databases[id].deleted && s.databases[id].instance == instance && s.databases[id].name == name
  }

  /** Registers a database under its trimmed name, unless that is invalid or taken on the instance. */
  function Registered(s: System, instance: Id, name: Name, system: bool): System {
    var n := TrimSpace(name);
    if !ValidName(n) || Taken(s, instance, n) then s
    else s.(databases := s.databases[s.next := Database(instance, n, system, false)], next := s.next + 1)
  }

  // ---- Creating operations ---------------------------------------------------------------------------

  function NewJob(s: System, kind: JobType, origin: Origin, params: Params): System {
    s.(jobs := s.jobs[s.next := Job(kind, origin, params, Open, s.clock, None)], next := s.next + 1)
  }

  predicate LiveDatabase(s: System, id: Id) {
    id in s.databases && !s.databases[id].deleted
  }

  predicate Restorable(s: System, backup: Id) {
    backup in s.backups && s.backups[backup].status.Succeeded? && s.backups[backup].stored
  }

  datatype MoveSpec = MoveSpec(targetInstance: Id, target: Name, dropSource: bool)

  /** Backs a database up; a move rides along in the params. The job comes before the backup's own row. */
  function Triggered(s: System, database: Id, move: Option<MoveSpec>): System
    requires LiveDatabase(s, database)
  {
    var db := s.databases[database];
    var backup := s.next;
    var plain := NO_PARAMS.(instance := Some(db.instance), databaseId := Some(database), database := db.name, backup := Some(backup));
    var params := if move.None? then plain
                  else plain.(moveSource := Some(database), moveTargetInstance := Some(move.value.targetInstance),
                              moveTarget := move.value.target, moveDrop := move.value.dropSource);
    var s1 := NewJob(s.(next := s.next + 1), BackupJob, if move.None? then PlainBackup else MoveBackup, params);
    s1.(backups := s1.backups[backup := Backup(database, Open, false)])
  }

  /** Restores a backup, which has to be complete and stored, under a name on an instance. */
  function Restored(s: System, backup: Id, instance: Id, name: Name, moveSource: Option<Id>, moveDrop: bool, origin: Origin): System {
    if !Restorable(s, backup) then s
    else NewJob(s, RestoreJob, origin, NO_PARAMS.(instance := Some(instance), database := name, backup := Some(backup),
                                                  moveSource := moveSource, moveDrop := moveDrop))
  }

  /** Deletes a database: the drop on its server, if asked for, is enqueued before its record goes. */
  function Deleted(s: System, database: Id, physical: bool, origin: Origin): System {
    if !LiveDatabase(s, database) || s.databases[database].system then s
    else
      var db := s.databases[database];
      var s1 := if physical
                then NewJob(s, DeleteJob, origin, NO_PARAMS.(instance := Some(db.instance), databaseId := Some(database), database := db.name))
                else s;
      s1.(databases := s1.databases[database := db.(deleted := true)])
  }

  // ---- Completing operations ---------------------------------------------------------------------------

  /** What the surroundings decide while a completion runs: whether the result carries a stored
      artifact, and whether the restore, the registration, the drop or the scratch drop are refused. */
  datatype Luck = Luck(stored: bool, restoreFails: bool, registerFails: bool, dropFails: bool, scratchFails: bool)

  function CompletedBackup(s: System, job: Id, ok: bool, luck: Luck): System
    requires job in s.jobs
  {
    var p := s.jobs[job].params;
    var s1 := if p.backup.Some? && p.backup.value in s.backups
              then s.(backups := s.backups[p.backup.value := s.backups[p.backup.value].(
                     status := if ok then Succeeded else Failed, stored := ok && luck.stored)])
              else s;
    // The move saga's first leg is over.
    if p.moveTargetInstance.None? || !ok || luck.restoreFails || p.backup.None? then s1
    else Restored(s1, p.backup.value, p.moveTargetInstance.value, p.moveTarget, p.moveSource, p.moveDrop, MoveRestore(job))
  }

  function CompletedRestore(s: System, job: Id, ok: bool, luck: Luck): System
    requires job in s.jobs
  {
    var p := s.jobs[job].params;
    if p.verify.Some? then
      if luck.scratchFails then s
      else NewJob(s, DeleteJob, VerifyDrop, NO_PARAMS.(instance := p.instance, database := p.database))
    else if p.copy.Some? then s.(copyEvents := s.copyEvents + [job])
    else if p.moveSource.None? || !ok || p.instance.None? then s
    else
      var s1 := if luck.registerFails then s else Registered(s, p.instance.value, p.database, false);
      if p.moveDrop && !luck.dropFails then Deleted(s1, p.moveSource.value, true, MoveDrop(job)) else s1
  }

  function CompletedDelete(s: System, job: Id, ok: bool): System
    requires job in s.jobs
  {
    var p := s.jobs[job].params;
    if p.copy.Some? then s.(copyEvents := s.copyEvents + [job])
    else if ok && p.databaseId.Some? && p.instance.Some? then s.(dropped := s.dropped + [(job, p.databaseId.value)])
    else s
  }

  /** Finalizes an operation, which succeeds once only, and runs what follows from it. */
  function Completed(s: System, job: Id, ok: bool, luck: Luck): System {
    if job !in s.jobs || !s.jobs[job].status.Open? then s
    else
      var j := s.jobs[job];
      var s1 := s.(jobs := s.jobs[job := j.(status := if ok then Succeeded else Failed, completedAt := Some(s.clock))]);
      match j.kind
      case BackupJob => CompletedBackup(s1, job, ok, luck)
      case RestoreJob => CompletedRestore(s1, job, ok, luck)
      case DeleteJob => CompletedDelete(s1, job, ok)
  }

  /** Fails, one after another, jobs whose process died. */
  function FailedAll(s: System, stuck: seq<(Id, Luck)>): System
    decreases |stuck|
  {
    if stuck == [] then s
    else Completed(FailedAll(s, stuck[..|stuck| - 1]), stuck[|stuck| - 1].0, false, stuck[|stuck| - 1].1)
  }

  // ---- Calls -----------------------------------------------------------------------------------------

  datatype Call =
    | AddDatabase(instance: Id, name: Name, system: bool)
    | TriggerBackup(database: Id)
    | StartMove(database: Id, spec: MoveSpec)
    | RestoreBackup(backup: Id, instance: Id, name: Name)
    | ImportSql(database: Id)
    | VerifyBackup(backup: Id, scratch: Name)
    | OpenCopy(backup: Id, copy: Id, scratch: Name)
    | DiscardCopy(instance: Id, copy: Id, scratch: Name)
    | DeleteDatabase(database: Id, physical: bool)
    | CompleteJob(job: Id, ok: bool, luck: Luck)

  function Scratch(s: System, backup: Id, scratch: Name, verify: Option<Id>, copy: Option<Id>, origin: Origin): System {
    if !Restorable(s, backup) || !LiveDatabase(s, s.backups[backup].database) then s
    else NewJob(s, RestoreJob, origin, NO_PARAMS.(instance := Some(s.databases[s.backups[backup].database].instance),
                                                  database := scratch, backup := Some(backup), verify := verify, copy := copy))
  }

  function Do(s: System, call: Call): System {
    match call
    case AddDatabase(instance, name, system) => Registered(s, instance, name, system)
    case TriggerBackup(database) => if LiveDatabase(s, database) then Triggered(s, database, None) else s
    case StartMove(database, spec) =>
      if LiveDatabase(s, database) then
        Triggered(s, database, Some(spec.(target := if spec.target == "" then s.databases[database].name else spec.target)))
      else s
    case RestoreBackup(backup, instance, name) => Restored(s, backup, instance, name, None, false, UserRestore)
    case ImportSql(database) =>
      if LiveDatabase(s, database) then
        var db := s.databases[database];
        NewJob(s, RestoreJob, ImportedSql, NO_PARAMS.(instance := Some(db.instance), databaseId := Some(database), database := db.name))
      else s
    case VerifyBackup(backup, scratch) => Scratch(s, backup, scratch, Some(backup), None, VerifyRestore)
    case OpenCopy(backup, copy, scratch) => Scratch(s, backup, scratch, None, Some(copy), CopyRestore)
    case DiscardCopy(instance, copy, scratch) =>
      NewJob(s, DeleteJob, CopyDrop, NO_PARAMS.(instance := Some(instance), database := scratch, copy := Some(copy)))
    case DeleteDatabase(database, physical) => Deleted(s, database, physical, UserDrop)
    case CompleteJob(job, ok, luck) => Completed(s, job, ok, luck)
  }

  function Tick(s: System): System {
    s.(clock := s.clock + 1)
  }

  /** The state after a run of calls. */
  function After(calls: seq<Call>): System
    decreases |calls|
  {
    if calls == [] then EMPTY else Tick(Do(After(calls[..|calls| - 1]), calls[|calls| - 1]))
  }
}
