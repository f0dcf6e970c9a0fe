/** The end of a move: what it registers and drops, and when the source it drops is the very place it has
    just restored to (backend/internal/app/move/service.go). */
module MoveEnds {
  import opened Wrappers
  import opened DatabaseNames
  import opened GoText
  import opened Operations
  import opened MoveSafety

  // ---- Jobs bear the place of their database --------------------------------------------------------------

  /** A job of a registered database bears that database's place. */
  predicate Placed(s: System, j: Job) {
    j.params.databaseId.Some? ==>
      var d := j.params.databaseId.value;
      d in s.databases && j.params.instance == Some(s.databases[d].instance) && j.params.database == s.databases[d].name
  }

  predicate PlacesKept(s: System) {
    && (forall id :: id in s.databases ==> id < s.next && ValidName(s.databases[id].name))
    && (forall id :: id in s.jobs ==> Placed(s, s.jobs[id]))
  }

  /** Registered databases stay where they are, and new jobs bear the place of theirs. */
  predicate Settles(s: System, s': System) {
    && s.next <= s'.next && (forall id :: id in s'.databases && id !in s.databases ==> id < s'.next && ValidName(s'.databases[id].name))
    && (forall id :: id in s.databases ==> && id in s'.databases && s'.databases[id].instance == s.databases[id].instance
                                           && s'.databases[id].name == s.databases[id].name)
    && (forall id :: id in s'.jobs && (id in s.jobs ==> s'.jobs[id].params != s.jobs[id].params) ==> Placed(s', s'.jobs[id]))
  }

  lemma SettlesKeeps(s: System, s': System)
    requires PlacesKept(s) && Settles(s, s')
    ensures PlacesKept(s')
  {
    forall id | id in s'.jobs ensures Placed(s', s'.jobs[id]) {
      assert id in s.jobs ==> Placed(s, s.jobs[id]);
    }
  }

  lemma TriggeredSettles(s: System, database: Id, move: Option<MoveSpec>)
    requires PlacesKept(s) && LiveDatabase(s, database)
    ensures Settles(s, Triggered(s, database, move))
  {
  }

  lemma DeletedSettles(s: System, database: Id, physical: bool, origin: Origin)
    requires PlacesKept(s)
    ensures Settles(s, Deleted(s, database, physical, origin))
  {
  }

  lemma NewJobSettles(s: System, kind: JobType, origin: Origin, params: Params)
    requires PlacesKept(s) && params.databaseId.None?
    ensures PlacesKept(NewJob(s, kind, origin, params))
  {
    SettlesKeeps(s, NewJob(s, kind, origin, params));
  }

  lemma RegisteredSettles(s: System, instance: Id, name: Name, system: bool)
    requires PlacesKept(s)
    ensures PlacesKept(Registered(s, instance, name, system))
  {
    SettlesKeeps(s, Registered(s, instance, name, system));
  }

  lemma CutoverSettles(s: System, job: Id, luck: Luck)
    requires PlacesKept(s) && job in s.jobs
    requires var p := s.jobs[job].params;
             p.verify.None? && p.copy.None? && p.moveSource.Some? && p.instance.Some?
    ensures PlacesKept(CompletedRestore(s, job, true, luck))
  {
    var p := s.jobs[job].params;
    var s1 := if luck.registerFails then s else Registered(s, p.instance.value, p.database, false);
    CutoverIs(s, job, luck, s1);
    RegisteredSettles(s, p.instance.value, p.database, false);
    if p.moveDrop && !luck.dropFails {
      DeletedSettles(s1, p.moveSource.value, true, MoveDrop(job));
      SettlesKeeps(s1, Deleted(s1, p.moveSource.value, true, MoveDrop(job)));
    }
  }

  lemma RestoreSettles(s: System, job: Id, ok: bool, luck: Luck)
    requires PlacesKept(s) && job in s.jobs
    ensures PlacesKept(CompletedRestore(s, job, ok, luck))
  {
    var p := s.jobs[job].params;
    if p.verify.Some? {
      NewJobSettles(s, DeleteJob, VerifyDrop, NO_PARAMS.(instance := p.instance, database := p.database));
    } else if p.copy.Some? {
      SettlesKeeps(s, CompletedRestore(s, job, ok, luck));
    } else if p.moveSource.Some? && ok && p.instance.Some? {
      CutoverSettles(s, job, luck);
    }
  }

  lemma BackupSettles(s: System, job: Id, ok: bool, luck: Luck)
    requires PlacesKept(s) && job in s.jobs
    ensures Settles(s, CompletedBackup(s, job, ok, luck))
  {
  }

  lemma CompletedSettles(s: System, job: Id, ok: bool, luck: Luck)
    requires PlacesKept(s)
    ensures PlacesKept(Completed(s, job, ok, luck))
  {
    if job in s.jobs && s.jobs[job].status.Open? {
      var s1 := Finished(s, job, ok);
      assert PlacesKept(s1) by {
        SettlesKeeps(s, s1);
      }
      match s.jobs[job].kind
      case BackupJob =>
        BackupSettles(s1, job, ok, luck);
        SettlesKeeps(s1, CompletedBackup(s1, job, ok, luck));
      case RestoreJob =>
        RestoreSettles(s1, job, ok, luck);
      case DeleteJob =>
    }
  }

  lemma TriggerSettles(s: System, database: Id, move: Option<MoveSpec>)
    requires PlacesKept(s) && LiveDatabase(s, database)
    ensures PlacesKept(Triggered(s, database, move))
  {
    TriggeredSettles(s, database, move);
    SettlesKeeps(s, Triggered(s, database, move));
  }

  lemma ImportSettles(s: System, database: Id)
    requires PlacesKept(s) && LiveDatabase(s, database)
    ensures PlacesKept(Do(s, ImportSql(database)))
  {
    SettlesKeeps(s, Do(s, ImportSql(database)));
  }

  lemma DeletionSettles(s: System, database: Id, physical: bool, origin: Origin)
    requires PlacesKept(s)
    ensures PlacesKept(Deleted(s, database, physical, origin))
  {
    DeletedSettles(s, database, physical, origin);
    SettlesKeeps(s, Deleted(s, database, physical, origin));
  }

  /** Restores name no database of theirs. */
  lemma RestorationSettles(s: System, backup: Id, instance: Id, name: Name, moveSource: Option<Id>, moveDrop: bool, origin: Origin)
    requires PlacesKept(s)
    ensures PlacesKept(Restored(s, backup, instance, name, moveSource, moveDrop, origin))
  {
    NewJobSettles(s, RestoreJob, origin, NO_PARAMS.(instance := Some(instance), database := name, backup := Some(backup),
                                                    moveSource := moveSource, moveDrop := moveDrop));
  }

  lemma ScratchSettles(s: System, backup: Id, scratch: Name, verify: Option<Id>, copy: Option<Id>, origin: Origin)
    requires PlacesKept(s)
    ensures PlacesKept(Scratch(s, backup, scratch, verify, copy, origin))
  {
    if Restorable(s, backup) && LiveDatabase(s, s.backups[backup].database) {
      NewJobSettles(s, RestoreJob, origin, NO_PARAMS.(instance := Some(s.databases[s.backups[backup].database].instance),
                                                      database := scratch, backup := Some(backup), verify := verify, copy := copy));
    }
  }

  lemma CallSettles(s: System, call: Call)
    requires PlacesKept(s)
    ensures PlacesKept(Do(s, call))
  {
    match call
    case AddDatabase(instance, name, system) => RegisteredSettles(s, instance, name, system);
    case TriggerBackup(database) => if LiveDatabase(s, database) { TriggerSettles(s, database, None); }
    case StartMove(database, spec) =>
      if LiveDatabase(s, database) {
        TriggerSettles(s, database, Some(spec.(target := if spec.target == "" then s.databases[database].name else spec.target)));
      }
    case RestoreBackup(backup, instance, name) => RestorationSettles(s, backup, instance, name, None, false, UserRestore);
    case ImportSql(database) => if LiveDatabase(s, database) { ImportSettles(s, database); }
    case VerifyBackup(backup, scratch) => ScratchSettles(s, backup, scratch, Some(backup), None, VerifyRestore);
    case OpenCopy(backup, copy, scratch) => ScratchSettles(s, backup, scratch, None, Some(copy), CopyRestore);
    case DiscardCopy(instance, copy, scratch) =>
      NewJobSettles(s, DeleteJob, CopyDrop, NO_PARAMS.(instance := Some(instance), database := scratch, copy := Some(copy)));
    case DeleteDatabase(database, physical) => DeletionSettles(s, database, physical, UserDrop);
    case CompleteJob(job, ok, luck) => CompletedSettles(s, job, ok, luck);
  }

  lemma {:induction false} PlacesAlwaysKept(calls: seq<Call>)
    ensures PlacesKept(After(calls))
    decreases |calls|
  {
    if calls != [] {
      PlacesAlwaysKept(calls[..|calls| - 1]);
      CallSettles(After(calls[..|calls| - 1]), calls[|calls| - 1]);
    }
  }

  // ---- The last completion of a move -----------------------------------------------------------------------

  /** The completion enqueues a drop, of the database with this id or of this place. */
  ghost predicate DropsSource(s: System, s': System, d: Id) {
    exists drop :: drop in s'.jobs && drop !in s.jobs && s'.jobs[drop].kind.DeleteJob? && s'.jobs[drop].params.databaseId == Some(d)
  }

  ghost predicate DropsPlace(s: System, s': System, instance: Option<Id>, name: Name) {
    exists drop :: && drop in s'.jobs && drop !in s.jobs && s'.jobs[drop].kind.DeleteJob?
                   && s'.jobs[drop].params.instance == instance && s'.jobs[drop].params.database == name
  }

  ghost predicate Registers(s: System, s': System, instance: Id, name: Name) {
    exists id :: && id in s'.databases && id !in s.databases && !s'.databases[id].deleted
                 && s'.databases[id].instance == instance && s'.databases[id].name == name
  }

  /** What the cutover of a move goes by. */
  predicate DropsItsSource(s: System, p: Params, luck: Luck) {
    && p.moveDrop && !luck.dropFails && p.moveSource.Some? && LiveDatabase(s, p.moveSource.value)
    && !s.databases[p.moveSource.value].system
  }

  /** Whether the target of a move can be registered: its name is valid, and free on its instance. */
  predicate RegistersTarget(s: System, p: Params, luck: Luck) {
    && !luck.registerFails && p.instance.Some? && ValidName(TrimSpace(p.database))
    && !Taken(s, p.instance.value, TrimSpace(p.database))
  }

  /** What the end of a move comes to. */
  ghost predicate EndsAs(s: System, s': System, p: Params, luck: Luck) {
    && p.instance.Some? && p.moveSource.Some?
    && (Registers(s, s', p.instance.value, TrimSpace(p.database)) <==> RegistersTarget(s, p, luck))
    && (DropsSource(s, s', p.moveSource.value) <==> DropsItsSource(s, p, luck))
    && (DropsPlace(s, s', p.instance, p.database)
        <==> DropsItsSource(s, p, luck) && s.databases[p.moveSource.value].instance == p.instance.value
             && s.databases[p.moveSource.value].name == p.database)
    && (DropsPlace(s, s', p.instance, p.database) ==> !Registers(s, s', p.instance.value, TrimSpace(p.database)))
  }

  /** When the restore of a move succeeds, the target is registered exactly if its name is valid and free on
      its instance, and the store takes it; and the source is dropped, whether or not the target was
      registered, exactly if the move was to drop it, it is still there and not a system database, and the
      drop is not refused. What is then dropped is the place just restored to exactly if that is the
      source's own, and then no target is ever registered: the source still has the name. */
  lemma MoveEndsIff(calls: seq<Call>, job: Id, luck: Luck)
    requires job in After(calls).jobs && After(calls).jobs[job].origin.MoveRestore? && After(calls).jobs[job].status.Open?
    ensures EndsAs(After(calls), Completed(After(calls), job, true, luck), After(calls).jobs[job].params, luck)
  {
    InvAlways(calls);
    PlacesAlwaysKept(calls);
    var s := After(calls);
    var r := s.jobs[job];
    assert JobOk(s, r);
    AllTraced(calls, r.origin.backupJob);
    Cutover(s, job, luck);
  }

  lemma TakenByItself(s: System, d: Id, name: Name)
    requires PlacesKept(s) && LiveDatabase(s, d) && s.databases[d].name == name
    ensures TrimSpace(name) == name && Taken(s, s.databases[d].instance, name)
  {
    ValidIsTrimmed(name);
  }

  lemma Cutover(s: System, job: Id, luck: Luck)
    requires Inv(s) && PlacesKept(s) && job in s.jobs && s.jobs[job].origin.MoveRestore? && s.jobs[job].status.Open?
    requires s.jobs[job].params.instance.Some?
    ensures EndsAs(s, Completed(s, job, true, luck), s.jobs[job].params, luck)
  {
    var p := s.jobs[job].params;
    assert JobOk(s, s.jobs[job]);
    var s0 := Finished(s, job, true);
    var s1 := if luck.registerFails then s0 else Registered(s0, p.instance.value, p.database, false);
    CutoverIs(s0, job, luck, s1);
    var s' := Completed(s, job, true, luck);
    assert s' == if p.moveDrop && !luck.dropFails then Deleted(s1, p.moveSource.value, true, MoveDrop(job)) else s1;
    RegistrationIs(s, s0, s1, p, luck);
    DropIs(s, s1, s', p, luck, job);
  }

  lemma RegistrationIs(s: System, s0: System, s1: System, p: Params, luck: Luck)
    requires PlacesKept(s) && p.instance.Some? && s0.databases == s.databases && s0.next == s.next
    requires s1 == if luck.registerFails then s0 else Registered(s0, p.instance.value, p.database, false)
    ensures RegistersTarget(s, p, luck) ==> s1.databases == s.databases[s.next := Database(p.instance.value, TrimSpace(p.database), false, false)]
    ensures !RegistersTarget(s, p, luck) ==> s1.databases == s.databases
    ensures s.next !in s.databases && s1.next >= s.next && s1.jobs == s0.jobs
  {
    assert Taken(s0, p.instance.value, TrimSpace(p.database)) <==> Taken(s, p.instance.value, TrimSpace(p.database));
  }

  lemma DropIs(s: System, s1: System, s': System, p: Params, luck: Luck, job: Id)
    requires Inv(s) && PlacesKept(s) && p.instance.Some? && p.moveSource.Some? && job in s.jobs
    requires s1.jobs.Keys == s.jobs.Keys && s1.next >= s.next && s.next !in s.databases
    requires RegistersTarget(s, p, luck) ==> s1.databases == s.databases[s.next := Database(p.instance.value, TrimSpace(p.database), false, false)]
    requires !RegistersTarget(s, p, luck) ==> s1.databases == s.databases
    requires p.moveSource.value < s.next
    requires s' == if p.moveDrop && !luck.dropFails then Deleted(s1, p.moveSource.value, true, MoveDrop(job)) else s1
    ensures EndsAs(s, s', p, luck)
  {
    var d := p.moveSource.value;
    assert LiveDatabase(s1, d) <==> LiveDatabase(s, d);
    if RegistersTarget(s, p, luck) {
      assert s.next in s'.databases && !s'.databases[s.next].deleted;
    }
    assert s1.next !in s.jobs;
    if DropsItsSource(s, p, luck) {
      assert s1.next in s'.jobs && s'.jobs[s1.next].params.databaseId == p.moveSource;
      if s.databases[d].instance == p.instance.value && s.databases[d].name == p.database {
        TakenByItself(s, d, p.database);
      }
    }
  }

  // ---- A move onto its own source ------------------------------------------------------------------------

  /** In every run, the drop that ends a move is of the very place that the move restored to if and only if
      the move was started onto its source's own instance, under the source's own name or none. Nothing
      at its start rules that out. */
  lemma MoveOntoItselfIff(calls: seq<Call>, drop: Id)
    requires drop in After(calls).jobs && After(calls).jobs[drop].origin.MoveDrop?
    ensures var s := After(calls);
            var j := s.jobs[drop];
            && j.origin.restoreJob in s.jobs
            && var r := s.jobs[j.origin.restoreJob];
               && r.origin.MoveRestore? && r.origin.backupJob in s.jobs
               && var b := s.jobs[r.origin.backupJob];
                  && b.createdAt < |calls| && calls[b.createdAt].StartMove? && calls[b.createdAt].database in s.databases
                  && var spec, source := calls[b.createdAt].spec, s.databases[calls[b.createdAt].database];
                     (j.params.instance == r.params.instance && j.params.database == r.params.database)
                     <==> spec.targetInstance == source.instance && (spec.target == "" || spec.target == source.name)
  {
    InvAlways(calls);
    PlacesAlwaysKept(calls);
    var s := After(calls);
    var j := s.jobs[drop];
    assert JobOk(s, j) && Placed(s, j);
    var r := s.jobs[j.origin.restoreJob];
    assert JobOk(s, r);
    AllTraced(calls, r.origin.backupJob);
    assert JobOk(s, s.jobs[r.origin.backupJob]) && Placed(s, s.jobs[r.origin.backupJob]);
  }

  const LUCKY := Luck(true, false, false, false, false)

  /** A database, moved onto its own place. */
  const ONTO_ITSELF := [AddDatabase(0, "a", false), StartMove(0, MoveSpec(0, "", true)), CompleteJob(2, true, LUCKY)]

  const SOURCE := Database(0, "a", false, false)
  const BACKED_UP := NO_PARAMS.(instance := Some(0), databaseId := Some(0), database := "a", backup := Some(1),
                                moveSource := Some(0), moveTargetInstance := Some(0), moveTarget := "a", moveDrop := true)

  lemma MoveStarted()
    ensures After([AddDatabase(0, "a", false), StartMove(0, MoveSpec(0, "", true))])
         == System(map[0 := SOURCE], map[1 := Backup(0, Open, false)], map[2 := Job(BackupJob, MoveBackup, BACKED_UP, Open, 1, None)],
                   3, 2, [], [])
  {
    var c0, c1 := AddDatabase(0, "a", false), StartMove(0, MoveSpec(0, "", true));
    AfterMore([], c0);
    AfterMore([c0], c1);
    assert [] + [c0] == [c0] && [c0] + [c1] == [c0, c1] && After([]) == EMPTY;
    assert After([c0]) == System(map[0 := SOURCE], map[], map[], 1, 1, [], []);
  }

  lemma BackupLegEnds(s: System)
    requires s == System(map[0 := SOURCE], map[1 := Backup(0, Open, false)], map[2 := Job(BackupJob, MoveBackup, BACKED_UP, Open, 1, None)],
                         3, 2, [], [])
    ensures var s' := Completed(s, 2, true, LUCKY);
            && s'.next == 4 && s'.databases == map[0 := SOURCE] && 3 in s'.jobs
            && s'.jobs[3] == Job(RestoreJob, MoveRestore(2), RESTORED, Open, 2, None)
  {
    CompletedIs(s, 2, true, LUCKY);
    var s1 := Finished(s, 2, true);
    assert s1.jobs[2].params == BACKED_UP;
    assert FollowUp(s1, 2, true, LUCKY) == CompletedBackup(s1, 2, true, LUCKY);
  }

  const RESTORED := NO_PARAMS.(instance := Some(0), database := "a", backup := Some(1), moveSource := Some(0), moveDrop := true)

  lemma MovedHalfway()
    ensures var s := After(ONTO_ITSELF);
            && s.next == 4 && s.databases == map[0 := SOURCE] && 3 in s.jobs
            && s.jobs[3].kind.RestoreJob? && s.jobs[3].status.Open? && s.jobs[3].origin == MoveRestore(2)
            && s.jobs[3].params == NO_PARAMS.(instance := Some(0), database := "a", backup := Some(1), moveSource := Some(0), moveDrop := true)
  {
    MoveStarted();
    AfterMore(ONTO_ITSELF[..2], ONTO_ITSELF[2]);
    assert ONTO_ITSELF[..2] + [ONTO_ITSELF[2]] == ONTO_ITSELF;
    assert ONTO_ITSELF[..2] == [AddDatabase(0, "a", false), StartMove(0, MoveSpec(0, "", true))];
    BackupLegEnds(After(ONTO_ITSELF[..2]));
  }

  lemma AfterMore(calls: seq<Call>, call: Call)
    ensures After(calls + [call]) == Tick(Do(After(calls), call))
  {
    assert (calls + [call])[..|calls|] == calls;
  }

  /** Such a run: its last call enqueues the drop of the database that it has just restored, and leaves no
      database registered. */
  lemma MoveDropsItsOwnCopy(luck: Luck)
    requires !luck.dropFails
    ensures var s, s' := After(ONTO_ITSELF), Completed(After(ONTO_ITSELF), 3, true, luck);
            && 3 in s.jobs && DropsPlace(s, s', s.jobs[3].params.instance, s.jobs[3].params.database)
            && s'.databases.Keys == {0} && s'.databases[0].deleted
  {
    MovedHalfway();
    PlacesAlwaysKept(ONTO_ITSELF);
    InvAlways(ONTO_ITSELF);
    var s := After(ONTO_ITSELF);
    Cutover(s, 3, luck);
    var p := s.jobs[3].params;
    var s0 := Finished(s, 3, true);
    TakenByItself(s, 0, "a");
    RegistrationIs(s, s0, if luck.registerFails then s0 else Registered(s0, 0, "a", false), p, luck);
    CutoverIs(s0, 3, luck, if luck.registerFails then s0 else Registered(s0, 0, "a", false));
  }
}
