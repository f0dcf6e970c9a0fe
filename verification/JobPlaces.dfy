/** Where every operation works: the instance and database name a job bears are those that the call which
    created it gave or stood for, over every run of calls (backend/internal/app/operation/service.go). */
module JobPlaces {
  import opened Wrappers
  import opened DatabaseNames
  import opened Operations
  import opened MoveSafety
  import opened MoveEnds

  // ---- The place a call gives its job --------------------------------------------------------------

  predicate At(j: Job, instance: Id, name: Name) {
    j.params.instance == Some(instance) && j.params.database == name
  }

  predicate AtDatabase(s: System, j: Job, d: Id) {
    d in s.databases && At(j, s.databases[d].instance, s.databases[d].name)
  }

  /** On the instance of the database that was backed up, under the name given. */
  predicate AtScratch(s: System, j: Job, backup: Id, scratch: Name) {
    && j.params.backup == Some(backup) && backup in s.backups && s.backups[backup].database in s.databases
    && At(j, s.databases[s.backups[backup].database].instance, scratch)
  }

  predicate SamePlace(j: Job, r: Job) {
    j.params.instance == r.params.instance && j.params.database == r.params.database
  }

  /** The job bears the place that its call, made in the state s, gives it. */
  predicate PlacedBy(s: System, call: Call, j: Job) {
    var p := j.params;
    match j.origin
    case PlainBackup => call.TriggerBackup? && p.databaseId == Some(call.database) && AtDatabase(s, j, call.database)
    case MoveBackup => call.StartMove? && p.databaseId == Some(call.database) && AtDatabase(s, j, call.database)
    case UserRestore => call.RestoreBackup? && p.backup == Some(call.backup) && At(j, call.instance, call.name)
    case ImportedSql => call.ImportSql? && p.databaseId == Some(call.database) && AtDatabase(s, j, call.database)
    case MoveRestore(k) => && call.CompleteJob? && call.job == k && k in s.jobs && p.instance == s.jobs[k].params.moveTargetInstance
                           && p.database == s.jobs[k].params.moveTarget && p.backup == s.jobs[k].params.backup
    case VerifyRestore => call.VerifyBackup? && p.verify == Some(call.backup) && AtScratch(s, j, call.backup, call.scratch)
    case CopyRestore => call.OpenCopy? && p.copy == Some(call.copy) && AtScratch(s, j, call.backup, call.scratch)
    case UserDrop => call.DeleteDatabase? && call.physical && p.databaseId == Some(call.database) && AtDatabase(s, j, call.database)
    case MoveDrop(r) => && call.CompleteJob? && call.job == r && r in s.jobs && s.jobs[r].params.moveSource.Some?
                        && p.databaseId == s.jobs[r].params.moveSource && AtDatabase(s, j, s.jobs[r].params.moveSource.value)
    case VerifyDrop => && call.CompleteJob? && call.job in s.jobs && s.jobs[call.job].origin.VerifyRestore?
                       && s.jobs[call.job].status.Open? && SamePlace(j, s.jobs[call.job])
    case CopyDrop => call.DiscardCopy? && p.copy == Some(call.copy) && At(j, call.instance, call.scratch)
  }

  ghost predicate NewPlaced(s: System, s': System, call: Call) {
    forall id :: id in s'.jobs && id !in s.jobs ==> PlacedBy(s, call, s'.jobs[id])
  }

  // ---- One call ------------------------------------------------------------------------------------

  lemma BackupPlaced(s: System, call: Call, database: Id, move: Option<MoveSpec>)
    requires LiveDatabase(s, database) && if move.None? then call == TriggerBackup(database) else call.StartMove? && call.database == database
    ensures NewPlaced(s, Triggered(s, database, move), call)
  {
  }

  lemma ScratchPlaced(s: System, call: Call)
    requires call.VerifyBackup? || call.OpenCopy?
    ensures NewPlaced(s, Do(s, call), call)
  {
  }

  lemma RequestPlaced(s: System, call: Call)
    requires call.AddDatabase? || call.RestoreBackup? || call.ImportSql? || call.DiscardCopy? || call.DeleteDatabase?
    ensures NewPlaced(s, Do(s, call), call)
  {
  }

  /** The state in which the hooks of a completion run: the job is finished and nothing else differs. */
  lemma BackupLegPlaced(s: System, job: Id, ok: bool, luck: Luck)
    requires Inv(s) && job in s.jobs && s.jobs[job].kind.BackupJob?
    ensures NewPlaced(s, CompletedBackup(Finished(s, job, ok), job, ok, luck), CompleteJob(job, ok, luck))
  {
    assert JobOk(s, s.jobs[job]);
  }

  lemma CutoverPlaced(s: System, job: Id, luck: Luck)
    requires Inv(s) && PlacesKept(s) && job in s.jobs && s.jobs[job].kind.RestoreJob?
    requires var p := s.jobs[job].params;
             p.verify.None? && p.copy.None? && p.moveSource.Some? && p.instance.Some?
    ensures NewPlaced(s, CompletedRestore(Finished(s, job, true), job, true, luck), CompleteJob(job, true, luck))
  {
    var p, s1 := s.jobs[job].params, Finished(s, job, true);
    var s2 := if luck.registerFails then s1 else Registered(s1, p.instance.value, p.database, false);
    CutoverIs(s1, job, luck, s2);
    assert JobOk(s, s.jobs[job]);
    SourceThere(s, job);
    assert forall id :: id in s.databases ==> id in s2.databases && s2.databases[id] == s.databases[id];
  }

  /** The source of a move is a database that its backup was of. */
  lemma SourceThere(s: System, job: Id)
    requires Inv(s) && PlacesKept(s) && job in s.jobs && s.jobs[job].origin.MoveRestore?
    ensures s.jobs[job].params.moveSource.Some? && s.jobs[job].params.moveSource.value in s.databases
  {
    assert JobOk(s, s.jobs[job]);
    assert Placed(s, s.jobs[s.jobs[job].origin.backupJob]);
  }

  lemma RestorePlaced(s: System, job: Id, ok: bool, luck: Luck)
    requires Inv(s) && PlacesKept(s) && job in s.jobs && s.jobs[job].kind.RestoreJob? && s.jobs[job].status.Open?
    ensures NewPlaced(s, CompletedRestore(Finished(s, job, ok), job, ok, luck), CompleteJob(job, ok, luck))
  {
    var p := s.jobs[job].params;
    assert JobOk(s, s.jobs[job]);
    if p.verify.None? && p.copy.None? && p.moveSource.Some? && ok && p.instance.Some? {
      CutoverPlaced(s, job, luck);
    }
  }

  lemma CompletionPlaced(s: System, job: Id, ok: bool, luck: Luck)
    requires Inv(s) && PlacesKept(s)
    ensures NewPlaced(s, Completed(s, job, ok, luck), CompleteJob(job, ok, luck))
  {
    CompletedIs(s, job, ok, luck);
    if job in s.jobs && s.jobs[job].status.Open? {
      match s.jobs[job].kind
      case BackupJob => BackupLegPlaced(s, job, ok, luck);
      case RestoreJob => RestorePlaced(s, job, ok, luck);
      case DeleteJob =>
    }
  }

  lemma CallPlaced(s: System, call: Call)
    requires Inv(s) && PlacesKept(s)
    ensures NewPlaced(s, Do(s, call), call)
  {
    match call
    case TriggerBackup(database) => if LiveDatabase(s, database) { BackupPlaced(s, call, database, None); }
    case StartMove(database, spec) =>
      if LiveDatabase(s, database) {
        BackupPlaced(s, call, database, Some(spec.(target := if spec.target == "" then s.databases[database].name else spec.target)));
      }
    case VerifyBackup(_, _) => ScratchPlaced(s, call);
    case OpenCopy(_, _, _) => ScratchPlaced(s, call);
    case CompleteJob(job, ok, luck) => CompletionPlaced(s, job, ok, luck);
    case _ => RequestPlaced(s, call);
  }

  // ---- Every run -----------------------------------------------------------------------------------

  predicate PlacedIn(calls: seq<Call>, j: Job) {
    j.createdAt < |calls| && PlacedBy(After(calls[..j.createdAt]), calls[j.createdAt], j)
  }

  lemma PlacedOn(calls: seq<Call>, n: nat, j: Job)
    requires n + 1 == |calls| && PlacedIn(calls[..n], j)
    ensures PlacedIn(calls, j)
  {
    assert calls[..n][..j.createdAt] == calls[..j.createdAt];
  }

  /** In every run, every job works at the place that the call which created it gave it or stood for. */
  lemma {:induction false} JobsArePlaced(calls: seq<Call>, id: Id)
    requires id in After(calls).jobs
    ensures PlacedIn(calls, After(calls).jobs[id])
    decreases |calls|
  {
    var n := |calls| - 1;
    var s, s' := LastCall(calls, n);
    InvAlways(calls[..n]);
    PlacesAlwaysKept(calls[..n]);
    assert s' == Do(s, calls[n]) by {
      assert After(calls) == Tick(Do(s, calls[n]));
    }
    if id in s.jobs {
      JobsArePlaced(calls[..n], id);
      PlacedOn(calls, n, s.jobs[id]);
      assert MadeBy(s, s', calls[n], id);
    } else {
      CallPlaced(s, calls[n]);
      assert MadeBy(s, s', calls[n], id);
    }
  }

  // ---- Scratch databases ---------------------------------------------------------------------------

  predicate IsScratchJob(j: Job) {
    j.origin.VerifyRestore? || j.origin.CopyRestore? || j.origin.VerifyDrop? || j.origin.CopyDrop?
  }

  /** The scratch name given in a call. */
  function Given(call: Call): Option<Name> {
    match call
    case VerifyBackup(_, scratch) => Some(scratch)
    case OpenCopy(_, _, scratch) => Some(scratch)
    case DiscardCopy(_, _, scratch) => Some(scratch)
    case _ => None
  }

  /** The restore works where the call that asked for a verification says. */
  ghost predicate AsAsked(calls: seq<Call>, r: Job) {
    && r.createdAt < |calls| && calls[r.createdAt].VerifyBackup?
    && AtScratch(After(calls[..r.createdAt]), r, calls[r.createdAt].backup, calls[r.createdAt].scratch)
  }

  // A job there after the first calls is there after all of them, the same but for its end.

  lemma LaterDone(s: System, call: Call, id: Id)
    requires Inv(s) && id in s.jobs
    ensures id in Do(s, call).jobs && Later(s.jobs[id], Do(s, call).jobs[id])
  {
    InvDo(s, call);
  }

  lemma LaterLast(calls: seq<Call>, n: nat, id: Id)
    requires |calls| == n + 1 && id in After(calls[..n]).jobs
    ensures id in After(calls).jobs && Later(After(calls[..n]).jobs[id], After(calls).jobs[id])
  {
    InvAlways(calls[..n]);
    LaterDone(After(calls[..n]), calls[n], id);
  }

  lemma {:induction false} LaterIn(calls: seq<Call>, t: nat, id: Id)
    requires t <= |calls| && id in After(calls[..t]).jobs
    ensures id in After(calls).jobs && Later(After(calls[..t]).jobs[id], After(calls).jobs[id])
    decreases |calls|
  {
    if t == |calls| {
      assert calls[..t] == calls;
    } else {
      var n := |calls| - 1;
      var first := calls[..n];
      assert first[..t] == calls[..t];
      LaterIn(first, t, id);
      LaterLast(calls, n, id);
    }
  }

  lemma CompletesNow(s: System, id: Id, ok: bool, luck: Luck)
    requires Inv(s) && id in s.jobs && s.jobs[id].status.Open?
    ensures id in Completed(s, id, ok, luck).jobs && Completed(s, id, ok, luck).jobs[id].completedAt == Some(s.clock)
    ensures !Completed(s, id, ok, luck).jobs[id].status.Open?
  {
    var s1 := Finished(s, id, ok);
    CompletedIs(s, id, ok, luck);
    InvFinished(s, id, ok);
    InvFollowUp(s1, id, ok, luck);
    assert Later(s1.jobs[id], FollowUp(s1, id, ok, luck).jobs[id]);
  }

  /** A call that completes an open job finishes it at its own time. */
  lemma FinishedThen(calls: seq<Call>, t: nat, next: nat, id: Id)
    requires t < |calls| && next == t + 1 && calls[t].CompleteJob? && calls[t].job == id
    requires id in After(calls[..t]).jobs && After(calls[..t]).jobs[id].status.Open?
    ensures id in After(calls).jobs && After(calls).jobs[id].completedAt == Some(t)
  {
    var first := calls[..next];
    assert first[..t] == calls[..t] && first[t] == calls[t];
    ClockCounts(calls[..t]);
    InvAlways(calls[..t]);
    CompletesNow(After(calls[..t]), id, calls[t].ok, calls[t].luck);
    assert After(first) == Tick(Do(After(calls[..t]), calls[t]));
    LaterIn(calls, next, id);
  }

  lemma RestoreAsAsked(calls: seq<Call>, id: Id)
    requires id in After(calls).jobs && After(calls).jobs[id].origin.VerifyRestore?
    ensures AsAsked(calls, After(calls).jobs[id])
  {
    JobsArePlaced(calls, id);
  }

  lemma CreatedBefore(calls: seq<Call>, t: nat, id: Id)
    requires t <= |calls| && id in After(calls[..t]).jobs
    ensures After(calls[..t]).jobs[id].createdAt < t
  {
    JobsArePlaced(calls[..t], id);
  }

  /** In every run, a verification's drop is of the very place of the verification restore whose completion
      enqueued it: on the instance of the database backed up, under the name given when the verification
      was asked for. */
  lemma VerifyDropsItsScratch(calls: seq<Call>, drop: Id) returns (r: Id)
    requires drop in After(calls).jobs && After(calls).jobs[drop].origin.VerifyDrop?
    ensures r in After(calls).jobs
    ensures var j, v := After(calls).jobs[drop], After(calls).jobs[r];
            && j.createdAt < |calls| && calls[j.createdAt].CompleteJob? && calls[j.createdAt].job == r
            && v.origin.VerifyRestore? && v.createdAt < j.createdAt && v.completedAt == Some(j.createdAt)
            && AsAsked(calls, v) && j.params.instance == v.params.instance && j.params.database == v.params.database
  {
    var j := After(calls).jobs[drop];
    var t := j.createdAt;
    JobsArePlaced(calls, drop);
    r := calls[t].job;
    LaterIn(calls, t, r);
    CreatedBefore(calls, t, r);
    RestoreAsAsked(calls, r);
    FinishedThen(calls, t, t + 1, r);
  }

  predicate ScratchNamesGiven(calls: seq<Call>) {
    forall i :: 0 <= i < |calls| && Given(calls[i]).Some? ==> IsScratchName(Given(calls[i]).value)
  }

  lemma GivenName(calls: seq<Call>, j: Job)
    requires PlacedIn(calls, j) && (j.origin.VerifyRestore? || j.origin.CopyRestore? || j.origin.CopyDrop?)
    ensures Given(calls[j.createdAt]) == Some(j.params.database)
  {
  }

  lemma BearsScratchName(calls: seq<Call>, id: Id)
    requires ScratchNamesGiven(calls) && id in After(calls).jobs && IsScratchJob(After(calls).jobs[id])
    ensures IsScratchName(After(calls).jobs[id].params.database)
  {
    var r := id;
    if After(calls).jobs[id].origin.VerifyDrop? {
      r := VerifyDropsItsScratch(calls, id);
    }
    JobsArePlaced(calls, r);
    GivenName(calls, After(calls).jobs[r]);
  }

  lemma RegisteredName(calls: seq<Call>, d: Id)
    requires d in After(calls).databases
    ensures !IsScratchName(After(calls).databases[d].name)
  {
    PlacesAlwaysKept(calls);
  }

  /** Where the names given are scratch names, no job of a verification or of a copy, a restore or a drop,
      names the place of a database that is or ever was registered. */
  lemma ScratchHitsNoDatabase(calls: seq<Call>, id: Id, d: Id)
    requires ScratchNamesGiven(calls)
    requires id in After(calls).jobs && IsScratchJob(After(calls).jobs[id]) && d in After(calls).databases
    ensures After(calls).jobs[id].params.database != After(calls).databases[d].name
  {
    BearsScratchName(calls, id);
    RegisteredName(calls, d);
  }
}
