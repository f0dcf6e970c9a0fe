/** Backup copies: the guarded updates of their rows (backend/internal/infra/postgres/backupcopy_repository.go)
    and the calls that make them, one step at a time (backend/internal/app/backupcopy/service.go).
    Times are in microseconds. */
module BackupCopies {
  import opened Wrappers

  const SECOND: int := 1_000_000
  const MAX_TTL: int := 24 * 3600 * SECOND
  const STALE_AFTER: int := 15 * 60 * SECOND
  const MAX_DROP_ATTEMPTS: nat := 5
  const DUE_LIMIT: nat := 50

  type Id = nat
  type Job = nat

  datatype Status = Restoring | Ready | Failed | Dropping | Dropped

  datatype Copy = Copy(database: nat, status: Status, job: Option<Job>, dropJob: Option<Job>, attempts: nat, ttl: int,
                       readyAt: Option<int>, expiresAt: Option<int>, updatedAt: int)

  type Rows = map<Id, Copy>

  predicate Live(c: Copy) {
    c.status.Restoring? || c.status.Ready?
  }

  function Rank(s: Status): nat {
    match s case Restoring => 0 case Ready => 1 case Failed => 2 case Dropping => 3 case Dropped => 4
  }

  // ---- Guarded updates -------------------------------------------------------------------------

  datatype Write =
    | SetJob(job: Job)
    | MarkReady(readyAt: int, expiresAt: int)
    | MarkFailed
    | MarkDropping(dropJob: Option<Job>)
    | MarkDropped
    | SetExpiry(expiresAt: int)

  /** The state a write demands of its row. */
  predicate Allows(c: Copy, w: Write) {
    match w
    case SetJob(_) => true
    case MarkReady(_, _) => c.status.Restoring?
    case MarkFailed => Live(c)
    case MarkDropping(_) => !c.status.Dropped?
    case MarkDropped => true
    case SetExpiry(_) => c.status.Ready?
  }

  function Written(c: Copy, w: Write, now: int): Copy {
    var u := c.(updatedAt := now);
    match w
    case SetJob(job) => u.(job := Some(job))
    case MarkReady(readyAt, expiresAt) => u.(status := Ready, readyAt := Some(readyAt), expiresAt := Some(expiresAt))
    case MarkFailed => u.(status := Failed)
    case MarkDropping(dropJob) =>
      u.(status := Dropping, dropJob := if dropJob.Some? then dropJob else c.dropJob,
         attempts := c.attempts + if dropJob.Some? then 1 else 0)
    case MarkDropped => u.(status := Dropped)
    case SetExpiry(expiresAt) => u.(expiresAt := Some(expiresAt))
  }

  /** One statement: the rows afterwards and whether it changed one. */
  function Update(rows: Rows, id: Id, w: Write, now: int): (Rows, bool) {
    if id in rows && Allows(rows[id], w) then (rows[id := Written(rows[id], w, now)], true) else (rows, false)
  }

  predicate HasLive(rows: Rows, database: nat) {
    exists id :: id in rows && rows[id].database == database && Live(rows[id])
  }

  /** The TTL as its column keeps it, in whole seconds. */
  function StoredTtl(ttl: nat): int {
    ttl / SECOND * SECOND
  }

  function NewCopy(database: nat, ttl: nat, now: int): Copy {
    Copy(database, Restoring, None, None, 0, StoredTtl(ttl), None, None, now)
  }

  predicate Due(c: Copy, now: int) {
    match c.status
    case Ready => c.expiresAt.Some? && c.expiresAt.value < now
    case Failed => c.dropJob.None?
    case Dropping => c.updatedAt < now - STALE_AFTER && c.attempts < MAX_DROP_ATTEMPTS
    case _ => false
  }

  /** ListDue: at most DUE_LIMIT due copies, those longest without an update first. */
  predicate DueList(rows: Rows, ids: seq<Id>, now: int) {
    && |ids| <= DUE_LIMIT
    && (forall i :: 0 <= i < |ids| ==> ids[i] in rows && Due(rows[ids[i]], now))
    && (forall i, j :: 0 <= i < j < |ids| ==> ids[i] != ids[j] && rows[ids[i]].updatedAt <= rows[ids[j]].updatedAt)
    && (forall id :: id in rows && Due(rows[id], now) && id !in ids ==>
          |ids| == DUE_LIMIT && forall i :: 0 <= i < |ids| ==> rows[ids[i]].updatedAt <= rows[id].updatedAt)
  }

  class CopyRepository {
    var rows: Rows

    constructor ()
      ensures rows == map[]
    {
      rows := map[];
    }

    /** Inserts a restoring copy unless the database has a live one. */
    method Create(id: Id, database: nat, ttl: nat, now: int) returns (ok: bool)
      requires id !in rows
      modifies this
      ensures ok <==> !HasLive(old(rows), database)
      ensures rows == if ok then old(rows)[id := NewCopy(database, ttl, now)] else old(rows)
    {
      ok := !HasLive(rows, database);
      if ok {
        rows := rows[id := Copy(database, Restoring, None, None, 0, ttl / SECOND * SECOND, None, None, now)];
      }
    }

    method SetJob(id: Id, job: Job, now: int) returns (ok: bool)
      modifies this
      ensures (rows, ok) == Update(old(rows), id, Write.SetJob(job), now)
    {
      ok := id in rows;
      if ok {
        rows := rows[id := rows[id].(job := Some(job), updatedAt := now)];
      }
    }

    method MarkReady(id: Id, readyAt: int, expiresAt: int, now: int) returns (ok: bool)
      modifies this
      ensures (rows, ok) == Update(old(rows), id, Write.MarkReady(readyAt, expiresAt), now)
    {
      ok := id in rows && rows[id].status == Restoring;
      if ok {
        rows := rows[id := rows[id].(status := Ready, readyAt := Some(readyAt), expiresAt := Some(expiresAt), updatedAt := now)];
      }
    }

    method MarkFailed(id: Id, now: int) returns (ok: bool)
      modifies this
      ensures (rows, ok) == Update(old(rows), id, Write.MarkFailed, now)
    {
      ok := id in rows && rows[id].status in {Restoring, Ready};
      if ok {
        rows := rows[id := rows[id].(status := Failed, updatedAt := now)];
      }
    }

    method MarkDropping(id: Id, dropJob: Option<Job>, now: int) returns (ok: bool)
      modifies this
      ensures (rows, ok) == Update(old(rows), id, Write.MarkDropping(dropJob), now)
    {
      ok := id in rows && rows[id].status != Dropped;
      if ok {
        var c := rows[id];
        rows := rows[id := c.(status := Dropping, dropJob := if dropJob.Some? then dropJob else c.dropJob,
                              attempts := c.attempts + (if dropJob.None? then 0 else 1), updatedAt := now)];
      }
    }

    method MarkDropped(id: Id, now: int) returns (ok: bool)
      modifies this
      ensures (rows, ok) == Update(old(rows), id, Write.MarkDropped, now)
    {
      ok := id in rows;
      if ok {
        rows := rows[id := rows[id].(status := Dropped, updatedAt := now)];
      }
    }

    method SetExpiry(id: Id, expiresAt: int, now: int) returns (ok: bool)
      modifies this
      ensures (rows, ok) == Update(old(rows), id, Write.SetExpiry(expiresAt), now)
    {
      ok := id in rows && rows[id].status == Ready;
      if ok {
        rows := rows[id := rows[id].(expiresAt := Some(expiresAt), updatedAt := now)];
      }
    }
  }

  // ---- Calls, step by step -----------------------------------------------------------------------

  /** What is left of a call. Each step is one read, one statement or one job request; what a call
      has read stays as it was read. */
  datatype Stage =
    | Creating(database: nat, ttl: nat)
    | Requesting(id: Id)                                // ask for the restore
    | Linking(id: Id, job: Job)
    | GivingUp(id: Id)                                  // the restore could not be requested: mark failed,
    | Abandoning(id: Id)                                // then dropped
    | Extending(id: Id, ttl: nat)
    | Renewing(id: Id, ttl: nat, readyAt: int)
    | Discarding(id: Id)
    | Deferring(id: Id)                                 // still restoring: drop it once that is over
    | DropRequest(id: Id)
    | DropLink(id: Id, job: Job)
    | Restored(id: Id, ok: bool)                        // the restore job finished
    | RestoreFailed(id: Id)
    | Readying(id: Id, rowTtl: int)
    | DropFinished(id: Id, ok: bool)                    // a drop job finished
    | Expiring
    | ExpireRest(ids: seq<Id>, n: nat)
    | ExpireLink(id: Id, job: Job, ids: seq<Id>, n: nat)
    | Expired(n: nat)                                   // drops started
    | Finished(ok: bool)

  /** What the outside does at a step: the clock, a fresh copy id, the job queue's answer (None: it
      refused), the due list, and whether the database could not be reached. */
  datatype Input = Input(now: int, newId: Id, job: Option<Job>, due: seq<Id>, lost: bool)

  function Exec(rows: Rows, id: Id, w: Write, inp: Input): (Rows, bool) {
    if inp.lost then (rows, false) else Update(rows, id, w, inp.now)
  }

  function Extended(now: int, ttl: nat, readyAt: int): int {
    if now + ttl > readyAt + MAX_TTL then readyAt + MAX_TTL else now + ttl
  }

  /** What a call that read the copy c goes on to do. */
  function AfterRead(c: Copy, stage: Stage): Stage {
    match stage
    case Extending(id, ttl) =>
      if c.status.Ready? && c.readyAt.Some? then Renewing(id, ttl, c.readyAt.value) else Finished(false)
    case Discarding(id) =>
      (match c.status
       case Dropped => Finished(true)
       case Dropping => Finished(true)
       case Restoring => Deferring(id)
       case _ => DropRequest(id))
    case Restored(id, ok) =>
      if !ok then RestoreFailed(id) else if c.status.Dropping? then DropRequest(id) else Readying(id, c.ttl)
    case _ => stage
  }

  function Advance(rows: Rows, stage: Stage, inp: Input): (Rows, Stage) {
    match stage
    case Creating(database, ttl) =>
      if inp.lost || inp.newId in rows || HasLive(rows, database) then (rows, Finished(false))
      else (rows[inp.newId := NewCopy(database, ttl, inp.now)], Requesting(inp.newId))
    case Requesting(id) => (rows, if inp.job.None? then GivingUp(id) else Linking(id, inp.job.value))
    case Linking(id, job) => var (r, ok) := Exec(rows, id, SetJob(job), inp); (r, Finished(ok))
    case GivingUp(id) => (Exec(rows, id, MarkFailed, inp).0, Abandoning(id))
    case Abandoning(id) => (Exec(rows, id, MarkDropped, inp).0, Finished(false))
    case Extending(id, _) => (rows, if inp.lost || id !in rows then Finished(false) else AfterRead(rows[id], stage))
    case Renewing(id, ttl, readyAt) =>
      var (r, ok) := Exec(rows, id, SetExpiry(Extended(inp.now, ttl, readyAt)), inp); (r, Finished(ok))
    case Discarding(id) => (rows, if inp.lost || id !in rows then Finished(false) else AfterRead(rows[id], stage))
    case Deferring(id) => var (r, ok) := Exec(rows, id, MarkDropping(None), inp); (r, Finished(ok))
    case DropRequest(id) => (rows, if inp.job.None? then Finished(false) else DropLink(id, inp.job.value))
    case DropLink(id, job) => var (r, ok) := Exec(rows, id, MarkDropping(Some(job)), inp); (r, Finished(ok))
    case Restored(id, _) => (rows, if inp.lost || id !in rows then Finished(false) else AfterRead(rows[id], stage))
    case RestoreFailed(id) => (Exec(rows, id, MarkFailed, inp).0, DropRequest(id))
    case Readying(id, ttl) =>
      var (r, ok) := Exec(rows, id, MarkReady(inp.now, inp.now + ttl), inp); (r, Finished(ok))
    case DropFinished(id, ok) => if ok then (Exec(rows, id, MarkDropped, inp).0, Finished(true)) else (rows, Finished(true))
    case Expiring => (rows, if inp.lost then Finished(false) else ExpireRest(inp.due, 0))
    case ExpireRest(ids, n) =>
      (rows, if ids == [] then Expired(n)
             else if inp.job.None? then ExpireRest(ids[1..], n) else ExpireLink(ids[0], inp.job.value, ids[1..], n))
    case ExpireLink(id, job, ids, n) =>
      var (r, ok) := Exec(rows, id, MarkDropping(Some(job)), inp); (r, ExpireRest(ids, if ok then n + 1 else n))
    case _ => (rows, stage)
  }

  predicate Over(stage: Stage) {
    stage.Finished? || stage.Expired?
  }

  /** A call that nothing interrupts, with the outside's part in each of its steps. */
  function Alone(rows: Rows, stage: Stage, inputs: seq<Input>): (Rows, Stage)
    decreases |inputs|
  {
    if inputs == [] || Over(stage) then (rows, stage)
    else
      var (r, next) := Advance(rows, stage, inputs[0]);
      Alone(r, next, inputs[1..])
  }

  lemma AloneStep(rows: Rows, stage: Stage, inputs: seq<Input>, k: nat)
    requires k < |inputs| && !Over(stage)
    ensures Alone(rows, stage, inputs[k..])
         == Alone(Advance(rows, stage, inputs[k]).0, Advance(rows, stage, inputs[k]).1, inputs[k + 1..])
  {
    assert inputs[k..][0] == inputs[k] && inputs[k..][1..] == inputs[k + 1..];
  }

  lemma AloneNext(rows: Rows, stage: Stage, inputs: seq<Input>, k: nat, next: nat)
    requires k < |inputs| && !Over(stage) && next == k + 1
    ensures Alone(rows, stage, inputs[k..])
         == Alone(Advance(rows, stage, inputs[k]).0, Advance(rows, stage, inputs[k]).1, inputs[next..])
  {
    AloneStep(rows, stage, inputs, k);
  }

  /** The service's calls (backend/internal/app/backupcopy/service.go). inputs[k] is the outside's part
      in a call's step k. */
  class Service {
    const copies: CopyRepository
    const ttl: nat

    constructor (copies: CopyRepository, ttl: nat)
      ensures this.copies == copies && this.ttl == ttl
    {
      this.copies, this.ttl := copies, ttl;
    }

    method Create(database: nat, inputs: seq<Input>) returns (ok: bool)
      requires |inputs| == 4 && inputs[0].newId !in copies.rows
      modifies copies
      ensures (copies.rows, Finished(ok)) == Alone(old(copies.rows), Creating(database, ttl), inputs[0..])
      ensures ok ==> && !HasLive(old(copies.rows), database) && inputs[1].job.Some?
                     && copies.rows == old(copies.rows)[inputs[0].newId :=
                          NewCopy(database, ttl, inputs[0].now).(job := inputs[1].job, updatedAt := inputs[2].now)]
      ensures !ok ==> inputs[0].newId in copies.rows ==> inputs[2].lost || !Live(copies.rows[inputs[0].newId])
    {
      var id := inputs[0].newId;
      AloneStep(copies.rows, Creating(database, ttl), inputs, 0);
      ok := false;
      if !inputs[0].lost {
        ok := copies.Create(id, database, ttl, inputs[0].now);
      }
      if !ok {
        return;
      }
      AloneStep(copies.rows, Requesting(id), inputs, 1);
      if inputs[1].job.None? {
        AloneStep(copies.rows, GivingUp(id), inputs, 2);
        if !inputs[2].lost {
          var _ := copies.MarkFailed(id, inputs[2].now);
        }
        AloneStep(copies.rows, Abandoning(id), inputs, 3);
        if !inputs[3].lost {
          var _ := copies.MarkDropped(id, inputs[3].now);
        }
        return false;
      }
      AloneStep(copies.rows, Linking(id, inputs[1].job.value), inputs, 2);
      ok := false;
      if !inputs[2].lost {
        ok := copies.SetJob(id, inputs[1].job.value, inputs[2].now);
      }
    }

    /** Keeps a ready copy for another TTL from now, up to MAX_TTL after it became ready. */
    method Extend(id: Id, inputs: seq<Input>) returns (ok: bool)
      requires |inputs| == 2
      modifies copies
      ensures (copies.rows, Finished(ok)) == Alone(old(copies.rows), Extending(id, ttl), inputs[0..])
      ensures ok ==> && id in copies.rows && copies.rows[id].status.Ready? && copies.rows[id].readyAt.Some?
                     && var ready, e := copies.rows[id].readyAt.value, copies.rows[id].expiresAt;
                        && (e == Some(inputs[1].now + ttl) || e == Some(ready + MAX_TTL))
                        && e.value <= inputs[1].now + ttl && e.value <= ready + MAX_TTL
    {
      AloneStep(copies.rows, Extending(id, ttl), inputs, 0);
      if inputs[0].lost || id !in copies.rows {
        return false;
      }
      var c := copies.rows[id];
      if c.status != Ready || c.readyAt.None? {
        return false;
      }
      AloneStep(copies.rows, Renewing(id, ttl, c.readyAt.value), inputs, 1);
      var at := inputs[1].now + ttl;
      var limit := c.readyAt.value + MAX_TTL;
      if at > limit {
        at := limit;
      }
      ok := false;
      if !inputs[1].lost {
        ok := copies.SetExpiry(id, at, inputs[1].now);
      }
    }

    method Drop(id: Id, inputs: seq<Input>, k: nat) returns (ok: bool)
      requires k + 2 <= |inputs|
      modifies copies
      ensures (copies.rows, Finished(ok)) == Alone(old(copies.rows), DropRequest(id), inputs[k..])
      ensures ok ==> id in copies.rows && copies.rows[id].status.Dropping?
    {
      AloneStep(copies.rows, DropRequest(id), inputs, k);
      if inputs[k].job.None? {
        return false;
      }
      AloneStep(copies.rows, DropLink(id, inputs[k].job.value), inputs, k + 1);
      ok := false;
      if !inputs[k + 1].lost {
        ok := copies.MarkDropping(id, inputs[k].job, inputs[k + 1].now);
      }
    }

    /** Drops a copy now, or as soon as its restore is over. */
    method Discard(id: Id, inputs: seq<Input>) returns (ok: bool)
      requires |inputs| == 3
      modifies copies
      ensures (copies.rows, Finished(ok)) == Alone(old(copies.rows), Discarding(id), inputs[0..])
      ensures ok ==> id in copies.rows && Rank(copies.rows[id].status) >= Rank(Dropping)
    {
      AloneStep(copies.rows, Discarding(id), inputs, 0);
      if inputs[0].lost || id !in copies.rows {
        return false;
      }
      match copies.rows[id].status {
        case Dropped => return true;
        case Dropping => return true;
        case Restoring =>
          AloneStep(copies.rows, Deferring(id), inputs, 1);
          ok := false;
          if !inputs[1].lost {
            ok := copies.MarkDropping(id, None, inputs[1].now);
          }
          return;
        case _ =>
      }
      ok := Drop(id, inputs, 1);
    }

    /** The restore job of a copy finished. */
    method OnCopyRestored(id: Id, restored: bool, inputs: seq<Input>) returns (ok: bool)
      requires |inputs| == 4
      modifies copies
      ensures (copies.rows, Finished(ok)) == Alone(old(copies.rows), Restored(id, restored), inputs[0..])
      ensures ok ==> id in old(copies.rows) && id in copies.rows
      ensures ok && restored && old(copies.rows)[id].status.Restoring? ==>
                && copies.rows[id].status.Ready? && copies.rows[id].readyAt.Some?
                && copies.rows[id].expiresAt == Some(copies.rows[id].readyAt.value + copies.rows[id].ttl)
    {
      AloneStep(copies.rows, Restored(id, restored), inputs, 0);
      if inputs[0].lost || id !in copies.rows {
        return false;
      }
      var c := copies.rows[id];
      if c.status == Dropping || !restored {
        var k := 1;
        if !restored {
          AloneStep(copies.rows, RestoreFailed(id), inputs, 1);
          if !inputs[1].lost {
            var _ := copies.MarkFailed(id, inputs[1].now);
          }
          k := 2;
        }
        ok := Drop(id, inputs, k);
        return;
      }
      AloneStep(copies.rows, Readying(id, c.ttl), inputs, 1);
      var now := inputs[1].now;
      ok := false;
      if !inputs[1].lost {
        ok := copies.MarkReady(id, now, now + c.ttl, now);
      }
    }

    method OnCopyDropped(id: Id, dropped: bool, inputs: seq<Input>)
      requires |inputs| == 1
      modifies copies
      ensures (copies.rows, Finished(true)) == Alone(old(copies.rows), DropFinished(id, dropped), inputs[0..])
    {
      AloneStep(copies.rows, DropFinished(id, dropped), inputs, 0);
      if !dropped {
        return;
      }
      if !inputs[0].lost {
        var _ := copies.MarkDropped(id, inputs[0].now);
      }
    }

    /** One due copy of an expiry pass. */
    method ExpireOne(id: Id, rest: seq<Id>, n: nat, inputs: seq<Input>, k: nat) returns (drops: nat, next: nat)
      requires k + 2 <= |inputs|
      modifies copies
      ensures next <= k + 2 && copies.rows.Keys == old(copies.rows).Keys
      ensures forall other :: other in copies.rows && other != id ==> copies.rows[other] == old(copies.rows)[other]
      ensures Alone(old(copies.rows), ExpireRest([id] + rest, n), inputs[k..]) == Alone(copies.rows, ExpireRest(rest, drops), inputs[next..])
    {
      var job := inputs[k].job;
      drops, next := n, k + 1;
      assert ([id] + rest)[1..] == rest;
      AloneNext(copies.rows, ExpireRest([id] + rest, n), inputs, k, next);
      if job.None? {
        return;
      }
      var at := next;
      next := at + 1;
      AloneNext(copies.rows, ExpireLink(id, job.value, rest, n), inputs, at, next);
      var ok := false;
      if !inputs[at].lost {
        ok := copies.MarkDropping(id, job, inputs[at].now);
      }
      if ok {
        drops := n + 1;
      }
    }

    /** Starts dropping everything that is due; returns how many drops it started. */
    method ExpireDue(inputs: seq<Input>) returns (r: Result<nat, ()>)
      requires |inputs| > 0 && |inputs| >= 2 + 2 * |inputs[0].due|
      modifies copies
      ensures (copies.rows, if r.Ok? then Expired(r.value) else Finished(false)) == Alone(old(copies.rows), Expiring, inputs[0..])
      ensures r.Err? <==> inputs[0].lost
      ensures copies.rows.Keys == old(copies.rows).Keys
      ensures forall id :: id in copies.rows && (inputs[0].lost || id !in inputs[0].due) ==> copies.rows[id] == old(copies.rows)[id]
    {
      ghost var whole := Alone(copies.rows, Expiring, inputs[0..]);
      AloneStep(copies.rows, Expiring, inputs, 0);
      if inputs[0].lost {
        return Err(());
      }
      var due := inputs[0].due;
      var n: nat, k: nat := 0, 1;
      for i := 0 to |due|
        invariant k <= 1 + 2 * i
        invariant Alone(copies.rows, ExpireRest(due[i..], n), inputs[k..]) == whole
        invariant copies.rows.Keys == old(copies.rows).Keys
        invariant forall id :: id in copies.rows && id !in due ==> copies.rows[id] == old(copies.rows)[id]
      {
        assert due[i..] == [due[i]] + due[i + 1..];
        n, k := ExpireOne(due[i], due[i + 1..], n, inputs, k);
      }
      AloneStep(copies.rows, ExpireRest(due[|due|..], n), inputs, k);
      r := Ok(n);
    }
  }
}
