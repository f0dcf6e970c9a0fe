/** Backup copies in every interleaving of calls: creates, extensions, discards, expiry passes and the
    callbacks of finished jobs, each stopped between any two of its steps. */
module BackupCopyRuns {
  import opened Wrappers
  import opened BackupCopies

  type Caller = nat

  datatype Task = RestoreTask(id: Id) | DropTask(id: Id)

  /** jobs are the requested jobs that have not finished; scratch, the copies whose temporary database
      exists; restored and dropsAsked, the copies whose restore succeeded and whose drop was ever requested;
      made, those whose restore, succeeded or not, left a temporary database. */
  datatype System = System(rows: Rows, calls: map<Caller, Stage>, jobs: map<Job, Task>, scratch: set<Id>,
                           restored: set<Id>, dropsAsked: set<Id>, made: set<Id>)

  predicate Start(s: System) {
    s == System(map[], map[], map[], {}, {}, {}, {})
  }

  /** Someone calls the service, or the expiry pass begins. */
  predicate BeginStep(s: System, s': System, p: Caller, stage: Stage) {
    && p !in s.calls
    && (stage.Creating? || stage.Extending? || stage.Discarding? || stage.Expiring?)
    && s' == s.(calls := s.calls[p := stage])
  }

  /** The job a stage requests when the queue takes it. */
  function Requested(stage: Stage): Option<Task> {
    match stage
    case Requesting(id) => Some(RestoreTask(id))
    case DropRequest(id) => Some(DropTask(id))
    case ExpireRest(ids, _) => if ids == [] then None else Some(DropTask(ids[0]))
    case _ => None
  }

  /** A call takes its next step. Fresh ids are fresh, and a due list is one of the rows as they are. */
  predicate CallStep(s: System, s': System, p: Caller, inp: Input) {
    && p in s.calls
    && var stage := s.calls[p];
       && (stage.Creating? ==> inp.newId !in s.rows)
       && (stage.Expiring? && !inp.lost ==> DueList(s.rows, inp.due, inp.now))
       && (inp.job.Some? ==> inp.job.value !in s.jobs)
       && var (rows, next) := Advance(s.rows, stage, inp);
          var task := Requested(stage);
          s' == s.(rows := rows, calls := s.calls[p := next],
                   jobs := if task.Some? && inp.job.Some? then s.jobs[inp.job.value := task.value] else s.jobs,
                   dropsAsked := if task.Some? && inp.job.Some? && task.value.DropTask? then s.dropsAsked + {task.value.id}
                                 else s.dropsAsked)
  }

  /** A job finishes, once, and its callback begins. A restore creates its database first, so that one that
      fails may leave it (partly), and a drop that fails may have dropped it. */
  predicate JobStep(s: System, s': System, p: Caller, job: Job, ok: bool, partly: bool) {
    && p !in s.calls && job in s.jobs
    && match s.jobs[job]
       case RestoreTask(id) =>
         s' == s.(jobs := s.jobs - {job}, calls := s.calls[p := Restored(id, ok)],
                  scratch := if ok || partly then s.scratch + {id} else s.scratch,
                  made := if ok || partly then s.made + {id} else s.made,
                  restored := if ok then s.restored + {id} else s.restored)
       case DropTask(id) =>
         s' == s.(jobs := s.jobs - {job}, calls := s.calls[p := DropFinished(id, ok)],
                  scratch := if ok || partly then s.scratch - {id} else s.scratch)
  }

  ghost predicate Next(s: System, s': System) {
    || (exists p, stage :: BeginStep(s, s', p, stage))
    || (exists p, inp :: CallStep(s, s', p, inp))
    || (exists p, job, ok, partly :: JobStep(s, s', p, job, ok, partly))
  }

  ghost predicate StepAt(trace: seq<System>, i: nat) {
    i + 1 < |trace| && Next(trace[i], trace[i + 1])
  }

  ghost predicate Run(trace: seq<System>) {
    trace != [] && Start(trace[0]) && forall i: nat :: i + 1 < |trace| ==> StepAt(trace, i)
  }

  // ---- What every step keeps ---------------------------------------------------------------------

  function Longer(a: int, b: int): int {
    if a < b then b else a
  }

  predicate RowOk(c: Copy) {
    && (Rank(c.status) < Rank(Dropping) ==> c.dropJob.None? && c.attempts == 0)
    && (c.status.Restoring? ==> c.readyAt.None?)
    && (c.status.Ready? ==> c.readyAt.Some? && c.expiresAt.Some?)
    && (c.expiresAt.Some? ==> c.readyAt.Some? && c.expiresAt.value <= c.readyAt.value + Longer(c.ttl, MAX_TTL))
  }

  predicate RowsOk(rows: Rows) {
    forall id :: id in rows ==> RowOk(rows[id])
  }

  predicate OneLive(rows: Rows) {
    forall a, b :: a in rows && b in rows && Live(rows[a]) && Live(rows[b]) && rows[a].database == rows[b].database ==> a == b
  }

  /** What a call has read still holds. */
  predicate CallOk(rows: Rows, restored: set<Id>, stage: Stage) {
    match stage
    case Renewing(id, _, readyAt) => id in rows && rows[id].readyAt == Some(readyAt)
    case Restored(id, ok) => ok ==> id in restored
    case Readying(id, ttl) => id in rows && rows[id].ttl == ttl && id in restored
    case _ => true
  }

  /** Rows only move up, and keep what never changes. */
  predicate Above(c: Copy, c': Copy) {
    && Rank(c.status) <= Rank(c'.status) && c'.database == c.database && c'.ttl == c.ttl
    && (c.readyAt.Some? ==> c'.readyAt == c.readyAt)
    && (Rank(c.status) > Rank(Restoring) ==> c'.readyAt == c.readyAt)
  }

  predicate Upward(rows: Rows, rows': Rows) {
    forall id :: id in rows ==> id in rows' && Above(rows[id], rows'[id])
  }

  /** A copy becomes ready only with its restored database, and no drop is asked of it before. */
  predicate Backed(s: System) {
    && (forall id :: id in s.rows && s.rows[id].status.Ready? ==> id in s.restored)
    && (forall id :: id in s.restored ==> id in s.scratch || id in s.dropsAsked)
    && (forall job :: job in s.jobs && s.jobs[job].DropTask? ==> s.jobs[job].id in s.dropsAsked)
  }

  predicate Inv(s: System) {
    && RowsOk(s.rows) && OneLive(s.rows) && Backed(s)
    && forall p :: p in s.calls ==> CallOk(s.rows, s.restored, s.calls[p])
  }

  lemma WriteKeepsRow(c: Copy, w: Write, now: int)
    requires RowOk(c) && Allows(c, w)
    requires w.MarkReady? ==> w.expiresAt <= w.readyAt + Longer(c.ttl, MAX_TTL)
    requires w.SetExpiry? ==> c.readyAt.Some? && w.expiresAt <= c.readyAt.value + Longer(c.ttl, MAX_TTL)
    ensures RowOk(Written(c, w, now)) && Above(c, Written(c, w, now))
    ensures Live(Written(c, w, now)) ==> Live(c)
    ensures Written(c, w, now).status.Ready? ==> w.MarkReady? || c.status.Ready?
  {
  }

  /** What a stage writes, if anything, to which row. */
  function WriteOf(stage: Stage, now: int): Option<(Id, Write)> {
    match stage
    case Linking(id, job) => Some((id, SetJob(job)))
    case GivingUp(id) => Some((id, MarkFailed))
    case Abandoning(id) => Some((id, MarkDropped))
    case Renewing(id, ttl, readyAt) => Some((id, SetExpiry(Extended(now, ttl, readyAt))))
    case Deferring(id) => Some((id, MarkDropping(None)))
    case DropLink(id, job) => Some((id, MarkDropping(Some(job))))
    case RestoreFailed(id) => Some((id, MarkFailed))
    case Readying(id, ttl) => Some((id, MarkReady(now, now + ttl)))
    case DropFinished(id, ok) => if ok then Some((id, MarkDropped)) else None
    case ExpireLink(id, job, _, _) => Some((id, MarkDropping(Some(job))))
    case _ => None
  }

  /** A step writes one row, inserts one, or changes no row. */
  lemma AdvanceWrites(rows: Rows, stage: Stage, inp: Input)
    ensures var rows' := Advance(rows, stage, inp).0;
            var w := WriteOf(stage, inp.now);
            rows' == if stage.Creating? && !inp.lost && inp.newId !in rows && !HasLive(rows, stage.database)
                     then rows[inp.newId := NewCopy(stage.database, stage.ttl, inp.now)]
                     else if w.Some? then Exec(rows, w.value.0, w.value.1, inp).0
                     else rows
  {
  }

  lemma WriteKeeps(rows: Rows, restored: set<Id>, stage: Stage, inp: Input)
    requires RowsOk(rows) && OneLive(rows) && CallOk(rows, restored, stage) && WriteOf(stage, inp.now).Some?
    requires forall id :: id in rows && rows[id].status.Ready? ==> id in restored
    ensures var rows' := Advance(rows, stage, inp).0;
            && RowsOk(rows') && OneLive(rows') && Upward(rows, rows')
            && (forall id :: id in rows' && rows'[id].status.Ready? ==> id in restored)
  {
    AdvanceWrites(rows, stage, inp);
    var (id, w) := WriteOf(stage, inp.now).value;
    if !inp.lost && id in rows && Allows(rows[id], w) {
      WriteKeepsRow(rows[id], w, inp.now);
    }
  }

  lemma InsertKeeps(rows: Rows, restored: set<Id>, stage: Stage, inp: Input)
    requires RowsOk(rows) && OneLive(rows) && WriteOf(stage, inp.now).None?
    requires forall id :: id in rows && rows[id].status.Ready? ==> id in restored
    ensures var rows' := Advance(rows, stage, inp).0;
            && RowsOk(rows') && OneLive(rows') && Upward(rows, rows')
            && (forall id :: id in rows' && rows'[id].status.Ready? ==> id in restored)
  {
    AdvanceWrites(rows, stage, inp);
  }

  lemma RowsKeep(rows: Rows, restored: set<Id>, stage: Stage, inp: Input)
    requires RowsOk(rows) && OneLive(rows) && CallOk(rows, restored, stage)
    requires forall id :: id in rows && rows[id].status.Ready? ==> id in restored
    ensures var rows' := Advance(rows, stage, inp).0;
            && RowsOk(rows') && OneLive(rows') && Upward(rows, rows')
            && (forall id :: id in rows' && rows'[id].status.Ready? ==> id in restored)
  {
    if WriteOf(stage, inp.now).Some? {
      WriteKeeps(rows, restored, stage, inp);
    } else {
      InsertKeeps(rows, restored, stage, inp);
    }
  }

  lemma CallOkUpward(rows: Rows, rows': Rows, restored: set<Id>, stage: Stage)
    requires RowsOk(rows) && Upward(rows, rows') && CallOk(rows, restored, stage)
    ensures CallOk(rows', restored, stage)
  {
  }

  lemma NextStageOk(rows: Rows, restored: set<Id>, stage: Stage, inp: Input)
    requires RowsOk(rows) && CallOk(rows, restored, stage)
    ensures CallOk(rows, restored, Advance(rows, stage, inp).1)
  {
  }

  lemma CallKeeps(s: System, s': System, p: Caller, inp: Input)
    requires Inv(s) && CallStep(s, s', p, inp)
    ensures Inv(s') && Upward(s.rows, s'.rows)
  {
    var stage := s.calls[p];
    RowsKeep(s.rows, s.restored, stage, inp);
    NextStageOk(s.rows, s.restored, stage, inp);
    forall q | q in s'.calls ensures CallOk(s'.rows, s'.restored, s'.calls[q]) {
      CallOkUpward(s.rows, s'.rows, s.restored, s'.calls[q]);
    }
  }

  lemma JobKeeps(s: System, s': System, p: Caller, job: Job, ok: bool, partly: bool)
    requires Inv(s) && JobStep(s, s', p, job, ok, partly)
    ensures Inv(s') && Upward(s.rows, s'.rows)
  {
    forall q | q in s'.calls ensures CallOk(s'.rows, s'.restored, s'.calls[q]) {
      assert q != p ==> q in s.calls && CallOk(s.rows, s.restored, s.calls[q]);
    }
  }

  lemma NextKeeps(s: System, s': System)
    requires Inv(s) && Next(s, s')
    ensures Inv(s') && Upward(s.rows, s'.rows)
  {
    if p, inp :| CallStep(s, s', p, inp) {
      CallKeeps(s, s', p, inp);
    } else if p, job, ok, partly :| JobStep(s, s', p, job, ok, partly) {
      JobKeeps(s, s', p, job, ok, partly);
    }
  }

  lemma {:induction false} RunKeeps(trace: seq<System>, n: nat)
    requires Run(trace) && n < |trace|
    ensures Inv(trace[n])
  {
    if n > 0 {
      RunKeeps(trace, n - 1);
      assert StepAt(trace, n - 1);
      NextKeeps(trace[n - 1], trace[n]);
    }
  }

  lemma StepMovesUp(trace: seq<System>, n: nat)
    requires Run(trace) && n + 1 < |trace|
    ensures Upward(trace[n].rows, trace[n + 1].rows)
  {
    RunKeeps(trace, n);
    assert StepAt(trace, n);
    NextKeeps(trace[n], trace[n + 1]);
  }

  lemma UpwardTransitive(a: Rows, b: Rows, c: Rows)
    requires Upward(a, b) && Upward(b, c)
    ensures Upward(a, c)
  {
    forall id | id in a ensures id in c && Above(a[id], c[id]) {
      assert Above(a[id], b[id]) && Above(b[id], c[id]);
    }
  }

  lemma {:induction false} RunMovesUp(trace: seq<System>, m: nat, n: nat)
    requires Run(trace) && m <= n < |trace|
    ensures Upward(trace[m].rows, trace[n].rows)
    decreases n
  {
    if m < n {
      RunMovesUp(trace, m, n - 1);
      StepMovesUp(trace, n - 1);
      UpwardTransitive(trace[m].rows, trace[n - 1].rows, trace[n].rows);
    }
  }

  // ---- Over every run ------------------------------------------------------------------------------

  /** A copy's status only ever moves up, so one that is dropping never becomes ready. */
  lemma StatusOnlyRises(trace: seq<System>, m: nat, n: nat, id: Id)
    requires Run(trace) && m <= n < |trace| && id in trace[m].rows
    ensures id in trace[n].rows && Rank(trace[m].rows[id].status) <= Rank(trace[n].rows[id].status)
    ensures Rank(trace[m].rows[id].status) >= Rank(Dropping) ==> !Live(trace[n].rows[id])
  {
    RunMovesUp(trace, m, n);
  }

  lemma OneLivePerDatabase(trace: seq<System>, n: nat, a: Id, b: Id)
    requires Run(trace) && n < |trace|
    requires a in trace[n].rows && b in trace[n].rows && Live(trace[n].rows[a]) && Live(trace[n].rows[b])
    ensures trace[n].rows[a].database == trace[n].rows[b].database ==> a == b
  {
    RunKeeps(trace, n);
  }

  /** A failed copy has no drop job, so every expiry pass finds it due. */
  lemma FailedStaysDue(trace: seq<System>, n: nat, id: Id, now: int)
    requires Run(trace) && n < |trace| && id in trace[n].rows && trace[n].rows[id].status.Failed?
    ensures Due(trace[n].rows[id], now)
  {
    RunKeeps(trace, n);
  }

  /** However often it is extended, a copy expires within the longer of its TTL and MAX_TTL of becoming ready. */
  lemma ExpiryIsBounded(trace: seq<System>, n: nat, id: Id)
    requires Run(trace) && n < |trace| && id in trace[n].rows && trace[n].rows[id].expiresAt.Some?
    ensures var c := trace[n].rows[id];
            c.readyAt.Some? && c.expiresAt.value <= c.readyAt.value + Longer(c.ttl, MAX_TTL)
  {
    RunKeeps(trace, n);
  }

  /** A ready copy's temporary database exists, unless a drop of it was already requested. */
  lemma ReadyIsBacked(trace: seq<System>, n: nat, id: Id)
    requires Run(trace) && n < |trace| && id in trace[n].rows && trace[n].rows[id].status.Ready?
    ensures id in trace[n].scratch || id in trace[n].dropsAsked
  {
    RunKeeps(trace, n);
  }

  predicate DiscardStage(stage: Stage, id: Id) {
    stage == Discarding(id) || stage == Deferring(id) || (stage.DropLink? && stage.id == id)
  }

  lemma DiscardEnds(rows: Rows, stage: Stage, inp: Input, id: Id)
    requires DiscardStage(stage, id) && Advance(rows, stage, inp).1 == Finished(true)
    ensures var rows' := Advance(rows, stage, inp).0;
            id in rows' && Rank(rows'[id].status) >= Rank(Dropping)
  {
  }

  /** A discard that reports success leaves the copy dropping or dropped for good. */
  lemma DiscardSticks(trace: seq<System>, m: nat, n: nat, p: Caller, inp: Input, id: Id)
    requires Run(trace) && m < n < |trace| && CallStep(trace[m], trace[m + 1], p, inp)
    requires DiscardStage(trace[m].calls[p], id) && trace[m + 1].calls[p] == Finished(true)
    ensures id in trace[n].rows && Rank(trace[n].rows[id].status) >= Rank(Dropping)
  {
    DiscardEnds(trace[m].rows, trace[m].calls[p], inp, id);
    StatusOnlyRises(trace, m + 1, n, id);
  }
}
