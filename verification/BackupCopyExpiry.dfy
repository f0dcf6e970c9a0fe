/** Which backup copies the expiry passes drop, over every run: those that the pass found expired, failed
    or stalled, and no others (backend/internal/app/backupcopy/service.go, ExpireDue). */
module BackupCopyExpiry {
  import opened Wrappers
  import opened BackupCopies
  import opened BackupCopyRuns
  import opened BackupCopyLeaks

  // ---- One listing -------------------------------------------------------------------------------

  /** What a pass that lists at now may find a copy to be: expired, failed, or dropping for too long. */
  predicate Expirable(c: Copy, now: int) {
    && (c.status.Ready? || c.status.Failed? || c.status.Dropping?)
    && (c.status.Ready? ==> c.expiresAt.Some? && c.expiresAt.value < now)
    && (c.status.Dropping? ==> c.updatedAt < now - STALE_AFTER && c.attempts < MAX_DROP_ATTEMPTS)
  }

  /** The call lists at this step, at the time now. */
  ghost predicate ListsAt(trace: seq<System>, m: nat, p: Caller, now: int) {
    && m + 1 < |trace|
    && exists inp :: CallStep(trace[m], trace[m + 1], p, inp) && trace[m].calls[p].Expiring? && !inp.lost && inp.now == now
  }

  /** The copies that a pass is still to drop. */
  predicate ToDrop(stage: Stage, id: Id) {
    match stage
    case ExpireRest(ids, _) => id in ids
    case ExpireLink(i, _, ids, _) => id == i || id in ids
    case _ => false
  }

  /** In every run, a pass lists exactly the copies that are expired, failed, or dropping for too long with
      tries left; if they are more than DUE_LIMIT, those longest without an update. */
  lemma ListedIff(trace: seq<System>, m: nat, p: Caller, now: int, id: Id)
    requires Run(trace) && ListsAt(trace, m, p, now) && id in trace[m].rows
    ensures p in trace[m + 1].calls && trace[m + 1].calls[p].ExpireRest?
    ensures var ids, c := trace[m + 1].calls[p].ids, trace[m].rows[id];
            && (id in ids ==> Expirable(c, now))
            && (Expirable(c, now) && id !in ids ==>
                  |ids| == DUE_LIMIT && forall i :: i in ids ==> i in trace[m].rows && trace[m].rows[i].updatedAt <= c.updatedAt)
  {
    RunKeeps(trace, m);
    var inp :| CallStep(trace[m], trace[m + 1], p, inp) && trace[m].calls[p].Expiring? && !inp.lost && inp.now == now;
    assert RowOk(trace[m].rows[id]);
    assert Due(trace[m].rows[id], now) <==> Expirable(trace[m].rows[id], now);
  }

  /** In particular a ready copy past its expiry is listed by the next pass, and one that is not is left alone. */
  lemma ReadyListedIff(trace: seq<System>, m: nat, p: Caller, now: int, id: Id)
    requires Run(trace) && ListsAt(trace, m, p, now) && id in trace[m].rows && trace[m].rows[id].status.Ready?
    ensures p in trace[m + 1].calls && trace[m + 1].calls[p].ExpireRest? && trace[m].rows[id].expiresAt.Some?
    ensures |trace[m + 1].calls[p].ids| < DUE_LIMIT ==>
              (id in trace[m + 1].calls[p].ids <==> trace[m].rows[id].expiresAt.value < now)
  {
    RunKeeps(trace, m);
    assert RowOk(trace[m].rows[id]);
    ListedIff(trace, m, p, now, id);
  }

  // ---- From the listing to the drop ----------------------------------------------------------------

  /** An earlier step of the call listed the copy, as expired, failed or stalled then. */
  ghost predicate ListedBy(trace: seq<System>, n: nat, p: Caller, id: Id) {
    exists m: nat, now :: m < n && ListsAt(trace, m, p, now) && id in trace[m].rows && Expirable(trace[m].rows[id], now)
  }

  lemma ListedLater(trace: seq<System>, n: nat, next: nat, p: Caller, id: Id)
    requires ListedBy(trace, n, p, id) && n <= next
    ensures ListedBy(trace, next, p, id)
  {
    var m: nat, now :| m < n && ListsAt(trace, m, p, now) && id in trace[m].rows && Expirable(trace[m].rows[id], now);
    assert m < next;
  }

  lemma ListedNow(trace: seq<System>, m: nat, n: nat, p: Caller, inp: Input, id: Id)
    requires Run(trace) && n == m + 1 && n < |trace| && CallStep(trace[m], trace[n], p, inp) && trace[m].calls[p].Expiring?
    requires ToDrop(trace[n].calls[p], id)
    ensures ListedBy(trace, n, p, id)
  {
    RunKeeps(trace, m);
    assert ListsAt(trace, m, p, inp.now);
    assert id in inp.due && id in trace[m].rows && RowOk(trace[m].rows[id]);
  }

  lemma ToDropBefore(rows: Rows, stage: Stage, inp: Input, id: Id)
    requires ToDrop(Advance(rows, stage, inp).1, id)
    ensures stage.Expiring? || ToDrop(stage, id)
  {
  }

  /** Whatever a pass is to drop at the next step, it is at this one, or lists now. */
  lemma StepToDrop(s: System, s': System, p: Caller, id: Id)
    requires Next(s, s') && p in s'.calls && ToDrop(s'.calls[p], id)
    ensures p in s.calls && (ToDrop(s.calls[p], id) || exists inp :: CallStep(s, s', p, inp) && s.calls[p].Expiring?)
  {
    if q, stage :| BeginStep(s, s', q, stage) {
      assert q != p;
    } else if q, job, ok, partly :| JobStep(s, s', q, job, ok, partly) {
      assert q != p;
    } else {
      var q, inp :| CallStep(s, s', q, inp);
      if q == p {
        ToDropBefore(s.rows, s.calls[p], inp, id);
      }
    }
  }

  lemma {:induction false} DropsOnlyListed(trace: seq<System>, n: nat, p: Caller, id: Id)
    requires Run(trace) && n < |trace| && p in trace[n].calls && ToDrop(trace[n].calls[p], id)
    ensures ListedBy(trace, n, p, id)
  {
    if n > 0 {
      var last := n - 1;
      assert StepAt(trace, last);
      StepToDrop(trace[last], trace[n], p, id);
      if ToDrop(trace[last].calls[p], id) {
        DropsOnlyListed(trace, last, p, id);
        ListedLater(trace, last, n, p, id);
      } else {
        var inp :| CallStep(trace[last], trace[n], p, inp) && trace[last].calls[p].Expiring?;
        ListedNow(trace, last, n, p, inp, id);
      }
    }
  }

  // ---- What changes an expiry --------------------------------------------------------------------------

  /** Someone's extension of the copy is written. */
  ghost predicate Extends(s: System, s': System, id: Id) {
    exists q, inp :: CallStep(s, s', q, inp) && s.calls[q].Renewing? && s.calls[q].id == id && !inp.lost
  }

  ghost predicate ExtendsAt(trace: seq<System>, k: nat, id: Id) {
    k + 1 < |trace| && Extends(trace[k], trace[k + 1], id)
  }

  lemma CallExtends(s: System, s': System, q: Caller, inp: Input, id: Id)
    requires CallStep(s, s', q, inp) && id in s.rows && id in s'.rows && s.rows[id].status.Ready? && s'.rows[id].status.Ready?
    ensures s'.rows[id].expiresAt == s.rows[id].expiresAt || (s.calls[q].Renewing? && s.calls[q].id == id && !inp.lost)
  {
    AdvanceWrites(s.rows, s.calls[q], inp);
  }

  lemma NextExtends(s: System, s': System, id: Id)
    requires Next(s, s') && id in s.rows && id in s'.rows && s.rows[id].status.Ready? && s'.rows[id].status.Ready?
    ensures s'.rows[id].expiresAt == s.rows[id].expiresAt || Extends(s, s', id)
  {
    if q, inp :| CallStep(s, s', q, inp) {
      CallExtends(s, s', q, inp, id);
    }
  }

  lemma StepExtends(trace: seq<System>, k: nat, id: Id)
    requires Run(trace) && k + 1 < |trace| && id in trace[k].rows && id in trace[k + 1].rows
    requires trace[k].rows[id].status.Ready? && trace[k + 1].rows[id].status.Ready?
    ensures trace[k + 1].rows[id].expiresAt == trace[k].rows[id].expiresAt || ExtendsAt(trace, k, id)
  {
    assert StepAt(trace, k);
    NextExtends(trace[k], trace[k + 1], id);
  }

  /** While a copy is ready, only an extension changes when it expires. */
  lemma {:induction false} OnlyExtended(trace: seq<System>, m: nat, n: nat, id: Id)
    requires Run(trace) && m <= n < |trace| && id in trace[m].rows && trace[m].rows[id].status.Ready?
    requires id in trace[n].rows && trace[n].rows[id].status.Ready?
    ensures trace[n].rows[id].expiresAt == trace[m].rows[id].expiresAt || exists k: nat :: m <= k < n && ExtendsAt(trace, k, id)
    decreases n
  {
    if m < n {
      var last := n - 1;
      RunMovesUp(trace, m, last);
      RunMovesUp(trace, last, n);
      RunKeeps(trace, last);
      assert Rank(trace[last].rows[id].status) == 1;
      OnlyExtended(trace, m, last, id);
      StepExtends(trace, last, id);
    }
  }

  /** In every run, a copy whose drop a pass requests, or that it marks dropping, was found by a listing of
      that very pass: ready with its expiry before the time of the listing, failed, or dropping without an
      update for STALE_AFTER and with tries left. If it is still ready, that was its expiry and still is,
      unless it was extended since the listing. */
  lemma DropsOnlyExpired(trace: seq<System>, n: nat, p: Caller, id: Id) returns (m: nat, now: int)
    requires Run(trace) && n < |trace| && p in trace[n].calls && id in trace[n].rows
    requires || (trace[n].calls[p].ExpireRest? && trace[n].calls[p].ids != [] && trace[n].calls[p].ids[0] == id)
             || (trace[n].calls[p].ExpireLink? && trace[n].calls[p].id == id)
    ensures m < n && ListsAt(trace, m, p, now) && id in trace[m].rows
    ensures var c := trace[m].rows[id];
            && (c.status.Ready? || c.status.Failed? || c.status.Dropping?)
            && (c.status.Ready? ==> c.expiresAt.Some? && c.expiresAt.value < now)
            && (c.status.Dropping? ==> c.updatedAt < now - STALE_AFTER && c.attempts < MAX_DROP_ATTEMPTS)
    ensures trace[n].rows[id].status.Ready? ==>
              && trace[m].rows[id].status.Ready? && trace[n].rows[id].expiresAt.Some?
              && (trace[n].rows[id].expiresAt.value < now || exists k: nat :: m <= k < n && ExtendsAt(trace, k, id))
  {
    DropsOnlyListed(trace, n, p, id);
    m, now :| m < n && ListsAt(trace, m, p, now) && id in trace[m].rows && Expirable(trace[m].rows[id], now);
    RunMovesUp(trace, m, n);
    if trace[n].rows[id].status.Ready? {
      assert Above(trace[m].rows[id], trace[n].rows[id]);
      OnlyExtended(trace, m, n, id);
      RunKeeps(trace, n);
      assert RowOk(trace[n].rows[id]);
    }
  }

  // ---- A run in which that matters ---------------------------------------------------------------------

  /** A copy is created and restored. */
  lemma MadeReady() returns (trace: seq<System>, s: System, c: Copy)
    ensures Run(trace) && trace[|trace| - 1] == s
    ensures c.status.Ready? && c.readyAt == Some(0) && c.expiresAt == Some(DEFAULT_TTL)
    ensures s == System(map[0 := c], map[0 := Finished(true), 1 := Finished(true)], map[], {0}, {0}, {}, {0})
  {
    var begun, c0 := CreatedWithJob();
    var s0 := begun[|begun| - 1];
    var s1 := System(map[0 := c0], map[0 := Finished(true), 1 := Restored(0, true)], map[], {0}, {0}, {}, {0});
    var s2 := System(map[0 := c0], map[0 := Finished(true), 1 := Readying(0, c0.ttl)], map[], {0}, {0}, {}, {0});
    c := Written(c0, MarkReady(0, c0.ttl), 0);
    s := System(map[0 := c], map[0 := Finished(true), 1 := Finished(true)], map[], {0}, {0}, {}, {0});
    assert JobStep(s0, s1, 1, 0, true, false);
    assert CallStep(s1, s2, 1, Tick(0, None, []));
    assert CallStep(s2, s, 1, Tick(0, None, []));
    trace := RunThree(begun, s1, s2, s);
  }

  const EXPIRED: int := DEFAULT_TTL + 1

  lemma ListsIt(s0: System, c: Copy) returns (s1: System, s2: System)
    requires s0 == System(map[0 := c], map[0 := Finished(true), 1 := Finished(true)], map[], {0}, {0}, {}, {0})
    requires c.status.Ready? && c.expiresAt == Some(DEFAULT_TTL)
    ensures Next(s0, s1) && Next(s1, s2)
    ensures s2 == s0.(calls := map[0 := Finished(true), 1 := Finished(true), 2 := ExpireRest([0], 0)])
  {
    s1 := s0.(calls := s0.calls[2 := Expiring]);
    s2 := s0.(calls := s0.calls[2 := ExpireRest([0], 0)]);
    assert BeginStep(s0, s1, 2, Expiring);
    assert CallStep(s1, s2, 2, Tick(EXPIRED, None, [0]));
  }

  lemma ExtendsIt(s2: System, c0: Copy) returns (s3: System, s4: System, s: System, c: Copy)
    requires s2 == System(map[0 := c0], map[0 := Finished(true), 1 := Finished(true), 2 := ExpireRest([0], 0)], map[], {0}, {0}, {}, {0})
    requires c0.status.Ready? && c0.readyAt == Some(0)
    ensures Next(s2, s3) && Next(s3, s4) && Next(s4, s)
    ensures c == Written(c0, SetExpiry(DEFAULT_TTL + EXPIRED), EXPIRED)
    ensures s == s2.(rows := map[0 := c],
                     calls := map[0 := Finished(true), 1 := Finished(true), 2 := ExpireRest([0], 0), 3 := Finished(true)])
  {
    s3 := s2.(calls := s2.calls[3 := Extending(0, DEFAULT_TTL)]);
    s4 := s2.(calls := s2.calls[3 := Renewing(0, DEFAULT_TTL, 0)]);
    assert BeginStep(s2, s3, 3, Extending(0, DEFAULT_TTL));
    assert CallStep(s3, s4, 3, Tick(EXPIRED, None, []));
    c := Written(c0, SetExpiry(DEFAULT_TTL + EXPIRED), EXPIRED);
    s := s4.(rows := map[0 := c], calls := s4.calls[3 := Finished(true)]);
    assert CallStep(s4, s, 3, Tick(EXPIRED, None, []));
  }

  /** When it has expired, a pass lists it and a user asks to extend it. */
  lemma ListedAndExtended() returns (trace: seq<System>, s: System, c: Copy)
    ensures Run(trace) && trace[|trace| - 1] == s && c.status.Ready? && c.expiresAt == Some(DEFAULT_TTL + EXPIRED)
    ensures s == System(map[0 := c], map[0 := Finished(true), 1 := Finished(true), 2 := ExpireRest([0], 0), 3 := Finished(true)],
                        map[], {0}, {0}, {}, {0})
  {
    var ready, s0, c0 := MadeReady();
    var s1, s2 := ListsIt(s0, c0);
    var s3, s4;
    s3, s4, s, c := ExtendsIt(s2, c0);
    trace := RunThree(ready, s1, s2, s3);
    RunMore(trace, s4);
    RunMore(trace + [s4], s);
    trace := trace + [s4] + [s];
  }

  /** The user is told that it was extended, and then the pass drops it all the same. */
  lemma ExtendedYetDropped() returns (trace: seq<System>, last: System)
    ensures Run(trace) && trace[|trace| - 1] == last && 3 in last.calls && last.calls[3] == Finished(true)
    ensures last.jobs == map[1 := DropTask(0)] && 0 in last.rows && last.rows[0].status.Dropping?
    ensures last.rows[0].updatedAt == EXPIRED && last.rows[0].expiresAt == Some(DEFAULT_TTL + EXPIRED)
  {
    var s, c;
    trace, s, c := ListedAndExtended();
    var s1 := s.(calls := s.calls[2 := ExpireLink(0, 1, [], 0)], jobs := map[1 := DropTask(0)], dropsAsked := {0});
    assert [0][1..] == [];
    assert CallStep(s, s1, 2, Tick(EXPIRED, Some(1), []));
    last := s1.(rows := map[0 := Written(c, MarkDropping(Some(1)), EXPIRED)], calls := s1.calls[2 := ExpireRest([], 1)]);
    assert CallStep(s1, last, 2, Tick(EXPIRED, None, []));
    RunMore(trace, s1);
    RunMore(trace + [s1], last);
    trace := trace + [s1] + [last];
  }
}
