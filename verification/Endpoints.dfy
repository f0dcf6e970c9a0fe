/** Reconciling public endpoints with what the gateway reports (backend/internal/app/endpoint/service.go,
    Reconcile, and the lifecycle in backend/internal/domain/endpoint/endpoint.go). */
module Endpoints {
  import opened Wrappers

  type Id = nat

  datatype Status = Pending | Active | Disabling | Disabled | Error

  predicate CanTransition(s: Status, next: Status) {
    match s
    case Pending => next.Active? || next.Error? || next.Disabling? || next.Disabled?
    case Active => next.Disabling? || next.Error? || next.Pending?
    case Disabling => next.Disabled? || next.Error? || next.Active?
    case Error => next.Pending? || next.Disabling? || next.Disabled? || next.Active?
    case Disabled => next.Pending?
  }

  datatype Tls = Unknown | Known(status: string)

  datatype Endpoint = Endpoint(status: Status, port: Option<int>, host: string, lastError: Option<string>, tls: Tls)

  predicate Routable(e: Endpoint) {
    e.status.Pending? || e.status.Active? || e.status.Error?
  }

  /** One backend in the gateway's runtime state. */
  datatype Server = Server(up: bool, status: string)

  /** What the gateway gives: whether it is on, whether the configuration was taken, its state by
      port or why there is none, and what TLS probes of the backends find. */
  datatype Report = Report(enabled: bool, applyError: Option<string>, stats: Result<map<int, Server>, string>, probe: map<Id, Tls>)

  const NO_PORT := "endpoint has no allocated port"
  const NOT_PROGRAMMED := "gateway has not programmed this endpoint yet"

  function Unreachable(e: Endpoint, srv: Server): string {
    "gateway cannot reach the database at " + e.host + " (" + srv.status + ")"
  }

  // ---- Specification -----------------------------------------------------------------------------

  /** The status and message the report alone justifies for an endpoint with this port and host. */
  function Justified(e: Endpoint, r: Report): (Status, Option<string>) {
    if r.applyError.Some? then (Pending, r.applyError)
    else if e.port.None? then (Pending, Some(NO_PORT))
    else if r.stats.Err? then (Pending, Some(r.stats.error))
    else if e.port.value !in r.stats.value then (Pending, Some(NOT_PROGRAMMED))
    else if !r.stats.value[e.port.value].up then (Error, Some(Unreachable(e, r.stats.value[e.port.value])))
    else (Active, None)
  }

  predicate ReportedUp(e: Endpoint, r: Report) {
    Justified(e, r).0.Active?
  }

  /** An endpoint's row after a pass none of whose writes fail. */
  function After(id: Id, e: Endpoint, r: Report): Endpoint {
    if Routable(e) && r.enabled then
      var (status, lastError) := Justified(e, r);
      e.(status := status, lastError := lastError,
         tls := if ReportedUp(e, r) && !(e.status.Active? && e.tls.Known?) then if id in r.probe then r.probe[id] else Unknown
                else e.tls)
    else if e.status.Disabling? && (!r.enabled || r.applyError.None?) then e.(status := Disabled, lastError := None)
    else e
  }

  /** Nothing but the message would change, and it would not: the pass leaves the row's status alone. */
  predicate Settled(e: Endpoint, status: Status, lastError: Option<string>) {
    e.status == status && e.lastError == lastError
  }

  datatype StatusWrite = StatusWrite(id: Id, from: Status, to: Status)

  class EndpointService {
    var rows: map<Id, Endpoint>
    ghost var writes: seq<StatusWrite>

    constructor (rows: map<Id, Endpoint>)
      ensures this.rows == rows && writes == []
    {
      this.rows, writes := rows, [];
    }

    /** Applies a status change, unless it is none or the lifecycle forbids it. fault: the write fails. */
    method Transition(id: Id, next: Status, lastError: Option<string>, fault: bool) returns (ok: bool)
      requires id in rows
      modifies this
      ensures var e := old(rows)[id];
              var changes := !Settled(e, next, lastError) && (e.status == next || CanTransition(e.status, next));
              && ok == !(changes && fault)
              && rows == (if changes && !fault then old(rows)[id := e.(status := next, lastError := lastError)] else old(rows))
              && writes == if changes && !fault then old(writes) + [StatusWrite(id, e.status, next)] else old(writes)
    {
      ok := true;
      var e := rows[id];
      if e.status == next && e.lastError == lastError {
        return;
      }
      if e.status != next && !CanTransition(e.status, next) {
        return;
      }
      if fault {
        return false;
      }
      rows := rows[id := e.(status := next, lastError := lastError)];
      writes := writes + [StatusWrite(id, e.status, next)];
    }

    /** Keeps the endpoint pending and says why. */
    method RecordFailure(id: Id, msg: string, fault: bool) returns (ok: bool)
      requires id in rows && Routable(rows[id])
      modifies this
      ensures Wrote(old(rows), old(writes), id, old(rows)[id].(status := Pending, lastError := Some(msg)), fault, ok)
    {
      var e := rows[id];
      if e.status.Pending? && e.lastError == Some(msg) {
        assert rows[id := e] == rows;
        return true;
      }
      ok := Transition(id, Pending, Some(msg), fault);
    }

    /** The row of id is now e, except that a failing write that would have changed its status or
        message did not happen; every status write is logged. */
    ghost predicate Wrote(was: map<Id, Endpoint>, log: seq<StatusWrite>, id: Id, e: Endpoint, fault: bool, ok: bool)
      requires id in was
      reads this
    {
      var changes := !Settled(was[id], e.status, e.lastError);
      && ok == !(changes && fault)
      && rows == was[id := if changes && fault then e.(status := was[id].status, lastError := was[id].lastError) else e]
      && writes == if changes && !fault then log + [StatusWrite(id, was[id].status, e.status)] else log
    }

    /** Moves one endpoint to the status the gateway justifies. */
    method SettleRoutable(id: Id, r: Report, fault: bool) returns (ok: bool)
      requires id in rows && Routable(rows[id]) && r.enabled && r.applyError.None?
      modifies this
      ensures Wrote(old(rows), old(writes), id, After(id, old(rows)[id], r), fault, ok)
    {
      var e := rows[id];
      if e.port.None? {
        ok := RecordFailure(id, NO_PORT, fault);
        return;
      }
      if r.stats.Err? {
        ok := RecordFailure(id, r.stats.error, fault);
        return;
      }
      if e.port.value !in r.stats.value {
        ok := RecordFailure(id, NOT_PROGRAMMED, fault);
        return;
      }
      var srv := r.stats.value[e.port.value];
      if !srv.up {
        ok := Transition(id, Error, Some(Unreachable(e, srv)), fault);
        assert rows[id := rows[id]] == rows;
        return;
      }
      if !(e.status.Active? && e.tls.Known?) {
        rows := rows[id := e.(tls := if id in r.probe then r.probe[id] else Unknown)];
      }
      ok := Transition(id, Active, None, fault);
    }

    /** Settles the routable endpoints one by one, or records on each why the configuration was refused. */
    method SettleAll(eps: set<Id>, r: Report, faults: set<Id>) returns (ok: bool)
      requires r.enabled && forall id :: id in eps ==> id in rows && Routable(rows[id])
      modifies this
      ensures Passed(old(rows), old(writes), eps, r, faults)
    {
      var left := eps;
      ghost var was, log := rows, writes;
      ok := true;
      while left != {}
        invariant left <= eps && Passed(was, log, eps - left, r, faults)
        decreases left
      {
        var id :| id in left;
        left := left - {id};
        var done: bool;
        ghost var from, sofar := rows, writes;
        if r.applyError.Some? {
          done := RecordFailure(id, r.applyError.value, id in faults);
        } else {
          done := SettleRoutable(id, r, id in faults);
        }
        ok := ok && done;
        OneMore(was, log, eps - left - {id}, r, faults, from, sofar, id, rows, writes);
        OneLess(eps, left, id);
      }
      assert eps - left == eps;
    }

    method SettleDisabling(eps: set<Id>, r: Report, faults: set<Id>) returns (ok: bool)
      requires !r.enabled || r.applyError.None?
      requires forall id :: id in eps ==> id in rows && rows[id].status.Disabling?
      modifies this
      ensures Passed(old(rows), old(writes), eps, r, faults)
    {
      var left := eps;
      ghost var was, log := rows, writes;
      ok := true;
      while left != {}
        invariant left <= eps && Passed(was, log, eps - left, r, faults)
        decreases left
      {
        var id :| id in left;
        left := left - {id};
        ghost var from, sofar := rows, writes;
        var done := Transition(id, Disabled, None, id in faults);
        ok := ok && done;
        OneMore(was, log, eps - left - {id}, r, faults, from, sofar, id, rows, writes);
        OneLess(eps, left, id);
      }
      assert eps - left == eps;
    }

    ghost predicate Passed(was: map<Id, Endpoint>, log: seq<StatusWrite>, done: set<Id>, r: Report, faults: set<Id>)
      reads this
    {
      PassedTo(was, log, done, r, faults, rows, writes)
    }

    /** Brings every endpoint in line with the report; faults are those whose status write fails. */
    method Reconcile(r: Report, faults: set<Id>) returns (ok: bool)
      modifies this
      ensures rows.Keys == old(rows).Keys
      ensures forall id :: id in rows ==> RowAfter(old(rows)[id], rows[id], id, r, id in faults)
      ensures r.enabled && r.applyError.None? ==> forall id :: id in rows && id !in faults ==> Reflects(old(rows)[id], rows[id], r)
      ensures r.enabled && r.applyError.Some? ==> forall id :: id in rows && id !in faults ==> Deferred(old(rows)[id], rows[id], r)
      ensures ok ==> r.applyError.None? || !r.enabled
      ensures old(writes) <= writes && LogOk(old(rows), writes[|old(writes)|..])
      ensures (forall id :: id in rows ==> Unchanged(old(rows), id, r)) ==> writes == old(writes)
    {
      var eps := set id | id in rows && Routable(rows[id]);
      var disabling := set id | id in rows && rows[id].status.Disabling?;
      ghost var was, log := rows, writes;
      PassedNone(was, log, r, faults);
      ok := true;
      if r.enabled {
        ok := SettleAll(eps, r, faults);
        forall id | id in was && id !in faults
          ensures if r.applyError.None? then Reflects(was[id], After(id, was[id], r), r) else Deferred(was[id], After(id, was[id], r), r)
        {
          PassReflects(id, was[id], r);
        }
        if r.applyError.Some? {
          return false;
        }
      }
      ghost var between, middle := rows, writes;
      var done := SettleDisabling(disabling, r, faults);
      ok := ok && done;
      PassedBoth(was, log, if r.enabled then eps else {}, disabling, r, faults, between, middle, rows, writes);
    }
  }

  /** The rows in done are as a pass leaves them, the others as they were; every logged write is one of
      done's, and there is none if no row of done has to change. */
  ghost predicate PassedTo(was: map<Id, Endpoint>, log: seq<StatusWrite>, done: set<Id>, r: Report, faults: set<Id>,
                           rows: map<Id, Endpoint>, writes: seq<StatusWrite>)
  {
    && done <= was.Keys == rows.Keys
    && (forall id :: id in rows ==> if id in done then RowAfter(was[id], rows[id], id, r, id in faults) else rows[id] == was[id])
    && log <= writes && LogOk(was, writes[|log|..]) && (forall i :: |log| <= i < |writes| ==> writes[i].id in done)
    && ((forall id :: id in done ==> Unchanged(was, id, r)) ==> writes == log)
  }

  lemma PassedNone(was: map<Id, Endpoint>, log: seq<StatusWrite>, r: Report, faults: set<Id>)
    ensures PassedTo(was, log, {}, r, faults, was, log)
  {
  }

  lemma LogTogether(was: map<Id, Endpoint>, log: seq<StatusWrite>, middle: seq<StatusWrite>, writes: seq<StatusWrite>)
    requires log <= middle <= writes && LogOk(was, middle[|log|..]) && LogOk(was, writes[|middle|..])
    ensures log <= writes && LogOk(was, writes[|log|..])
  {
    assert writes[|log|..] == middle[|log|..] + writes[|middle|..];
  }

  lemma PassedBoth(was: map<Id, Endpoint>, log: seq<StatusWrite>, a: set<Id>, b: set<Id>, r: Report, faults: set<Id>,
                   between: map<Id, Endpoint>, middle: seq<StatusWrite>, rows: map<Id, Endpoint>, writes: seq<StatusWrite>)
    requires a !! b && PassedTo(was, log, a, r, faults, between, middle) && PassedTo(between, middle, b, r, faults, rows, writes)
    ensures PassedTo(was, log, a + b, r, faults, rows, writes)
  {
    var tail := writes[|middle|..];
    forall i | 0 <= i < |tail| ensures tail[i].id in was && between[tail[i].id] == was[tail[i].id] {
      assert tail[i] == writes[|middle| + i];
    }
    LogTogether(was, log, middle, writes);
  }

  lemma OneLess(eps: set<Id>, left: set<Id>, id: Id)
    requires id in eps && id !in left
    ensures eps - left - {id} + {id} == eps - left
  {
  }

  /** One more row settled. */
  lemma OneMore(was: map<Id, Endpoint>, log: seq<StatusWrite>, done: set<Id>, r: Report, faults: set<Id>,
                from: map<Id, Endpoint>, sofar: seq<StatusWrite>, id: Id, rows: map<Id, Endpoint>, writes: seq<StatusWrite>)
    requires PassedTo(was, log, done, r, faults, from, sofar) && id in was && id !in done
    requires id in rows && rows == from[id := rows[id]] && RowAfter(was[id], rows[id], id, r, id in faults)
    requires writes == sofar || (|writes| == |sofar| + 1 && writes[..|sofar|] == sofar && OwnWrite(was[id], id, writes[|sofar|]))
    requires Unchanged(was, id, r) ==> writes == sofar
    ensures PassedTo(was, log, done + {id}, r, faults, rows, writes)
  {
    if writes != sofar {
      var w := writes[|sofar|];
      assert writes == sofar + [w];
      assert writes[|sofar|..] == [w];
      LogTogether(was, log, sofar, writes);
    }
  }

  predicate OwnWrite(e: Endpoint, id: Id, w: StatusWrite) {
    w.id == id && w.from == e.status && (w.to == w.from || CanTransition(w.from, w.to))
  }

  /** A row as a pass leaves it. */
  predicate RowAfter(was: Endpoint, e: Endpoint, id: Id, r: Report, fault: bool) {
    var a := After(id, was, r);
    e == a || (fault && e == a.(status := was.status, lastError := was.lastError))
  }

  predicate Unchanged(was: map<Id, Endpoint>, id: Id, r: Report)
    requires id in was
  {
    Settled(was[id], After(id, was[id], r).status, After(id, was[id], r).lastError)
  }

  /** Each logged write starts from the row's status and stays, or moves as the lifecycle allows. */
  predicate LogOk(was: map<Id, Endpoint>, log: seq<StatusWrite>) {
    forall i :: 0 <= i < |log| ==>
      log[i].id in was && log[i].from == was[log[i].id].status && (log[i].to == log[i].from || CanTransition(log[i].from, log[i].to))
  }

  // ---- Main results --------------------------------------------------------------------------------

  /** What the gateway says of a port. */
  datatype Health = Up | Down | NoWord

  function HealthOf(port: Option<int>, r: Report): Health {
    if port.None? || r.stats.Err? || port.value !in r.stats.value then NoWord
    else if r.stats.value[port.value].up then Up else Down
  }

  /** After a pass with the gateway on and its configuration taken, what an endpoint was before no longer
      shows: a routable one is active, in error or pending as the gateway reports its port up, down or
      not at all, a disabling one is disabled, and a disabled one stays so. */
  predicate Reflects(was: Endpoint, e: Endpoint, r: Report) {
    && (Routable(was) ==> && e.status == (match HealthOf(was.port, r) case Up => Active case Down => Error case NoWord => Pending)
                          && (e.lastError.None? <==> e.status.Active?))
    && (!Routable(was) ==> e.status.Disabled?)
  }

  /** A pass whose configuration was refused never leaves a routable endpoint active or in error, and never
      retires one. */
  predicate Deferred(was: Endpoint, e: Endpoint, r: Report) {
    if Routable(was) then e.status.Pending? && e.lastError == r.applyError else e == was
  }

  lemma PassReflects(id: Id, e: Endpoint, r: Report)
    requires r.enabled
    ensures if r.applyError.None? then Reflects(e, After(id, e, r), r) else Deferred(e, After(id, e, r), r)
  {
  }

  lemma SettledByPass(id: Id, e: Endpoint, r: Report)
    ensures var a := After(id, e, r);
            var b := After(id, a, r);
            b.status == a.status && b.lastError == a.lastError
  {
  }

  /** A second pass on the same report, after one that left every row as it should, writes no status. */
  method SecondPass(s: EndpointService, r: Report, ghost was: map<Id, Endpoint>, faults: set<Id>)
    requires s.rows.Keys == was.Keys && forall id :: id in was ==> s.rows[id] == After(id, was[id], r)
    modifies s
    ensures s.writes == old(s.writes)
    ensures s.rows.Keys == was.Keys && forall id :: id in was ==> s.rows[id].status == old(s.rows)[id].status
  {
    ghost var first := s.rows;
    forall id | id in first ensures Unchanged(first, id, r) {
      SettledByPass(id, was[id], r);
    }
    var _ := s.Reconcile(r, faults);
    forall id | id in was ensures s.rows[id].status == first[id].status {
      assert RowAfter(first[id], s.rows[id], id, r, id in faults);
      SettledByPass(id, was[id], r);
    }
  }
}
