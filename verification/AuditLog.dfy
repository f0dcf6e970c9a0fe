/** The audit log: newest-first pages by position, and batched pruning
    (backend/internal/infra/postgres/audit_repository.go, backend/internal/app/audit/service.go). */
module AuditLog {
  import opened Wrappers

  const DEFAULT_PAGE_SIZE: int := 50
  const MAX_PAGE_SIZE: int := 100
  const PRUNE_BATCH: nat := 5000

  datatype Event = Event(id: nat, at: int, actor: Option<nat>, action: string, resourceType: string, resourceId: Option<nat>,
                         outcome: string)

  datatype Filter = Filter(actor: Option<nat>, actionPrefix: string, resourceType: string, resourceId: Option<nat>,
                           outcome: string, since: Option<int>, until: Option<int>)

  /** A place in the listing. */
  datatype Cursor = Cursor(at: int, id: nat)

  function Pos(e: Event): Cursor {
    Cursor(e.at, e.id)
  }

  /** (created_at, id) < (created_at, id), as rows compare. */
  predicate Older(a: Cursor, b: Cursor) {
    a.at < b.at || (a.at == b.at && a.id < b.id)
  }

  predicate Matches(f: Filter, e: Event) {
    && (f.actor.Some? ==> e.actor == f.actor)
    && (f.actionPrefix != "" ==>
          if f.actionPrefix[|f.actionPrefix| - 1] == '.' then f.actionPrefix <= e.action else e.action == f.actionPrefix)
    && (f.resourceType != "" ==> e.resourceType == f.resourceType)
    && (f.resourceId.Some? ==> e.resourceId == f.resourceId)
    && (f.outcome != "" ==> e.outcome == f.outcome)
    && (f.since.Some? ==> e.at >= f.since.value) && (f.until.Some? ==> e.at < f.until.value)
  }

  predicate UniqueIds(events: set<Event>) {
    forall a, b :: a in events && b in events && a.id == b.id ==> a == b
  }

  /** What a filter asks of an event, a field at a time; what it leaves empty it does not ask. */
  predicate Wanted(f: Filter, e: Event) {
    && (f.actor.None? || (e.actor.Some? && e.actor.value == f.actor.value))
    && ActionWanted(f.actionPrefix, e.action)
    && (f.resourceType == "" || e.resourceType == f.resourceType)
    && (f.resourceId.None? || (e.resourceId.Some? && e.resourceId.value == f.resourceId.value))
    && (f.outcome == "" || e.outcome == f.outcome)
    && (f.since.None? || !(e.at < f.since.value)) && (f.until.None? || e.at < f.until.value)
  }

  /** An action is wanted by name or, when a name ends in a dot, by its group. */
  predicate ActionWanted(wanted: string, action: string) {
    || wanted == "" || action == wanted
    || (wanted[|wanted| - 1] == '.' && |action| >= |wanted| && action[..|wanted|] == wanted)
  }

  // ---- Listings ----------------------------------------------------------------------------------

  predicate Newest(e: Event, events: set<Event>) {
    e in events && forall o :: o in events && o != e ==> Older(Pos(o), Pos(e))
  }

  /** Adding one event, with an id of its own, to a set whose newest is known. */
  lemma NewestOfMore(e: Event, events: set<Event>, x: Event)
    requires Newest(e, events) && x !in events && x.id != e.id
    ensures Newest(if Older(Pos(e), Pos(x)) then x else e, events + {x})
  {
    assert Older(Pos(e), Pos(x)) || Older(Pos(x), Pos(e));
  }

  lemma {:induction false} NewestExists(events: set<Event>)
    requires events != {} && UniqueIds(events)
    ensures exists e :: Newest(e, events)
  {
    var x :| x in events;
    var rest := events - {x};
    if rest == {} {
      assert events == {x};
      assert Newest(x, events);
    } else {
      NewestExists(rest);
      var y :| Newest(y, rest);
      NewestOfMore(y, rest, x);
      assert rest + {x} == events;
    }
  }

  ghost function NewestOf(events: set<Event>): (e: Event)
    requires events != {} && UniqueIds(events)
    ensures Newest(e, events)
  {
    NewestExists(events);
    var e :| Newest(e, events);
    e
  }

  lemma NewestIsUnique(a: Event, b: Event, events: set<Event>)
    requires Newest(a, events) && Newest(b, events)
    ensures a == b
  {
    assert a == b || Older(Pos(a), Pos(b));
    assert a == b || Older(Pos(b), Pos(a));
  }

  predicate NewestFirst(s: seq<Event>) {
    forall i, j :: 0 <= i < j < |s| ==> Older(Pos(s[j]), Pos(s[i]))
  }

  /** The events, newest first: ORDER BY created_at DESC, id DESC. */
  ghost function Listing(events: set<Event>): (s: seq<Event>)
    requires UniqueIds(events)
    ensures NewestFirst(s) && forall e :: e in s <==> e in events
    decreases |events|
  {
    if events == {} then []
    else
      var e := NewestOf(events);
      [e] + Listing(events - {e})
  }

  lemma FirstIsNewest(s: seq<Event>, e: Event)
    requires NewestFirst(s) && e in s
    ensures e == s[0] || Older(Pos(e), Pos(s[0]))
  {
    var i :| 0 <= i < |s| && s[i] == e;
  }

  lemma {:induction false} ListingUnique(a: seq<Event>, b: seq<Event>)
    requires NewestFirst(a) && NewestFirst(b) && forall e :: e in a <==> e in b
    ensures a == b
  {
    if a + b != [] {
      assert (a + b)[0] in a && (a + b)[0] in b;
      assert a[0] in b && b[0] in a;
      assert a[0] == b[0] by {
        FirstIsNewest(b, a[0]);
        FirstIsNewest(a, b[0]);
      }
      forall e ensures e in a[1..] <==> e in b[1..] {
        TailMembers(a, e);
        TailMembers(b, e);
      }
      ListingUnique(a[1..], b[1..]);
      assert a == [a[0]] + a[1..] && b == [b[0]] + b[1..];
    }
  }

  lemma TailMembers(s: seq<Event>, e: Event)
    requires s != [] && NewestFirst(s)
    ensures e in s[1..] <==> e in s && e != s[0]
  {
    if e in s && e != s[0] {
      var i :| 0 <= i < |s| && s[i] == e;
      assert s[1..][i - 1] == e;
    }
    if e in s[1..] {
      var i :| 0 <= i < |s| - 1 && s[1..][i] == e;
      assert Older(Pos(s[i + 1]), Pos(s[0]));
    }
  }

  function Selected(events: set<Event>, f: Filter, after: Option<Cursor>): set<Event> {
    set e | e in events && Matches(f, e) && (after.Some? ==> Older(Pos(e), after.value))
  }

  /** What a listing still has to return after a position. */
  ghost function Remaining(events: set<Event>, f: Filter, after: Option<Cursor>): (s: seq<Event>)
    requires UniqueIds(events)
    ensures NewestFirst(s) && forall e :: e in s <==> e in Selected(events, f, after)
  {
    Listing(Selected(events, f, after))
  }

  function PageSize(limit: int): (n: nat)
    ensures 0 < n <= MAX_PAGE_SIZE
  {
    if limit <= 0 then DEFAULT_PAGE_SIZE else if limit > MAX_PAGE_SIZE then MAX_PAGE_SIZE else limit
  }

  function FirstOf(all: seq<Event>, limit: nat): seq<Event> {
    if |all| > limit then all[..limit] else all
  }

  datatype Page = Page(items: seq<Event>, next: Option<Cursor>)

  /** A page of what remains. */
  function PageOf(remaining: seq<Event>, want: nat): Page
    requires want > 0
  {
    if |remaining| > want then Page(remaining[..want], Some(Pos(remaining[want - 1]))) else Page(remaining, None)
  }

  lemma ListingUnfold(left: set<Event>, e: Event, rest: set<Event>)
    requires UniqueIds(left) && Newest(e, left) && rest == left - {e}
    ensures UniqueIds(rest) && Listing(left) == [e] + Listing(rest)
  {
    NewestIsUnique(e, NewestOf(left), left);
  }

  lemma Regroup(out: seq<Event>, e: Event, rest: seq<Event>)
    ensures out + ([e] + rest) == (out + [e]) + rest
  {
  }

  lemma ListingFirst(all: seq<Event>, left: set<Event>, e: Event, rest: set<Event>, out: seq<Event>, more: seq<Event>)
    requires UniqueIds(left) && Newest(e, left) && rest == left - {e} && more == out + [e]
    requires all == out + Listing(left)
    ensures UniqueIds(rest) && all == more + Listing(rest)
  {
    ListingUnfold(left, e, rest);
    Regroup(out, e, Listing(rest));
  }

  lemma ListingStops(left: set<Event>, out: seq<Event>, limit: nat)
    requires UniqueIds(left) && |out| <= limit && (|out| == limit || left == {})
    ensures out == FirstOf(out + Listing(left), limit)
  {
    if left == {} {
      assert Listing(left) == [];
    } else {
      assert |Listing(left)| > 0;
    }
  }

  lemma WantedIff(f: Filter, e: Event)
    ensures Matches(f, e) <==> Wanted(f, e)
  {
  }

  /** A page holds wanted events only, and misses one only if it is full and all of it is newer. */
  lemma ListedIsWanted(events: set<Event>, f: Filter, after: Option<Cursor>, limit: nat, out: seq<Event>)
    requires UniqueIds(events) && out == FirstOf(Remaining(events, f, after), limit)
    ensures forall e :: e in out ==> e in events && Wanted(f, e) && (after.Some? ==> Older(Pos(e), after.value))
    ensures forall e :: e in events && Wanted(f, e) && (after.Some? ==> Older(Pos(e), after.value)) && e !in out ==>
              |out| == limit && forall o :: o in out ==> Older(Pos(e), Pos(o))
  {
    var all := Remaining(events, f, after);
    forall e ensures Matches(f, e) <==> Wanted(f, e) {
      WantedIff(f, e);
    }
    forall e | e in out ensures e in events && Wanted(f, e) && (after.Some? ==> Older(Pos(e), after.value)) {
      assert e in all;
    }
    forall e | e in events && Wanted(f, e) && (after.Some? ==> Older(Pos(e), after.value)) && e !in out
      ensures |out| == limit && forall o :: o in out ==> Older(Pos(e), Pos(o))
    {
      assert e in Selected(events, f, after) && e in all;
      LeftOut(all, limit, out, e);
    }
  }

  lemma LeftOut(all: seq<Event>, limit: nat, out: seq<Event>, e: Event)
    requires NewestFirst(all) && out == FirstOf(all, limit) && e in all && e !in out
    ensures |out| == limit && forall o :: o in out ==> Older(Pos(e), Pos(o))
  {
    var j :| 0 <= j < |all| && all[j] == e;
    assert forall i :: 0 <= i < |out| ==> all[i] == out[i] && out[i] in out;
  }

  class AuditRepository {
    var events: set<Event>

    constructor ()
      ensures events == {}
    {
      events := {};
    }

    method Append(e: Event)
      modifies this
      ensures events == old(events) + {e}
    {
      events := events + {e};
    }

    /** Up to limit matching events after a position, newest first. */
    method List(f: Filter, after: Option<Cursor>, limit: nat) returns (out: seq<Event>)
      requires UniqueIds(events)
      ensures out == FirstOf(Remaining(events, f, after), limit)
      ensures forall e :: e in out ==> e in events && Wanted(f, e) && (after.Some? ==> Older(Pos(e), after.value))
      ensures forall e :: e in events && Wanted(f, e) && (after.Some? ==> Older(Pos(e), after.value)) && e !in out ==>
                |out| == limit && forall o :: o in out ==> Older(Pos(e), Pos(o))
    {
      out := TakeNewest(Selected(events, f, after), limit);
      ListedIsWanted(events, f, after, limit, out);
    }

    method TakeNewest(from: set<Event>, limit: nat) returns (out: seq<Event>)
      requires UniqueIds(from)
      ensures out == FirstOf(Listing(from), limit)
    {
      var left := from;
      out := [];
      ghost var all := Listing(from);
      while |out| < limit && left != {}
        invariant UniqueIds(left) && |out| <= limit && all == out + Listing(left)
        decreases |left|
      {
        out, left := TakeOne(left, out, all);
      }
      ListingStops(left, out, limit);
    }

    method TakeOne(left: set<Event>, out: seq<Event>, ghost all: seq<Event>) returns (more: seq<Event>, rest: set<Event>)
      requires left != {} && UniqueIds(left) && all == out + Listing(left)
      ensures UniqueIds(rest) && |rest| < |left| && |more| == |out| + 1 && all == more + Listing(rest)
    {
      var e := PickNewest(left);
      rest, more := left - {e}, out + [e];
      ListingFirst(all, left, e, rest, out, more);
    }

    method PickNewest(left: set<Event>) returns (e: Event)
      requires left != {} && UniqueIds(left)
      ensures Newest(e, left)
    {
      e :| e in left;
      var seen := {e};
      var rest := left - {e};
      while rest != {}
        invariant seen + rest == left && seen !! rest && Newest(e, seen)
        decreases |rest|
      {
        var o :| o in rest;
        assert o in left && e in left;
        NewestOfMore(e, seen, o);
        rest, seen := rest - {o}, seen + {o};
        if Older(Pos(e), Pos(o)) {
          e := o;
        }
      }
      assert seen == left;
    }

    /** Deletes the events before cutoff in batches of PRUNE_BATCH; failing is the batch whose transaction fails. */
    method PruneBefore(cutoff: int, failing: Option<nat>) returns (total: nat, ok: bool)
      modifies this
      ensures ok ==> events == (set e | e in old(events) && e.at >= cutoff)
      ensures (set e | e in old(events) && e.at >= cutoff) <= events <= old(events) && total == |old(events) - events|
      ensures !ok ==> failing.Some? && total == failing.value * PRUNE_BATCH
      ensures ok ==> total == |set e | e in old(events) && e.at < cutoff|
    {
      total := 0;
      var round := 0;
      while true
        invariant (set e | e in old(events) && e.at >= cutoff) <= events <= old(events)
        invariant total == |old(events) - events| && total == round * PRUNE_BATCH
        decreases |events|
      {
        if failing == Some(round) {
          return total, false;
        }
        var expired := set e | e in events && e.at < cutoff;
        var batch := TakeSome(expired, PRUNE_BATCH);
        BatchGone(old(events), events, batch);
        CardinalityShrinks(events, batch);
        events := events - batch;
        total := total + |batch|;
        if |batch| < PRUNE_BATCH {
          FullSubset(batch, expired);
          assert old(events) - events == (set e | e in old(events) && e.at < cutoff);
          return total, true;
        }
        round := round + 1;
      }
    }
  }

  lemma BatchGone(start: set<Event>, left: set<Event>, batch: set<Event>)
    requires left <= start && batch <= left
    ensures |start - (left - batch)| == |start - left| + |batch|
  {
    assert start - (left - batch) == (start - left) + batch;
  }

  lemma FullSubset(b: set<Event>, a: set<Event>)
    requires b <= a && |b| == |a|
    ensures b == a
  {
    CardinalityShrinks(a, b);
  }

  lemma CardinalityShrinks(a: set<Event>, b: set<Event>)
    requires b <= a
    ensures |a - b| == |a| - |b|
  {
    assert a == (a - b) + b;
  }

  /** Any limit elements of s, or all of them. */
  method TakeSome(s: set<Event>, limit: nat) returns (some: set<Event>)
    ensures some <= s && |some| == if |s| < limit then |s| else limit
  {
    var rest := s;
    some := {};
    while |some| < limit && rest != {}
      invariant some + rest == s && some !! rest && |some| <= limit
      decreases |rest|
    {
      var e :| e in rest;
      rest, some := rest - {e}, some + {e};
    }
    assert |s| == |some| + |rest|;
  }
}
