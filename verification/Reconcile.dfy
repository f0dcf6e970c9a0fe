/** Reconciling an instance's stored databases with a listing of its server
    (backend/internal/infra/postgres/database_repository.go, Reconcile). Times are in microseconds. */
module Reconcile {
  import opened Wrappers
  import opened DatabaseNames
  import opened GoText

  const MINUTE: int := 60_000_000
  const MISSING_AFTER: int := 3 * MINUTE
  const REDISCOVER_AFTER: int := 7 * 24 * 60 * MINUTE

  type Name = string

  datatype Status = Active | Missing | Busy(what: string)

  datatype Row = Row(status: Status, size: int, connections: int, lastSeen: Option<int>, createdAt: int, missingSince: Option<int>)

  /** The instance's rows by name (a name is unique among them), and the names removed by users, with when. */
  datatype Registry = Registry(live: map<Name, Row>, removed: set<(Name, int)>)

  datatype Observed = Observed(name: Name, size: int, connections: int)

  // ---- The pass --------------------------------------------------------------------------------------

  predicate RecentlyRemoved(g: Registry, n: Name, now: int) {
    exists e :: e in g.removed && e.0 == n && e.1 > now - REDISCOVER_AFTER
  }

  function SeenRow(r: Row, o: Observed, now: int): Row {
    r.(size := o.size, connections := o.connections, lastSeen := Some(now),
       status := if r.status.Missing? then Active else r.status,
       missingSince := if r.status.Missing? then None else r.missingSince)
  }

  function Discovered(o: Observed, now: int): Row {
    Row(Active, o.size, o.connections, Some(now), now, None)
  }

  datatype Findings = Findings(added: seq<Name>, reappeared: seq<Name>)

  /** One listed database: its row is refreshed, added under its trimmed name, or left out. */
  function See(g: Registry, o: Observed, now: int, f: Findings): (Registry, Findings) {
    if o.name in g.live then
      (g.(live := g.live[o.name := SeenRow(g.live[o.name], o, now)]),
       if g.live[o.name].status.Missing? then f.(reappeared := f.reappeared + [o.name]) else f)
    else if RecentlyRemoved(g, o.name, now) || !ValidName(TrimSpace(o.name)) then (g, f)
    else
      (if TrimSpace(o.name) in g.live then g else g.(live := g.live[TrimSpace(o.name) := Discovered(o, now)]),
       f.(added := f.added + [o.name]))
  }

  function SeeAll(g: Registry, seen: seq<Observed>, now: int, f: Findings): (Registry, Findings)
    decreases |seen|
  {
    if seen == [] then (g, f)
    else
      var (g', f') := See(g, seen[0], now, f);
      SeeAll(g', seen[1..], now, f')
  }

  function Names(seen: seq<Observed>): set<Name> {
    set i | 0 <= i < |seen| :: seen[i].name
  }

  /** An active row that the listing lacks and that was not seen, or created, since MISSING_AFTER. */
  predicate GoesMissing(r: Row, n: Name, names: set<Name>, now: int) {
    && r.status.Active? && n !in names
    && (if r.lastSeen.Some? then r.lastSeen.value else r.createdAt) < now - MISSING_AFTER
  }

  function Swept(live: map<Name, Row>, names: set<Name>, now: int): map<Name, Row> {
    map n | n in live ::
      if GoesMissing(live[n], n, names, now) then live[n].(status := Missing, missingSince := Some(now)) else live[n]
  }

  datatype Outcome = Outcome(added: seq<Name>, reappeared: seq<Name>, missing: set<Name>)

  function Reconciled(g: Registry, seen: seq<Observed>, now: int): (Registry, Outcome) {
    var (g', f) := SeeAll(g, seen, now, Findings([], []));
    (g'.(live := Swept(g'.live, Names(seen), now)),
     Outcome(f.added, f.reappeared, set n | n in g'.live && GoesMissing(g'.live[n], n, Names(seen), now)))
  }

  class DatabaseRepository {
    var live: map<Name, Row>
    var removed: set<(Name, int)>

    constructor ()
      ensures Now() == Registry(map[], {})
    {
      live, removed := map[], {};
    }

    function Now(): Registry
      reads this
    {
      Registry(live, removed)
    }

    /** Brings the rows in line with what a probe saw. */
    method Reconcile(seen: seq<Observed>, now: int) returns (res: Outcome)
      modifies this`live
      ensures (Now(), res) == Reconciled(old(Now()), seen, now)
    {
      var added: seq<Name>, reappeared: seq<Name> := [], [];
      ghost var whole := SeeAll(Now(), seen, now, Findings([], []));
      for i := 0 to |seen|
        invariant SeeAll(Now(), seen[i..], now, Findings(added, reappeared)) == whole
      {
        assert seen[i..][0] == seen[i] && seen[i..][1..] == seen[i + 1..];
        var o := seen[i];
        if o.name !in live {
          if RecentlyRemoved(Now(), o.name, now) {
            continue;
          }
          var name := TrimSpace(o.name);
          if !ValidName(name) {
            continue;
          }
          if name !in live {
            live := live[name := Row(Active, o.size, o.connections, Some(now), now, None)];
          }
          added := added + [o.name];
        } else {
          var row := live[o.name];
          live := live[o.name := row.(size := o.size, connections := o.connections, lastSeen := Some(now),
                                      status := if row.status.Missing? then Active else row.status,
                                      missingSince := if row.status.Missing? then None else row.missingSince)];
          if row.status.Missing? {
            reappeared := reappeared + [o.name];
          }
        }
      }
      assert seen[|seen|..] == [];
      var names := Names(seen);
      var missing := set n | n in live && GoesMissing(live[n], n, names, now);
      ghost var before := live;
      live := map n | n in live :: if n in missing then live[n].(status := Missing, missingSince := Some(now)) else live[n];
      assert live == Swept(before, names, now);
      res := Outcome(added, reappeared, missing);
    }
  }

  // ---- What a pass does, as sets -----------------------------------------------------------------------

  predicate Trimmed(seen: seq<Observed>) {
    forall i :: 0 <= i < |seen| ==> TrimSpace(seen[i].name) == seen[i].name
  }

  /** Not known, not removed lately, and a name that can be managed. */
  predicate Addable(g: Registry, n: Name, now: int) {
    n !in g.live && !RecentlyRemoved(g, n, now) && ValidName(n)
  }

  function StatusSeen(g: Registry, n: Name): Status {
    if n in g.live && !g.live[n].status.Missing? then g.live[n].status else Active
  }

  predicate Once<T(==)>(s: seq<T>) {
    forall i, j :: 0 <= i < j < |s| ==> s[i] != s[j]
  }

  function SetOf<T>(s: seq<T>): set<T> {
    set i | 0 <= i < |s| :: s[i]
  }

  ghost predicate Fits(g: Registry, seen: seq<Observed>, now: int, g': Registry) {
    && g'.removed == g.removed
    && (forall n :: n in g'.live <==> n in g.live || (n in Names(seen) && Addable(g, n, now)))
    && (forall n :: n in g'.live && n !in Names(seen) ==> g'.live[n] == g.live[n])
    && (forall n :: n in g'.live && n in Names(seen) ==>
          g'.live[n].lastSeen == Some(now) && g'.live[n].status == StatusSeen(g, n)
          && (g'.live[n].missingSince.Some? ==> n in g.live && g'.live[n].missingSince == g.live[n].missingSince))
  }

  ghost predicate Found(g: Registry, seen: seq<Observed>, now: int, added: seq<Name>, reappeared: seq<Name>) {
    && Once(added) && Once(reappeared)
    && (forall n :: n in added <==> n in Names(seen) && Addable(g, n, now))
    && (forall n :: n in reappeared <==> n in Names(seen) && n in g.live && g.live[n].status.Missing?)
  }

  lemma NamesCons(seen: seq<Observed>)
    requires seen != []
    ensures Names(seen) == {seen[0].name} + Names(seen[1..])
  {
    forall n | n in Names(seen) ensures n == seen[0].name || n in Names(seen[1..]) {
      var i :| 0 <= i < |seen| && seen[i].name == n;
      if i > 0 { assert seen[1..][i - 1].name == n; }
    }
    forall n | n in Names(seen[1..]) ensures n in Names(seen) {
      var i :| 0 <= i < |seen[1..]| && seen[1..][i].name == n;
      assert seen[i + 1].name == n;
    }
  }

  function AddedBy(g: Registry, o: Observed, now: int): seq<Name> {
    if Addable(g, o.name, now) then [o.name] else []
  }

  function ReappearedBy(g: Registry, o: Observed): seq<Name> {
    if o.name in g.live && g.live[o.name].status.Missing? then [o.name] else []
  }

  /** One observation, as sets. */
  lemma SeeFits(g: Registry, o: Observed, now: int, f: Findings) returns (g1: Registry, f1: Findings)
    requires TrimSpace(o.name) == o.name
    ensures See(g, o, now, f) == (g1, f1) && Fits(g, [o], now, g1)
    ensures f1.added == f.added + AddedBy(g, o, now) && f1.reappeared == f.reappeared + ReappearedBy(g, o)
  {
    g1, f1 := See(g, o, now, f).0, See(g, o, now, f).1;
    assert Names([o]) == {o.name} by {
      assert [o][0].name in Names([o]);
    }
  }

  lemma SeeAllFirst(g: Registry, seen: seq<Observed>, now: int, f: Findings, g1: Registry, f1: Findings, rest: seq<Observed>)
    requires seen != [] && See(g, seen[0], now, f) == (g1, f1) && rest == seen[1..]
    ensures SeeAll(g, seen, now, f) == SeeAll(g1, rest, now, f1)
  {
  }

  lemma AddableAfter(g: Registry, o: Observed, now: int, g1: Registry, n: Name)
    requires Fits(g, [o], now, g1)
    ensures n != o.name ==> (Addable(g1, n, now) <==> Addable(g, n, now))
    ensures n == o.name ==> !Addable(g1, n, now)
    ensures n != o.name && n in g.live ==> n in g1.live && g1.live[n] == g.live[n]
  {
    assert Names([o]) == {o.name} by {
      assert [o][0].name in Names([o]);
    }
  }

  lemma FitsCompose(g: Registry, seen: seq<Observed>, now: int, g1: Registry, g2: Registry)
    requires seen != [] && Fits(g, [seen[0]], now, g1) && Fits(g1, seen[1..], now, g2)
    ensures Fits(g, seen, now, g2)
  {
    var o := seen[0];
    NamesCons(seen);
    assert Names([o]) == {o.name} by {
      assert [o][0].name in Names([o]);
    }
    forall n ensures n in g2.live <==> n in g.live || (n in Names(seen) && Addable(g, n, now)) {
      AddableAfter(g, o, now, g1, n);
    }
    forall n | n in g2.live && n !in Names(seen) ensures g2.live[n] == g.live[n] {
      AddableAfter(g, o, now, g1, n);
    }
  }

  lemma FoundCompose(g: Registry, seen: seq<Observed>, now: int, g1: Registry, added: seq<Name>, reappeared: seq<Name>)
    returns (added': seq<Name>, reappeared': seq<Name>)
    requires seen != [] && Fits(g, [seen[0]], now, g1) && Found(g1, seen[1..], now, added, reappeared)
    ensures added' == AddedBy(g, seen[0], now) + added && reappeared' == ReappearedBy(g, seen[0]) + reappeared
    ensures Found(g, seen, now, added', reappeared')
  {
    var o := seen[0];
    NamesCons(seen);
    added' := AddedBy(g, o, now) + added;
    reappeared' := ReappearedBy(g, o) + reappeared;
    assert Names([o]) == {o.name} by {
      assert [o][0].name in Names([o]);
    }
    forall n ensures n in added' <==> n in Names(seen) && Addable(g, n, now) {
      AddableAfter(g, o, now, g1, n);
    }
    forall n ensures n in reappeared' <==> n in Names(seen) && n in g.live && g.live[n].status.Missing? {
      AddableAfter(g, o, now, g1, n);
    }
    AddableAfter(g, o, now, g1, o.name);
    assert o.name !in added && o.name !in reappeared;
  }

  lemma Regroup(a: seq<Name>, b: seq<Name>, c: seq<Name>)
    ensures (a + b) + c == a + (b + c)
  {
  }

  lemma {:induction false} SeeAllFits(g: Registry, seen: seq<Observed>, now: int, f: Findings)
    returns (g': Registry, added: seq<Name>, reappeared: seq<Name>)
    requires Trimmed(seen)
    ensures SeeAll(g, seen, now, f) == (g', Findings(f.added + added, f.reappeared + reappeared))
    ensures Fits(g, seen, now, g') && Found(g, seen, now, added, reappeared)
    decreases |seen|
  {
    if seen == [] {
      g', added, reappeared := g, [], [];
      assert f.added + [] == f.added && f.reappeared + [] == f.reappeared;
    } else {
      var g1, f1 := SeeFits(g, seen[0], now, f);
      var a, r;
      g', a, r := SeeAllFits(g1, seen[1..], now, f1);
      SeeAllFirst(g, seen, now, f, g1, f1, seen[1..]);
      FitsCompose(g, seen, now, g1, g');
      added, reappeared := FoundCompose(g, seen, now, g1, a, r);
      Regroup(f.added, AddedBy(g, seen[0], now), a);
      Regroup(f.reappeared, ReappearedBy(g, seen[0]), r);
    }
  }

  // ---- Main results --------------------------------------------------------------------------------------

  /** For trimmed names, in whatever order and with whatever repetitions: Added are the listed names
      that are new, not removed lately and manageable, Reappeared the listed ones that were missing, each
      once, and Missing the stored active ones that are not listed and were not seen for MISSING_AFTER.
      Rows change only so; none is deleted. */
  lemma ReconcileIsItsSets(g: Registry, seen: seq<Observed>, now: int)
    requires Trimmed(seen)
    ensures var (g', res) := Reconciled(g, seen, now);
            && Found(g, seen, now, res.added, res.reappeared)
            && (forall n :: n in res.missing <==> n in g.live && GoesMissing(g.live[n], n, Names(seen), now))
            && g'.removed == g.removed && (forall n :: n in g'.live <==> n in g.live || n in res.added)
            && (forall n :: n in g'.live ==>
                  g'.live[n].status == if n in res.missing then Missing
                                       else if n in Names(seen) then StatusSeen(g, n) else g.live[n].status)
            && (forall n :: n in g'.live && n in Names(seen) ==> g'.live[n].lastSeen == Some(now))
            && (forall n :: n in g'.live && n !in Names(seen) ==> g'.live[n].lastSeen == g.live[n].lastSeen)
  {
    var g1, added, reappeared := SeeAllFits(g, seen, now, Findings([], []));
    assert [] + added == added && [] + reappeared == reappeared;
  }

  /** A pass moves a status only from active to missing or back. */
  lemma OnlyActiveAndMissingMove(g: Registry, seen: seq<Observed>, now: int, n: Name)
    requires Trimmed(seen) && n in g.live
    ensures var g' := Reconciled(g, seen, now).0;
            && n in g'.live
            && (g'.live[n].status != g.live[n].status ==>
                  (g.live[n].status.Active? && g'.live[n].status.Missing?) || (g.live[n].status.Missing? && g'.live[n].status.Active?))
  {
    ReconcileIsItsSets(g, seen, now);
  }

  lemma EmptyOrFound(s: seq<Name>)
    ensures s == [] || exists n :: n in s
  {
    if s != [] {
      assert s[0] in s;
    }
  }

  /** The same listing at the same time again finds nothing and changes no status. */
  lemma ReconcileIsIdempotent(g: Registry, seen: seq<Observed>, now: int)
    requires Trimmed(seen)
    ensures var g1 := Reconciled(g, seen, now).0;
            var (g2, res) := Reconciled(g1, seen, now);
            && res == Outcome([], [], {}) && g2.live.Keys == g1.live.Keys
            && forall n :: n in g1.live ==> g2.live[n].status == g1.live[n].status
  {
    var g1 := Reconciled(g, seen, now).0;
    ReconcileIsItsSets(g, seen, now);
    ReconcileIsItsSets(g1, seen, now);
    var (g2, res) := Reconciled(g1, seen, now);
    forall n | n in Names(seen) ensures !Addable(g1, n, now) {
      assert Addable(g, n, now) ==> n in g1.live;
    }
    EmptyOrFound(res.added);
    EmptyOrFound(res.reappeared);
    assert res.missing == {};
  }

  // ---- Over a run of passes ------------------------------------------------------------------------------

  datatype Pass = Pass(seen: seq<Observed>, now: int)

  /** The registry before pass i. */
  function Before(g: Registry, passes: seq<Pass>, i: nat): Registry
    requires i <= |passes|
  {
    if i == 0 then g else Reconciled(Before(g, passes, i - 1), passes[i - 1].seen, passes[i - 1].now).0
  }

  /** The clock never runs backwards. */
  predicate Steady(passes: seq<Pass>) {
    forall i, j :: 0 <= i <= j < |passes| ==> passes[i].now <= passes[j].now
  }

  predicate SeenSince(r: Row, at: int) {
    r.lastSeen.Some? && r.lastSeen.value >= at
  }

  /** n's row, if there is one, was seen at the time or later. */
  predicate Remembers(g: Registry, n: Name, at: int) {
    n in g.live ==> SeenSince(g.live[n], at)
  }

  lemma SeeRemembers(g: Registry, o: Observed, now: int, f: Findings, n: Name, at: int)
    requires now >= at && (n == o.name || Remembers(g, n, at))
    ensures Remembers(See(g, o, now, f).0, n, at)
  {
  }

  lemma {:induction false} SeeAllRemembers(g: Registry, seen: seq<Observed>, now: int, f: Findings, n: Name, at: int)
    requires now >= at && (n in Names(seen) || Remembers(g, n, at))
    ensures Remembers(SeeAll(g, seen, now, f).0, n, at)
    decreases |seen|
  {
    if seen != [] {
      var (g1, f1) := See(g, seen[0], now, f);
      NamesCons(seen);
      if n == seen[0].name || Remembers(g, n, at) {
        SeeRemembers(g, seen[0], now, f, n, at);
      }
      SeeAllRemembers(g1, seen[1..], now, f1, n, at);
    }
  }

  lemma PassRemembers(g: Registry, p: Pass, g': Registry, n: Name, at: int)
    requires p.now >= at && g' == Reconciled(g, p.seen, p.now).0
    requires n in Names(p.seen) || Remembers(g, n, at)
    ensures Remembers(g', n, at)
  {
    SeeAllRemembers(g, p.seen, p.now, Findings([], []), n, at);
  }

  lemma MissingWasUnseen(g: Registry, p: Pass, n: Name, at: int)
    requires n in Reconciled(g, p.seen, p.now).1.missing && p.now >= at && Remembers(g, n, at)
    ensures n !in Names(p.seen) && at < p.now - MISSING_AFTER
  {
    SeeAllRemembers(g, p.seen, p.now, Findings([], []), n, at);
  }

  lemma MissingIsUnlisted(g: Registry, p: Pass, n: Name)
    requires n in Reconciled(g, p.seen, p.now).1.missing
    ensures n !in Names(p.seen)
  {
  }

  /** After a pass that lists n, n's row, if there is one, says so ever after. */
  lemma {:induction false} SeenIsRemembered(g: Registry, passes: seq<Pass>, i: nat, j: nat, n: Name)
    requires Steady(passes) && i < j <= |passes| && n in Names(passes[i].seen)
    ensures Remembers(Before(g, passes, j), n, passes[i].now)
    decreases j
  {
    var k: nat := j - 1;
    if i < k {
      SeenIsRemembered(g, passes, i, k, n);
    }
    PassRemembers(Before(g, passes, k), passes[k], Before(g, passes, j), n, passes[i].now);
  }

  /** With a clock that never runs backwards, and whatever the listings, a pass marks missing no database that
      it or an earlier pass of the last MISSING_AFTER listed. */
  lemma NeverMissingTooSoon(g: Registry, passes: seq<Pass>, i: nat, j: nat, n: Name)
    requires Steady(passes) && i <= j < |passes| && n in Names(passes[i].seen)
    requires n in Reconciled(Before(g, passes, j), passes[j].seen, passes[j].now).1.missing
    ensures i < j && passes[i].now < passes[j].now - MISSING_AFTER
  {
    MissingIsUnlisted(Before(g, passes, j), passes[j], n);
    if i < j {
      SeenIsRemembered(g, passes, i, j, n);
      MissingWasUnseen(Before(g, passes, j), passes[j], n, passes[i].now);
    }
  }

  // ---- Names that are not trimmed --------------------------------------------------------------------------

  /** A name listed with spaces around it is reported added, but its row is kept under the trimmed name,
      which no later listing refreshes: on the next pass later than MISSING_AFTER, with the same listing,
      it is marked missing although the server still has it, and reported added again. */
  lemma UntrimmedGoesMissing(o: Observed, t: int, later: int)
    requires TrimSpace(o.name) != o.name && ValidName(TrimSpace(o.name)) && later > t + MISSING_AFTER
    ensures var (g1, first) := Reconciled(Registry(map[], {}), [o], t);
            var (g2, second) := Reconciled(g1, [o], later);
            && first.added == [o.name] && TrimSpace(o.name) in g1.live && g1.live[TrimSpace(o.name)].status.Active?
            && second.missing == {TrimSpace(o.name)} && second.added == [o.name]
  {
    var n := TrimSpace(o.name);
    var g0 := Registry(map[], {});
    assert Names([o]) == {o.name} by {
      assert [o][0].name in Names([o]);
    }
    var g1 := Registry(map[n := Discovered(o, t)], {});
    assert g0.live[n := Discovered(o, t)] == g1.live;
    assert Findings([], []).added + [o.name] == [o.name];
    SeeAllFirst(g0, [o], t, Findings([], []), g1, Findings([o.name], []), []);
    SeeAllFirst(g1, [o], later, Findings([], []), g1, Findings([o.name], []), []);
    assert SeeAll(g0, [o], t, Findings([], [])) == (g1, Findings([o.name], []));
    assert Swept(g1.live, {o.name}, t) == g1.live;
    assert o.name !in g1.live;
    assert SeeAll(g1, [o], later, Findings([], [])) == (g1, Findings([o.name], []));
    assert GoesMissing(g1.live[n], n, {o.name}, later);
  }
}
