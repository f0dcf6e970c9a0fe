/** Paging through the audit log with tokens (backend/internal/app/audit/service.go, List). */
module AuditPages {
  import opened Wrappers
  import opened AuditLog
  import C = AuditCursor

  /** How instants are calendar times. */
  datatype Calendar = Calendar(civil: int -> C.Time, instant: C.Time -> int)

  /** The events' times and ids are ones a token can carry. */
  predicate Encodable(cal: Calendar, e: Event) {
    && C.ValidTime(cal.civil(e.at)) && 0 <= cal.civil(e.at).year <= 9999 && cal.instant(cal.civil(e.at)) == e.at
    && C.IsId(e.id)
  }

  function TokenOf(cal: Calendar, c: Cursor): string {
    C.EncodeCursor(C.Place(cal.civil(c.at), c.id))
  }

  function PositionOf(cal: Calendar, token: string): Option<Cursor> {
    match C.DecodeCursor(token)
    case None => None
    case Some(p) => Some(Cursor(cal.instant(p.at), p.id))
  }

  lemma TokenRoundTrips(cal: Calendar, e: Event)
    requires Encodable(cal, e)
    ensures TokenOf(cal, Pos(e)) != "" && PositionOf(cal, TokenOf(cal, Pos(e))) == Some(Pos(e))
  {
    var p := C.Place(cal.civil(e.at), e.id);
    C.CursorRoundTripsIff(p);
    C.RawIsCut(p);
    assert C.Raw(p) != "";
  }

  datatype Listed = Listed(items: seq<Event>, next: string)

  /** A page as the caller gets it. */
  function Shown(cal: Calendar, page: Page): Listed {
    Listed(page.items, if page.next.Some? then TokenOf(cal, page.next.value) else "")
  }

  /** Reading one event more than wanted tells whether there is a next page. */
  lemma OneMoreTells(all: seq<Event>, want: nat, more: nat, items: seq<Event>)
    requires want > 0 && more == want + 1 && items == FirstOf(all, more)
    ensures |items| > want <==> |all| > want
    ensures |items| > want ==> PageOf(all, want) == Page(items[..want], Some(Pos(items[want - 1])))
    ensures |items| <= want ==> PageOf(all, want) == Page(items, None)
  {
  }

  /** One page of events; token is the previous page's, or empty. */
  method List(repo: AuditRepository, cal: Calendar, f: Filter, limit: int, token: string) returns (r: Result<Listed, ()>)
    requires UniqueIds(repo.events)
    ensures r.Err? <==> token != "" && PositionOf(cal, token).None?
    ensures r.Ok? ==> r.value == Shown(cal, PageOf(Remaining(repo.events, f, if token == "" then None else PositionOf(cal, token)),
                                                   PageSize(limit)))
  {
    var after: Option<Cursor> := None;
    if token != "" {
      after := PositionOf(cal, token);
      if after.None? {
        return Err(());
      }
    }
    var want := PageSize(limit);
    var more := want + 1;
    var items := repo.List(f, after, more);
    OneMoreTells(Remaining(repo.events, f, after), want, more, items);
    var next := "";
    if |items| > want {
      items := items[..want];
      next := TokenOf(cal, Pos(items[want - 1]));
    }
    r := Ok(Listed(items, next));
  }

  lemma OlderIsLater(all: seq<Event>, n: nat, e: Event)
    requires NewestFirst(all) && 0 < n <= |all|
    ensures e in all && Older(Pos(e), Pos(all[n - 1])) <==> e in all[n..]
  {
    if e in all && Older(Pos(e), Pos(all[n - 1])) {
      var i :| 0 <= i < |all| && all[i] == e;
      assert i >= n;
      assert all[n..][i - n] == e;
    }
    if e in all[n..] {
      var i :| 0 <= i < |all| - n && all[n..][i] == e;
      assert all[n + i] == e;
    }
  }

  /** After the n-th event of a listing come the others. */
  lemma RemainingAfter(events: set<Event>, f: Filter, after: Option<Cursor>, all: seq<Event>, n: nat)
    requires UniqueIds(events) && all == Remaining(events, f, after) && 0 < n <= |all|
    ensures Remaining(events, f, Some(Pos(all[n - 1]))) == all[n..]
  {
    var c := Pos(all[n - 1]);
    var rest := Remaining(events, f, Some(c));
    assert all[n - 1] in all;
    forall e ensures e in rest <==> e in all[n..] {
      assert e in rest <==> e in all && Older(Pos(e), c);
      OlderIsLater(all, n, e);
    }
    ListingUnique(rest, all[n..]);
  }

  predicate NewerThan(start: set<Event>, arrivals: set<Event>) {
    forall o, e :: o in start && e in arrivals ==> Older(Pos(o), Pos(e))
  }

  // ---- Following the tokens -------------------------------------------------------------------------

  /** What the pages so far, all, have shown of the events known at the start or arriving meanwhile, when the
      next page is to come after the position. */
  ghost predicate Followed(start: set<Event>, known: set<Event>, f: Filter, all: seq<Event>, after: Option<Cursor>) {
    && NewestFirst(all) && (after.None? <==> all == []) && (after.Some? ==> after.value == Pos(all[|all| - 1]))
    && (forall e :: e in all ==> e in known && Matches(f, e))
    && (forall e :: e in start && Matches(f, e) && e !in all ==> after.None? || Older(Pos(e), after.value))
    && (NewerThan(start, known - start) ==> forall e :: e in all ==> e in start)
  }

  lemma AllOlder(all: seq<Event>, e: Event)
    requires NewestFirst(all) && all != [] && Older(Pos(e), Pos(all[|all| - 1]))
    ensures forall i :: 0 <= i < |all| ==> Older(Pos(e), Pos(all[i]))
  {
  }

  /** What comes after the last of some events, newest first, can be put behind them. */
  lemma Appended(all: seq<Event>, items: seq<Event>, after: Option<Cursor>)
    requires NewestFirst(all) && NewestFirst(items) && (after.None? <==> all == [])
    requires after.Some? ==> after.value == Pos(all[|all| - 1]) && forall e :: e in items ==> Older(Pos(e), after.value)
    ensures NewestFirst(all + items)
  {
    forall i, j | 0 <= i < j < |all + items| ensures Older(Pos((all + items)[j]), Pos((all + items)[i])) {
      if i < |all| <= j {
        assert items[j - |all|] in items;
        AllOlder(all, items[j - |all|]);
      }
    }
  }

  /** A page of the events now there, and what it does not show. */
  lemma FrontOf(at: set<Event>, f: Filter, after: Option<Cursor>, n: nat) returns (items: seq<Event>)
    requires UniqueIds(at) && n <= |Remaining(at, f, after)|
    ensures items == Remaining(at, f, after)[..n] && NewestFirst(items)
    ensures forall e :: e in items ==> e in at && Matches(f, e) && (after.Some? ==> Older(Pos(e), after.value))
    ensures forall e :: e in Selected(at, f, after) && e !in items ==>
              n < |Remaining(at, f, after)| && (n > 0 ==> Older(Pos(e), Pos(items[n - 1])))
  {
    var rest := Remaining(at, f, after);
    items := rest[..n];
    assert forall e :: e in items ==> e in rest;
    forall e | e in Selected(at, f, after) && e !in items ensures n < |rest| && (n > 0 ==> Older(Pos(e), Pos(items[n - 1]))) {
      TailOlder(rest, n, e);
    }
  }

  lemma InTail(rest: seq<Event>, n: nat, e: Event) returns (i: nat)
    requires n <= |rest| && e in rest && e !in rest[..n]
    ensures n <= i < |rest| && rest[i] == e
  {
    assert rest == rest[..n] + rest[n..];
    var j :| 0 <= j < |rest| - n && rest[n..][j] == e;
    i := n + j;
  }

  lemma TailOlder(rest: seq<Event>, n: nat, e: Event)
    requires NewestFirst(rest) && n <= |rest| && e in rest && e !in rest[..n]
    ensures n < |rest| && (n > 0 ==> Older(Pos(e), Pos(rest[n - 1])))
  {
    var i := InTail(rest, n, e);
  }

  lemma OnlyStart(start: set<Event>, known: set<Event>, o: Event, e: Event)
    requires NewerThan(start, known - start) && o in start && e in known && Older(Pos(e), Pos(o))
    ensures e in start
  {
  }

  /** One page more. */
  lemma FollowedMore(start: set<Event>, known: set<Event>, at: set<Event>, f: Filter, all: seq<Event>, after: Option<Cursor>,
                     n: nat, more: seq<Event>)
    requires Followed(start, known, f, all, after) && start <= at <= known && UniqueIds(at) && (after.None? ==> at == start)
    requires 0 < n <= |Remaining(at, f, after)| && more == all + Remaining(at, f, after)[..n]
    ensures Followed(start, known, f, more, Some(Pos(more[|more| - 1])))
  {
    var items := FrontOf(at, f, after, n);
    Appended(all, items, after);
    assert items[n - 1] == more[|more| - 1];
    forall e | e in start && Matches(f, e) && e !in more ensures Older(Pos(e), Pos(more[|more| - 1])) {
      assert e !in all && e !in items && e in Selected(at, f, after);
    }
    if NewerThan(start, known - start) {
      forall e | e in more ensures e in start {
        if e !in all {
          assert e in items && e in known;
          if after.Some? {
            assert all[|all| - 1] in all;
            OnlyStart(start, known, all[|all| - 1], e);
          }
        }
      }
    }
  }

  /** All the rest at last. */
  lemma FollowedOut(start: set<Event>, known: set<Event>, at: set<Event>, f: Filter, all: seq<Event>, after: Option<Cursor>,
                    whole: seq<Event>)
    requires Followed(start, known, f, all, after) && start <= at <= known && UniqueIds(at) && (after.None? ==> at == start)
    requires whole == all + Remaining(at, f, after)
    ensures NewestFirst(whole) && (forall e :: e in whole ==> e in known && Matches(f, e))
    ensures forall e :: e in start && Matches(f, e) ==> e in whole
    ensures NewerThan(start, known - start) ==> forall e :: e in whole ==> e in start
  {
    var n := |Remaining(at, f, after)|;
    assert Remaining(at, f, after)[..n] == Remaining(at, f, after);
    if n > 0 {
      FollowedMore(start, known, at, f, all, after, n, whole);
      forall e | e in start && Matches(f, e) ensures e in whole {
        if e !in all {
          assert e in Selected(at, f, after);
        }
      }
    } else {
      assert whole == all;
      forall e | e in start && Matches(f, e) ensures e in whole {
        assert e in all || e in Selected(at, f, after);
      }
    }
  }

  /** A page with a token leaves fewer events to come. */
  lemma FewerLeft(known: set<Event>, at: set<Event>, f: Filter, after: Option<Cursor>, want: nat)
    requires at <= known && UniqueIds(at) && 0 < want <= |Remaining(at, f, after)|
    ensures |Selected(known, f, Some(Pos(Remaining(at, f, after)[want - 1])))| < |Selected(known, f, after)|
  {
    var e := Remaining(at, f, after)[want - 1];
    assert e in Remaining(at, f, after);
    var left := Selected(known, f, Some(Pos(e)));
    assert e in Selected(known, f, after) && e !in left;
    assert left <= Selected(known, f, after) - {e};
    Smaller(left, Selected(known, f, after), e);
  }

  lemma Smaller(a: set<Event>, b: set<Event>, e: Event)
    requires a <= b - {e} && e in b
    ensures |a| < |b|
  {
    CardinalityAtMost(a, b - {e});
  }

  lemma CardinalityAtMost(a: set<Event>, b: set<Event>)
    requires a <= b
    ensures |a| <= |b|
  {
    assert |b - a| + |a| == |(b - a) + a| && (b - a) + a == b;
  }

  /** The events that match, newest first, are a listing of the whole. */
  lemma JustTheStart(start: set<Event>, f: Filter, whole: seq<Event>)
    requires UniqueIds(start) && NewestFirst(whole) && forall e :: e in whole <==> e in start && Matches(f, e)
    ensures whole == Remaining(start, f, None)
  {
    ListingUnique(whole, Remaining(start, f, None));
  }

  /** The caller has seen the events all, and now sees a page of those at hand after the position; last is
      where its token, if it has one, leads. */
  ghost predicate AtPage(cal: Calendar, start: set<Event>, known: set<Event>, at: set<Event>, f: Filter, all: seq<Event>,
                         after: Option<Cursor>, want: nat, page: Listed, last: Option<Cursor>)
  {
    && start <= at <= known && UniqueIds(at) && UniqueIds(start) && (after.None? ==> at == start) && want > 0
    && Followed(start, known, f, all, after)
    && var rest := Remaining(at, f, after);
       && (page.next == "" <==> last.None?) && (last.None? ==> page.items == rest)
       && (last.Some? ==> && |rest| > want && page.items == rest[..want] && last.value == Pos(rest[want - 1])
                          && PositionOf(cal, page.next) == last)
  }

  /** A page that has a token shows the front of what remains, and its token stands for its last event. */
  lemma PageShown(cal: Calendar, start: set<Event>, known: set<Event>, at: set<Event>, f: Filter, all: seq<Event>,
                  after: Option<Cursor>, want: nat, page: Listed)
    returns (last: Option<Cursor>)
    requires UniqueIds(known) && start <= at <= known && (after.None? ==> at == start) && want > 0
    requires UniqueIds(at) && Followed(start, known, f, all, after) && forall e :: e in known ==> Encodable(cal, e)
    requires page == Shown(cal, PageOf(Remaining(at, f, after), want))
    ensures AtPage(cal, start, known, at, f, all, after, want, page, last)
  {
    var rest := Remaining(at, f, after);
    last := None;
    if |rest| > want {
      last := Some(Pos(rest[want - 1]));
      assert rest[want - 1] in rest;
      TokenRoundTrips(cal, rest[want - 1]);
    }
  }

  /** Turning a page. */
  lemma PageTurned(cal: Calendar, start: set<Event>, known: set<Event>, at: set<Event>, f: Filter, all: seq<Event>,
                   after: Option<Cursor>, want: nat, page: Listed, last: Option<Cursor>, more: seq<Event>)
    requires AtPage(cal, start, known, at, f, all, after, want, page, last) && page.next != "" && more == all + page.items
    ensures Followed(start, known, f, more, last) && last.Some? && PositionOf(cal, page.next) == last
    ensures |Selected(known, f, last)| < |Selected(known, f, after)|
  {
    FollowedMore(start, known, at, f, all, after, want, more);
    FewerLeft(known, at, f, after, want);
  }

  /** Events are recorded while the pages are read. */
  method Arrive(repo: AuditRepository, arrivals: set<Event>, ghost known: set<Event>)
    requires repo.events <= known && arrivals <= known
    modifies repo
    ensures repo.events == old(repo.events) + arrivals && repo.events <= known
  {
    repo.events := repo.events + arrivals;
  }

  /** Asks for the next page. */
  method NextPage(repo: AuditRepository, cal: Calendar, f: Filter, limit: int, token: string, ghost start: set<Event>,
                  ghost known: set<Event>, ghost all: seq<Event>, ghost after: Option<Cursor>)
    returns (page: Listed, ghost last: Option<Cursor>)
    requires UniqueIds(known) && start <= repo.events <= known && (after.None? ==> repo.events == start)
    requires UniqueIds(repo.events) && Followed(start, known, f, all, after) && forall e :: e in known ==> Encodable(cal, e)
    requires if after.None? then token == "" else token != "" && PositionOf(cal, token) == after
    ensures AtPage(cal, start, known, repo.events, f, all, after, PageSize(limit), page, last)
  {
    var listed := List(repo, cal, f, limit, token);
    page := listed.value;
    last := PageShown(cal, start, known, repo.events, f, all, after, PageSize(limit), page);
  }

  /** Following tokens from none to the end, whatever events arrive between the pages, yields every event that
      matched at the start exactly once, newest first, and otherwise only matching arrivals, none twice; if
      all arrivals are newer than the events of the start, it yields those alone. For any page size. */
  method FollowPages(repo: AuditRepository, cal: Calendar, f: Filter, limit: int, arrivals: seq<set<Event>>) returns (all: seq<Event>)
    requires UniqueIds(repo.events + Union(arrivals)) && forall e :: e in repo.events + Union(arrivals) ==> Encodable(cal, e)
    modifies repo
    ensures NewestFirst(all) && forall e :: e in all ==> e in old(repo.events) + Union(arrivals) && Matches(f, e)
    ensures forall e :: e in old(repo.events) && Matches(f, e) ==> e in all
    ensures NewerThan(old(repo.events), Union(arrivals) - old(repo.events)) ==> all == Remaining(old(repo.events), f, None)
  {
    ghost var start, known, want := repo.events, repo.events + Union(arrivals), PageSize(limit);
    ghost var at, after: Option<Cursor> := repo.events, None;
    all := [];
    var k := 0;
    var page, last := NextPage(repo, cal, f, limit, "", start, known, all, after);
    while page.next != ""
      invariant repo.events <= known && at <= repo.events && k <= |arrivals|
      invariant AtPage(cal, start, known, at, f, all, after, want, page, last)
      decreases |Selected(known, f, after)|
    {
      var more := all + page.items;
      PageTurned(cal, start, known, at, f, all, after, want, page, last, more);
      all := more;
      if k < |arrivals| {
        UnionHas(arrivals, k);
        Arrive(repo, arrivals[k], known);
        k := k + 1;
      }
      at, after := repo.events, last;
      page, last := NextPage(repo, cal, f, limit, page.next, start, known, all, after);
    }
    var whole := all + page.items;
    Ended(cal, start, known, at, f, all, after, want, page, last, whole);
    all := whole;
    assert known - start == Union(arrivals) - start;
  }

  lemma Ended(cal: Calendar, start: set<Event>, known: set<Event>, at: set<Event>, f: Filter, all: seq<Event>,
              after: Option<Cursor>, want: nat, page: Listed, last: Option<Cursor>, whole: seq<Event>)
    requires AtPage(cal, start, known, at, f, all, after, want, page, last) && page.next == "" && whole == all + page.items
    ensures NewestFirst(whole) && forall e :: e in whole ==> e in known && Matches(f, e)
    ensures forall e :: e in start && Matches(f, e) ==> e in whole
    ensures NewerThan(start, known - start) ==> whole == Remaining(start, f, None)
  {
    FollowedOut(start, known, at, f, all, after, whole);
    if NewerThan(start, known - start) {
      JustTheStart(start, f, whole);
    }
  }

  function Union(sets: seq<set<Event>>): set<Event> {
    if sets == [] then {} else sets[0] + Union(sets[1..])
  }

  lemma {:induction false} UnionHas(sets: seq<set<Event>>, k: nat)
    requires k < |sets|
    ensures sets[k] <= Union(sets)
  {
    if k > 0 {
      UnionHas(sets[1..], k - 1);
      assert sets[1..][k - 1] == sets[k];
    }
  }
}
