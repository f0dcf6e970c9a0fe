/** The data browser's row edits and their undo (backend/internal/app/dbadmin/changes.go). The class
    holds the user's tables and the journal; each method is proved against a function on those two. */
module DataBrowser {
  import opened Wrappers
  import opened Rows
  import opened Tables
  import opened Journal

  datatype State = State(db: Database, journal: seq<Change>)

  predicate Sound(s: State) {
    WellFormedTables(s.db)
  }

  // ---- Specification ------------------------------------------------------------------------

  /** The entries a change adds to the journal: one, or none if it did nothing. */
  function Entries(env: Env, table: TableName, source: Source, ch: RowChange, meta: Meta, undoOf: Option<nat>): seq<Change> {
    if ch.op.Nothing? then [] else [FromEngine(env, table, source, ch, meta, undoOf)]
  }

  /** Journals a change; returns its entry's id, if it has one. */
  function Recorded(env: Env, s: State, table: TableName, source: Source, ch: RowChange, meta: Meta, undoOf: Option<nat>)
    : (State, Option<nat>)
  {
    (s.(journal := s.journal + Entries(env, table, source, ch, meta, undoOf)),
     if ch.op.Nothing? then None else Some(|s.journal|))
  }

  function Edited(env: Env, s: State, table: TableName, e: Edit, meta: Meta, fault: bool)
    : (r: (State, Result<Option<nat>, EngineError>))
    requires Sound(s)
    ensures Sound(r.0) && |r.0.journal| >= |s.journal|
  {
    if fault || table !in s.db then (s, Err(Failed))
    else match ChangeRow(s.db[table], e)
      case Err(x) => (s, Err(x))
      case Ok((t, ch)) =>
        var (s', id) := Recorded(env, s.(db := s.db[table := t]), table, Editor, ch, meta, None);
        (s', Ok(id))
  }

  datatype UndoOutcome =
    | Undone(ref: Option<nat>)  // ref: the undo's own journal entry, if it changed anything
    | Conflict                  // the row or the table changed since
    | AlreadyUndone
    | NotUndoable

  datatype UndoError = Unauthorized | EngineFailed

  function Claimed(journal: seq<Change>, id: nat, user: Option<User>): seq<Change>
    requires id < |journal|
  {
    journal[id := journal[id].(undoneBy := user)]
  }

  /** Undoing c, read earlier as entry id. fault: the engine call fails without writing. */
  function UndoOne(env: Env, s: State, id: nat, c: Change, meta: Meta, force: bool, fault: bool)
    : (r: (State, Result<UndoOutcome, UndoError>))
    requires Sound(s) && id < |s.journal|
    ensures Sound(r.0) && |r.0.journal| >= |s.journal|
  {
    if !c.undoable then (s, Ok(NotUndoable))
    else if meta.user.None? then (s, Err(Unauthorized))
    else if s.journal[id].undoneBy.Some? || !s.journal[id].undoable then (s, Ok(AlreadyUndone))
    else if fault || c.table !in s.db then (s, Err(EngineFailed))
    else match ApplyRow(s.db[c.table], UndoRequest(c, force), env.defaults(c.table))
      case Err(Failed) => (s, Err(EngineFailed))
      case Err(_) => (s, Ok(Conflict))
      case Ok((t, ch)) =>
        var applied := State(s.db[c.table := t], Claimed(s.journal, id, meta.user));
        var (s', ref) := Recorded(env, applied, c.table, Undo, ch, meta, Some(id));
        (s', Ok(Undone(ref)))
  }

  predicate Within(ids: seq<nat>, n: nat) {
    forall i :: 0 <= i < |ids| ==> ids[i] < n
  }

  /** The newest entries of a batch, newest first, at most limit of them. */
  function Newest(journal: seq<Change>, batch: Batch, limit: nat): (ids: seq<nat>)
    ensures Within(ids, |journal|)
  {
    if journal == [] || limit == 0 then []
    else
      var last := |journal| - 1;
      if journal[last].batch == Some(batch) then [last] + Newest(journal[..last], batch, limit - 1)
      else Newest(journal[..last], batch, limit)
  }

  datatype BatchUndo = BatchUndo(state: State, outcomes: seq<(nat, UndoOutcome)>, error: Option<UndoError>)

  /** Undoes ids in order, as snapshot listed them, adding to out; an error stops it, a conflict does not. */
  function UndoAll(env: Env, s: State, ids: seq<nat>, snapshot: seq<Change>, meta: Meta, force: bool, faults: set<nat>,
                   out: seq<(nat, UndoOutcome)>)
    : (r: BatchUndo)
    requires Sound(s) && |snapshot| <= |s.journal|
    requires Within(ids, |snapshot|)
    ensures Sound(r.state) && |r.state.journal| >= |s.journal|
    decreases |ids|
  {
    if ids == [] then BatchUndo(s, out, None)
    else
      var id := ids[0];
      var c := snapshot[id];
      if c.undoneBy.Some? || !c.undoable then UndoAll(env, s, ids[1..], snapshot, meta, force, faults, out)
      else
        var (s', r) := UndoOne(env, s, id, c, meta, force, id in faults);
        match r
        case Err(e) => BatchUndo(s', out, Some(e))
        case Ok(o) => UndoAll(env, s', ids[1..], snapshot, meta, force, faults, out + [(id, o)])
  }

  // ---- What undoing a batch reports ---------------------------------------------------------

  predicate Eligible(c: Change) {
    c.undoable && c.undoneBy.None?
  }

  /** The entries of the batch that are newer. */
  function Newer(journal: seq<Change>, batch: Batch, x: nat): set<nat> {
    set i | x < i < |journal| && journal[i].batch == Some(batch)
  }

  /** Among the newest MAX_BATCH_UNDO entries of the batch, undoable and not undone yet. */
  predicate ToUndo(journal: seq<Change>, batch: Batch, x: nat) {
    && x < |journal| && journal[x].batch == Some(batch) && |Newer(journal, batch, x)| < MAX_BATCH_UNDO
    && journal[x].undoable && journal[x].undoneBy.None?
  }

  predicate Descending(ids: seq<nat>) {
    forall i, j :: 0 <= i < j < |ids| ==> ids[i] > ids[j]
  }

  predicate HasOutcome(out: seq<(nat, UndoOutcome)>, x: nat) {
    exists i :: 0 <= i < |out| && out[i].0 == x
  }

  predicate Undid(out: seq<(nat, UndoOutcome)>, x: nat) {
    exists i :: 0 <= i < |out| && out[i].0 == x && out[i].1.Undone?
  }

  predicate NewestFirst(out: seq<(nat, UndoOutcome)>) {
    && (forall i, j :: 0 <= i < j < |out| ==> out[i].0 > out[j].0)
    && (forall i :: 0 <= i < |out| ==> out[i].1.Undone? || out[i].1.Conflict?)
  }

  /** Of the old entries exactly those reported undone have changed: they are marked undone by the user. */
  ghost predicate Marks(journal: seq<Change>, user: Option<User>, journal': seq<Change>, out: seq<(nat, UndoOutcome)>) {
    && |journal| <= |journal'|
    && (forall x :: 0 <= x < |journal| ==> journal'[x] == if Undid(out, x) then journal[x].(undoneBy := user) else journal[x])
    && (forall x: nat :: Undid(out, x) ==> user.Some?)
  }

  /** What undoing a batch comes to, said of the entries: without an error, every entry to undo has an
      outcome, and no other; with one, those newer than the entry that failed. */
  ghost predicate Reports(journal: seq<Change>, batch: Batch, user: Option<User>, journal': seq<Change>, out: seq<(nat, UndoOutcome)>,
                          error: Option<UndoError>)
  {
    && NewestFirst(out) && Marks(journal, user, journal', out)
    && (error.None? ==> forall x: nat :: HasOutcome(out, x) <==> ToUndo(journal, batch, x))
    && (error.Some? ==> exists bad: nat :: ToUndo(journal, batch, bad)
                          && forall x: nat :: HasOutcome(out, x) <==> ToUndo(journal, batch, x) && x > bad)
  }

  lemma NewerLast(journal: seq<Change>, batch: Batch, x: nat)
    requires x < |journal| - 1
    ensures |Newer(journal, batch, x)|
         == |Newer(journal[..|journal| - 1], batch, x)| + if journal[|journal| - 1].batch == Some(batch) then 1 else 0
  {
    var last := |journal| - 1;
    var before := Newer(journal[..last], batch, x);
    assert last !in before;
    assert Newer(journal, batch, x) == if journal[last].batch == Some(batch) then before + {last} else before;
  }

  lemma {:induction false} NewestIff(journal: seq<Change>, batch: Batch, limit: nat, x: nat)
    ensures x in Newest(journal, batch, limit) <==>
              x < |journal| && journal[x].batch == Some(batch) && |Newer(journal, batch, x)| < limit
    decreases |journal|
  {
    if journal != [] && limit > 0 {
      var last := |journal| - 1;
      NewestIff(journal[..last], batch, if journal[last].batch == Some(batch) then limit - 1 else limit, x);
      if x < last {
        NewerLast(journal, batch, x);
      } else if x == last {
        assert Newer(journal, batch, x) == {};
      }
    }
  }

  lemma {:induction false} NewestDescending(journal: seq<Change>, batch: Batch, limit: nat)
    ensures Descending(Newest(journal, batch, limit))
    decreases |journal|
  {
    if journal != [] && limit > 0 {
      var last := |journal| - 1;
      NewestDescending(journal[..last], batch, if journal[last].batch == Some(batch) then limit - 1 else limit);
    }
  }

  /** The entries of done have been looked at, and the others not. */
  ghost predicate SoFar(snapshot: seq<Change>, user: Option<User>, journal: seq<Change>, out: seq<(nat, UndoOutcome)>, done: seq<nat>) {
    && NewestFirst(out) && Marks(snapshot, user, journal, out)
    && (forall x: nat :: HasOutcome(out, x) <==> x in done && x < |snapshot| && Eligible(snapshot[x]))
  }

  /** Undoing an entry that can be undone touches no other entry, and this one exactly if it succeeds. */
  lemma UndoOneMarks(env: Env, s: State, id: nat, meta: Meta, force: bool, fault: bool)
    requires Sound(s) && id < |s.journal| && Eligible(s.journal[id])
    ensures var (s', r) := UndoOne(env, s, id, s.journal[id], meta, force, fault);
            && |s.journal| <= |s'.journal|
            && (r.Ok? ==> r.value.Undone? || r.value.Conflict?)
            && (r.Ok? && r.value.Undone? ==> meta.user.Some? && s'.journal[..|s.journal|] == Claimed(s.journal, id, meta.user))
            && (r.Err? || !r.value.Undone? ==> s'.journal == s.journal)
  {
  }

  lemma OutcomeMore(out: seq<(nat, UndoOutcome)>, id: nat, o: UndoOutcome, x: nat)
    ensures HasOutcome(out + [(id, o)], x) <==> HasOutcome(out, x) || x == id
    ensures Undid(out + [(id, o)], x) <==> Undid(out, x) || (x == id && o.Undone?)
  {
    var more := out + [(id, o)];
    assert more[|out|] == (id, o);
    if HasOutcome(out, x) {
      var i :| 0 <= i < |out| && out[i].0 == x;
      assert more[i].0 == x;
    }
    if Undid(out, x) {
      var i :| 0 <= i < |out| && out[i].0 == x && out[i].1.Undone?;
      assert more[i] == out[i];
    }
  }

  lemma Skipped(snapshot: seq<Change>, user: Option<User>, journal: seq<Change>, out: seq<(nat, UndoOutcome)>, done: seq<nat>, id: nat)
    requires SoFar(snapshot, user, journal, out, done) && id < |snapshot| && !Eligible(snapshot[id])
    ensures SoFar(snapshot, user, journal, out, done + [id])
  {
  }

  lemma NotYetTouched(snapshot: seq<Change>, user: Option<User>, journal: seq<Change>, out: seq<(nat, UndoOutcome)>, done: seq<nat>, id: nat)
    requires SoFar(snapshot, user, journal, out, done) && id < |snapshot| && id !in done
    ensures journal[id] == snapshot[id] && !Undid(out, id)
  {
    if Undid(out, id) {
      assert HasOutcome(out, id);
    }
  }

  lemma MarksMore(snapshot: seq<Change>, user: Option<User>, journal: seq<Change>, journal': seq<Change>,
                  out: seq<(nat, UndoOutcome)>, id: nat, o: UndoOutcome)
    requires Marks(snapshot, user, journal, out) && id < |snapshot| && !Undid(out, id) && |journal| <= |journal'|
    requires o.Undone? ==> user.Some? && journal'[..|journal|] == Claimed(journal, id, user)
    requires !o.Undone? ==> journal' == journal
    ensures Marks(snapshot, user, journal', out + [(id, o)])
  {
    forall x: nat ensures Undid(out + [(id, o)], x) <==> Undid(out, x) || (x == id && o.Undone?) {
      OutcomeMore(out, id, o, x);
    }
    forall x | 0 <= x < |snapshot|
      ensures journal'[x] == if Undid(out + [(id, o)], x) then snapshot[x].(undoneBy := user) else snapshot[x]
    {
      assert o.Undone? ==> journal'[..|journal|][x] == journal'[x];
    }
  }

  lemma Reported(snapshot: seq<Change>, user: Option<User>, journal: seq<Change>, journal': seq<Change>, out: seq<(nat, UndoOutcome)>,
                 done: seq<nat>, id: nat, o: UndoOutcome)
    requires SoFar(snapshot, user, journal, out, done) && id < |snapshot| && Eligible(snapshot[id]) && Descending(done + [id])
    requires (o.Undone? || o.Conflict?) && |journal| <= |journal'|
    requires o.Undone? ==> user.Some? && journal'[..|journal|] == Claimed(journal, id, user)
    requires !o.Undone? ==> journal' == journal
    ensures SoFar(snapshot, user, journal', out + [(id, o)], done + [id])
  {
    var more := out + [(id, o)];
    forall x: nat ensures HasOutcome(more, x) <==> HasOutcome(out, x) || x == id {
      OutcomeMore(out, id, o, x);
    }
    BeforeLast(done, id);
    NotYetTouched(snapshot, user, journal, out, done, id);
    MarksMore(snapshot, user, journal, journal', out, id, o);
    forall i | 0 <= i < |out| ensures out[i].0 > id {
      assert HasOutcome(out, out[i].0);
    }
  }

  lemma BeforeLast(done: seq<nat>, id: nat)
    requires Descending(done + [id])
    ensures id !in done && forall x :: x in done ==> x > id
  {
    forall x | x in done ensures x > id {
      var i :| 0 <= i < |done| && done[i] == x;
      assert (done + [id])[i] == x && (done + [id])[|done|] == id;
    }
  }

  lemma DescendingStart(done: seq<nat>, ids: seq<nat>)
    requires Descending(done + ids) && ids != []
    ensures Descending(done + [ids[0]]) && done + [ids[0]] + ids[1..] == done + ids
  {
    assert done + ids == done + [ids[0]] + ids[1..];
    assert forall i :: 0 <= i <= |done| ==> (done + [ids[0]])[i] == (done + ids)[i];
  }

  /** The next entry is undone, in conflict, or an error. */
  lemma UndoneNext(env: Env, s: State, id: nat, snapshot: seq<Change>, meta: Meta, force: bool, fault: bool,
                   out: seq<(nat, UndoOutcome)>, done: seq<nat>)
    requires Sound(s) && |snapshot| <= |s.journal| && id < |snapshot| && Eligible(snapshot[id]) && Descending(done + [id])
    requires SoFar(snapshot, meta.user, s.journal, out, done)
    ensures var (s', r) := UndoOne(env, s, id, snapshot[id], meta, force, fault);
            && |snapshot| <= |s'.journal|
            && (r.Err? ==> SoFar(snapshot, meta.user, s'.journal, out, done))
            && (r.Ok? ==> SoFar(snapshot, meta.user, s'.journal, out + [(id, r.value)], done + [id]))
  {
    BeforeLast(done, id);
    NotYetTouched(snapshot, meta.user, s.journal, out, done, id);
    var (s', r) := UndoOne(env, s, id, snapshot[id], meta, force, fault);
    UndoOneMarks(env, s, id, meta, force, fault);
    if r.Ok? {
      Reported(snapshot, meta.user, s.journal, s'.journal, out, done, id, r.value);
    }
  }

  /** Undoing ids, after the entries of done, came to an end at the k-th: past the last, or at an error. */
  ghost predicate StoppedAt(snapshot: seq<Change>, user: Option<User>, r: BatchUndo, done: seq<nat>, ids: seq<nat>, k: nat) {
    && Within(ids, |snapshot|) && k <= |ids| && SoFar(snapshot, user, r.state.journal, r.outcomes, done + ids[..k])
    && (r.error.None? ==> k == |ids|) && (r.error.Some? ==> k < |ids| && Eligible(snapshot[ids[k]]))
  }

  lemma StoppedLater(snapshot: seq<Change>, user: Option<User>, r: BatchUndo, done: seq<nat>, ids: seq<nat>, n: nat)
    requires ids != [] && Within(ids, |snapshot|) && StoppedAt(snapshot, user, r, done + [ids[0]], ids[1..], n)
    ensures StoppedAt(snapshot, user, r, done, ids, n + 1)
  {
    assert ids[..n + 1] == [ids[0]] + ids[1..][..n];
    assert done + [ids[0]] + ids[1..][..n] == done + ids[..n + 1];
  }

  /** Where undoing a list of entries stops, and with what. */
  lemma {:induction false} UndoAllReports(env: Env, s: State, ids: seq<nat>, snapshot: seq<Change>, meta: Meta, force: bool, faults: set<nat>,
                                          out: seq<(nat, UndoOutcome)>, done: seq<nat>)
    returns (k: nat)
    requires Sound(s) && |snapshot| <= |s.journal| && Within(ids, |snapshot|) && Descending(done + ids)
    requires SoFar(snapshot, meta.user, s.journal, out, done)
    ensures StoppedAt(snapshot, meta.user, UndoAll(env, s, ids, snapshot, meta, force, faults, out), done, ids, k)
    decreases |ids|, 1
  {
    k := 0;
    assert done + ids[..0] == done;
    if ids != [] {
      var id, c := ids[0], snapshot[ids[0]];
      DescendingStart(done, ids);
      if Eligible(c) {
        k := FirstUndone(env, s, ids, snapshot, meta, force, faults, out, done);
      } else {
        Skipped(snapshot, meta.user, s.journal, out, done, id);
        var n := UndoAllReports(env, s, ids[1..], snapshot, meta, force, faults, out, done + [id]);
        StoppedLater(snapshot, meta.user, UndoAll(env, s, ids[1..], snapshot, meta, force, faults, out), done, ids, n);
        k := n + 1;
      }
    }
  }

  lemma FirstUndone(env: Env, s: State, ids: seq<nat>, snapshot: seq<Change>, meta: Meta, force: bool, faults: set<nat>,
                    out: seq<(nat, UndoOutcome)>, done: seq<nat>)
    returns (k: nat)
    requires Sound(s) && |snapshot| <= |s.journal| && Within(ids, |snapshot|) && ids != [] && Eligible(snapshot[ids[0]])
    requires Descending(done + [ids[0]]) && Descending(done + [ids[0]] + ids[1..])
    requires SoFar(snapshot, meta.user, s.journal, out, done)
    ensures StoppedAt(snapshot, meta.user, UndoAll(env, s, ids, snapshot, meta, force, faults, out), done, ids, k)
    decreases |ids|, 0
  {
    var id := ids[0];
    var (s', r) := UndoOne(env, s, id, snapshot[id], meta, force, id in faults);
    UndoneNext(env, s, id, snapshot, meta, force, id in faults, out, done);
    if r.Ok? {
      var more := out + [(id, r.value)];
      var n := UndoAllReports(env, s', ids[1..], snapshot, meta, force, faults, more, done + [id]);
      StoppedLater(snapshot, meta.user, UndoAll(env, s', ids[1..], snapshot, meta, force, faults, more), done, ids, n);
      k := n + 1;
    } else {
      k := 0;
      assert done + ids[..0] == done;
    }
  }

  lemma NothingYet(snapshot: seq<Change>, user: Option<User>)
    ensures SoFar(snapshot, user, snapshot, [], [])
  {
  }

  lemma StoppedReports(journal: seq<Change>, batch: Batch, user: Option<User>, r: BatchUndo, ids: seq<nat>, k: nat)
    requires ids == Newest(journal, batch, MAX_BATCH_UNDO) && Descending(ids) && StoppedAt(journal, user, r, [], ids, k)
    ensures Reports(journal, batch, user, r.state.journal, r.outcomes, r.error)
  {
    assert [] + ids[..k] == ids[..k];
    forall x: nat ensures x in ids && Eligible(journal[x]) <==> ToUndo(journal, batch, x) {
      NewestIff(journal, batch, MAX_BATCH_UNDO, x);
    }
    if r.error.None? {
      assert ids[..k] == ids;
    } else {
      forall x: nat ensures x in ids[..k] <==> x in ids && x > ids[k] {
        FrontIff(ids, k, x);
      }
      assert ToUndo(journal, batch, ids[k]);
    }
  }

  lemma UndoBatchReports(env: Env, s: State, batch: Batch, meta: Meta, force: bool, faults: set<nat>, ids: seq<nat>)
    requires Sound(s) && ids == Newest(s.journal, batch, MAX_BATCH_UNDO)
    ensures var r := UndoAll(env, s, ids, s.journal, meta, force, faults, []);
            Reports(s.journal, batch, meta.user, r.state.journal, r.outcomes, r.error)
  {
    NewestDescending(s.journal, batch, MAX_BATCH_UNDO);
    assert [] + ids == ids;
    NothingYet(s.journal, meta.user);
    var k := UndoAllReports(env, s, ids, s.journal, meta, force, faults, [], []);
    StoppedReports(s.journal, batch, meta.user, UndoAll(env, s, ids, s.journal, meta, force, faults, []), ids, k);
  }

  lemma FrontIff(ids: seq<nat>, k: nat, x: nat)
    requires Descending(ids) && k < |ids|
    ensures x in ids[..k] <==> x in ids && x > ids[k]
  {
    if x in ids {
      var i :| 0 <= i < |ids| && ids[i] == x;
      if i < k {
        assert ids[..k][i] == x;
      }
    }
  }

  // ---- The service --------------------------------------------------------------------------

  class Browser {
    var db: Database
    var journal: seq<Change>
    const env: Env

    constructor (db: Database, env: Env)
      requires WellFormedTables(db)
      ensures Valid() && Now() == State(db, []) && this.env == env
    {
      this.db, this.journal, this.env := db, [], env;
    }

    function Now(): State
      reads this
    {
      State(db, journal)
    }

    predicate Valid()
      reads this
    {
      Sound(Now())
    }

    method Record(table: TableName, source: Source, ch: RowChange, meta: Meta, undoOf: Option<nat>) returns (id: Option<nat>)
      requires Valid()
      modifies this`journal
      ensures (Now(), id) == Recorded(env, old(Now()), table, source, ch, meta, undoOf)
    {
      if ch.op.Nothing? {
        assert journal + [] == journal;
        return None;
      }
      id := Some(|journal|);
      journal := journal + [FromEngine(env, table, source, ch, meta, undoOf)];
    }

    /** Runs one row edit, then journals it. */
    method EditRow(table: TableName, e: Edit, meta: Meta, fault: bool) returns (r: Result<Option<nat>, EngineError>)
      requires Valid()
      modifies this
      ensures Valid() && (Now(), r) == Edited(env, old(Now()), table, e, meta, fault)
    {
      if fault || table !in db {
        return Err(Failed);
      }
      var o := ChangeRow(db[table], e);
      if o.Err? {
        return Err(o.error);
      }
      db := db[table := o.value.0];
      var id := Record(table, Editor, o.value.1, meta, None);
      r := Ok(id);
    }

    /** Marks an entry undone unless it already is; false means someone else got there first. */
    method ClaimUndo(id: nat, user: User) returns (ok: bool)
      requires Valid() && id < |journal|
      modifies this`journal
      ensures Valid()
      ensures ok <==> old(journal)[id].undoneBy.None? && old(journal)[id].undoable
      ensures journal == if ok then Claimed(old(journal), id, Some(user)) else old(journal)
    {
      ok := journal[id].undoneBy.None? && journal[id].undoable;
      if ok {
        journal := journal[id := journal[id].(undoneBy := Some(user))];
      }
    }

    method ReleaseUndo(id: nat)
      requires Valid() && id < |journal|
      modifies this`journal
      ensures Valid() && journal == Claimed(old(journal), id, None)
    {
      journal := journal[id := journal[id].(undoneBy := None)];
    }

    /** Applies the inverse of c: claim the entry, write the row, and release the claim if that failed. */
    method UndoEntry(id: nat, c: Change, meta: Meta, force: bool, fault: bool) returns (r: Result<UndoOutcome, UndoError>)
      requires Valid() && id < |journal|
      modifies this
      ensures Valid() && (Now(), r) == UndoOne(env, old(Now()), id, c, meta, force, fault)
    {
      if !c.undoable {
        return Ok(NotUndoable);
      }
      var req := UndoRequest(c, force);
      if meta.user.None? {
        return Err(Unauthorized);
      }
      var ok := ClaimUndo(id, meta.user.value);
      if !ok {
        return Ok(AlreadyUndone);
      }
      var o: Outcome := Err(Failed);
      if !fault && c.table in db {
        o := ApplyRow(db[c.table], req, env.defaults(c.table));
      }
      if o.Err? {
        ReleaseUndo(id);
        assert journal == old(journal);
        if o.error.RowChanged? || o.error.StructureChanged? {
          return Ok(Conflict);
        }
        return Err(EngineFailed);
      }
      db := db[c.table := o.value.0];
      var ref := Record(c.table, Undo, o.value.1, meta, Some(id));
      r := Ok(Undone(ref));
    }

    method UndoChange(id: nat, meta: Meta, force: bool, fault: bool) returns (r: Result<UndoOutcome, UndoError>)
      requires Valid() && id < |journal|
      modifies this
      ensures Valid() && (Now(), r) == UndoOne(env, old(Now()), id, old(journal)[id], meta, force, fault)
    {
      r := UndoEntry(id, journal[id], meta, force, fault);
    }

    /** Reverts every not yet undone change of one save, newest first, and reports each. */
    method UndoBatch(batch: Batch, meta: Meta, force: bool, faults: set<nat>)
      returns (out: seq<(nat, UndoOutcome)>, error: Option<UndoError>)
      requires Valid()
      modifies this
      ensures Valid()
      ensures BatchUndo(Now(), out, error)
           == UndoAll(env, old(Now()), Newest(old(journal), batch, MAX_BATCH_UNDO), old(journal), meta, force, faults, [])
      ensures Reports(old(journal), batch, meta.user, journal, out, error)
    {
      UndoBatchReports(env, Now(), batch, meta, force, faults, Newest(journal, batch, MAX_BATCH_UNDO));
      var changes, ids := journal, Newest(journal, batch, MAX_BATCH_UNDO);
      ghost var whole := UndoAll(env, Now(), ids, changes, meta, force, faults, []);
      out, error := [], None;
      for i := 0 to |ids|
        invariant Valid() && |changes| <= |journal| && error.None?
        invariant UndoAll(env, Now(), ids[i..], changes, meta, force, faults, out) == whole
      {
        var id := ids[i];
        var c := changes[id];
        assert ids[i..][1..] == ids[i + 1..];
        if c.undoneBy.Some? || !c.undoable {
          continue;
        }
        var r := UndoEntry(id, c, meta, force, id in faults);
        if r.Err? {
          error := Some(r.error);
          return;
        }
        out := out + [(id, r.value)];
      }
    }
  }

  // ---- A batch is taken back exactly --------------------------------------------------------

  predicate RecordsStep(db: Database, c: Change, db': Database) {
    c.table in db && c.table in db' && db' == db[c.table := db'[c.table]] && Records(db[c.table], c, db'[c.table])
  }

  /** cs are exact entries of successive changes leading through states. */
  predicate Chain(states: seq<Database>, cs: seq<Change>) {
    |states| == |cs| + 1 && forall i :: 0 <= i < |cs| ==> RecordsStep(states[i], cs[i], states[i + 1])
  }

  predicate AllUndoable(cs: seq<Change>) {
    forall i :: 0 <= i < |cs| ==> cs[i].undoable
  }

  /** Fresh entries of one batch: none of them undone. */
  predicate InBatch(cs: seq<Change>, batch: Option<Batch>) {
    forall i :: 0 <= i < |cs| ==> cs[i].batch == batch && cs[i].undoneBy.None?
  }

  predicate BatchUnused(journal: seq<Change>, batch: Batch) {
    forall i :: 0 <= i < |journal| ==> journal[i].batch != Some(batch)
  }

  lemma ChainPrepend(db: Database, c: Change, states: seq<Database>, cs: seq<Change>)
    requires Chain(states, cs) && RecordsStep(db, c, states[0])
    ensures Chain([db] + states, [c] + cs)
  {
  }

  /** Unless an entry among cs is not undoable, cs lead from one database to another through states. */
  predicate Leads(states: seq<Database>, cs: seq<Change>, from: Database, to: Database) {
    AllUndoable(cs) ==> Chain(states, cs) && states[0] == from && states[|cs|] == to
  }

  lemma LeadsPrepend(db: Database, c: Change, next: Database, states: seq<Database>, cs: seq<Change>, to: Database)
    requires Leads(states, cs, next, to)
    requires c.undoable ==> RecordsStep(db, c, next)
    ensures Leads([db] + states, [c] + cs, db, to)
  {
    if AllUndoable([c] + cs) {
      assert ([c] + cs)[0] == c && forall i :: 0 <= i < |cs| ==> ([c] + cs)[i + 1] == cs[i];
      ChainPrepend(db, c, states, cs);
    }
  }

  /** n + k - 1 down to n. */
  function Down(n: nat, k: nat): (ids: seq<nat>)
    ensures |ids| == k && forall i :: 0 <= i < k ==> ids[i] == n + k - 1 - i
  {
    if k == 0 then [] else [n + k - 1] + Down(n, k - 1)
  }

  lemma {:induction false} NewestIsBatch(before: seq<Change>, cs: seq<Change>, batch: Batch, limit: nat)
    requires BatchUnused(before, batch) && InBatch(cs, Some(batch)) && |cs| <= limit
    ensures Newest(before + cs, batch, limit) == Down(|before|, |cs|)
    decreases |before| + |cs|
  {
    var j := before + cs;
    if cs != [] {
      var last := |cs| - 1;
      assert j[|j| - 1] == cs[last];
      assert j[..|j| - 1] == before + cs[..last];
      NewestIsBatch(before, cs[..last], batch, limit - 1);
    } else if before != [] && limit > 0 {
      var last := |before| - 1;
      assert j[last] == before[last];
      assert j[..last] == before[..last] + [];
      NewestIsBatch(before[..last], [], batch, limit);
    }
  }

  lemma UndoOneApplies(env: Env, s: State, id: nat, c: Change, meta: Meta, force: bool, t: Table, ch: RowChange)
    returns (ref: Option<nat>)
    requires Sound(s) && id < |s.journal| && s.journal[id] == c && c.undoneBy.None? && c.undoable && meta.user.Some?
    requires c.table in s.db && ApplyRow(s.db[c.table], UndoRequest(c, force), env.defaults(c.table)) == Ok((t, ch))
    ensures UndoOne(env, s, id, c, meta, force, false)
         == (State(s.db[c.table := t], Claimed(s.journal, id, meta.user) + Entries(env, c.table, Undo, ch, meta, Some(id))),
             Ok(Undone(ref)))
  {
    ref := if ch.op.Nothing? then None else Some(|s.journal|);
  }

  /** One undo of a recorded step: succeeds, goes back, and its entry, if any, records the way back. */
  lemma UndoStep(env: Env, s: State, id: nat, c: Change, prev: Database, meta: Meta, force: bool)
    returns (us: seq<Change>, ref: Option<nat>)
    requires Sound(s) && id < |s.journal| && s.journal[id] == c && c.undoneBy.None? && meta.user.Some?
    requires RecordsStep(prev, c, s.db)
    ensures UndoOne(env, s, id, c, meta, force, false)
         == (State(prev, Claimed(s.journal, id, meta.user) + us), Ok(Undone(ref)))
    ensures |us| <= 1 && (us == [] ==> prev == s.db) && InBatch(us, meta.batch)
    ensures us != [] && us[0].undoable ==> RecordsStep(s.db, us[0], prev)
  {
    var ch := UndoGoesBack(env, c.table, prev, c, s.db, meta, force, id);
    us := Entries(env, c.table, Undo, ch, meta, Some(id));
    ref := UndoOneApplies(env, s, id, c, meta, force, prev[c.table], ch);
  }

  lemma UndoGoesBack(env: Env, table: TableName, prev: Database, c: Change, db: Database, meta: Meta, force: bool, id: nat)
    returns (ch: RowChange)
    requires table == c.table && RecordsStep(prev, c, db)
    ensures ApplyRow(db[table], UndoRequest(c, force), env.defaults(table)) == Ok((prev[table], ch))
    ensures db[table := prev[table]] == prev
    ensures var us := Entries(env, table, Undo, ch, meta, Some(id));
            && (us == [] ==> prev == db)
            && (us != [] && us[0].undoable ==> RecordsStep(db, us[0], prev))
  {
    UndoIsInverse(env, table, prev[table], c, db[table], force, meta, Some(id));
    ch := ApplyRow(db[table], UndoRequest(c, force), env.defaults(table)).value.1;
    assert db[table := prev[table]] == prev;
  }

  /** A journal after k undos from entry n on: old entries keep their batch and, outside the undone
      ones, everything; us follows them. */
  predicate Extends(journal: seq<Change>, old': seq<Change>, n: nat, k: nat, us: seq<Change>) {
    && |journal| == |old'| + |us|
    && (forall i :: 0 <= i < |old'| ==> journal[i].batch == old'[i].batch && (n <= i < n + k || journal[i] == old'[i]))
    && (forall i :: 0 <= i < |us| ==> journal[|old'| + i] == us[i])
  }

  /** What undoing the k recorded entries from n on leaves: the first database, and new entries us
      that, when all undoable, lead back to s through states. */
  predicate TookBack(s: State, r: BatchUndo, done: nat, n: nat, k: nat, first: Database, meta: Meta, us: seq<Change>,
                     states: seq<Database>) {
    && r.error.None? && r.state.db == first
    && |r.outcomes| == done + k && (forall i :: done <= i < done + k ==> r.outcomes[i].1.Undone?)
    && Extends(r.state.journal, s.journal, n, k, us)
    && |us| <= k && InBatch(us, meta.batch)
    && Leads(states, us, s.db, first)
  }

  lemma ExtendsOneMore(j2: seq<Change>, j1: seq<Change>, j0: seq<Change>, n: nat, k: nat, one: seq<Change>, rest: seq<Change>)
    requires Extends(j1, j0, n + k, 1, one) && Extends(j2, j1, n, k, rest) && n + k < |j0|
    ensures Extends(j2, j0, n, k + 1, one + rest)
  {
    forall i | 0 <= i < |one + rest| ensures j2[|j0| + i] == (one + rest)[i] {
      if i >= |one| { assert j2[|j1| + (i - |one|)] == rest[i - |one|]; }
    }
  }

  /** Prepends one undo step to what the remaining ones left. */
  lemma TookBackOneMore(s: State, s': State, r: BatchUndo, done: nat, n: nat, k: nat, id: nat, first: Database, meta: Meta,
                        one: seq<Change>, rest: seq<Change>, tail: seq<Database>)
    returns (back: seq<Database>)
    requires TookBack(s', r, done + 1, n, k, first, meta, rest, tail)
    requires |r.outcomes| > done && r.outcomes[done].1.Undone?
    requires id == n + k < |s.journal| && Extends(s'.journal, s.journal, id, 1, one)
    requires |one| <= 1 && (one == [] ==> s'.db == s.db) && InBatch(one, meta.batch)
    requires one != [] && one[0].undoable ==> RecordsStep(s.db, one[0], s'.db)
    ensures TookBack(s, r, done, n, k + 1, first, meta, one + rest, back)
  {
    var us := one + rest;
    ExtendsOneMore(r.state.journal, s'.journal, s.journal, n, k, one, rest);
    back := if one == [] then tail else [s.db] + tail;
    if one == [] {
      assert us == rest;
    } else {
      assert us == [one[0]] + rest;
      LeadsPrepend(s.db, one[0], s'.db, tail, rest, first);
    }
  }

  /** The entries from n on begin with the first k of cs, none of them undone. */
  predicate Holds(journal: seq<Change>, n: nat, cs: seq<Change>, k: nat) {
    && k <= |cs| && n + k <= |journal|
    && forall i {:trigger cs[i]} :: 0 <= i < k ==> journal[n + i] == cs[i] && cs[i].undoneBy.None?
  }

  lemma HoldsAppended(before: seq<Change>, cs: seq<Change>, batch: Batch)
    requires InBatch(cs, Some(batch))
    ensures Holds(before + cs, |before|, cs, |cs|)
  {
  }

  lemma HoldsAfterOneMore(j': seq<Change>, j: seq<Change>, n: nat, cs: seq<Change>, k: nat, id: nat, one: seq<Change>)
    requires id == n + k && Holds(j, n, cs, k + 1) && Extends(j', j, id, 1, one)
    ensures Holds(j', n, cs, k)
  {
  }

  lemma UndoAllFirst(env: Env, s: State, ids: seq<nat>, snapshot: seq<Change>, meta: Meta, force: bool,
                     out: seq<(nat, UndoOutcome)>, s': State, o: UndoOutcome)
    requires Sound(s) && ids != [] && |snapshot| <= |s.journal| && Within(ids, |snapshot|)
    requires snapshot[ids[0]].undoneBy.None? && snapshot[ids[0]].undoable
    requires UndoOne(env, s, ids[0], snapshot[ids[0]], meta, force, false) == (s', Ok(o))
    ensures UndoAll(env, s, ids, snapshot, meta, force, {}, out)
         == UndoAll(env, s', ids[1..], snapshot, meta, force, {}, out + [(ids[0], o)])
  {
  }

  lemma ClaimExtends(journal: seq<Change>, id: nat, user: Option<User>, one: seq<Change>)
    requires id < |journal|
    ensures Extends(Claimed(journal, id, user) + one, journal, id, 1, one)
  {
  }

  lemma StepKeepsSound(prev: Database, c: Change, db: Database)
    requires RecordsStep(prev, c, db) && WellFormedTables(db)
    ensures WellFormedTables(prev)
  {
    forall n | n in prev ensures WellFormed(prev[n]) {
      if n != c.table { assert db[n] == prev[n]; }
    }
  }

  /** The first undo of a list takes back its step and leaves the rest of the list to do. */
  lemma FirstUndo(env: Env, s: State, ids: seq<nat>, later: seq<nat>, id: nat, snapshot: seq<Change>, c: Change,
                  prev: Database, meta: Meta, force: bool, out: seq<(nat, UndoOutcome)>)
    returns (s': State, one: seq<Change>, out': seq<(nat, UndoOutcome)>)
    requires Sound(s) && ids != [] && ids[0] == id && later == ids[1..] && |snapshot| <= |s.journal| && Within(ids, |snapshot|)
    requires snapshot[id] == s.journal[id] == c && c.undoneBy.None? && c.undoable && meta.user.Some?
    requires RecordsStep(prev, c, s.db)
    ensures Sound(s') && s'.db == prev && |s'.journal| >= |s.journal|
    ensures UndoAll(env, s, ids, snapshot, meta, force, {}, out)
         == UndoAll(env, s', later, snapshot, meta, force, {}, out')
    ensures |out'| == |out| + 1 && out <= out' && out'[|out|].1.Undone?
    ensures Extends(s'.journal, s.journal, id, 1, one)
    ensures |one| <= 1 && (one == [] ==> s'.db == s.db) && InBatch(one, meta.batch)
    ensures one != [] && one[0].undoable ==> RecordsStep(s.db, one[0], s'.db)
  {
    var ref;
    one, ref := UndoStep(env, s, id, c, prev, meta, force);
    var o := Undone(ref);
    s', out' := State(prev, Claimed(s.journal, id, meta.user) + one), out + [(id, o)];
    StepKeepsSound(prev, c, s.db);
    ClaimExtends(s.journal, id, meta.user, one);
    UndoAllFirst(env, s, ids, snapshot, meta, force, out, s', o);
  }

  lemma DownTail(n: nat, k: nat)
    requires k > 0
    ensures Down(n, k)[1..] == Down(n, k - 1) && Down(n, k)[0] == n + k - 1
  {
  }

  lemma {:induction false} UndoDown(env: Env, s: State, n: nat, k: nat, cs: seq<Change>, states: seq<Database>,
                                    snapshot: seq<Change>, meta: Meta, force: bool, out: seq<(nat, UndoOutcome)>)
    returns (r: BatchUndo, us: seq<Change>, back: seq<Database>)
    requires Sound(s) && meta.user.Some?
    requires k <= |cs| && Chain(states, cs) && AllUndoable(cs) && s.db == states[k]
    requires |snapshot| <= |s.journal| && Holds(snapshot, n, cs, k) && Holds(s.journal, n, cs, k)
    ensures r == UndoAll(env, s, Down(n, k), snapshot, meta, force, {}, out)
    ensures TookBack(s, r, |out|, n, k, states[0], meta, us, back) && out <= r.outcomes
    decreases k
  {
    if k == 0 {
      r, us, back := BatchUndo(s, out, None), [], [s.db];
    } else {
      var j: nat := k - 1;
      var id, c := n + j, cs[j];
      assert RecordsStep(states[j], c, states[j + 1]);
      DownTail(n, k);
      var s', one, out' := FirstUndo(env, s, Down(n, k), Down(n, j), id, snapshot, c, states[j], meta, force, out);
      HoldsAfterOneMore(s'.journal, s.journal, n, cs, j, id, one);
      var rest, tail;
      r, rest, tail := UndoDown(env, s', n, j, cs, states, snapshot, meta, force, out');
      assert r.outcomes[|out|] == out'[|out|];
      us := one + rest;
      back := TookBackOneMore(s, s', r, |out|, n, j, id, states[0], meta, one, rest, tail);
    }
  }

  /** The batch's own entries are all that UndoBatch lists and takes back. */
  lemma UndoBatchTakesBack(env: Env, s: State, before: seq<Change>, cs: seq<Change>, states: seq<Database>, batch: Batch,
                           meta: Meta, force: bool)
    returns (r: BatchUndo, us: seq<Change>, back: seq<Database>)
    requires Sound(s) && Chain(states, cs) && s.db == states[|cs|] && s.journal == before + cs
    requires AllUndoable(cs) && InBatch(cs, Some(batch)) && BatchUnused(before, batch)
    requires |cs| <= MAX_BATCH_UNDO && meta.user.Some?
    ensures r == UndoAll(env, s, Newest(s.journal, batch, MAX_BATCH_UNDO), s.journal, meta, force, {}, [])
    ensures TookBack(s, r, 0, |before|, |cs|, states[0], meta, us, back)
  {
    NewestIsBatch(before, cs, batch, MAX_BATCH_UNDO);
    HoldsAppended(before, cs, batch);
    r, us, back := UndoDown(env, s, |before|, |cs|, cs, states, s.journal, meta, force, []);
  }

  lemma NewEntries(journal: seq<Change>, old': seq<Change>, n: nat, k: nat, us: seq<Change>)
    requires Extends(journal, old', n, k, us)
    ensures journal[|old'|..] == us && journal == journal[..|old'|] + us
  {
    assert journal == journal[..|old'|] + journal[|old'|..];
  }

  /** Undoing a batch of at most MAX_BATCH_UNDO undoable changes, with nothing else in between, takes
      the tables back exactly, every entry succeeding. Undoing those undos, if they were recorded
      undoable in a batch of their own, brings the batch's result back. */
  lemma BatchUndoIsExact(env: Env, s: State, before: seq<Change>, cs: seq<Change>, states: seq<Database>, batch: Batch,
                         meta: Meta, again: Meta, force: bool)
    requires Sound(s) && Chain(states, cs) && s.db == states[|cs|] && s.journal == before + cs
    requires AllUndoable(cs) && InBatch(cs, Some(batch)) && BatchUnused(before, batch)
    requires |cs| <= MAX_BATCH_UNDO && meta.user.Some? && again.user.Some?
    ensures var r := UndoAll(env, s, Newest(s.journal, batch, MAX_BATCH_UNDO), s.journal, meta, force, {}, []);
            && r.state.db == states[0] && r.error.None?
            && |r.outcomes| == |cs| && (forall i :: 0 <= i < |cs| ==> r.outcomes[i].1.Undone?)
            && (meta.batch.Some? && BatchUnused(s.journal, meta.batch.value) && AllUndoable(r.state.journal[|s.journal|..]) ==>
                  var redo := UndoAll(env, r.state, Newest(r.state.journal, meta.batch.value, MAX_BATCH_UNDO),
                                      r.state.journal, again, force, {}, []);
                  redo.state.db == s.db && redo.error.None?)
  {
    var r, us, back := UndoBatchTakesBack(env, s, before, cs, states, batch, meta, force);
    NewEntries(r.state.journal, s.journal, |before|, |cs|, us);
    if meta.batch.Some? && BatchUnused(s.journal, meta.batch.value) && AllUndoable(us) {
      RedoIsExact(env, s, r, |before|, |cs|, states[0], meta, us, back, again, force);
    }
  }

  /** Undoing the undos of a batch brings back what the batch had made. */
  lemma RedoIsExact(env: Env, s: State, r: BatchUndo, n: nat, k: nat, first: Database, meta: Meta, us: seq<Change>,
                    back: seq<Database>, again: Meta, force: bool)
    requires Sound(r.state) && TookBack(s, r, 0, n, k, first, meta, us, back) && |s.journal| <= |r.state.journal|
    requires k <= MAX_BATCH_UNDO && again.user.Some? && AllUndoable(us)
    requires meta.batch.Some? && BatchUnused(s.journal, meta.batch.value)
    ensures var redo := UndoAll(env, r.state, Newest(r.state.journal, meta.batch.value, MAX_BATCH_UNDO), r.state.journal,
                                again, force, {}, []);
            redo.state.db == s.db && redo.error.None?
  {
    var kept := r.state.journal[..|s.journal|];
    NewEntries(r.state.journal, s.journal, n, k, us);
    KeepsBatches(kept, s.journal, meta.batch.value);
    var redo, us2, back2 := UndoBatchTakesBack(env, r.state, kept, us, back, meta.batch.value, again, force);
  }

  lemma KeepsBatches(a: seq<Change>, b: seq<Change>, batch: Batch)
    requires |a| == |b| && forall i :: 0 <= i < |a| ==> a[i].batch == b[i].batch
    requires BatchUnused(b, batch)
    ensures BatchUnused(a, batch)
  {
  }
}
