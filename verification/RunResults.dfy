/** Fitting the results of one fleet target into its share of the run's budget
    (backend/internal/app/fleet/runner.go, encodeResults and trimRows). */
module RunResults {
  import opened Wrappers

  const MAX_RUN_RESULT_BYTES: nat := 64 * 1024 * 1024
  const MAX_RESULT_BYTES: nat := 1024 * 1024
  const MANY_TARGETS: nat := 4_793_490
  const NOTHING := "{\"results\":[]}"
  const NUL: char := '\0'
  const REPLACEMENT: char := '\U{FFFD}'

  type DataRow = seq<Option<string>>

  /** A statement's result; details stands for the parts that only a preview sets. */
  datatype QueryResult = QueryResult(columns: seq<string>, rows: seq<DataRow>, truncated: bool, rowsAffected: int,
                                     details: Option<string>)

  datatype Target = Target(results: seq<QueryResult>, error: Option<string>, trimmed: bool)

  /** JSON encoding, which may refuse. */
  type Marshal = Target -> Option<string>

  // ---- Specification -----------------------------------------------------------------------------

  function StripNul(s: string): (r: string)
    ensures |r| == |s| && forall i :: 0 <= i < |s| ==> r[i] == if s[i] == NUL then REPLACEMENT else s[i]
  {
    seq(|s|, i requires 0 <= i < |s| => if s[i] == NUL then REPLACEMENT else s[i])
  }

  function StripCell(c: Option<string>): Option<string> {
    match c case None => None case Some(s) => Some(StripNul(s))
  }

  function StripRow(row: DataRow): (r: DataRow)
    ensures |r| == |row|
  {
    seq(|row|, i requires 0 <= i < |row| => StripCell(row[i]))
  }

  function StripResult(q: QueryResult): QueryResult {
    q.(columns := seq(|q.columns|, i requires 0 <= i < |q.columns| => StripNul(q.columns[i])),
       rows := seq(|q.rows|, i requires 0 <= i < |q.rows| => StripRow(q.rows[i])), details := None)
  }

  function Cleaned(t: Target): (r: Target)
    ensures |r.results| == |t.results|
  {
    t.(results := seq(|t.results|, i requires 0 <= i < |t.results| => StripResult(t.results[i])))
  }

  /** The same text, but that nothing in it is NUL. */
  predicate NulGone(s: string, s': string) {
    |s'| == |s| && NUL !in s' && forall i :: 0 <= i < |s| ==> if s[i] == '\0' then s'[i] == '\U{FFFD}' else s'[i] == s[i]
  }

  predicate CellNulGone(c: Option<string>, c': Option<string>) {
    if c.None? then c'.None? else c'.Some? && NulGone(c.value, c'.value)
  }

  predicate RowNulGone(row: DataRow, row': DataRow) {
    |row'| == |row| && forall k :: 0 <= k < |row| ==> CellNulGone(row[k], row'[k])
  }

  /** Cleaning keeps every result, column, row and cell in its place, gives up NUL and what only previews set,
      and changes no other character, count or flag. */
  lemma CleanedKeeps(t: Target, n: nat)
    requires n < |t.results|
    ensures Cleaned(t).error == t.error && Cleaned(t).trimmed == t.trimmed && |Cleaned(t).results| == |t.results|
    ensures var q, q' := t.results[n], Cleaned(t).results[n];
            && q'.truncated == q.truncated && q'.rowsAffected == q.rowsAffected && q'.details.None?
            && |q'.columns| == |q.columns| && (forall i :: 0 <= i < |q.columns| ==> NulGone(q.columns[i], q'.columns[i]))
            && |q'.rows| == |q.rows| && forall i :: 0 <= i < |q.rows| ==> RowNulGone(q.rows[i], q'.rows[i])
  {
    var q, q' := t.results[n], Cleaned(t).results[n];
    forall i | 0 <= i < |q.rows| ensures RowNulGone(q.rows[i], q'.rows[i]) {
      assert q'.rows[i] == StripRow(q.rows[i]);
    }
  }

  function TotalRows(rs: seq<QueryResult>): nat {
    if rs == [] then 0 else |rs[0].rows| + TotalRows(rs[1..])
  }

  /** The first of the results with the most rows, if any has rows. */
  predicate Largest(rs: seq<QueryResult>, best: int) {
    if best < 0 then best == -1 && forall i :: 0 <= i < |rs| ==> rs[i].rows == []
    else && best < |rs| && rs[best].rows != []
         && (forall i :: 0 <= i < |rs| ==> |rs[i].rows| <= |rs[best].rows|)
         && (forall i :: 0 <= i < best ==> |rs[i].rows| < |rs[best].rows|)
  }

  function LargestOf(rs: seq<QueryResult>): (best: int)
    ensures Largest(rs, best)
  {
    if rs == [] then -1
    else
      var n := |rs| - 1;
      var b := LargestOf(rs[..n]);
      assert forall i :: 0 <= i < n ==> rs[..n][i] == rs[i];
      if |rs[n].rows| > 0 && (b < 0 || |rs[n].rows| > |rs[b].rows|) then n else b
  }

  lemma LargestIsUnique(rs: seq<QueryResult>, a: int, b: int)
    requires Largest(rs, a) && Largest(rs, b)
    ensures a == b
  {
  }

  function Halve(q: QueryResult): QueryResult {
    q.(rows := q.rows[..|q.rows| / 2], truncated := true)
  }

  /** One round of dropping: half the rows of the largest result or, once none has rows, all results. */
  function Drop(t: Target): Target {
    var b := LargestOf(t.results);
    t.(results := if b < 0 then [] else t.results[b := Halve(t.results[b])], trimmed := true)
  }

  function DropTimes(t: Target, k: nat): Target
    decreases k
  {
    if k == 0 then t else DropTimes(Drop(t), k - 1)
  }

  predicate Over(m: Marshal, t: Target, budget: nat) {
    m(t).Some? && |m(t).value| > budget
  }

  // ---- The encoder -------------------------------------------------------------------------------

  /** How many more rounds can drop something. */
  function RoundsLeft(t: Target): nat {
    TotalRows(t.results) + (if t.results == [] then 0 else 1) + (if t.trimmed then 0 else 1)
  }

  lemma {:induction false} RowsAt(rs: seq<QueryResult>, b: nat, q: QueryResult)
    requires b < |rs|
    ensures TotalRows(rs[b := q]) == TotalRows(rs) - |rs[b].rows| + |q.rows|
  {
    var u := rs[b := q];
    if b == 0 {
      assert u[1..] == rs[1..];
    } else {
      assert u[1..] == rs[1..][b - 1 := q];
      RowsAt(rs[1..], b - 1, q);
    }
  }

  lemma DropShrinks(t: Target)
    ensures RoundsLeft(Drop(t)) < RoundsLeft(t) || Drop(t) == t
    ensures RoundsLeft(Drop(t)) <= RoundsLeft(t)
    ensures Drop(t) == t <==> t == Cleared(t)
  {
    var b := LargestOf(t.results);
    if b >= 0 {
      RowsAt(t.results, b, Halve(t.results[b]));
    }
  }

  /** What is left when nothing more can be dropped. */
  function Cleared(t: Target): Target {
    t.(results := [], trimmed := true)
  }

  class TargetResults {
    var results: seq<QueryResult>
    var error: Option<string>
    var trimmed: bool

    constructor (results: seq<QueryResult>, error: Option<string>)
      ensures Now() == Target(results, error, false)
    {
      this.results, this.error, this.trimmed := results, error, false;
    }

    function Now(): Target
      reads this
    {
      Target(results, error, trimmed)
    }

    /** Replaces NUL characters and drops what only previews set. */
    method Clean()
      modifies this`results
      ensures Now() == Cleaned(old(Now()))
    {
      ghost var was := results;
      for i := 0 to |results|
        invariant |results| == |was|
        invariant forall k :: 0 <= k < i ==> results[k] == StripResult(was[k])
        invariant forall k :: i <= k < |was| ==> results[k] == was[k]
      {
        var q := results[i];
        var columns := q.columns;
        for j := 0 to |columns|
          invariant |columns| == |q.columns|
          invariant forall k :: 0 <= k < j ==> columns[k] == StripNul(q.columns[k])
          invariant forall k :: j <= k < |columns| ==> columns[k] == q.columns[k]
        {
          columns := columns[j := StripNul(columns[j])];
        }
        var rows := CleanRows(q.rows);
        var clean := q.(columns := columns, rows := rows, details := None);
        assert clean == StripResult(q);
        results := results[i := clean];
      }
      assert results == Cleaned(Target(was, error, trimmed)).results;
    }

    method CleanRows(from: seq<DataRow>) returns (rows: seq<DataRow>)
      ensures rows == seq(|from|, i requires 0 <= i < |from| => StripRow(from[i]))
    {
      rows := from;
      for r := 0 to |rows|
        invariant |rows| == |from|
        invariant forall k :: 0 <= k < r ==> rows[k] == StripRow(from[k])
        invariant forall k :: r <= k < |rows| ==> rows[k] == from[k]
      {
        var row := rows[r];
        for k := 0 to |row|
          invariant |row| == |from[r]|
          invariant forall n :: 0 <= n < k ==> row[n] == StripCell(from[r][n])
          invariant forall n :: k <= n < |row| ==> row[n] == from[r][n]
        {
          if row[k].Some? && NUL in row[k].value {
            row := row[k := Some(StripNul(row[k].value))];
          } else if row[k].Some? {
            assert StripNul(row[k].value) == row[k].value;
          }
        }
        assert row == StripRow(from[r]);
        rows := rows[r := row];
      }
    }

    /** Halves the largest result's rows; false when none has rows left. */
    method TrimRows() returns (ok: bool)
      modifies this`results
      ensures ok <==> LargestOf(old(results)) >= 0
      ensures results == if ok then Drop(old(Now())).results else old(results)
    {
      var best := -1;
      for i := 0 to |results|
        invariant best == -1 || 0 <= best < i
        invariant Largest(results[..i], best)
      {
        assert forall k :: 0 <= k < i ==> results[..i + 1][k] == results[..i][k];
        if |results[i].rows| > 0 && (best < 0 || |results[i].rows| > |results[best].rows|) {
          best := i;
        }
      }
      assert results[..|results|] == results;
      LargestIsUnique(results, best, LargestOf(results));
      if best < 0 {
        return false;
      }
      results := results[best := Halve(results[best])];
      ok := true;
    }

    /** Drops rows, or all results once there are none. */
    method DropRound()
      modifies this
      ensures Now() == Drop(old(Now()))
    {
      var ok := TrimRows();
      if !ok {
        results := [];
      }
      trimmed := true;
    }

    /** The JSON to store: cleaned, and with rows dropped from the end until it fits, wherever it comes to fit. */
    method EncodeResults(m: Marshal, budget: nat) returns (raw: string, ghost rounds: nat)
      requires exists n :: Ends(m, Cleaned(Now()), budget, n)
      modifies this
      ensures Now() == DropTimes(Cleaned(old(Now())), rounds) && Ends(m, Cleaned(old(Now())), budget, rounds)
      ensures raw == if m(Now()).Some? then m(Now()).value else NOTHING
      ensures |raw| <= budget || raw == NOTHING
    {
      Clean();
      ghost var start := Now();
      ghost var last: nat :| Ends(m, start, budget, last);
      rounds := 0;
      while true
        invariant Now() == DropTimes(start, rounds) && rounds <= last
        invariant OverBefore(m, start, budget, rounds)
        decreases last - rounds
      {
        var encoded := m(Now());
        if encoded.None? {
          return NOTHING, rounds;
        }
        if |encoded.value| <= budget {
          return encoded.value, rounds;
        }
        ghost var next := rounds + 1;
        DropOnceMore(start, rounds, next);
        OverBeforeMore(m, start, budget, rounds, next);
        DropRound();
        rounds := next;
      }
    }
  }

  /** The first n states of the loop are too big. */
  ghost predicate OverBefore(m: Marshal, t: Target, budget: nat, n: nat) {
    forall k: nat :: k < n ==> Over(m, DropTimes(t, k), budget)
  }

  lemma OverBeforeMore(m: Marshal, t: Target, budget: nat, n: nat, next: nat)
    requires OverBefore(m, t, budget, n) && Over(m, DropTimes(t, n), budget) && next == n + 1
    ensures OverBefore(m, t, budget, next)
  {
  }

  /** The loop ends after n rounds. */
  ghost predicate Ends(m: Marshal, t: Target, budget: nat, n: nat) {
    OverBefore(m, t, budget, n) && !Over(m, DropTimes(t, n), budget)
  }

  lemma {:induction false} DropOnceMore(t: Target, k: nat, next: nat)
    requires next == k + 1
    ensures DropTimes(t, next) == Drop(DropTimes(t, k))
    decreases k
  {
    if k > 0 {
      DropOnceMore(Drop(t), k - 1, k);
    }
  }

  // ---- When it ends --------------------------------------------------------------------------------

  /** After RoundsLeft rounds nothing is left, and further rounds change nothing. */
  lemma {:induction false} RoundsRunOut(t: Target, k: nat)
    requires k >= RoundsLeft(t)
    ensures DropTimes(t, k) == Cleared(t)
    decreases k
  {
    DropShrinks(t);
    if k > 0 {
      if Drop(t) == t {
        RoundsStay(t, k);
      } else {
        RoundsRunOut(Drop(t), k - 1);
      }
    }
  }

  lemma {:induction false} RoundsStay(t: Target, k: nat)
    requires Drop(t) == t
    ensures DropTimes(t, k) == t
    decreases k
  {
    if k > 0 {
      RoundsStay(t, k - 1);
    }
  }

  /** The loop ends exactly if one of its states up to the one without results fits the budget or
      fails to encode; in particular it does when the part without results does. */
  lemma EndsIff(m: Marshal, t: Target, budget: nat)
    ensures (exists n :: Ends(m, t, budget, n)) <==> exists n: nat :: n <= RoundsLeft(t) && !Over(m, DropTimes(t, n), budget)
    ensures !Over(m, Cleared(t), budget) ==> exists n :: Ends(m, t, budget, n)
  {
    var last := RoundsLeft(t);
    RoundsRunOut(t, last);
    if n :| Ends(m, t, budget, n) {
      var w := if n <= last then n else last;
      RoundsRunOut(t, if n <= last then last else n);
      assert w <= last && !Over(m, DropTimes(t, w), budget);
    }
    if n: nat :| n <= last && !Over(m, DropTimes(t, n), budget) {
      var first := FirstFit(m, t, budget, n);
    }
  }

  lemma {:induction false} FirstFit(m: Marshal, t: Target, budget: nat, n: nat) returns (first: nat)
    requires !Over(m, DropTimes(t, n), budget)
    ensures first <= n && Ends(m, t, budget, first)
  {
    if k: nat :| k < n && !Over(m, DropTimes(t, k), budget) {
      first := FirstFit(m, t, budget, k);
    } else {
      first := n;
    }
  }

  // ---- What is kept ------------------------------------------------------------------------------------

  /** A result keeps a prefix of its rows and says so if that is shorter. */
  predicate Prefixed(a: QueryResult, b: QueryResult) {
    && b.rows <= a.rows && b.columns == a.columns && b.rowsAffected == a.rowsAffected && b.details == a.details
    && b.truncated == (a.truncated || |b.rows| < |a.rows|)
  }

  predicate Kept(t: Target, u: Target) {
    && u.error == t.error
    && (u.results == [] || (|u.results| == |t.results| && forall i :: 0 <= i < |t.results| ==> Prefixed(t.results[i], u.results[i])))
  }

  lemma PrefixedTransitive(a: QueryResult, b: QueryResult, c: QueryResult)
    requires Prefixed(a, b) && Prefixed(b, c)
    ensures Prefixed(a, c)
  {
  }

  lemma DropKeeps(t: Target)
    ensures Kept(t, Drop(t)) && Drop(t).trimmed
    ensures t.results != [] ==> Drop(t).results != t.results
  {
    var b := LargestOf(t.results);
    if b >= 0 {
      assert Prefixed(t.results[b], Halve(t.results[b]));
      assert Drop(t).results[b] != t.results[b];
    }
  }

  lemma KeptTransitive(t: Target, u: Target, v: Target)
    requires Kept(t, u) && Kept(u, v)
    ensures Kept(t, v)
  {
    if v.results != [] {
      forall i | 0 <= i < |t.results| ensures Prefixed(t.results[i], v.results[i]) {
        PrefixedTransitive(t.results[i], u.results[i], v.results[i]);
      }
    }
  }

  /** Rows lost, or results: what makes the difference visible. */
  predicate Lost(t: Target, u: Target) {
    u.results != t.results
  }

  lemma LostStays(t: Target, u: Target, v: Target)
    requires Kept(t, u) && Kept(u, v) && Lost(t, u)
    ensures Lost(t, v)
  {
    if v.results != [] {
      var i :| 0 <= i < |t.results| && t.results[i] != u.results[i];
      assert |u.results[i].rows| < |t.results[i].rows|;
      assert |v.results[i].rows| <= |u.results[i].rows|;
    }
  }

  /** Unless the results had to be cleared, every result keeps a prefix of its rows, flagged if it was
      shortened. A round drops something as long as there are results, and flags the whole as trimmed. */
  lemma {:induction false} DropTimesKeeps(t: Target, k: nat)
    ensures var u := DropTimes(t, k);
            && Kept(t, u) && u.trimmed == (t.trimmed || k > 0)
            && (Lost(t, u) <==> k > 0 && t.results != [])
    decreases k
  {
    if k > 0 {
      var d, u := Drop(t), DropTimes(t, k);
      DropKeeps(t);
      DropTimesKeeps(d, k - 1);
      KeptTransitive(t, d, u);
      if t.results != [] {
        LostStays(t, d, u);
      }
    }
  }

  /** The flag never makes the text shorter. */
  ghost predicate FlagCosts(m: Marshal) {
    forall t: Target :: m(t).Some? ==> m(t.(trimmed := true)).Some? && |m(t).value| <= |m(t.(trimmed := true)).value|
  }

  lemma {:induction false} NothingMoreToDrop(t: Target, k: nat)
    requires t.results == []
    ensures DropTimes(t, k) == if k == 0 then t else Cleared(t)
    decreases k
  {
    if k > 0 {
      DropShrinks(t);
      assert Drop(t) == Cleared(t) && Drop(Cleared(t)) == Cleared(t);
      RoundsStay(Cleared(t), k - 1);
    }
  }

  lemma EmptyEndsAtOnce(m: Marshal, t: Target, budget: nat, n: nat)
    requires t.results == [] && FlagCosts(m) && Ends(m, t, budget, n)
    ensures n == 0
  {
    if Over(m, t, budget) {
      EmptyStaysOver(m, t, budget, n);
    } else {
      assert DropTimes(t, 0) == t;
    }
  }

  lemma EmptyStaysOver(m: Marshal, t: Target, budget: nat, n: nat)
    requires t.results == [] && FlagCosts(m) && Over(m, t, budget)
    ensures Over(m, DropTimes(t, n), budget)
  {
    NothingMoreToDrop(t, n);
  }

  /** Where the loop ends, the whole is newly flagged as trimmed exactly when something was dropped. */
  lemma TrimmedIff(m: Marshal, t: Target, budget: nat, n: nat)
    requires Ends(m, t, budget, n) && !t.trimmed && FlagCosts(m)
    ensures DropTimes(t, n).trimmed <==> Lost(t, DropTimes(t, n))
  {
    DropTimesKeeps(t, n);
    if t.results == [] {
      EmptyEndsAtOnce(m, t, budget, n);
    }
  }

  /** The encoding never fails on a target with this error, and carries it. */
  ghost predicate Carries(m: Marshal, error: string) {
    forall t: Target :: t.error == Some(error) ==> m(t).Some? && |m(t).value| >= |error|
  }

  /** Whatever the encoding, as long as it carries the error, the loop does not end on a target whose error
      alone is longer than the budget. */
  lemma NeverEnds(m: Marshal, t: Target, budget: nat, error: string)
    requires Carries(m, error) && t.error == Some(error) && |error| > budget
    ensures forall n :: !Ends(m, t, budget, n)
  {
    forall n ensures !Ends(m, t, budget, n) {
      DropTimesKeeps(t, n);
    }
  }

  // ---- A run's share ---------------------------------------------------------------------------------------

  /** Each target's budget, by the run's number of targets. */
  function Budget(targets: nat): nat {
    var share := MAX_RUN_RESULT_BYTES / (if targets < 1 then 1 else targets);
    if share > MAX_RESULT_BYTES then MAX_RESULT_BYTES else share
  }

  function Sum(sizes: seq<nat>): nat {
    if sizes == [] then 0 else sizes[0] + Sum(sizes[1..])
  }

  lemma {:induction false} SumAtMost(sizes: seq<nat>, each: nat)
    requires forall i :: 0 <= i < |sizes| ==> sizes[i] <= each
    ensures Sum(sizes) <= |sizes| * each
  {
    if sizes != [] {
      SumAtMost(sizes[1..], each);
      assert |sizes| * each == each + |sizes[1..]| * each;
    }
  }

  /** All targets of a run together store at most MAX_RUN_RESULT_BYTES, given that each stores JSON
      within its budget or, where it could not be encoded, the fixed text for nothing; the latter needs
      the budget to be no smaller than that text, which it is for up to MANY_TARGETS targets. */
  lemma RunStoresAtMost(sizes: seq<nat>, targets: nat)
    requires |sizes| <= targets
    requires forall i :: 0 <= i < |sizes| ==> sizes[i] <= Budget(targets) || (sizes[i] == |NOTHING| && targets <= MANY_TARGETS)
    ensures Sum(sizes) <= MAX_RUN_RESULT_BYTES
  {
    if targets > 0 {
      BudgetShares(targets);
      SumAtMost(sizes, Budget(targets));
      Monotone(|sizes|, targets, Budget(targets));
    }
  }

  /** What a target stores: JSON within its budget, or the fixed text for nothing. */
  predicate Stored(size: nat, targets: nat) {
    size <= Budget(targets) || size == |NOTHING|
  }

  lemma {:induction false} SumOfSame(n: nat, each: nat)
    ensures Sum(seq(n, _ => each)) == n * each
  {
    if n > 0 {
      assert seq(n, _ => each)[1..] == seq(n - 1, _ => each);
      SumOfSame(n - 1, each);
    }
  }

  ghost predicate AlwaysFits(targets: nat) {
    forall sizes: seq<nat> :: |sizes| <= targets && (forall i :: 0 <= i < |sizes| ==> Stored(sizes[i], targets)) ==>
                                Sum(sizes) <= MAX_RUN_RESULT_BYTES
  }

  /** A run's targets together can never store more than MAX_RUN_RESULT_BYTES exactly if the run has at
      most MANY_TARGETS; with more, the fixed texts alone can be too much. */
  lemma RunFitsIff(targets: nat)
    ensures AlwaysFits(targets) <==> targets <= MANY_TARGETS
  {
    if targets <= MANY_TARGETS {
      forall sizes: seq<nat> | |sizes| <= targets && forall i :: 0 <= i < |sizes| ==> Stored(sizes[i], targets)
        ensures Sum(sizes) <= MAX_RUN_RESULT_BYTES
      {
        RunStoresAtMost(sizes, targets);
      }
    } else {
      var sizes: seq<nat> := seq(targets, _ => |NOTHING|);
      SumOfSame(targets, |NOTHING|);
      assert |NOTHING| == 14;
      assert forall i :: 0 <= i < |sizes| ==> Stored(sizes[i], targets);
      assert Sum(sizes) > MAX_RUN_RESULT_BYTES;
    }
  }

  lemma Monotone(a: nat, b: nat, c: nat)
    requires a <= b
    ensures a * c <= b * c
  {
  }

  lemma BudgetShares(targets: nat)
    requires targets > 0
    ensures targets * Budget(targets) <= MAX_RUN_RESULT_BYTES
    ensures targets <= MANY_TARGETS ==> Budget(targets) >= |NOTHING|
  {
    var share := MAX_RUN_RESULT_BYTES / targets;
    assert targets * share <= MAX_RUN_RESULT_BYTES;
    Monotone(Budget(targets), share, targets);
    if targets <= MANY_TARGETS {
      assert 14 * targets <= MAX_RUN_RESULT_BYTES;
      AtLeast(MAX_RUN_RESULT_BYTES, targets, 14);
    }
  }

  lemma AtLeast(n: nat, d: nat, q: nat)
    requires d > 0 && q * d <= n
    ensures n / d >= q
  {
    assert d * (n / d - q + 1) > 0;
  }
}
