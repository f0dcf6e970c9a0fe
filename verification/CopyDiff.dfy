/** Comparing a live table with a restored backup copy, one page at a time
    (backend/internal/app/dbadmin/backup_copy.go). */
module CopyDiff {
  import opened Wrappers
  import opened Rows
  import opened Tables

  // ---- Columns ------------------------------------------------------------------------------

  function Keep(cols: seq<Column>, within: set<Column>): (kept: seq<Column>)
    ensures forall c :: c in kept <==> c in cols && c in within
  {
    if cols == [] then []
    else (if cols[0] in within then [cols[0]] else []) + Keep(cols[1..], within)
  }

  lemma {:induction false} KeepSnoc(cols: seq<Column>, c: Column, within: set<Column>)
    ensures Keep(cols + [c], within) == Keep(cols, within) + (if c in within then [c] else [])
  {
    if cols != [] {
      assert (cols + [c])[1..] == cols[1..] + [c];
      KeepSnoc(cols[1..], c, within);
    }
  }

  /** One more column of a list looked at. */
  lemma KeepNext(cols: seq<Column>, i: nat, next: nat, within: set<Column>)
    requires i < |cols| && next == i + 1
    ensures Keep(cols[..next], within) == Keep(cols[..i], within) + (if cols[i] in within then [cols[i]] else [])
    ensures forall c :: c in cols[..next] <==> c in cols[..i] || c == cols[i]
  {
    assert cols[..next] == cols[..i] + [cols[i]];
    KeepSnoc(cols[..i], cols[i], within);
  }

  function Drop(cols: seq<Column>, without: set<Column>): seq<Column> {
    Keep(cols, ColumnSet(cols) - without)
  }

  lemma DropsSome(cols: seq<Column>, without: set<Column>)
    ensures Drop(cols, without) != [] <==> exists c :: c in cols && c !in without
  {
    if Drop(cols, without) != [] {
      assert Drop(cols, without)[0] in Drop(cols, without);
    }
    if c :| c in cols && c !in without {
      assert c in Drop(cols, without);
    }
  }

  function Common(live: seq<Column>, backup: seq<Column>): (common: seq<Column>)
    ensures forall c :: c in common <==> c in live && c in backup
  {
    Keep(live, ColumnSet(backup))
  }

  datatype Warning = AddedSince(cols: seq<Column>) | DroppedSince(cols: seq<Column>)

  predicate InOrderOf(cols: seq<Column>, some: seq<Column>) {
    forall i, j, a, b :: 0 <= i < j < |some| && 0 <= a < |cols| && 0 <= b < |cols| && cols[a] == some[i] && cols[b] == some[j] ==> a < b
  }

  /** Exactly the columns that the others lack, each once, in their own order. */
  ghost predicate Surplus(cols: seq<Column>, others: seq<Column>, surplus: seq<Column>) {
    (forall c :: c in surplus <==> c in cols && c !in others) && InOrderOf(cols, surplus)
  }

  /** What a comparison warns about: once each, the columns added and the columns dropped since the backup. */
  ghost predicate Warns(live: seq<Column>, backup: seq<Column>, warnings: seq<Warning>) {
    && (forall w :: w in warnings ==> w.cols != [] && (w.AddedSince? ==> Surplus(live, backup, w.cols))
                                      && (w.DroppedSince? ==> Surplus(backup, live, w.cols)))
    && ((exists w :: w in warnings && w.AddedSince?) <==> exists c :: c in live && c !in backup)
    && ((exists w :: w in warnings && w.DroppedSince?) <==> exists c :: c in backup && c !in live)
    && (forall i, j :: 0 <= i < j < |warnings| ==> warnings[i].AddedSince? && warnings[j].DroppedSince?)
  }

  lemma DropIsSurplus(cols: seq<Column>, others: seq<Column>)
    requires DistinctColumns(cols)
    ensures Surplus(cols, others, Drop(cols, ColumnSet(others)))
  {
    KeepOrder(cols, ColumnSet(cols) - ColumnSet(others));
  }

  lemma PlaceAfter(cols: seq<Column>, c: Column, b: nat)
    requires DistinctColumns(cols) && b < |cols| && cols[b] == c && c in cols[1..]
    ensures b > 0 && cols[1..][b - 1] == c
  {
    var k :| 0 <= k < |cols| - 1 && cols[1..][k] == c;
    assert cols[k + 1] == c;
  }

  lemma {:induction false} KeepOrder(cols: seq<Column>, within: set<Column>)
    requires DistinctColumns(cols)
    ensures InOrderOf(cols, Keep(cols, within))
  {
    if cols != [] {
      var kept, rest := Keep(cols, within), Keep(cols[1..], within);
      KeepOrder(cols[1..], within);
      var n := |kept| - |rest|;
      forall i, j, a, b | 0 <= i < j < |kept| && 0 <= a < |cols| && 0 <= b < |cols| && cols[a] == kept[i] && cols[b] == kept[j]
        ensures a < b
      {
        assert kept[j] == rest[j - n];
        PlaceAfter(cols, kept[j], b);
        if i >= n {
          assert kept[i] == rest[i - n];
          PlaceAfter(cols, kept[i], a);
        } else {
          assert kept[i] == cols[0];
        }
      }
    }
  }

  function WarningsOn(live: seq<Column>, backup: seq<Column>): seq<Warning> {
    (if Drop(live, ColumnSet(backup)) == [] then [] else [AddedSince(Drop(live, ColumnSet(backup)))])
    + (if Drop(backup, ColumnSet(live)) == [] then [] else [DroppedSince(Drop(backup, ColumnSet(live)))])
  }

  lemma WarningsSay(live: seq<Column>, backup: seq<Column>)
    requires DistinctColumns(live) && DistinctColumns(backup)
    ensures Warns(live, backup, WarningsOn(live, backup))
  {
    var added, dropped, warnings := Drop(live, ColumnSet(backup)), Drop(backup, ColumnSet(live)), WarningsOn(live, backup);
    DropIsSurplus(live, backup);
    DropIsSurplus(backup, live);
    DropsSome(live, ColumnSet(backup));
    DropsSome(backup, ColumnSet(live));
    WarnedOf(added, dropped, warnings);
  }

  lemma WarnedOf(added: seq<Column>, dropped: seq<Column>, warnings: seq<Warning>)
    requires warnings == (if added == [] then [] else [AddedSince(added)]) + (if dropped == [] then [] else [DroppedSince(dropped)])
    ensures forall w :: w in warnings <==> (w == AddedSince(added) && added != []) || (w == DroppedSince(dropped) && dropped != [])
    ensures forall i, j :: 0 <= i < j < |warnings| ==> warnings[i].AddedSince? && warnings[j].DroppedSince?
  {
  }

  lemma OnceSaid(live: seq<Column>, backup: seq<Column>, warnings: seq<Warning>)
    requires warnings == WarningsOn(live, backup)
    ensures DistinctColumns(live) && DistinctColumns(backup) ==> Warns(live, backup, warnings)
  {
    if DistinctColumns(live) && DistinctColumns(backup) {
      WarningsSay(live, backup);
    }
  }

  method SetOf(cols: seq<Column>) returns (all: set<Column>)
    ensures all == ColumnSet(cols)
  {
    all := {};
    for i := 0 to |cols|
      invariant all == ColumnSet(cols[..i])
    {
      assert cols[..i + 1] == cols[..i] + [cols[i]];
      all := all + {cols[i]};
    }
    assert cols[..|cols|] == cols;
  }

  /** The columns that are in a set, and those that are not. */
  method SortOut(cols: seq<Column>, others: set<Column>) returns (within: seq<Column>, without: seq<Column>)
    ensures within == Keep(cols, others) && without == Drop(cols, others)
  {
    within, without := [], [];
    for i := 0 to |cols|
      invariant within == Keep(cols[..i], others)
      invariant without == Keep(cols[..i], ColumnSet(cols) - others)
    {
      KeepNext(cols, i, i + 1, others);
      KeepNext(cols, i, i + 1, ColumnSet(cols) - others);
      if cols[i] in others {
        within := within + [cols[i]];
      } else {
        without := without + [cols[i]];
      }
    }
    assert cols[..|cols|] == cols;
  }

  /** The columns both sides have, in live order, and a warning for each side that has more. */
  method CommonColumns(live: seq<Column>, backup: seq<Column>) returns (common: seq<Column>, warnings: seq<Warning>)
    ensures common == Common(live, backup) && warnings == WarningsOn(live, backup)
    ensures DistinctColumns(live) && DistinctColumns(backup) ==> Warns(live, backup, warnings)
  {
    var inBackup := SetOf(backup);
    var onlyLive;
    common, onlyLive := SortOut(live, inBackup);
    var inLive := SetOf(live);
    var _, onlyBackup := SortOut(backup, inLive);
    warnings := [];
    if |onlyLive| > 0 {
      warnings := warnings + [AddedSince(onlyLive)];
    }
    if |onlyBackup| > 0 {
      warnings := warnings + [DroppedSince(onlyBackup)];
    }
    OnceSaid(live, backup, warnings);
  }

  // ---- One page -----------------------------------------------------------------------------

  datatype Item =
    | Added(key: Row, liveHash: Fingerprint)
    | Changed(key: Row, changed: seq<Column>, liveHash: Fingerprint)
    | Removed(key: Row)

  function Differing(a: Row, b: Row, cols: seq<Column>): seq<Column> {
    Keep(cols, set c | c in cols && At(a, c) != At(b, c))
  }

  function KeyPart(key: seq<Column>, r: Row): Row {
    map c | c in key :: At(r, c)
  }

  /** What one scanned row contributes, given its partner on the other side. */
  function PairItems(key: seq<Column>, r: Row, partner: Option<Row>, common: seq<Column>, scannedLive: bool): seq<Item> {
    if scannedLive then
      if partner.None? then [Added(KeyPart(key, r), RowHash(r, common))]
      else if Differing(r, partner.value, common) == [] then []
      else [Changed(KeyPart(key, r), Differing(r, partner.value, common), RowHash(r, common))]
    else if partner.None? then [Removed(KeyPart(key, r))]
    else []
  }

  function PartnerIn(other: map<Key, Row>, k: Key): Option<Row> {
    if k in other then Some(other[k]) else None
  }

  /** What one scanned row contributes, given the other side's whole table. */
  function CompareRow(key: seq<Column>, r: Row, other: map<Key, Row>, common: seq<Column>, scannedLive: bool): seq<Item> {
    PairItems(key, r, PartnerIn(other, KeyAt(key, r)), common, scannedLive)
  }

  function CompareRows(key: seq<Column>, rows: seq<Row>, other: map<Key, Row>, common: seq<Column>, scannedLive: bool): seq<Item> {
    if rows == [] then []
    else CompareRow(key, rows[0], other, common, scannedLive) + CompareRows(key, rows[1..], other, common, scannedLive)
  }

  lemma {:induction false} CompareRowsConcat(key: seq<Column>, a: seq<Row>, b: seq<Row>, other: map<Key, Row>,
                                             common: seq<Column>, scannedLive: bool)
    ensures CompareRows(key, a + b, other, common, scannedLive)
         == CompareRows(key, a, other, common, scannedLive) + CompareRows(key, b, other, common, scannedLive)
  {
    if a == [] {
      assert a + b == b;
    } else {
      assert (a + b)[1..] == a[1..] + b;
      CompareRowsConcat(key, a[1..], b, other, common, scannedLive);
    }
  }

  /** Key texts pair up rows exactly as their keys do. */
  predicate TextsSeparate(key: seq<Column>, xs: seq<Row>, ys: seq<Row>) {
    forall x, y :: x in xs && y in ys ==> Separates(key, x, y)
  }

  lemma CompareRowsSnoc(key: seq<Column>, rows: seq<Row>, r: Row, other: map<Key, Row>, common: seq<Column>, scannedLive: bool)
    ensures CompareRows(key, rows + [r], other, common, scannedLive)
         == CompareRows(key, rows, other, common, scannedLive) + CompareRow(key, r, other, common, scannedLive)
  {
    CompareRowsConcat(key, rows, [r], other, common, scannedLive);
    assert [r][1..] == [];
  }

  lemma CompareRowsNext(key: seq<Column>, rows: seq<Row>, n: nat, next: nat, other: map<Key, Row>, common: seq<Column>,
                        scannedLive: bool)
    requires n < |rows| && next == n + 1
    ensures CompareRows(key, rows[..next], other, common, scannedLive)
         == CompareRows(key, rows[..n], other, common, scannedLive) + CompareRow(key, rows[n], other, common, scannedLive)
  {
    assert rows[..next] == rows[..n] + [rows[n]];
    CompareRowsSnoc(key, rows[..n], rows[n], other, common, scannedLive);
  }

  /** The columns of a shared row whose values differ, in comparison order. */
  method ChangedColumns(a: Row, b: Row, common: seq<Column>) returns (changed: seq<Column>)
    ensures changed == Differing(a, b, common)
  {
    changed := [];
    ghost var differ := set c | c in common && At(a, c) != At(b, c);
    for i := 0 to |common|
      invariant changed == Keep(common[..i], differ)
    {
      assert common[..i + 1] == common[..i] + [common[i]];
      KeepSnoc(common[..i], common[i], differ);
      if At(a, common[i]) != At(b, common[i]) {
        changed := changed + [common[i]];
      }
    }
    assert common[..|common|] == common;
  }

  /** byKey holds one of rows under each of their key texts. */
  predicate Indexed(key: seq<Column>, rows: seq<Row>, byKey: map<string, Row>) {
    && (forall s :: s in byKey ==> byKey[s] in rows && KeyString(key, byKey[s]) == s)
    && (forall r :: r in rows ==> KeyString(key, r) in byKey)
  }

  method IndexRows(key: seq<Column>, rows: seq<Row>) returns (byKey: map<string, Row>)
    ensures Indexed(key, rows, byKey)
  {
    byKey := map[];
    for i := 0 to |rows|
      invariant Indexed(key, rows[..i], byKey)
    {
      assert rows[..i + 1] == rows[..i] + [rows[i]];
      byKey := byKey[KeyString(key, rows[i]) := rows[i]];
    }
    assert rows[..|rows|] == rows;
  }

  /** The rows of other that a page of scanned rows was looked up for. */
  predicate Partners(key: seq<Column>, scanned: seq<Row>, otherRows: seq<Row>, other: map<Key, Row>) {
    && (forall o :: o in otherRows ==> KeyAt(key, o) in other && other[KeyAt(key, o)] == o && KeyAt(key, o) in PageKeys(key, scanned))
    && (forall r :: r in scanned && KeyAt(key, r) in other ==> other[KeyAt(key, r)] in otherRows)
  }

  predicate KeysPresent(key: seq<Column>, rows: seq<Row>) {
    forall r, c :: r in rows && c in key ==> c in r
  }

  function PageKeys(key: seq<Column>, scanned: seq<Row>): set<Key> {
    set r | r in scanned :: KeyAt(key, r)
  }

  /** The partners that the texts of some keys find. */
  function FoundBy(keys: set<Key>, byKey: map<string, Row>): map<Key, Row> {
    map k | k in keys && KeyText(k) in byKey :: byKey[KeyText(k)]
  }

  function ByText(byKey: map<string, Row>, text: string): Option<Row> {
    if text in byKey then Some(byKey[text]) else None
  }

  lemma OneMoreByText(key: seq<Column>, rows: seq<Row>, n: nat, next: nat, byKey: map<string, Row>, common: seq<Column>,
                      scannedLive: bool, found: map<Key, Row>)
    requires n < |rows| && next == n + 1 && found == FoundBy(PageKeys(key, rows), byKey)
    ensures CompareRows(key, rows[..next], found, common, scannedLive)
         == CompareRows(key, rows[..n], found, common, scannedLive)
            + PairItems(key, rows[n], ByText(byKey, KeyString(key, rows[n])), common, scannedLive)
  {
    assert rows[n] in rows;
    KeyStringIs(key, rows[n]);
    CompareRowsNext(key, rows, n, next, found, common, scannedLive);
  }

  lemma KeyPartIs(key: seq<Column>, r: Row)
    requires forall c :: c in key ==> c in r
    ensures (map c | c in key :: r[c]) == KeyPart(key, r)
  {
  }

  /** Compares a scanned page of one side with the other side's matching rows, as the texts of their keys
      pair them. */
  method DiffPages(key: seq<Column>, scanned: seq<Row>, otherRows: seq<Row>, common: seq<Column>, scannedLive: bool)
    returns (items: seq<Item>, ghost byKey: map<string, Row>)
    requires KeysPresent(key, scanned)
    ensures Indexed(key, otherRows, byKey)
    ensures items == CompareRows(key, scanned, FoundBy(PageKeys(key, scanned), byKey), common, scannedLive)
  {
    var index := IndexRows(key, otherRows);
    byKey := index;
    ghost var found := FoundBy(PageKeys(key, scanned), index);
    items := [];
    for n := 0 to |scanned|
      invariant items == CompareRows(key, scanned[..n], found, common, scannedLive)
    {
      OneMoreByText(key, scanned, n, n + 1, index, common, scannedLive, found);
      var r := scanned[n];
      var there := KeyString(key, r) in index;
      KeyPartIs(key, r);
      var keyImage := map c | c in key :: r[c];
      if scannedLive && !there {
        items := items + [Added(keyImage, RowHash(r, common))];
      } else if scannedLive {
        var changed := ChangedColumns(r, index[KeyString(key, r)], common);
        if |changed| > 0 {
          items := items + [Changed(keyImage, changed, RowHash(r, common))];
        }
      } else if !there {
        items := items + [Removed(keyImage)];
      }
    }
    assert scanned[..|scanned|] == scanned;
  }

  /** Finding a partner by key text is finding it by key, where the texts tell the keys apart. */
  lemma PartnerByText(key: seq<Column>, scanned: seq<Row>, otherRows: seq<Row>, other: map<Key, Row>,
                      byKey: map<string, Row>, r: Row)
    requires TextsSeparate(key, scanned, otherRows) && Partners(key, scanned, otherRows, other)
    requires Indexed(key, otherRows, byKey) && r in scanned
    requires forall k :: k in other ==> KeyAt(key, other[k]) == k
    ensures var k, found := KeyAt(key, r), FoundBy(PageKeys(key, scanned), byKey);
            (k in found <==> k in other) && (k in found ==> found[k] == other[k])
  {
    KeyStringIs(key, r);
    var s := KeyString(key, r);
    if s in byKey {
      assert Separates(key, r, byKey[s]);
    }
    if KeyAt(key, r) in other {
      assert Separates(key, r, other[KeyAt(key, r)]);
    }
  }

  lemma {:induction false} CompareAlike(key: seq<Column>, rows: seq<Row>, a: map<Key, Row>, b: map<Key, Row>, common: seq<Column>,
                                        scannedLive: bool)
    requires forall r :: r in rows ==> CompareRow(key, r, a, common, scannedLive) == CompareRow(key, r, b, common, scannedLive)
    ensures CompareRows(key, rows, a, common, scannedLive) == CompareRows(key, rows, b, common, scannedLive)
  {
    if rows != [] {
      CompareAlike(key, rows[1..], a, b, common, scannedLive);
    }
  }

  /** There a page reports what a comparison with the whole other table does. */
  lemma PageByKey(key: seq<Column>, scanned: seq<Row>, otherRows: seq<Row>, other: map<Key, Row>, byKey: map<string, Row>,
                  common: seq<Column>, scannedLive: bool)
    requires TextsSeparate(key, scanned, otherRows) && Partners(key, scanned, otherRows, other)
    requires Indexed(key, otherRows, byKey) && forall k :: k in other ==> KeyAt(key, other[k]) == k
    ensures CompareRows(key, scanned, FoundBy(PageKeys(key, scanned), byKey), common, scannedLive)
         == CompareRows(key, scanned, other, common, scannedLive)
  {
    var found := FoundBy(PageKeys(key, scanned), byKey);
    forall r | r in scanned
      ensures CompareRow(key, r, found, common, scannedLive) == CompareRow(key, r, other, common, scannedLive)
    {
      PartnerByText(key, scanned, otherRows, other, byKey, r);
    }
    CompareAlike(key, scanned, found, other, common, scannedLive);
  }

  /** The keys of a page, to look up on the other side. */
  method KeysOf(key: seq<Column>, rows: seq<Row>) returns (keys: seq<Row>)
    requires KeysPresent(key, rows)
    ensures |keys| == |rows| && forall i :: 0 <= i < |rows| ==> keys[i] == KeyPart(key, rows[i])
  {
    keys := [];
    for i := 0 to |rows|
      invariant |keys| == i && forall j :: 0 <= j < i ==> keys[j] == KeyPart(key, rows[j])
    {
      assert rows[i] in rows;
      var k := map c | c in key :: rows[i][c];
      assert k == KeyPart(key, rows[i]);
      keys := keys + [k];
    }
  }

  lemma FetchedConcat(t: Table, a: seq<Row>, b: seq<Row>, ra: seq<Row>, rb: seq<Row>)
    requires Fetched(t, a, ra) && Fetched(t, b, rb)
    ensures Fetched(t, a + b, ra + rb)
  {
    forall r | r in ra + rb ensures Asked(t, a + b, r) {
      var k :| k in (if r in ra then a else b) && KeyAt(t.key, k) == KeyAt(t.key, r);
      assert k in a + b;
    }
  }

  /** Looks up any number of keys, at most batch at a time; asks at least once, even for none. */
  method GetInBatches(t: Table, keys: seq<Row>, batch: nat) returns (p: Result<ScanPage, ReadError>)
    requires WellFormed(t) && batch > 0
    ensures p.Err? <==> t.key == [] || exists k :: k in keys && !KeyComplete(t.key, k)
    ensures p.Err? ==> p.error == (if t.key == [] then NoRowKey else BadKey)
    ensures p.Ok? ==> p.value.columns == t.columns && p.value.key == t.key && Fetched(t, keys, p.value.rows)
  {
    var out: Option<ScanPage> := None;
    var start := 0;
    while start < |keys| || out.None?
      invariant start <= |keys| && (out.None? <==> start == 0)
      invariant out.Some? ==> t.key != [] && out.value.columns == t.columns && out.value.key == t.key
      invariant out.Some? ==> Fetched(t, keys[..start], out.value.rows) && start < |keys|
      invariant forall k :: k in keys[..start] ==> KeyComplete(t.key, k)
      decreases |keys| - start, out.None?
    {
      var end := if start + batch < |keys| then start + batch else |keys|;
      var page := GetRows(t, keys[start..end], batch);
      assert forall k :: k in keys[start..end] ==> k in keys;
      if page.Err? {
        return page;
      }
      assert keys[..end] == keys[..start] + keys[start..end];
      if out.None? {
        out := Some(page.value);
        assert keys[..end] == keys[start..end];
      } else {
        FetchedConcat(t, keys[..start], keys[start..end], out.value.rows, page.value.rows);
        out := Some(out.value.(rows := out.value.rows + page.value.rows));
      }
      if end == |keys| {
        assert keys[..end] == keys;
        return Ok(out.value);
      }
      start := start + batch;
    }
    assert false;
    p := Err(BadKey);
  }

  // ---- One step of a comparison -------------------------------------------------------------

  const PHASE_LIVE := "live"
  const PHASE_BACKUP := "backup"

  datatype Cursor = Cursor(phase: string, after: Option<Row>)

  datatype Step = Step(columns: seq<Column>, key: seq<Column>, items: seq<Item>, scanned: nat, next: Option<Cursor>)

  datatype DiffError = NotReady | UnknownPhase | Unreadable(error: ReadError) | KeyChanged

  predicate NulFreeKeys(t: Table) {
    forall k :: k in t.rows ==> NulFree(k)
  }

  /** Two sides with the same row key and keys that KeyString tells apart: one key column, or no
      NUL in key values (KeyStringInjectiveIff and NulFreeKeysSeparate say why). */
  predicate Comparable(live: Table, backup: Table) {
    && WellFormed(live) && WellFormed(backup)
    && live.key == backup.key && live.key != []
    && (|live.key| == 1 || (NulFreeKeys(live) && NulFreeKeys(backup)))
  }

  function Side(live: Table, backup: Table, phase: string): Table {
    if phase == PHASE_LIVE then live else backup
  }

  function OtherSide(live: Table, backup: Table, phase: string): Table {
    if phase == PHASE_LIVE then backup else live
  }

  function Compare(live: Table, backup: Table, phase: string, ks: seq<Key>): seq<Item>
    requires forall k :: k in ks ==> k in Side(live, backup, phase).rows
  {
    var t := Side(live, backup, phase);
    CompareRows(t.key, RowsOf(t, ks), OtherSide(live, backup, phase).rows, Common(live.columns, backup.columns),
                phase == PHASE_LIVE)
  }

  /** How each side orders its keys; the two need not agree. */
  datatype Orders = Orders(live: KeyOrder, backup: KeyOrder) {
    function Of(phase: string): KeyOrder {
      if phase == PHASE_LIVE then live else backup
    }

    predicate Fits(l: Table, b: Table) {
      Ordered(l.rows.Keys, live) && Ordered(b.rows.Keys, backup)
    }
  }

  function Position(t: Table, after: Option<Row>): Option<Key> {
    if after.Some? then Some(KeyAt(t.key, after.value)) else None
  }

  /** The keys a cursor's phase has still to scan. */
  function Left(live: Table, backup: Table, o: Orders, cur: Cursor): (ks: seq<Key>)
    requires o.Fits(live, backup)
    ensures forall k :: k in ks ==> k in Side(live, backup, cur.phase).rows
  {
    var t := Side(live, backup, cur.phase);
    Remaining(t, o.Of(cur.phase), Position(t, cur.after))
  }

  /** Everything the steps from cur to the end report. */
  function RestOf(live: Table, backup: Table, o: Orders, cur: Cursor): seq<Item>
    requires o.Fits(live, backup)
  {
    var rest := Compare(live, backup, cur.phase, Left(live, backup, o, cur));
    if cur.phase == PHASE_LIVE
    then rest + Compare(live, backup, PHASE_BACKUP, Left(live, backup, o, Cursor(PHASE_BACKUP, None)))
    else rest
  }

  function FullDiff(live: Table, backup: Table, o: Orders): seq<Item>
    requires o.Fits(live, backup)
  {
    RestOf(live, backup, o, Cursor(PHASE_LIVE, None))
  }

  /** What a step from cur with pages of pageRows rows reports. */
  function StepFrom(live: Table, backup: Table, o: Orders, cur: Cursor, pageRows: nat): Step
    requires o.Fits(live, backup)
  {
    var t := Side(live, backup, cur.phase);
    var page := ScanRows(t, o.Of(cur.phase), Position(t, cur.after), pageRows);
    var common := Common(live.columns, backup.columns);
    Step(common, t.key,
         CompareRows(t.key, page.rows, OtherSide(live, backup, cur.phase).rows, common, cur.phase == PHASE_LIVE),
         |page.rows|,
         if page.next.Some? then Some(Cursor(cur.phase, page.next))
         else if cur.phase == PHASE_LIVE then Some(Cursor(PHASE_BACKUP, None))
         else None)
  }

  function PageFrom(live: Table, backup: Table, o: Orders, cur: Cursor, pageRows: nat): ScanPage
    requires o.Fits(live, backup)
  {
    var t := Side(live, backup, cur.phase);
    ScanRows(t, o.Of(cur.phase), Position(t, cur.after), pageRows)
  }

  predicate KnownPhase(cur: Cursor) {
    cur.phase == PHASE_LIVE || cur.phase == PHASE_BACKUP
  }

  predicate UsableCursor(key: seq<Column>, cur: Cursor) {
    KnownPhase(cur) && (cur.after.Some? ==> KeyComplete(key, cur.after.value))
  }

  lemma KeysSeparate(live: Table, backup: Table, x: Row, y: Row)
    requires Comparable(live, backup)
    requires Lookup(live, KeyAt(live.key, x)) == Some(x) || Lookup(backup, KeyAt(live.key, x)) == Some(x)
    requires Lookup(live, KeyAt(live.key, y)) == Some(y) || Lookup(backup, KeyAt(live.key, y)) == Some(y)
    ensures Separates(live.key, x, y)
  {
    if |live.key| == 1 {
      SingleColumnKeysSeparate(live.key, x, y);
    } else {
      NulFreeKeysSeparate(live.key, x, y);
    }
  }

  lemma KeyOfKeyPart(key: seq<Column>, r: Row)
    ensures KeyAt(key, KeyPart(key, r)) == KeyAt(key, r)
  {
    forall i | 0 <= i < |key| ensures At(KeyPart(key, r), key[i]) == At(r, key[i]) {
    }
  }

  /** The rows fetched for a page's keys are the page's partners on the other side. */
  lemma FetchedArePartners(t: Table, other: Table, scanned: seq<Row>, keys: seq<Row>, fetched: seq<Row>)
    requires WellFormed(t) && WellFormed(other) && t.key == other.key
    requires |keys| == |scanned| && forall i :: 0 <= i < |scanned| ==> keys[i] == KeyPart(t.key, scanned[i])
    requires Fetched(other, keys, fetched)
    ensures Partners(t.key, scanned, fetched, other.rows)
  {
    forall r | r in scanned && KeyAt(t.key, r) in other.rows ensures other.rows[KeyAt(t.key, r)] in fetched {
      var i :| 0 <= i < |scanned| && scanned[i] == r;
      KeyOfKeyPart(t.key, r);
      assert keys[i] in keys;
    }
    forall o | o in fetched ensures KeyAt(t.key, o) in PageKeys(t.key, scanned) {
      assert Asked(other, keys, o);
      var k :| k in keys && KeyAt(t.key, k) == KeyAt(t.key, o);
      var i :| 0 <= i < |keys| && keys[i] == k;
      KeyOfKeyPart(t.key, scanned[i]);
      assert scanned[i] in scanned;
    }
  }

  predicate RowsFrom(t: Table, rows: seq<Row>) {
    forall r :: r in rows ==> Lookup(t, KeyAt(t.key, r)) == Some(r)
  }

  lemma PageSeparates(live: Table, backup: Table, phase: string, scanned: seq<Row>, fetched: seq<Row>)
    requires Comparable(live, backup)
    requires RowsFrom(Side(live, backup, phase), scanned) && RowsFrom(OtherSide(live, backup, phase), fetched)
    ensures TextsSeparate(live.key, scanned, fetched)
  {
    forall x, y | x in scanned && y in fetched ensures Separates(live.key, x, y) {
      KeysSeparate(live, backup, x, y);
    }
  }

  lemma StoredRowKeyComplete(t: Table, r: Row)
    requires WellFormed(t) && Lookup(t, KeyAt(t.key, r)) == Some(r)
    ensures KeyComplete(t.key, r)
  {
    var k := KeyAt(t.key, r);
    assert RowFits(t, k, r);
    forall c | c in t.key ensures c in r && r[c] != Null {
      var i :| 0 <= i < |t.key| && t.key[i] == c;
      assert k[i] == At(r, c);
    }
  }

  /** Looks up a scanned page's rows on the other side. */
  method LookUp(t: Table, other: Table, scanned: seq<Row>, batch: nat) returns (p: Result<ScanPage, ReadError>)
    requires WellFormed(t) && WellFormed(other) && batch > 0
    requires RowsFrom(t, scanned)
    ensures p.Err? ==> other.key == [] || other.key != t.key
    ensures p.Ok? ==> p.value.columns == other.columns && p.value.key == other.key && RowsFrom(other, p.value.rows)
    ensures p.Ok? && t.key == other.key ==> Partners(t.key, scanned, p.value.rows, other.rows)
  {
    forall r | r in scanned ensures KeyComplete(t.key, r) {
      StoredRowKeyComplete(t, r);
    }
    var keys := KeysOf(t.key, scanned);
    forall k | k in keys ensures KeyComplete(t.key, k) {
      var i :| 0 <= i < |keys| && keys[i] == k;
      assert scanned[i] in scanned;
    }
    p := GetInBatches(other, keys, batch);
    if p.Ok? && t.key == other.key {
      FetchedArePartners(t, other, scanned, keys, p.value.rows);
    }
  }

  lemma StoredRow(t: Table, k: Key)
    requires WellFormed(t) && k in t.rows
    ensures Lookup(t, KeyAt(t.key, t.rows[k])) == Some(t.rows[k]) && KeyComplete(t.key, t.rows[k])
  {
    assert RowFits(t, k, t.rows[k]);
    StoredRowKeyComplete(t, t.rows[k]);
  }

  /** A scan by cursor: refused without a row key or with an incomplete cursor. */
  method Scan(t: Table, rank: KeyOrder, after: Option<Row>, limit: nat) returns (p: Result<ScanPage, ReadError>)
    requires WellFormed(t) && Ordered(t.rows.Keys, rank)
    ensures p.Err? <==> t.key == [] || (after.Some? && !KeyComplete(t.key, after.value))
    ensures p.Ok? ==> p.value == ScanRows(t, rank, Position(t, after), limit)
    ensures p.Ok? ==> RowsFrom(t, p.value.rows) && KeysPresent(t.key, p.value.rows)
  {
    if t.key == [] {
      return Err(NoRowKey);
    }
    if after.Some? && !KeyComplete(t.key, after.value) {
      return Err(BadKey);
    }
    var page := ScanRows(t, rank, Position(t, after), limit);
    forall r | r in page.rows ensures Lookup(t, KeyAt(t.key, r)) == Some(r) && KeyComplete(t.key, r) {
      var k :| k in t.rows && r == t.rows[k];
      StoredRow(t, k);
    }
    p := Ok(page);
  }

  /** The items of a page pair its rows with rows of the other side that were looked up for it, by the
      texts of their keys. */
  ghost predicate PairedByText(key: seq<Column>, scanned: seq<Row>, other: map<Key, Row>, common: seq<Column>, scannedLive: bool,
                               items: seq<Item>)
  {
    exists fetched, byKey ::
      && Partners(key, scanned, fetched, other) && Indexed(key, fetched, byKey)
      && items == CompareRows(key, scanned, FoundBy(PageKeys(key, scanned), byKey), common, scannedLive)
  }

  /** What a step pairs is right for comparable sides. */
  lemma ComparablePage(live: Table, backup: Table, phase: string, scanned: seq<Row>, fetched: seq<Row>, byKey: map<string, Row>)
    requires Comparable(live, backup) && RowsFrom(Side(live, backup, phase), scanned)
    requires RowsFrom(OtherSide(live, backup, phase), fetched) && Indexed(live.key, fetched, byKey)
    requires Partners(live.key, scanned, fetched, OtherSide(live, backup, phase).rows)
    ensures CompareRows(live.key, scanned, FoundBy(PageKeys(live.key, scanned), byKey), Common(live.columns, backup.columns), phase == PHASE_LIVE)
         == CompareRows(live.key, scanned, OtherSide(live, backup, phase).rows, Common(live.columns, backup.columns), phase == PHASE_LIVE)
  {
    PageSeparates(live, backup, phase, scanned, fetched);
    PageByKey(live.key, scanned, fetched, OtherSide(live, backup, phase).rows, byKey, Common(live.columns, backup.columns), phase == PHASE_LIVE);
  }

  /** Compares one page of a table with its backup copy. Rows are paired by the texts of their keys; on
      comparable sides that is by their keys, and the step depends on the cursor and the page size alone,
      not on how look-ups are batched. */
  method DiffCopy(live: Table, backup: Table, o: Orders, ready: bool, start: Option<Cursor>, pageRows: nat, batch: nat)
    returns (r: Result<Step, DiffError>, warnings: seq<Warning>)
    requires WellFormed(live) && WellFormed(backup) && o.Fits(live, backup) && batch > 0
    ensures !ready ==> r == Err(NotReady)
    ensures ready && !KnownPhase(Begin(start)) ==> r == Err(UnknownPhase)
    ensures r.Ok? <==> ready && live.key == backup.key != [] && UsableCursor(live.key, Begin(start))
    ensures r.Ok? ==>
              var cur, step := Begin(start), StepFrom(live, backup, o, Begin(start), pageRows);
              && r.value == step.(items := r.value.items) && (Comparable(live, backup) ==> r.value == step)
              && PairedByText(live.key, PageFrom(live, backup, o, cur, pageRows).rows, OtherSide(live, backup, cur.phase).rows,
                              step.columns, cur.phase == PHASE_LIVE, r.value.items)
    ensures if r.Ok? then Warns(live.columns, backup.columns, warnings) else warnings == []
  {
    warnings := [];
    if !ready {
      return Err(NotReady), [];
    }
    var cur := if start.Some? then start.value else Cursor(PHASE_LIVE, None);
    if cur.phase != PHASE_LIVE && cur.phase != PHASE_BACKUP {
      return Err(UnknownPhase), [];
    }
    var onLive := cur.phase == PHASE_LIVE;
    var side, otherSide := Side(live, backup, cur.phase), OtherSide(live, backup, cur.phase);
    var scan := Scan(side, o.Of(cur.phase), cur.after, pageRows);
    if scan.Err? {
      return Err(Unreadable(scan.error)), [];
    }
    var scanned := scan.value;
    var get := LookUp(side, otherSide, scanned.rows, batch);
    if get.Err? {
      return Err(Unreadable(get.error)), [];
    }
    var other := get.value;
    if scanned.key != other.key {
      return Err(KeyChanged), [];
    }
    var common;
    common, warnings := CommonColumns(if onLive then scanned.columns else other.columns,
                                      if onLive then other.columns else scanned.columns);
    var items, byKey := DiffPages(scanned.key, scanned.rows, other.rows, common, onLive);
    if Comparable(live, backup) {
      ComparablePage(live, backup, cur.phase, scanned.rows, other.rows, byKey);
    }
    var next: Option<Cursor> := None;
    if scanned.next.Some? {
      next := Some(Cursor(cur.phase, scanned.next));
    } else if onLive {
      next := Some(Cursor(PHASE_BACKUP, None));
    }
    r := Ok(Step(common, scanned.key, items, |scanned.rows|, next));
  }

  // ---- Following a comparison to its end ----------------------------------------------------

  lemma CompareSplit(live: Table, backup: Table, phase: string, ks: seq<Key>, n: nat)
    requires n <= |ks| && forall k :: k in ks ==> k in Side(live, backup, phase).rows
    ensures Compare(live, backup, phase, ks) == Compare(live, backup, phase, ks[..n]) + Compare(live, backup, phase, ks[n..])
  {
    var t := Side(live, backup, phase);
    assert RowsOf(t, ks) == RowsOf(t, ks[..n]) + RowsOf(t, ks[n..]);
    CompareRowsConcat(t.key, RowsOf(t, ks[..n]), RowsOf(t, ks[n..]), OtherSide(live, backup, phase).rows,
                      Common(live.columns, backup.columns), phase == PHASE_LIVE);
  }

  /** Where a step leaves off: later in the same phase, or at the start of the backup phase. */
  predicate Advances(live: Table, backup: Table, o: Orders, cur: Cursor, next: Cursor)
    requires o.Fits(live, backup)
  {
    || (next.phase == cur.phase && |Left(live, backup, o, next)| < |Left(live, backup, o, cur)|)
    || (cur.phase == PHASE_LIVE && next == Cursor(PHASE_BACKUP, None))
  }

  /** A page covers the first keys left in its phase, ... */
  lemma PageTakesFront(live: Table, backup: Table, o: Orders, cur: Cursor, pageRows: nat)
    requires WellFormed(live) && WellFormed(backup) && o.Fits(live, backup) && pageRows > 0
    ensures var ks := Left(live, backup, o, cur);
            var page := PageFrom(live, backup, o, cur, pageRows);
            && |page.rows| <= |ks| && (page.next.None? ==> |page.rows| == |ks|)
            && StepFrom(live, backup, o, cur, pageRows).items == Compare(live, backup, cur.phase, ks[..|page.rows|])
  {
    var t := Side(live, backup, cur.phase);
    ScanProgress(t, o.Of(cur.phase), Position(t, cur.after), pageRows);
  }

  /** A page's next position is the last of its rows' keys, which is complete. */
  lemma PageEnds(t: Table, rank: KeyOrder, after: Option<Key>, limit: nat)
    requires WellFormed(t) && Ordered(t.rows.Keys, rank) && limit > 0 && ScanRows(t, rank, after, limit).next.Some?
    ensures KeyComplete(t.key, ScanRows(t, rank, after, limit).next.value)
  {
    ScanProgress(t, rank, after, limit);
    var k := Remaining(t, rank, after)[limit - 1];
    assert k in Remaining(t, rank, after);
    assert RowFits(t, k, t.rows[k]);
    StoredRowKeyComplete(t, t.rows[k]);
  }

  /** ... and its successor covers the others. */
  lemma PageSuccessor(live: Table, backup: Table, o: Orders, cur: Cursor, pageRows: nat)
    requires WellFormed(live) && WellFormed(backup) && o.Fits(live, backup) && pageRows > 0
    requires PageFrom(live, backup, o, cur, pageRows).next.Some?
    ensures var ks := Left(live, backup, o, cur);
            var page := PageFrom(live, backup, o, cur, pageRows);
            && 0 < |page.rows| <= |ks|
            && KeyComplete(Side(live, backup, cur.phase).key, page.next.value)
            && Left(live, backup, o, Cursor(cur.phase, page.next)) == ks[|page.rows|..]
  {
    var t := Side(live, backup, cur.phase);
    ScanProgress(t, o.Of(cur.phase), Position(t, cur.after), pageRows);
    PageEnds(t, o.Of(cur.phase), Position(t, cur.after), pageRows);
  }

  /** The phase's own part of what is left splits into the step's items and the next page's. */
  lemma PhaseSplits(live: Table, backup: Table, o: Orders, cur: Cursor, pageRows: nat)
    requires Comparable(live, backup) && o.Fits(live, backup) && pageRows > 0
    ensures var page := PageFrom(live, backup, o, cur, pageRows);
            Compare(live, backup, cur.phase, Left(live, backup, o, cur))
            == StepFrom(live, backup, o, cur, pageRows).items
               + (if page.next.Some? then Compare(live, backup, cur.phase, Left(live, backup, o, Cursor(cur.phase, page.next)))
                  else [])
  {
    PageTakesFront(live, backup, o, cur, pageRows);
    var ks := Left(live, backup, o, cur);
    var page := PageFrom(live, backup, o, cur, pageRows);
    if page.next.Some? {
      PageSuccessor(live, backup, o, cur, pageRows);
      CompareSplit(live, backup, cur.phase, ks, |page.rows|);
    } else {
      assert ks[..|page.rows|] == ks;
    }
  }

  function Begin(cur: Option<Cursor>): Cursor {
    if cur.Some? then cur.value else Cursor(PHASE_LIVE, None)
  }

  /** What is still to be reported before the step at cur, or after the last one. */
  function Ahead(live: Table, backup: Table, o: Orders, cur: Option<Cursor>, done: bool): seq<Item>
    requires o.Fits(live, backup)
  {
    if done then [] else RestOf(live, backup, o, Begin(cur))
  }

  lemma Associate<T>(a: seq<T>, b: seq<T>, c: seq<T>)
    ensures (a + b) + c == a + (b + c)
  {
  }

  /** What is left after a step that ends its phase. */
  lemma PhaseEnds(live: Table, backup: Table, o: Orders, cur: Cursor, pageRows: nat)
    requires Comparable(live, backup) && o.Fits(live, backup) && KnownPhase(cur) && pageRows > 0
    requires PageFrom(live, backup, o, cur, pageRows).next.None?
    ensures var st := StepFrom(live, backup, o, cur, pageRows);
            RestOf(live, backup, o, cur) == st.items + Ahead(live, backup, o, st.next, st.next.None?)
  {
    PhaseSplits(live, backup, o, cur, pageRows);
    var st := StepFrom(live, backup, o, cur, pageRows);
    assert st.items + [] == st.items;
    assert Compare(live, backup, cur.phase, Left(live, backup, o, cur)) == st.items;
  }

  /** ... and after one that does not. */
  lemma PhaseGoesOn(live: Table, backup: Table, o: Orders, cur: Cursor, pageRows: nat)
    requires Comparable(live, backup) && o.Fits(live, backup) && KnownPhase(cur) && pageRows > 0
    requires PageFrom(live, backup, o, cur, pageRows).next.Some?
    ensures var st := StepFrom(live, backup, o, cur, pageRows);
            RestOf(live, backup, o, cur) == st.items + Ahead(live, backup, o, st.next, st.next.None?)
  {
    PhaseSplits(live, backup, o, cur, pageRows);
    var st := StepFrom(live, backup, o, cur, pageRows);
    var next := Cursor(cur.phase, PageFrom(live, backup, o, cur, pageRows).next);
    assert st.next == Some(next);
    Associate(st.items, Compare(live, backup, cur.phase, Left(live, backup, o, next)),
              Compare(live, backup, PHASE_BACKUP, Left(live, backup, o, Cursor(PHASE_BACKUP, None))));
  }

  /** A step reports the front of what is left, and its cursor leads to the remainder. */
  lemma StepTakesFront(live: Table, backup: Table, o: Orders, cur: Cursor, pageRows: nat)
    requires Comparable(live, backup) && o.Fits(live, backup)
    requires KnownPhase(cur) && pageRows > 0
    ensures var st := StepFrom(live, backup, o, cur, pageRows);
            RestOf(live, backup, o, cur) == st.items + Ahead(live, backup, o, st.next, st.next.None?)
  {
    if PageFrom(live, backup, o, cur, pageRows).next.None? {
      PhaseEnds(live, backup, o, cur, pageRows);
    } else {
      PhaseGoesOn(live, backup, o, cur, pageRows);
    }
  }

  lemma StepAdvances(live: Table, backup: Table, o: Orders, cur: Cursor, pageRows: nat)
    requires Comparable(live, backup) && o.Fits(live, backup)
    requires KnownPhase(cur) && pageRows > 0
    ensures var next := StepFrom(live, backup, o, cur, pageRows).next;
            next.Some? ==> UsableCursor(live.key, next.value) && Advances(live, backup, o, cur, next.value)
  {
    if PageFrom(live, backup, o, cur, pageRows).next.Some? {
      PageSuccessor(live, backup, o, cur, pageRows);
    }
  }

  lemma Regroup<T>(full: seq<T>, a: seq<T>, b: seq<T>, c: seq<T>, bc: seq<T>)
    requires full == a + bc && bc == b + c
    ensures full == (a + b) + c
  {
  }

  /** Following Next from the start to the end reports the full difference, whatever the page and
      batch sizes. */
  method FollowDiff(live: Table, backup: Table, o: Orders, pageRows: nat, batch: nat) returns (items: seq<Item>)
    requires Comparable(live, backup) && o.Fits(live, backup) && pageRows > 0 && batch > 0
    ensures items == FullDiff(live, backup, o)
  {
    items := [];
    var cur: Option<Cursor> := None;
    var done := false;
    ghost var keysLeft := |Left(live, backup, o, Begin(cur))|;
    while !done
      invariant UsableCursor(live.key, Begin(cur))
      invariant FullDiff(live, backup, o) == items + Ahead(live, backup, o, cur, done)
      invariant keysLeft == |Left(live, backup, o, Begin(cur))|
      decreases !done, Begin(cur).phase == PHASE_LIVE, keysLeft
    {
      var step, _ := DiffCopy(live, backup, o, true, cur, pageRows, batch);
      StepTakesFront(live, backup, o, Begin(cur), pageRows);
      Regroup(FullDiff(live, backup, o), items, step.value.items,
              Ahead(live, backup, o, step.value.next, step.value.next.None?), Ahead(live, backup, o, cur, false));
      StepAdvances(live, backup, o, Begin(cur), pageRows);
      items := items + step.value.items;
      if step.value.next.None? {
        done := true;
      } else {
        cur := step.value.next;
        keysLeft := |Left(live, backup, o, Begin(cur))|;
      }
    }
  }

  // ---- The full difference is the keyed symmetric difference --------------------------------

  /** What a key should be reported as, read off the two tables directly. */
  function Verdict(live: Table, backup: Table, k: Key): Option<Item> {
    var common := Common(live.columns, backup.columns);
    if k in live.rows && k !in backup.rows then
      Some(Added(KeyPart(live.key, live.rows[k]), RowHash(live.rows[k], common)))
    else if k in backup.rows && k !in live.rows then
      Some(Removed(KeyPart(backup.key, backup.rows[k])))
    else if k in live.rows && Differing(live.rows[k], backup.rows[k], common) != [] then
      Some(Changed(KeyPart(live.key, live.rows[k]), Differing(live.rows[k], backup.rows[k], common),
                   RowHash(live.rows[k], common)))
    else None
  }

  function VerdictsOf(live: Table, backup: Table, ks: seq<Key>): seq<Item> {
    if ks == [] then []
    else
      var v := Verdict(live, backup, ks[0]);
      (if v.Some? then [v.value] else []) + VerdictsOf(live, backup, ks[1..])
  }

  /** The backup's keys that only the second phase reports. */
  function OnlyIn(ks: seq<Key>, other: map<Key, Row>): (r: seq<Key>)
    ensures forall k :: k in r <==> k in ks && k !in other
  {
    if ks == [] then [] else (if ks[0] !in other then [ks[0]] else []) + OnlyIn(ks[1..], other)
  }

  lemma {:induction false} OnlyInAscending(ks: seq<Key>, other: map<Key, Row>, rank: KeyOrder)
    requires Ascending(ks, rank)
    ensures Ascending(OnlyIn(ks, other), rank)
  {
    if ks != [] {
      OnlyInAscending(ks[1..], other, rank);
      var rest := OnlyIn(ks[1..], other);
      forall j | 0 <= j < |rest| ensures rank(ks[0]) < rank(rest[j]) {
        assert rest[j] in rest;
        var i :| 0 <= i < |ks[1..]| && ks[1..][i] == rest[j];
        assert ks[i + 1] == rest[j];
      }
    }
  }

  lemma {:induction false} LivePhaseVerdicts(live: Table, backup: Table, ks: seq<Key>)
    requires WellFormed(live) && WellFormed(backup) && live.key == backup.key
    requires forall k :: k in ks ==> k in live.rows
    ensures Compare(live, backup, PHASE_LIVE, ks) == VerdictsOf(live, backup, ks)
  {
    if ks != [] {
      assert ks[0] in ks;
      assert RowFits(live, ks[0], live.rows[ks[0]]);
      assert RowsOf(live, ks)[1..] == RowsOf(live, ks[1..]);
      LivePhaseVerdicts(live, backup, ks[1..]);
    }
  }

  lemma {:induction false} BackupPhaseVerdicts(live: Table, backup: Table, ks: seq<Key>)
    requires WellFormed(live) && WellFormed(backup) && live.key == backup.key
    requires forall k :: k in ks ==> k in backup.rows
    ensures Compare(live, backup, PHASE_BACKUP, ks) == VerdictsOf(live, backup, OnlyIn(ks, live.rows))
  {
    if ks != [] {
      assert ks[0] in ks;
      assert RowFits(backup, ks[0], backup.rows[ks[0]]);
      assert RowsOf(backup, ks)[1..] == RowsOf(backup, ks[1..]);
      BackupPhaseVerdicts(live, backup, ks[1..]);
      var rest := OnlyIn(ks[1..], live.rows);
      if ks[0] !in live.rows {
        assert OnlyIn(ks, live.rows)[1..] == rest;
      } else {
        assert OnlyIn(ks, live.rows) == rest;
      }
    }
  }

  lemma {:induction false} VerdictsConcat(live: Table, backup: Table, a: seq<Key>, b: seq<Key>)
    ensures VerdictsOf(live, backup, a + b) == VerdictsOf(live, backup, a) + VerdictsOf(live, backup, b)
  {
    if a == [] {
      assert a + b == b;
    } else {
      assert (a + b)[1..] == a[1..] + b;
      VerdictsConcat(live, backup, a[1..], b);
    }
  }

  /** The keys of the two tables, each once: the live side's in its order, then those only the backup has. */
  function AllKeys(live: Table, backup: Table, o: Orders): (ks: seq<Key>)
    requires o.Fits(live, backup)
    ensures forall k :: k in ks <==> k in live.rows || k in backup.rows
  {
    InOrder(live.rows.Keys, o.live) + OnlyIn(InOrder(backup.rows.Keys, o.backup), live.rows)
  }

  predicate NoRepeats(ks: seq<Key>) {
    forall i, j :: 0 <= i < j < |ks| ==> ks[i] != ks[j]
  }

  lemma ConcatNoRepeats(a: seq<Key>, b: seq<Key>)
    requires NoRepeats(a) && NoRepeats(b) && forall i, j :: 0 <= i < |a| && 0 <= j < |b| ==> a[i] != b[j]
    ensures NoRepeats(a + b)
  {
  }

  lemma AscendingNoRepeats(ks: seq<Key>, rank: KeyOrder)
    requires Ascending(ks, rank)
    ensures NoRepeats(ks)
  {
    forall i, j | 0 <= i < j < |ks| ensures ks[i] != ks[j] {
      assert rank(ks[i]) < rank(ks[j]);
    }
  }

  lemma AllKeysOnce(live: Table, backup: Table, o: Orders)
    requires o.Fits(live, backup)
    ensures NoRepeats(AllKeys(live, backup, o))
  {
    var a, b := InOrder(live.rows.Keys, o.live), OnlyIn(InOrder(backup.rows.Keys, o.backup), live.rows);
    OnlyInAscending(InOrder(backup.rows.Keys, o.backup), live.rows, o.backup);
    AscendingNoRepeats(a, o.live);
    AscendingNoRepeats(b, o.backup);
    forall i, j | 0 <= i < |a| && 0 <= j < |b| ensures a[i] != b[j] {
      assert a[i] in a && b[j] in b;
    }
    ConcatNoRepeats(a, b);
  }

  /** The full difference is each key's verdict, every key of either table consulted exactly once. */
  lemma DiffIsExact(live: Table, backup: Table, o: Orders)
    requires Comparable(live, backup) && o.Fits(live, backup)
    ensures FullDiff(live, backup, o) == VerdictsOf(live, backup, AllKeys(live, backup, o))
    ensures NoRepeats(AllKeys(live, backup, o))
  {
    var a, b := InOrder(live.rows.Keys, o.live), InOrder(backup.rows.Keys, o.backup);
    assert KeysAfter(live, o.live, None) == live.rows.Keys && KeysAfter(backup, o.backup, None) == backup.rows.Keys;
    LivePhaseVerdicts(live, backup, a);
    BackupPhaseVerdicts(live, backup, b);
    VerdictsConcat(live, backup, a, OnlyIn(b, live.rows));
    AllKeysOnce(live, backup, o);
  }

  /** An item names its key, so distinct keys never share an item. */
  lemma VerdictNamesKey(live: Table, backup: Table, k: Key)
    requires Comparable(live, backup) && Verdict(live, backup, k).Some?
    ensures KeyAt(live.key, Verdict(live, backup, k).value.key) == k
  {
    var r := if k in live.rows then live.rows[k] else backup.rows[k];
    assert if k in live.rows then RowFits(live, k, r) else RowFits(backup, k, r);
    KeyOfKeyPart(live.key, r);
  }

  predicate KeysDiffer(key: seq<Column>, items: seq<Item>) {
    forall i, j :: 0 <= i < j < |items| ==> KeyAt(key, items[i].key) != KeyAt(key, items[j].key)
  }

  lemma KeysDifferPrepend(key: seq<Column>, x: Item, rest: seq<Item>)
    requires KeysDiffer(key, rest)
    requires forall r :: r in rest ==> KeyAt(key, r.key) != KeyAt(key, x.key)
    ensures KeysDiffer(key, [x] + rest)
  {
  }

  lemma {:induction false} VerdictsOnce(live: Table, backup: Table, ks: seq<Key>)
    requires Comparable(live, backup) && NoRepeats(ks)
    ensures forall x :: x in VerdictsOf(live, backup, ks) <==> exists k :: k in ks && Verdict(live, backup, k) == Some(x)
    ensures KeysDiffer(live.key, VerdictsOf(live, backup, ks))
  {
    if ks != [] {
      VerdictsOnce(live, backup, ks[1..]);
      var rest := VerdictsOf(live, backup, ks[1..]);
      var v := Verdict(live, backup, ks[0]);
      assert ks == [ks[0]] + ks[1..];
      if v.Some? {
        VerdictNamesKey(live, backup, ks[0]);
        forall r | r in rest ensures KeyAt(live.key, r.key) != ks[0] {
          var k :| k in ks[1..] && Verdict(live, backup, k) == Some(r);
          VerdictNamesKey(live, backup, k);
        }
        KeysDifferPrepend(live.key, v.value, rest);
      } else {
        assert VerdictsOf(live, backup, ks) == rest;
      }
    }
  }

  /** Each item of a full comparison is the verdict on its own key, every key with a verdict is
      reported, and no key is reported twice. */
  lemma DiffReportsEachKeyOnce(live: Table, backup: Table, o: Orders)
    requires Comparable(live, backup) && o.Fits(live, backup)
    ensures var items := FullDiff(live, backup, o);
            && (forall x :: x in items <==> exists k :: (k in live.rows || k in backup.rows) && Verdict(live, backup, k) == Some(x))
            && KeysDiffer(live.key, items)
  {
    DiffIsExact(live, backup, o);
    VerdictsOnce(live, backup, AllKeys(live, backup, o));
  }
}
