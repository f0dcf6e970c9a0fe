/** Where pairing the rows of a page by the texts of their keys is right
    (backend/internal/app/dbadmin/backup_copy.go, diffPages). */
module CopyPages {
  import opened Wrappers
  import opened Rows
  import opened CopyDiff

  predicate KeysApart(key: seq<Column>, rows: seq<Row>) {
    forall i, j :: 0 <= i < j < |rows| ==> KeyAt(key, rows[i]) != KeyAt(key, rows[j])
  }

  /** No row of the page shares its text with another whose key the other side has. */
  predicate PairsApart(key: seq<Column>, scanned: seq<Row>, other: map<Key, Row>) {
    forall x, y :: x in scanned && y in scanned && KeyAt(key, y) in other ==> Separates(key, x, y)
  }

  /** No row of the page that the other side lacks shares its text with one that it has. */
  predicate MissingApart(key: seq<Column>, scanned: seq<Row>, other: map<Key, Row>) {
    forall x, y :: x in scanned && y in scanned && KeyAt(key, x) !in other && KeyAt(key, y) in other ==>
      KeyString(key, x) != KeyString(key, y)
  }

  predicate Keyed(key: seq<Column>, other: map<Key, Row>) {
    forall k :: k in other ==> KeyAt(key, other[k]) == k
  }

  // ---- A list of items gives each row's own ----------------------------------------------------------

  lemma ItemOf(key: seq<Column>, r: Row, other: map<Key, Row>, common: seq<Column>, scannedLive: bool)
    ensures |CompareRow(key, r, other, common, scannedLive)| <= 1
    ensures forall x :: x in CompareRow(key, r, other, common, scannedLive) ==> KeyAt(key, x.key) == KeyAt(key, r)
  {
    KeyOfKeyPart(key, r);
  }

  lemma {:induction false} ItemsOfOthers(key: seq<Column>, rows: seq<Row>, other: map<Key, Row>, common: seq<Column>,
                                         scannedLive: bool, k: Key)
    requires forall r :: r in rows ==> KeyAt(key, r) != k
    ensures forall x :: x in CompareRows(key, rows, other, common, scannedLive) ==> KeyAt(key, x.key) != k
  {
    if rows != [] {
      ItemOf(key, rows[0], other, common, scannedLive);
      assert rows[0] in rows;
      ItemsOfOthers(key, rows[1..], other, common, scannedLive, k);
    }
  }

  /** A row whose items are at the front of one list only cannot be. */
  lemma NotInOneOnly(a: seq<Item>, rest: seq<Item>, others: seq<Item>, key: seq<Column>, k: Key)
    requires a != [] && (forall x :: x in a ==> KeyAt(key, x.key) == k) && forall x :: x in others ==> KeyAt(key, x.key) != k
    ensures a + rest != others
  {
    assert a[0] in a && (a + rest)[0] == a[0];
    if others != [] {
      assert others[0] in others;
    }
  }

  /** Equal lists have the same items of the first row, and of the others. */
  lemma SameFront(a: seq<Item>, b: seq<Item>, restA: seq<Item>, restB: seq<Item>, key: seq<Column>, k: Key)
    requires a + restA == b + restB && |a| <= 1 && |b| <= 1
    requires (forall x :: x in a ==> KeyAt(key, x.key) == k) && forall x :: x in b ==> KeyAt(key, x.key) == k
    requires (forall x :: x in restA ==> KeyAt(key, x.key) != k) && forall x :: x in restB ==> KeyAt(key, x.key) != k
    ensures a == b && restA == restB
  {
    if a != [] {
      NotInOneOnly(a, restA, restB, key, k);
      assert b == [] ==> b + restB == restB;
    }
    if b != [] {
      NotInOneOnly(b, restB, restA, key, k);
      assert a == [] ==> a + restA == restA;
    }
    assert a == (a + restA)[..|a|] && b == (b + restB)[..|b|];
    assert restA == (a + restA)[|a|..] && restB == (b + restB)[|b|..];
  }

  lemma OthersApart(key: seq<Column>, rows: seq<Row>)
    requires KeysApart(key, rows) && rows != []
    ensures KeysApart(key, rows[1..]) && forall r :: r in rows[1..] ==> KeyAt(key, r) != KeyAt(key, rows[0])
  {
    forall r | r in rows[1..] ensures KeyAt(key, r) != KeyAt(key, rows[0]) {
      var i :| 0 <= i < |rows| - 1 && rows[1..][i] == r;
      assert rows[i + 1] == r;
    }
    forall i, j | 0 <= i < j < |rows| - 1 ensures KeyAt(key, rows[1..][i]) != KeyAt(key, rows[1..][j]) {
      assert KeyAt(key, rows[i + 1]) != KeyAt(key, rows[j + 1]);
    }
  }

  lemma FirstRow(key: seq<Column>, rows: seq<Row>, a: map<Key, Row>, b: map<Key, Row>, common: seq<Column>, scannedLive: bool)
    requires KeysApart(key, rows) && rows != []
    requires CompareRows(key, rows, a, common, scannedLive) == CompareRows(key, rows, b, common, scannedLive)
    ensures CompareRow(key, rows[0], a, common, scannedLive) == CompareRow(key, rows[0], b, common, scannedLive)
    ensures CompareRows(key, rows[1..], a, common, scannedLive) == CompareRows(key, rows[1..], b, common, scannedLive)
  {
    var k := KeyAt(key, rows[0]);
    OthersApart(key, rows);
    ItemsOfOthers(key, rows[1..], a, common, scannedLive, k);
    ItemsOfOthers(key, rows[1..], b, common, scannedLive, k);
    ItemOf(key, rows[0], a, common, scannedLive);
    ItemOf(key, rows[0], b, common, scannedLive);
    SameFront(CompareRow(key, rows[0], a, common, scannedLive), CompareRow(key, rows[0], b, common, scannedLive),
              CompareRows(key, rows[1..], a, common, scannedLive), CompareRows(key, rows[1..], b, common, scannedLive), key, k);
  }

  lemma {:induction false} ByRow(key: seq<Column>, rows: seq<Row>, a: map<Key, Row>, b: map<Key, Row>, common: seq<Column>,
                                 scannedLive: bool, r: Row)
    requires KeysApart(key, rows) && r in rows
    requires CompareRows(key, rows, a, common, scannedLive) == CompareRows(key, rows, b, common, scannedLive)
    ensures CompareRow(key, r, a, common, scannedLive) == CompareRow(key, r, b, common, scannedLive)
  {
    FirstRow(key, rows, a, b, common, scannedLive);
    if r != rows[0] {
      OthersApart(key, rows);
      assert r in rows[1..];
      ByRow(key, rows[1..], a, b, common, scannedLive, r);
    }
  }

  // ---- One page ---------------------------------------------------------------------------------------

  lemma FoundIsOfThePage(key: seq<Column>, scanned: seq<Row>, fetched: seq<Row>, other: map<Key, Row>, byKey: map<string, Row>,
                         text: string)
    returns (y: Row)
    requires Partners(key, scanned, fetched, other) && Indexed(key, fetched, byKey) && text in byKey
    ensures y in scanned && KeyAt(key, y) in other && other[KeyAt(key, y)] == byKey[text]
    ensures KeyAt(key, y) == KeyAt(key, byKey[text]) && KeyString(key, y) == text
  {
    var o := byKey[text];
    assert o in fetched && KeyAt(key, o) in PageKeys(key, scanned);
    y :| y in scanned && KeyAt(key, y) == KeyAt(key, o);
    SameKeySameText(key, y, o);
  }

  lemma PresentIsFound(key: seq<Column>, scanned: seq<Row>, fetched: seq<Row>, other: map<Key, Row>, byKey: map<string, Row>, r: Row)
    requires Partners(key, scanned, fetched, other) && Indexed(key, fetched, byKey) && Keyed(key, other)
    requires r in scanned && KeyAt(key, r) in other
    ensures KeyString(key, r) in byKey
  {
    SameKeySameText(key, r, other[KeyAt(key, r)]);
  }

  /** What looking a row up by its text comes to. */
  lemma FoundIs(key: seq<Column>, scanned: seq<Row>, byKey: map<string, Row>, r: Row)
    requires r in scanned
    ensures PartnerIn(FoundBy(PageKeys(key, scanned), byKey), KeyAt(key, r)) == ByText(byKey, KeyString(key, r))
  {
    KeyStringIs(key, r);
  }

  lemma RowRight(key: seq<Column>, scanned: seq<Row>, fetched: seq<Row>, other: map<Key, Row>, byKey: map<string, Row>,
                 common: seq<Column>, scannedLive: bool, r: Row)
    requires Partners(key, scanned, fetched, other) && Indexed(key, fetched, byKey) && Keyed(key, other) && r in scanned
    requires if scannedLive then PairsApart(key, scanned, other) else MissingApart(key, scanned, other)
    ensures CompareRow(key, r, FoundBy(PageKeys(key, scanned), byKey), common, scannedLive) == CompareRow(key, r, other, common, scannedLive)
  {
    FoundIs(key, scanned, byKey, r);
    var text := KeyString(key, r);
    if text in byKey {
      var y := FoundIsOfThePage(key, scanned, fetched, other, byKey, text);
      assert scannedLive ==> Separates(key, r, y);
    } else if KeyAt(key, r) in other {
      PresentIsFound(key, scanned, fetched, other, byKey, r);
    }
  }

  /** A live row compared with a row of another key is reported as changed in a key column, which it never is. */
  lemma WrongPartner(key: seq<Column>, r: Row, z: Row, other: map<Key, Row>, common: seq<Column>)
    requires KeyAt(key, r) != KeyAt(key, z) && Keyed(key, other) && forall c :: c in key ==> c in common
    ensures PairItems(key, r, Some(z), common, true) != CompareRow(key, r, other, common, true)
  {
    var i :| 0 <= i < |key| && KeyAt(key, r)[i] != KeyAt(key, z)[i];
    var c := key[i];
    assert At(r, c) != At(z, c);
    assert c in Differing(r, z, common);
    if KeyAt(key, r) in other {
      var o := other[KeyAt(key, r)];
      assert KeyAt(key, o)[i] == KeyAt(key, r)[i];
      assert c !in Differing(r, o, common);
    }
  }

  lemma RowWrong(key: seq<Column>, scanned: seq<Row>, fetched: seq<Row>, other: map<Key, Row>, byKey: map<string, Row>,
                 common: seq<Column>, x: Row, y: Row)
    returns (r: Row)
    requires Partners(key, scanned, fetched, other) && Indexed(key, fetched, byKey) && Keyed(key, other)
    requires x in scanned && y in scanned && KeyAt(key, y) in other && !Separates(key, x, y)
    requires forall c :: c in key ==> c in common
    ensures r in scanned
    ensures CompareRow(key, r, FoundBy(PageKeys(key, scanned), byKey), common, true) != CompareRow(key, r, other, common, true)
  {
    if KeyAt(key, x) == KeyAt(key, y) {
      SameKeySameText(key, x, y);
    }
    PresentIsFound(key, scanned, fetched, other, byKey, y);
    var z := byKey[KeyString(key, y)];
    r := if KeyAt(key, x) != KeyAt(key, z) then x else y;
    FoundIs(key, scanned, byKey, r);
    WrongPartner(key, r, z, other, common);
  }

  /** A page is reported right, whatever the order its partners were returned in, exactly if: on the live
      side, no row shares its text with another one that the backup has; on the side of the backup, no row
      that is gone shares its text with one that is not. */
  lemma PageRightIff(key: seq<Column>, scanned: seq<Row>, fetched: seq<Row>, other: map<Key, Row>, byKey: map<string, Row>,
                     common: seq<Column>, scannedLive: bool)
    requires Partners(key, scanned, fetched, other) && Indexed(key, fetched, byKey) && Keyed(key, other)
    requires KeysApart(key, scanned) && forall c :: c in key ==> c in common
    ensures CompareRows(key, scanned, FoundBy(PageKeys(key, scanned), byKey), common, scannedLive)
            == CompareRows(key, scanned, other, common, scannedLive)
       <==> if scannedLive then PairsApart(key, scanned, other) else MissingApart(key, scanned, other)
  {
    var found := FoundBy(PageKeys(key, scanned), byKey);
    if if scannedLive then PairsApart(key, scanned, other) else MissingApart(key, scanned, other) {
      forall r | r in scanned ensures CompareRow(key, r, found, common, scannedLive) == CompareRow(key, r, other, common, scannedLive) {
        RowRight(key, scanned, fetched, other, byKey, common, scannedLive, r);
      }
      CompareAlike(key, scanned, found, other, common, scannedLive);
    } else if scannedLive {
      var x, y :| x in scanned && y in scanned && KeyAt(key, y) in other && !Separates(key, x, y);
      var r := RowWrong(key, scanned, fetched, other, byKey, common, x, y);
      if CompareRows(key, scanned, found, common, true) == CompareRows(key, scanned, other, common, true) {
        ByRow(key, scanned, found, other, common, true, r);
      }
    } else {
      var x, y :| x in scanned && y in scanned && KeyAt(key, x) !in other && KeyAt(key, y) in other && KeyString(key, x) == KeyString(key, y);
      PresentIsFound(key, scanned, fetched, other, byKey, y);
      FoundIs(key, scanned, byKey, x);
      if CompareRows(key, scanned, found, common, false) == CompareRows(key, scanned, other, common, false) {
        ByRow(key, scanned, found, other, common, false, x);
      }
    }
  }

  /** For every key of two or more columns there is such a page: a row that the other side lacks is taken for
      one that it has. */
  lemma PageGoesWrong(key: seq<Column>, common: seq<Column>, scannedLive: bool)
    returns (scanned: seq<Row>, other: map<Key, Row>, byKey: map<string, Row>)
    requires |key| >= 2 && DistinctColumns(key) && forall c :: c in key ==> c in common
    ensures exists fetched :: Partners(key, scanned, fetched, other) && Indexed(key, fetched, byKey)
    ensures Keyed(key, other) && KeysApart(key, scanned)
    ensures CompareRows(key, scanned, FoundBy(PageKeys(key, scanned), byKey), common, scannedLive)
         != CompareRows(key, scanned, other, common, scannedLive)
  {
    var a, b := TwoColumnCollision(key);
    if KeyAt(key, a) == KeyAt(key, b) {
      SameKeySameText(key, a, b);
    }
    scanned, other, byKey := [a, b], map[KeyAt(key, b) := b], map[KeyString(key, b) := b];
    var fetched := [b];
    assert a in scanned && b in scanned;
    assert Partners(key, scanned, fetched, other) && Indexed(key, fetched, byKey);
    PageRightIff(key, scanned, fetched, other, byKey, common, scannedLive);
  }
}
