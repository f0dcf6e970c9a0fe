/** Rows, row keys and the two text forms used to match and fingerprint rows
    (backend/internal/platform/engine/rowreader.go). */
module Rows {
  import opened Wrappers

  type Column = string

  /** A nullable column value, always in text form. */
  datatype Cell = Null | Text(text: string)

  /** A row's values by column; reading a column the map lacks gives NULL, as a Go map does. */
  type Row = map<Column, Cell>

  type Key = seq<Cell>

  function At(r: Row, c: Column): Cell {
    if c in r then r[c] else Null
  }

  function KeyAt(key: seq<Column>, r: Row): (k: Key)
    ensures |k| == |key| && forall i :: 0 <= i < |key| ==> k[i] == At(r, key[i])
  {
    seq(|key|, i requires 0 <= i < |key| => At(r, key[i]))
  }

  predicate DistinctColumns(cols: seq<Column>) {
    forall i, j :: 0 <= i < j < |cols| ==> cols[i] != cols[j]
  }

  function Pick(r: Row, cols: set<Column>): Row {
    map c | c in r && c in cols :: r[c]
  }

  const NUL: char := '\0'
  const ABSENT_MARK: char := '\U{0001}'
  const VALUE_MARK: char := '\U{0002}'

  function CellText(c: Cell): string {
    match c
    case Null => [ABSENT_MARK, NUL]
    case Text(s) => [VALUE_MARK] + s + [NUL]
  }

  /** The text form of a row key that pairs rows of the two sides. */
  function KeyString(key: seq<Column>, r: Row): string {
    if key == [] then "" else CellText(At(r, key[0])) + KeyString(key[1..], r)
  }

  /** The text of a key's values. */
  function KeyText(k: Key): string {
    if k == [] then "" else CellText(k[0]) + KeyText(k[1..])
  }

  lemma {:induction false} KeyStringIs(key: seq<Column>, r: Row)
    ensures KeyString(key, r) == KeyText(KeyAt(key, r))
  {
    if key != [] {
      KeyStringIs(key[1..], r);
      assert KeyAt(key, r)[1..] == KeyAt(key[1..], r);
    }
  }

  predicate NulFree(k: Key) {
    forall i :: 0 <= i < |k| && k[i].Text? ==> NUL !in k[i].text
  }

  /** Two keys over the same columns collide exactly when they are equal. */
  predicate Separates(key: seq<Column>, a: Row, b: Row) {
    KeyString(key, a) == KeyString(key, b) <==> KeyAt(key, a) == KeyAt(key, b)
  }

  lemma {:induction false} SameKeySameText(key: seq<Column>, a: Row, b: Row)
    requires KeyAt(key, a) == KeyAt(key, b)
    ensures KeyString(key, a) == KeyString(key, b)
  {
    if key != [] {
      assert KeyAt(key, a)[0] == KeyAt(key, b)[0];
      forall i | 0 <= i < |key| - 1 ensures At(a, key[1..][i]) == At(b, key[1..][i]) {
        assert KeyAt(key, a)[i + 1] == KeyAt(key, b)[i + 1];
      }
      SameKeySameText(key[1..], a, b);
    }
  }

  /** The first NUL ends a NUL-free cell, so its text can be read back off the front. */
  lemma CellTextPrefixFree(x: Cell, u: string, y: Cell, v: string)
    requires x.Text? ==> NUL !in x.text
    requires y.Text? ==> NUL !in y.text
    requires CellText(x) + u == CellText(y) + v
    ensures x == y && u == v
  {
    var s, t := CellText(x) + u, CellText(y) + v;
    var m, n := |CellText(x)|, |CellText(y)|;
    assert s[0] == CellText(x)[0] && t[0] == CellText(y)[0];
    assert x.Null? == y.Null?;
    assert s[m - 1] == NUL && t[n - 1] == NUL;
    assert forall i :: 0 <= i < m - 1 ==> s[i] == CellText(x)[i] != NUL;
    assert forall i :: 0 <= i < n - 1 ==> t[i] == CellText(y)[i] != NUL;
    assert m == n;
    assert CellText(x) == s[..m] == t[..n] == CellText(y);
    assert u == s[m..] == t[n..] == v;
    if x.Text? {
      assert x.text == CellText(x)[1..m - 1] == CellText(y)[1..n - 1] == y.text;
    }
  }

  lemma {:induction false} NulFreeKeysSeparate(key: seq<Column>, a: Row, b: Row)
    requires NulFree(KeyAt(key, a)) && NulFree(KeyAt(key, b))
    ensures Separates(key, a, b)
  {
    if KeyAt(key, a) == KeyAt(key, b) {
      SameKeySameText(key, a, b);
    }
    if KeyString(key, a) == KeyString(key, b) && key != [] {
      var x, y := At(a, key[0]), At(b, key[0]);
      assert KeyAt(key, a)[0] == x && KeyAt(key, b)[0] == y;
      CellTextPrefixFree(x, KeyString(key[1..], a), y, KeyString(key[1..], b));
      forall r: Row, i | r in {a, b} && 0 <= i < |key| - 1 ensures KeyAt(key[1..], r)[i] == KeyAt(key, r)[i + 1] {
      }
      NulFreeKeysSeparate(key[1..], a, b);
      forall i | 0 <= i < |key| ensures KeyAt(key, a)[i] == KeyAt(key, b)[i] {
        if i > 0 {
          assert KeyAt(key[1..], a)[i - 1] == KeyAt(key[1..], b)[i - 1];
        }
      }
    }
  }

  lemma SingleColumnKeysSeparate(key: seq<Column>, a: Row, b: Row)
    requires |key| <= 1
    ensures Separates(key, a, b)
  {
    if KeyAt(key, a) == KeyAt(key, b) {
      SameKeySameText(key, a, b);
    }
    if |key| == 1 && KeyString(key, a) == KeyString(key, b) {
      var x, y := At(a, key[0]), At(b, key[0]);
      assert KeyString(key[1..], a) == "" && KeyString(key[1..], b) == "";
      assert CellText(x) == KeyString(key, a) == KeyString(key, b) == CellText(y);
      assert CellText(x)[0] == CellText(y)[0];
      if x.Text? {
        assert x.text == CellText(x)[1..|CellText(x)| - 1] == CellText(y)[1..|CellText(y)| - 1] == y.text;
      }
      assert KeyAt(key, a)[0] == KeyAt(key, b)[0];
    }
  }

  /** With two key columns, a NUL inside a value can stand for the end of a cell. */
  lemma TwoColumnCollision(key: seq<Column>) returns (a: Row, b: Row)
    requires |key| >= 2 && DistinctColumns(key)
    ensures !Separates(key, a, b)
  {
    var c0, c1 := key[0], key[1];
    a := map[c0 := Text([NUL, VALUE_MARK]), c1 := Text("")];
    b := map[c0 := Text(""), c1 := Text([NUL, VALUE_MARK])];
    var rest := key[2..];
    forall i | 0 <= i < |rest| ensures At(a, rest[i]) == Null == At(b, rest[i]) {
      assert rest[i] == key[i + 2] && key[0] != key[i + 2] && key[1] != key[i + 2];
    }
    SameKeySameText(rest, a, b);
    assert key[1..][1..] == rest && key[1..][0] == c1;
    var tail := KeyString(rest, a);
    assert KeyString(key, a) == CellText(a[c0]) + (CellText(a[c1]) + tail);
    assert KeyString(key, b) == CellText(b[c0]) + (CellText(b[c1]) + tail);
    assert CellText(a[c0]) + (CellText(a[c1]) + tail)
        == [VALUE_MARK, NUL, VALUE_MARK, NUL, VALUE_MARK, NUL] + tail
        == CellText(b[c0]) + (CellText(b[c1]) + tail);
    assert KeyAt(key, a)[0] != KeyAt(key, b)[0];
  }

  /** Without any assumption on the values, KeyString tells keys apart exactly for one-column keys. */
  lemma KeyStringInjectiveIff(key: seq<Column>)
    requires DistinctColumns(key)
    ensures (forall a: Row, b: Row :: Separates(key, a, b)) <==> |key| <= 1
  {
    if |key| <= 1 {
      forall a: Row, b: Row ensures Separates(key, a, b) { SingleColumnKeysSeparate(key, a, b); }
    } else {
      var a, b := TwoColumnCollision(key);
    }
  }

  /** RowHash digests, per compared column, whether the row has it and its value; the digest is
      taken as collision free, so a fingerprint is what it digests. */
  type Fingerprint = map<Column, Option<Cell>>

  function RowHash(r: Row, cols: seq<Column>): Fingerprint {
    map c | c in cols :: if c in r then Some(r[c]) else None
  }

  lemma SameHashSameCells(a: Row, b: Row, cols: seq<Column>)
    requires RowHash(a, cols) == RowHash(b, cols)
    ensures forall c :: c in cols ==> At(a, c) == At(b, c)
  {
    forall c | c in cols ensures At(a, c) == At(b, c) {
      assert RowHash(a, cols)[c] == RowHash(b, cols)[c];
    }
  }
}
