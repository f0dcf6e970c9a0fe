/** Joining a script's statements with "\n;\n" and splitting again gives the same statements. */
module SqlRoundTrip {
  import opened Wrappers
  import opened SqlText
  import opened SqlTokens
  import opened SqlKeyword
  import opened SqlSplit
  import SqlGrammar

  // ---- Tokens depend only on the text up to a statement's edge -----------------------------------

  /** What can follow a trimmed statement: nothing, white space or the delimiter. */
  predicate Edge(x: string) {
    x == "" || Space(x[0]) || x[0] == ';'
  }

  lemma {:induction false} IdentRunLocal(a: string, x: string, z: string, j: nat)
    requires j <= |a| && Edge(x) && Edge(z)
    ensures IdentRun(a + x, j) == IdentRun(a + z, j) <= |a|
    decreases |a| - j
  {
    if j < |a| {
      assert (a + x)[j] == a[j] == (a + z)[j];
      if IdentChar(a[j]) {
        IdentRunLocal(a, x, z, j + 1);
      }
    } else {
      assert x != "" ==> (a + x)[j] == x[0];
      assert z != "" ==> (a + z)[j] == z[0];
    }
  }

  lemma TagLocal(a: string, x: string, z: string)
    requires a != "" && Edge(x) && Edge(z)
    ensures TagLen(a + x) == TagLen(a + z) <= |a|
  {
    var u, v := a + x, a + z;
    assert forall k :: 0 <= k < |a| ==> u[k] == a[k] == v[k];
    assert x != "" ==> u[|a|] == x[0];
    assert z != "" ==> v[|a|] == z[0];
    if |a| >= 2 {
      IdentRunLocal(a, x, z, 2);
    }
  }

  lemma KindLocal(a: string, x: string, z: string)
    requires a != "" && Edge(x) && Edge(z)
    ensures KindOf(a + x) == KindOf(a + z)
  {
    TagLocal(a, x, z);
    var u, v := a + x, a + z;
    assert u[0] == v[0];
    assert |a| > 1 ==> u[1] == a[1] == v[1];
    assert |a| == 1 && x != "" ==> u[1] == x[0];
    assert |a| == 1 && z != "" ==> v[1] == z[0];
  }

  /** A literal's end seen from inside it: it is closed by its quote, or the text ends. */
  lemma {:induction false} QuoteEndChar(u: string, j: nat)
    requires u != "" && 1 <= j
    ensures QuoteEnd(u, j) == |u| || (0 < QuoteEnd(u, j) < |u| && u[QuoteEnd(u, j) - 1] == u[0])
    decreases |u| - j
  {
    if j < |u| {
      if u[j] == '\\' && u[0] == '\'' {
        QuoteEndChar(u, j + 2);
      } else if u[j] == u[0] {
        if j + 1 < |u| && u[j + 1] == u[0] {
          QuoteEndChar(u, j + 2);
        }
      } else {
        QuoteEndChar(u, j + 1);
      }
    }
  }

  /** Where a token that ends at e in a + x ends in a + z: a token that reaches past a into white
      space, or to the end of the text, ends with a. */
  predicate EndsAlike(a: string, x: string, z: string, e: nat, f: nat) {
    if e < |a| then f == e else f == |a|
  }

  /** The token ending at e in a + x takes only white space past a, and z is empty if it takes everything. */
  predicate Straddles(a: string, x: string, z: string, e: nat) {
    e <= |a + x| && (forall k :: |a| <= k < e ==> Space((a + x)[k])) && (e == |a + x| ==> z == "")
  }

  lemma {:induction false} QuoteLocal(a: string, x: string, z: string, j: nat)
    requires a != "" && QuoteMark(a[0]) && Edge(x) && Edge(z) && 1 <= j <= |a| + 1
    requires QuoteEnd(a + x, j) >= |a| ==> Straddles(a, x, z, QuoteEnd(a + x, j))
    ensures EndsAlike(a, x, z, QuoteEnd(a + x, j), QuoteEnd(a + z, j))
    decreases |a| + 1 - j
  {
    var u, v := a + x, a + z;
    assert forall k :: 0 <= k < |a| ==> u[k] == a[k] == v[k];
    if j < |a| {
      if j + 1 == |a| {
        assert x != "" ==> u[j + 1] == x[0];
        assert z != "" ==> v[j + 1] == z[0];
      }
      if u[j] == '\\' && u[0] == '\'' {
        QuoteLocal(a, x, z, j + 2);
      } else if u[j] == u[0] {
        if j + 1 < |a| && u[j + 1] == u[0] {
          QuoteLocal(a, x, z, j + 2);
        }
      } else {
        QuoteLocal(a, x, z, j + 1);
      }
    } else {
      QuoteEndChar(u, j);
    }
  }

  lemma OccursLocal(a: string, x: string, pat: string, k: nat)
    requires k + |pat| <= |a|
    ensures OccursAt(a + x, pat, k) <==> OccursAt(a, pat, k)
  {
    assert (a + x)[k..k + |pat|] == a[k..k + |pat|];
  }

  lemma DelimitedLocal(a: string, x: string, z: string, n: nat, close: string)
    requires n <= |a| && close != "" && !Space(close[|close| - 1]) && Edge(x) && Edge(z)
    requires DelimitedLen(a + x, n, close) >= |a| ==> Straddles(a, x, z, DelimitedLen(a + x, n, close))
    ensures EndsAlike(a, x, z, DelimitedLen(a + x, n, close), DelimitedLen(a + z, n, close))
  {
    var u, v := a + x, a + z;
    forall k: nat | k + |close| <= |a| ensures OccursAt(u, close, k) <==> OccursAt(v, close, k) {
      OccursLocal(a, x, close, k);
      OccursLocal(a, z, close, k);
    }
    var p, q := IndexOf(u, close, n), IndexOf(v, close, n);
    if p.Some? {
      assert u[p.value + |close| - 1] == u[p.value..p.value + |close|][|close| - 1];
      assert p.value + |close| <= |a|;
      assert OccursAt(v, close, p.value);
      assert q.Some? && q.value <= p.value && OccursAt(u, close, q.value);
    } else {
      assert z == "" && v == a;
    }
  }

  lemma LineCommentLocal(a: string, x: string, z: string)
    requires a != "" && OpensLineComment(a + x) && (z == "" || z[0] == '\n')
    requires !Space(a[|a| - 1]) && Edge(x)
    ensures EndsAlike(a, x, z, LineCommentLen(a + x), LineCommentLen(a + z))
  {
    var u, v := a + x, a + z;
    forall k: nat ensures (OccursAt(u, "\n", k) <==> k < |u| && u[k] == '\n') && (OccursAt(v, "\n", k) <==> k < |v| && v[k] == '\n') {
      NewlineAt(u, k);
      NewlineAt(v, k);
    }
    assert forall k :: 0 <= k < |a| ==> u[k] == a[k] == v[k];
    assert z != "" ==> v[|a|] == '\n';
  }

  lemma DollarLocal(a: string, x: string, z: string)
    requires a != "" && !Space(a[|a| - 1]) && Edge(x) && (z == "" || z[0] == '\n')
    requires KindOf(a + x).DollarQuoted? && KindOf(a + z).DollarQuoted?
    requires Tok(a + x) >= |a| ==> Straddles(a, x, z, Tok(a + x))
    ensures EndsAlike(a, x, z, Tok(a + x), Tok(a + z))
  {
    var u, v := a + x, a + z;
    TagLocal(a, x, z);
    TagEndsInDollar(u);
    var n := TagLen(u);
    assert u[..n] == a[..n] == v[..n];
    DelimitedLocal(a, x, z, n, a[..n]);
  }

  lemma TokLocal(a: string, x: string, z: string)
    requires a != "" && !Space(a[|a| - 1]) && Edge(x) && (z == "" || z[0] == '\n')
    requires Tok(a + x) >= |a| ==> Straddles(a, x, z, Tok(a + x))
    ensures EndsAlike(a, x, z, Tok(a + x), Tok(a + z))
  {
    var u, v := a + x, a + z;
    KindLocal(a, x, z);
    assert u[0] == a[0] == v[0];
    match KindOf(u)
    case Quoted => QuoteLocal(a, x, z, 1);
    case LineComment => LineCommentLocal(a, x, z);
    case BlockComment =>
      BlockOpensWithin(a, x);
      DelimitedLocal(a, x, z, 2, BLOCK_CLOSE);
    case DollarQuoted => DollarLocal(a, x, z);
    case Plain =>
  }

  lemma BlockOpensWithin(a: string, x: string)
    requires a != "" && Edge(x) && OpensBlockComment(a + x)
    ensures |a| >= 2
  {
    assert x != "" ==> (a + x)[|a|] == x[0];
  }

  lemma TagEndsInDollar(u: string)
    requires TagLen(u) > 0
    ensures u[TagLen(u) - 1] == '$'
  {
  }

  // ---- Raw statements --------------------------------------------------------------------------------

  /** The length of the raw statement u begins with: up to the first ";" that is no part of a token. */
  function Scan(u: string): (n: nat)
    ensures n <= |u| && (n < |u| ==> u[n] == ';')
    decreases |u|
  {
    if u == "" || u[0] == ';' then 0 else Tok(u) + Scan(u[Tok(u)..])
  }

  lemma ScanStep(u: string, n: nat)
    requires u != "" && u[0] != ';' && n == Tok(u)
    ensures Scan(u) == n + Scan(u[n..])
  {
  }

  lemma ScanFirst(u: string, n: nat)
    requires u != "" && n == Tok(u) && Scan(u) > 0
    ensures n <= Scan(u) && u[0] != ';'
  {
  }

  lemma ScanWithin(a: string, x: string, n: nat)
    requires a != "" && a[0] != ';' && n == Tok(a + x) && n <= |a|
    ensures Scan(a + x) == n + Scan(a[n..] + x)
  {
    assert (a + x)[n..] == a[n..] + x && (a + x)[0] == a[0];
    ScanStep(a + x, n);
  }

  /** The first token of a trimmed raw statement a, before x and before z. */
  lemma ScanLocalStep(a: string, x: string, z: string, m: nat) returns (n: nat)
    requires a != "" && !Space(a[|a| - 1]) && Edge(x) && (z == "" || z[0] == '\n')
    requires Scan(a + x) == |a| + m && (forall k :: 0 <= k < m ==> Space(x[k])) && (m == |x| ==> z == "")
    ensures 0 < n <= |a|
    ensures n < |a| ==> Scan(a + x) == n + Scan(a[n..] + x)
    ensures Scan(a + z) == n + Scan(a[n..] + z)
  {
    var t := Tok(a + x);
    ScanFirst(a + x, t);
    assert (a + x)[0] == a[0];
    StraddlesSpaces(a, x, z, t, m);
    TokLocal(a, x, z);
    n := Tok(a + z);
    if t < |a| {
      ScanWithin(a, x, t);
    }
    ScanWithin(a, z, n);
  }

  lemma StraddlesSpaces(a: string, x: string, z: string, e: nat, m: nat)
    requires e <= |a| + m && m <= |x| && (forall k :: 0 <= k < m ==> Space(x[k])) && (m == |x| ==> z == "")
    ensures Straddles(a, x, z, e)
  {
    assert forall k :: |a| <= k < |a| + m ==> (a + x)[k] == x[k - |a|];
  }

  /** A trimmed raw statement a is scanned as far wherever it stands: before z as it was before x. */
  lemma {:induction false} ScanLocal(a: string, x: string, z: string, m: nat)
    requires (a != "" ==> !Space(a[|a| - 1])) && Edge(x) && (z == "" || z[0] == '\n')
    requires Scan(a + x) == |a| + m && (forall k :: 0 <= k < m ==> Space(x[k])) && (m == |x| ==> z == "")
    ensures Scan(a + z) == |a| + Scan(z)
    decreases |a|
  {
    if a == "" {
      assert a + z == z;
    } else {
      var n := ScanLocalStep(a, x, z, m);
      if n < |a| {
        ScanLocal(a[n..], x, z, m);
      } else {
        assert a[n..] + z == z;
      }
    }
  }

  lemma SpaceStep(u: string)
    requires u != "" && Space(u[0])
    ensures Scan(u) == 1 + Scan(u[1..])
  {
    assert Tok(u) == 1;
  }

  lemma {:induction false} ScanOverSpaces(w: string, u: string)
    requires AllSpace(w)
    ensures Scan(w + u) == |w| + Scan(u)
  {
    if w == "" {
      assert w + u == u;
    } else {
      assert (w + u)[0] == w[0] && (w + u)[1..] == w[1..] + u;
      SpaceStep(w + u);
      ScanOverSpaces(w[1..], u);
    }
  }

  // ---- Statements without directives ---------------------------------------------------------------

  predicate NoDirective(ts: seq<Token>) {
    forall i :: 0 <= i < |ts| ==> !ts[i].Directs?
  }

  /** The raw statements of u. */
  function Raws(u: string): seq<string>
    decreases |u|
  {
    [u[..Scan(u)]] + if Scan(u) == |u| then [] else Raws(u[Scan(u) + 1..])
  }

  /** The raw statements when cur, already begun, goes on with u. */
  function RawsFrom(cur: string, u: string): seq<string> {
    [cur + u[..Scan(u)]] + if Scan(u) == |u| then [] else Raws(u[Scan(u) + 1..])
  }

  function KeptAll(raws: seq<string>): seq<string> {
    if raws == [] then [] else Kept(raws[0]) + KeptAll(raws[1..])
  }

  lemma KeptAllCons(raw: string, raws: seq<string>)
    ensures KeptAll([raw] + raws) == Kept(raw) + KeptAll(raws)
  {
    assert ([raw] + raws)[1..] == raws;
  }

  function RawTexts(cs: seq<Chunk>): seq<string> {
    if cs == [] then [] else (if cs[0].Raw? then [cs[0].text] else []) + RawTexts(cs[1..])
  }

  lemma {:induction false} StatementsAreKept(cs: seq<Chunk>)
    ensures Statements(cs) == KeptAll(RawTexts(cs))
  {
    if cs != [] {
      StatementsAreKept(cs[1..]);
      if cs[0].Raw? {
        KeptAllCons(cs[0].text, RawTexts(cs[1..]));
      } else {
        assert RawTexts(cs) == RawTexts(cs[1..]);
      }
    }
  }

  lemma LexSteps(u: string, bol: bool, blank: bool) returns (t: Token, rest: string, ts: seq<Token>)
    requires u != ""
    ensures u == t.text + rest && |rest| < |u| && t == First(u, bol, blank, ";")
    ensures ts == Lex(rest, StartsLineAfter(t), BlankAfter(t, blank), DelimiterAfter(t, ";"))
    ensures Lex(u, bol, blank, ";") == [t] + ts
  {
    t := First(u, bol, blank, ";");
    rest := u[|t.text|..];
    ts := Lex(rest, StartsLineAfter(t), BlankAfter(t, blank), DelimiterAfter(t, ";"));
  }

  lemma SemicolonStep(u: string, bol: bool, blank: bool)
    requires u != "" && !First(u, bol, blank, ";").Directs?
    ensures u[0] == ';' ==> First(u, bol, blank, ";") == Delimits(";") && Scan(u) == 0
    ensures u[0] != ';' ==> First(u, bol, blank, ";") == Piece(KindOf(u), u[..Tok(u)]) && Scan(u) == Tok(u) + Scan(u[Tok(u)..])
  {
    assert ";" <= u <==> u[0] == ';';
  }

  lemma Slices(cur: string, u: string, n: nat, k: nat, total: nat)
    requires total == n + k <= |u|
    ensures n <= |u| && cur + u[..total] == (cur + u[..n]) + u[n..][..k]
    ensures total == |u| <==> k == |u[n..]|
    ensures total < |u| ==> u[total + 1..] == u[n..][k + 1..]
  {
  }

  lemma RawsAre(cur: string, u: string, n: nat, head: string, tail: string)
    requires n == Scan(u) && head == cur + u[..n] && (n < |u| ==> tail == u[n + 1..])
    ensures RawsFrom(cur, u) == [head] + if n == |u| then [] else Raws(tail)
  {
  }

  lemma RawsFromPiece(cur: string, u: string, n: nat, piece: string, rest: string)
    requires u != "" && n <= |u| && piece == u[..n] && rest == u[n..] && Scan(u) == n + Scan(rest)
    ensures RawsFrom(cur, u) == RawsFrom(cur + piece, rest)
  {
    var k, total := Scan(rest), Scan(u);
    Slices(cur, u, n, k, total);
    var tail := if total < |u| then u[total + 1..] else "";
    RawsAre(cur, u, total, cur + u[..total], tail);
    RawsAre(cur + piece, rest, k, cur + u[..total], tail);
  }

  lemma RawsFromNothing(u: string)
    ensures RawsFrom("", u) == Raws(u)
  {
    assert "" + u[..Scan(u)] == u[..Scan(u)];
  }

  lemma RawsAtSemicolon(cur: string, u: string, rest: string)
    requires u != "" && u[0] == ';' && rest == u[1..]
    ensures RawsFrom(cur, u) == [cur] + RawsFrom("", rest)
  {
    assert cur + u[..0] == cur;
    RawsAre(cur, u, 0, cur, rest);
    RawsFromNothing(rest);
  }

  lemma RawTextsStep(t: Token, ts: seq<Token>, cur: string)
    requires !t.Directs?
    ensures RawTexts(Chunks([t] + ts, cur))
         == if t.Piece? then RawTexts(Chunks(ts, cur + t.text)) else [cur] + RawTexts(Chunks(ts, ""))
  {
    var all := [t] + ts;
    assert all[0] == t && all[1..] == ts;
    if !t.Piece? {
      var more := Chunks(ts, "");
      var cs := [Raw(cur), Separator(t.text)] + more;
      assert cs[1..] == [Separator(t.text)] + more && cs[1..][1..] == more;
      assert RawTexts(cs[1..]) == RawTexts(more);
    }
  }

  lemma RawTextsEnd(cur: string)
    ensures RawTexts(Chunks([], cur)) == RawsFrom(cur, "")
  {
    assert Chunks([], cur) == [Raw(cur)] && [Raw(cur)][1..] == [];
    assert RawTexts([Raw(cur)]) == [cur];
    assert cur + "" == cur;
  }

  lemma NoDirectiveTail(t: Token, ts: seq<Token>)
    requires NoDirective([t] + ts)
    ensures !t.Directs? && NoDirective(ts)
  {
    var all := [t] + ts;
    assert all[0] == t && forall i :: 0 <= i < |ts| ==> ts[i] == all[i + 1];
  }

  /** Without directives the tokens give the raw statements of the scan. */
  lemma {:induction false} ChunksAreRaws(u: string, bol: bool, blank: bool, cur: string)
    requires NoDirective(Lex(u, bol, blank, ";"))
    ensures RawTexts(Chunks(Lex(u, bol, blank, ";"), cur)) == RawsFrom(cur, u)
    decreases |u|
  {
    if u == "" {
      RawTextsEnd(cur);
    } else {
      var t, rest, ts := LexSteps(u, bol, blank);
      NoDirectiveTail(t, ts);
      RawTextsStep(t, ts, cur);
      SemicolonStep(u, bol, blank);
      if u[0] == ';' {
        ChunksAreRaws(rest, false, true, "");
        RawsAtSemicolon(cur, u, rest);
      } else {
        ChunksAreRaws(rest, StartsLineAfter(t), BlankAfter(t, blank), cur + t.text);
        RawsFromPiece(cur, u, |t.text|, t.text, rest);
      }
    }
  }

  lemma SplitIsKept(script: string)
    requires NoDirective(TokensOf(script))
    ensures Split(script) == KeptAll(Raws(script))
  {
    ChunksAreRaws(script, true, true, "");
    RawsFromNothing(script);
    StatementsAreKept(Chunks(TokensOf(script), ""));
  }

  // ---- Joined statements -----------------------------------------------------------------------------

  function Join(out: seq<string>): string {
    if out == [] then "" else if |out| == 1 then out[0] else out[0] + ("\n;" + ("\n" + Join(out[1..])))
  }

  /** A kept statement that is scanned whole at the end of a text. */
  predicate Whole(o: string) {
    Kept(o) == [o] && Scan(o) == |o|
  }

  /** ... and before a line feed and a delimiter. */
  ghost predicate Closable(o: string) {
    forall y :: Scan(o + ("\n;" + y)) == |o| + 1
  }

  ghost predicate Rejoinable(out: seq<string>) {
    out == [] || (Whole(out[0]) && (|out| > 1 ==> Closable(out[0])) && Rejoinable(out[1..]))
  }

  lemma KeptIsTight(raw: string) returns (before: string, after: string)
    requires Kept(raw) != []
    ensures raw == before + Trim(raw) + after && AllSpace(before) && AllSpace(after)
    ensures Tight(Trim(raw)) && Trim(raw) != "" && Kept(raw) == [Trim(raw)] == Kept(Trim(raw))
  {
    before, after := TrimParts(raw);
    var t := Trim(raw);
    TrimOver("", t, "");
    assert "" + t + "" == t;
  }

  lemma SemicolonNext(y: string)
    ensures Scan("\n;" + y) == 1
  {
    var u := "\n;" + y;
    SpaceStep(u);
    assert u[1..][0] == ';';
  }

  /** A kept raw statement within its text: white space, the statement o, and m more spaces before the rest. */
  lemma KeptParts(u: string, n: nat) returns (before: string, o: string, x: string, m: nat)
    requires n <= |u| && Kept(u[..n]) != [] && (n < |u| ==> u[n] == ';')
    ensures o == Trim(u[..n]) && o != "" && !Space(o[|o| - 1]) && Kept(o) == [o] == Kept(u[..n])
    ensures u == before + (o + x) && AllSpace(before) && n == |before| + |o| + m
    ensures m <= |x| && (forall k :: 0 <= k < m ==> Space(x[k])) && Edge(x)
  {
    var after;
    before, after := KeptIsTight(u[..n]);
    o := Trim(u[..n]);
    x, m := after + u[n..], |after|;
    assert u == u[..n] + u[n..];
    assert u == before + (o + x);
    assert forall k :: 0 <= k < m ==> x[k] == after[k];
    assert m == 0 && x != "" ==> x[0] == u[n];
  }

  lemma RescanBefore(o: string, x: string, m: nat, y: string)
    requires o != "" && !Space(o[|o| - 1]) && Edge(x) && m < |x|
    requires Scan(o + x) == |o| + m && (forall k :: 0 <= k < m ==> Space(x[k]))
    ensures Scan(o + ("\n;" + y)) == |o| + 1
  {
    ScanLocal(o, x, "\n;" + y, m);
    SemicolonNext(y);
  }

  lemma RescanAtEnd(o: string, x: string, m: nat)
    requires o != "" && !Space(o[|o| - 1]) && Edge(x) && m <= |x|
    requires Scan(o + x) == |o| + m && (forall k :: 0 <= k < m ==> Space(x[k]))
    ensures Scan(o) == |o|
  {
    ScanLocal(o, x, "", m);
    assert o + "" == o;
  }

  /** A raw statement that is kept can be scanned again, as the last one or, if it was closed by a
      delimiter, before another. */
  lemma KeptRescans(u: string, n: nat) returns (o: string)
    requires n == Scan(u) && Kept(u[..n]) != []
    ensures Kept(u[..n]) == [o] && Whole(o) && (n < |u| ==> Closable(o))
  {
    var before, x, m;
    before, o, x, m := KeptParts(u, n);
    ScanOverSpaces(before, o + x);
    RescanAtEnd(o, x, m);
    if n < |u| {
      forall y ensures Scan(o + ("\n;" + y)) == |o| + 1 {
        RescanBefore(o, x, m, y);
      }
    }
  }

  lemma RejoinRaw(u: string, n: nat, kept: seq<string>, out: seq<string>)
    requires n == Scan(u) && kept == Kept(u[..n]) && Rejoinable(out) && (n == |u| ==> out == [])
    ensures Rejoinable(kept + out)
  {
    if kept == [] {
      assert kept + out == out;
    } else {
      var o := KeptRescans(u, n);
      if n < |u| {
        RejoinMore(o, out);
      } else {
        assert [o][1..] == [];
      }
    }
  }

  lemma RawsUnfold(u: string) returns (n: nat, head: string, tail: string, raws: seq<string>)
    ensures n == Scan(u) && head == u[..n] && Raws(u) == [head] + raws
    ensures n == |u| ==> raws == []
    ensures n < |u| ==> |tail| < |u| && raws == Raws(tail)
  {
    n := Scan(u);
    head, tail, raws := u[..n], "", [];
    if n < |u| {
      tail := u[n + 1..];
      raws := Raws(tail);
      RawsStep(u, n, head, tail);
    }
  }

  lemma {:induction false} KeptRejoins(u: string)
    ensures Rejoinable(KeptAll(Raws(u)))
    decreases |u|
  {
    var n, head, tail, raws := RawsUnfold(u);
    KeptAllCons(head, raws);
    if n < |u| {
      KeptRejoins(tail);
    } else {
      assert KeptAll([]) == [];
    }
    RejoinRaw(u, n, Kept(head), KeptAll(raws));
  }

  lemma RejoinMore(o: string, rest: seq<string>)
    requires Whole(o) && Closable(o) && Rejoinable(rest)
    ensures Rejoinable([o] + rest)
  {
    assert ([o] + rest)[1..] == rest;
  }

  lemma KeptInSpaces(before: string, o: string, after: string)
    requires AllSpace(before) && AllSpace(after) && Kept(o) == [o]
    ensures Kept(before + o + after) == [o]
  {
    var b, a := KeptIsTight(o);
    TrimOver(before, o, after);
  }

  lemma JoinedLast(before: string, o: string)
    requires AllSpace(before) && Whole(o)
    ensures KeptAll(Raws(before + o)) == [o]
  {
    var u := before + o;
    ScanOverSpaces(before, o);
    assert u[..|u|] == u == before + o + "";
    KeptInSpaces(before, o, "");
    KeptAllCons(u, []);
  }

  lemma JoinedSlices(before: string, o: string, y: string, u: string, n: nat)
    requires u == before + (o + ("\n;" + y)) && n == |before| + |o| + 1
    ensures n < |u| && u[..n] == before + o + "\n" && u[n + 1..] == y
  {
  }

  lemma RawsStep(u: string, n: nat, head: string, tail: string)
    requires n == Scan(u) && n < |u| && head == u[..n] && tail == u[n + 1..]
    ensures Raws(u) == [head] + Raws(tail)
  {
    assert u[..Scan(u)] == head && u[Scan(u) + 1..] == tail;
  }

  lemma JoinedBefore(before: string, o: string, y: string)
    requires AllSpace(before) && Kept(o) == [o] && Closable(o)
    ensures KeptAll(Raws(before + (o + ("\n;" + y)))) == [o] + KeptAll(Raws(y))
  {
    var u, n := before + (o + ("\n;" + y)), |before| + |o| + 1;
    ScanOverSpaces(before, o + ("\n;" + y));
    JoinedSlices(before, o, y, u, n);
    KeptInSpaces(before, o, "\n");
    RawsStep(u, n, before + o + "\n", y);
    KeptAllCons(before + o + "\n", Raws(y));
  }

  /** The joined text's raw statements are the statements again. */
  lemma {:induction false} JoinedKept(out: seq<string>, before: string)
    requires Rejoinable(out) && AllSpace(before)
    ensures KeptAll(Raws(before + Join(out))) == out
    decreases |out|
  {
    if out == [] {
      JoinedNothing(before);
      assert before + "" == before;
    } else if |out| == 1 {
      assert Whole(out[0]);
      JoinedLast(before, out[0]);
    } else {
      assert Whole(out[0]) && Closable(out[0]);
      JoinedBefore(before, out[0], "\n" + Join(out[1..]));
      JoinedKept(out[1..], "\n");
    }
  }

  lemma JoinedNothing(before: string)
    requires AllSpace(before)
    ensures KeptAll(Raws(before)) == []
  {
    ScanOverSpaces(before, "");
    assert before + "" == before && before[..|before|] == before;
    BlankIffAllSpace(before);
    KeptAllCons(before, []);
  }

  // ---- The round trip ----------------------------------------------------------------------------------

  /** No statement would itself be read as a DELIMITER line. */
  predicate NoneDirects(out: seq<string>) {
    forall i :: 0 <= i < |out| ==> DirectiveAt(out[i]).None?
  }

  lemma {:induction false} BlankRunLocal(o: string, z: string, j: nat)
    requires j <= |o| && (z == "" || z[0] == '\n')
    ensures TabOrSpaceRun(o + z, j) == TabOrSpaceRun(o, j)
    decreases |o| - j
  {
    if j < |o| {
      assert (o + z)[j] == o[j];
      if TabOrSpace(o[j]) {
        BlankRunLocal(o, z, j + 1);
      }
    } else if z != "" {
      assert (o + z)[j] == z[0];
    }
  }

  lemma {:induction false} NonSpaceRunLocal(o: string, z: string, j: nat)
    requires j <= |o| && (z == "" || z[0] == '\n')
    ensures NonSpaceRun(o + z, j) == NonSpaceRun(o, j)
    decreases |o| - j
  {
    if j < |o| {
      assert (o + z)[j] == o[j];
      if !Space(o[j]) {
        NonSpaceRunLocal(o, z, j + 1);
      }
    } else if z != "" {
      assert (o + z)[j] == z[0];
    }
  }

  lemma WordHasNoNewline(k: nat)
    requires k < |DIRECTIVE_WORD|
    ensures DIRECTIVE_WORD[k] != Upper('\n')
  {
  }

  lemma WordLocal(o: string, z: string)
    requires z == "" || z[0] == '\n'
    ensures WordAt(o + z, 0) <==> WordAt(o, 0)
  {
    assert forall k :: 0 <= k < |o| ==> (o + z)[k] == o[k];
    if |o| < |DIRECTIVE_WORD| && z != "" {
      WordHasNoNewline(|o|);
      assert (o + z)[0 + |o|] == '\n';
    }
  }

  lemma LineEndLocal(o: string, z: string, e: nat)
    requires o != "" && !Space(o[|o| - 1]) && e < |o|
    ensures LineEndLen(o + z, e) == LineEndLen(o, e)
  {
    assert (o + z)[e] == o[e];
    if e + 1 < |o| {
      assert (o + z)[e + 1] == o[e + 1];
    }
  }

  /** What follows a statement does not make it a directive. */
  lemma DirectiveLocal(o: string, z: string)
    requires o != "" && Tight(o) && (z == "" || z[0] == '\n') && DirectiveAt(o).None?
    ensures DirectiveAt(o + z).None?
  {
    BlankRunLocal(o, z, 0);
    WordLocal(o, z);
    if WordAt(o, 0) {
      var w := |DIRECTIVE_WORD|;
      BlankRunLocal(o, z, w);
      var c := TabOrSpaceRun(o, w);
      NonSpaceRunLocal(o, z, c);
      var d := NonSpaceRun(o, c);
      BlankRunLocal(o, z, d);
      var e := TabOrSpaceRun(o, d);
      if e < |o| {
        LineEndLocal(o, z, e);
      }
    }
  }

  predicate Quiet(u: string, bol: bool, blank: bool) {
    NoDirective(Lex(u, bol, blank, ";"))
  }

  lemma QuietCons(u: string, bol: bool, blank: bool, t: Token, rest: string)
    requires u != "" && t == First(u, bol, blank, ";") && !t.Directs? && rest == u[|t.text|..]
    requires Quiet(rest, StartsLineAfter(t), BlankAfter(t, blank))
    ensures Quiet(u, bol, blank)
  {
    var ts := Lex(rest, StartsLineAfter(t), BlankAfter(t, blank), ";");
    assert Lex(u, bol, blank, ";") == [t] + ts;
  }

  lemma TailWithin(u: string, k: nat, n: nat)
    requires k <= n <= |u|
    ensures n < |u| ==> u[n + 1..] == u[k..][n - k + 1..]
  {
  }

  /** Within a statement no directive fires before its end. */
  lemma {:induction false} QuietInside(u: string, bol: bool, n: nat, tail: string)
    requires n == Scan(u) && (n < |u| ==> tail == u[n + 1..] && Quiet(tail, false, true))
    ensures Quiet(u, bol, false)
    decreases |u|
  {
    if u != "" {
      var t := First(u, bol, false, ";");
      var rest := u[|t.text|..];
      SemicolonStep(u, bol, false);
      if u[0] != ';' {
        var k := |t.text|;
        TailWithin(u, k, n);
        QuietInside(rest, StartsLineAfter(t), n - k, tail);
      }
      QuietCons(u, bol, false, t, rest);
    }
  }

  lemma QuietStatement(u: string, bol: bool, n: nat, tail: string)
    requires u != "" && !Space(u[0]) && u[0] != ';' && (bol ==> DirectiveAt(u).None?)
    requires n == Scan(u) && (n < |u| ==> tail == u[n + 1..] && Quiet(tail, false, true))
    ensures Quiet(u, bol, true)
  {
    var t := First(u, bol, true, ";");
    var rest := u[|t.text|..];
    SemicolonStep(u, bol, true);
    var k := |t.text|;
    assert t.text[0] == u[0];
    TailWithin(u, k, n);
    QuietInside(rest, StartsLineAfter(t), n - k, tail);
    QuietCons(u, bol, true, t, rest);
  }

  lemma NewlineFirst(u: string, y: string)
    requires u == "\n" + y
    ensures Tok(u) == 1 && u[..1] == "\n" && u[1..] == y && First(u, false, true, ";") == Piece(KindOf(u), "\n")
  {
    SemicolonStep(u, false, true);
  }

  lemma QuietAfterNewline(y: string)
    requires Quiet(y, true, true)
    ensures Quiet("\n" + y, false, true)
  {
    var u := "\n" + y;
    NewlineFirst(u, y);
    QuietCons(u, false, true, Piece(KindOf(u), "\n"), y);
  }

  lemma WholeStarts(o: string)
    requires Whole(o)
    ensures o != "" && Tight(o) && o[0] != ';'
  {
    var before, after := KeptIsTight(o);
  }

  lemma QuietJoined(o: string, y: string)
    requires Whole(o) && Closable(o) && DirectiveAt(o).None? && Quiet(y, false, true)
    ensures Quiet(o + ("\n;" + y), true, true)
  {
    WholeStarts(o);
    var u := o + ("\n;" + y);
    DirectiveLocal(o, "\n;" + y);
    JoinedSlices("", o, y, u, |o| + 1);
    assert u[0] == o[0];
    QuietStatement(u, true, |o| + 1, y);
  }

  lemma {:induction false} JoinQuiet(out: seq<string>)
    requires Rejoinable(out) && NoneDirects(out)
    ensures Quiet(Join(out), true, true)
    decreases |out|
  {
    if |out| == 1 {
      WholeStarts(out[0]);
      QuietStatement(out[0], true, |out[0]|, "");
    } else if out != [] {
      assert NoneDirects(out[1..]) by {
        assert forall i :: 0 <= i < |out| - 1 ==> out[1..][i] == out[i + 1];
      }
      JoinQuiet(out[1..]);
      QuietAfterNewline(Join(out[1..]));
      QuietJoined(out[0], "\n" + Join(out[1..]));
    }
  }

  // ---- A statement that reads as a directive is lost -------------------------------------------------

  lemma SemicolonFirst(o: string)
    requires Quiet(o, false, true)
    ensures Quiet(";" + o, true, true) && Raws(";" + o) == [""] + Raws(o)
  {
    var u := ";" + o;
    assert u[0] == ';' && u[..0] == "" && u[1..] == o;
    assert TabOrSpaceRun(u, 0) == 0;
    assert Upper(u[0 + 0]) != DIRECTIVE_WORD[0];
    SemicolonStep(u, true, true);
    QuietCons(u, true, true, Delimits(";"), o);
    RawsStep(u, 0, "", o);
  }

  lemma KeptNothing()
    ensures Kept("") == []
  {
    BlankIffAllSpace("");
  }

  lemma DirectiveOnly(o: string, d: Directive)
    requires DirectiveAt(o) == Some(d) && d.len == |o|
    ensures Split(o) == []
  {
    assert o[|o|..] == "" && o[..|o|] == o;
    var t := Directs(o, d.delim);
    assert First(o, true, true, ";") == t;
    assert TokensOf(o) == [t] + Lex("", true, true, d.delim) == [t];
    KeptNothing();
    OnwardStep([t], "");
    OnwardEnd("");
    assert [t][1..] == [];
  }

  /** A statement that is a whole DELIMITER line survives the first split, after a delimiter on the
      same line, but is taken for a directive when joined, and lost. */
  lemma DirectiveStatementLost(o: string, d: Directive)
    requires Whole(o) && DirectiveAt(o) == Some(d) && d.len == |o|
    ensures NoDirective(TokensOf(";" + o)) && Split(";" + o) == [o] && Split(Join([o])) == []
  {
    WholeStarts(o);
    QuietStatement(o, false, |o|, "");
    SemicolonFirst(o);
    SplitIsKept(";" + o);
    KeptNothing();
    KeptAllCons("", Raws(o));
    JoinedLast("", o);
    assert "" + o == o;
    DirectiveOnly(o, d);
  }

  predicate PlainChar(c: char) {
    !QuoteMark(c) && c != '-' && c != '#' && c != '/' && c != '$' && c != ';'
  }

  lemma {:induction false} PlainScan(u: string)
    requires forall i :: 0 <= i < |u| ==> PlainChar(u[i])
    ensures Scan(u) == |u|
  {
    if u != "" {
      assert PlainChar(u[0]);
      PlainScan(u[1..]);
    }
  }

  predicate DirectiveExample(o: string) {
    |o| == 11 && (forall k :: 0 <= k < 9 ==> o[k] == DIRECTIVE_WORD[k]) && o[9] == ' ' && o[10] == 'a'
  }

  lemma ExampleDirects(o: string)
    requires DirectiveExample(o)
    ensures DirectiveAt(o) == Some(Directive(11, "a"))
  {
    assert forall k :: 0 <= k < 9 ==> Upper(DIRECTIVE_WORD[k]) == DIRECTIVE_WORD[k];
    assert WordAt(o, 0);
    SqlGrammar.RunsAreStops(o, 0, 10, 11, 11);
    assert o[10..11] == "a";
  }

  lemma ExampleWhole(o: string)
    requires DirectiveExample(o)
    ensures Whole(o)
  {
    assert o[0] == DIRECTIVE_WORD[0];
    assert forall k :: 0 <= k < 9 ==> PlainChar(DIRECTIVE_WORD[k]);
    PlainScan(o);
    TrimOver("", o, "");
    assert "" + o + "" == o;
    WordFirst(o);
  }

  /** There is such a statement. */
  lemma DirectiveStatement() returns (o: string, d: Directive)
    ensures Whole(o) && DirectiveAt(o) == Some(d) && d.len == |o|
  {
    o, d := DIRECTIVE_WORD + [' ', 'a'], Directive(11, "a");
    ExampleWhole(o);
    ExampleDirects(o);
  }
}
