/** The scanner's tokens are exactly those of the script grammar, and they cover the script. */
module SqlGrammar {
  import opened Wrappers
  import opened SqlText
  import opened SqlTokens
  import opened SqlKeyword
  import opened SqlSplit

  // ---- Directives ------------------------------------------------------------------------------

  predicate TabsOrSpaces(t: string, from: nat, to: nat) {
    to <= |t| && forall k :: from <= k < to ==> TabOrSpace(t[k])
  }

  /** t is blanks, the word DELIMITER, blanks, the delimiter (from c to d), blanks and a line end. */
  predicate DirectiveParts(t: string, rest: string, b: nat, c: nat, d: nat, e: nat) {
    && b + |DIRECTIVE_WORD| < c < d <= e <= |t|
    && TabsOrSpaces(t, 0, b) && WordAt(t, b) && TabsOrSpaces(t, b + |DIRECTIVE_WORD|, c)
    && (forall k :: c <= k < d ==> !Space(t[k])) && TabsOrSpaces(t, d, e)
    && (t[e..] == "\n" || t[e..] == "\r\n" || (t[e..] == "" && rest == ""))
  }

  predicate IsDirective(t: string, delim: string, rest: string) {
    exists b: nat, c: nat, d: nat, e: nat ::
      b <= |t| && c <= |t| && d <= |t| && e <= |t| && DirectiveParts(t, rest, b, c, d, e) && delim == t[c..d]
  }

  /** The places the scanner stops at in a directive line. */
  function Stops(u: string): (nat, nat, nat, nat) {
    var b := TabOrSpaceRun(u, 0);
    if !WordAt(u, b) then (0, 0, 0, 0)
    else
      var c := TabOrSpaceRun(u, b + |DIRECTIVE_WORD|);
      var d := NonSpaceRun(u, c);
      (b, c, d, TabOrSpaceRun(u, d))
  }

  lemma WordInPrefix(u: string, n: nat, b: nat)
    requires b + |DIRECTIVE_WORD| <= n <= |u|
    ensures WordAt(u[..n], b) <==> WordAt(u, b)
  {
    assert forall j :: 0 <= j < n ==> u[..n][j] == u[j];
  }

  lemma WordNotBlank(u: string, b: nat)
    requires WordAt(u, b)
    ensures !TabOrSpace(u[b])
  {
    assert Upper(u[b + 0]) == DIRECTIVE_WORD[0] == 'D';
  }

  lemma RunEnds(u: string, j: nat, e: nat)
    requires j <= e <= |u| && (forall k :: j <= k < e ==> TabOrSpace(u[k])) && (e < |u| ==> !TabOrSpace(u[e]))
    ensures TabOrSpaceRun(u, j) == e
  {
  }

  lemma NonSpaceRunEnds(u: string, j: nat, e: nat)
    requires j <= e <= |u| && (forall k :: j <= k < e ==> !Space(u[k])) && (e < |u| ==> Space(u[e]))
    ensures NonSpaceRun(u, j) == e
  {
  }

  lemma RunsInPrefix(u: string, n: nat, rest: string, b: nat, c: nat, d: nat, e: nat)
    requires n <= |u| && DirectiveParts(u[..n], rest, b, c, d, e)
    ensures TabsOrSpaces(u, 0, b) && TabsOrSpaces(u, b + |DIRECTIVE_WORD|, c) && TabsOrSpaces(u, d, e)
    ensures forall k :: c <= k < d ==> !Space(u[k])
  {
    assert forall k :: 0 <= k < n ==> u[..n][k] == u[k];
  }

  lemma RunsAreStops(u: string, b: nat, c: nat, d: nat, e: nat)
    requires b + |DIRECTIVE_WORD| < c < d <= e <= |u| && WordAt(u, b)
    requires TabsOrSpaces(u, 0, b) && TabsOrSpaces(u, b + |DIRECTIVE_WORD|, c) && TabsOrSpaces(u, d, e)
    requires (forall k :: c <= k < d ==> !Space(u[k])) && (e < |u| ==> Space(u[e]) && !TabOrSpace(u[e]))
    ensures Stops(u) == (b, c, d, e)
  {
    WordNotBlank(u, b);
    RunEnds(u, 0, b);
    RunEnds(u, b + |DIRECTIVE_WORD|, c);
    NonSpaceRunEnds(u, c, d);
    RunEnds(u, d, e);
  }

  /** A directive's parts are where the scanner stops. */
  lemma PartsAreStops(u: string, n: nat, b: nat, c: nat, d: nat, e: nat)
    requires n <= |u| && DirectiveParts(u[..n], u[n..], b, c, d, e)
    ensures Stops(u) == (b, c, d, e) && WordAt(u, b) && LineEndLen(u, e) == Some(n - e)
  {
    RunsInPrefix(u, n, u[n..], b, c, d, e);
    WordInPrefix(u, n, b);
    LineEndAfter(u, n, e);
    RunsAreStops(u, b, c, d, e);
  }

  lemma StopsGiveDirective(u: string, n: nat, b: nat, c: nat, d: nat, e: nat)
    requires b + |DIRECTIVE_WORD| < c < d <= e <= n <= |u| && WordAt(u, b)
    requires Stops(u) == (b, c, d, e) && LineEndLen(u, e) == Some(n - e)
    ensures DirectiveAt(u) == Some(Directive(n, u[c..d]))
  {
  }

  lemma LineEndAfter(u: string, n: nat, e: nat)
    requires e <= n <= |u|
    requires u[..n][e..] == "\n" || u[..n][e..] == "\r\n" || (u[..n][e..] == "" && u[n..] == "")
    ensures LineEndLen(u, e) == Some(n - e) && (e < |u| ==> Space(u[e]) && !TabOrSpace(u[e]))
  {
    var end := u[..n][e..];
    assert |end| == n - e;
    assert |end| > 0 ==> u[e] == end[0];
    assert |end| > 1 ==> u[e + 1] == end[1];
  }

  lemma LineEndIs(u: string, e: nat, n: nat)
    requires e <= n <= |u| && LineEndLen(u, e) == Some(n - e)
    ensures u[..n][e..] == "\n" || u[..n][e..] == "\r\n" || (u[..n][e..] == "" && u[n..] == "")
  {
    if n == e + 1 {
      assert u[..n][e..] == [u[e]];
    } else if n == e + 2 {
      assert u[..n][e..] == [u[e], u[e + 1]];
    }
  }

  lemma StopsAreParts(u: string, n: nat)
    requires DirectiveAt(u).Some? && n == DirectiveAt(u).value.len
    ensures var (b, c, d, e) := Stops(u);
            DirectiveParts(u[..n], u[n..], b, c, d, e) && DirectiveAt(u).value.delim == u[..n][c..d]
  {
    var (b, c, d, e) := Stops(u);
    var t := u[..n];
    assert forall k :: 0 <= k < n ==> t[k] == u[k];
    WordInPrefix(u, n, b);
    LineEndIs(u, e, n);
    assert t[c..d] == u[c..d];
  }

  lemma PartsGiveDirective(u: string, n: nat, b: nat, c: nat, d: nat, e: nat)
    requires n <= |u| && DirectiveParts(u[..n], u[n..], b, c, d, e)
    ensures DirectiveAt(u) == Some(Directive(n, u[..n][c..d]))
  {
    PartsAreStops(u, n, b, c, d, e);
    StopsGiveDirective(u, n, b, c, d, e);
    assert u[..n][c..d] == u[c..d];
  }

  lemma DirectiveSeen(u: string, n: nat, delim: string)
    requires n <= |u| && IsDirective(u[..n], delim, u[n..])
    ensures DirectiveAt(u) == Some(Directive(n, delim))
  {
    var t := u[..n];
    var b: nat, c: nat, d: nat, e: nat :|
      b <= |t| && c <= |t| && d <= |t| && e <= |t| && DirectiveParts(t, u[n..], b, c, d, e) && delim == t[c..d];
    PartsGiveDirective(u, n, b, c, d, e);
  }

  /** The scanner sees a directive exactly where the grammar has one. */
  lemma DirectiveIff(u: string, n: nat, delim: string)
    requires n <= |u|
    ensures IsDirective(u[..n], delim, u[n..]) <==> DirectiveAt(u) == Some(Directive(n, delim))
  {
    if IsDirective(u[..n], delim, u[n..]) {
      DirectiveSeen(u, n, delim);
    } else if DirectiveAt(u) == Some(Directive(n, delim)) {
      StopsAreParts(u, n);
    }
  }

  /** Some directive starts here. */
  ghost predicate OpensDirective(u: string) {
    exists n: nat, delim :: n <= |u| && IsDirective(u[..n], delim, u[n..])
  }

  lemma OpensDirectiveIff(u: string)
    ensures OpensDirective(u) <==> DirectiveAt(u).Some?
  {
    if OpensDirective(u) {
      var n: nat, delim :| n <= |u| && IsDirective(u[..n], delim, u[n..]);
      DirectiveIff(u, n, delim);
    } else if DirectiveAt(u).Some? {
      DirectiveIff(u, DirectiveAt(u).value.len, DirectiveAt(u).value.delim);
    }
  }

  // ---- Scripts -----------------------------------------------------------------------------------

  /** t may come first before rest: a directive stands on lines of its own between statements, any
      other occurrence of the delimiter outside a token separates, and the rest is the grammar's tokens. */
  ghost predicate MayComeFirst(t: Token, rest: string, bol: bool, blank: bool, delim: string) {
    var u := t.text + rest;
    var directive := bol && blank && OpensDirective(u);
    && t.text != ""
    && match t
       case Directs(text, d) => bol && blank && IsDirective(text, d, rest)
       case Delimits(text) => !directive && text == delim
       case Piece(kind, text) => !directive && !(delim <= u) && IsToken(kind, text, rest)
  }

  lemma FirstIff(t: Token, rest: string, bol: bool, blank: bool, delim: string)
    requires t.text != "" && delim != ""
    ensures MayComeFirst(t, rest, bol, blank, delim) <==> t == First(t.text + rest, bol, blank, delim)
  {
    var u, n := t.text + rest, |t.text|;
    assert u[..n] == t.text && u[n..] == rest;
    OpensDirectiveIff(u);
    match t
    case Directs(text, d) => DirectiveIff(u, n, d);
    case Delimits(text) =>
    case Piece(kind, text) => TokenIff(u, n, kind);
  }

  /** ts is a tokenization of its own text. */
  ghost predicate Grammatical(ts: seq<Token>, bol: bool, blank: bool, delim: string) {
    ts == []
    || (&& MayComeFirst(ts[0], Text(ts[1..]), bol, blank, delim)
        && Grammatical(ts[1..], StartsLineAfter(ts[0]), BlankAfter(ts[0], blank), DelimiterAfter(ts[0], delim)))
  }

  lemma LexFirst(u: string, bol: bool, blank: bool, delim: string) returns (t: Token, rest: string)
    requires u != "" && delim != ""
    ensures t == First(u, bol, blank, delim) && u == t.text + rest && |rest| < |u| && t.text != ""
    ensures DelimiterAfter(t, delim) != ""
    ensures Lex(u, bol, blank, delim) == [t] + Lex(rest, StartsLineAfter(t), BlankAfter(t, blank), DelimiterAfter(t, delim))
  {
    t := First(u, bol, blank, delim);
    rest := u[|t.text|..];
  }

  lemma {:induction false} LexCovers(u: string, bol: bool, blank: bool, delim: string)
    requires delim != ""
    ensures Text(Lex(u, bol, blank, delim)) == u
    decreases |u|
  {
    if u != "" {
      var t, rest := LexFirst(u, bol, blank, delim);
      LexCovers(rest, StartsLineAfter(t), BlankAfter(t, blank), DelimiterAfter(t, delim));
      assert Lex(u, bol, blank, delim)[1..] == Lex(rest, StartsLineAfter(t), BlankAfter(t, blank), DelimiterAfter(t, delim));
    }
  }

  /** The grammar gives every script exactly one tokenization, the scanner's. */
  lemma {:induction false} GrammarIff(ts: seq<Token>, bol: bool, blank: bool, delim: string)
    requires delim != "" && forall i :: 0 <= i < |ts| ==> ts[i].text != "" && (ts[i].Directs? ==> ts[i].delim != "")
    ensures Grammatical(ts, bol, blank, delim) <==> ts == Lex(Text(ts), bol, blank, delim)
  {
    if ts != [] {
      var u, rest := Text(ts), Text(ts[1..]);
      FirstIff(ts[0], rest, bol, blank, delim);
      GrammarIff(ts[1..], StartsLineAfter(ts[0]), BlankAfter(ts[0], blank), DelimiterAfter(ts[0], delim));
      var t, tail := LexFirst(u, bol, blank, delim);
      LexHead(ts, t, tail, rest, Lex(tail, StartsLineAfter(t), BlankAfter(t, blank), DelimiterAfter(t, delim)));
    }
  }

  lemma LexHead(ts: seq<Token>, t: Token, tail: string, rest: string, more: seq<Token>)
    requires ts != [] && ts[0].text + rest == t.text + tail
    ensures ts == [t] + more <==> ts[0] == t && ts[1..] == more
    ensures ts[0] == t ==> tail == rest
  {
    assert ts == [ts[0]] + ts[1..];
    if ts == [t] + more {
      assert ts[1..] == more;
    }
    if ts[0] == t {
      assert tail == (t.text + tail)[|t.text|..] == (t.text + rest)[|t.text|..] == rest;
    }
  }

  // ---- The statements of a script --------------------------------------------------------------------

  lemma {:induction false} ChunksCover(ts: seq<Token>, cur: string)
    ensures ChunkText(Chunks(ts, cur)) == cur + Text(ts)
  {
    if ts == [] {
      assert Chunks(ts, cur)[1..] == [];
    } else if ts[0].Piece? {
      ChunksCover(ts[1..], cur + ts[0].text);
    } else {
      var more := Chunks(ts[1..], "");
      var cs := [Raw(cur), Separator(ts[0].text)] + more;
      ChunksCover(ts[1..], "");
      assert cs[1..] == [Separator(ts[0].text)] + more && cs[1..][1..] == more;
      assert ChunkText(cs) == cur + (ts[0].text + ChunkText(more));
    }
  }

  /** Raw statements and separators alternate, beginning and ending with a raw statement. */
  predicate Alternates(cs: seq<Chunk>) {
    |cs| % 2 == 1 && forall i :: 0 <= i < |cs| ==> (cs[i].Raw? <==> i % 2 == 0)
  }

  lemma {:induction false} ChunksAlternate(ts: seq<Token>, cur: string)
    ensures Alternates(Chunks(ts, cur))
  {
    if ts != [] {
      if ts[0].Piece? {
        ChunksAlternate(ts[1..], cur + ts[0].text);
      } else {
        ChunksAlternate(ts[1..], "");
        var more, cs := Chunks(ts[1..], ""), Chunks(ts, cur);
        forall i | 0 <= i < |cs| ensures cs[i].Raw? <==> i % 2 == 0 {
          if i >= 2 { assert cs[i] == more[i - 2]; }
        }
      }
    }
  }

  /** Every character of a script belongs to exactly one raw statement or separator, in order; the
      statements are the raw ones that keep something once trimmed. */
  lemma SplitCovers(script: string)
    ensures var cs := Chunks(TokensOf(script), "");
            ChunkText(cs) == script && Alternates(cs) && Split(script) == Statements(cs)
    ensures Text(TokensOf(script)) == script
  {
    LexCovers(script, true, true, ";");
    ChunksCover(TokensOf(script), "");
    ChunksAlternate(TokensOf(script), "");
  }
}
