/** Splitting a console script into statements (frontend/src/lib/sql.ts, splitStatements), proved
    against a grammar of delimiters, DELIMITER directives and the tokens between them. */
module SqlSplit {
  import opened Wrappers
  import opened SqlText
  import opened SqlTokens
  import opened SqlKeyword

  // ---- Directives ----------------------------------------------------------------------------

  const DIRECTIVE_WORD := "DELIMITER"

  predicate TabOrSpace(c: char) {
    c == ' ' || c == '\t'
  }

  function TabOrSpaceRun(u: string, j: nat): (e: nat)
    requires j <= |u|
    ensures j <= e <= |u| && (forall k :: j <= k < e ==> TabOrSpace(u[k])) && (e < |u| ==> !TabOrSpace(u[e]))
    decreases |u| - j
  {
    if j < |u| && TabOrSpace(u[j]) then TabOrSpaceRun(u, j + 1) else j
  }

  function NonSpaceRun(u: string, j: nat): (e: nat)
    requires j <= |u|
    ensures j <= e <= |u| && (forall k :: j <= k < e ==> !Space(u[k])) && (e < |u| ==> Space(u[e]))
    decreases |u| - j
  {
    if j < |u| && !Space(u[j]) then NonSpaceRun(u, j + 1) else j
  }

  /** The word at j, whatever its case. */
  predicate WordAt(u: string, j: nat) {
    j + |DIRECTIVE_WORD| <= |u| && forall k :: 0 <= k < |DIRECTIVE_WORD| ==> Upper(u[j + k]) == DIRECTIVE_WORD[k]
  }

  /** How far a line end at e reaches: "\n", "\r\n" or the end of the script. */
  function LineEndLen(u: string, e: nat): Option<nat>
    requires e <= |u|
  {
    if e == |u| then Some(0)
    else if u[e] == '\n' then Some(1)
    else if u[e] == '\r' && e + 1 < |u| && u[e + 1] == '\n' then Some(2)
    else None
  }

  datatype Directive = Directive(len: nat, delim: string)

  /** The DELIMITER line that u starts with. */
  function DirectiveAt(u: string): (r: Option<Directive>)
    ensures r.Some? ==> 0 < r.value.len <= |u| && r.value.delim != "" && forall k :: 0 <= k < |r.value.delim| ==> !Space(r.value.delim[k])
  {
    var b := TabOrSpaceRun(u, 0);
    if !WordAt(u, b) then None
    else
      var w := b + |DIRECTIVE_WORD|;
      var c := TabOrSpaceRun(u, w);
      var d := NonSpaceRun(u, c);
      var e := TabOrSpaceRun(u, d);
      if c == w || d == c || LineEndLen(u, e).None? then None
      else Some(Directive(e + LineEndLen(u, e).value, u[c..d]))
  }

  /** What follows a directive starts a line, if there is anything. */
  lemma DirectiveEndsLine(u: string)
    requires DirectiveAt(u).Some?
    ensures var n := DirectiveAt(u).value.len;
            n < |u| ==> u[n - 1] == '\n'
  {
  }

  // ---- Tokens of a script ----------------------------------------------------------------------

  datatype Token =
    | Directs(text: string, delim: string)  // a DELIMITER line, which sets the delimiter
    | Delimits(text: string)
    | Piece(kind: Kind, text: string)

  predicate LineStartAfter(text: string) {
    text != "" && text[|text| - 1] == '\n'
  }

  /** The first token of u: bol says whether u starts a line, blank whether the statement so far is
      only white space. */
  function First(u: string, bol: bool, blank: bool, delim: string): (t: Token)
    requires u != "" && delim != ""
    ensures t.text != "" && t.text <= u && (t.Directs? ==> t.delim != "")
  {
    if bol && blank && DirectiveAt(u).Some? then Directs(u[..DirectiveAt(u).value.len], DirectiveAt(u).value.delim)
    else if delim <= u then Delimits(delim)
    else Piece(KindOf(u), u[..Tok(u)])
  }

  predicate StartsLineAfter(t: Token) {
    t.Directs? || (t.Piece? && LineStartAfter(t.text))
  }

  predicate BlankAfter(t: Token, blank: bool) {
    t.Piece? ==> blank && AllSpace(t.text)
  }

  function DelimiterAfter(t: Token, delim: string): string {
    if t.Directs? then t.delim else delim
  }

  function Lex(u: string, bol: bool, blank: bool, delim: string): seq<Token>
    requires delim != ""
    decreases |u|
  {
    if u == "" then []
    else
      var t := First(u, bol, blank, delim);
      [t] + Lex(u[|t.text|..], StartsLineAfter(t), BlankAfter(t, blank), DelimiterAfter(t, delim))
  }

  function TokensOf(script: string): seq<Token> {
    Lex(script, true, true, ";")
  }

  function Text(ts: seq<Token>): string {
    if ts == [] then "" else ts[0].text + Text(ts[1..])
  }

  // ---- Statements of a script --------------------------------------------------------------------

  /** A script's text is raw statements with separators (delimiters and directives) between them. */
  datatype Chunk = Raw(text: string) | Separator(text: string)

  /** The chunks that tokens make, cur being the raw statement begun before them. */
  function Chunks(ts: seq<Token>, cur: string): seq<Chunk> {
    if ts == [] then [Raw(cur)]
    else if ts[0].Piece? then Chunks(ts[1..], cur + ts[0].text)
    else [Raw(cur), Separator(ts[0].text)] + Chunks(ts[1..], "")
  }

  function ChunkText(cs: seq<Chunk>): string {
    if cs == [] then "" else cs[0].text + ChunkText(cs[1..])
  }

  /** The statement a raw one is kept as: trimmed, unless that leaves nothing or has no keyword. */
  function Kept(raw: string): seq<string> {
    var t := Trim(raw);
    if t != "" && LeadingKeyword(t) != "" then [t] else []
  }

  function Statements(cs: seq<Chunk>): seq<string> {
    if cs == [] then [] else (if cs[0].Raw? then Kept(cs[0].text) else []) + Statements(cs[1..])
  }

  function Split(script: string): seq<string> {
    Statements(Chunks(TokensOf(script), ""))
  }

  // ---- The scanner -------------------------------------------------------------------------------

  function Rest(s: string, i: nat): string {
    if i <= |s| then s[i..] else ""
  }

  predicate StartsLine(s: string, i: nat) {
    i == 0 || (i <= |s| && s[i - 1] == '\n')
  }

  /** The end of the literal that starts at i; a backslash before the end of the script steps past it. */
  method ScanQuoted(s: string, i: nat) returns (j: nat)
    requires i < |s| && QuoteMark(s[i])
    ensures i < j <= |s| + 1 && (if j <= |s| then j else |s|) == i + QuoteEnd(s[i..], 1)
  {
    var c := s[i];
    j := i + 1;
    ghost var u := s[i..];
    while j < |s|
      invariant i < j <= |s| + 1
      invariant QuoteEnd(u, j - i) == QuoteEnd(u, 1)
      decreases |s| - j
    {
      assert s[j] == u[j - i] && (j + 1 < |s| ==> s[j + 1] == u[j - i + 1]);
      if s[j] == '\\' && c == '\'' {
        j := j + 2;
        continue;
      }
      if s[j] == c {
        if j + 1 < |s| && s[j + 1] == c {
          j := j + 2;
          continue;
        }
        j := j + 1;
        return;
      }
      j := j + 1;
    }
  }

  /** The end of the piece that starts at i. */
  method ScanPiece(s: string, i: nat) returns (j: nat)
    requires i < |s|
    ensures i < j <= |s| + 1 && (if j <= |s| then j else |s|) == i + Tok(s[i..])
  {
    var c := s[i];
    ghost var u := s[i..];
    if QuoteMark(c) {
      j := ScanQuoted(s, i);
      return;
    }
    if (c == '-' && i + 1 < |s| && s[i + 1] == '-') || c == '#' {
      IndexOfShift(s, i, "\n", 0);
      var end := IndexOf(s, "\n", i);
      return if end.None? then |s| else end.value;
    }
    if c == '/' && i + 1 < |s| && s[i + 1] == '*' {
      IndexOfShift(s, i, BLOCK_CLOSE, 2);
      var close := IndexOf(s, BLOCK_CLOSE, i + 2);
      return if close.None? then |s| else close.value + 2;
    }
    if c == '$' {
      var n := TagLen(s[i..]);
      if n > 0 {
        var tag := s[i..i + n];
        assert tag == u[..n];
        IndexOfShift(s, i, tag, n);
        var close := IndexOf(s, tag, i + n);
        return if close.None? then |s| else close.value + n;
      }
    }
    j := i + 1;
  }

  lemma SeparatedStatements(raw: string, sep: string, rest: seq<Chunk>)
    ensures Statements([Raw(raw), Separator(sep)] + rest) == Kept(raw) + Statements(rest)
  {
    var cs := [Raw(raw), Separator(sep)] + rest;
    assert cs[1..] == [Separator(sep)] + rest && cs[1..][1..] == rest;
  }

  /** The statements of the tokens ts when cur is the raw statement already begun. */
  function Onward(ts: seq<Token>, cur: string): seq<string> {
    Statements(Chunks(ts, cur))
  }

  lemma OnwardStep(ts: seq<Token>, cur: string)
    requires ts != []
    ensures Onward(ts, cur)
         == if ts[0].Piece? then Onward(ts[1..], cur + ts[0].text) else Kept(cur) + Onward(ts[1..], "")
  {
    if !ts[0].Piece? {
      SeparatedStatements(cur, ts[0].text, Chunks(ts[1..], ""));
    }
  }

  lemma OnwardEnd(cur: string)
    ensures Onward([], cur) == Kept(cur)
  {
    assert Chunks([], cur) == [Raw(cur)];
    assert Statements([Raw(cur)][1..]) == [];
  }

  lemma DirectiveStep(u: string, cur: string, delim: string)
    requires delim != "" && AllSpace(cur) && u != "" && DirectiveAt(u).Some?
    ensures var d := DirectiveAt(u).value;
            Onward(Lex(u, true, true, delim), cur) == Onward(Lex(u[d.len..], true, true, d.delim), "")
  {
    BlankIffAllSpace(cur);
    OnwardStep(Lex(u, true, true, delim), cur);
    var d := DirectiveAt(u).value;
    assert Lex(u, true, true, delim)[1..] == Lex(u[d.len..], true, true, d.delim);
  }

  lemma DelimiterStep(u: string, bol: bool, blank: bool, cur: string, delim: string)
    requires delim != "" && u != "" && !(bol && blank && DirectiveAt(u).Some?) && delim <= u
    ensures Onward(Lex(u, bol, blank, delim), cur) == Kept(cur) + Onward(Lex(u[|delim|..], false, true, delim), "")
  {
    OnwardStep(Lex(u, bol, blank, delim), cur);
    assert Lex(u, bol, blank, delim)[1..] == Lex(u[|delim|..], false, true, delim);
  }

  lemma PieceStep(u: string, bol: bool, blank: bool, cur: string, delim: string)
    requires delim != "" && u != "" && !(bol && blank && DirectiveAt(u).Some?) && !(delim <= u)
    ensures var t := u[..Tok(u)];
            Onward(Lex(u, bol, blank, delim), cur)
            == Onward(Lex(u[Tok(u)..], LineStartAfter(t), blank && AllSpace(t), delim), cur + t)
  {
    OnwardStep(Lex(u, bol, blank, delim), cur);
    var t := u[..Tok(u)];
    assert Lex(u, bol, blank, delim)[1..] == Lex(u[Tok(u)..], LineStartAfter(t), blank && AllSpace(t), delim);
  }

  /** The statements still to come when the scanner stands at i with cur begun. */
  function Ahead(s: string, i: nat, cur: string, delim: string): seq<string>
    requires delim != ""
  {
    Onward(Lex(Rest(s, i), StartsLine(s, i), AllSpace(cur), delim), cur)
  }

  predicate DirectiveFires(s: string, i: nat, cur: string)
    requires i < |s|
  {
    StartsLine(s, i) && AllSpace(cur) && DirectiveAt(s[i..]).Some?
  }

  lemma RestShift(s: string, i: nat, n: nat, next: nat)
    requires next == i + n && next <= |s| && n > 0
    ensures s[i..][n..] == Rest(s, next) && (StartsLine(s, next) <==> s[i..][n - 1] == '\n')
  {
  }

  lemma AfterDelimiter(s: string, i: nat, delim: string, next: nat)
    requires i < |s| && delim != "" && (forall k :: 0 <= k < |delim| ==> !Space(delim[k]))
    requires delim <= s[i..] && next == i + |delim|
    ensures next <= |s| && s[i..][|delim|..] == Rest(s, next) && !StartsLine(s, next)
  {
    RestShift(s, i, |delim|, next);
    assert s[i..][|delim| - 1] == delim[|delim| - 1];
  }

  lemma AtDirective(s: string, i: nat, cur: string, delim: string, d: Directive, next: nat)
    requires i < |s| && delim != "" && DirectiveFires(s, i, cur)
    requires DirectiveAt(s[i..]) == Some(d) && next == i + d.len
    ensures next <= |s| && Ahead(s, i, cur, delim) == Ahead(s, next, "", d.delim)
  {
    DirectiveStep(s[i..], cur, delim);
    DirectiveEndsLine(s[i..]);
    RestShift(s, i, d.len, next);
    if next == |s| {
      LexNothing(StartsLine(s, next), true, d.delim);
      LexNothing(true, true, d.delim);
    }
  }

  lemma LexNothing(bol: bool, blank: bool, delim: string)
    requires delim != ""
    ensures Lex("", bol, blank, delim) == []
  {
  }

  lemma AtDelimiter(s: string, i: nat, cur: string, delim: string, next: nat)
    requires i < |s| && delim != "" && (forall k :: 0 <= k < |delim| ==> !Space(delim[k]))
    requires !DirectiveFires(s, i, cur) && delim <= s[i..] && next == i + |delim|
    ensures next <= |s| && Ahead(s, i, cur, delim) == Kept(cur) + Ahead(s, next, "", delim)
  {
    DelimiterStep(s[i..], StartsLine(s, i), AllSpace(cur), cur, delim);
    AfterDelimiter(s, i, delim, next);
  }

  lemma Regroup(out: seq<string>, a: seq<string>, b: seq<string>)
    ensures out + (a + b) == (out + a) + b
  {
  }

  lemma SpacesTogether(a: string, b: string)
    ensures AllSpace(a + b) <==> AllSpace(a) && AllSpace(b)
  {
    if AllSpace(a + b) {
      assert forall k :: 0 <= k < |a| ==> a[k] == (a + b)[k];
      assert forall k :: 0 <= k < |b| ==> b[k] == (a + b)[|a| + k];
    }
  }

  lemma AfterPiece(s: string, i: nat, n: nat, t: string, j: nat)
    requires i < |s| && 0 < n <= |s| - i && i < j && (if j <= |s| then j else |s|) == i + n
    requires t == s[i..if j <= |s| then j else |s|]
    ensures t == s[i..][..n] && s[i..][n..] == Rest(s, j)
    ensures Rest(s, j) == "" || (LineStartAfter(t) <==> StartsLine(s, j))
  {
    assert j <= |s| ==> t[|t| - 1] == s[j - 1];
  }

  lemma AtPiece(s: string, i: nat, cur: string, delim: string, t: string, j: nat)
    requires i < |s| && delim != "" && !DirectiveFires(s, i, cur) && !(delim <= s[i..])
    requires i < j && (if j <= |s| then j else |s|) == i + Tok(s[i..]) && t == s[i..if j <= |s| then j else |s|]
    ensures Ahead(s, i, cur, delim) == Ahead(s, j, cur + t, delim)
  {
    AfterPiece(s, i, Tok(s[i..]), t, j);
    PieceStep(s[i..], StartsLine(s, i), AllSpace(cur), cur, delim);
    SpacesTogether(cur, t);
    if Rest(s, j) == "" {
      LexNothing(LineStartAfter(t), AllSpace(cur + t), delim);
      LexNothing(StartsLine(s, j), AllSpace(cur + t), delim);
    }
  }

  /** Splits a script into trimmed statements. */
  method SplitStatements(script: string) returns (out: seq<string>)
    ensures out == Split(script)
  {
    out := [];
    var cur, delim, i := "", ";", 0;
    var s := script;
    assert Rest(s, 0) == s;
    while i < |s|
      invariant delim != "" && forall k :: 0 <= k < |delim| ==> !Space(delim[k])
      invariant out + Ahead(s, i, cur, delim) == Split(script)
      decreases |s| - i
    {
      if StartsLine(s, i) && AllSpace(cur) {
        var d := DirectiveAt(s[i..]);
        if d.Some? {
          var next := i + d.value.len;
          AtDirective(s, i, cur, delim, d.value, next);
          cur := "";
          delim := d.value.delim;
          i := next;
          continue;
        }
      }
      if delim <= s[i..] {
        var next := i + |delim|;
        AtDelimiter(s, i, cur, delim, next);
        Regroup(out, Kept(cur), Ahead(s, next, "", delim));
        out := out + Kept(cur);
        cur := "";
        i := next;
        continue;
      }
      var j := ScanPiece(s, i);
      var t := s[i..if j <= |s| then j else |s|];
      AtPiece(s, i, cur, delim, t, j);
      cur := cur + t;
      i := j;
    }
    OnwardEnd(cur);
    out := out + Kept(cur);
  }
}
