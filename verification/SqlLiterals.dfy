/** What the splitting keeps together, said of the characters of a script alone: literals, comments and
    dollar quotes with any text inside, and what DELIMITER lines change (frontend/src/lib/sql.ts,
    splitStatements). */
module SqlLiterals {
  import opened Wrappers
  import opened SqlText
  import opened SqlTokens
  import opened SqlKeyword
  import opened SqlSplit
  import opened SqlGrammar

  // ---- The scanner on plain text -----------------------------------------------------------------

  /** Characters with no meaning to the scanner. */
  predicate Quiet(c: char) {
    'A' <= c <= 'Z' || '0' <= c <= '9' || c == ' ' || c == '\n' || c == '+'
  }

  predicate AllQuiet(p: string) {
    forall i :: 0 <= i < |p| ==> Quiet(p[i])
  }

  lemma QuietIsPlain(u: string)
    requires u != "" && Quiet(u[0])
    ensures KindOf(u).Plain? && Tok(u) == 1
  {
  }

  /** Within a statement that has begun, plain text and other white space is taken as it is. */
  lemma {:induction false} OverQuiet(p: string, u: string, bol: bool, cur: string, delim: string)
    requires AllQuiet(p) && delim != "" && !Quiet(delim[0])
    ensures Onward(Lex(p + u, bol, false, delim), cur) == Onward(Lex(u, if p == "" then bol else LineStartAfter(p), false, delim), cur + p)
  {
    if p == "" {
      assert p + u == u && cur + p == cur;
    } else {
      var v := p + u;
      QuietIsPlain(v);
      PieceStep(v, bol, false, cur, delim);
      assert v[..1] == p[..1] && v[1..] == p[1..] + u && cur + p[..1] + p[1..] == cur + p;
      OverQuiet(p[1..], u, LineStartAfter(p[..1]), cur + p[..1], delim);
    }
  }

  lemma WordStarts(u: string)
    requires WordAt(u, 0)
    ensures Upper(u[0]) == 'D'
  {
    assert Upper(u[0 + 0]) == DIRECTIVE_WORD[0];
  }

  lemma NoDirectiveAtS(u: string)
    requires u != "" && u[0] == 'S'
    ensures DirectiveAt(u).None?
  {
    if WordAt(u, 0) {
      WordStarts(u);
    }
  }

  lemma OverS(u: string, bol: bool, delim: string)
    requires u != "" && u[0] == 'S' && delim != "" && !Quiet(delim[0])
    ensures Onward(Lex(u, bol, true, delim), "") == Onward(Lex(u[1..], false, false, delim), "S")
  {
    NoDirectiveAtS(u);
    QuietIsPlain(u);
    PieceStep(u, bol, true, "", delim);
    assert u[..1] == "S" && "" + u[..1] == "S";
  }

  /** A statement begins. */
  lemma Begins(p: string, u: string, bol: bool, delim: string)
    requires p != "" && p[0] == 'S' && AllQuiet(p) && delim != "" && !Quiet(delim[0])
    ensures Onward(Lex(p + u, bol, true, delim), "") == Onward(Lex(u, LineStartAfter(p), false, delim), p)
  {
    var v := p + u;
    OverS(v, bol, delim);
    assert v[1..] == p[1..] + u && "S" + p[1..] == p;
    OverQuiet(p[1..], u, false, "S", delim);
  }

  lemma OverToken(kind: Kind, t: string, rest: string, cur: string)
    requires t != "" && t[0] != ';' && IsToken(kind, t, rest)
    ensures Onward(Lex(t + rest, false, false, ";"), cur) == Onward(Lex(rest, LineStartAfter(t), false, ";"), cur + t)
  {
    var u := t + rest;
    assert u[..|t|] == t && u[|t|..] == rest;
    TokenIff(u, |t|, kind);
    assert !(";" <= u);
    PieceStep(u, false, false, cur, ";");
  }

  lemma KeptWhole(o: string)
    requires o != "" && o[0] == 'S' && !Space(o[|o| - 1])
    ensures Kept(o) == [o]
  {
    TrimOver("", o, "");
    assert "" + o + "" == o;
  }

  /** Plain text that is a statement by itself. */
  predicate Short(p: string) {
    p != "" && p[0] == 'S' && AllQuiet(p) && !Space(p[|p| - 1])
  }

  lemma LastStatement(p: string, bol: bool, delim: string)
    requires Short(p) && delim != "" && !Quiet(delim[0])
    ensures Onward(Lex(p, bol, true, delim), "") == [p]
  {
    assert p + "" == p;
    Begins(p, "", bol, delim);
    OnwardEnd(p);
    KeptWhole(p);
  }

  lemma AtDelimiter(bol: bool, cur: string, delim: string, next: string)
    requires Kept(cur) == [cur] && Short(next) && delim != "" && !Quiet(delim[0])
    ensures Onward(Lex(delim + next, bol, false, delim), cur) == [cur, next]
  {
    var u := delim + next;
    DelimiterStep(u, bol, false, cur, delim);
    assert u[|delim|..] == next;
    LastStatement(next, false, delim);
  }

  predicate EndsLine(t: string, tail: string) {
    if tail == "" then LineStartAfter(t) else LineStartAfter(tail)
  }

  /** A script of one token between plain text, and what comes after. */
  lemma OneToken(kind: Kind, head: string, t: string, tail: string, rest: string, script: string)
    requires head != "" && head[0] == 'S' && AllQuiet(head) && !LineStartAfter(head) && script == head + t + tail
    requires t != "" && t[0] != ';' && AllQuiet(tail) && IsToken(kind, t, tail + rest)
    ensures Split(script + rest) == Onward(Lex(rest, EndsLine(t, tail), false, ";"), script)
  {
    assert script + rest == head + (t + (tail + rest));
    Begins(head, t + (tail + rest), true, ";");
    OverToken(kind, t, tail + rest, head);
    OverQuiet(tail, rest, LineStartAfter(t), head + t, ";");
  }

  lemma AtEnd(bol: bool, cur: string)
    requires Kept(cur) == [cur]
    ensures Onward(Lex("", bol, false, ";"), cur) == [cur]
  {
    LexNothing(bol, false, ";");
    OnwardEnd(cur);
  }

  /** Such a script is one statement, alone and before another one. */
  lemma OneStatement(kind: Kind, head: string, t: string, tail: string, script: string, next: string)
    requires head != "" && head[0] == 'S' && AllQuiet(head) && !LineStartAfter(head) && script == head + t + tail
    requires t != "" && t[0] != ';' && AllQuiet(tail) && !Space(script[|script| - 1]) && Short(next)
    requires IsToken(kind, t, tail) && IsToken(kind, t, tail + (";" + next))
    ensures Split(script) == [script] && Split(script + (";" + next)) == [script, next]
  {
    KeptWhole(script);
    assert tail + "" == tail && script + "" == script;
    OneToken(kind, head, t, tail, "", script);
    AtEnd(EndsLine(t, tail), script);
    OneToken(kind, head, t, tail, ";" + next, script);
    AtDelimiter(EndsLine(t, tail), script, ";", next);
  }

  /** The same with the words of the statements below. */
  lemma Selects(kind: Kind, t: string, tail: string, script: string)
    requires t != "" && t[0] != ';' && AllQuiet(tail) && script == "SELECT " + t + tail && !Space(script[|script| - 1])
    requires IsToken(kind, t, tail) && IsToken(kind, t, tail + ";SELECT 2")
    ensures Split(script) == [script] && Split(script + ";SELECT 2") == [script, "SELECT 2"]
  {
    assert ";" + "SELECT 2" == ";SELECT 2";
    OneStatement(kind, "SELECT ", t, tail, script, "SELECT 2");
  }

  // ---- Literals ------------------------------------------------------------------------------------

  /** A text as the inside of a literal: the quote doubled and, in single quotes, backslashes too. */
  function Escaped(s: string, q: char): string {
    if s == "" then ""
    else (if s[0] == q || (s[0] == '\\' && q == '\'') then [s[0], s[0]] else [s[0]]) + Escaped(s[1..], q)
  }

  lemma {:induction false} EscapedUnits(s: string, q: char)
    ensures Units(Escaped(s, q), q)
  {
    if s != "" {
      EscapedUnits(s[1..], q);
      var e := Escaped(s, q);
      if s[0] == q || (s[0] == '\\' && q == '\'') {
        assert e[2..] == Escaped(s[1..], q);
      } else {
        assert e[1..] == Escaped(s[1..], q);
      }
    }
  }

  lemma {:induction false} NothingToEscape(s: string, q: char)
    requires q !in s && (q == '\'' ==> '\\' !in s)
    ensures Escaped(s, q) == s
  {
    if s != "" {
      assert s[0] in s;
      NothingToEscape(s[1..], q);
    }
  }

  /** Whatever is written into a literal of any of the three quotes stays in its statement, and the
      literal ends with its closing quote. */
  lemma LiteralStaysWhole(q: char, s: string)
    requires q == '\'' || q == '"' || q == '`'
    ensures var script := "SELECT " + [q] + Escaped(s, q) + [q];
            Split(script) == [script] && Split(script + ";SELECT 2") == [script, "SELECT 2"]
  {
    var body := Escaped(s, q);
    var t, script := [q] + body + [q], "SELECT " + [q] + body + [q];
    EscapedUnits(s, q);
    assert t[1..|t| - 1] == body && script == "SELECT " + t + "" && script[|script| - 1] == q;
    Selects(Quoted, t, "", script);
  }

  /** So do semicolons, comment openers and whatever else holds neither the quote nor, in single quotes,
      a backslash. */
  lemma PlainLiteralStaysWhole(q: char, body: string)
    requires (q == '\'' || q == '"' || q == '`') && q !in body && (q == '\'' ==> '\\' !in body)
    ensures var script := "SELECT " + [q] + body + [q];
            Split(script) == [script] && Split(script + ";SELECT 2") == [script, "SELECT 2"]
  {
    NothingToEscape(body, q);
    LiteralStaysWhole(q, body);
  }

  // ---- Comments ------------------------------------------------------------------------------------

  /** A line comment holds its line and no more. */
  lemma LineCommentStaysWhole(opener: string, body: string)
    requires (opener == "--" || opener == "#") && '\n' !in body
    ensures var script := "SELECT " + opener + body + "\n+ 2";
            Split(script) == [script] && Split(script + ";SELECT 2") == [script, "SELECT 2"]
  {
    var t, tail := opener + body, "\n+ 2";
    var script := "SELECT " + opener + body + tail;
    assert t[0] == opener[0] && (opener == "--" ==> t[1] == '-');
    forall i | 0 <= i < |t| ensures t[i] != '\n' {
      if i >= |opener| {
        assert t[i] == body[i - |opener|];
      }
    }
    assert script == "SELECT " + t + tail && (tail + ";SELECT 2")[0] == '\n' && script[|script| - 1] == '2';
    Selects(LineComment, t, tail, script);
  }

  /** A block comment holds everything up to its first close. */
  lemma BlockCommentStaysWhole(body: string)
    requires forall i :: 0 <= i < |body| - 1 ==> !(body[i] == '*' && body[i + 1] == '/')
    ensures var script := "SELECT " + "/*" + body + "*/";
            Split(script) == [script] && Split(script + ";SELECT 2") == [script, "SELECT 2"]
  {
    var t, script := "/*" + body + "*/", "SELECT " + "/*" + body + "*/";
    PairAt(t, BLOCK_CLOSE, |t| - 2);
    forall k: nat | 2 <= k < |t| - 2 ensures !OccursAt(t, BLOCK_CLOSE, k) {
      PairAt(t, BLOCK_CLOSE, k);
      assert t[k] == body[k - 2] && (k + 1 < |t| - 2 ==> t[k + 1] == body[k - 1]) && (k + 1 == |t| - 2 ==> t[k + 1] == '*');
    }
    assert Opens(t, '/', '*') && script == "SELECT " + t + "" && script[|script| - 1] == '/';
    Selects(BlockComment, t, "", script);
  }

  // ---- Dollar quotes -------------------------------------------------------------------------------

  /** The tags of dollar quotes: "$$", or a name between dollars. */
  predicate Tag(mark: string) {
    || mark == "$$"
    || (&& |mark| > 2 && mark[0] == '$' && mark[|mark| - 1] == '$' && !('0' <= mark[1] <= '9')
        && forall k :: 1 <= k < |mark| - 1 ==>
             'A' <= mark[k] <= 'Z' || 'a' <= mark[k] <= 'z' || mark[k] == '_' || '0' <= mark[k] <= '9')
  }

  lemma DollarIsToken(mark: string, body: string, t: string, rest: string)
    requires Tag(mark) && t == mark + body + mark && forall k: nat :: k < |body| ==> !OccursAt(body + mark, mark, k)
    ensures IsToken(DollarQuoted, t, rest)
  {
    var n := |mark|;
    assert t[..n] == mark && t[|t| - n..|t|] == mark;
    forall k: nat | n <= k < |t| - n ensures !OccursAt(t, mark, k) {
      assert t[n..] == body + mark;
      OccursAtShift(t, n, mark, k - n);
    }
    assert IsTag(t[..n]) && Delimited(t, rest, n, t[..n]);
  }

  /** A dollar quote holds everything up to its own tag. */
  lemma DollarQuoteStaysWhole(mark: string, body: string)
    requires Tag(mark) && forall k: nat :: k < |body| ==> !OccursAt(body + mark, mark, k)
    ensures var script := "SELECT " + mark + body + mark;
            Split(script) == [script] && Split(script + ";SELECT 2") == [script, "SELECT 2"]
  {
    var t, script := mark + body + mark, "SELECT " + mark + body + mark;
    DollarIsToken(mark, body, t, "");
    DollarIsToken(mark, body, t, "" + ";SELECT 2");
    assert script == "SELECT " + t + "" && script[|script| - 1] == mark[|mark| - 1];
    Selects(DollarQuoted, t, "", script);
  }

  // ---- DELIMITER lines -------------------------------------------------------------------------------

  /** A DELIMITER line, in capitals or not, ends no statement and is none; from there statements end at the
      new delimiter, and no longer at a semicolon. */
  lemma DelimiterLine(word: string, d: string)
    requires word == "DELIMITER" || word == "delimiter"
    requires d != "" && !Quiet(d[0]) && d[0] != ';' && forall k :: 0 <= k < |d| ==> !Space(d[k])
    ensures Split(word + " " + d + "\n" + ("SELECT 1;SELECT 1" + d + "SELECT 2")) == ["SELECT 1;SELECT 1", "SELECT 2"]
  {
    var line, first, next := word + " " + d + "\n", "SELECT 1;SELECT 1", "SELECT 2";
    assert first == "SELECT 1" + ";" + "SELECT 1";
    ThenSplits(word, d, line, "SELECT 1", first, next);
  }

  lemma ThenSplits(word: string, d: string, line: string, p: string, first: string, next: string)
    requires (word == "DELIMITER" || word == "delimiter") && line == word + " " + d + "\n" && first == p + ";" + p
    requires d != "" && !Quiet(d[0]) && d[0] != ';' && (forall k :: 0 <= k < |d| ==> !Space(d[k])) && Short(p) && Short(next)
    ensures Split(line + (first + d + next)) == [first, next]
  {
    LineDirects(word, d, line, line + (first + d + next));
    WithSemicolon(p, d, first, next);
    AfterLine(line, d, first + d + next);
  }

  lemma AfterLine(line: string, d: string, after: string)
    requires d != "" && DirectiveAt(line + after) == Some(Directive(|line|, d))
    ensures Split(line + after) == Onward(Lex(after, true, true, d), "")
  {
    DirectiveStep(line + after, "", ";");
    assert (line + after)[|line|..] == after;
  }

  lemma LineDirects(word: string, d: string, line: string, u: string)
    requires (word == "DELIMITER" || word == "delimiter") && d != "" && forall k :: 0 <= k < |d| ==> !Space(d[k])
    requires line == word + " " + d + "\n" && line <= u
    ensures DirectiveAt(u) == Some(Directive(|line|, d))
  {
    var n, e := |line|, 10 + |d|;
    assert u[..n] == line && line[e..] == "\n" && line[10..e] == d;
    assert forall k :: 10 <= k < e ==> line[k] == d[k - 10];
    forall k | 0 <= k < |DIRECTIVE_WORD| ensures Upper(line[0 + k]) == DIRECTIVE_WORD[k] {
      assert line[k] == word[k];
    }
    assert DirectiveParts(line, u[n..], 0, 10, e, e);
    PartsGiveDirective(u, n, 0, 10, e, e);
  }

  lemma OverSemicolon(u: string, cur: string, delim: string)
    requires u != "" && u[0] == ';' && delim != "" && delim[0] != ';'
    ensures Onward(Lex(u, false, false, delim), cur) == Onward(Lex(u[1..], false, false, delim), cur + ";")
  {
    SemicolonIsPlain(u);
    PieceStep(u, false, false, cur, delim);
    assert u[..1] == ";";
  }

  lemma SemicolonIsPlain(u: string)
    requires u != "" && u[0] == ';'
    ensures KindOf(u).Plain? && Tok(u) == 1
  {
  }

  lemma Regrouped(p: string, rest: string, first: string, d: string, next: string)
    requires first == p + ";" + p && rest == d + next
    ensures first + d + next == p + (";" + (p + rest)) && (";" + (p + rest))[1..] == p + rest
  {
  }

  lemma OverBoth(p: string, rest: string, first: string, d: string)
    requires Short(p) && d != "" && !Quiet(d[0]) && d[0] != ';' && first == p + ";" + p
    ensures Onward(Lex(p + (";" + (p + rest)), true, true, d), "") == Onward(Lex(rest, false, false, d), first)
  {
    var u := ";" + (p + rest);
    assert u[1..] == p + rest;
    Begins(p, u, true, d);
    OverSemicolon(u, p, d);
    OverQuiet(p, rest, false, p + ";", d);
  }

  lemma WithSemicolon(p: string, d: string, first: string, next: string)
    requires Short(p) && Short(next) && d != "" && !Quiet(d[0]) && d[0] != ';' && first == p + ";" + p
    ensures Onward(Lex(first + d + next, true, true, d), "") == [first, next]
  {
    Regrouped(p, d + next, first, d, next);
    OverBoth(p, d + next, first, d);
    KeptWhole(first);
    AtDelimiter(false, first, d, next);
  }
}
