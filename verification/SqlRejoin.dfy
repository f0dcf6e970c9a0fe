/** Exactly when joining statements and splitting again gives them back: a directive that fires on the
    joined text takes characters with it that no separator can make up for. */
module SqlRejoin {
  import opened Wrappers
  import opened SqlText
  import opened SqlTokens
  import opened SqlKeyword
  import opened SqlSplit
  import opened SqlGrammar
  import opened SqlRoundTrip

  // ---- Characters that separators do not have --------------------------------------------------------

  function Letters(s: string): nat {
    if s == "" then 0 else (if s[0] == '\n' || s[0] == ';' then 0 else 1) + Letters(s[1..])
  }

  function LettersOf(out: seq<string>): nat {
    if out == [] then 0 else Letters(out[0]) + LettersOf(out[1..])
  }

  lemma {:induction false} LettersAdd(a: string, b: string)
    ensures Letters(a + b) == Letters(a) + Letters(b)
  {
    if a == "" {
      assert a + b == b;
    } else {
      LettersAdd(a[1..], b);
      assert (a + b)[1..] == a[1..] + b;
    }
  }

  lemma {:induction false} LettersOfAdd(a: seq<string>, b: seq<string>)
    ensures LettersOf(a + b) == LettersOf(a) + LettersOf(b)
  {
    if a == [] {
      assert a + b == b;
    } else {
      LettersOfAdd(a[1..], b);
      assert (a + b)[1..] == a[1..] + b;
    }
  }

  lemma KeptLetters(raw: string)
    ensures LettersOf(Kept(raw)) <= Letters(raw)
  {
    var before, after := TrimParts(raw);
    LettersAdd(before, Trim(raw));
    LettersAdd(before + Trim(raw), after);
    assert LettersOf([]) == 0 && LettersOf([Trim(raw)]) == Letters(Trim(raw));
  }

  lemma {:induction false} JoinLetters(out: seq<string>)
    ensures Letters(Join(out)) == LettersOf(out)
    decreases |out|
  {
    if |out| > 1 {
      JoinLetters(out[1..]);
      LettersAdd("\n", Join(out[1..]));
      LettersAdd("\n;", "\n" + Join(out[1..]));
      LettersAdd(out[0], "\n;" + ("\n" + Join(out[1..])));
      assert Letters("\n;") == 0 && Letters("\n") == 0;
    } else if |out| == 1 {
      assert LettersOf(out[1..]) == 0;
    }
  }

  /** The characters of the tokens that are not directives. */
  function LettersLeft(ts: seq<Token>): nat {
    if ts == [] then 0 else (if ts[0].Directs? then 0 else Letters(ts[0].text)) + LettersLeft(ts[1..])
  }

  lemma {:induction false} StatementLetters(ts: seq<Token>, cur: string)
    ensures LettersOf(Statements(Chunks(ts, cur))) <= Letters(cur) + LettersLeft(ts)
    decreases |ts|
  {
    KeptLetters(cur);
    if ts == [] {
      assert Statements([Raw(cur)]) == Kept(cur) + Statements([]);
      LettersOfAdd(Kept(cur), []);
    } else if ts[0].Piece? {
      StatementLetters(ts[1..], cur + ts[0].text);
      LettersAdd(cur, ts[0].text);
    } else {
      StatementLetters(ts[1..], "");
      var rest := Chunks(ts[1..], "");
      SeparatedStatements(cur, ts[0].text, rest);
      LettersOfAdd(Kept(cur), Statements(rest));
    }
  }

  lemma DirectiveLetters(u: string)
    requires DirectiveAt(u).Some?
    ensures Letters(u[..DirectiveAt(u).value.len]) > 0
  {
    var b := TabOrSpaceRun(u, 0);
    var t := u[..DirectiveAt(u).value.len];
    assert WordAt(u, b) && Upper(u[b + 0]) == DIRECTIVE_WORD[0];
    assert t == t[..b] + t[b..];
    LettersAdd(t[..b], t[b..]);
    assert t[b..][0] == u[b] && u[b] != '\n' && u[b] != ';';
  }

  lemma {:induction false} LexLetters(u: string, bol: bool, blank: bool, delim: string)
    requires delim != ""
    ensures var ts := Lex(u, bol, blank, delim);
            LettersLeft(ts) <= Letters(u) && (!NoDirective(ts) ==> LettersLeft(ts) < Letters(u))
    decreases |u|
  {
    if u != "" {
      var t, rest := LexFirst(u, bol, blank, delim);
      var more := Lex(rest, StartsLineAfter(t), BlankAfter(t, blank), DelimiterAfter(t, delim));
      LexLetters(rest, StartsLineAfter(t), BlankAfter(t, blank), DelimiterAfter(t, delim));
      LettersAdd(t.text, rest);
      LeftFirst(Lex(u, bol, blank, delim), t, more);
      if t.Directs? {
        DirectiveLetters(u);
      }
    }
  }

  lemma LeftFirst(ts: seq<Token>, t: Token, more: seq<Token>)
    requires ts == [t] + more
    ensures LettersLeft(ts) == (if t.Directs? then 0 else Letters(t.text)) + LettersLeft(more)
    ensures NoDirective(ts) <==> !t.Directs? && NoDirective(more)
  {
    assert ts[1..] == more;
    assert forall i :: 0 <= i < |more| ==> ts[i + 1] == more[i];
  }

  /** A script in which a directive fires has more characters than its statements, line feeds and
      semicolons apart. */
  lemma DirectiveTakesLetters(script: string)
    requires !NoDirective(TokensOf(script))
    ensures LettersOf(Split(script)) < Letters(script)
  {
    LexLetters(script, true, true, ";");
    StatementLetters(TokensOf(script), "");
  }

  // ---- A directive among the statements fires --------------------------------------------------------

  /** What follows a directive line does not stop it from being one. */
  lemma DirectiveRemains(o: string, z: string)
    requires o != "" && Tight(o) && (z == "" || z[0] == '\n') && DirectiveAt(o).Some?
    ensures DirectiveAt(o + z).Some?
  {
    BlankRunLocal(o, z, 0);
    WordLocalAt(o, z, TabOrSpaceRun(o, 0));
    var w := TabOrSpaceRun(o, 0) + |DIRECTIVE_WORD|;
    BlankRunLocal(o, z, w);
    var c := TabOrSpaceRun(o, w);
    NonSpaceRunLocal(o, z, c);
    var d := NonSpaceRun(o, c);
    BlankRunLocal(o, z, d);
    var e := TabOrSpaceRun(o, d);
    if e < |o| {
      LineEndLocal(o, z, e);
    }
  }

  lemma WordLocalAt(o: string, z: string, j: nat)
    requires WordAt(o, j)
    ensures WordAt(o + z, j)
  {
  }

  lemma QuietUncons(u: string, bol: bool, blank: bool) returns (t: Token, rest: string)
    requires u != "" && Quiet(u, bol, blank)
    ensures t == First(u, bol, blank, ";") && !t.Directs? && rest == u[|t.text|..] && |rest| < |u|
    ensures Quiet(rest, StartsLineAfter(t), BlankAfter(t, blank))
  {
    var ts;
    t, rest, ts := LexSteps(u, bol, blank);
    LeftFirst(Lex(u, bol, blank, ";"), t, ts);
  }

  /** Without a directive before its end, a raw statement is followed by what stands after its delimiter. */
  lemma {:induction false} QuietBeyond(u: string, bol: bool, blank: bool, n: nat, tail: string)
    requires Quiet(u, bol, blank) && n == Scan(u) && n < |u| && tail == u[n + 1..]
    ensures Quiet(tail, false, true)
    decreases |u|
  {
    var t, rest := QuietUncons(u, bol, blank);
    if t.Piece? {
      var k, left := PieceEnds(u, bol, blank, t, rest, n, tail);
      QuietBeyond(rest, StartsLineAfter(t), BlankAfter(t, blank), left, tail);
    } else {
      DelimiterEnds(u, bol, blank, t);
    }
  }

  lemma DelimiterEnds(u: string, bol: bool, blank: bool, t: Token)
    requires u != "" && t == First(u, bol, blank, ";") && t.Delimits?
    ensures t.text == ";" && Scan(u) == 0
  {
    SemicolonStep(u, bol, blank);
  }

  lemma PieceEnds(u: string, bol: bool, blank: bool, t: Token, rest: string, n: nat, tail: string) returns (k: nat, left: nat)
    requires u != "" && t == First(u, bol, blank, ";") && t.Piece? && rest == u[|t.text|..]
    requires n == Scan(u) && n < |u| && tail == u[n + 1..]
    ensures k == |t.text| && n == k + left && left == Scan(rest) && left < |rest| && tail == rest[left + 1..]
  {
    SemicolonStep(u, bol, blank);
    k := |t.text|;
    left := n - k;
    TailWithin(u, k, n);
  }

  lemma QuietLine(y: string)
    requires Quiet("\n" + y, false, true)
    ensures Quiet(y, true, true)
  {
    var u := "\n" + y;
    var t, rest := QuietUncons(u, false, true);
    NewlineFirst(u, y);
  }

  lemma QuietStarts(u: string)
    requires Quiet(u, true, true)
    ensures DirectiveAt(u).None?
  {
    if u != "" {
      var t, rest := QuietUncons(u, true, true);
    }
  }

  lemma FirstStarts(o: string, y: string, u: string)
    requires Whole(o) && u == o + ("\n;" + y) && Quiet(u, true, true)
    ensures DirectiveAt(o).None?
  {
    WholeStarts(o);
    QuietStarts(u);
    if DirectiveAt(o).Some? {
      DirectiveRemains(o, "\n;" + y);
    }
  }

  lemma QuietFirst(o: string, y: string)
    requires Whole(o) && Closable(o) && Quiet(o + ("\n;" + y), true, true)
    ensures DirectiveAt(o).None? && Quiet(y, false, true)
  {
    var u, n := o + ("\n;" + y), |o| + 1;
    FirstStarts(o, y, u);
    JoinedSlices("", o, y, u, n);
    QuietBeyond(u, true, true, n, y);
  }

  lemma NoneDirectsCons(o: string, rest: seq<string>, out: seq<string>)
    requires out == [o] + rest && DirectiveAt(o).None? && NoneDirects(rest)
    ensures NoneDirects(out)
  {
    forall i | 0 <= i < |out| ensures DirectiveAt(out[i]).None? {
      assert i > 0 ==> out[i] == rest[i - 1];
    }
  }

  lemma JoinParts(out: seq<string>) returns (o: string, rest: seq<string>, last: string)
    requires Rejoinable(out) && |out| > 1
    ensures out == [o] + rest && |rest| < |out| && Whole(o) && Closable(o) && Rejoinable(rest)
    ensures last == Join(rest) && Join(out) == o + ("\n;" + ("\n" + last))
  {
    o, rest := out[0], out[1..];
    last := Join(rest);
  }

  lemma {:induction false} QuietJoin(out: seq<string>)
    requires Rejoinable(out) && Quiet(Join(out), true, true)
    ensures NoneDirects(out)
    decreases |out|
  {
    if |out| > 1 {
      var o, rest, last := JoinParts(out);
      QuietFirst(o, "\n" + last);
      QuietLine(last);
      QuietJoin(rest);
      NoneDirectsCons(o, rest, out);
    } else if out != [] {
      QuietStarts(out[0]);
    }
  }

  // ---- The round trip ----------------------------------------------------------------------------------

  /** Statements that a splitting kept come back from their join if and only if none reads as a directive. */
  lemma RejoinIff(out: seq<string>)
    requires Rejoinable(out)
    ensures Split(Join(out)) == out <==> NoneDirects(out)
  {
    if NoneDirects(out) {
      JoinQuiet(out);
      SplitIsKept(Join(out));
      JoinedKept(out, "");
      assert "" + Join(out) == Join(out);
    } else if Split(Join(out)) == out {
      if Quiet(Join(out), true, true) {
        QuietJoin(out);
      } else {
        DirectiveTakesLetters(Join(out));
        JoinLetters(out);
      }
    }
  }

  /** For a script in which no DELIMITER directive fires, joining its statements with "\n;\n" and splitting
      again gives the same statements if and only if none of them reads as a directive: also those that
      end in a line comment, and a last one with an unterminated literal. */
  lemma SplitJoinIff(script: string)
    requires NoDirective(TokensOf(script))
    ensures Split(Join(Split(script))) == Split(script) <==> NoneDirects(Split(script))
  {
    SplitIsKept(script);
    KeptRejoins(script);
    RejoinIff(Split(script));
  }

  /** A single statement survives being split again if and only if it does not read as a directive. */
  lemma StatementSplitsIff(o: string)
    requires Whole(o)
    ensures Split(Join([o])) == [o] <==> DirectiveAt(o).None?
  {
    RejoinIff([o]);
  }
}
