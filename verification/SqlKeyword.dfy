/** The first keyword of a statement (frontend/src/lib/sql.ts, leadingKeyword), and when skipping
    comments its way agrees with the grammar's comments. */
module SqlKeyword {
  import opened Wrappers
  import opened SqlText
  import opened SqlTokens

  function Upper(c: char): char {
    if 'a' <= c <= 'z' then (c as int - 32) as char else c
  }

  function UpperAll(s: string): (r: string)
    ensures |r| == |s| && forall i :: 0 <= i < |s| ==> r[i] == Upper(s[i])
  {
    seq(|s|, i requires 0 <= i < |s| => Upper(s[i]))
  }

  /** The word at the start of s, in capitals; empty if s starts with anything else. */
  function Word(s: string): string {
    UpperAll(s[..IdentRun(s, 0)])
  }

  predicate Skippable(c: char) {
    Space(c) || c == '('
  }

  function SkipRun(s: string): (r: string)
    ensures |r| <= |s| && (r != "" ==> !Skippable(r[0]))
  {
    if s != "" && Skippable(s[0]) then SkipRun(s[1..]) else s
  }

  predicate LineEnd(c: char) {
    c == '\r' || c == '\n'
  }

  /** The first line end of s at or after from. */
  function LineEndIn(s: string, from: nat): (r: Option<nat>)
    requires from <= |s|
    ensures r.Some? ==> from <= r.value < |s| && LineEnd(s[r.value]) && forall k :: from <= k < r.value ==> !LineEnd(s[k])
    ensures r.None? ==> forall k :: from <= k < |s| ==> !LineEnd(s[k])
    decreases |s| - from
  {
    if from == |s| then None else if LineEnd(s[from]) then Some(from) else LineEndIn(s, from + 1)
  }

  predicate IsComment(s: string) {
    OpensLineComment(s) || OpensBlockComment(s)
  }

  /** What follows the comment that s starts with, or None if it never ends: a line comment ends
      with its line, and the end of a block comment is looked for from its very first character. */
  function SkipComment(s: string): (r: Option<string>)
    requires IsComment(s)
    ensures r.Some? ==> |r.value| < |s|
  {
    if OpensLineComment(s) then
      match LineEndIn(s, 0) case None => None case Some(i) => Some(s[i + 1..])
    else
      match IndexOf(s, BLOCK_CLOSE, 0) case None => None case Some(i) => Some(s[i + 2..])
  }

  function LeadingKeyword(sql: string): string
    decreases |sql|
  {
    var s := SkipRun(sql);
    if IsComment(s) then
      match SkipComment(s) case None => "" case Some(rest) => LeadingKeyword(rest)
    else Word(s)
  }

  method FindLeadingKeyword(sql: string) returns (kw: string)
    ensures kw == LeadingKeyword(sql)
  {
    var s := sql;
    while true
      invariant LeadingKeyword(s) == LeadingKeyword(sql)
      decreases |s|
    {
      s := SkipRun(s);
      if OpensLineComment(s) {
        var i := LineEndIn(s, 0);
        if i.None? {
          return "";
        }
        s := s[i.value + 1..];
        continue;
      }
      if OpensBlockComment(s) {
        var i := IndexOf(s, BLOCK_CLOSE, 0);
        if i.None? {
          return "";
        }
        s := s[i.value + 2..];
        continue;
      }
      break;
    }
    kw := Word(s);
  }

  /** A word after spaces, tabs, line feeds and opening brackets is the keyword, in capitals. */
  lemma {:induction false} WordIsKeyword(before: string, word: string, rest: string)
    requires forall i :: 0 <= i < |before| ==> before[i] in " \t\n("
    requires word != "" && !('0' <= word[0] <= '9')
    requires forall i :: 0 <= i < |word| ==> 'A' <= word[i] <= 'Z' || 'a' <= word[i] <= 'z' || word[i] == '_' || '0' <= word[i] <= '9'
    requires rest != "" ==> rest[0] in " \t\n(;,*'"
    ensures |LeadingKeyword(before + word + rest)| == |word|
    ensures forall i :: 0 <= i < |word| ==>
              LeadingKeyword(before + word + rest)[i] == if 'a' <= word[i] <= 'z' then word[i] - 'a' + 'A' else word[i]
  {
    var s := word + rest;
    assert before + word + rest == before + s;
    SkipsAll(before, s);
    WordEnds(word, rest);
  }

  lemma {:induction false} SkipsAll(before: string, s: string)
    requires (forall i :: 0 <= i < |before| ==> before[i] in " \t\n(") && s != "" && !Skippable(s[0])
    ensures SkipRun(before + s) == s
  {
    if before == "" {
      assert before + s == s;
    } else {
      assert (before + s)[1..] == before[1..] + s;
      SkipsAll(before[1..], s);
    }
  }

  lemma WordEnds(word: string, rest: string)
    requires word != "" && IdentStart(word[0]) && (forall i :: 0 <= i < |word| ==> IdentChar(word[i]))
    requires rest != "" ==> !IdentChar(rest[0])
    ensures IdentRun(word + rest, 0) == |word| && (word + rest)[..|word|] == word
  {
    var u := word + rest;
    var e := IdentRun(u, 0);
    assert forall k :: 0 <= k < |word| ==> u[k] == word[k];
    assert |word| < |u| ==> u[|word|] == rest[0];
    assert e <= |word|;
  }

  // ---- Against the grammar's comments ---------------------------------------------------------

  /** The length of the comment that s starts with, by the grammar. */
  function CommentLen(s: string): (n: nat)
    requires IsComment(s)
    ensures 0 < n <= |s|
  {
    if OpensLineComment(s) then LineCommentTakesOne(s); LineCommentLen(s) else DelimitedLen(s, 2, BLOCK_CLOSE)
  }

  /** ... is that of the token it starts with. */
  lemma CommentIsToken(s: string)
    requires IsComment(s)
    ensures CommentLen(s) == Tok(s) && KindOf(s) == if OpensLineComment(s) then LineComment else BlockComment
  {
  }

  /** The first keyword once white space, "(" and the grammar's comments are gone. */
  function GrammarKeyword(sql: string): string
    decreases |sql|
  {
    var s := SkipRun(sql);
    if IsComment(s) then GrammarKeyword(s[CommentLen(s)..]) else Word(s)
  }

  predicate AllSkippable(s: string) {
    forall i :: 0 <= i < |s| ==> Skippable(s[i])
  }

  /** The first carriage return of s at or after from and before n, or n. */
  function FirstReturn(s: string, from: nat, n: nat): (r: nat)
    requires from <= n <= |s|
    ensures from <= r <= n && (r < n ==> s[r] == '\r') && forall k :: from <= k < r ==> s[k] != '\r'
    decreases n - from
  {
    if from == n || s[from] == '\r' then from else FirstReturn(s, from + 1, n)
  }

  /** The comment that s starts with is one that leadingKeyword skips as a whole: a line comment with
      nothing to read after a carriage return, or a block comment that does not open with a slash. */
  predicate SkippedWhole(s: string)
    requires IsComment(s)
  {
    var n := CommentLen(s);
    if OpensLineComment(s) then FirstReturn(s, 0, n) < n ==> AllSkippable(s[FirstReturn(s, 0, n) + 1..n])
    else OccursAt(s, "/*/", 0) ==> IndexOf(s, BLOCK_CLOSE, 2).None? && AllSkippable(s[3..])
  }

  function RestAfterComment(s: string): string
    requires IsComment(s)
  {
    match SkipComment(s) case None => "" case Some(rest) => rest
  }

  lemma {:induction false} SkipOver(w: string, s: string)
    requires AllSkippable(w)
    ensures SkipRun(w + s) == SkipRun(s)
  {
    if w == "" {
      assert w + s == s;
    } else {
      assert (w + s)[1..] == w[1..] + s;
      SkipOver(w[1..], s);
    }
  }

  /** A skip stops at a character that is not skippable, so it keeps what follows it. */
  lemma {:induction false} SkipStops(s: string, k: nat)
    requires k < |s| && !Skippable(s[k])
    ensures |SkipRun(s)| >= |s| - k
  {
    if k > 0 && Skippable(s[0]) {
      SkipStops(s[1..], k - 1);
    }
  }

  /** Skipping to the end of a longer or shorter comment leads to the same place exactly when only
      skippable characters lie between the two ends. */
  lemma SkipsAlikeIff(s: string, a: nat, b: nat)
    requires a <= b <= |s|
    ensures SkipRun(s[a..]) == SkipRun(s[b..]) <==> AllSkippable(s[a..b])
  {
    assert s[a..] == s[a..b] + s[b..];
    if AllSkippable(s[a..b]) {
      SkipOver(s[a..b], s[b..]);
    } else {
      var k :| 0 <= k < |s[a..b]| && !Skippable(s[a..b][k]);
      assert s[a..][k] == s[a..b][k];
      SkipStops(s[a..], k);
    }
  }

  lemma LineEndAt(s: string, n: nat, r: nat)
    requires r <= n <= |s| && (n < |s| ==> s[n] == '\n')
    requires (forall k :: 0 <= k < r ==> !LineEnd(s[k])) && (r < n ==> s[r] == '\r')
    ensures LineEndIn(s, 0) == if r < n then Some(r) else if n < |s| then Some(n) else None
  {
  }

  /** The first line end is the comment's first carriage return, or the line feed right after it. */
  lemma LineEndOfComment(s: string)
    requires IsComment(s) && OpensLineComment(s)
    ensures var n := CommentLen(s);
            var r := FirstReturn(s, 0, n);
            && (n < |s| ==> s[n] == '\n')
            && LineEndIn(s, 0) == if r < n then Some(r) else if n < |s| then Some(n) else None
  {
    CommentIsToken(s);
    LineCommentEnd(s);
    var n := CommentLen(s);
    var r := FirstReturn(s, 0, n);
    LineEndAt(s, n, r);
  }

  lemma LineCommentSkippedIff(s: string)
    requires IsComment(s) && OpensLineComment(s)
    ensures SkipRun(RestAfterComment(s)) == SkipRun(s[CommentLen(s)..]) <==> SkippedWhole(s)
  {
    LineEndOfComment(s);
    var n := CommentLen(s);
    var r := FirstReturn(s, 0, n);
    if r < n {
      SkipsAlikeIff(s, r + 1, n);
    } else if n < |s| {
      SkipsAlikeIff(s, n, n + 1);
    }
  }

  lemma BlockCommentSkippedIff(s: string)
    requires IsComment(s) && OpensBlockComment(s)
    ensures SkipRun(RestAfterComment(s)) == SkipRun(s[CommentLen(s)..]) <==> SkippedWhole(s)
  {
    PairAt(s, BLOCK_CLOSE, 0);
    PairAt(s, BLOCK_CLOSE, 1);
    if |s| >= 3 {
      assert s[0..3] == [s[0], s[1], s[2]];
    }
    if OccursAt(s, BLOCK_CLOSE, 1) {
      SlashAfterOpen(s);
    } else {
      SameSearch(s);
    }
  }

  /** When a slash follows the opening mark, the grammar's comment goes on to its own closing mark. */
  lemma SlashAfterOpen(s: string)
    requires IsComment(s) && OpensBlockComment(s) && |s| >= 3 && s[2] == '/'
    ensures SkipRun(s[3..]) == SkipRun(s[CommentLen(s)..])
       <==> IndexOf(s, BLOCK_CLOSE, 2).None? && AllSkippable(s[3..])
  {
    var n, close := CommentLen(s), IndexOf(s, BLOCK_CLOSE, 2);
    if close.Some? {
      SlashBeforeClose(s, close.value);
    } else {
      SkipsAlikeIff(s, 3, n);
      assert s[3..n] == s[3..];
    }
  }

  lemma SlashBeforeClose(s: string, j: nat)
    requires |s| >= 3 && s[2] == '/' && j >= 2 && OccursAt(s, BLOCK_CLOSE, j)
    ensures SkipRun(s[3..]) != SkipRun(s[j + 2..])
  {
    PairAt(s, BLOCK_CLOSE, j);
    assert s[3..j + 2][j - 3] == '*';
    SkipsAlikeIff(s, 3, j + 2);
  }

  lemma SameSearch(s: string)
    requires !OccursAt(s, BLOCK_CLOSE, 0) && !OccursAt(s, BLOCK_CLOSE, 1)
    ensures IndexOf(s, BLOCK_CLOSE, 0) == IndexOf(s, BLOCK_CLOSE, 2)
  {
    var a, b := IndexOf(s, BLOCK_CLOSE, 0), IndexOf(s, BLOCK_CLOSE, 2);
    if a.Some? && b.Some? {
      assert a.value >= 2;
    }
  }

  /** One step of leadingKeyword leads past the grammar's comment exactly when the comment is skipped whole. */
  lemma CommentSkippedIff(s: string)
    requires IsComment(s)
    ensures SkipRun(RestAfterComment(s)) == SkipRun(s[CommentLen(s)..]) <==> SkippedWhole(s)
  {
    if OpensLineComment(s) {
      LineCommentSkippedIff(s);
    } else {
      BlockCommentSkippedIff(s);
    }
  }

  /** Every comment before the first keyword is skipped whole. */
  predicate PlainComments(sql: string)
    decreases |sql|
  {
    var s := SkipRun(sql);
    IsComment(s) ==> SkippedWhole(s) && PlainComments(s[CommentLen(s)..])
  }

  lemma KeywordAfterSkip(a: string, b: string)
    requires SkipRun(a) == SkipRun(b)
    ensures LeadingKeyword(a) == LeadingKeyword(b)
  {
  }

  /** leadingKeyword finds the first keyword past the grammar's comments when each of them is skipped whole. */
  lemma {:induction false} KeywordSkipsComments(sql: string)
    requires PlainComments(sql)
    ensures LeadingKeyword(sql) == GrammarKeyword(sql)
    decreases |sql|
  {
    var s := SkipRun(sql);
    if IsComment(s) {
      CommentSkippedIff(s);
      KeywordSkipsComments(s[CommentLen(s)..]);
      KeywordAfterSkip(RestAfterComment(s), s[CommentLen(s)..]);
      if SkipComment(s).None? {
        assert LeadingKeyword("") == "";
      }
    }
  }

  /** Text that starts with a word has that word as its keyword. */
  lemma WordFirst(s: string)
    requires s != "" && IdentChar(s[0])
    ensures LeadingKeyword(s) == GrammarKeyword(s) == Word(s) != ""
  {
    assert SkipRun(s) == s;
  }

  lemma TwoCloses(s: string)
    requires |s| >= 5 && s[0] == '/' && s[1] == '*' && s[2] == '/' && s[3] == '*' && s[4] == '/'
    ensures IndexOf(s, BLOCK_CLOSE, 0) == Some(1) && IndexOf(s, BLOCK_CLOSE, 2) == Some(3)
  {
    forall j | 0 <= j < 4 ensures OccursAt(s, BLOCK_CLOSE, j) <==> j == 1 || j == 3 {
      PairAt(s, BLOCK_CLOSE, j);
    }
  }

  lemma StarIsNoKeyword(s: string)
    requires s != "" && s[0] == '*'
    ensures LeadingKeyword(s) == ""
  {
    assert SkipRun(s) == s;
    assert IdentRun(s, 0) == 0;
  }

  /** A slash right after the opening mark hides the keyword that follows the comment. */
  lemma KeywordHidden(s: string)
    requires |s| > 5 && s[0] == '/' && s[1] == '*' && s[2] == '/' && s[3] == '*' && s[4] == '/' && IdentChar(s[5])
    ensures LeadingKeyword(s) == "" && GrammarKeyword(s) == Word(s[5..]) != ""
  {
    TwoCloses(s);
    assert SkipRun(s) == s && CommentLen(s) == 5;
    WordFirst(s[5..]);
    StarIsNoKeyword(s[3..]);
  }

  /** A carriage return inside a line comment gives the text after it as the keyword. */
  lemma KeywordInComment(s: string)
    requires |s| > 2 && s[0] == '#' && s[1] == '\r' && IdentChar(s[2])
    ensures LeadingKeyword(s) == Word(s[2..]) != "" && GrammarKeyword(s) == GrammarKeyword(s[LineCommentLen(s)..])
  {
    assert SkipRun(s) == s && LineEndIn(s, 0) == Some(1);
    WordFirst(s[2..]);
  }
}
