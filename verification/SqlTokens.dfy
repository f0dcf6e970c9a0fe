/** Tokens of a console script (frontend/src/lib/sql.ts, splitStatements): where the scanner ends a
    literal, a comment, a dollar quote or a plain character, and the grammar that this agrees with. */
module SqlTokens {
  import opened Wrappers
  import opened SqlText

  datatype Kind = Quoted | LineComment | BlockComment | DollarQuoted | Plain

  const BLOCK_CLOSE := "*/"

  predicate QuoteMark(c: char) {
    c == '\'' || c == '"' || c == '`'
  }

  predicate IdentStart(c: char) {
    'A' <= c <= 'Z' || 'a' <= c <= 'z' || c == '_'
  }

  predicate IdentChar(c: char) {
    IdentStart(c) || '0' <= c <= '9'
  }

  // ---- The scanner ---------------------------------------------------------------------------

  function IdentRun(u: string, j: nat): (e: nat)
    requires j <= |u|
    ensures j <= e <= |u| && (forall k :: j <= k < e ==> IdentChar(u[k])) && (e < |u| ==> !IdentChar(u[e]))
    decreases |u| - j
  {
    if j < |u| && IdentChar(u[j]) then IdentRun(u, j + 1) else j
  }

  /** How long the dollar-quote tag at the start of u is; 0 if there is none. */
  function TagLen(u: string): (n: nat)
    ensures n <= |u| && n != 1
  {
    if u == "" || u[0] != '$' then 0
    else if |u| > 1 && u[1] == '$' then 2
    else if |u| > 1 && IdentStart(u[1]) && IdentRun(u, 2) < |u| && u[IdentRun(u, 2)] == '$' then IdentRun(u, 2) + 1
    else 0
  }

  /** Where the literal that u starts with ends, scanning on from j. */
  function QuoteEnd(u: string, j: nat): (e: nat)
    requires u != ""
    ensures e <= |u| && (j <= |u| ==> j <= e)
    decreases |u| - j
  {
    if j >= |u| then |u|
    else if u[j] == '\\' && u[0] == '\'' then QuoteEnd(u, j + 2)
    else if u[j] == u[0] then if j + 1 < |u| && u[j + 1] == u[0] then QuoteEnd(u, j + 2) else j + 1
    else QuoteEnd(u, j + 1)
  }

  predicate Opens(u: string, a: char, b: char) {
    |u| >= 2 && u[0] == a && u[1] == b
  }

  predicate OpensLineComment(u: string) {
    Opens(u, '-', '-') || (u != "" && u[0] == '#')
  }

  predicate OpensBlockComment(u: string) {
    Opens(u, '/', '*')
  }

  function LineCommentLen(u: string): (n: nat)
    ensures n <= |u|
  {
    match IndexOf(u, "\n", 0) case None => |u| case Some(j) => j
  }

  /** The length of a token that opens with n characters and is searched for close from there. */
  function DelimitedLen(u: string, n: nat, close: string): (r: nat)
    requires n <= |u|
    ensures n <= r <= |u|
  {
    match IndexOf(u, close, n) case None => |u| case Some(j) => j + |close|
  }

  function KindOf(u: string): Kind
    requires u != ""
  {
    if QuoteMark(u[0]) then Quoted
    else if OpensLineComment(u) then LineComment
    else if OpensBlockComment(u) then BlockComment
    else if TagLen(u) > 0 then DollarQuoted
    else Plain
  }

  /** How much of u its first token takes. */
  function Tok(u: string): (n: nat)
    requires u != ""
    ensures 0 < n <= |u|
  {
    match KindOf(u)
    case Quoted => QuoteEnd(u, 1)
    case LineComment => LineCommentTakesOne(u); LineCommentLen(u)
    case BlockComment => DelimitedLen(u, 2, BLOCK_CLOSE)
    case DollarQuoted => DelimitedLen(u, TagLen(u), u[..TagLen(u)])
    case Plain => 1
  }

  lemma NewlineAt(u: string, k: nat)
    ensures OccursAt(u, "\n", k) <==> k < |u| && u[k] == '\n'
  {
    if k < |u| {
      assert u[k..k + 1] == [u[k]];
    }
  }

  lemma LineCommentTakesOne(u: string)
    requires OpensLineComment(u)
    ensures LineCommentLen(u) > 0
  {
    NewlineAt(u, 0);
  }

  // ---- The grammar ---------------------------------------------------------------------------

  /** The inside of a closed literal: doubled quotes and, in single quotes, backslash escapes. */
  predicate Units(s: string, q: char) {
    if s == "" then true
    else if (s[0] == '\\' && q == '\'') || s[0] == q then |s| >= 2 && (s[0] == q ==> s[1] == q) && Units(s[2..], q)
    else Units(s[1..], q)
  }

  /** The inside of a literal that the script ends in; it may end in a lone backslash. */
  predicate OpenUnits(s: string, q: char) {
    if s == "" || (s == "\\" && q == '\'') then true
    else if (s[0] == '\\' && q == '\'') || s[0] == q then |s| >= 2 && (s[0] == q ==> s[1] == q) && OpenUnits(s[2..], q)
    else OpenUnits(s[1..], q)
  }

  predicate IsQuoted(t: string, rest: string) {
    && t != "" && QuoteMark(t[0])
    && (|| (|t| >= 2 && t[|t| - 1] == t[0] && Units(t[1..|t| - 1], t[0]) && (rest != "" ==> rest[0] != t[0]))
        || (rest == "" && OpenUnits(t[1..], t[0])))
  }

  predicate IsLineComment(t: string, rest: string) {
    && OpensLineComment(t)
    && (forall i :: 0 <= i < |t| ==> t[i] != '\n') && (rest != "" ==> rest[0] == '\n')
  }

  /** t opens with n characters and ends at the first later occurrence of close, or with the script. */
  predicate Delimited(t: string, rest: string, n: nat, close: string) {
    || (n + |close| <= |t| && OccursAt(t, close, |t| - |close|) && forall k: nat :: n <= k < |t| - |close| ==> !OccursAt(t, close, k))
    || (rest == "" && n <= |t| && forall k: nat :: n <= k < |t| ==> !OccursAt(t, close, k))
  }

  predicate IsBlockComment(t: string, rest: string) {
    OpensBlockComment(t) && Delimited(t, rest, 2, BLOCK_CLOSE)
  }

  predicate IsTag(tag: string) {
    && |tag| >= 2 && tag[0] == '$' && tag[|tag| - 1] == '$'
    && (|tag| > 2 ==> IdentStart(tag[1])) && (forall k :: 1 <= k < |tag| - 1 ==> IdentChar(tag[k]))
  }

  predicate IsDollarQuoted(t: string, rest: string) {
    exists n: nat :: n <= |t| && IsTag(t[..n]) && Delimited(t, rest, n, t[..n])
  }

  /** A character that begins none of the above. */
  predicate IsPlain(t: string, rest: string) {
    && |t| == 1 && !QuoteMark(t[0]) && !OpensLineComment(t + rest) && !OpensBlockComment(t + rest)
    && forall n: nat :: n <= |t + rest| ==> !IsTag((t + rest)[..n])
  }

  predicate IsToken(kind: Kind, t: string, rest: string) {
    match kind
    case Quoted => IsQuoted(t, rest)
    case LineComment => IsLineComment(t, rest)
    case BlockComment => IsBlockComment(t, rest)
    case DollarQuoted => IsDollarQuoted(t, rest)
    case Plain => IsPlain(t, rest)
  }

  // ---- The scanner's tokens are the grammar's ------------------------------------------------

  lemma TagIff(u: string, n: nat)
    requires n <= |u|
    ensures IsTag(u[..n]) <==> n > 0 && n == TagLen(u)
  {
    var tag := u[..n];
    if IsTag(tag) {
      assert u[0] == '$' && u[n - 1] == tag[n - 1] == '$';
      if n > 2 {
        assert u[1] == tag[1];
        var e := IdentRun(u, 2);
        assert forall k :: 1 <= k < n - 1 ==> u[k] == tag[k] && IdentChar(u[k]);
      }
    }
  }

  lemma OccursInPrefix(u: string, n: nat, pat: string, k: nat)
    requires n <= |u|
    ensures OccursAt(u[..n], pat, k) <==> k + |pat| <= n && OccursAt(u, pat, k)
  {
    if k + |pat| <= n {
      assert u[..n][k..k + |pat|] == u[k..k + |pat|];
    }
  }

  /** A delimited token ends where the search for its closing mark says. */
  lemma DelimitedIff(u: string, n: nat, open: nat, close: string)
    requires open <= n <= |u| && 0 < |close|
    ensures Delimited(u[..n], u[n..], open, close)
       <==> n == DelimitedLen(u, open, close)
  {
    var t := u[..n];
    forall k: nat ensures OccursAt(t, close, k) <==> k + |close| <= n && OccursAt(u, close, k) {
      OccursInPrefix(u, n, close, k);
    }
    assert u[n..] == "" <==> n == |u|;
    var found := IndexOf(u, close, open);
    if found.Some? && open + |close| <= n && OccursAt(u, close, n - |close|) {
      assert found.value <= n - |close|;
    }
  }

  lemma {:induction false} QuoteIff(u: string, j: nat, n: nat)
    requires 1 <= j <= |u| && n <= |u|
    ensures n == QuoteEnd(u, j)
       <==> || (j < n && u[n - 1] == u[0] && Units(u[j..n - 1], u[0]) && (n < |u| ==> u[n] != u[0]))
            || (n == |u| && OpenUnits(u[j..], u[0]))
    decreases |u| - j
  {
    var q := u[0];
    if j < |u| {
      var step := if (u[j] == '\\' && q == '\'') || (u[j] == q && j + 1 < |u| && u[j + 1] == q) then 2 else 1;
      if j + step <= |u| {
        QuoteIff(u, j + step, n);
        assert u[j..][step..] == u[j + step..];
      }
      if j + step < n {
        assert u[j..n - 1][step..] == u[j + step..n - 1];
      }
      assert u[j..][0] == u[j];
      if j < n - 1 {
        assert u[j..n - 1][0] == u[j];
      }
    }
  }

  lemma QuotedIff(u: string, n: nat)
    requires 0 < n <= |u|
    ensures IsQuoted(u[..n], u[n..]) <==> QuoteMark(u[0]) && n == QuoteEnd(u, 1)
  {
    QuoteIff(u, 1, n);
    assert u[..n][0] == u[0];
    if n >= 2 {
      assert u[..n][1..n - 1] == u[1..n - 1];
    }
    if n == |u| {
      assert u[..n][1..] == u[1..];
    }
  }

  /** The end of the line that u starts in. */
  lemma LineEndIff(u: string, n: nat)
    requires 0 < n <= |u| && u[0] != '\n'
    ensures (forall i :: 0 <= i < n ==> u[i] != '\n') && (n < |u| ==> u[n] == '\n')
       <==> n == LineCommentLen(u)
  {
    forall k: nat ensures OccursAt(u, "\n", k) <==> k < |u| && u[k] == '\n' {
      NewlineAt(u, k);
    }
  }

  lemma LineCommentIff(u: string, n: nat)
    requires 0 < n <= |u|
    ensures IsLineComment(u[..n], u[n..]) <==> OpensLineComment(u) && n == LineCommentLen(u)
  {
    var t := u[..n];
    assert forall i :: 0 <= i < n ==> t[i] == u[i];
    if OpensLineComment(u) {
      LineEndIff(u, n);
    }
  }

  lemma BlockCommentIff(u: string, n: nat)
    requires 0 < n <= |u|
    ensures IsBlockComment(u[..n], u[n..]) <==> OpensBlockComment(u) && n == DelimitedLen(u, 2, BLOCK_CLOSE)
  {
    if n >= 2 {
      DelimitedIff(u, n, 2, BLOCK_CLOSE);
    }
  }

  lemma DollarQuotedIff(u: string, n: nat)
    requires 0 < n <= |u|
    ensures IsDollarQuoted(u[..n], u[n..]) <==> TagLen(u) > 0 && n == DelimitedLen(u, TagLen(u), u[..TagLen(u)])
  {
    var t, g := u[..n], TagLen(u);
    forall m: nat | m <= n ensures t[..m] == u[..m] && (IsTag(t[..m]) <==> m > 0 && m == g) {
      assert t[..m] == u[..m];
      TagIff(u, m);
    }
    if 0 < g <= n {
      DelimitedIff(u, n, g, u[..g]);
      assert IsTag(t[..g]);
    }
  }

  lemma PlainIff(u: string, n: nat)
    requires 0 < n <= |u|
    ensures IsPlain(u[..n], u[n..]) <==> KindOf(u) == Plain && n == 1
  {
    assert u[..n] + u[n..] == u;
    forall m: nat | m <= |u| ensures IsTag(u[..m]) <==> m > 0 && m == TagLen(u) {
      TagIff(u, m);
    }
    if TagLen(u) > 0 {
      assert IsTag(u[..TagLen(u)]);
    }
  }

  /** The scanner's next token is the grammar's: a non-empty prefix of u is a token before the rest of
      u exactly when it is the prefix the scanner takes, and then of the one kind the scanner sees. */
  lemma TokenIff(u: string, n: nat, kind: Kind)
    requires 0 < n <= |u|
    ensures IsToken(kind, u[..n], u[n..]) <==> kind == KindOf(u) && n == Tok(u)
  {
    match kind
    case Quoted => QuotedIff(u, n);
    case LineComment => LineCommentIff(u, n);
    case BlockComment => BlockCommentIff(u, n);
    case DollarQuoted => DollarQuotedIff(u, n);
    case Plain => PlainIff(u, n);
  }

  /** A line comment takes the rest of its line. */
  lemma LineCommentEnd(u: string)
    requires u != "" && KindOf(u).LineComment?
    ensures (forall i :: 0 <= i < Tok(u) ==> u[i] != '\n') && (Tok(u) < |u| ==> u[Tok(u)] == '\n')
  {
    LineEndIff(u, Tok(u));
  }
}
