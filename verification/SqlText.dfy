/** The string operations the console's SQL scanner is written with (frontend/src/lib/sql.ts).
    Strings hold characters rather than UTF-16 units; no character the scanner looks for is a surrogate. */
module SqlText {
  import opened Wrappers

  /** JavaScript's white space and line terminators, which both \s and trim use. */
  predicate Space(c: char) {
    || c == ' ' || '\t' <= c <= '\r' || c == '\U{A0}' || c == '\U{1680}' || '\U{2000}' <= c <= '\U{200A}'
    || c == '\U{2028}' || c == '\U{2029}' || c == '\U{202F}' || c == '\U{205F}' || c == '\U{3000}' || c == '\U{FEFF}'
  }

  predicate AllSpace(s: string) {
    forall i :: 0 <= i < |s| ==> Space(s[i])
  }

  /** Nothing to trim at either end. */
  predicate Tight(s: string) {
    s != "" ==> !Space(s[0]) && !Space(s[|s| - 1])
  }

  function TrimStart(s: string): string {
    if s != "" && Space(s[0]) then TrimStart(s[1..]) else s
  }

  function TrimEnd(s: string): string {
    if s != "" && Space(s[|s| - 1]) then TrimEnd(s[..|s| - 1]) else s
  }

  function Trim(s: string): string {
    TrimEnd(TrimStart(s))
  }

  lemma {:induction false} TrimStartParts(s: string) returns (w: string)
    ensures s == w + TrimStart(s) && AllSpace(w) && (TrimStart(s) != "" ==> !Space(TrimStart(s)[0]))
  {
    if s != "" && Space(s[0]) {
      var w1 := TrimStartParts(s[1..]);
      w := [s[0]] + w1;
    } else {
      w := "";
    }
  }

  lemma {:induction false} TrimEndParts(s: string) returns (w: string)
    ensures s == TrimEnd(s) + w && AllSpace(w)
    ensures TrimEnd(s) != "" ==> !Space(TrimEnd(s)[|TrimEnd(s)| - 1])
  {
    if s != "" && Space(s[|s| - 1]) {
      var m, c := s[..|s| - 1], s[|s| - 1];
      var w1 := TrimEndParts(m);
      w := w1 + [c];
      assert s == m + [c] == TrimEnd(m) + w;
    } else {
      w := "";
    }
  }

  /** Trimming removes exactly the white space around a tight middle. */
  lemma TrimParts(s: string) returns (before: string, after: string)
    ensures s == before + Trim(s) + after && AllSpace(before) && AllSpace(after) && Tight(Trim(s))
  {
    before := TrimStartParts(s);
    var m := TrimStart(s);
    after := TrimEndParts(m);
    if Trim(s) != "" {
      assert Trim(s)[0] == m[0];
    }
  }

  lemma {:induction false} TrimStartOver(w: string, m: string)
    requires AllSpace(w) && (m != "" ==> !Space(m[0]))
    ensures TrimStart(w + m) == m
  {
    if w == "" {
      assert w + m == m;
    } else {
      assert (w + m)[1..] == w[1..] + m;
      TrimStartOver(w[1..], m);
    }
  }

  lemma {:induction false} TrimEndOver(m: string, w: string)
    requires AllSpace(w) && (m != "" ==> !Space(m[|m| - 1]))
    ensures TrimEnd(m + w) == m
  {
    if w == "" {
      assert m + w == m;
    } else {
      assert (m + w)[..|m + w| - 1] == m + w[..|w| - 1];
      TrimEndOver(m, w[..|w| - 1]);
    }
  }

  lemma TrimOver(before: string, m: string, after: string)
    requires AllSpace(before) && AllSpace(after) && Tight(m)
    ensures Trim(before + m + after) == m
  {
    if m == "" {
      TrimStartOver(before + after, "");
      assert before + m + after == before + after + "";
    } else {
      TrimStartOver(before, m + after);
      assert before + m + after == before + (m + after);
      TrimEndOver(m, after);
    }
  }

  lemma BlankIffAllSpace(s: string)
    ensures Trim(s) == "" <==> AllSpace(s)
  {
    var before, after := TrimParts(s);
    if AllSpace(s) {
      TrimOver(s, "", "");
      assert s + "" + "" == s;
    }
  }

  predicate OccursAt(s: string, pat: string, j: nat) {
    j + |pat| <= |s| && s[j..j + |pat|] == pat
  }

  lemma PairAt(s: string, pat: string, j: nat)
    requires |pat| == 2
    ensures OccursAt(s, pat, j) <==> j + 2 <= |s| && s[j] == pat[0] && s[j + 1] == pat[1]
  {
    if j + 2 <= |s| {
      assert s[j..j + 2] == [s[j], s[j + 1]] && pat == [pat[0], pat[1]];
    }
  }

  /** The first place at or after from where pat occurs. */
  function IndexOf(s: string, pat: string, from: nat): (r: Option<nat>)
    ensures r.Some? ==> from <= r.value && OccursAt(s, pat, r.value) && forall k: nat :: from <= k < r.value ==> !OccursAt(s, pat, k)
    ensures r.None? ==> forall k: nat :: from <= k ==> !OccursAt(s, pat, k)
    decreases |s| - from
  {
    if from + |pat| > |s| then None
    else if OccursAt(s, pat, from) then Some(from)
    else IndexOf(s, pat, from + 1)
  }

  lemma OccursAtShift(s: string, i: nat, pat: string, j: nat)
    requires i <= |s|
    ensures OccursAt(s[i..], pat, j) <==> OccursAt(s, pat, i + j)
  {
    if i + j + |pat| <= |s| {
      assert s[i..][j..j + |pat|] == s[i + j..i + j + |pat|];
    }
  }

  lemma IndexOfShift(s: string, i: nat, pat: string, from: nat)
    requires i <= |s|
    ensures IndexOf(s, pat, i + from)
         == match IndexOf(s[i..], pat, from) case None => None case Some(j) => Some(i + j)
  {
    forall k: nat ensures OccursAt(s[i..], pat, k) <==> OccursAt(s, pat, i + k) {
      OccursAtShift(s, i, pat, k);
    }
    var a, b := IndexOf(s, pat, i + from), IndexOf(s[i..], pat, from);
    if a.Some? {
      assert OccursAt(s[i..], pat, a.value - i);
    }
  }
}
