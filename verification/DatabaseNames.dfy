/** The names under which databases can be registered (backend/internal/domain/database/database.go). */
module DatabaseNames {
  import opened GoText

  const MAX_NAME: nat := 64

  predicate Hex(c: char) {
    '0' <= c <= '9' || 'a' <= c <= 'f'
  }

  predicate IsScratchName(n: string) {
    |n| == 20 && n[..2] == "fd" && n[2] in "vs" && n[3] == '_' && forall i :: 4 <= i < 20 ==> Hex(n[i])
  }

  predicate NameChar(c: char, first: bool) {
    'a' <= c <= 'z' || 'A' <= c <= 'Z' || '0' <= c <= '9' || c == '_' || c == '$' || (c == '-' && !first)
  }

  predicate ValidName(n: string) {
    n != "" && !IsScratchName(n) && |n| <= MAX_NAME && forall i :: 0 <= i < |n| ==> NameChar(n[i], i == 0)
  }

  /** A name that can be registered has no spaces around it. */
  lemma ValidIsTrimmed(n: string)
    requires ValidName(n)
    ensures TrimSpace(n) == n
  {
    assert NameChar(n[0], true) && NameChar(n[|n| - 1], |n| == 1);
  }
}
