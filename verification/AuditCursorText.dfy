/** What the characters of a cursor's token are, besides that it reads back: the bits of its base64url text
    (sections 4 and 5 of RFC 4648). */
module AuditCursorText {
  import opened AuditCursor

  /** The character for six bits. */
  predicate Symbol(c: char, v: nat) {
    || ('A' <= c <= 'Z' && v == c as int - 'A' as int)
    || ('a' <= c <= 'z' && v == 26 + (c as int - 'a' as int))
    || ('0' <= c <= '9' && v == 52 + (c as int - '0' as int))
    || (c == '-' && v == 62) || (c == '_' && v == 63)
  }

  lemma CharIsSymbol(v: nat)
    requires v < 64
    ensures Symbol(Char64(v), v)
  {
  }

  lemma Bits3(x: nat, y: nat, z: nat)
    requires x < 256 && y < 256 && z < 256
    ensures x / 4 < 64 && x % 4 * 16 + y / 16 < 64 && y % 16 * 4 + z / 64 < 64
    ensures x / 4 * 0x40000 + (x % 4 * 16 + y / 16) * 0x1000 + (y % 16 * 4 + z / 64) * 0x40 + z % 64 == x * 0x10000 + y * 0x100 + z
  {
  }

  /** Three bytes in four characters, the first bits first, and then the encoding of the rest. */
  lemma EncodedThree(s: string) returns (v0: nat, v1: nat, v2: nat, v3: nat)
    requires Bytes(s) && |s| >= 3
    ensures |Encode64(s)| >= 4 && Encode64(s)[4..] == Encode64(s[3..])
    ensures Symbol(Encode64(s)[0], v0) && Symbol(Encode64(s)[1], v1) && Symbol(Encode64(s)[2], v2) && Symbol(Encode64(s)[3], v3)
    ensures v0 * 0x40000 + v1 * 0x1000 + v2 * 0x40 + v3 == s[0] as int * 0x10000 + s[1] as int * 0x100 + s[2] as int
  {
    var x, y, z := s[0] as int, s[1] as int, s[2] as int;
    Bits3(x, y, z);
    v0, v1, v2, v3 := x / 4, x % 4 * 16 + y / 16, y % 16 * 4 + z / 64, z % 64;
    CharIsSymbol(v0);
    CharIsSymbol(v1);
    CharIsSymbol(v2);
    CharIsSymbol(v3);
  }

  /** Two bytes in three characters, filled up with zeros. */
  lemma EncodedTwo(s: string) returns (v0: nat, v1: nat, v2: nat)
    requires Bytes(s) && |s| == 2
    ensures |Encode64(s)| == 3
    ensures Symbol(Encode64(s)[0], v0) && Symbol(Encode64(s)[1], v1) && Symbol(Encode64(s)[2], v2)
    ensures v0 * 0x1000 + v1 * 0x40 + v2 == (s[0] as int * 0x100 + s[1] as int) * 4
  {
    var x, y := s[0] as int, s[1] as int;
    Bits3(x, y, 0);
    v0, v1, v2 := x / 4, x % 4 * 16 + y / 16, y % 16 * 4;
    CharIsSymbol(v0);
    CharIsSymbol(v1);
    CharIsSymbol(v2);
  }

  /** One byte in two. */
  lemma EncodedOne(s: string) returns (v0: nat, v1: nat)
    requires Bytes(s) && |s| == 1
    ensures |Encode64(s)| == 2 && Symbol(Encode64(s)[0], v0) && Symbol(Encode64(s)[1], v1)
    ensures v0 * 0x40 + v1 == s[0] as int * 16
  {
    var x := s[0] as int;
    Bits3(x, 0, 0);
    v0, v1 := x / 4, x % 4 * 16;
    CharIsSymbol(v0);
    CharIsSymbol(v1);
  }
}
