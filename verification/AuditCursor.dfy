/** The opaque token of a place in the audit listing: base64url without padding (section 5 of RFC 4648)
    of an RFC 3339 time (section 5.6 of RFC 3339), "|" and an id (backend/internal/app/audit/cursor.go).
    Byte strings are strings of characters below 256. */
module AuditCursor {
  import opened Wrappers

  // ---- Base64url ---------------------------------------------------------------------------------

  predicate Bytes(s: string) {
    forall i :: 0 <= i < |s| ==> s[i] as int < 256
  }

  function Value64(c: char): (v: Option<nat>)
    ensures v.Some? ==> v.value < 64
  {
    if 'A' <= c <= 'Z' then Some(c as int - 'A' as int)
    else if 'a' <= c <= 'z' then Some(26 + (c as int - 'a' as int))
    else if '0' <= c <= '9' then Some(52 + (c as int - '0' as int))
    else if c == '-' then Some(62) else if c == '_' then Some(63) else None
  }

  function Char64(v: nat): char
    requires v < 64
  {
    if v < 26 then (v + 'A' as int) as char
    else if v < 52 then (v - 26 + 'a' as int) as char
    else if v < 62 then (v - 52 + '0' as int) as char
    else if v == 62 then '-' else '_'
  }

  /** The alphabet, and back. */
  lemma Char64RoundTrips(v: nat)
    requires v < 64
    ensures Value64(Char64(v)) == Some(v)
  {
  }

  function Encode64(s: string): string
    requires Bytes(s)
  {
    if s == "" then ""
    else
      var a := s[0] as int;
      if |s| == 1 then [Char64(a / 4), Char64(a % 4 * 16)]
      else
        var b := s[1] as int;
        if |s| == 2 then [Char64(a / 4), Char64(a % 4 * 16 + b / 16), Char64(b % 16 * 4)]
        else
          var c := s[2] as int;
          [Char64(a / 4), Char64(a % 4 * 16 + b / 16), Char64(b % 16 * 4 + c / 64), Char64(c % 64)] + Encode64(s[3..])
  }

  function WithoutLineEnds(s: string): string {
    if s == "" then "" else (if s[0] == '\r' || s[0] == '\n' then "" else [s[0]]) + WithoutLineEnds(s[1..])
  }

  function DecodeQuads(s: string): (r: Option<string>)
    ensures r.Some? ==> Bytes(r.value)
  {
    if s == "" then Some("")
    else if |s| == 1 then None
    else
      var v0, v1 := Value64(s[0]), Value64(s[1]);
      if v0.None? || v1.None? then None
      else
        var a := (v0.value * 4 + v1.value / 16) as char;
        if |s| == 2 then Some([a])
        else
          var v2 := Value64(s[2]);
          if v2.None? then None
          else
            var b := (v1.value % 16 * 16 + v2.value / 4) as char;
            if |s| == 3 then Some([a, b])
            else
              var v3 := Value64(s[3]);
              if v3.None? then None
              else
                match DecodeQuads(s[4..])
                case None => None
                case Some(rest) => Some([a, b, (v2.value % 4 * 64 + v3.value) as char] + rest)
  }

  function Decode64(s: string): (r: Option<string>)
    ensures r.Some? ==> Bytes(r.value)
  {
    DecodeQuads(WithoutLineEnds(s))
  }

  lemma {:induction false} EncodedHasNoLineEnds(s: string)
    requires forall i :: 0 <= i < |s| ==> Value64(s[i]).Some?
    ensures WithoutLineEnds(s) == s
  {
    if s != "" {
      assert Value64(s[0]).Some?;
      EncodedHasNoLineEnds(s[1..]);
    }
  }

  lemma {:induction false} EncodedIsAlphabet(s: string, i: nat)
    requires Bytes(s) && i < |Encode64(s)|
    ensures Value64(Encode64(s)[i]).Some?
  {
    if |s| > 3 && i >= 4 {
      EncodedIsAlphabet(s[3..], i - 4);
    } else if |s| == 3 {
      assert Encode64(s[3..]) == "";
    }
  }

  /** Three bytes spread over four values and put together again. */
  lemma QuadBits(a: nat, b: nat, c: nat)
    requires a < 256 && b < 256 && c < 256
    ensures a / 4 < 64 && a % 4 * 16 + b / 16 < 64 && b % 16 * 4 + c / 64 < 64
    ensures a / 4 * 4 + (a % 4 * 16 + b / 16) / 16 == a
    ensures (a % 4 * 16 + b / 16) % 16 * 16 + (b % 16 * 4 + c / 64) / 4 == b
    ensures (b % 16 * 4 + c / 64) % 4 * 64 + c % 64 == c
  {
  }

  lemma DecodeFour(e: string, v0: nat, v1: nat, v2: nat, v3: nat, a: char, b: char, c: char, rest: string)
    requires |e| >= 4 && Value64(e[0]) == Some(v0) && Value64(e[1]) == Some(v1) && Value64(e[2]) == Some(v2) && Value64(e[3]) == Some(v3)
    requires v0 * 4 + v1 / 16 == a as int && v1 % 16 * 16 + v2 / 4 == b as int && v2 % 4 * 64 + v3 == c as int
    requires DecodeQuads(e[4..]) == Some(rest)
    ensures DecodeQuads(e) == Some([a, b, c] + rest)
  {
  }

  lemma DecodeTwo(e: string, v0: nat, v1: nat, a: char)
    requires |e| == 2 && Value64(e[0]) == Some(v0) && Value64(e[1]) == Some(v1) && v0 * 4 + v1 / 16 == a as int
    ensures DecodeQuads(e) == Some([a])
  {
  }

  lemma DecodeThree(e: string, v0: nat, v1: nat, v2: nat, a: char, b: char)
    requires |e| == 3 && Value64(e[0]) == Some(v0) && Value64(e[1]) == Some(v1) && Value64(e[2]) == Some(v2)
    requires v0 * 4 + v1 / 16 == a as int && v1 % 16 * 16 + v2 / 4 == b as int
    ensures DecodeQuads(e) == Some([a, b])
  {
  }

  lemma OneRoundTrips(s: string, e: string, v0: nat, v1: nat)
    requires |s| == 1 && v0 < 64 && v1 < 64 && e == [Char64(v0), Char64(v1)] && v0 * 4 + v1 / 16 == s[0] as int
    ensures DecodeQuads(e) == Some(s)
  {
    Char64RoundTrips(v0);
    Char64RoundTrips(v1);
    DecodeTwo(e, v0, v1, s[0]);
    assert s == [s[0]];
  }

  lemma TwoRoundTrip(s: string, e: string, v0: nat, v1: nat, v2: nat)
    requires |s| == 2 && v0 < 64 && v1 < 64 && v2 < 64 && e == [Char64(v0), Char64(v1), Char64(v2)]
    requires v0 * 4 + v1 / 16 == s[0] as int && v1 % 16 * 16 + v2 / 4 == s[1] as int
    ensures DecodeQuads(e) == Some(s)
  {
    Char64RoundTrips(v0);
    Char64RoundTrips(v1);
    Char64RoundTrips(v2);
    DecodeThree(e, v0, v1, v2, s[0], s[1]);
    assert s == [s[0], s[1]];
  }

  lemma ShortEncoded(s: string, v0: nat, v1: nat, v2: nat)
    requires Bytes(s) && 1 <= |s| <= 2 && v0 < 64 && v1 < 64 && v2 < 64
    requires v0 == s[0] as int / 4 && v1 == s[0] as int % 4 * 16 + (if |s| == 2 then s[1] as int / 16 else 0)
    requires |s| == 2 ==> v2 == s[1] as int % 16 * 4
    ensures Encode64(s) == if |s| == 1 then [Char64(v0), Char64(v1)] else [Char64(v0), Char64(v1), Char64(v2)]
  {
  }

  lemma ThreeFirst(s: string, v0: nat, v1: nat, v2: nat, v3: nat)
    requires Bytes(s) && |s| >= 3
    requires v0 == s[0] as int / 4 && v1 == s[0] as int % 4 * 16 + s[1] as int / 16
    requires v2 == s[1] as int % 16 * 4 + s[2] as int / 64 && v3 == s[2] as int % 64
    requires v0 < 64 && v1 < 64 && v2 < 64 && v3 < 64
    ensures Encode64(s) == [Char64(v0), Char64(v1), Char64(v2), Char64(v3)] + Encode64(s[3..])
  {
  }

  lemma ThreeRoundTrip(s: string, e: string, tail: string, v0: nat, v1: nat, v2: nat, v3: nat)
    requires |s| >= 3 && v0 < 64 && v1 < 64 && v2 < 64 && v3 < 64
    requires e == [Char64(v0), Char64(v1), Char64(v2), Char64(v3)] + tail
    requires v0 * 4 + v1 / 16 == s[0] as int && v1 % 16 * 16 + v2 / 4 == s[1] as int && v2 % 4 * 64 + v3 == s[2] as int
    requires DecodeQuads(tail) == Some(s[3..])
    ensures DecodeQuads(e) == Some(s)
  {
    Char64RoundTrips(v0);
    Char64RoundTrips(v1);
    Char64RoundTrips(v2);
    Char64RoundTrips(v3);
    assert e[4..] == tail;
    DecodeFour(e, v0, v1, v2, v3, s[0], s[1], s[2], s[3..]);
    assert s == [s[0], s[1], s[2]] + s[3..];
  }

  lemma {:induction false} QuadsRoundTrip(s: string)
    requires Bytes(s)
    ensures DecodeQuads(Encode64(s)) == Some(s)
  {
    if s != "" {
      var a, b, c := s[0] as int, if |s| > 1 then s[1] as int else 0, if |s| > 2 then s[2] as int else 0;
      QuadBits(a, b, c);
      var v0, v1, v2, v3 := a / 4, a % 4 * 16 + b / 16, b % 16 * 4 + c / 64, c % 64;
      if |s| == 1 {
        ShortEncoded(s, v0, v1, v2);
        OneRoundTrips(s, Encode64(s), v0, v1);
      } else if |s| == 2 {
        ShortEncoded(s, v0, v1, v2);
        TwoRoundTrip(s, Encode64(s), v0, v1, v2);
      } else {
        QuadsRoundTrip(s[3..]);
        ThreeFirst(s, v0, v1, v2, v3);
        ThreeRoundTrip(s, Encode64(s), Encode64(s[3..]), v0, v1, v2, v3);
      }
    }
  }

  lemma Base64RoundTrips(s: string)
    requires Bytes(s)
    ensures Decode64(Encode64(s)) == Some(s)
  {
    forall i | 0 <= i < |Encode64(s)| ensures Value64(Encode64(s)[i]).Some? {
      EncodedIsAlphabet(s, i);
    }
    EncodedHasNoLineEnds(Encode64(s));
    QuadsRoundTrip(s);
  }

  // ---- Digits ------------------------------------------------------------------------------------

  function DigitChar(d: nat): char
    requires d < 16
  {
    if d < 10 then (d + '0' as int) as char else (d - 10 + 'a' as int) as char
  }

  function DigitValue(c: char, b: nat): (v: Option<nat>)
    ensures v.Some? ==> v.value < b
  {
    var d := if '0' <= c <= '9' then c as int - '0' as int
             else if 'a' <= c <= 'f' then c as int - 'a' as int + 10
             else if 'A' <= c <= 'F' then c as int - 'A' as int + 10 else b;
    if d < b then Some(d) else None
  }

  function Power(b: nat, w: nat): nat {
    if w == 0 then 1 else b * Power(b, w - 1)
  }

  /** n in base b, in exactly w digits. */
  function Digits(n: nat, b: nat, w: nat): (s: string)
    requires 2 <= b <= 16
    ensures |s| == w && forall i :: 0 <= i < w ==> DigitValue(s[i], b).Some?
  {
    if w == 0 then "" else Digits(n / b, b, w - 1) + [DigitChar(n % b)]
  }

  function Number(s: string, b: nat): Option<nat>
    requires 2 <= b <= 16
    decreases |s|
  {
    if s == "" then Some(0)
    else
      var n := |s| - 1;
      match (Number(s[..n], b), DigitValue(s[n], b))
      case (Some(high), Some(low)) => Some(high * b + low)
      case _ => None
  }

  lemma DivBelow(n: nat, b: nat, m: nat)
    requires b > 0 && n < b * m
    ensures n / b < m
  {
    assert b * (n / b) <= n;
    assert b * (m - n / b) > 0;
  }

  lemma DigitCharValue(d: nat, b: nat)
    requires d < b <= 16
    ensures DigitValue(DigitChar(d), b) == Some(d)
  {
  }

  /** The last digit, and the number before it. */
  lemma LastDigit(n: nat, b: nat, w: nat) returns (high: nat, low: nat)
    requires 2 <= b <= 16 && n < Power(b, w) && w > 0
    ensures low < b && high < Power(b, w - 1) && n == high * b + low
    ensures Digits(n, b, w) == Digits(high, b, w - 1) + [DigitChar(low)]
  {
    high, low := n / b, n % b;
    DivBelow(n, b, Power(b, w - 1));
  }

  lemma NumberSnoc(s: string, c: char, b: nat, high: nat, low: nat)
    requires 2 <= b <= 16 && Number(s, b) == Some(high) && DigitValue(c, b) == Some(low)
    ensures Number(s + [c], b) == Some(high * b + low)
  {
    assert (s + [c])[..|s|] == s;
  }

  lemma {:induction false} DigitsRoundTrip(n: nat, b: nat, w: nat)
    requires 2 <= b <= 16 && n < Power(b, w)
    ensures Number(Digits(n, b, w), b) == Some(n)
    decreases w
  {
    if w > 0 {
      var high, low := LastDigit(n, b, w);
      DigitsRoundTrip(high, b, w - 1);
      DigitCharValue(low, b);
      NumberSnoc(Digits(high, b, w - 1), DigitChar(low), b, high, low);
    }
  }

  // ---- Times --------------------------------------------------------------------------------------

  /** A UTC time by its calendar fields. */
  datatype Time = Time(year: int, month: nat, day: nat, hour: nat, minute: nat, second: nat, nanos: nat)

  predicate LeapYear(y: int) {
    y % 4 == 0 && (y % 100 != 0 || y % 400 == 0)
  }

  function DaysIn(y: int, m: nat): nat {
    if m == 2 then if LeapYear(y) then 29 else 28 else if m in {4, 6, 9, 11} then 30 else 31
  }

  predicate ValidTime(t: Time) {
    && 1 <= t.month <= 12 && 1 <= t.day <= DaysIn(t.year, t.month)
    && t.hour < 24 && t.minute < 60 && t.second < 60 && t.nanos < 1_000_000_000
  }

  function Width(n: nat): nat {
    if n < 10 then 1 else 1 + Width(n / 10)
  }

  /** A number in at least four decimal digits. */
  function Padded(n: nat): string {
    Digits(n, 10, if Width(n) < 4 then 4 else Width(n))
  }

  function FormatYear(y: int): string {
    if y < 0 then "-" + Padded(-y) else Padded(y)
  }

  function TrimZeros(s: string): (r: string)
    ensures |r| <= |s| && s[..|r|] == r && (forall i :: |r| <= i < |s| ==> s[i] == '0') && (r != "" ==> r[|r| - 1] != '0')
  {
    if s != "" && s[|s| - 1] == '0' then TrimZeros(s[..|s| - 1]) else s
  }

  function Fraction(nanos: nat): string {
    var d := TrimZeros(Digits(nanos, 10, 9));
    if d == "" then "" else "." + d
  }

  /** Everything up to the seconds, after the year. */
  function AfterYear(t: Time): string {
    "-" + Digits(t.month, 10, 2) + "-" + Digits(t.day, 10, 2) + "T" + Digits(t.hour, 10, 2) + ":" + Digits(t.minute, 10, 2)
    + ":" + Digits(t.second, 10, 2)
  }

  function FormatTime(t: Time): string {
    FormatYear(t.year) + (AfterYear(t) + (Fraction(t.nanos) + "Z"))
  }

  function Field(s: string, i: nat, w: nat): Option<nat>
    requires i + w <= |s|
  {
    Number(s[i..i + w], 10)
  }

  function Zeros(n: nat): (s: string)
    ensures |s| == n && forall i :: 0 <= i < n ==> s[i] == '0'
  {
    if n == 0 then "" else "0" + Zeros(n - 1)
  }

  /** The nanoseconds of a fraction and zone "Z"; digits past the ninth are read and dropped. */
  function ParseFraction(s: string): Option<nat> {
    if s == "Z" then Some(0)
    else if |s| >= 3 && s[0] == '.' && s[|s| - 1] == 'Z' && Number(s[1..|s| - 1], 10).Some? then
      var d := s[1..|s| - 1];
      if |d| >= 9 then Number(d[..9], 10) else Number(d + Zeros(9 - |d|), 10)
    else None
  }

  /** An RFC 3339 time in UTC; other zones, which a token never has, are not read. */
  function ParseTime(s: string): Option<Time> {
    if |s| < 20 || s[4] != '-' || s[7] != '-' || s[10] != 'T' || s[13] != ':' || s[16] != ':' then None
    else
      var y, mo, d := Field(s, 0, 4), Field(s, 5, 2), Field(s, 8, 2);
      var h, mi, sec := Field(s, 11, 2), Field(s, 14, 2), Field(s, 17, 2);
      var nanos := ParseFraction(s[19..]);
      if y.None? || mo.None? || d.None? || h.None? || mi.None? || sec.None? || nanos.None? then None
      else
        var t := Time(y.value, mo.value, d.value, h.value, mi.value, sec.value, nanos.value);
        if ValidTime(t) then Some(t) else None
  }

  // ---- Times come back ------------------------------------------------------------------------------

  lemma {:induction false} WidthIs(n: nat)
    ensures n < Power(10, Width(n)) && (n >= 10 ==> n >= Power(10, Width(n) - 1))
  {
    if n >= 10 {
      WidthIs(n / 10);
      var w := Width(n / 10);
      assert Power(10, w + 1) == 10 * Power(10, w);
      if n / 10 >= 10 {
        assert Power(10, w) == 10 * Power(10, w - 1);
      } else {
        assert w == 1 && Power(10, 1) == 10 * Power(10, 0);
      }
    }
  }

  lemma SmallPowers()
    ensures Power(10, 2) == 100 && Power(10, 4) == 10_000 && Power(10, 9) == 1_000_000_000
  {
    assert Power(10, 1) == 10 && Power(10, 2) == 10 * Power(10, 1) && Power(10, 3) == 10 * Power(10, 2);
    assert Power(10, 4) == 10 * Power(10, 3) && Power(10, 5) == 10 * Power(10, 4) && Power(10, 6) == 10 * Power(10, 5);
    assert Power(10, 7) == 10 * Power(10, 6) && Power(10, 8) == 10 * Power(10, 7) && Power(10, 9) == 10 * Power(10, 8);
  }

  lemma YearText(y: int)
    ensures 0 <= y <= 9999 ==> FormatYear(y) == Digits(y, 10, 4)
    ensures y > 9999 ==> |FormatYear(y)| > 4 && FormatYear(y)[4] != '-'
    ensures y < 0 ==> |FormatYear(y)| > 4 && FormatYear(y)[0] == '-'
  {
    SmallPowers();
    if y > 9999 {
      WidthIs(y);
      PowerMonotone(10, Width(y), 4);
      assert DigitValue(FormatYear(y)[4], 10).Some?;
    } else if y >= 0 {
      WidthIs(y);
      PowerMonotone(10, 4, Width(y) - 1);
    }
  }

  lemma {:induction false} PowerMonotone(b: nat, w: nat, v: nat)
    requires b >= 1
    ensures w <= v ==> Power(b, w) <= Power(b, v)
    decreases v
  {
    if w < v {
      PowerMonotone(b, w, v - 1);
      TimesAtLeast(b, Power(b, v - 1));
    }
  }

  lemma TimesAtLeast(b: nat, p: nat)
    requires b >= 1
    ensures b * p >= p
  {
  }

  lemma {:induction false} DigitsAreNumber(s: string)
    requires forall i :: 0 <= i < |s| ==> DigitValue(s[i], 10).Some?
    ensures Number(s, 10).Some?
    decreases |s|
  {
    if s != "" {
      DigitsAreNumber(s[..|s| - 1]);
    }
  }

  lemma {:induction false} ZerosAreZero(s: string)
    requires forall i :: 0 <= i < |s| ==> s[i] == '0'
    ensures Number(s, 10) == Some(0)
    decreases |s|
  {
    if s != "" {
      ZerosAreZero(s[..|s| - 1]);
    }
  }

  lemma FractionRoundTrips(nanos: nat)
    requires nanos < 1_000_000_000
    ensures ParseFraction(Fraction(nanos) + "Z") == Some(nanos)
  {
    SmallPowers();
    var d := Digits(nanos, 10, 9);
    DigitsRoundTrip(nanos, 10, 9);
    var r := TrimZeros(d);
    if r == "" {
      ZerosAreZero(d);
      assert "" + "Z" == "Z";
    } else {
      assert forall i :: 0 <= i < |r| ==> r[i] == d[..|r|][i] == d[i];
      DigitsAreNumber(r);
      assert r + Zeros(9 - |r|) == d;
      FractionText(r);
    }
  }

  lemma FractionText(r: string)
    requires r != "" && |r| <= 9 && Number(r, 10).Some?
    ensures ParseFraction("." + r + "Z") == Number(r + Zeros(9 - |r|), 10)
  {
    var s := "." + r + "Z";
    assert s[1..|s| - 1] == r;
    if |r| == 9 {
      assert r[..9] == r && r + Zeros(0) == r;
    }
  }

  lemma AfterYearFields(t: Time)
    ensures var a := AfterYear(t);
            && |a| == 15 && a[0] == '-' && a[3] == '-' && a[6] == 'T' && a[9] == ':' && a[12] == ':'
            && a[1..3] == Digits(t.month, 10, 2) && a[4..6] == Digits(t.day, 10, 2) && a[7..9] == Digits(t.hour, 10, 2)
            && a[10..12] == Digits(t.minute, 10, 2) && a[13..15] == Digits(t.second, 10, 2)
  {
  }

  lemma Within(y: string, a: string, f: string, i: nat, j: nat)
    requires |y| == 4 && i <= j <= |a|
    ensures (y + (a + f))[4 + i..4 + j] == a[i..j] && (i < |a| ==> (y + (a + f))[4 + i] == a[i])
  {
  }

  lemma FieldsOf(t: Time)
    requires ValidTime(t)
    ensures Number(Digits(t.month, 10, 2), 10) == Some(t.month) && Number(Digits(t.day, 10, 2), 10) == Some(t.day)
    ensures Number(Digits(t.hour, 10, 2), 10) == Some(t.hour) && Number(Digits(t.minute, 10, 2), 10) == Some(t.minute)
    ensures Number(Digits(t.second, 10, 2), 10) == Some(t.second)
  {
    SmallPowers();
    DigitsRoundTrip(t.month, 10, 2);
    DigitsRoundTrip(t.day, 10, 2);
    DigitsRoundTrip(t.hour, 10, 2);
    DigitsRoundTrip(t.minute, 10, 2);
    DigitsRoundTrip(t.second, 10, 2);
  }

  lemma FormatFields(t: Time, s: string, y: string, a: string, f: string)
    requires |y| == 4 && a == AfterYear(t) && s == y + (a + f)
    ensures |s| >= 19 && s[4] == '-' && s[7] == '-' && s[10] == 'T' && s[13] == ':' && s[16] == ':'
    ensures s[0..4] == y && s[5..7] == Digits(t.month, 10, 2) && s[8..10] == Digits(t.day, 10, 2)
    ensures s[11..13] == Digits(t.hour, 10, 2) && s[14..16] == Digits(t.minute, 10, 2) && s[17..19] == Digits(t.second, 10, 2)
    ensures s[19..] == f
  {
    AfterYearFields(t);
    Within(y, a, f, 0, 0);
    Within(y, a, f, 1, 3);
    Within(y, a, f, 3, 3);
    Within(y, a, f, 4, 6);
    Within(y, a, f, 6, 6);
    Within(y, a, f, 7, 9);
    Within(y, a, f, 9, 9);
    Within(y, a, f, 10, 12);
    Within(y, a, f, 12, 12);
    Within(y, a, f, 13, 15);
  }

  lemma TimeRoundTrips(t: Time)
    requires ValidTime(t) && 0 <= t.year <= 9999
    ensures ParseTime(FormatTime(t)) == Some(t)
  {
    var y, a, f := FormatYear(t.year), AfterYear(t), Fraction(t.nanos) + "Z";
    YearText(t.year);
    SmallPowers();
    DigitsRoundTrip(t.year, 10, 4);
    FieldsOf(t);
    FractionRoundTrips(t.nanos);
    FormatFields(t, FormatTime(t), y, a, f);
  }

  /** A year of more than four digits, or before the year 0, cannot be read back. */
  lemma OtherYearsAreLost(t: Time)
    requires t.year < 0 || t.year > 9999
    ensures ParseTime(FormatTime(t)).None?
  {
    var s, y := FormatTime(t), FormatYear(t.year);
    YearText(t.year);
    assert s[0] == y[0] && s[4] == y[4];
    if t.year < 0 {
      NotANumber(s[0..4]);
    }
  }

  lemma {:induction false} NotANumber(s: string)
    requires s != "" && DigitValue(s[0], 10).None?
    ensures Number(s, 10).None?
    decreases |s|
  {
    if |s| > 1 {
      NotANumber(s[..|s| - 1]);
    }
  }

  // ---- Ids ------------------------------------------------------------------------------------------

  /** A UUID as its 128-bit number, in the usual 8-4-4-4-12 form. */
  function UuidText(n: nat): string {
    var h := Digits(n, 16, 32);
    h[..8] + "-" + h[8..12] + "-" + h[12..16] + "-" + h[16..20] + "-" + h[20..]
  }

  /** The usual form only; the other spellings that the library reads never occur in a token. */
  function ParseUuid(s: string): Option<nat> {
    if |s| != 36 || s[8] != '-' || s[13] != '-' || s[18] != '-' || s[23] != '-' then None
    else Number(s[..8] + s[9..13] + s[14..18] + s[19..23] + s[24..], 16)
  }

  predicate IsId(n: nat) {
    n < Power(16, 32)
  }

  lemma UuidPieces(h: string)
    requires |h| == 32
    ensures var s := h[..8] + "-" + h[8..12] + "-" + h[12..16] + "-" + h[16..20] + "-" + h[20..];
            && |s| == 36 && s[8] == '-' && s[13] == '-' && s[18] == '-' && s[23] == '-'
            && s[..8] + s[9..13] + s[14..18] + s[19..23] + s[24..] == h
  {
    var s := h[..8] + "-" + h[8..12] + "-" + h[12..16] + "-" + h[16..20] + "-" + h[20..];
    assert s[..8] == h[..8] && s[9..13] == h[8..12] && s[14..18] == h[12..16] && s[19..23] == h[16..20] && s[24..] == h[20..];
    assert h[..8] + h[8..12] + h[12..16] + h[16..20] + h[20..] == h;
  }

  lemma UuidRoundTrips(n: nat)
    requires IsId(n)
    ensures ParseUuid(UuidText(n)) == Some(n)
  {
    DigitsRoundTrip(n, 16, 32);
    UuidPieces(Digits(n, 16, 32));
  }

  // ---- Tokens -----------------------------------------------------------------------------------------

  datatype Place = Place(at: Time, id: nat)

  function Raw(p: Place): string {
    FormatTime(p.at) + ("|" + UuidText(p.id))
  }

  /** Neither "|" nor outside a byte. */
  predicate Plain(s: string) {
    forall i :: 0 <= i < |s| ==> s[i] != '|' && s[i] as int < 256
  }

  lemma PlainDigits(n: nat, b: nat, w: nat)
    requires 2 <= b <= 16
    ensures Plain(Digits(n, b, w))
  {
    var s := Digits(n, b, w);
    forall i | 0 <= i < |s| ensures s[i] != '|' && s[i] as int < 256 {
      assert DigitValue(s[i], b).Some?;
    }
  }

  lemma PlainTogether(a: string, b: string)
    requires Plain(a) && Plain(b)
    ensures Plain(a + b)
  {
  }

  lemma PlainFraction(nanos: nat)
    ensures Plain(Fraction(nanos) + "Z")
  {
    var d := Digits(nanos, 10, 9);
    PlainDigits(nanos, 10, 9);
    var r := TrimZeros(d);
    assert forall i :: 0 <= i < |r| ==> r[i] == d[..|r|][i] == d[i];
  }

  lemma PlainAfterYear(t: Time)
    ensures Plain(AfterYear(t))
  {
    PlainDigits(t.month, 10, 2);
    PlainDigits(t.day, 10, 2);
    PlainDigits(t.hour, 10, 2);
    PlainDigits(t.minute, 10, 2);
    PlainDigits(t.second, 10, 2);
  }

  lemma PlainTime(t: Time)
    ensures Plain(FormatTime(t))
  {
    var n: nat := if t.year < 0 then -t.year else t.year;
    PlainDigits(n, 10, if Width(n) < 4 then 4 else Width(n));
    assert Plain(FormatYear(t.year));
    PlainAfterYear(t);
    PlainFraction(t.nanos);
    PlainTogether(AfterYear(t), Fraction(t.nanos) + "Z");
    PlainTogether(FormatYear(t.year), AfterYear(t) + (Fraction(t.nanos) + "Z"));
  }

  lemma PlainUuid(n: nat)
    ensures Plain(UuidText(n))
  {
    PlainDigits(n, 16, 32);
  }

  lemma RawIsBytes(p: Place)
    ensures Bytes(Raw(p))
  {
    PlainTime(p.at);
    PlainUuid(p.id);
  }

  function EncodeCursor(p: Place): string {
    RawIsBytes(p);
    Encode64(Raw(p))
  }

  /** The first "|", where the text is cut in two. */
  function Bar(s: string): (i: nat)
    ensures i <= |s| && (i < |s| ==> s[i] == '|') && forall k :: 0 <= k < i ==> s[k] != '|'
  {
    if s == "" || s[0] == '|' then 0 else 1 + Bar(s[1..])
  }

  function DecodeCursor(token: string): Option<Place> {
    var raw := Decode64(token);
    if raw.None? || Bar(raw.value) == |raw.value| then None
    else
      var bar := Bar(raw.value);
      match (ParseTime(raw.value[..bar]), ParseUuid(raw.value[bar + 1..]))
      case (Some(t), Some(n)) => Some(Place(t, n))
      case _ => None
  }

  lemma RawIsCut(p: Place)
    ensures var bar := |FormatTime(p.at)|;
            Bar(Raw(p)) == bar < |Raw(p)| && Raw(p)[..bar] == FormatTime(p.at) && Raw(p)[bar + 1..] == UuidText(p.id)
  {
    PlainTime(p.at);
    var s, t := Raw(p), FormatTime(p.at);
    assert forall k :: 0 <= k < |t| ==> s[k] == t[k];
    assert s[|t|] == '|';
  }

  /** A token reads back as its place exactly when the year has at most four digits and is not
      negative; otherwise it is refused. */
  lemma CursorRoundTripsIff(p: Place)
    requires ValidTime(p.at) && IsId(p.id)
    ensures DecodeCursor(EncodeCursor(p)) == Some(p) <==> 0 <= p.at.year <= 9999
    ensures DecodeCursor(EncodeCursor(p)) == Some(p) || DecodeCursor(EncodeCursor(p)).None?
  {
    RawIsBytes(p);
    Base64RoundTrips(Raw(p));
    RawIsCut(p);
    UuidRoundTrips(p.id);
    if 0 <= p.at.year <= 9999 {
      TimeRoundTrips(p.at);
    } else {
      OtherYearsAreLost(p.at);
    }
  }
}
