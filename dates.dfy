/** The visit date: `datetime.fromisoformat(text.strip()[13:23]).date()`, restricted to the
    `YYYY-MM-DD` calendar form. */
module Dates {
  import opened Common

  /** The characters Python's `str.strip()` removes when given no argument (`str.isspace()`). */
  predicate IsSpace(c: char) {
    var n := c as int;
    || 9 <= n <= 13 || 28 <= n <= 32 || n == 0x85 || n == 0xA0 || n == 0x1680
    || 0x2000 <= n <= 0x200A || n == 0x2028 || n == 0x2029 || n == 0x202F || n == 0x205F || n == 0x3000
  }

  predicate AllSpace(s: string) {
    forall i :: 0 <= i < |s| ==> IsSpace(s[i])
  }

  /** How many whitespace characters `s` starts with. */
  function LeadingSpace(s: string): (n: nat)
    ensures n <= |s| && AllSpace(s[..n])
    ensures n == |s| || !IsSpace(s[n])
    decreases |s|
  {
    if |s| > 0 && IsSpace(s[0]) then
      var n := 1 + LeadingSpace(s[1..]);
      assert forall i :: 1 <= i < n ==> s[i] == s[1..][i - 1];
      n
    else 0
  }

  /** The length of `s` without its trailing whitespace. */
  function TrailingStart(s: string): (n: nat)
    ensures n <= |s| && AllSpace(s[n..])
    ensures n == 0 || !IsSpace(s[n - 1])
    decreases |s|
  {
    if |s| > 0 && IsSpace(s[|s| - 1]) then
      var n := TrailingStart(s[..|s| - 1]);
      assert forall i :: n <= i < |s| - 1 ==> s[i] == s[..|s| - 1][i];
      n
    else |s|
  }

  /** `s.strip()`: `s` is the result with only whitespace around it, and the result
      neither starts nor ends with whitespace. */
  function Strip(s: string): (r: string)
    ensures r == [] || (!IsSpace(r[0]) && !IsSpace(r[|r| - 1]))
    ensures exists i :: 0 <= i <= |s| - |r| && s[i..i + |r|] == r && AllSpace(s[..i]) && AllSpace(s[i + |r|..])
  {
    var i := LeadingSpace(s);
    var t := s[i..];
    var j := TrailingStart(t);
    var r := t[..j];
    assert s[i..i + |r|] == r;
    assert s[i + |r|..] == t[j..];
    assert r != [] ==> r[0] == t[0];
    r
  }

  function Min(a: int, b: int): int {
    if a < b then a else b
  }

  /** Python's `s[lo:hi]` for non-negative bounds: out-of-range bounds are clamped. */
  function Slice(s: string, lo: nat, hi: nat): (w: string)
    ensures |w| == if lo < hi && lo < |s| then Min(hi, |s|) - lo else 0
    ensures forall k :: 0 <= k < |w| ==> w[k] == s[lo + k]
  {
    if lo < hi && lo < |s| then s[lo..Min(hi, |s|)] else []
  }

  predicate IsDigit(c: char) {
    '0' <= c <= '9'
  }

  predicate AllDigits(s: string) {
    forall i :: 0 <= i < |s| ==> IsDigit(s[i])
  }

  function DigitChar(n: nat): (c: char)
    requires n < 10
    ensures IsDigit(c) && c as int - '0' as int == n
  {
    ('0' as int + n) as char
  }

  function Pow10(w: nat): (p: nat)
    ensures p > 0
  {
    if w == 0 then 1 else 10 * Pow10(w - 1)
  }

  /** The decimal value of a digit string, most significant digit first. */
  function DigitsValue(s: string): (v: nat)
    requires AllDigits(s)
    ensures v < Pow10(|s|)
    decreases |s|
  {
    if s == [] then 0
    else
      var d := s[|s| - 1] as int - '0' as int;
      var v := DigitsValue(s[..|s| - 1]);
      assert v <= Pow10(|s| - 1) - 1;
      10 * v + d
  }

  /** `n` written with exactly `width` decimal digits, zero-padded (the last `width` digits). */
  function Digits(n: nat, width: nat): (s: string)
    ensures |s| == width && AllDigits(s)
  {
    if width == 0 then [] else Digits(n / 10, width - 1) + [DigitChar(n % 10)]
  }

  lemma {:induction false} ValueOfDigits(n: nat, width: nat)
    requires n < Pow10(width)
    ensures DigitsValue(Digits(n, width)) == n
  {
    if width > 0 {
      ValueOfDigits(n / 10, width - 1);
      var s := Digits(n, width);
      assert s[..|s| - 1] == Digits(n / 10, width - 1);
    }
  }

  lemma {:induction false} DigitsOfValue(s: string)
    requires AllDigits(s)
    ensures Digits(DigitsValue(s), |s|) == s
    decreases |s|
  {
    if s != [] {
      var init := s[..|s| - 1];
      var d := s[|s| - 1] as int - '0' as int;
      var v := DigitsValue(init);
      DigitsOfValue(init);
      assert (10 * v + d) / 10 == v && (10 * v + d) % 10 == d;
      assert DigitChar(d) == s[|s| - 1];
      assert init + [s[|s| - 1]] == s;
    }
  }

  /** A calendar date; `year`, `month` and `day` as `datetime.date` keeps them. */
  datatype Date = Date(year: int, month: int, day: int)

  predicate IsLeapYear(y: int) {
    y % 4 == 0 && (y % 100 != 0 || y % 400 == 0)
  }

  function DaysInMonth(y: int, m: int): int
    requires 1 <= m <= 12
  {
    if m == 2 then (if IsLeapYear(y) then 29 else 28)
    else if m == 4 || m == 6 || m == 9 || m == 11 then 30
    else 31
  }

  /** `datetime.date`'s range: years 1 to 9999 of the proleptic Gregorian calendar. */
  predicate ValidDate(d: Date) {
    1 <= d.year <= 9999 && 1 <= d.month <= 12 && 1 <= d.day <= DaysInMonth(d.year, d.month)
  }

  /** `d.isoformat()`: `YYYY-MM-DD`. */
  function FormatIsoDate(d: Date): (s: string)
    requires ValidDate(d)
    ensures |s| == 10
  {
    Digits(d.year, 4) + "-" + Digits(d.month, 2) + "-" + Digits(d.day, 2)
  }

  /** Ten characters laid out as `DDDD-DD-DD`. */
  predicate IsIsoShape(s: string) {
    && |s| == 10
    && AllDigits(s[..4]) && s[4] == '-'
    && AllDigits(s[5..7]) && s[7] == '-'
    && AllDigits(s[8..])
  }

  /** The three numbers written in a `DDDD-DD-DD` string, not yet checked against the calendar. */
  function IsoFields(s: string): Date
    requires IsIsoShape(s)
  {
    Date(DigitsValue(s[..4]), DigitsValue(s[5..7]), DigitsValue(s[8..]))
  }

  lemma FormatOfIsoFields(s: string)
    requires IsIsoShape(s) && ValidDate(IsoFields(s))
    ensures FormatIsoDate(IsoFields(s)) == s
  {
    DigitsOfValue(s[..4]);
    DigitsOfValue(s[5..7]);
    DigitsOfValue(s[8..]);
    assert s == s[..4] + "-" + s[5..7] + "-" + s[8..];
  }

  lemma IsoFieldsOfFormat(d: Date)
    requires ValidDate(d)
    ensures IsIsoShape(FormatIsoDate(d)) && IsoFields(FormatIsoDate(d)) == d
  {
    var s := FormatIsoDate(d);
    assert s[..4] == Digits(d.year, 4);
    assert s[5..7] == Digits(d.month, 2);
    assert s[8..] == Digits(d.day, 2);
    ValueOfDigits(d.year, 4);
    ValueOfDigits(d.month, 2);
    ValueOfDigits(d.day, 2);
  }

  /** `date.fromisoformat(s)` on the `YYYY-MM-DD` form: the date `s` spells, when it spells one,
      and None (the ValueError) when no valid date is written as `s`. */
  function ParseIsoDate(s: string): (r: Option<Date>)
    ensures r.Some? ==> ValidDate(r.value) && FormatIsoDate(r.value) == s
    ensures r.None? ==> forall d :: ValidDate(d) ==> FormatIsoDate(d) != s
  {
    if IsIsoShape(s) && ValidDate(IsoFields(s)) then
      FormatOfIsoFields(s);
      Some(IsoFields(s))
    else
      assert forall d :: ValidDate(d) ==> FormatIsoDate(d) != s by {
        forall d | ValidDate(d) ensures FormatIsoDate(d) != s {
          IsoFieldsOfFormat(d);
        }
      }
      None
  }

  /** Parsing inverts formatting on every valid date. */
  lemma FormatThenParse(d: Date)
    requires ValidDate(d)
    ensures ParseIsoDate(FormatIsoDate(d)) == Some(d)
  {
    IsoFieldsOfFormat(d);
  }

  /** Where the date sits in the stripped narrative: characters 13 up to 23. */
  const DateStart: nat := 13
  const DateEnd: nat := 23

  /** The record's `date`: the date written in the ten-character window of the stripped
      narrative, or None when the window (possibly shorter) spells no valid date. */
  function ExtractDate(text: string): (r: Option<Date>)
    ensures r.Some? ==> ValidDate(r.value) && FormatIsoDate(r.value) == Slice(Strip(text), DateStart, DateEnd)
    ensures r.None? ==> forall d :: ValidDate(d) ==> FormatIsoDate(d) != Slice(Strip(text), DateStart, DateEnd)
  {
    ParseIsoDate(Slice(Strip(text), DateStart, DateEnd))
  }

  /** Stripping a text that has only whitespace before position `n`, a non-space at `n` and a
      non-space at `m` keeps everything from `n` to `m`, starting at index 0. */
  lemma StripKeeps(text: string, n: nat, m: nat)
    requires n <= m < |text| && AllSpace(text[..n]) && !IsSpace(text[n]) && !IsSpace(text[m])
    ensures |Strip(text)| > m - n
    ensures forall k :: 0 <= k <= m - n ==> Strip(text)[k] == text[n + k]
  {
    assert LeadingSpace(text) == n;
    assert TrailingStart(text[n..]) > m - n;
  }

  /** A narrative that, after optional leading whitespace, has a 13-character header and then
      an ISO date yields that date, whatever follows it. */
  lemma DateAfterHeader(lead: string, header: string, d: Date, rest: string)
    requires AllSpace(lead) && |header| == 13 && !IsSpace(header[0]) && ValidDate(d)
    ensures ExtractDate(lead + header + FormatIsoDate(d) + rest) == Some(d)
  {
    var date := FormatIsoDate(d);
    var text := lead + header + date + rest;
    var n := |lead|;
    assert text[..n] == lead;
    assert text[n] == header[0];
    assert text[n + 22] == date[9] == Digits(d.day, 2)[1];
    StripKeeps(text, n, n + 22);
    var w := Slice(Strip(text), DateStart, DateEnd);
    assert w == date by {
      forall k | 0 <= k < 10 ensures w[k] == date[k] {
        assert w[k] == Strip(text)[13 + k] == text[n + 13 + k];
      }
    }
    FormatThenParse(d);
  }

  /** The header the corpus uses: "Record date: " followed by the date, after blank lines. */
  lemma RecordDateExample()
    ensures ExtractDate("\n\n\n" + "Record date: " + "2009-03-15" + "\nHPI") == Some(Date(2009, 3, 15))
  {
    var d := Date(2009, 3, 15);
    assert Digits(2009, 4) == "2009";
    assert Digits(3, 2) == "03";
    assert Digits(15, 2) == "15";
    assert FormatIsoDate(d) == "2009-03-15";
    DateAfterHeader("\n\n\n", "Record date: ", d, "\nHPI");
  }
}
