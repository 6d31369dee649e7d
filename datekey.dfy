/** The storage key of a calendar day (`getEntryKey`) and a parser that reads
    the key back. */
module DateKey {
  import opened Wrappers

  predicate IsDigit(c: char) {
    '0' <= c <= '9'
  }

  function DigitChar(d: nat): (c: char)
    requires d < 10
    ensures IsDigit(c)
  {
    ('0' as int + d) as char
  }

  function DigitValue(c: char): (d: nat)
    requires IsDigit(c)
    ensures d < 10
  {
    c as int - '0' as int
  }

  /** The decimal digits of `n` without leading zeros, as `String(n)` writes a
      non-negative integer. */
  function NatString(n: nat): (s: string)
    ensures |s| >= 1 && forall i :: 0 <= i < |s| ==> IsDigit(s[i])
  {
    if n < 10 then [DigitChar(n)] else NatString(n / 10) + [DigitChar(n % 10)]
  }

  /** `String(i)` and `${i}` for an integer: a minus sign before the digits of
      a negative number. */
  function IntString(i: int): string {
    if i < 0 then "-" + NatString(-i) else NatString(i)
  }

  /** `s.padStart(2, '0')` */
  function PadStart2(s: string): string {
    if |s| >= 2 then s else seq(2 - |s|, _ => '0') + s
  }

  /** `getEntryKey(year, month, day)`: the year as written by JavaScript, then
      the 1-based month and the day, each padded to two characters with `0`. */
  function EntryKey(year: int, month: int, day: int): string {
    IntString(year) + "-" + PadStart2(IntString(month + 1)) + "-" + PadStart2(IntString(day))
  }

  /** Two decimal digits of `n`, the first possibly `0`. */
  function TwoDigits(n: nat): string
    requires n < 100
  {
    [DigitChar(n / 10), DigitChar(n % 10)]
  }

  // ---------------------------------------------------------------------
  // Reading a key back

  /** The value of a non-empty string of decimal digits. */
  function ParseNat(s: string): Option<nat> {
    if |s| == 0 || !IsDigit(s[|s| - 1]) then None
    else if |s| == 1 then Some(DigitValue(s[0]))
    else match ParseNat(s[..|s| - 1])
      case None => None
      case Some(p) => Some(p * 10 + DigitValue(s[|s| - 1]))
  }

  /** The value of an optionally negative decimal integer. */
  function ParseInt(s: string): Option<int> {
    if |s| > 0 && s[0] == '-' then
      match ParseNat(s[1..])
      case None => None
      case Some(n) => Some(-(n as int))
    else
      match ParseNat(s)
      case None => None
      case Some(n) => Some(n)
  }

  /** Reads `year-MM-DD` back into (year, 0-based month, day). */
  function ParseKey(k: string): Option<(int, int, int)> {
    var n := |k|;
    if n < 7 || k[n - 6] != '-' || k[n - 3] != '-'
       || !IsDigit(k[n - 5]) || !IsDigit(k[n - 4]) || !IsDigit(k[n - 2]) || !IsDigit(k[n - 1])
    then None
    else
      match ParseInt(k[..n - 6])
      case None => None
      case Some(y) =>
        Some((y, DigitValue(k[n - 5]) * 10 + DigitValue(k[n - 4]) - 1,
              DigitValue(k[n - 2]) * 10 + DigitValue(k[n - 1])))
  }

  // ---------------------------------------------------------------------
  // Properties of the key

  lemma PaddedIsTwoDigits(n: nat)
    requires n < 100
    ensures PadStart2(IntString(n)) == TwoDigits(n)
  {
    if n >= 10 {
      assert NatString(n / 10) == [DigitChar(n / 10)];
    }
  }

  /** For a month in [0,11] and a day in [1,31] the key is the decimal year
      followed by the six characters `-MM-DD`, with the 1-based month and the
      day zero-padded. */
  lemma EntryKeyShape(year: int, month: int, day: int)
    requires 0 <= month <= 11 && 1 <= day <= 31
    ensures EntryKey(year, month, day) == IntString(year) + "-" + TwoDigits(month + 1) + "-" + TwoDigits(day)
    ensures |EntryKey(year, month, day)| == |IntString(year)| + 6
  {
    PaddedIsTwoDigits(month + 1);
    PaddedIsTwoDigits(day);
  }

  /** Keys are ten characters long, the `YYYY-MM-DD` shape, for the years
      1000 to 9999; the only other years with ten-character keys are the
      negative three-digit ones. */
  lemma FourDigitYears(year: int, month: int, day: int)
    requires 0 <= month <= 11 && 1 <= day <= 31
    ensures 1000 <= year <= 9999 ==> |EntryKey(year, month, day)| == 10
    ensures |EntryKey(year, month, day)| == 10 ==> 1000 <= year <= 9999 || -999 <= year <= -100
  {
    EntryKeyShape(year, month, day);
    if year < 0 {
      NatStringLength(-year);
    } else {
      NatStringLength(year);
    }
  }

  lemma NatStringLength(n: nat)
    ensures n < 10 ==> |NatString(n)| == 1
    ensures 10 <= n < 100 ==> |NatString(n)| == 2
    ensures 100 <= n < 1000 ==> |NatString(n)| == 3
    ensures 1000 <= n < 10000 ==> |NatString(n)| == 4
    ensures 10000 <= n ==> |NatString(n)| > 4
  {
    if n >= 10 {
      NatStringLength(n / 10);
    }
  }

  lemma {:induction false} ParseNatString(n: nat)
    ensures ParseNat(NatString(n)) == Some(n)
  {
    if n >= 10 {
      var s := NatString(n);
      assert s[..|s| - 1] == NatString(n / 10);
      ParseNatString(n / 10);
    }
  }

  lemma ParseNegative(n: nat)
    ensures ParseInt("-" + NatString(n)) == Some(-(n as int))
  {
    var s := "-" + NatString(n);
    assert s[0] == '-';
    assert s[1..] == NatString(n);
    ParseNatString(n);
  }

  lemma ParseNonNegative(n: nat)
    ensures ParseInt(NatString(n)) == Some(n as int)
  {
    var s := NatString(n);
    assert IsDigit(s[0]);
    ParseNatString(n);
  }

  /** Parsing the decimal form of an integer gives the integer back. */
  lemma ParseIntString(i: int)
    ensures ParseInt(IntString(i)) == Some(i)
  {
    if i < 0 {
      ParseNegative(-i);
    } else {
      ParseNonNegative(i);
    }
  }

  /** The year part of a key, then `-MM-DD`, reads back to its three numbers. */
  lemma ParseKeyOfParts(ys: string, y: int, a: nat, b: nat)
    requires |ys| >= 1 && ParseInt(ys) == Some(y) && a < 100 && b < 100
    ensures ParseKey(ys + "-" + TwoDigits(a) + "-" + TwoDigits(b)) == Some((y, a - 1, b))
  {
    var k := ys + "-" + TwoDigits(a) + "-" + TwoDigits(b);
    var n := |k|;
    assert n == |ys| + 6;
    assert k[..n - 6] == ys;
    assert k[n - 6] == '-' && k[n - 3] == '-';
    assert k[n - 5] == DigitChar(a / 10) && k[n - 4] == DigitChar(a % 10);
    assert k[n - 2] == DigitChar(b / 10) && k[n - 1] == DigitChar(b % 10);
  }

  /** Parsing a key gives back the date it was built from. */
  lemma EntryKeyRoundTrip(year: int, month: int, day: int)
    requires 0 <= month <= 11 && 1 <= day <= 31
    ensures ParseKey(EntryKey(year, month, day)) == Some((year, month, day))
  {
    EntryKeyShape(year, month, day);
    ParseIntString(year);
    ParseKeyOfParts(IntString(year), year, month + 1, day);
  }

  /** Distinct dates have distinct keys. */
  lemma EntryKeyInjective(y1: int, m1: int, d1: int, y2: int, m2: int, d2: int)
    requires 0 <= m1 <= 11 && 1 <= d1 <= 31
    requires 0 <= m2 <= 11 && 1 <= d2 <= 31
    requires EntryKey(y1, m1, d1) == EntryKey(y2, m2, d2)
    ensures y1 == y2 && m1 == m2 && d1 == d2
  {
    EntryKeyRoundTrip(y1, m1, d1);
    EntryKeyRoundTrip(y2, m2, d2);
  }

  // ---------------------------------------------------------------------
  // Sort order of keys

  /** `a < b` on JavaScript strings: the first differing character decides,
      and a proper prefix sorts first. The keys are ASCII, so comparing code
      points is comparing the code units JavaScript compares. */
  predicate Before(a: string, b: string)
    decreases |a|
  {
    if |a| == 0 then |b| > 0
    else if |b| == 0 then false
    else if a[0] != b[0] then a[0] < b[0]
    else Before(a[1..], b[1..])
  }

  /** Chronological order of (year, 0-based month, day). */
  predicate DateBefore(y1: int, m1: int, d1: int, y2: int, m2: int, d2: int) {
    y1 < y2 || (y1 == y2 && (m1 < m2 || (m1 == m2 && d1 < d2)))
  }

  function Pow10(w: nat): (p: nat)
    ensures p >= 1
  {
    if w == 0 then 1 else 10 * Pow10(w - 1)
  }

  /** The last `w` decimal digits of `n`, with leading zeros. */
  function Digits(n: nat, w: nat): (s: string)
    ensures |s| == w
  {
    if w == 0 then [] else Digits(n / 10, w - 1) + [DigitChar(n % 10)]
  }

  lemma BeforeIrreflexive(a: string)
    ensures !Before(a, a)
  {
  }

  /** Comparing two strings whose first parts have the same length compares
      the first parts, and on a tie the rest. */
  lemma {:induction false} BeforeOfConcat(a1: string, b1: string, a2: string, b2: string)
    requires |a1| == |a2|
    ensures Before(a1 + b1, a2 + b2) <==> Before(a1, a2) || (a1 == a2 && Before(b1, b2))
    decreases |a1|
  {
    if |a1| > 0 {
      assert (a1 + b1)[0] == a1[0] && (a2 + b2)[0] == a2[0];
      assert (a1 + b1)[1..] == a1[1..] + b1;
      assert (a2 + b2)[1..] == a2[1..] + b2;
      BeforeOfConcat(a1[1..], b1, a2[1..], b2);
      if a1[0] == a2[0] {
        assert a1 == a2 <==> a1[1..] == a2[1..] by {
          if a1[1..] == a2[1..] {
            assert a1 == [a1[0]] + a1[1..] && a2 == [a2[0]] + a2[1..];
          }
        }
      }
    } else {
      assert a1 + b1 == b1 && a2 + b2 == b2;
    }
  }

  lemma {:induction false} DigitsInjective(a: nat, b: nat, w: nat)
    requires a < Pow10(w) && b < Pow10(w)
    ensures Digits(a, w) == Digits(b, w) <==> a == b
  {
    if w > 0 && Digits(a, w) == Digits(b, w) {
      var da, db := Digits(a, w), Digits(b, w);
      assert da[..w - 1] == Digits(a / 10, w - 1) && db[..w - 1] == Digits(b / 10, w - 1);
      assert DigitChar(a % 10) == da[w - 1] == db[w - 1] == DigitChar(b % 10);
      DigitsInjective(a / 10, b / 10, w - 1);
    }
  }

  /** Fixed-width digit strings sort as the numbers they write. */
  lemma {:induction false} DigitsOrder(a: nat, b: nat, w: nat)
    requires a < Pow10(w) && b < Pow10(w)
    ensures Before(Digits(a, w), Digits(b, w)) <==> a < b
  {
    if w > 0 {
      DigitsOrder(a / 10, b / 10, w - 1);
      DigitsInjective(a / 10, b / 10, w - 1);
      BeforeOfConcat(Digits(a / 10, w - 1), [DigitChar(a % 10)], Digits(b / 10, w - 1), [DigitChar(b % 10)]);
      assert a == 10 * (a / 10) + a % 10 && b == 10 * (b / 10) + b % 10;
    }
  }

  lemma NatStringIsDigits(n: nat, w: nat)
    requires Pow10(w) <= 10 * n && n < Pow10(w) && w >= 1
    ensures NatString(n) == Digits(n, w)
  {
    if n >= 10 {
      NatStringIsDigits(n / 10, w - 1);
    }
  }

  lemma TwoDigitsIsDigits(n: nat)
    requires n < 100
    ensures TwoDigits(n) == Digits(n, 2)
  {
    assert Digits(n, 2) == Digits(n / 10, 1) + [DigitChar(n % 10)];
    assert Digits(n / 10, 1) == [DigitChar(n / 10 % 10)];
  }

  lemma KeyOfPartsRegroup(y: string, sep: string, m: string, d: string)
    ensures y + sep + m + sep + d == KeyOfParts(y, sep, m, d)
  {
  }

  /** For the years 1000 to 9999, the key is the four digits of the year and
      the two digits of the month and the day. */
  lemma EntryKeyDigits(year: int, month: int, day: int)
    requires 1000 <= year <= 9999 && 0 <= month <= 11 && 1 <= day <= 31
    ensures EntryKey(year, month, day) == KeyOfParts(Digits(year, 4), "-", Digits(month + 1, 2), Digits(day, 2))
  {
    EntryKeyShape(year, month, day);
    assert Pow10(4) == 10000;
    NatStringIsDigits(year, 4);
    TwoDigitsIsDigits(month + 1);
    TwoDigitsIsDigits(day);
    KeyOfPartsRegroup(Digits(year, 4), "-", Digits(month + 1, 2), Digits(day, 2));
  }

  /** A string `y`, the separator, `m`, the separator and `d`: the shape of a key. */
  function KeyOfParts(y: string, sep: string, m: string, d: string): string {
    y + (sep + (m + (sep + d)))
  }

  /** Two-digit month and day parts with a separator between them sort by
      the month, then by the day. */
  lemma MonthDayOrder(sep: string, m1: nat, d1: nat, m2: nat, d2: nat)
    requires m1 < 100 && d1 < 100 && m2 < 100 && d2 < 100
    ensures Before(Digits(m1, 2) + (sep + Digits(d1, 2)), Digits(m2, 2) + (sep + Digits(d2, 2)))
      <==> m1 < m2 || (m1 == m2 && d1 < d2)
  {
    assert Pow10(2) == 100;
    DigitsOrder(m1, m2, 2);
    DigitsInjective(m1, m2, 2);
    DigitsOrder(d1, d2, 2);
    BeforeIrreflexive(sep);
    BeforeOfConcat(sep, Digits(d1, 2), sep, Digits(d2, 2));
    BeforeOfConcat(Digits(m1, 2), sep + Digits(d1, 2), Digits(m2, 2), sep + Digits(d2, 2));
  }

  /** Four year digits, then two month digits and two day digits after
      separators, as in a key, sort as the numbers they write, year first. */
  lemma DigitPartsOrder(sep: string, y1: nat, m1: nat, d1: nat, y2: nat, m2: nat, d2: nat)
    requires y1 < 10000 && m1 < 100 && d1 < 100 && y2 < 10000 && m2 < 100 && d2 < 100
    ensures Before(KeyOfParts(Digits(y1, 4), sep, Digits(m1, 2), Digits(d1, 2)),
                   KeyOfParts(Digits(y2, 4), sep, Digits(m2, 2), Digits(d2, 2)))
      <==> y1 < y2 || (y1 == y2 && (m1 < m2 || (m1 == m2 && d1 < d2)))
  {
    assert Pow10(4) == 10000;
    DigitsOrder(y1, y2, 4);
    DigitsInjective(y1, y2, 4);
    MonthDayOrder(sep, m1, d1, m2, d2);
    var r1, r2 := Digits(m1, 2) + (sep + Digits(d1, 2)), Digits(m2, 2) + (sep + Digits(d2, 2));
    BeforeIrreflexive(sep);
    BeforeOfConcat(sep, r1, sep, r2);
    BeforeOfConcat(Digits(y1, 4), sep + r1, Digits(y2, 4), sep + r2);
  }

  /** For the years 1000 to 9999, keys sort exactly as the dates they name. */
  lemma KeyOrderIsDateOrder(y1: int, m1: int, d1: int, y2: int, m2: int, d2: int)
    requires 1000 <= y1 <= 9999 && 0 <= m1 <= 11 && 1 <= d1 <= 31
    requires 1000 <= y2 <= 9999 && 0 <= m2 <= 11 && 1 <= d2 <= 31
    ensures Before(EntryKey(y1, m1, d1), EntryKey(y2, m2, d2)) <==> DateBefore(y1, m1, d1, y2, m2, d2)
  {
    EntryKeyDigits(y1, m1, d1);
    EntryKeyDigits(y2, m2, d2);
    DigitPartsOrder("-", y1, m1 + 1, d1, y2, m2 + 1, d2);
  }

  /** Outside those years the order breaks: the key of the last day of year
      999 sorts after that of the first day of year 1000, and year -1 sorts
      before year -2. */
  lemma KeyOrderOutsideFourDigitYears()
    ensures DateBefore(999, 11, 31, 1000, 0, 1) && Before(EntryKey(1000, 0, 1), EntryKey(999, 11, 31))
    ensures DateBefore(-2, 0, 1, -1, 0, 1) && Before(EntryKey(-1, 0, 1), EntryKey(-2, 0, 1))
  {
    EntryKeyShape(1000, 0, 1);
    EntryKeyShape(999, 11, 31);
    NatStringIsDigits(1000, 4);
    NatStringIsDigits(999, 3);
    var a, b := EntryKey(1000, 0, 1), EntryKey(999, 11, 31);
    assert a[0] == '1' && b[0] == '9';
    EntryKeyShape(-1, 0, 1);
    EntryKeyShape(-2, 0, 1);
    var c, d := EntryKey(-1, 0, 1), EntryKey(-2, 0, 1);
    assert c[0] == d[0] == '-';
    assert c[1] == '1' && d[1] == '2';
  }
}
