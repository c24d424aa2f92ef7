/** `val2elapstr` of src/display.c: a number of seconds as days, hours, minutes and seconds. */
module Elapsed {
  import opened Arithmetic

  const DAYSECS: int := 24 * 60 * 60
  const HOURSECS: int := 60 * 60
  const MINSECS: int := 60

  function DigitChar(d: nat): char
    requires d < 10
  {
    ['0', '1', '2', '3', '4', '5', '6', '7', '8', '9'][d]
  }

  function Digits(n: nat): string {
    if n < 10 then [DigitChar(n)] else Digits(n / 10) + [DigitChar(n % 10)]
  }

  /** What `%d` prints. */
  function Decimal(n: int): string {
    if n < 0 then "-" + Digits(-n) else Digits(n)
  }

  /** One unit: printed and taken off if the value exceeds it. */
  function Field(v: int, secs: int, unit: char): string
    requires secs > 0
  {
    if v > secs then Digits(v / secs) + [unit] else ""
  }

  function Rest(v: int, secs: int): int
    requires secs > 0
  {
    if v > secs then v % secs else v
  }

  function SecondsField(v: int): string {
    if v != 0 then Decimal(v) + "s" else ""
  }

  function MinutesOn(v: int): string {
    Field(v, MINSECS, 'm') + SecondsField(Rest(v, MINSECS))
  }

  function HoursOn(v: int): string {
    Field(v, HOURSECS, 'h') + MinutesOn(Rest(v, HOURSECS))
  }

  /** The text of a number of seconds; the tests are strict, so a full day prints as 24h. */
  function Text(value: int): string {
    Field(value, DAYSECS, 'd') + HoursOn(Rest(value, DAYSECS))
  }

  /** `sprintf` at `p`: the text, closed by a NUL. */
  method Sprint(buf: array<char>, p: nat, text: string) returns (q: nat)
    requires p + |text| < buf.Length
    modifies buf
    ensures q == p + |text|
    ensures buf[..q] == old(buf[..p]) + text && buf[q] == '\0'
  {
    var i := 0;
    while i < |text|
      invariant 0 <= i <= |text|
      invariant buf[..p + i] == old(buf[..p]) + text[..i]
    {
      buf[p + i] := text[i];
      i := i + 1;
    }
    assert text[..i] == text;
    q := p + i;
    buf[q] := '\0';
  }

  /** A text printed so far ends in a NUL. */
  ghost predicate Closed(buf: array<char>, p: nat)
    requires p < buf.Length
    reads buf
  {
    p > 0 ==> buf[p] == '\0'
  }

  /** One of the three blocks that print a unit. */
  method PrintUnit(buf: array<char>, p: nat, v: int, secs: int, unit: char) returns (q: nat, rest: int)
    requires secs > 0 && p + |Field(v, secs, unit)| < buf.Length && Closed(buf, p)
    modifies buf
    ensures q == p + |Field(v, secs, unit)| && rest == Rest(v, secs)
    ensures buf[..q] == old(buf[..p]) + Field(v, secs, unit) && Closed(buf, q)
    ensures v <= secs ==> buf[..] == old(buf[..])
  {
    q, rest := p, v;
    if v > secs {
      q := Sprint(buf, p, Digits(v / secs) + [unit]);
      rest := v % secs;
    }
  }

  method PrintSeconds(buf: array<char>, p: nat, v: int) returns (q: nat)
    requires p + |SecondsField(v)| < buf.Length && Closed(buf, p)
    modifies buf
    ensures q == p + |SecondsField(v)|
    ensures buf[..q] == old(buf[..p]) + SecondsField(v) && Closed(buf, q)
    ensures v == 0 ==> buf[..] == old(buf[..])
  {
    q := p;
    if v != 0 {
      q := Sprint(buf, p, Decimal(v) + "s");
    }
  }

  lemma {:induction false} TextInFields(value: int)
    ensures var v1 := Rest(value, DAYSECS); var v2 := Rest(v1, HOURSECS);
            Text(value) == Field(value, DAYSECS, 'd') + Field(v1, HOURSECS, 'h') + Field(v2, MINSECS, 'm')
                           + SecondsField(Rest(v2, MINSECS))
  {
    var v1 := Rest(value, DAYSECS);
    var v2 := Rest(v1, HOURSECS);
    var a, b := Field(value, DAYSECS, 'd'), Field(v1, HOURSECS, 'h');
    var c, d := Field(v2, MINSECS, 'm'), SecondsField(Rest(v2, MINSECS));
    assert a + (b + (c + d)) == a + b + c + d;
  }

  method Val2elapstr(value: int, strvalue: array<char>) returns (n: nat)
    requires |Text(value)| < strvalue.Length
    modifies strvalue
    ensures n == |Text(value)| && strvalue[..n] == Text(value) && Closed(strvalue, n)
    ensures value == 0 ==> strvalue[..] == old(strvalue[..])
  {
    TextInFields(value);
    var p, v1 := PrintUnit(strvalue, 0, value, DAYSECS, 'd');
    ghost var a := Field(value, DAYSECS, 'd');
    assert strvalue[..p] == a;
    var q, v2 := PrintUnit(strvalue, p, v1, HOURSECS, 'h');
    ghost var b := Field(v1, HOURSECS, 'h');
    assert strvalue[..q] == a + b;
    var r, v3 := PrintUnit(strvalue, q, v2, MINSECS, 'm');
    ghost var c := Field(v2, MINSECS, 'm');
    assert strvalue[..r] == a + b + c;
    n := PrintSeconds(strvalue, r, v3);
  }

  // ------------------------------------------------------- reading it back

  function DigitValue(c: char): nat {
    if '0' <= c <= '9' then c as int - '0' as int else 0
  }

  function UnitOf(c: char): int {
    if c == 'd' then DAYSECS
    else if c == 'h' then HOURSECS
    else if c == 'm' then MINSECS
    else if c == 's' then 1
    else 0
  }

  /** The seconds that a text stands for when `num` has been read of its first number. */
  function SecondsFrom(s: string, num: nat): int {
    if s == "" then 0
    else if '0' <= s[0] <= '9' then SecondsFrom(s[1..], 10 * num + DigitValue(s[0]))
    else num * UnitOf(s[0]) + SecondsFrom(s[1..], 0)
  }

  function Seconds(s: string): int {
    if s != "" && s[0] == '-' then -SecondsFrom(s[1..], 0) else SecondsFrom(s, 0)
  }

  lemma {:induction false} DigitBack(d: nat)
    requires d < 10
    ensures '0' <= DigitChar(d) <= '9' && DigitValue(DigitChar(d)) == d
  {
  }

  lemma {:induction false} DigitsBack(n: nat, rest: string)
    ensures SecondsFrom(Digits(n) + rest, 0) == SecondsFrom(rest, n)
    ensures Digits(n) != "" && Digits(n)[0] != '-'
  {
    if n < 10 {
      DigitBack(n);
      assert ([DigitChar(n)] + rest)[1..] == rest;
    } else {
      var last := [DigitChar(n % 10)];
      DigitBack(n % 10);
      DigitsBack(n / 10, last + rest);
      assert Digits(n) + rest == Digits(n / 10) + (last + rest);
      assert (last + rest)[1..] == rest;
    }
  }

  lemma {:induction false} NumberBack(n: nat, unit: char, rest: string)
    requires !('0' <= unit <= '9')
    ensures SecondsFrom(Digits(n) + [unit] + rest, 0) == n * UnitOf(unit) + SecondsFrom(rest, 0)
    ensures Digits(n)[0] != '-'
  {
    DigitsBack(n, [unit] + rest);
    assert Digits(n) + [unit] + rest == Digits(n) + ([unit] + rest);
    assert ([unit] + rest)[1..] == rest;
  }

  lemma {:induction false} FieldBack(v: nat, secs: int, unit: char, rest: string)
    requires !('0' <= unit <= '9') && UnitOf(unit) == secs > 0
    requires SecondsFrom(rest, 0) == Rest(v, secs)
    ensures SecondsFrom(Field(v, secs, unit) + rest, 0) == v
    ensures Field(v, secs, unit) != "" ==> Field(v, secs, unit)[0] != '-'
  {
    if v > secs {
      var n := v / secs;
      NumberBack(n, unit, rest);
      assert v == n * secs + v % secs;
    } else {
      assert "" + rest == rest;
    }
  }

  lemma {:induction false} SecondsBack(v: nat)
    ensures SecondsFrom(SecondsField(v), 0) == v
    ensures SecondsField(v) != "" ==> SecondsField(v)[0] != '-'
  {
    if v != 0 {
      DigitsBack(v, "s");
      assert "s"[1..] == "";
    }
  }

  lemma {:induction false} MinutesBack(v: nat)
    ensures SecondsFrom(MinutesOn(v), 0) == v
    ensures MinutesOn(v) != "" ==> MinutesOn(v)[0] != '-'
  {
    SecondsBack(Rest(v, MINSECS));
    FieldBack(v, MINSECS, 'm', SecondsField(Rest(v, MINSECS)));
  }

  lemma {:induction false} HoursBack(v: nat)
    ensures SecondsFrom(HoursOn(v), 0) == v
    ensures HoursOn(v) != "" ==> HoursOn(v)[0] != '-'
  {
    MinutesBack(Rest(v, HOURSECS));
    FieldBack(v, HOURSECS, 'h', MinutesOn(Rest(v, HOURSECS)));
  }

  lemma {:induction false} NoField(v: int, secs: int, unit: char, rest: string)
    requires secs > 0 && v <= secs
    ensures Field(v, secs, unit) + rest == rest && Rest(v, secs) == v
  {
  }

  lemma {:induction false} JoinThree(a: string, b: string, c: string)
    ensures a + b + c == a + (b + c)
  {
  }

  lemma {:induction false} NegativeText(value: int)
    requires value < 0
    ensures Text(value) == "-" + (Digits(-value) + "s")
  {
    NoField(value, MINSECS, 'm', SecondsField(value));
    NoField(value, HOURSECS, 'h', MinutesOn(value));
    NoField(value, DAYSECS, 'd', HoursOn(value));
    JoinThree("-", Digits(-value), "s");
  }

  lemma {:induction false} MinusBack(n: nat)
    ensures Seconds("-" + (Digits(n) + "s")) == 0 - n
  {
    var digits := Digits(n) + "s";
    assert ("-" + digits)[1..] == digits;
    NumberBack(n, 's', "");
    assert digits + "" == digits;
  }

  lemma {:induction false} NegativeBack(value: int)
    requires value < 0
    ensures Seconds(Text(value)) == value
  {
    NegativeText(value);
    MinusBack(-value);
  }

  lemma {:induction false} PlainBack(s: string)
    requires s != "" ==> s[0] != '-'
    ensures Seconds(s) == SecondsFrom(s, 0)
  {
  }

  /** The text can be read back, for every number of seconds, negative ones too. */
  lemma {:induction false} TextReadsBack(value: int)
    ensures Seconds(Text(value)) == value
  {
    if value >= 0 {
      var hours := HoursOn(Rest(value, DAYSECS));
      HoursBack(Rest(value, DAYSECS));
      FieldBack(value, DAYSECS, 'd', hours);
      PlainBack(Field(value, DAYSECS, 'd') + hours);
    } else {
      NegativeBack(value);
    }
  }

  /** Different numbers of seconds have different texts. */
  lemma {:induction false} TextInjective(a: int, b: int)
    requires Text(a) == Text(b)
    ensures a == b
  {
    TextReadsBack(a);
    TextReadsBack(b);
  }

  lemma {:induction false} DigitsShort(n: nat)
    ensures n < 100 ==> |Digits(n)| <= 2
    ensures n < 1000 ==> |Digits(n)| <= 3
  {
    if 10 <= n < 1000 {
      assert n / 10 < 100;
      assert n / 10 >= 10 ==> Digits(n / 10) == Digits(n / 10 / 10) + [DigitChar(n / 10 % 10)];
    }
  }

  lemma {:induction false} FieldShort(v: nat, secs: int, unit: char)
    requires secs > 0
    ensures v < 100 * secs ==> |Field(v, secs, unit)| <= 3
    ensures v < 1000 * secs ==> |Field(v, secs, unit)| <= 4
    ensures 0 <= Rest(v, secs) <= secs
  {
    QuotientBelow(v, secs, 100);
    QuotientBelow(v, secs, 1000);
    DigitsShort(v / secs);
  }

  lemma {:induction false} QuotientBelow(v: nat, secs: int, n: nat)
    requires secs > 0
    ensures v < n * secs ==> v / secs < n
  {
    if v / secs >= n {
      MultipleGrows(v / secs - n + 1, secs);
    }
  }

  /** Below a thousand days the text has at most 13 characters. */
  lemma {:induction false} TextLength(value: nat)
    requires value < 1000 * DAYSECS
    ensures |Text(value)| <= 13
  {
    FieldShort(value, DAYSECS, 'd');
    var v1 := Rest(value, DAYSECS);
    FieldShort(v1, HOURSECS, 'h');
    var v2 := Rest(v1, HOURSECS);
    FieldShort(v2, MINSECS, 'm');
    DigitsShort(Rest(v2, MINSECS));
  }

  /** At the exact boundaries the larger unit is not used, and zero has no text at all. */
  lemma {:induction false} Boundaries()
    ensures Text(0) == "" && Text(MINSECS) == "60s" && Text(HOURSECS) == "60m" && Text(DAYSECS) == "24h"
  {
    assert Digits(60) == Digits(6) + "0" && Digits(24) == Digits(2) + "4";
    assert Text(MINSECS) == SecondsField(60);
    assert Text(HOURSECS) == MinutesOn(3600);
    assert Text(DAYSECS) == HoursOn(86400);
  }

  lemma {:induction false} FieldIs(v: nat, n: nat, r: nat, secs: int, unit: char)
    requires v == n * secs + r && r < secs < v
    ensures Field(v, secs, unit) == Digits(n) + [unit] && Rest(v, secs) == r
  {
    DivModUnique(v, n, r, secs);
  }

  lemma {:induction false} MinutesAre(v: nat, n: nat, r: nat)
    requires v == n * MINSECS + r && r < MINSECS < v && 10 <= n < 100 && 10 <= r
    ensures MinutesOn(v) == [DigitChar(n / 10), DigitChar(n % 10), 'm', DigitChar(r / 10), DigitChar(r % 10), 's']
  {
    FieldIs(v, n, r, MINSECS, 'm');
    TwoDigits(n);
    TwoDigits(r);
  }

  lemma {:induction false} HoursAre(v: nat, n: nat, r: nat)
    requires v == n * HOURSECS + r && r < HOURSECS < v
    ensures HoursOn(v) == Digits(n) + "h" + MinutesOn(r)
  {
    FieldIs(v, n, r, HOURSECS, 'h');
  }

  lemma {:induction false} DaysAre(v: nat, n: nat, r: nat)
    requires v == n * DAYSECS + r && r < DAYSECS < v
    ensures Text(v) == Digits(n) + "d" + HoursOn(r)
  {
    FieldIs(v, n, r, DAYSECS, 'd');
  }

  lemma {:induction false} LongHours(v: nat)
    requires v == DAYSECS - 1
    ensures HoursOn(v) == "23h59m59s"
  {
    var n, r := v / HOURSECS, v % HOURSECS;
    assert n == 23 && r == HOURSECS - 1;
    MinutesAre(r, 59, 59);
    HoursAre(v, n, r);
    TwoDigits(n);
    JoinLongHours(Digits(n), MinutesOn(r));
  }

  lemma {:induction false} JoinLongHours(hours: string, minutes: string)
    requires hours == "23" && minutes == "59m59s"
    ensures hours + "h" + minutes == "23h59m59s"
  {
  }

  /** One second less than a thousand days has a text of the 13 characters the comment allows. */
  lemma {:induction false} LongestText(value: nat)
    requires value == 1000 * DAYSECS - 1
    ensures Text(value) == "999d23h59m59s"
  {
    LongDays(value, 999, value - 999 * DAYSECS);
  }

  lemma {:induction false} LongDays(value: nat, n: nat, r: nat)
    requires n == 999 && r == DAYSECS - 1 && value == n * DAYSECS + r
    ensures Text(value) == "999d23h59m59s"
  {
    NinesOnly(n);
    LongHours(r);
    DaysAre(value, n, r);
    JoinDays(Digits(n), HoursOn(r));
  }

  lemma {:induction false} JoinDays(days: string, hours: string)
    requires days == "999" && hours == "23h59m59s"
    ensures days + "d" + hours == "999d23h59m59s"
  {
  }

  lemma {:induction false} NinesOnly(n: nat)
    requires n == 999
    ensures Digits(n) == "999"
  {
    ThreeDigits(n);
  }

  lemma {:induction false} ThreeDigits(n: nat)
    requires 100 <= n < 1000
    ensures Digits(n) == [DigitChar(n / 100), DigitChar(n / 10 % 10), DigitChar(n % 10)]
  {
    TwoDigits(n / 10);
    assert n / 10 / 10 == n / 100;
  }

  /** The first text that 8 bytes cannot hold with its NUL. */
  lemma {:induction false} TooLongForEight(value: nat)
    requires value == 4210
    ensures Text(value) == "1h10m10s"
  {
    TenPastOne(value);
    NoField(value, DAYSECS, 'd', HoursOn(value));
  }

  lemma {:induction false} TenPastOne(v: nat)
    requires v == 4210
    ensures HoursOn(v) == "1h10m10s"
  {
    var n, r := v / HOURSECS, v % HOURSECS;
    assert n == 1 && r == 610;
    MinutesAre(r, 10, 10);
    HoursAre(v, n, r);
    JoinShortHours(Digits(n), MinutesOn(r));
  }

  lemma {:induction false} JoinShortHours(hours: string, minutes: string)
    requires hours == "1" && minutes == "10m10s"
    ensures hours + "h" + minutes == "1h10m10s"
  {
  }

  lemma {:induction false} TwoDigits(n: nat)
    requires 10 <= n < 100
    ensures Digits(n) == [DigitChar(n / 10), DigitChar(n % 10)]
  {
    assert Digits(n / 10) == [DigitChar(n / 10)];
  }

  /** Minutes and seconds of less than an hour. */
  lemma {:induction false} MinutesShort(v: nat)
    requires v <= HOURSECS
    ensures |MinutesOn(v)| <= 6 && (v < 610 ==> |MinutesOn(v)| <= 5)
  {
    FieldShort(v, MINSECS, 'm');
    DigitsShort(Rest(v, MINSECS));
    if v < 610 {
      MinutesOfTen(v);
    }
  }

  lemma {:induction false} MinutesOfTen(v: nat)
    requires v < 610
    ensures |Field(v, MINSECS, 'm')| <= 2 || (|Field(v, MINSECS, 'm')| <= 3 && Rest(v, MINSECS) < 10)
  {
    if v > MINSECS {
      var n, r := v / MINSECS, v % MINSECS;
      assert v == n * MINSECS + r;
      if n >= 10 {
        assert n == 10 && r < 10;
        TwoDigits(10);
      }
    }
  }

  lemma {:induction false} ShortHours(value: nat)
    requires HOURSECS < value < 4210
    ensures |HoursOn(value)| <= 7
  {
    HoursAre(value, 1, value - HOURSECS);
    MinutesShort(value - HOURSECS);
  }

  lemma {:induction false} ShortText(value: nat)
    requires value < 4210
    ensures |Text(value)| <= 7
  {
    NoField(value, DAYSECS, 'd', HoursOn(value));
    if value <= HOURSECS {
      MinutesShort(value);
      NoField(value, HOURSECS, 'h', MinutesOn(value));
    } else {
      ShortHours(value);
    }
  }

  /** Eight bytes hold every text up to some bound exactly if the bound is at most 4210 seconds. */
  lemma {:induction false} EightBytesSufficeIff(bound: nat)
    ensures (forall value: nat :: value < bound ==> |Text(value)| < 8) <==> bound <= 4210
  {
    forall value: nat | value < 4210
      ensures |Text(value)| < 8
    {
      ShortText(value);
    }
    TooLongForEight(4210);
  }
}
