/**
 `generateDate` of scripts/new.ts: a calendar date printed as the year's
 `toString()` followed by the month and the day, each zero-padded to two
 characters with the idiom `('0' + n).slice(-2)`.
 */
module DateStamper {
  import opened Decimal
  import opened Options

  /**
   The three `Date` getters the stamp reads: `getFullYear()`, `getMonth() + 1`
   and `getDate()`. Reading the wall clock in the local time zone is not modelled;
   the date is an input.
   */
  datatype CalendarDate = CalendarDate(year: nat, month: nat, day: nat)

  /** The ranges the getters return: month 1..12, day of the month 1..31. */
  predicate ValidDate(d: CalendarDate) {
    1 <= d.month <= 12 && 1 <= d.day <= 31
  }

  /** A valid date whose year prints with exactly four digits. */
  predicate FourDigitYear(d: CalendarDate) {
    ValidDate(d) && 1000 <= d.year <= 9999
  }

  /** JavaScript `s.slice(-k)` for k >= 1: the last `k` characters, or all of `s` when it is shorter. */
  function SliceLast(s: string, k: nat): (r: string)
    requires k >= 1
    ensures |r| == if |s| < k then |s| else k
  {
    if |s| <= k then s else s[|s| - k..]
  }

  /** What `slice(-k)` keeps is the end of `s`: its last `|r|` characters. */
  lemma {:induction false} SliceLastSuffix(s: string, k: nat)
    requires k >= 1
    ensures SliceLast(s, k) == s[|s| - |SliceLast(s, k)|..]
  {
  }

  /** The padding idiom `('0' + n).slice(-2)`: always two digits. */
  function PadTwo(n: nat): (r: string)
    ensures |r| == 2 && AllDigits(r)
  {
    SliceLast("0" + NatToDecimal(n), 2)
  }

  /** The padding keeps the tens digit and the units digit of `n`; below 10 the tens digit is the padding '0'. */
  lemma {:induction false} PadTwoDigits(n: nat)
    ensures PadTwo(n) == [DigitChar((n / 10) % 10), DigitChar(n % 10)]
  {
    if n >= 10 {
      var m := n / 10;
      NatToDecimalLast(m);
      assert NatToDecimal(n) == NatToDecimal(m) + [DigitChar(n % 10)];
    }
  }

  /** A two-character digit string reads as tens digit times ten plus units digit. */
  lemma {:induction false} ParseTwoDigits(t: string)
    requires |t| == 2 && AllDigits(t)
    ensures ParseDecimal(t) == 10 * DigitValue(t[0]) + DigitValue(t[1])
  {
    assert t[..1] == [t[0]] && t[..1][..0] == [];
  }

  lemma {:induction false} LastTwoDigitsArithmetic(n: nat)
    ensures n % 100 == 10 * ((n / 10) % 10) + n % 10
  {
    var m, b := n / 10, n % 10;
    var q, a := m / 10, m % 10;
    assert n == 10 * m + b;
    assert m == 10 * q + a;
    assert n == 100 * q + (10 * a + b);
  }

  /**
   The two padded characters read back as `n` modulo 100; below 100 that is `n`
   itself, and the field starts with the padding '0' exactly for one-digit `n`.
   */
  lemma {:induction false} PadTwoValue(n: nat)
    ensures ParseDecimal(PadTwo(n)) == n % 100
    ensures n < 100 ==> ParseDecimal(PadTwo(n)) == n
    ensures n < 100 ==> (PadTwo(n)[0] == '0' <==> n < 10)
  {
    PadTwoDigits(n);
    ParseTwoDigits(PadTwo(n));
    LastTwoDigitsArithmetic(n);
    if n < 100 {
      assert n % 100 == n by { DivModHundredSmall(n); }
      assert (n / 10) % 10 == n / 10;
    }
  }

  lemma {:induction false} DivModHundredSmall(n: nat)
    requires n < 100
    ensures n % 100 == n
  {
    assert n == 100 * 0 + n;
  }

  /** Every two-digit string is the padding of its own value. */
  lemma {:induction false} PadTwoParse(t: string)
    requires |t| == 2 && AllDigits(t)
    ensures PadTwo(ParseDecimal(t)) == t
  {
    var a, b := DigitValue(t[0]), DigitValue(t[1]);
    ParseTwoDigits(t);
    PadTwoOfDigits(a, b);
    assert PadTwo(10 * a + b)[0] == t[0] && PadTwo(10 * a + b)[1] == t[1];
  }

  /** The padding of a number below 100 is its tens digit and its units digit. */
  lemma {:induction false} PadTwoOfDigits(a: nat, b: nat)
    requires a < 10 && b < 10
    ensures PadTwo(10 * a + b) == [DigitChar(a), DigitChar(b)]
  {
    DivModTen(10 * a + b, a, b);
    PadTwoDigits(10 * a + b);
  }

  /** `generateDate`: the year's numeral, then the padded month, then the padded day. */
  function GenerateDate(d: CalendarDate): (r: string)
    ensures AllDigits(r)
    ensures |r| == |NatToDecimal(d.year)| + 4
  {
    NatToDecimal(d.year) + PadTwo(d.month) + PadTwo(d.day)
  }

  /**
   The fields of the stamp: the unpadded year's numeral, then two characters
   that read as the month and two that read as the day, each starting with
   the padding '0' exactly when the value has one digit.
   */
  lemma {:induction false} DateStampFields(d: CalendarDate)
    requires ValidDate(d)
    ensures var r, y := GenerateDate(d), |NatToDecimal(d.year)|;
      && r[..y] == NatToDecimal(d.year)
      && ParseDecimal(r[..y]) == d.year
      && ParseDecimal(r[y..y + 2]) == d.month
      && ParseDecimal(r[y + 2..]) == d.day
      && (r[y] == '0' <==> d.month < 10)
      && (r[y + 2] == '0' <==> d.day < 10)
  {
    PadTwoValue(d.month);
    PadTwoValue(d.day);
    ParseNatToDecimal(d.year);
    ThreeFields(NatToDecimal(d.year), PadTwo(d.month), PadTwo(d.day));
  }

  /** Reading back the three pieces of a concatenation cut at the piece boundaries. */
  lemma {:induction false} ThreeFields(year: string, month: string, day: string)
    requires AllDigits(year) && |month| == 2 && AllDigits(month) && |day| == 2 && AllDigits(day)
    ensures var r, y := year + month + day, |year|;
      && r[..y] == year
      && ParseDecimal(r[..y]) == ParseDecimal(year)
      && ParseDecimal(r[y..y + 2]) == ParseDecimal(month)
      && ParseDecimal(r[y + 2..]) == ParseDecimal(day)
      && r[y] == month[0]
      && r[y + 2] == day[0]
  {
    var r, y := year + month + day, |year|;
    assert r[..y] == year;
    assert r[y..y + 2] == month;
    assert r[y + 2..] == day;
  }

  /** The stamp is eight characters long exactly when the year has four digits. */
  lemma {:induction false} DateStampLength(d: CalendarDate)
    ensures |GenerateDate(d)| == 8 <==> 1000 <= d.year <= 9999
  {
    FourDigitNumeral(d.year);
  }

  /** Two valid dates with the same stamp are the same date, whatever the year's width. */
  lemma {:induction false} GenerateDateInjective(d1: CalendarDate, d2: CalendarDate)
    requires ValidDate(d1) && ValidDate(d2)
    requires GenerateDate(d1) == GenerateDate(d2)
    ensures d1 == d2
  {
    DateStampFields(d1);
    DateStampFields(d2);
    NatToDecimalInjective(d1.year, d2.year);
  }

  /**
   Reads an eight-character stamp back: characters 0-3 as the year (which must
   not start with '0'), 4-5 as the month and 6-7 as the day; `None` for anything
   that is not the stamp of a valid date.
   */
  function ParseDateStamp(s: string): (r: Option<CalendarDate>)
    ensures r.Some? ==> ValidDate(r.value)
  {
    if |s| == 8 && AllDigits(s) && s[0] != '0' then
      var d := CalendarDate(ParseDecimal(s[..4]), ParseDecimal(s[4..6]), ParseDecimal(s[6..]));
      if ValidDate(d) then Some(d) else None
    else
      None
  }

  /** Decoding the stamp of a four-digit-year date recovers year, month and day. */
  lemma {:induction false} ParseGenerateDate(d: CalendarDate)
    requires FourDigitYear(d)
    ensures ParseDateStamp(GenerateDate(d)) == Some(d)
  {
    FourDigitNumeral(d.year);
    DateStampFields(d);
  }

  /** Whatever decodes is a four-digit-year date whose stamp is exactly the decoded string. */
  lemma {:induction false} GenerateParseDate(s: string)
    requires ParseDateStamp(s).Some?
    ensures FourDigitYear(ParseDateStamp(s).value)
    ensures GenerateDate(ParseDateStamp(s).value) == s
  {
    var d := ParseDateStamp(s).value;
    NatToDecimalParse(s[..4]);
    FourDigitNumeral(d.year);
    PadTwoParse(s[4..6]);
    PadTwoParse(s[6..]);
    assert s == s[..4] + s[4..6] + s[6..];
  }

  /** The digits of a four-digit year, most significant first. */
  lemma {:induction false} YearDigits(y: nat)
    requires 1000 <= y <= 9999
    ensures NatToDecimal(y) ==
      [DigitChar(y / 1000), DigitChar((y / 100) % 10), DigitChar((y / 10) % 10), DigitChar(y % 10)]
  {
    assert NatToDecimal(y / 1000) == [DigitChar(y / 1000)];
    assert NatToDecimal(y / 100) == NatToDecimal(y / 1000) + [DigitChar((y / 100) % 10)];
    assert NatToDecimal(y / 10) == NatToDecimal(y / 100) + [DigitChar((y / 10) % 10)];
  }

  /** 2023-03-09 prints as "20230309". */
  lemma {:induction false} ScenarioStampMarch()
    ensures GenerateDate(CalendarDate(2023, 3, 9)) == "20230309"
  {
    YearDigits(2023);
    PadTwoDigits(3);
    PadTwoDigits(9);
  }

  /** 1999-12-31 prints as "19991231". */
  lemma {:induction false} ScenarioStampDecember()
    ensures GenerateDate(CalendarDate(1999, 12, 31)) == "19991231"
  {
    YearDigits(1999);
    PadTwoDigits(12);
    PadTwoDigits(31);
  }

  /** 2024-07-04 prints as "20240704". */
  lemma {:induction false} ScenarioStampJuly()
    ensures GenerateDate(CalendarDate(2024, 7, 4)) == "20240704"
  {
    YearDigits(2024);
    PadTwoDigits(7);
    PadTwoDigits(4);
  }

  /** A one-digit month and day are padded: 2024-01-05 gives "20240105", not "2024105". */
  lemma {:induction false} PaddingIsMandatory()
    ensures GenerateDate(CalendarDate(2024, 1, 5)) == "20240105"
  {
    YearDigits(2024);
    PadTwoDigits(1);
    PadTwoDigits(5);
  }

  /** The year is not padded: year 999 gives a seven-character stamp. */
  lemma {:induction false} ShortYearIsNotPadded()
    ensures GenerateDate(CalendarDate(999, 1, 1)) == "9990101"
  {
    assert NatToDecimal(999) == [DigitChar(9), DigitChar(9), DigitChar(9)] by {
      assert NatToDecimal(99) == NatToDecimal(9) + [DigitChar(9)];
    }
    PadTwoDigits(1);
  }
}
