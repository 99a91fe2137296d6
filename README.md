# qiita-article `scripts/new.ts` in Dafny

`scripts/new.ts` creates a new Qiita article. It builds a slug from today's
date stamp (`YYYYMMDD`), a `-` and a 16-character random identifier, then runs
`npx qiita new <slug>`. This project models the string logic of that script as
pure Dafny functions and proves properties about them:

- `Decimal`: the plain decimal numeral of a natural number (`NatToDecimal`), and
  its inverse (`ParseDecimal`). For the non-negative years `getFullYear()` can
  return (at most 275760) this is exactly what `Number.prototype.toString()`
  prints; from 1e21 up JavaScript switches to exponent form, which is never a year.
- `DateStamper`: `generateDate`. The year is printed unpadded. The month and the
  day go through the padding idiom `('0' + n).slice(-2)`, modelled by `SliceLast`
  and `PadTwo`. `ParseDateStamp` decodes a stamp and is the partner in the round-trip lemmas.
- `SlugRandomizer`: `generateRandom`. It maps a sequence of picked indices onto
  the alphabet `abcdefghijklmnopqrstuvwxyz0123456789`. `ChoicesOf` recovers the picks.
- `Invoker`: the slug on the last line, its decoder `ParseSlug`, and the
  command string `npx qiita new <slug>` cut into its pieces between single
  spaces. On this command string, which has single spaces and no empty words,
  those pieces are the words a shell sees.

The date is the triple `(year, month, day)` that `getFullYear()`,
`getMonth() + 1` and `getDate()` return. The random source is an explicit
sequence of indices, each below 36, which stands in for
`Math.floor(Math.random() * s.length)`.

The stamp is eight characters long only for four-digit years; the code does
not pad the year, and the model follows the code. Year 999 gives `9990101`.
`DateStampLength` and `ShortYearIsNotPadded` state this behaviour.

## Model

| member | source | states |
|---|---|---|
| `Decimal.NatToDecimal` | scripts/new.ts:12 | the year's `toString()` is a nonempty digit string with no leading zero, and it starts with '0' exactly when the number is 0 |
| `Decimal.ParseNatToDecimal` | scripts/new.ts:12 | reading the printed numeral back gives the number |
| `Decimal.NatToDecimalParse` | scripts/new.ts:12 | every canonical digit string is the numeral of its value, so printing is onto canonical strings |
| `Decimal.NatToDecimalLength` | scripts/new.ts:12 | a numeral has at most k digits exactly when the number is below 10^k |
| `Decimal.FourDigitNumeral` | scripts/new.ts:12 | the year prints as four characters exactly for 1000 <= year <= 9999 |
| `Decimal.NatToDecimalInjective` | scripts/new.ts:12 | different years print differently |
| `DateStamper.SliceLast` | scripts/new.ts:13-14 | `s.slice(-k)` has length k, or the length of `s` when `s` is shorter |
| `DateStamper.SliceLastSuffix` | scripts/new.ts:13-14 | what `s.slice(-k)` returns is the end of `s`: its last characters, as many as the result is long |
| `DateStamper.PadTwo` | scripts/new.ts:13-14 | `('0' + n).slice(-2)` is always exactly two digits |
| `DateStamper.PadTwoDigits` | scripts/new.ts:13-14 | `('0' + n).slice(-2)` is the tens digit of n followed by its units digit, so for n below 10 it is '0' followed by the digit |
| `DateStamper.PadTwoValue` | scripts/new.ts:13-14 | the two characters read back as n mod 100, which is n for every month 1..12 and every day 1..31; below 100 the field starts with the padding '0' exactly when n has one digit |
| `DateStamper.PadTwoParse` | scripts/new.ts:13-14 | every two-digit string, "01" to "99" and "00", is the padding of its value |
| `DateStamper.GenerateDate` | scripts/new.ts:11-16 | the stamp is all digits and is four characters longer than the year's numeral |
| `DateStamper.DateStampFields` | scripts/new.ts:12-15 | the stamp is the unpadded year's numeral, then two characters reading as the month, then two reading as the day, each with a leading '0' exactly for one-digit values |
| `DateStamper.DateStampLength` | scripts/new.ts:12-15 | the stamp has length 8 exactly when the year is in 1000..9999 |
| `DateStamper.GenerateDateInjective` | scripts/new.ts:12-15 | two valid dates with the same stamp are equal, for years of any width |
| `DateStamper.ParseDateStamp` | scripts/new.ts:12-15 | decoding characters 0-3, 4-5 and 6-7 of a stamp yields only valid dates |
| `DateStamper.ParseGenerateDate` | scripts/new.ts:12-15 | for a four-digit year, decoding the stamp recovers exactly (year, month, day) |
| `DateStamper.GenerateParseDate` | scripts/new.ts:12-15 | every string that decodes is the stamp of the four-digit-year date it decodes to |
| `DateStamper.ScenarioStampMarch` | scripts/new.ts:11-16 | 2023-03-09 gives "20230309" |
| `DateStamper.ScenarioStampDecember` | scripts/new.ts:11-16 | 1999-12-31 gives "19991231" |
| `DateStamper.ScenarioStampJuly` | scripts/new.ts:11-16 | 2024-07-04 gives "20240704" |
| `DateStamper.PaddingIsMandatory` | scripts/new.ts:13-14 | 2024-01-05 gives "20240105" |
| `DateStamper.ShortYearIsNotPadded` | scripts/new.ts:12 | year 999 is not padded: 0999-01-01 gives "9990101" |
| `SlugRandomizer.AlphabetLayout` | scripts/new.ts:4 | the alphabet has 36 characters: positions 0-25 hold 'a'..'z' and positions 26-35 hold '0'..'9' |
| `SlugRandomizer.AlphabetMembers` | scripts/new.ts:4 | a character is in the alphabet exactly when it is in a-z or 0-9 |
| `SlugRandomizer.AlphabetDistinct` | scripts/new.ts:4 | no character appears twice in the alphabet |
| `SlugRandomizer.GenerateRandom` | scripts/new.ts:3-8 | the result has exactly `length` characters (16 by default) and every character is in the alphabet |
| `SlugRandomizer.AlphabetIndex` | scripts/new.ts:4-6 | every alphabet character sits at some index below `s.length` |
| `SlugRandomizer.ChoicesOf` | scripts/new.ts:5-6 | the picks recovered from a string over the alphabet are one valid index per character |
| `SlugRandomizer.GenerateRandomEmpty` | scripts/new.ts:5-7 | length 0 yields the empty string |
| `SlugRandomizer.ChoicesOfGenerateRandom` | scripts/new.ts:5-7 | the picks can be read back from the result, so different picks give different strings |
| `SlugRandomizer.GenerateRandomChoicesOf` | scripts/new.ts:5-7 | every string of alphabet characters is produced by some picks (with the previous row, picks and strings are in bijection) |
| `Invoker.Slug` | scripts/new.ts:18 | the slug is as long as the stamp plus 17, and its only '-' is at the index right after the stamp |
| `Invoker.SlugShape` | scripts/new.ts:18 | for a four-digit year the slug has length 25: the stamp at 0-7, '-' at 8, then 16 alphabet characters; it matches `^[0-9]{8}-[a-z0-9]{16}$` |
| `Invoker.SlugScenario` | scripts/new.ts:18 | the slug for 2024-07-04 starts with "20240704-" and matches the slug pattern |
| `Invoker.ParseSlug` | scripts/new.ts:18 | splitting a slug yields a valid date and 16 valid picks |
| `Invoker.ParseSlugOfSlug` | scripts/new.ts:18 | the date and the picks are recovered from the slug of a four-digit-year date |
| `Invoker.SlugOfParseSlug` | scripts/new.ts:18 | every string that parses as a slug is the slug of what it parses to |
| `Invoker.SlugCharacters` | scripts/new.ts:18 | every slug character is in a-z, 0-9 or '-' |
| `Invoker.CommandLine` | scripts/new.ts:18 | the command is "npx qiita new " followed by the slug |
| `Invoker.CommandWords` | scripts/new.ts:18 | the command `npx qiita new <slug>` cut at single spaces gives exactly "npx", "qiita", "new" and the whole slug |

## Left out

- `execSync` (scripts/new.ts:1,18) is not modelled: it starts a subprocess, the external `qiita` CLI runs, and its exit status propagates. Only the command string is modelled.
- `Math.random()` (scripts/new.ts:6) is floating-point randomness and is not modelled. Each pick is an input index below 36. Uniformity is not stated as a probability. `ChoicesOfGenerateRandom` and `GenerateRandomChoicesOf` show that picks and strings are in bijection.
- `new Date()` and the `Date` getters (scripts/new.ts:10,12-14) are not modelled, because reading the clock in the local time zone is I/O. The date is an input. `ValidDate` bounds the day by 31 and does not check it against the length of the month.
- Negative years are excluded by the type `nat`. In the code `getFullYear()` can be negative (down to -271821), and `toString()` then prints a leading `-`; the model does not cover these dates.
- `GenerateRandom` takes `length` as a `nat`, so the model excludes the other numbers the code accepts. `Array.from({ length })` converts the length with ToLength: a negative length gives `""`, a fractional length is truncated, and a length of 2^32 or more makes `new Array(len)` throw a RangeError. None of these cases is modelled.
- The default `length = 16` on line 3 is modelled as the default-valued parameter `length: nat := DefaultLength`. The slug calls `GenerateRandom(choices)` without a length, as line 18 calls `generateRandom()`.
- `CommandWords` cuts at single spaces only. It keeps empty pieces, where a shell collapses runs of blanks. Quoting, expansion and metacharacters are not modelled. `SlugCharacters` shows the slug contains none of those characters.
