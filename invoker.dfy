/**
 The last line of scripts/new.ts: the slug `${generateDate(today)}-${generateRandom()}`
 and the shell command `npx qiita new <slug>` built from it. Running the command
 (`execSync`) is not modelled; the command string and its words between single
 spaces are.
 */
module Invoker {
  import opened Decimal
  import opened Options
  import opened DateStamper
  import opened SlugRandomizer

  /**
   The slug: the date stamp, a '-', and a random part of the default length.
   The '-' sits right after the stamp and nowhere else.
   */
  function Slug(today: CalendarDate, choices: seq<nat>): (r: string)
    requires ValidChoices(DefaultLength, choices)
    ensures |r| == |GenerateDate(today)| + 1 + DefaultLength
    ensures forall i :: 0 <= i < |r| ==> (r[i] == '-' <==> i == |GenerateDate(today)|)
  {
    AlphabetMembers('-');
    GenerateDate(today) + "-" + GenerateRandom(choices)
  }

  /** The pattern `^[0-9]{8}-[a-z0-9]{16}$`. */
  predicate MatchesSlugPattern(s: string) {
    && |s| == 9 + DefaultLength
    && AllDigits(s[..8])
    && s[8] == '-'
    && forall i :: 9 <= i < |s| ==> 'a' <= s[i] <= 'z' || '0' <= s[i] <= '9'
  }

  /**
   For a four-digit year the slug is the eight-character stamp, the '-' at
   index 8, and 16 alphabet characters, so it matches the slug pattern.
   */
  lemma {:induction false} SlugShape(today: CalendarDate, choices: seq<nat>)
    requires FourDigitYear(today)
    requires ValidChoices(DefaultLength, choices)
    ensures var r := Slug(today, choices);
      && |r| == 25
      && r[..8] == GenerateDate(today)
      && r[8] == '-'
      && r[9..] == GenerateRandom(choices)
      && MatchesSlugPattern(r)
  {
    var r := Slug(today, choices);
    DateStampLength(today);
    assert r[..8] == GenerateDate(today);
    assert r[9..] == GenerateRandom(choices);
    forall i | 9 <= i < |r|
      ensures 'a' <= r[i] <= 'z' || '0' <= r[i] <= '9'
    {
      AlphabetMembers(r[i]);
    }
  }

  /** 2024-07-04 gives a slug that starts with "20240704-" and matches the pattern. */
  lemma {:induction false} SlugScenario(choices: seq<nat>)
    requires ValidChoices(DefaultLength, choices)
    ensures Slug(CalendarDate(2024, 7, 4), choices)[..9] == "20240704-"
    ensures MatchesSlugPattern(Slug(CalendarDate(2024, 7, 4), choices))
  {
    var d := CalendarDate(2024, 7, 4);
    ScenarioStampJuly();
    SlugShape(d, choices);
  }

  /** Splits a slug back into the date and the picks; `None` for anything no slug looks like. */
  function ParseSlug(s: string): (r: Option<(CalendarDate, seq<nat>)>)
    ensures r.Some? ==> ValidDate(r.value.0) && ValidChoices(DefaultLength, r.value.1)
  {
    if |s| == 9 + DefaultLength && s[8] == '-' && forall i :: 9 <= i < |s| ==> s[i] in Alphabet then
      match ParseDateStamp(s[..8])
      case Some(d) => Some((d, ChoicesOf(s[9..])))
      case None => None
    else
      None
  }

  /** The date and the picks can be recovered from the slug of a four-digit-year date. */
  lemma {:induction false} ParseSlugOfSlug(today: CalendarDate, choices: seq<nat>)
    requires FourDigitYear(today)
    requires ValidChoices(DefaultLength, choices)
    ensures ParseSlug(Slug(today, choices)) == Some((today, choices))
  {
    var r := Slug(today, choices);
    SlugShape(today, choices);
    ParseGenerateDate(today);
    ChoicesOfGenerateRandom(DefaultLength, choices);
  }

  /** Whatever parses as a slug is the slug of the date and picks it parses to. */
  lemma {:induction false} SlugOfParseSlug(s: string)
    requires ParseSlug(s).Some?
    ensures FourDigitYear(ParseSlug(s).value.0)
    ensures Slug(ParseSlug(s).value.0, ParseSlug(s).value.1) == s
  {
    var (d, choices) := ParseSlug(s).value;
    GenerateParseDate(s[..8]);
    GenerateRandomChoicesOf(s[9..]);
    assert s == s[..8] + "-" + s[9..];
  }

  /** The command string handed to the shell: the fixed prefix, then the slug. */
  function CommandLine(slug: string): (r: string)
    ensures |r| == 14 + |slug|
    ensures r[..14] == "npx qiita new " && r[14..] == slug
  {
    "npx qiita new " + slug
  }

  /**
   The pieces of `s` between single spaces; two adjacent spaces give an empty
   piece, where a shell would skip the run of blanks. On a command string with
   single spaces and no empty words the two agree.
   */
  function Words(s: string): (w: seq<string>)
    ensures |w| >= 1
    decreases |s|
  {
    if s == [] then [""]
    else
      var rest := Words(s[1..]);
      if s[0] == ' ' then [""] + rest else [[s[0]] + rest[0]] + rest[1..]
  }

  /** A string without spaces is one word. */
  lemma {:induction false} WordsNoSpace(t: string)
    requires ' ' !in t
    ensures Words(t) == [t]
    decreases |t|
  {
    if t != [] {
      WordsNoSpace(t[1..]);
      assert [t[0]] + t[1..] == t;
    }
  }

  /** A space-free word followed by a space is split off whole. */
  lemma {:induction false} WordsAfterWord(a: string, b: string)
    requires ' ' !in a
    ensures Words(a + " " + b) == [a] + Words(b)
    decreases |a|
  {
    var s := a + " " + b;
    if a == [] {
      assert s[1..] == b;
    } else {
      assert s[1..] == a[1..] + " " + b;
      WordsAfterWord(a[1..], b);
      assert [a[0]] + a[1..] == a;
    }
  }

  /** Every slug character is in a-z, 0-9 or '-': nothing a shell would split or expand. */
  lemma {:induction false} SlugCharacters(today: CalendarDate, choices: seq<nat>)
    requires ValidChoices(DefaultLength, choices)
    ensures forall i :: 0 <= i < |Slug(today, choices)| ==>
      var c := Slug(today, choices)[i]; 'a' <= c <= 'z' || '0' <= c <= '9' || c == '-'
  {
    var slug := Slug(today, choices);
    var y := |GenerateDate(today)|;
    forall i | 0 <= i < |slug|
      ensures 'a' <= slug[i] <= 'z' || '0' <= slug[i] <= '9' || slug[i] == '-'
    {
      if i < y {
        assert slug[i] == GenerateDate(today)[i];
      } else if i > y {
        assert slug[i] == GenerateRandom(choices)[i - y - 1];
        AlphabetMembers(slug[i]);
      }
    }
  }

  /** The command string is the three leading words and the argument, separated by single spaces. */
  lemma {:induction false} CommandLineLayout(arg: string)
    ensures CommandLine(arg) == "npx" + " " + ("qiita" + " " + ("new" + " " + arg))
  {
    var u := "npx" + " " + ("qiita" + " " + ("new" + " " + arg));
    assert |u| == |CommandLine(arg)|;
    forall i | 0 <= i < |u|
      ensures u[i] == CommandLine(arg)[i]
    {
      if i < 4 {
      } else if i < 10 {
        assert u[i] == ("qiita" + " ")[i - 4];
      } else {
        assert u[i] == ("new" + " " + arg)[i - 10];
      }
    }
  }

  /**
   The command has four words, the last being the whole slug, so the slug
   reaches the tool as the one argument after `new`.
   */
  lemma {:induction false} CommandWords(today: CalendarDate, choices: seq<nat>)
    requires ValidChoices(DefaultLength, choices)
    ensures Words(CommandLine(Slug(today, choices))) == ["npx", "qiita", "new", Slug(today, choices)]
  {
    var slug := Slug(today, choices);
    SlugCharacters(today, choices);
    assert ' ' !in slug;
    WordsNoSpace(slug);
    WordsAfterWord("new", slug);
    WordsAfterWord("qiita", "new" + " " + slug);
    WordsAfterWord("npx", "qiita" + " " + ("new" + " " + slug));
    CommandLineLayout(slug);
  }
}
