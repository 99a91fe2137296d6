/**
 `generateRandom` of scripts/new.ts: `length` characters (16 when the argument
 is omitted), each picked from the 36-character alphabet a-z, 0-9. The
 floating-point pick `Math.floor(Math.random() * s.length)` is replaced by an
 explicit sequence of chosen indices, one per character, each below 36.
 */
module SlugRandomizer {

  const Alphabet: string := "abcdefghijklmnopqrstuvwxyz0123456789"

  /** The default of the `length` parameter. */
  const DefaultLength: nat := 16

  /** The character at position `k` of the alphabet, computed from its layout. */
  function AlphabetChar(k: nat): char
    requires k < 36
  {
    if k < 26 then ('a' as int + k) as char else ('0' as int + k - 26) as char
  }

  /** The alphabet literal is the 26 lower-case letters followed by the 10 digits. */
  lemma {:induction false} AlphabetLayout()
    ensures |Alphabet| == 36
    ensures forall k :: 0 <= k < 36 ==> Alphabet[k] == AlphabetChar(k)
  {
    assert Alphabet == seq(36, k requires 0 <= k < 36 => AlphabetChar(k));
  }

  /** A character is in the alphabet exactly when it is one of a-z or 0-9. */
  lemma {:induction false} AlphabetMembers(c: char)
    ensures c in Alphabet <==> 'a' <= c <= 'z' || '0' <= c <= '9'
  {
    AlphabetLayout();
    LayoutMembers(Alphabet, c);
  }

  lemma {:induction false} LayoutMembers(s: string, c: char)
    requires |s| == 36 && forall k :: 0 <= k < 36 ==> s[k] == AlphabetChar(k)
    ensures c in s <==> 'a' <= c <= 'z' || '0' <= c <= '9'
  {
    assert 'a' <= c <= 'z' ==> s[c as int - 'a' as int] == c;
    assert '0' <= c <= '9' ==> s[c as int - '0' as int + 26] == c;
  }

  /** No character appears twice in the alphabet. */
  lemma {:induction false} AlphabetDistinct()
    ensures forall i, j :: 0 <= i < j < |Alphabet| ==> Alphabet[i] != Alphabet[j]
  {
    AlphabetLayout();
    forall i, j | 0 <= i < j < 36
      ensures Alphabet[i] != Alphabet[j]
    {
      assert Alphabet[i] == AlphabetChar(i) && Alphabet[j] == AlphabetChar(j);
    }
  }

  /** One pick per character, each an index into the alphabet. */
  predicate ValidChoices(length: nat, choices: seq<nat>) {
    |choices| == length && forall i :: 0 <= i < |choices| ==> choices[i] < |Alphabet|
  }

  /**
   `generateRandom(length)`: exactly `length` characters, all from the alphabet,
   the `i`-th being the alphabet character at the `i`-th pick.
   */
  function GenerateRandom(choices: seq<nat>, length: nat := DefaultLength): (r: string)
    requires ValidChoices(length, choices)
    ensures |r| == length
    ensures forall i :: 0 <= i < |r| ==> r[i] in Alphabet
  {
    seq(length, i requires 0 <= i < length => Alphabet[choices[i]])
  }

  /** The position of an alphabet character. */
  function AlphabetIndex(c: char): (k: nat)
    requires c in Alphabet
    ensures k < |Alphabet| && Alphabet[k] == c
  {
    AlphabetMembers(c);
    AlphabetLayout();
    if 'a' <= c <= 'z' then c as int - 'a' as int else c as int - '0' as int + 26
  }

  /** The picks that produce a string over the alphabet. */
  function ChoicesOf(t: string): (choices: seq<nat>)
    requires forall i :: 0 <= i < |t| ==> t[i] in Alphabet
    ensures ValidChoices(|t|, choices)
  {
    seq(|t|, i requires 0 <= i < |t| => AlphabetIndex(t[i]))
  }

  /** With no characters asked for, the result is the empty string. */
  lemma {:induction false} GenerateRandomEmpty()
    ensures GenerateRandom([], 0) == ""
  {
  }

  /** Different picks give different strings: the picks can be read back from the result. */
  lemma {:induction false} ChoicesOfGenerateRandom(length: nat, choices: seq<nat>)
    requires ValidChoices(length, choices)
    ensures ChoicesOf(GenerateRandom(choices, length)) == choices
  {
    var r := GenerateRandom(choices, length);
    AlphabetDistinct();
    forall i | 0 <= i < length
      ensures ChoicesOf(r)[i] == choices[i]
    {
      assert Alphabet[AlphabetIndex(r[i])] == Alphabet[choices[i]];
    }
  }

  /**
   Every string of alphabet characters is produced by its own picks, so
   with independent uniform picks every such string is equally likely.
   */
  lemma {:induction false} GenerateRandomChoicesOf(t: string)
    requires forall i :: 0 <= i < |t| ==> t[i] in Alphabet
    ensures GenerateRandom(ChoicesOf(t), |t|) == t
  {
  }
}
