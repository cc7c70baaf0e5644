/**
  String operations the dashboards rely on: Python's `str.lower()`, the
  substring test `keyword in text`, and `format_snake_case`
  (`s.replace('_', ' ').title()`).

  Lowering covers ASCII and the Latin-1 letters (the accented capitals that
  occur in Portuguese reviews); title-casing covers ASCII letters only.
*/
module Text {
  import opened Optional

  // ---------------------------------------------------------------------------
  // Lowering
  // ---------------------------------------------------------------------------

  /** Upper-case letters that `str.lower()` changes: A-Z and À-Þ except ×. */
  predicate IsUpper(c: char) {
    ('A' <= c <= 'Z') || ('À' <= c <= 'Þ' && c != '×')
  }

  function LowerChar(c: char): char {
    if IsUpper(c) then (c as int + 32) as char else c
  }

  /**
    `s.lower()`: every upper-case letter replaced by its lower-case
    counterpart, 32 code points further on, and every other character kept.
  */
  function Lower(s: string): (r: string)
    ensures |r| == |s|
    ensures forall i :: 0 <= i < |s| && IsUpper(s[i]) ==> r[i] as int == s[i] as int + 32
    ensures forall i :: 0 <= i < |s| && !IsUpper(s[i]) ==> r[i] == s[i]
  {
    seq(|s|, i requires 0 <= i < |s| => LowerChar(s[i]))
  }

  /** Lowering a lowered string changes nothing, and no upper-case letter survives it. */
  lemma LowerIdempotent(s: string)
    ensures Lower(Lower(s)) == Lower(s)
    ensures forall i :: 0 <= i < |s| ==> !IsUpper(Lower(s)[i])
  {
    forall i | 0 <= i < |s|
      ensures Lower(Lower(s))[i] == Lower(s)[i] && !IsUpper(Lower(s)[i])
    {
      var c := s[i];
      if IsUpper(c) {
        assert LowerChar(c) as int == c as int + 32;
      }
    }
  }

  // ---------------------------------------------------------------------------
  // Substring test (Python's `keyword in text`)
  // ---------------------------------------------------------------------------

  /** The characters of `k` from position `j` on match those of `s` from position `i + j` on. */
  predicate MatchesFrom(s: string, k: string, i: nat, j: nat)
    requires i + |k| <= |s| && j <= |k|
    decreases |k| - j
  {
    j == |k| || (s[i + j] == k[j] && MatchesFrom(s, k, i, j + 1))
  }

  /** `k` starts at some position `i` or later of `s`. */
  predicate OccursFrom(s: string, k: string, i: nat)
    decreases |s| - i
  {
    i + |k| <= |s| && (MatchesFrom(s, k, i, 0) || OccursFrom(s, k, i + 1))
  }

  /** `k` starts at position `i` of `s`. */
  predicate OccursAt(s: string, k: string, i: int) {
    0 <= i && i + |k| <= |s| && s[i..i + |k|] == k
  }

  /**
    `k in s` for strings, scanning the start positions from the left: true
    exactly when `k` starts at some position of `s` (the empty string
    occurs everywhere).
  */
  predicate Contains(s: string, k: string): (b: bool)
    ensures b <==> exists i :: OccursAt(s, k, i)
  {
    OccursFromIff(s, k, 0);
    OccursFrom(s, k, 0)
  }

  lemma {:induction false} MatchesFromIff(s: string, k: string, i: nat, j: nat)
    requires i + |k| <= |s| && j <= |k|
    ensures MatchesFrom(s, k, i, j) <==> s[i + j..i + |k|] == k[j..]
    decreases |k| - j
  {
    if j < |k| {
      MatchesFromIff(s, k, i, j + 1);
      assert s[i + j..i + |k|] == [s[i + j]] + s[i + j + 1..i + |k|];
      assert k[j..] == [k[j]] + k[j + 1..];
    }
  }

  lemma {:induction false} OccursFromIff(s: string, k: string, i: nat)
    ensures OccursFrom(s, k, i) <==> exists p :: i <= p && OccursAt(s, k, p)
    decreases |s| - i
  {
    if i + |k| <= |s| {
      MatchesFromIff(s, k, i, 0);
      assert k[0..] == k;
      OccursFromIff(s, k, i + 1);
      if MatchesFrom(s, k, i, 0) {
        assert OccursAt(s, k, i);
      }
      if p :| i <= p && OccursAt(s, k, p) {
        if p > i {
          assert OccursFrom(s, k, i + 1);
        }
      }
    } else {
      assert forall p :: i <= p ==> !OccursAt(s, k, p);
    }
  }

  /** Every character of an occurring keyword occurs in the text. */
  lemma {:induction false} ContainsOnlyItsCharacters(s: string, k: string, c: char)
    requires Contains(s, k) && c in k
    ensures c in s
  {
    var i :| OccursAt(s, k, i);
    var j :| 0 <= j < |k| && k[j] == c;
    assert s[i..i + |k|][j] == s[i + j];
  }

  /** A keyword with a character the text lacks does not occur in it. */
  lemma ForeignCharacterExcludes(s: string, k: string, c: char)
    requires c in k && c !in s
    ensures !Contains(s, k)
  {
    if Contains(s, k) {
      ContainsOnlyItsCharacters(s, k, c);
    }
  }

  // ---------------------------------------------------------------------------
  // format_snake_case
  // ---------------------------------------------------------------------------

  predicate IsLetter(c: char) {
    ('A' <= c <= 'Z') || ('a' <= c <= 'z')
  }

  function UpperAscii(c: char): char {
    if 'a' <= c <= 'z' then (c as int - 32) as char else c
  }

  function LowerAscii(c: char): char {
    if 'A' <= c <= 'Z' then (c as int + 32) as char else c
  }

  /** A letter begins a word when it is first or follows a character that is not a letter. */
  predicate StartsWord(s: string, i: int)
    requires 0 <= i < |s|
  {
    i == 0 || !IsLetter(s[i - 1])
  }

  /** `s.title()`: the first letter of every word upper-case, the rest lower-case. */
  function Title(s: string): string {
    seq(|s|, i requires 0 <= i < |s| =>
      if StartsWord(s, i) then UpperAscii(s[i]) else LowerAscii(s[i]))
  }

  /** `s.replace('_', ' ')` */
  function SpacesForUnderscores(s: string): string {
    seq(|s|, i requires 0 <= i < |s| => if s[i] == '_' then ' ' else s[i])
  }

  /** What `format_snake_case` does to the character at one position. */
  lemma FormattedAt(s: string, i: int)
    requires 0 <= i < |s|
    ensures var r := Title(SpacesForUnderscores(s));
      && |r| == |s|
      && r[i] != '_'
      && IsLetter(r[i]) == IsLetter(s[i])
      && (s[i] == '_' ==> r[i] == ' ')
      && (!IsLetter(s[i]) && s[i] != '_' ==> r[i] == s[i])
      && (IsLetter(s[i]) ==> ('A' <= r[i] <= 'Z' <==> StartsWord(s, i)))
      && (IsLetter(s[i]) ==> LowerAscii(r[i]) == LowerAscii(s[i]))
  {
    var spaced := SpacesForUnderscores(s);
    assert StartsWord(spaced, i) <==> StartsWord(s, i);
  }

  /**
    `format_snake_case(s)` on a string: underscores become spaces and the
    result is title-cased. Its length is unchanged, every underscore becomes
    a space, letters stay the same letters and every other character is
    kept; a letter is upper-case exactly when it starts a word of the input
    (words being separated by anything that is not a letter, '_' included).
  */
  function FormatSnakeCase(s: string): (r: string)
    ensures |r| == |s|
    ensures '_' !in r
    ensures forall i :: 0 <= i < |s| ==> IsLetter(r[i]) == IsLetter(s[i])
    ensures forall i :: 0 <= i < |s| && s[i] == '_' ==> r[i] == ' '
    ensures forall i :: 0 <= i < |s| && !IsLetter(s[i]) && s[i] != '_' ==> r[i] == s[i]
    ensures forall i :: 0 <= i < |s| && IsLetter(s[i]) ==> ('A' <= r[i] <= 'Z' <==> StartsWord(s, i))
    ensures forall i :: 0 <= i < |s| && IsLetter(s[i]) ==> LowerAscii(r[i]) == LowerAscii(s[i])
  {
    var r := Title(SpacesForUnderscores(s));
    assert forall i :: 0 <= i < |s| ==>
      && r[i] != '_'
      && IsLetter(r[i]) == IsLetter(s[i])
      && (s[i] == '_' ==> r[i] == ' ')
      && (!IsLetter(s[i]) && s[i] != '_' ==> r[i] == s[i])
      && (IsLetter(s[i]) ==> ('A' <= r[i] <= 'Z' <==> StartsWord(s, i)))
      && (IsLetter(s[i]) ==> LowerAscii(r[i]) == LowerAscii(s[i]))
    by {
      forall i | 0 <= i < |s| {
        FormattedAt(s, i);
      }
    }
    r
  }

  /** Formatting an already formatted name changes nothing. */
  lemma FormatSnakeCaseIdempotent(s: string)
    ensures FormatSnakeCase(FormatSnakeCase(s)) == FormatSnakeCase(s)
  {
    var r := FormatSnakeCase(s);
    var rr := FormatSnakeCase(r);
    forall i | 0 <= i < |s| ensures rr[i] == r[i] {
      assert StartsWord(r, i) <==> StartsWord(s, i);
    }
  }

  /**
    The versions in dashboard-submit.py and dashboard-prodqual.py return any
    value that is not a string unchanged (`None` here).
  */
  function FormatSnakeCaseValue(v: Option<string>): (r: Option<string>)
    ensures r.None? <==> v.None?
    ensures v.Some? ==> r == Some(FormatSnakeCase(v.value))
    ensures v.Some? ==> |r.value| == |v.value| && '_' !in r.value
  {
    match v
    case None => None
    case Some(s) => Some(FormatSnakeCase(s))
  }
}
