/**
  `categorize_complaint` (dashboard-submit.py and dashboard-prodqual.py): a
  negative review's comment is lower-cased, every category scores the number
  of its keyword entries that occur in it, and the first declared category
  with the highest score wins; a comment that is missing (not a string) or
  matches no keyword gets the fallback label.

  The keyword table is an ordered list, the order of the Python dict
  literal; the fallback label is a parameter ("Lainnya" in one dashboard,
  "Other" in the other).
*/
module Classifier {
  import opened Optional
  import opened Text

  datatype Category = Category(name: string, keywords: seq<string>)

  /**
    A table the dict literal can stand for: at least one category (Python's
    `max` of an empty sequence raises) and no name twice (a dict keeps one
    entry per key).
  */
  predicate WellFormed(table: seq<Category>) {
    |table| > 0 && forall i, j :: 0 <= i < j < |table| ==> table[i].name != table[j].name
  }

  // ---------------------------------------------------------------------------
  // Scoring
  // ---------------------------------------------------------------------------

  /** `sum(1 for keyword in keywords if keyword in text)`: at most the number of entries. */
  function Score(text: string, keywords: seq<string>): (n: nat)
    ensures n <= |keywords|
  {
    if keywords == [] then 0
    else
      var m := |keywords| - 1;
      Score(text, keywords[..m]) + (if Contains(text, keywords[m]) then 1 else 0)
  }

  /** Positions of the keyword entries that occur in the text. */
  ghost function Matching(text: string, keywords: seq<string>): set<int> {
    set j | 0 <= j < |keywords| && Contains(text, keywords[j])
  }

  /** The score counts the keyword entries (not the occurrences) found in the text. */
  lemma {:induction false} ScoreCountsMatches(text: string, keywords: seq<string>)
    ensures Score(text, keywords) == |Matching(text, keywords)|
  {
    if keywords != [] {
      var m := |keywords| - 1;
      ScoreCountsMatches(text, keywords[..m]);
      if Contains(text, keywords[m]) {
        assert Matching(text, keywords) == Matching(text, keywords[..m]) + {m};
      } else {
        assert Matching(text, keywords) == Matching(text, keywords[..m]);
      }
    } else {
      assert Matching(text, keywords) == {};
    }
  }

  /** The score is zero exactly when no keyword entry occurs in the text. */
  lemma {:induction false} ScoreZeroIff(text: string, keywords: seq<string>)
    ensures Score(text, keywords) == 0 <==> forall j :: 0 <= j < |keywords| ==> !Contains(text, keywords[j])
  {
    ScoreCountsMatches(text, keywords);
    if Score(text, keywords) == 0 {
      forall j | 0 <= j < |keywords| ensures !Contains(text, keywords[j]) {
        assert j !in Matching(text, keywords);
      }
    } else {
      var j :| j in Matching(text, keywords);
      assert Contains(text, keywords[j]);
    }
  }

  /**
    A text scores 0 when no keyword entry occurs in it; `missing[j]`, when
    it is a character of entry `j` that the text lacks, is enough to show
    that entry `j` does not occur.
  */
  lemma ScoreZeroByMissingCharacters(text: string, keywords: seq<string>, missing: seq<char>)
    requires |missing| == |keywords|
    requires forall j :: 0 <= j < |keywords| ==>
      (missing[j] in keywords[j] && missing[j] !in text) || !Contains(text, keywords[j])
    ensures Score(text, keywords) == 0
  {
    forall j | 0 <= j < |keywords| ensures !Contains(text, keywords[j]) {
      if missing[j] in keywords[j] && missing[j] !in text {
        ForeignCharacterExcludes(text, keywords[j], missing[j]);
      }
    }
    ScoreZeroIff(text, keywords);
  }

  /** A text in which exactly one keyword entry occurs scores 1. */
  lemma ScoreOfSingleMatch(text: string, keywords: seq<string>, m: int)
    requires 0 <= m < |keywords| && Contains(text, keywords[m])
    requires forall j :: 0 <= j < |keywords| && j != m ==> !Contains(text, keywords[j])
    ensures Score(text, keywords) == 1
  {
    ScoreCountsMatches(text, keywords);
    assert Matching(text, keywords) == {m};
  }

  /** The `scores` dict, in declared order. */
  function Scores(text: string, table: seq<Category>): seq<nat> {
    seq(|table|, i requires 0 <= i < |table| => Score(text, table[i].keywords))
  }

  /** `max(scores.values())` */
  function MaxOf(s: seq<nat>): (m: nat)
    requires s != []
    ensures m in s
    ensures forall i :: 0 <= i < |s| ==> s[i] <= m
  {
    if |s| == 1 then s[0]
    else
      var m := MaxOf(s[..|s| - 1]);
      assert s == s[..|s| - 1] + [s[|s| - 1]];
      if s[|s| - 1] > m then s[|s| - 1] else m
  }

  /** `[c for c, score in scores.items() if score == max_score][0]`, as a position. */
  function FirstIndexOf(s: seq<nat>, m: nat): (i: nat)
    requires m in s
    ensures i < |s| && s[i] == m
    ensures forall j :: 0 <= j < i ==> s[j] != m
  {
    if s[0] == m then 0 else 1 + FirstIndexOf(s[1..], m)
  }

  // ---------------------------------------------------------------------------
  // Classification
  // ---------------------------------------------------------------------------

  /** No keyword entry of any category occurs in the text. */
  predicate NoMatch(table: seq<Category>, text: string) {
    forall i, j :: 0 <= i < |table| && 0 <= j < |table[i].keywords| ==> !Contains(text, table[i].keywords[j])
  }

  /** No keyword matches exactly when every category scores zero. */
  lemma NoMatchIffAllZero(table: seq<Category>, text: string)
    ensures NoMatch(table, text) <==> forall i :: 0 <= i < |table| ==> Score(text, table[i].keywords) == 0
  {
    forall i | 0 <= i < |table| {
      ScoreZeroIff(text, table[i].keywords);
    }
  }

  /**
    Category `w` wins on `text`: its score is positive, no category scores
    more, and every category declared before it scores less.
  */
  predicate Winner(table: seq<Category>, text: string, w: int) {
    && 0 <= w < |table|
    && Score(text, table[w].keywords) > 0
    && (forall j :: 0 <= j < |table| ==> Score(text, table[j].keywords) <= Score(text, table[w].keywords))
    && (forall j :: 0 <= j < w ==> Score(text, table[j].keywords) < Score(text, table[w].keywords))
  }

  /** The position of the winning category on an already lower-cased text, or `None` when nothing matches. */
  function Classify(table: seq<Category>, text: string): (w: Option<nat>)
    requires table != []
    ensures w.None? <==> NoMatch(table, text)
    ensures w.Some? ==> Winner(table, text, w.value)
  {
    var scores := Scores(text, table);
    assert forall j :: 0 <= j < |table| ==> scores[j] == Score(text, table[j].keywords);
    var best := MaxOf(scores);
    NoMatchIffAllZero(table, text);
    if best == 0 then
      assert forall i :: 0 <= i < |table| ==> scores[i] <= best;
      None
    else
      var w := FirstIndexOf(scores, best);
      Some(w)
  }

  /** There is at most one winner. */
  lemma WinnerUnique(table: seq<Category>, text: string, v: int, w: int)
    requires Winner(table, text, v) && Winner(table, text, w)
    ensures v == w
  {
  }

  /**
    `categorize_complaint(comment)`: the fallback label for a missing
    comment or one that matches no keyword; otherwise the name of the
    winning category on the lower-cased comment.
  */
  function Categorize(table: seq<Category>, fallback: string, comment: Option<string>): (cat: string)
    requires WellFormed(table)
    ensures comment.None? ==> cat == fallback
    ensures comment.Some? && NoMatch(table, Lower(comment.value)) ==> cat == fallback
    ensures comment.Some? && !NoMatch(table, Lower(comment.value)) ==>
      exists w :: Winner(table, Lower(comment.value), w) && cat == table[w].name
  {
    match comment
    case None => fallback
    case Some(s) =>
      match Classify(table, Lower(s))
      case None => fallback
      case Some(w) => table[w].name
  }

  /** The winning category on the lower-cased comment is the one chosen. */
  lemma WinnerIsChosen(table: seq<Category>, fallback: string, s: string, w: int)
    requires WellFormed(table) && Winner(table, Lower(s), w)
    ensures Categorize(table, fallback, Some(s)) == table[w].name
  {
    NoMatchIffAllZero(table, Lower(s));
    var v := Classify(table, Lower(s));
    WinnerUnique(table, Lower(s), v.value, w);
  }

  /** The label is always a declared category name or the fallback label. */
  lemma LabelIsDeclaredOrFallback(table: seq<Category>, fallback: string, comment: Option<string>)
    requires WellFormed(table)
    ensures var cat := Categorize(table, fallback, comment);
      cat == fallback || exists i :: 0 <= i < |table| && table[i].name == cat
  {
  }

  /** Matching ignores case: a comment and its lower-cased form get the same label. */
  lemma CategorizeIgnoresCase(table: seq<Category>, fallback: string, s: string)
    requires WellFormed(table)
    ensures Categorize(table, fallback, Some(s)) == Categorize(table, fallback, Some(Lower(s)))
  {
    LowerIdempotent(s);
  }

  /**
    Ties go to the category declared first: of two categories sharing the
    highest, positive score, the later one is never chosen.
  */
  lemma TieGoesToFirstDeclared(table: seq<Category>, fallback: string, s: string, i: int, j: int)
    requires WellFormed(table)
    requires 0 <= i < j < |table|
    requires Score(Lower(s), table[i].keywords) == Score(Lower(s), table[j].keywords) > 0
    requires forall k :: 0 <= k < |table| ==> Score(Lower(s), table[k].keywords) <= Score(Lower(s), table[i].keywords)
    ensures Categorize(table, fallback, Some(s)) != table[j].name
  {
    NoMatchIffAllZero(table, Lower(s));
    var w := Classify(table, Lower(s));
    assert w.Some? && Winner(table, Lower(s), w.value);
    assert w.value <= i;
  }

  /** A comment that scores in exactly one category is labelled with that category. */
  lemma OnlyMatchingCategoryWins(table: seq<Category>, fallback: string, s: string, i: int)
    requires WellFormed(table)
    requires 0 <= i < |table| && Score(Lower(s), table[i].keywords) > 0
    requires forall k :: 0 <= k < |table| && k != i ==> Score(Lower(s), table[k].keywords) == 0
    ensures Categorize(table, fallback, Some(s)) == table[i].name
  {
    NoMatchIffAllZero(table, Lower(s));
    var w := Classify(table, Lower(s));
    assert w.Some? && Winner(table, Lower(s), w.value);
  }

  /**
    When the fallback label is not a category name, a comment gets the
    fallback label exactly when it is missing or matches no keyword.
  */
  lemma FallbackIffNoMatch(table: seq<Category>, fallback: string, comment: Option<string>)
    requires WellFormed(table)
    requires forall i :: 0 <= i < |table| ==> table[i].name != fallback
    ensures Categorize(table, fallback, comment) == fallback <==>
      comment.None? || NoMatch(table, Lower(comment.value))
  {
  }
}
