/**
  The data preparation and review-score analysis of dashboard-prodqual.py:
  the category column is formatted, incomplete rows are dropped, lateness
  columns are added in place, the late percentage is taken per review
  score, and the comments of low-score reviews are classified, with the
  unmatched ("Other") ones set aside.
*/
module ProductQuality {
  import opened Optional
  import opened Text
  import opened Tally
  import opened Durations
  import opened Classifier
  import ProdQualComplaints

  /** The columns of a row of the merged order/review/item table that the analysis reads. */
  datatype Row = Row(
    score: Option<int>,
    category: Option<string>,
    comment: Option<string>,
    delivered: Option<int>,
    estimated: Option<int>)

  /** The row has all five fields that `dropna(subset=[...])` requires. */
  predicate Complete(r: Row) {
    r.score.Some? && r.category.Some? && r.comment.Some? && r.delivered.Some? && r.estimated.Some?
  }

  /**
    `days_late`: the signed delay of the delivery against the estimate, in
    days; missing (NaN) when either date is missing.
  */
  function DaysLate(r: Row): (d: Option<real>)
    ensures d.Some? <==> r.delivered.Some? && r.estimated.Some?
    ensures d.Some? ==> (d.value > 0.0 <==> r.delivered.value > r.estimated.value)
    ensures d.Some? ==> (d.value == 0.0 <==> r.delivered.value == r.estimated.value)
    ensures d.Some? ==> d.value * 86400.0 == (r.delivered.value - r.estimated.value) as real
  {
    if r.delivered.Some? && r.estimated.Some? then
      DaysScaleBack(r.delivered.value - r.estimated.value);
      Some(Days(r.delivered.value - r.estimated.value))
    else None
  }

  /**
    `is_late = days_late > 0`: strictly after the estimate, so a delivery
    exactly at the estimated time is not late, and NaN compares false.
  */
  function IsLate(r: Row): (late: bool)
    ensures late <==> r.delivered.Some? && r.estimated.Some? && r.delivered.value > r.estimated.value
  {
    var d := DaysLate(r);
    d.Some? && d.value > 0.0
  }

  /**
    `product_category_name.str.replace('_', ' ').str.title()` on every row:
    only the category changes, and a missing category stays missing.
  */
  function FormattedCategories(rows: seq<Row>): (out: seq<Row>)
    ensures |out| == |rows|
    ensures forall i :: 0 <= i < |rows| ==>
      out[i].(category := rows[i].category) == rows[i] &&
      (out[i].category.None? <==> rows[i].category.None?) &&
      (rows[i].category.Some? ==> out[i].category == Some(FormatSnakeCase(rows[i].category.value)))
  {
    seq(|rows|, i requires 0 <= i < |rows| => rows[i].(category := FormatSnakeCaseValue(rows[i].category)))
  }

  /** `df_analysis`, whose columns the preparation assigns in place. */
  class AnalysisFrame {
    var rows: seq<Row>
    var daysLate: seq<Option<real>>
    var isLate: seq<bool>

    constructor (merged: seq<Row>)
      ensures rows == merged && daysLate == [] && isLate == []
    {
      rows := merged;
      daysLate := [];
      isLate := [];
    }

    /** The category column formatted in place. */
    method FormatCategories()
      modifies this
      ensures rows == FormattedCategories(old(rows))
      ensures daysLate == old(daysLate) && isLate == old(isLate)
    {
      rows := FormattedCategories(rows);
    }

    /** `dropna(subset=[...])`: only the complete rows remain, in order. */
    method DropIncomplete()
      modifies this
      ensures rows == Filter(old(rows), Complete)
      ensures daysLate == old(daysLate) && isLate == old(isLate)
    {
      rows := Filter(rows, Complete);
    }

    /** The `days_late` and `is_late` columns. */
    method AddLateness()
      modifies this
      ensures rows == old(rows)
      ensures |daysLate| == |rows| && |isLate| == |rows|
      ensures forall i :: 0 <= i < |rows| ==> daysLate[i] == DaysLate(rows[i]) && isLate[i] == IsLate(rows[i])
    {
      var rs := rows;
      daysLate := seq(|rs|, i requires 0 <= i < |rs| => DaysLate(rs[i]));
      isLate := LateFlags(rs);
    }
  }

  /**
    The preparation: the rows left are the complete ones of the merged
    table, in order, with the category formatted; each has its `days_late`
    and `is_late`, and is late exactly when delivered after the estimate.
  */
  method Prepare(merged: seq<Row>) returns (frame: AnalysisFrame)
    ensures frame.rows == Filter(FormattedCategories(merged), Complete)
    ensures |frame.daysLate| == |frame.rows| && |frame.isLate| == |frame.rows|
    ensures forall i :: 0 <= i < |frame.rows| ==>
      Complete(frame.rows[i]) &&
      frame.daysLate[i] == DaysLate(frame.rows[i]) && frame.isLate[i] == IsLate(frame.rows[i]) &&
      (frame.isLate[i] <==> frame.rows[i].delivered.value > frame.rows[i].estimated.value)
  {
    frame := new AnalysisFrame(merged);
    frame.FormatCategories();
    frame.DropIncomplete();
    frame.AddLateness();
  }

  const AllCategories: string := "All Categories"

  /** The category column, on which the drop-down selection builds its mask. */
  function Categories(rows: seq<Row>): (cats: seq<Option<string>>)
    ensures |cats| == |rows| && forall i :: 0 <= i < |rows| ==> cats[i] == rows[i].category
  {
    seq(|rows|, i requires 0 <= i < |rows| => rows[i].category)
  }

  /** The row belongs to the drop-down selection. */
  predicate InSelection(selected: string, r: Row) {
    selected == AllCategories || r.category == Some(selected)
  }

  /**
    `df_filtered`: every row when "All Categories" is selected, otherwise
    the rows of the selected category; each row of the selection is kept
    as often as it occurs, and no other row.
  */
  function FilterByCategory(rows: seq<Row>, selected: string): (filtered: seq<Row>)
    ensures forall r {:trigger Count(filtered, r)} ::
      Count(filtered, r) == if InSelection(selected, r) then Count(rows, r) else 0
    ensures forall r :: r in filtered <==> r in rows && InSelection(selected, r)
  {
    var mask := SelectionMask(Categories(rows), selected, AllCategories);
    SelectIsFilter(mask, rows, true, r => InSelection(selected, r));
    var filtered := Select(mask, rows, true);
    assert forall r :: r in filtered <==> r in rows && InSelection(selected, r) by {
      forall r ensures r in filtered <==> r in rows && InSelection(selected, r) {
        assert Count(filtered, r) == if InSelection(selected, r) then Count(rows, r) else 0;
      }
    }
    filtered
  }

  /**
    `df_filtered.groupby('review_score')['is_late'].mean().mul(100)`: one
    row per review score that occurs, with the percentage of late rows among
    the rows of that score. The `is_late` column travels with the rows, so
    it is the lateness of each row selected.
  */
  function LatePercentageByScore(rows: seq<Row>): (byScore: seq<(int, real)>)
    ensures forall i :: 0 <= i < |byScore| ==> Some(byScore[i].0) in Scores(rows)
    ensures forall i, j :: 0 <= i < j < |byScore| ==> byScore[i].0 != byScore[j].0
    ensures forall i :: 0 <= i < |rows| && rows[i].score.Some? ==>
      exists j :: 0 <= j < |byScore| && byScore[j].0 == rows[i].score.value
    ensures forall i :: 0 <= i < |byScore| ==> 0.0 <= byScore[i].1 <= 100.0
    ensures forall i :: 0 <= i < |byScore| ==>
      PercentTrue(Select(Scores(rows), LateFlags(rows), Some(byScore[i].0))) == Some(byScore[i].1)
  {
    GroupedKnownPercent(Scores(rows), LateFlags(rows))
  }

  /** The `is_late` column of a set of rows. */
  function LateFlags(rows: seq<Row>): (flags: seq<bool>)
    ensures |flags| == |rows| && forall i :: 0 <= i < |rows| ==> flags[i] == IsLate(rows[i])
  {
    seq(|rows|, i requires 0 <= i < |rows| => IsLate(rows[i]))
  }

  function Scores(rows: seq<Row>): (scores: seq<Option<int>>)
    ensures |scores| == |rows| && forall i :: 0 <= i < |rows| ==> scores[i] == rows[i].score
  {
    seq(|rows|, i requires 0 <= i < |rows| => rows[i].score)
  }

  /** `df_filtered['review_score'] <= 2` (the code keeps 2 stars or less); a missing score compares false. */
  predicate LowScore(r: Row) {
    r.score.Some? && r.score.value <= 2
  }

  /** `low_score_reviews`: exactly the rows scored 2 or less, each as often as it occurs. */
  function LowScoreReviews(rows: seq<Row>): (low: seq<Row>)
    ensures forall i :: 0 <= i < |low| ==> LowScore(low[i]) && low[i] in rows
    ensures forall r :: r in rows && LowScore(r) ==> r in low
    ensures forall r {:trigger Count(low, r)} :: Count(low, r) == if LowScore(r) then Count(rows, r) else 0
  {
    var low := Filter(rows, LowScore);
    forall r | r in rows && LowScore(r) ensures r in low {
      assert Count(low, r) == Count(rows, r);
    }
    low
  }

  /**
    The complaint category of each low-score review, with the keyword table
    as the dashboard declares it: "Other" exactly when the comment is
    missing or matches no keyword.
  */
  function ComplaintLabels(low: seq<Row>): (labels: seq<string>)
    ensures |labels| == |low|
    ensures forall i :: 0 <= i < |low| ==>
      labels[i] == ProdQualComplaints.CategorizeComplaintAsWritten(low[i].comment)
    ensures forall i :: 0 <= i < |low| ==>
      (labels[i] == ProdQualComplaints.Fallback <==>
       low[i].comment.None? || NoMatch(ProdQualComplaints.TableAsWritten, Lower(low[i].comment.value)))
  {
    seq(|low|, i requires 0 <= i < |low| => ProdQualComplaints.CategorizeComplaintAsWritten(low[i].comment))
  }

  /** The review is labelled "Other". */
  predicate IsOther(r: Row) {
    ProdQualComplaints.CategorizeComplaintAsWritten(r.comment) == ProdQualComplaints.Fallback
  }

  /**
    `other_reviews`, with the category column present however many reviews
    there are: the low-score reviews whose comment is missing or matches no
    keyword, each as often as it occurs.
  */
  function OtherReviews(low: seq<Row>): (others: seq<Row>)
    ensures |others| <= |low|
    ensures forall i :: 0 <= i < |others| ==>
      others[i] in low &&
      (others[i].comment.None? || NoMatch(ProdQualComplaints.TableAsWritten, Lower(others[i].comment.value)))
    ensures forall r :: r in low && IsOther(r) ==> r in others
    ensures forall r {:trigger Count(others, r)} :: Count(others, r) == if IsOther(r) then Count(low, r) else 0
  {
    var others := Filter(low, IsOther);
    forall r | r in low && IsOther(r) ensures r in others {
      assert Count(others, r) == Count(low, r);
    }
    others
  }

  /**
    `other_reviews` as written: the category column is added only when
    there are low-score reviews, so on an empty selection indexing it
    raises `KeyError`; otherwise the rows labelled "Other".
  */
  function OtherReviewsAsWritten(low: seq<Row>): (r: Result<seq<Row>>)
    ensures r.Failure? <==> low == []
    ensures r.Success? ==> r.value == OtherReviews(low)
  {
    var column := if low != [] then Some(ComplaintLabels(low)) else None;
    match column
    case None => Failure("complaint_category")
    case Some(labels) =>
      SelectByLabel(low);
      Success(Select(labels, low, ProdQualComplaints.Fallback))
  }

  /** Selecting by the label column picks the same rows as filtering by the label. */
  lemma SelectByLabel(low: seq<Row>)
    ensures Select(ComplaintLabels(low), low, ProdQualComplaints.Fallback) == Filter(low, IsOther)
  {
    SelectIsFilter(ComplaintLabels(low), low, ProdQualComplaints.Fallback, IsOther);
  }

  /** On a selection without low-score reviews the code as written fails where nothing is to be shown. */
  lemma NoLowScoreReviewsFails()
    ensures OtherReviewsAsWritten([]).Failure?
    ensures OtherReviews([]) == []
  {
  }

  /** `min(30, len(other_reviews))`: the size of the random sample of "Other" comments. */
  function SampleSize(n: nat): (k: nat)
    ensures k <= 30 && k <= n
    ensures k == 30 || k == n
  {
    if n < 30 then n else 30
  }
}
