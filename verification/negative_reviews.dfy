/**
  The negative-review pipeline of dashboard-submit.py: rows of the master
  table without a comment, a translated comment or a review id are dropped,
  duplicate review ids are removed keeping the first row, the reviews with a
  score of at most 2 are kept, each gets a complaint category, and the
  categories are counted.
*/
module NegativeReviews {
  import opened Optional
  import opened Text
  import opened Tally
  import opened Classifier
  import SubmitComplaints

  /** The review columns of a row of the merged master table. */
  datatype Review = Review(id: Option<string>, score: Option<int>, comment: Option<string>, commentEn: Option<string>)

  /** `dropna(subset=['review_comment_message', 'review_comment_message_en', 'review_id'])` keeps the row. */
  predicate HasText(r: Review) {
    r.comment.Some? && r.commentEn.Some? && r.id.Some?
  }

  function Ids(rows: seq<Review>): (ids: seq<Option<string>>)
    ensures |ids| == |rows| && forall i :: 0 <= i < |rows| ==> ids[i] == rows[i].id
  {
    seq(|rows|, i requires 0 <= i < |rows| => rows[i].id)
  }

  /** No row before position `i` has the review id of row `i`. */
  predicate FirstWithId(rows: seq<Review>, i: int)
    requires 0 <= i < |rows|
  {
    forall k :: 0 <= k < i ==> rows[k].id != rows[i].id
  }

  /**
    `drop_duplicates(subset=['review_id'])`: the review ids left are those of
    the input, each once, in order of first occurrence.
  */
  function DropDuplicateIds(rows: seq<Review>): (out: seq<Review>)
    ensures |out| <= |rows|
    ensures forall r :: r in out ==> r in rows
    ensures Ids(out) == Unique(Ids(rows))
  {
    if rows == [] then []
    else
      var n := |rows| - 1;
      var rest := DropDuplicateIds(rows[..n]);
      assert Ids(rows[..n]) == Ids(rows)[..n];
      if rows[n].id in Ids(rest) then rest
      else
        assert Ids(rest + [rows[n]]) == Ids(rest) + [rows[n].id];
        rest + [rows[n]]
  }

  function IdOf(r: Review): Option<string> {
    r.id
  }

  /** After deduplication no two rows share a review id. */
  lemma DeduplicatedIdsUnique(rows: seq<Review>)
    ensures DistinctKeys(DropDuplicateIds(rows), IdOf)
  {
    var out := DropDuplicateIds(rows);
    forall i, j | 0 <= i < j < |out| ensures out[i].id != out[j].id {
      assert Ids(out)[i] == out[i].id && Ids(out)[j] == out[j].id;
    }
  }

  /** `r` is the first row of `rows` with its review id. */
  predicate IsFirstWithId(rows: seq<Review>, r: Review) {
    exists i :: 0 <= i < |rows| && rows[i] == r && FirstWithId(rows, i)
  }

  /** Every row kept is the first row of the input with its review id. */
  lemma {:induction false} KeepsFirstOccurrence(rows: seq<Review>)
    ensures forall r :: r in DropDuplicateIds(rows) ==> IsFirstWithId(rows, r)
  {
    if rows != [] {
      var n := |rows| - 1;
      var rest := DropDuplicateIds(rows[..n]);
      KeepsFirstOccurrence(rows[..n]);
      forall r | r in DropDuplicateIds(rows) ensures IsFirstWithId(rows, r) {
        if r in rest {
          FirstInPrefix(rows, n, r);
        } else {
          assert r == rows[n] && rows[n].id !in Ids(rest);
          assert Ids(rows[..n]) == Ids(rows)[..n];
          forall k | 0 <= k < n ensures rows[k].id != rows[n].id {
            assert Ids(rows[..n])[k] == rows[k].id;
          }
          assert FirstWithId(rows, n);
        }
      }
    }
  }

  /** Every row that is the first of the input with its review id is kept. */
  lemma {:induction false} KeepsEveryFirstOccurrence(rows: seq<Review>, r: Review)
    requires IsFirstWithId(rows, r)
    ensures r in DropDuplicateIds(rows)
  {
    var i :| 0 <= i < |rows| && rows[i] == r && FirstWithId(rows, i);
    var n := |rows| - 1;
    if i < n {
      FirstInWholeIsFirstInPrefix(rows, i);
      KeepsEveryFirstOccurrence(rows[..n], r);
      KeptStaysKept(rows, r);
    } else {
      NewIdKept(rows);
    }
  }

  /** A row before the last that is first with its review id is so among all but the last row. */
  lemma FirstInWholeIsFirstInPrefix(rows: seq<Review>, i: int)
    requires 0 <= i < |rows| - 1 && FirstWithId(rows, i)
    ensures IsFirstWithId(rows[..|rows| - 1], rows[i])
  {
    var prefix := rows[..|rows| - 1];
    assert prefix[i] == rows[i];
    assert FirstWithId(prefix, i);
  }

  /** A row kept from all but the last row is kept from all of them. */
  lemma KeptStaysKept(rows: seq<Review>, r: Review)
    requires rows != [] && r in DropDuplicateIds(rows[..|rows| - 1])
    ensures r in DropDuplicateIds(rows)
  {
  }

  /** A last row whose review id is new is kept. */
  lemma NewIdKept(rows: seq<Review>)
    requires rows != [] && FirstWithId(rows, |rows| - 1)
    ensures rows[|rows| - 1] in DropDuplicateIds(rows)
  {
    var n := |rows| - 1;
    var prefix := rows[..n];
    assert rows[n].id !in Ids(prefix) by {
      forall k | 0 <= k < n ensures Ids(prefix)[k] != rows[n].id {
        assert Ids(prefix)[k] == rows[k].id;
      }
    }
    assert rows[n].id !in Ids(DropDuplicateIds(prefix));
  }

  /** The first row with an id in a prefix is the first in the whole sequence. */
  lemma FirstInPrefix(rows: seq<Review>, n: nat, r: Review)
    requires n <= |rows| && IsFirstWithId(rows[..n], r)
    ensures IsFirstWithId(rows, r)
  {
    var i :| 0 <= i < n && rows[..n][i] == r && FirstWithId(rows[..n], i);
    assert rows[i] == r;
    assert FirstWithId(rows, i);
  }

  /** `df_neg_reviews['review_score'] <= 2`: a missing score compares false. */
  predicate LowScore(r: Review) {
    r.score.Some? && r.score.value <= 2
  }

  /**
    `low_score_reviews`: complete, deduplicated reviews scoring at most 2.
    A review occurs once if it scores at most 2 and is the first complete row
    of the master table with its review id, and not at all otherwise.
  */
  function LowScoreReviews(master: seq<Review>): (rows: seq<Review>)
    ensures forall i :: 0 <= i < |rows| ==> HasText(rows[i]) && LowScore(rows[i])
    ensures DistinctKeys(rows, IdOf)
    ensures forall r {:trigger Count(rows, r)} ::
      Count(rows, r) == if LowScore(r) && IsFirstWithId(Filter(master, HasText), r) then 1 else 0
  {
    var complete := Filter(master, HasText);
    var unique := DropDuplicateIds(complete);
    DeduplicatedIdsUnique(complete);
    FilterKeepsDistinctKeys(unique, LowScore, IdOf);
    var rows := Filter(unique, LowScore);
    KeepsFirstOccurrence(complete);
    assert forall r {:trigger Count(rows, r)} ::
      Count(rows, r) == if LowScore(r) && IsFirstWithId(complete, r) then 1 else 0 by {
      forall r ensures Count(rows, r) == if LowScore(r) && IsFirstWithId(complete, r) then 1 else 0 {
        if LowScore(r) && IsFirstWithId(complete, r) {
          KeepsEveryFirstOccurrence(complete, r);
          assert Count(rows, r) == Count(unique, r);
          DistinctRows(rows);
          DistinctCountsOnce(rows, r);
        }
      }
    }
    rows
  }

  /** Rows with pairwise different review ids are pairwise different. */
  lemma DistinctRows(rows: seq<Review>)
    requires DistinctKeys(rows, IdOf)
    ensures Distinct(rows)
  {
    forall i, j | 0 <= i < j < |rows| ensures rows[i] != rows[j] {
      assert IdOf(rows[i]) != IdOf(rows[j]);
    }
  }

  /**
    `low_score_reviews['review_comment_message'].apply(categorize_complaint)`:
    one label per review, each a declared category name or "Lainnya", and
    "Lainnya" for a comment exactly when no keyword occurs in it. The
    keyword table is the one the dashboard declares, misspelling included.
  */
  function ComplaintCategories(rows: seq<Review>): (labels: seq<string>)
    ensures |labels| == |rows|
    ensures forall i :: 0 <= i < |rows| ==>
      labels[i] == SubmitComplaints.CategorizeComplaintAsWritten(rows[i].comment)
    ensures forall i :: 0 <= i < |rows| && rows[i].comment.Some? ==>
      (labels[i] == SubmitComplaints.Fallback <==>
       NoMatch(SubmitComplaints.TableAsWritten, Lower(rows[i].comment.value)))
    ensures forall i :: 0 <= i < |rows| ==>
      labels[i] == SubmitComplaints.Fallback ||
      exists c :: 0 <= c < |SubmitComplaints.TableAsWritten| && SubmitComplaints.TableAsWritten[c].name == labels[i]
  {
    seq(|rows|, i requires 0 <= i < |rows| => SubmitComplaints.CategorizeComplaintAsWritten(rows[i].comment))
  }

  /**
    In the pipeline every comment is present, so a low-score review is
    labelled "Lainnya" exactly when none of the keywords occurs in it.
  */
  lemma FallbackMeansNoKeyword(master: seq<Review>, i: int)
    requires 0 <= i < |LowScoreReviews(master)|
    ensures var rows := LowScoreReviews(master);
      ComplaintCategories(rows)[i] == SubmitComplaints.Fallback <==>
      NoMatch(SubmitComplaints.TableAsWritten, Lower(rows[i].comment.value))
  {
    assert HasText(LowScoreReviews(master)[i]);
  }

  /** `low_score_reviews`, to which the complaint category column is added in place. */
  class LowScoreFrame {
    var rows: seq<Review>
    var complaintCategory: seq<string>

    constructor (master: seq<Review>)
      ensures rows == LowScoreReviews(master) && complaintCategory == []
    {
      rows := LowScoreReviews(master);
      complaintCategory := [];
    }

    /** `low_score_reviews['complaint_category'] = ...`: the rows stay, the column is set. */
    method AssignComplaintCategories()
      modifies this
      ensures rows == old(rows)
      ensures complaintCategory == ComplaintCategories(rows)
    {
      complaintCategory := ComplaintCategories(rows);
    }

    /**
      `low_score_reviews['complaint_category'].value_counts()`: one row per
      label that occurs, with the number of reviews carrying it, adding up to
      the number of low-score reviews.
    */
    method CategoryCounts() returns (counts: seq<(string, nat)>)
      requires |complaintCategory| == |rows|
      ensures |counts| == |Unique(complaintCategory)|
      ensures forall i :: 0 <= i < |counts| ==> counts[i].0 in complaintCategory && counts[i].1 > 0
      ensures forall i :: 0 <= i < |counts| ==> counts[i].1 == Count(complaintCategory, counts[i].0)
      ensures forall i, j :: 0 <= i < j < |counts| ==> counts[i].0 != counts[j].0
      ensures forall c :: c in complaintCategory ==> (c, Count(complaintCategory, c)) in counts
      ensures Total(counts) == |rows|
    {
      counts := ValueCounts(complaintCategory);
      ValueCountsTotal(complaintCategory);
    }
  }
}
