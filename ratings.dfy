/**
 * Ratings stored on a book and the arithmetic on them.  The average the
 * controllers store comes from a module that is not part of this model;
 * the operations take it as a parameter, and Mean below is the
 * arithmetic mean against which it is usually read.
 */
module Ratings {
  import opened Users

  /** One entry of `book.ratings`. */
  datatype Rating = Rating(userId: UserId, grade: int)

  /** `ratings.map((rating) => rating.grade)`. */
  function Grades(rs: seq<Rating>): (gs: seq<int>)
    ensures |gs| == |rs|
    ensures forall i :: 0 <= i < |rs| ==> gs[i] == rs[i].grade
  {
    seq(|rs|, i requires 0 <= i < |rs| => rs[i].grade)
  }

  /** `ratings.map((rating) => rating.userId)`. */
  function Raters(rs: seq<Rating>): (us: seq<UserId>)
    ensures |us| == |rs|
    ensures forall i :: 0 <= i < |rs| ==> us[i] == rs[i].userId
  {
    seq(|rs|, i requires 0 <= i < |rs| => rs[i].userId)
  }

  /** The one-rating-per-user invariant a book's ratings are meant to keep. */
  predicate OneRatingPerUser(rs: seq<Rating>) {
    forall i, j :: 0 <= i < j < |rs| ==> rs[i].userId != rs[j].userId
  }

  /** Which grades the rating endpoint admits (0 to 5 inclusive). */
  predicate ValidGrade(g: int) {
    0 <= g <= 5
  }

  function Sum(gs: seq<int>): int
    decreases |gs|
  {
    if gs == [] then 0 else Sum(gs[..|gs| - 1]) + gs[|gs| - 1]
  }

  /** The arithmetic mean of a non-empty list of grades. */
  function Mean(gs: seq<int>): real
    requires |gs| > 0
  {
    Sum(gs) as real / |gs| as real
  }

  /** The arithmetic mean as a total function (0 for no grades), to be passed as `average`. */
  function MeanOrZero(gs: seq<int>): real {
    if |gs| == 0 then 0.0 else Mean(gs)
  }

  /** Appending a rating appends its grade and its rater. */
  lemma AppendRating(rs: seq<Rating>, r: Rating)
    ensures Grades(rs + [r]) == Grades(rs) + [r.grade]
    ensures Raters(rs + [r]) == Raters(rs) + [r.userId]
  {
  }

  /** A new rater keeps the ratings one per user. */
  lemma AppendKeepsOneRatingPerUser(rs: seq<Rating>, r: Rating)
    requires OneRatingPerUser(rs) && r.userId !in Raters(rs)
    ensures OneRatingPerUser(rs + [r])
  {
    forall i, j | 0 <= i < j < |rs + [r]|
      ensures (rs + [r])[i].userId != (rs + [r])[j].userId
    {
      if j == |rs| {
        assert Raters(rs)[i] == rs[i].userId;
      }
    }
  }

  /** Bounds on the grades bound their sum. */
  lemma {:induction false} SumBounds(gs: seq<int>, lo: int, hi: int)
    requires forall i :: 0 <= i < |gs| ==> lo <= gs[i] <= hi
    ensures lo * |gs| <= Sum(gs) <= hi * |gs|
    decreases |gs|
  {
    if gs != [] {
      var init, n := gs[..|gs| - 1], |gs| - 1;
      SumBounds(init, lo, hi);
      assert Sum(gs) == Sum(init) + gs[n];
      assert lo * |gs| == lo * n + lo && hi * |gs| == hi * n + hi;
    }
  }

  /** Admitted grades give a mean within the admitted range. */
  lemma MeanInRange(gs: seq<int>)
    requires |gs| > 0
    requires forall i :: 0 <= i < |gs| ==> ValidGrade(gs[i])
    ensures 0.0 <= Mean(gs) <= 5.0
  {
    SumBounds(gs, 0, 5);
    var n := |gs| as real;
    assert (5 * |gs|) as real == 5.0 * n;
    var m := Sum(gs) as real / n;
    assert m * n == Sum(gs) as real;
  }

  /** The mean after one more grade, in terms of the grades before it. */
  lemma MeanAfterAppend(gs: seq<int>, g: int)
    ensures Mean(gs + [g]) == (Sum(gs) + g) as real / (|gs| + 1) as real
  {
    var t := gs + [g];
    assert t[..|t| - 1] == gs;
    var num, den := Sum(t) as real, |t| as real;
    assert num == (Sum(gs) + g) as real;
    assert den == (|gs| + 1) as real;
    assert Mean(t) == num / den;
  }

  /** A single grade is its own mean. */
  lemma MeanOfOne(g: int)
    ensures Mean([g]) == g as real
  {
    assert [g][..0] == [];
    assert Sum([g]) == g;
  }
}
