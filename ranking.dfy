/**
 * getBestRating: `Book.find().sort({ averageRating: -1 }).limit(3)`.  The
 * database's order among equal averages is unspecified; the model sorts
 * stably (equal averages keep the listing order), which is one of the
 * admissible orders, and every property proved here holds for any of them.
 */
module Ranking {
  import opened BookModel

  /** How many books getBestRating returns at most. */
  const Limit := 3

  /** Books ordered by non-increasing average. */
  ghost predicate NonIncreasing(s: seq<Book>) {
    forall i, j :: 0 <= i < j < |s| ==> s[i].averageRating >= s[j].averageRating
  }

  /** The first book of a non-increasing sequence has the highest average. */
  lemma HeadIsHighest(s: seq<Book>)
    requires NonIncreasing(s) && s != []
    ensures forall x :: x in s ==> x.averageRating <= s[0].averageRating
  {
  }

  /** A book at least as high as the head of a non-increasing sequence can go in front of it. */
  lemma ConsNonIncreasing(h: Book, t: seq<Book>)
    requires NonIncreasing(t)
    requires t == [] || h.averageRating >= t[0].averageRating
    ensures NonIncreasing([h] + t)
  {
    if t != [] {
      HeadIsHighest(t);
      forall j | 1 <= j < |[h] + t|
        ensures h.averageRating >= ([h] + t)[j].averageRating
      {
        assert ([h] + t)[j] == t[j - 1] && t[j - 1] in t;
      }
    }
  }

  /** Inserts `b` into a non-increasing sequence, ahead of the books with an equal average. */
  function Insert(b: Book, s: seq<Book>): (r: seq<Book>)
    requires NonIncreasing(s)
    ensures NonIncreasing(r)
    ensures multiset(r) == multiset(s) + multiset{b} && |r| == |s| + 1
    ensures forall i :: 0 <= i < |r| ==> r[i] == b || r[i] in s
    decreases |s|
  {
    if s == [] || b.averageRating >= s[0].averageRating then
      ConsNonIncreasing(b, s);
      [b] + s
    else
      var tail := Insert(b, s[1..]);
      HeadIsHighest(s);
      assert s == [s[0]] + s[1..];
      assert tail[0] == b || tail[0] in s;
      ConsNonIncreasing(s[0], tail);
      [s[0]] + tail
  }

  /** The books sorted by non-increasing average. */
  function SortDescending(s: seq<Book>): (r: seq<Book>)
    ensures NonIncreasing(r)
    ensures multiset(r) == multiset(s) && |r| == |s|
    decreases |s|
  {
    if s == [] then []
    else
      assert s == [s[0]] + s[1..];
      Insert(s[0], SortDescending(s[1..]))
  }

  /**
   * The first `Limit` books of the sorted listing.  At most three come back,
   * fewer only when fewer are stored; they are stored books, highest average
   * first; and no book left out has a strictly higher average than a
   * returned one.
   */
  function BestRating(books: seq<Book>): (r: seq<Book>)
    ensures |r| == if |books| < Limit then |books| else Limit
    ensures NonIncreasing(r)
    ensures multiset(r) <= multiset(books)
    ensures forall x, k :: x in multiset(books) - multiset(r) && 0 <= k < |r| ==> x.averageRating <= r[k].averageRating
  {
    var sorted := SortDescending(books);
    var n := if |sorted| < Limit then |sorted| else Limit;
    var r := sorted[..n];
    BestRatingSplit(sorted, n);
    r
  }

  /** Cutting a non-increasing sequence: the rest is bounded by every element of the head. */
  lemma BestRatingSplit(sorted: seq<Book>, n: nat)
    requires NonIncreasing(sorted) && n <= |sorted|
    ensures NonIncreasing(sorted[..n])
    ensures multiset(sorted[..n]) <= multiset(sorted)
    ensures multiset(sorted) - multiset(sorted[..n]) == multiset(sorted[n..])
    ensures forall x, k :: x in multiset(sorted[n..]) && 0 <= k < n ==> x.averageRating <= sorted[k].averageRating
  {
    assert sorted == sorted[..n] + sorted[n..];
    forall x, k | x in multiset(sorted[n..]) && 0 <= k < n
      ensures x.averageRating <= sorted[k].averageRating
    {
      var j :| 0 <= j < |sorted[n..]| && sorted[n..][j] == x;
      assert sorted[n + j] == x;
    }
  }
}
