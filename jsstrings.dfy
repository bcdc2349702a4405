/**
 * The two JavaScript string operations the core relies on: `indexOf` and
 * `split` with a non-empty string separator, followed by indexing the
 * resulting array (`s.split(sep)[k]`, `undefined` when there is no k-th
 * piece).  Both call sites use a literal separator: `" "` in the
 * authentication middleware and `"/images/"` in the book controllers.
 */
module JsStrings {
  import opened Wrappers

  /** `sep` occurs in `s` starting at index `k`. */
  predicate OccursAt(s: string, sep: string, k: nat) {
    k + |sep| <= |s| && s[k..k + |sep|] == sep
  }

  /** `sep` occurs somewhere in `s`. */
  ghost predicate Contains(s: string, sep: string) {
    exists k: nat :: OccursAt(s, sep, k)
  }

  /** Occurrences in `s` at k >= 1 are the occurrences in `s[1..]` at k - 1. */
  lemma OccursShift(s: string, sep: string)
    requires |s| >= 1
    ensures forall k: nat :: 1 <= k ==> (OccursAt(s, sep, k) <==> OccursAt(s[1..], sep, k - 1))
  {
    forall k: nat | 1 <= k
      ensures OccursAt(s, sep, k) <==> OccursAt(s[1..], sep, k - 1)
    {
      if k + |sep| <= |s| {
        assert s[1..][k - 1..k - 1 + |sep|] == s[k..k + |sep|];
      }
    }
  }

  /** `s.indexOf(sep)`: the first index at which `sep` occurs, None for -1. */
  function IndexOf(s: string, sep: string): (r: Option<nat>)
    requires sep != ""
    ensures r.Some? ==> OccursAt(s, sep, r.value)
    ensures r.Some? ==> forall k: nat :: k < r.value ==> !OccursAt(s, sep, k)
    ensures r.None? <==> !Contains(s, sep)
    decreases |s|
  {
    if |s| < |sep| then None
    else if s[..|sep|] == sep then Some(0)
    else
      OccursShift(s, sep);
      match IndexOf(s[1..], sep)
      case None => None
      case Some(i) => Some(i + 1)
  }

  /** Once `sep` is known to occur at `i` and nowhere earlier, `indexOf` finds `i`. */
  lemma IndexOfIsFirst(s: string, sep: string, i: nat)
    requires sep != ""
    requires OccursAt(s, sep, i)
    requires forall k: nat :: k < i ==> !OccursAt(s, sep, k)
    ensures IndexOf(s, sep) == Some(i)
  {
  }

  /** A prefix that ends before the first occurrence of `sep` does not contain it. */
  lemma PrefixFree(s: string, sep: string, i: nat)
    requires sep != "" && i <= |s|
    requires forall k: nat :: k < i ==> !OccursAt(s, sep, k)
    ensures !Contains(s[..i], sep)
  {
    forall k: nat | OccursAt(s[..i], sep, k)
      ensures false
    {
      assert s[..i][k..k + |sep|] == s[k..k + |sep|];
      assert OccursAt(s, sep, k);
    }
  }

  /**
   * `s.split(sep)`: the pieces of `s` between successive non-overlapping
   * occurrences of `sep`, scanning from the left.  There is always at least
   * one piece, and no piece contains the separator.
   */
  function Split(s: string, sep: string): (parts: seq<string>)
    requires sep != ""
    ensures |parts| >= 1
    ensures forall j :: 0 <= j < |parts| ==> !Contains(parts[j], sep)
    decreases |s|
  {
    match IndexOf(s, sep)
    case None => [s]
    case Some(i) =>
      PrefixFree(s, sep, i);
      [s[..i]] + Split(s[i + |sep|..], sep)
  }

  /** `parts.join(sep)`. */
  function Join(parts: seq<string>, sep: string): string
    requires |parts| >= 1
    decreases |parts|
  {
    if |parts| == 1 then parts[0] else parts[0] + sep + Join(parts[1..], sep)
  }

  /** `s.split(sep)[k]`, None standing for `undefined`. */
  function Field(s: string, sep: string, k: nat): Option<string>
    requires sep != ""
  {
    var parts := Split(s, sep);
    if k < |parts| then Some(parts[k]) else None
  }

  /** Splitting loses nothing: joining the pieces back gives the original string. */
  lemma {:induction false} JoinSplit(s: string, sep: string)
    requires sep != ""
    ensures Join(Split(s, sep), sep) == s
    decreases |s|
  {
    match IndexOf(s, sep)
    case None =>
    case Some(i) =>
      var rest := s[i + |sep|..];
      var parts := [s[..i]] + Split(rest, sep);
      JoinSplit(rest, sep);
      assert Split(s, sep) == parts;
      assert parts[1..] == Split(rest, sep);
      assert Join(parts, sep) == s[..i] + sep + rest;
      assert s == s[..i] + sep + rest;
  }

  /** A string that does not contain the separator is a single piece. */
  lemma SplitWithout(s: string, sep: string)
    requires sep != "" && !Contains(s, sep)
    ensures Split(s, sep) == [s]
  {
  }

  /** There is a second piece exactly when the separator occurs. */
  lemma SecondFieldIffContains(s: string, sep: string)
    requires sep != ""
    ensures Field(s, sep, 1).Some? <==> Contains(s, sep)
  {
    match IndexOf(s, sep)
    case None =>
    case Some(i) =>
      assert |Split(s, sep)| >= 2;
  }

  /**
   * When `sep` first occurs right after `a` (no occurrence starts inside
   * `a`), the first piece of `a + sep + rest` is `a` and the remaining
   * pieces are those of `rest`.  An occurrence starting inside `a` would lie
   * within `a + sep[..|sep| - 1]`, hence the precondition.
   */
  lemma {:induction false} SplitAfterFirst(a: string, sep: string, rest: string)
    requires sep != ""
    requires !Contains(a + sep[..|sep| - 1], sep)
    ensures Split(a + sep + rest, sep) == [a] + Split(rest, sep)
  {
    var s := a + sep + rest;
    var head := a + sep[..|sep| - 1];
    assert s[|a|..|a| + |sep|] == sep;
    assert s[..|head|] == head;
    forall k: nat | k < |a|
      ensures !OccursAt(s, sep, k)
    {
      assert !OccursAt(head, sep, k);
      assert k + |sep| <= |head|;
      SliceOfPrefix(s, |head|, k, k + |sep|);
    }
    IndexOfIsFirst(s, sep, |a|);
    assert s[..|a|] == a;
    assert s[|a| + |sep|..] == rest;
  }

  /** A slice that lies within a prefix is the same slice of the whole string. */
  lemma SliceOfPrefix(s: string, m: nat, i: nat, j: nat)
    requires i <= j <= m <= |s|
    ensures s[..m][i..j] == s[i..j]
  {
    assert forall x :: 0 <= x < j - i ==> s[..m][i..j][x] == s[i + x];
  }

  /**
   * Prepending a string none of whose characters starts the separator
   * cannot create an occurrence of it.
   */
  lemma ContainsAfterPrefix(p: string, f: string, sep: string)
    requires sep != "" && sep[0] !in p
    requires !Contains(f, sep)
    ensures !Contains(p + f, sep)
  {
    var s := p + f;
    forall k: nat | OccursAt(s, sep, k)
      ensures false
    {
      if k < |p| {
        assert false;
      } else {
        assert f[k - |p|..k - |p| + |sep|] == s[k..k + |sep|];
        assert OccursAt(f, sep, k - |p|);
      }
    }
  }

  /** For a one-character separator the precondition of SplitAfterFirst is just "`a` has no separator". */
  lemma SplitAfterFirstChar(a: string, sep: string, rest: string)
    requires |sep| == 1 && !Contains(a, sep)
    ensures Split(a + sep + rest, sep) == [a] + Split(rest, sep)
  {
    assert a + sep[..|sep| - 1] == a;
    SplitAfterFirst(a, sep, rest);
  }
}
