/** Generic operations on the rows of a table, kept in storage order: finding
    the first row that satisfies a condition, filtering rows out, rewriting
    the rows that satisfy a condition, and counting rows. */
module Rows {
  import opened Wrappers

  /** The position of the first row satisfying `p`, if any. */
  function FindIndex<T>(s: seq<T>, p: T -> bool): (r: Option<nat>)
    ensures r.Some? ==> r.value < |s| && p(s[r.value])
    ensures r.Some? ==> forall j :: 0 <= j < r.value ==> !p(s[j])
    ensures r.None? <==> forall j :: 0 <= j < |s| ==> !p(s[j])
    decreases |s|
  {
    if |s| == 0 then None
    else if p(s[0]) then Some(0)
    else match FindIndex(s[1..], p)
      case None => None
      case Some(i) => Some(i + 1)
  }

  /** The first row satisfying `p`, or `zero` when there is none: a query
      that reads a single row into a zero-initialised record. */
  function First<T>(s: seq<T>, p: T -> bool, zero: T): (r: T)
    ensures (exists j :: 0 <= j < |s| && p(s[j])) ==> r in s && p(r)
    ensures (forall j :: 0 <= j < |s| ==> !p(s[j])) ==> r == zero
  {
    match FindIndex(s, p)
    case Some(i) => s[i]
    case None => zero
  }

  /** Whether some row satisfies `p`. */
  predicate Any<T>(s: seq<T>, p: T -> bool) {
    FindIndex(s, p).Some?
  }

  lemma AnyWitness<T>(s: seq<T>, p: T -> bool, j: nat)
    requires j < |s| && p(s[j])
    ensures Any(s, p)
  {
  }

  /** The rows satisfying `keep`, in their original order. */
  function Filter<T>(s: seq<T>, keep: T -> bool): (r: seq<T>)
    ensures |r| <= |s|
    ensures forall i :: 0 <= i < |r| ==> r[i] in s && keep(r[i])
    ensures forall i :: 0 <= i < |s| && keep(s[i]) ==> s[i] in r
    ensures |s| == 1 ==> r == if keep(s[0]) then s else []
    decreases |s|
  {
    if |s| == 0 then []
    else if keep(s[0]) then [s[0]] + Filter(s[1..], keep)
    else Filter(s[1..], keep)
  }

  /** Every row satisfying `p` replaced by `f` of it; the others unchanged. */
  function Rewrite<T>(s: seq<T>, p: T -> bool, f: T -> T): (r: seq<T>)
    ensures |r| == |s|
    ensures forall i :: 0 <= i < |s| ==> r[i] == if p(s[i]) then f(s[i]) else s[i]
  {
    seq(|s|, i requires 0 <= i < |s| => if p(s[i]) then f(s[i]) else s[i])
  }

  /** The number of rows satisfying `p`. */
  function Count<T>(s: seq<T>, p: T -> bool): (n: nat)
    ensures n <= |s|
    ensures n == 0 <==> forall j :: 0 <= j < |s| ==> !p(s[j])
    decreases |s|
  {
    if |s| == 0 then 0 else (if p(s[0]) then 1 else 0) + Count(s[1..], p)
  }

  lemma {:induction false} CountAppend<T>(s: seq<T>, x: T, p: T -> bool)
    ensures Count(s + [x], p) == Count(s, p) + if p(x) then 1 else 0
    decreases |s|
  {
    if |s| > 0 {
      assert (s + [x])[1..] == s[1..] + [x];
      CountAppend(s[1..], x, p);
    }
  }

  /** Keeping only the rows that satisfy `keep` lowers the count of `p` by
      the number of dropped rows that satisfy `p` (the rows of `both`). */
  lemma {:induction false} CountFilter<T>(s: seq<T>, keep: T -> bool, p: T -> bool, both: T -> bool)
    requires forall j :: 0 <= j < |s| ==> both(s[j]) == (p(s[j]) && !keep(s[j]))
    ensures Count(Filter(s, keep), p) == Count(s, p) - Count(s, both)
    decreases |s|
  {
    if |s| > 0 {
      CountFilter(s[1..], keep, p, both);
      if keep(s[0]) {
        assert Filter(s, keep) == [s[0]] + Filter(s[1..], keep);
        assert ([s[0]] + Filter(s[1..], keep))[1..] == Filter(s[1..], keep);
      }
    }
  }

  /** Two conditions that agree on every row count alike. */
  lemma {:induction false} CountSame<T>(s: seq<T>, p: T -> bool, q: T -> bool)
    requires forall j :: 0 <= j < |s| ==> p(s[j]) == q(s[j])
    ensures Count(s, p) == Count(s, q)
    decreases |s|
  {
    if |s| > 0 {
      CountSame(s[1..], p, q);
    }
  }

  /** Filtering with a condition every row satisfies changes nothing. */
  lemma {:induction false} FilterAll<T>(s: seq<T>, keep: T -> bool)
    requires forall j :: 0 <= j < |s| ==> keep(s[j])
    ensures Filter(s, keep) == s
    decreases |s|
  {
    if |s| > 0 {
      FilterAll(s[1..], keep);
    }
  }

  /** A row appended after rows none of which satisfies `p` is the first row satisfying it. */
  lemma FirstAppend<T>(s: seq<T>, x: T, p: T -> bool, zero: T)
    requires !Any(s, p) && p(x)
    ensures First(s + [x], p, zero) == x
  {
    var all := s + [x];
    assert forall j :: 0 <= j < |s| ==> !p(all[j]);
    assert p(all[|s|]);
  }

  /** Rewriting the rows that satisfy `p`, in a way that keeps them satisfying
      it, rewrites the first such row. */
  lemma FirstRewrite<T>(s: seq<T>, p: T -> bool, f: T -> T, zero: T)
    requires Any(s, p)
    requires forall j :: 0 <= j < |s| && p(s[j]) ==> p(f(s[j]))
    ensures First(Rewrite(s, p, f), p, zero) == f(First(s, p, zero))
  {
    var k := FindIndex(s, p).value;
    var r := Rewrite(s, p, f);
    assert p(r[k]);
    assert forall j :: 0 <= j < k ==> !p(r[j]);
    assert FindIndex(r, p) == Some(k);
  }

  /** A row satisfying `p` with no earlier row satisfying it is the first one. */
  lemma FirstAt<T>(s: seq<T>, p: T -> bool, k: nat, zero: T)
    requires k < |s| && p(s[k])
    requires forall j :: 0 <= j < k ==> !p(s[j])
    ensures FindIndex(s, p) == Some(k) && First(s, p, zero) == s[k]
  {
  }

  /** Every earlier row stands in relation `differ` to every later row:
      a key that no two rows share, when `differ` compares keys. */
  predicate Pairwise<T>(s: seq<T>, differ: (T, T) -> bool) {
    forall j, k :: 0 <= j < k < |s| ==> differ(s[j], s[k])
  }

  /** Filtering keeps every relation that held between earlier and later rows. */
  lemma {:induction false} FilterPairwise<T>(s: seq<T>, keep: T -> bool, differ: (T, T) -> bool)
    requires Pairwise(s, differ)
    ensures Pairwise(Filter(s, keep), differ)
    decreases |s|
  {
    if |s| > 0 {
      var tail := s[1..];
      assert Pairwise(tail, differ) by {
        forall j, k | 0 <= j < k < |tail| ensures differ(tail[j], tail[k]) {
          assert tail[j] == s[j + 1] && tail[k] == s[k + 1];
        }
      }
      FilterPairwise(tail, keep, differ);
      if keep(s[0]) {
        var t := Filter(tail, keep);
        var r := [s[0]] + t;
        assert Filter(s, keep) == r;
        forall j, k | 0 <= j < k < |r| ensures differ(r[j], r[k]) {
          if j == 0 {
            var m :| 0 <= m < |tail| && tail[m] == t[k - 1];
            assert s[m + 1] == r[k];
          } else {
            assert r[j] == t[j - 1] && r[k] == t[k - 1];
          }
        }
      }
    }
  }

  /** Filtering a concatenation filters each part: with the one-row case
      this says Filter keeps the rows satisfying `keep` in their order. */
  lemma {:induction false} FilterAppend<T>(a: seq<T>, b: seq<T>, keep: T -> bool)
    ensures Filter(a + b, keep) == Filter(a, keep) + Filter(b, keep)
    decreases |a|
  {
    if |a| > 0 {
      assert (a + b)[1..] == a[1..] + b;
      FilterAppend(a[1..], b, keep);
    } else {
      assert a + b == b;
    }
  }

  /** Rewriting rows keeps a relation between earlier and later rows when
      the rewrite keeps it between any two rows. */
  lemma RewritePairwise<T>(s: seq<T>, p: T -> bool, f: T -> T, differ: (T, T) -> bool)
    requires Pairwise(s, differ)
    requires forall x, y :: differ(x, y) ==> differ(if p(x) then f(x) else x, if p(y) then f(y) else y)
    ensures Pairwise(Rewrite(s, p, f), differ)
  {
  }

  /** Appending a row that stands in relation to every row keeps the relation. */
  lemma AppendPairwise<T>(s: seq<T>, x: T, differ: (T, T) -> bool)
    requires Pairwise(s, differ)
    requires forall j :: 0 <= j < |s| ==> differ(s[j], x)
    ensures Pairwise(s + [x], differ)
  {
    var r := s + [x];
    forall j, k | 0 <= j < k < |r| ensures differ(r[j], r[k]) {
      assert r[j] == s[j];
    }
  }

  /** A row satisfying `p` that filtering keeps is still found afterwards. */
  lemma AnyFilter<T>(s: seq<T>, keep: T -> bool, p: T -> bool)
    requires Any(s, p)
    requires forall j :: 0 <= j < |s| && p(s[j]) ==> keep(s[j])
    ensures Any(Filter(s, keep), p)
  {
    var j := FindIndex(s, p).value;
    var r := Filter(s, keep);
    assert s[j] in r;
    var m :| 0 <= m < |r| && r[m] == s[j];
    AnyWitness(r, p, m);
  }

  /** An update neither adds nor removes rows: any count whose condition the
      rewrite keeps, on the rows it touches, is the same before and after. */
  lemma {:induction false} RewriteCount<T>(s: seq<T>, p: T -> bool, f: T -> T, q: T -> bool)
    requires forall x :: p(x) ==> (q(f(x)) <==> q(x))
    ensures Count(Rewrite(s, p, f), q) == Count(s, q)
    decreases |s|
  {
    if |s| > 0 {
      assert Rewrite(s, p, f)[1..] == Rewrite(s[1..], p, f);
      RewriteCount(s[1..], p, f, q);
    }
  }

  /** Rewriting when no row satisfies the condition changes nothing. */
  lemma RewriteNone<T>(s: seq<T>, p: T -> bool, f: T -> T)
    requires !Any(s, p)
    ensures Rewrite(s, p, f) == s
  {
  }
}
