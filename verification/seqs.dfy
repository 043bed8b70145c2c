/** Generic sequence operations behind the store and the list filters:
    `Array.prototype.filter`, an index-preserving conditional `map`, and the
    subsequence relation their results satisfy. */
module Seqs {

  /** `xs.filter(p)`: the elements of `xs` that satisfy `p`, in their original order. */
  function Filter<T>(xs: seq<T>, p: T -> bool): (r: seq<T>)
    ensures |r| <= |xs|
    ensures forall i :: 0 <= i < |r| ==> r[i] in xs && p(r[i])
    ensures forall i :: 0 <= i < |xs| && p(xs[i]) ==> xs[i] in r
  {
    if |xs| == 0 then []
    else (if p(xs[0]) then [xs[0]] else []) + Filter(xs[1..], p)
  }

  /** Filtering keeps every copy of a passing element and no copy of a failing one. */
  lemma {:induction false} FilterCounts<T>(xs: seq<T>, p: T -> bool)
    ensures forall x :: multiset(Filter(xs, p))[x] == if p(x) then multiset(xs)[x] else 0
    decreases |xs|
  {
    if |xs| > 0 {
      FilterCounts(xs[1..], p);
      assert xs == [xs[0]] + xs[1..];
      assert multiset(xs) == multiset{xs[0]} + multiset(xs[1..]);
    }
  }

  /** `a` can be obtained from `b` by deleting elements: only elements of `b`,
      in their relative order. */
  ghost predicate Subseq<T>(a: seq<T>, b: seq<T>)
    decreases |b|
  {
    if |a| == 0 then true
    else if |b| == 0 then false
    else (a[0] == b[0] && Subseq(a[1..], b[1..])) || Subseq(a, b[1..])
  }

  /** Every pair of elements, taken in sequence order, is related by `rel`. */
  ghost predicate Pairwise<T>(xs: seq<T>, rel: (T, T) -> bool) {
    forall i, j :: 0 <= i < j < |xs| ==> rel(xs[i], xs[j])
  }

  /** Conjunction of two element tests, as one test. */
  function Both<T>(p: T -> bool, q: T -> bool): T -> bool {
    x => p(x) && q(x)
  }

  /** `xs.map(x => sel(x) ? f(x) : x)`: apply `f` to the selected elements only,
      keeping the positions of all elements. */
  function MapWhere<T>(xs: seq<T>, sel: T -> bool, f: T -> T): seq<T> {
    seq(|xs|, i requires 0 <= i < |xs| => if sel(xs[i]) then f(xs[i]) else xs[i])
  }

  lemma {:induction false} SubseqRefl<T>(a: seq<T>)
    ensures Subseq(a, a)
    decreases |a|
  {
    if |a| > 0 {
      SubseqRefl(a[1..]);
    }
  }

  /** A subsequence is no longer than the sequence it is taken from. */
  lemma {:induction false} SubseqLength<T>(a: seq<T>, b: seq<T>)
    requires Subseq(a, b)
    ensures |a| <= |b|
    decreases |b|
  {
    if |a| > 0 {
      if a[0] == b[0] && Subseq(a[1..], b[1..]) {
        SubseqLength(a[1..], b[1..]);
      } else {
        SubseqLength(a, b[1..]);
      }
    }
  }

  /** Filtering deletes elements and keeps the survivors in order. */
  lemma {:induction false} FilterIsSubseq<T>(xs: seq<T>, p: T -> bool)
    ensures Subseq(Filter(xs, p), xs)
    decreases |xs|
  {
    if |xs| > 0 {
      var r := Filter(xs, p);
      FilterIsSubseq(xs[1..], p);
      if p(xs[0]) {
        assert r[0] == xs[0] && r[1..] == Filter(xs[1..], p);
      } else {
        assert r == Filter(xs[1..], p);
        if |r| > 0 {
          assert Subseq(r, xs[1..]);
        }
      }
    }
  }

  /** A filter whose test holds of every element returns its input. */
  lemma {:induction false} FilterKeepsAll<T>(xs: seq<T>, p: T -> bool)
    requires forall i :: 0 <= i < |xs| ==> p(xs[i])
    ensures Filter(xs, p) == xs
    decreases |xs|
  {
    if |xs| > 0 {
      FilterKeepsAll(xs[1..], p);
      assert [xs[0]] + xs[1..] == xs;
    }
  }

  /** A filter whose test fails on every element of the input returns nothing. */
  lemma {:induction false} FilterDropsAll<T>(xs: seq<T>, p: T -> bool)
    requires forall i :: 0 <= i < |xs| ==> !p(xs[i])
    ensures Filter(xs, p) == []
    decreases |xs|
  {
    if |xs| > 0 {
      FilterDropsAll(xs[1..], p);
    }
  }

  /** Two tests that agree on every element of the input select the same elements. */
  lemma {:induction false} FilterExt<T>(xs: seq<T>, p: T -> bool, q: T -> bool)
    requires forall i :: 0 <= i < |xs| ==> p(xs[i]) == q(xs[i])
    ensures Filter(xs, p) == Filter(xs, q)
    decreases |xs|
  {
    if |xs| > 0 {
      FilterExt(xs[1..], p, q);
    }
  }

  lemma FilterSingleton<T>(x: T, p: T -> bool)
    ensures Filter([x], p) == if p(x) then [x] else []
  {
    assert [x][1..] == [];
  }

  /** What `Filter` keeps of one element. */
  function Keep<T>(p: T -> bool, x: T): seq<T> {
    if p(x) then [x] else []
  }

  lemma FilterCons<T>(x: T, xs: seq<T>, p: T -> bool)
    ensures Filter([x] + xs, p) == Keep(p, x) + Filter(xs, p)
  {
    assert ([x] + xs)[0] == x && ([x] + xs)[1..] == xs;
  }

  lemma {:induction false} FilterConcat<T>(a: seq<T>, b: seq<T>, p: T -> bool)
    ensures Filter(a + b, p) == Filter(a, p) + Filter(b, p)
    decreases |a|
  {
    if |a| == 0 {
      assert a + b == b;
    } else {
      assert (a + b)[0] == a[0] && (a + b)[1..] == a[1..] + b;
      FilterConcat(a[1..], b, p);
    }
  }

  /** Two successive filters select what one filter on the conjunction selects. */
  lemma {:induction false} FilterFilter<T>(xs: seq<T>, p: T -> bool, q: T -> bool)
    ensures Filter(Filter(xs, p), q) == Filter(xs, Both(p, q))
    decreases |xs|
  {
    if |xs| > 0 {
      var head := if p(xs[0]) then [xs[0]] else [];
      FilterConcat(head, Filter(xs[1..], p), q);
      FilterFilter(xs[1..], p, q);
      if p(xs[0]) {
        assert Filter(head, q) == Filter([xs[0]], q) == (if q(xs[0]) then [xs[0]] else []) by {
          assert [xs[0]][1..] == [];
        }
      }
    }
  }

  /** Filtering twice with the same test changes nothing the second time. */
  lemma {:induction false} FilterIdempotent<T>(xs: seq<T>, p: T -> bool)
    ensures Filter(Filter(xs, p), p) == Filter(xs, p)
  {
    var r := Filter(xs, p);
    FilterKeepsAll(r, p);
  }

  /** Filtering keeps every ordered pair it does not delete. */
  lemma {:induction false} FilterPairwise<T>(xs: seq<T>, p: T -> bool, rel: (T, T) -> bool)
    requires Pairwise(xs, rel)
    ensures Pairwise(Filter(xs, p), rel)
    decreases |xs|
  {
    if |xs| > 0 {
      var rest := Filter(xs[1..], p);
      assert Pairwise(xs[1..], rel) by {
        forall i, j | 0 <= i < j < |xs[1..]|
          ensures rel(xs[1..][i], xs[1..][j])
        {
          assert xs[1..][i] == xs[i + 1] && xs[1..][j] == xs[j + 1];
        }
      }
      FilterPairwise(xs[1..], p, rel);
      if p(xs[0]) {
        var r := [xs[0]] + rest;
        forall i, j | 0 <= i < j < |r|
          ensures rel(r[i], r[j])
        {
          if i == 0 {
            assert r[j] in rest;
            assert r[j] in xs[1..];
            var k :| 0 <= k < |xs[1..]| && xs[1..][k] == r[j];
            assert xs[k + 1] == r[j];
          } else {
            assert r[i] == rest[i - 1] && r[j] == rest[j - 1];
          }
        }
      }
    }
  }

  /** Nothing selected: the conditional map returns its input. */
  lemma MapWhereNoneSelected<T>(xs: seq<T>, sel: T -> bool, f: T -> T)
    requires forall i :: 0 <= i < |xs| ==> !sel(xs[i])
    ensures MapWhere(xs, sel, f) == xs
  {
  }

  /** When `f` keeps selected elements selected and is idempotent on them,
      mapping twice is the same as mapping once. */
  lemma MapWhereIdempotent<T>(xs: seq<T>, sel: T -> bool, f: T -> T)
    requires forall i :: 0 <= i < |xs| && sel(xs[i]) ==> sel(f(xs[i])) && f(f(xs[i])) == f(xs[i])
    ensures MapWhere(MapWhere(xs, sel, f), sel, f) == MapWhere(xs, sel, f)
  {
  }
}
