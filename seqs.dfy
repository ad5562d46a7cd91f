/**
 * The array operations the task manager relies on, as functions on sequences:
 * `Array.prototype.filter` (Select), `Array.prototype.map` (Map), and the
 * facts about them that the rest of the model uses: a filter result is an
 * order-preserving subsequence that keeps exactly the matching elements.
 */
module Seqs {

  /** `r` can be obtained from `s` by deleting elements, keeping the order of the rest. */
  predicate IsSubseq<T(==)>(r: seq<T>, s: seq<T>)
  {
    r == [] || (s != [] && ((r[0] == s[0] && IsSubseq(r[1..], s[1..])) || IsSubseq(r, s[1..])))
  }

  /** The elements of `s` that satisfy `p`, in their original order (`s.filter(p)`). */
  function Select<T(==)>(s: seq<T>, p: T -> bool): (r: seq<T>)
    ensures |r| <= |s|
    ensures forall x | x in r :: x in s && p(x)
    ensures forall x | x in s && p(x) :: x in r
  {
    if s == [] then []
    else if p(s[0]) then [s[0]] + Select(s[1..], p)
    else Select(s[1..], p)
  }

  /** `f` applied to every element of `s`, in order (`s.map(f)`). */
  function Map<A, B>(s: seq<A>, f: A -> B): (r: seq<B>)
    ensures |r| == |s|
    ensures forall i | 0 <= i < |s| :: r[i] == f(s[i])
  {
    if s == [] then [] else [f(s[0])] + Map(s[1..], f)
  }

  lemma {:induction false} SelectIsSubseq<T>(s: seq<T>, p: T -> bool)
    ensures IsSubseq(Select(s, p), s)
  {
    if s != [] {
      SelectIsSubseq(s[1..], p);
      if p(s[0]) {
        var r := Select(s, p);
        assert r[0] == s[0] && r[1..] == Select(s[1..], p);
      }
    }
  }

  /** Every element keeps its multiplicity if it matches and disappears otherwise. */
  lemma {:induction false} SelectMultiset<T>(s: seq<T>, p: T -> bool)
    ensures forall x :: multiset(Select(s, p))[x] == if p(x) then multiset(s)[x] else 0
  {
    if s != [] {
      SelectMultiset(s[1..], p);
      assert s == [s[0]] + s[1..];
    }
  }

  /** Filtering with a predicate every element satisfies changes nothing. */
  lemma {:induction false} SelectAll<T>(s: seq<T>, p: T -> bool)
    requires forall x | x in s :: p(x)
    ensures Select(s, p) == s
  {
    if s != [] {
      SelectAll(s[1..], p);
    }
  }

  /** Filtering with a predicate no element satisfies leaves nothing. */
  lemma {:induction false} SelectNone<T>(s: seq<T>, p: T -> bool)
    requires forall x | x in s :: !p(x)
    ensures Select(s, p) == []
  {
    if s != [] {
      SelectNone(s[1..], p);
    }
  }

  /** Filtering twice with the same predicate is filtering once. */
  lemma SelectIdempotent<T>(s: seq<T>, p: T -> bool)
    ensures Select(Select(s, p), p) == Select(s, p)
  {
    SelectAll(Select(s, p), p);
  }

  /** Two predicates that agree on the elements of `s` select the same elements. */
  lemma {:induction false} SelectCongruent<T>(s: seq<T>, p: T -> bool, q: T -> bool)
    requires forall x | x in s :: p(x) == q(x)
    ensures Select(s, p) == Select(s, q)
  {
    if s != [] {
      SelectCongruent(s[1..], p, q);
    }
  }

  /** Filtering a filter is filtering by the conjunction. */
  lemma {:induction false} SelectSelect<T>(s: seq<T>, p: T -> bool, q: T -> bool, pq: T -> bool)
    requires forall x | x in s :: pq(x) == (p(x) && q(x))
    ensures Select(Select(s, p), q) == Select(s, pq)
  {
    if s != [] {
      SelectSelect(s[1..], p, q, pq);
    }
  }

  /** Filtering distributes over concatenation. */
  lemma {:induction false} SelectConcat<T>(a: seq<T>, b: seq<T>, p: T -> bool)
    ensures Select(a + b, p) == Select(a, p) + Select(b, p)
  {
    if a == [] {
      assert a + b == b;
    } else {
      var ab := a + b;
      assert ab[0] == a[0] && ab[1..] == a[1..] + b;
      SelectConcat(a[1..], b, p);
      if p(a[0]) {
        calc {
          Select(ab, p);
          [a[0]] + Select(a[1..] + b, p);
          [a[0]] + (Select(a[1..], p) + Select(b, p));
          ([a[0]] + Select(a[1..], p)) + Select(b, p);
        }
      }
    }
  }

  /** When exactly the element at `j` satisfies `p`, filtering leaves that element alone. */
  lemma SelectOnly<T>(s: seq<T>, p: T -> bool, j: nat)
    requires j < |s| && p(s[j])
    requires forall i | 0 <= i < |s| && i != j :: !p(s[i])
    ensures Select(s, p) == [s[j]]
  {
    var pre, post := s[..j], s[j + 1..];
    assert s == pre + [s[j]] + post;
    assert forall x | x in pre :: !p(x) by {
      forall x | x in pre ensures !p(x) {
        var i :| 0 <= i < |pre| && pre[i] == x;
        assert s[i] == x;
      }
    }
    assert forall x | x in post :: !p(x) by {
      forall x | x in post ensures !p(x) {
        var i :| 0 <= i < |post| && post[i] == x;
        assert s[j + 1 + i] == x;
      }
    }
    SelectNone(pre, p);
    SelectNone(post, p);
    SelectConcat(pre + [s[j]], post, p);
    SelectConcat(pre, [s[j]], p);
  }

  /** Filtering two permutations of each other gives permutations of each other. */
  lemma SelectPermutation<T>(a: seq<T>, b: seq<T>, p: T -> bool)
    requires multiset(a) == multiset(b)
    ensures multiset(Select(a, p)) == multiset(Select(b, p))
    ensures |Select(a, p)| == |Select(b, p)|
  {
    SelectMultiset(a, p);
    SelectMultiset(b, p);
    var ma, mb := multiset(Select(a, p)), multiset(Select(b, p));
    assert forall x :: ma[x] == mb[x];
    MultisetExt(ma, mb);
    assert |ma| == |Select(a, p)| && |mb| == |Select(b, p)|;
  }

  lemma MultisetExt<T>(ma: multiset<T>, mb: multiset<T>)
    requires forall x :: ma[x] == mb[x]
    ensures ma == mb
  {
  }
}
