/** Order-preserving filtering and counting over sequences: JavaScript's
    `Array.prototype.filter`, and the query engine's `$match` and `$sum`. */
module Lists {

  /** The elements of `s` satisfying `p`, in their original order. */
  function Filter<T(!new)>(s: seq<T>, p: T -> bool): (r: seq<T>)
    ensures |r| <= |s|
    ensures forall i :: 0 <= i < |r| ==> p(r[i])
  {
    if s == [] then [] else (if p(s[0]) then [s[0]] else []) + Filter(s[1..], p)
  }

  /** Filtering keeps exactly the occurrences that pass the test. */
  lemma {:induction false} FilterMultiset<T(!new)>(s: seq<T>, p: T -> bool)
    ensures forall x {:trigger multiset(Filter(s, p))[x]} ::
              multiset(Filter(s, p))[x] == if p(x) then multiset(s)[x] else 0
    ensures forall x {:trigger x in Filter(s, p)} :: x in Filter(s, p) <==> x in s && p(x)
  {
    if s != [] {
      FilterMultiset(s[1..], p);
      assert s == [s[0]] + s[1..];
      assert multiset(s) == multiset{s[0]} + multiset(s[1..]);
      var r := Filter(s, p);
      var head: seq<T> := if p(s[0]) then [s[0]] else [];
      assert r == head + Filter(s[1..], p);
      assert multiset(r) == multiset(head) + multiset(Filter(s[1..], p));
      forall x ensures multiset(r)[x] == if p(x) then multiset(s)[x] else 0 {
      }
      forall x ensures x in r <==> x in s && p(x) {
        assert x in r <==> multiset(r)[x] > 0;
        assert x in s <==> multiset(s)[x] > 0;
      }
    }
  }

  /** Filtering distributes over concatenation: what survives keeps its order. */
  lemma {:induction false} FilterAppend<T(!new)>(a: seq<T>, b: seq<T>, p: T -> bool)
    ensures Filter(a + b, p) == Filter(a, p) + Filter(b, p)
  {
    if a == [] {
      assert a + b == b;
    } else {
      assert (a + b)[0] == a[0];
      assert (a + b)[1..] == a[1..] + b;
      FilterAppend(a[1..], b, p);
    }
  }

  /** Filtering twice with the same test is filtering once. */
  lemma {:induction false} FilterIdempotent<T(!new)>(s: seq<T>, p: T -> bool)
    ensures Filter(Filter(s, p), p) == Filter(s, p)
  {
    if s != [] {
      FilterIdempotent(s[1..], p);
      if p(s[0]) {
        var r := [s[0]] + Filter(s[1..], p);
        assert Filter(s, p) == r;
        assert r[0] == s[0] && r[1..] == Filter(s[1..], p);
        assert Filter(r, p) == [s[0]] + Filter(r[1..], p);
      } else {
        assert Filter(s, p) == [] + Filter(s[1..], p) == Filter(s[1..], p);
      }
    }
  }

  /** When every element passes, filtering keeps the sequence as it is. */
  lemma {:induction false} FilterAll<T(!new)>(s: seq<T>, p: T -> bool)
    requires forall i :: 0 <= i < |s| ==> p(s[i])
    ensures Filter(s, p) == s
  {
    if s != [] {
      FilterAll(s[1..], p);
    }
  }

  /** Number of elements of `s` satisfying `p`. */
  function Count<T(!new)>(s: seq<T>, p: T -> bool): (n: nat)
    ensures n <= |s|
    ensures n == |Filter(s, p)|
  {
    if s == [] then 0 else (if p(s[0]) then 1 else 0) + Count(s[1..], p)
  }
}
