/** Small facts about sequences and the sets built from them, shared by the
    validators (`new Set(numbers).size`) and the scorer (`new Set(ids).size`). */
module Collections {

  /** The members of a sequence, as a JavaScript `new Set(s)` holds them. */
  function SetOf<T>(s: seq<T>): set<T>
  {
    set x | x in s
  }

  /** No element occurs twice. */
  predicate Distinct<T(==)>(s: seq<T>)
  {
    forall i, j :: 0 <= i < j < |s| ==> s[i] != s[j]
  }

  function MapSeq<T, U>(f: T -> U, s: seq<T>): (r: seq<U>)
    ensures |r| == |s|
    ensures forall k :: 0 <= k < |s| ==> r[k] == f(s[k])
  {
    seq(|s|, k requires 0 <= k < |s| => f(s[k]))
  }

  function Min(a: int, b: int): int
  {
    if a <= b then a else b
  }

  function Max(a: int, b: int): int
  {
    if a >= b then a else b
  }

  /** A set built from a sequence has as many members as the sequence has
      positions exactly when no element repeats; this is why comparing
      `new Set(s).size` with `s.length` detects duplicates. */
  lemma {:induction false} DistinctIffSetSize<T>(s: seq<T>)
    ensures Distinct(s) <==> |SetOf(s)| == |s|
  {
    if s == [] {
    } else {
      var init, last := s[..|s| - 1], s[|s| - 1];
      DistinctIffSetSize(init);
      assert s == init + [last];
      assert SetOf(s) == SetOf(init) + {last};
      SetSizeAtMostLength(init);
      if last in init {
        assert SetOf(s) == SetOf(init);
        var k :| 0 <= k < |init| && init[k] == last;
        assert s[k] == s[|s| - 1];
        assert !Distinct(s);
      } else {
        assert |SetOf(s)| == |SetOf(init)| + 1;
        if Distinct(s) {
          assert Distinct(init) by {
            forall i, j | 0 <= i < j < |init| ensures init[i] != init[j] {
              assert init[i] == s[i] && init[j] == s[j];
            }
          }
        }
        if Distinct(init) {
          forall i, j | 0 <= i < j < |s| ensures s[i] != s[j] {
            if j == |s| - 1 {
              assert s[i] == init[i];
            } else {
              assert s[i] == init[i] && s[j] == init[j];
            }
          }
        }
      }
    }
  }

  /** A sequence never has fewer positions than distinct members. */
  lemma {:induction false} SetSizeAtMostLength<T>(s: seq<T>)
    ensures |SetOf(s)| <= |s|
  {
    if s != [] {
      var init := s[..|s| - 1];
      SetSizeAtMostLength(init);
      assert s == init + [s[|s| - 1]];
      assert SetOf(s) == SetOf(init) + {s[|s| - 1]};
    }
  }

  /** Two finite sets of the same size, one inside the other, are equal: the
      scorer's "same size and every correct id selected" is set equality. */
  lemma SubsetOfSameSizeIsEqual<T>(a: set<T>, b: set<T>)
    requires a <= b && |a| == |b|
    ensures a == b
  {
    assert |b - a| == |b| - |a|;
    assert b - a == {};
  }

  /** A member of a sequence without repeats occurs in it at most once. */
  lemma {:induction false} DistinctOccursOnce<T>(s: seq<T>, x: T)
    requires Distinct(s)
    ensures multiset(s)[x] <= 1
  {
    if s != [] {
      var init, last := s[..|s| - 1], s[|s| - 1];
      assert s == init + [last];
      assert Distinct(init) by {
        forall i, j | 0 <= i < j < |init| ensures init[i] != init[j] {
          assert init[i] == s[i] && init[j] == s[j];
        }
      }
      DistinctOccursOnce(init, x);
      if last == x {
        assert x !in init by {
          forall k | 0 <= k < |init| ensures init[k] != x {
            assert init[k] == s[k];
          }
        }
      }
    }
  }

  /** Whatever a sequence without repeats holds, a sub-multiset of it holds
      without repeats too. */
  lemma DistinctSubMultiset<T>(a: seq<T>, b: seq<T>)
    requires multiset(a) <= multiset(b) && Distinct(b)
    ensures Distinct(a)
  {
    forall i, j | 0 <= i < j < |a| ensures a[i] != a[j] {
      if a[i] == a[j] {
        assert a == a[..j] + [a[j]] + a[j + 1..];
        assert a[i] in a[..j];
        assert multiset(a)[a[i]] >= 2;
        DistinctOccursOnce(b, a[i]);
      }
    }
  }

  /** A prefix holds no more of anything than the whole sequence. */
  lemma MultisetOfPrefix<T>(s: seq<T>, n: nat)
    requires n <= |s|
    ensures multiset(s[..n]) <= multiset(s)
  {
    assert s == s[..n] + s[n..];
  }
}
