/**
 * Ordering by display key: Java's `String.compareTo` as a strict order on
 * strings, and the sort that `Collections.sort` performs with a comparator
 * that compares keys, written as an insertion sort.
 */
module DisplayOrder {

  /**
   * `a.compareTo(b) < 0`: at the first position where the strings differ,
   * `a` has the smaller character, or `a` is a proper prefix of `b`.
   */
  predicate LexLess(a: string, b: string)
    decreases |a|
  {
    |b| > 0 && (|a| == 0 || a[0] < b[0] || (a[0] == b[0] && LexLess(a[1..], b[1..])))
  }

  lemma {:induction false} LexLessIrreflexive(a: string)
    ensures !LexLess(a, a)
    decreases |a|
  {
    if |a| > 0 {
      LexLessIrreflexive(a[1..]);
    }
  }

  lemma {:induction false} LexLessTransitive(a: string, b: string, c: string)
    requires LexLess(a, b) && LexLess(b, c)
    ensures LexLess(a, c)
    decreases |a|
  {
    if |a| > 0 && a[0] == b[0] && b[0] == c[0] {
      LexLessTransitive(a[1..], b[1..], c[1..]);
    }
  }

  /** Distinct strings are always ordered one way or the other. */
  lemma {:induction false} LexLessTotal(a: string, b: string)
    requires a != b
    ensures LexLess(a, b) || LexLess(b, a)
    decreases |a|
  {
    if |a| > 0 && |b| > 0 && a[0] == b[0] {
      assert a == [a[0]] + a[1..] && b == [b[0]] + b[1..];
      LexLessTotal(a[1..], b[1..]);
    }
  }

  lemma LexLessAsymmetric(a: string, b: string)
    requires LexLess(a, b)
    ensures !LexLess(b, a)
  {
    if LexLess(b, a) {
      LexLessTransitive(a, b, a);
      LexLessIrreflexive(a);
    }
  }

  /** Sorted ascending by key, with no key twice. */
  predicate StrictlyAscending<T>(s: seq<T>, key: T -> string) {
    forall i, j :: 0 <= i < j < |s| ==> LexLess(key(s[i]), key(s[j]))
  }

  predicate DistinctKeys<T>(s: seq<T>, key: T -> string) {
    forall i, j :: 0 <= i < j < |s| ==> key(s[i]) != key(s[j])
  }

  /** Puts `x` before the first element whose key is not smaller than its own. */
  function Insert<T>(x: T, s: seq<T>, key: T -> string): (r: seq<T>)
    ensures |r| == |s| + 1
  {
    if s == [] then [x]
    else if LexLess(key(s[0]), key(x)) then [s[0]] + Insert(x, s[1..], key)
    else [x] + s
  }

  /** `Collections.sort` with a comparator on `key`, as an insertion sort. */
  function SortByKey<T>(s: seq<T>, key: T -> string): (r: seq<T>)
    ensures |r| == |s|
  {
    if s == [] then [] else Insert(s[0], SortByKey(s[1..], key), key)
  }

  lemma {:induction false} InsertPermutes<T>(x: T, s: seq<T>, key: T -> string)
    ensures multiset(Insert(x, s, key)) == multiset(s) + multiset{x}
  {
    if s != [] && LexLess(key(s[0]), key(x)) {
      InsertPermutes(x, s[1..], key);
      assert s == [s[0]] + s[1..];
    }
  }

  lemma {:induction false} InsertAscending<T>(x: T, s: seq<T>, key: T -> string)
    requires StrictlyAscending(s, key)
    requires forall i :: 0 <= i < |s| ==> key(s[i]) != key(x)
    ensures StrictlyAscending(Insert(x, s, key), key)
  {
    if s == [] {
    } else if LexLess(key(s[0]), key(x)) {
      var rest := Insert(x, s[1..], key);
      InsertAscending(x, s[1..], key);
      InsertPermutes(x, s[1..], key);
      forall j | 0 <= j < |rest|
        ensures LexLess(key(s[0]), key(rest[j]))
      {
        assert rest[j] in multiset(rest);
        if rest[j] != x {
          assert rest[j] in multiset(s[1..]);
          var k :| 0 <= k < |s[1..]| && s[1..][k] == rest[j];
          assert s[k + 1] == rest[j];
        }
      }
      assert Insert(x, s, key) == [s[0]] + rest;
    } else {
      LexLessTotal(key(x), key(s[0]));
      forall j | 0 < j < |s|
        ensures LexLess(key(x), key(s[j]))
      {
        LexLessTransitive(key(x), key(s[0]), key(s[j]));
      }
    }
  }

  lemma {:induction false} SortByKeyPermutes<T>(s: seq<T>, key: T -> string)
    ensures multiset(SortByKey(s, key)) == multiset(s)
  {
    if s != [] {
      SortByKeyPermutes(s[1..], key);
      InsertPermutes(s[0], SortByKey(s[1..], key), key);
      assert s == [s[0]] + s[1..];
    }
  }

  /** With no key twice, the sort yields a strictly ascending list of the same elements. */
  lemma {:induction false} SortByKeyAscending<T>(s: seq<T>, key: T -> string)
    requires DistinctKeys(s, key)
    ensures StrictlyAscending(SortByKey(s, key), key)
    ensures multiset(SortByKey(s, key)) == multiset(s)
  {
    SortByKeyPermutes(s, key);
    if s != [] {
      var sorted := SortByKey(s[1..], key);
      assert DistinctKeys(s[1..], key) by {
        forall i, j | 0 <= i < j < |s[1..]|
          ensures key(s[1..][i]) != key(s[1..][j])
        {
          assert s[1..][i] == s[i + 1] && s[1..][j] == s[j + 1];
        }
      }
      SortByKeyAscending(s[1..], key);
      forall i | 0 <= i < |sorted|
        ensures key(sorted[i]) != key(s[0])
      {
        assert sorted[i] in multiset(s[1..]);
        var k :| 0 <= k < |s[1..]| && s[1..][k] == sorted[i];
        assert s[k + 1] == sorted[i];
      }
      InsertAscending(s[0], sorted, key);
    }
  }

  /**
   * A strictly ascending list is determined by its elements: two of them
   * holding the same elements are the same list.
   */
  lemma {:induction false} AscendingUnique<T>(a: seq<T>, b: seq<T>, key: T -> string)
    requires StrictlyAscending(a, key) && StrictlyAscending(b, key)
    requires forall x :: x in a <==> x in b
    ensures a == b
  {
    if a == [] {
      forall x
        ensures x !in multiset(b)
      {
        assert x in multiset(b) <==> x in b;
      }
      assert multiset(b) == multiset{};
      assert |b| == |multiset(b)| == 0;
    } else {
      assert b != [] by {
        assert a[0] in b;
      }
      assert a[0] == b[0] by {
        assert a[0] in b;
        var k :| 0 <= k < |b| && b[k] == a[0];
        assert b[0] in a;
        var m :| 0 <= m < |a| && a[m] == b[0];
        if k > 0 {
          if m > 0 {
            LexLessAsymmetric(key(b[0]), key(a[0]));
          } else {
            LexLessIrreflexive(key(b[0]));
          }
        }
      }
      forall x
        ensures x in a[1..] <==> x in b[1..]
      {
        if x in a[1..] {
          var i :| 0 <= i < |a[1..]| && a[1..][i] == x;
          assert a[i + 1] == x;
          if x == a[0] {
            LexLessIrreflexive(key(x));
          }
          assert x in b;
        }
        if x in b[1..] {
          var i :| 0 <= i < |b[1..]| && b[1..][i] == x;
          assert b[i + 1] == x;
          if x == b[0] {
            LexLessIrreflexive(key(x));
          }
          assert x in a;
        }
      }
      AscendingUnique(a[1..], b[1..], key);
      assert a == [a[0]] + a[1..] && b == [b[0]] + b[1..];
    }
  }
}
