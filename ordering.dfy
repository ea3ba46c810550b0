/** The stable descending sort that `Array.prototype.sort` performs with the
    comparator `(a, b) => b.counter - a.counter`: a reference definition on
    sequences (an insertion sort), its properties, and an in-place insertion
    sort on an array proved equal to it. */
module Ordering {

  /** Non-increasing by `key`. */
  ghost predicate NonIncreasing<T>(s: seq<T>, key: T -> int)
  {
    forall i, j :: 0 <= i < j < |s| ==> key(s[i]) >= key(s[j])
  }

  /** The elements of `s` whose key is `k`, in their order in `s`. */
  function WithKey<T>(s: seq<T>, key: T -> int, k: int): seq<T>
  {
    if s == [] then [] else (if key(s[0]) == k then [s[0]] else []) + WithKey(s[1..], key, k)
  }

  /** `x` placed after every leading element whose key is at least its own. */
  function InsertStable<T>(x: T, s: seq<T>, key: T -> int): seq<T>
  {
    if s == [] then [x]
    else if key(s[0]) >= key(x) then [s[0]] + InsertStable(x, s[1..], key)
    else [x] + s
  }

  /** The stable descending sort of `s`: each element, in input order, is
      inserted after the earlier ones whose key is at least its own. */
  function SortDesc<T>(s: seq<T>, key: T -> int): seq<T>
  {
    if s == [] then [] else InsertStable(s[|s| - 1], SortDesc(s[..|s| - 1], key), key)
  }

  lemma {:induction false} WithKeyAbsent<T>(s: seq<T>, key: T -> int, k: int)
    requires forall i :: 0 <= i < |s| ==> key(s[i]) != k
    ensures WithKey(s, key, k) == []
  {
    if s != [] {
      WithKeyAbsent(s[1..], key, k);
    }
  }

  lemma {:induction false} InsertStablePermutes<T>(x: T, s: seq<T>, key: T -> int)
    ensures multiset(InsertStable(x, s, key)) == multiset(s) + multiset{x}
  {
    if s != [] && key(s[0]) >= key(x) {
      InsertStablePermutes(x, s[1..], key);
      assert s == [s[0]] + s[1..];
    }
  }

  lemma {:induction false} InsertStableOrdered<T>(x: T, s: seq<T>, key: T -> int)
    requires NonIncreasing(s, key)
    ensures NonIncreasing(InsertStable(x, s, key), key)
  {
    if s != [] && key(s[0]) >= key(x) {
      var rest := InsertStable(x, s[1..], key);
      InsertStableOrdered(x, s[1..], key);
      InsertStablePermutes(x, s[1..], key);
      forall i | 0 <= i < |rest| ensures key(s[0]) >= key(rest[i]) {
        assert rest[i] in multiset(rest);
        assert rest[i] in multiset(s[1..]) || rest[i] == x;
        if rest[i] != x {
          var j :| 0 <= j < |s[1..]| && s[1..][j] == rest[i];
          assert s[j + 1] == rest[i];
        }
      }
    }
  }

  lemma WithKeyCons<T>(x: T, s: seq<T>, key: T -> int, k: int)
    ensures WithKey([x] + s, key, k) == (if key(x) == k then [x] else []) + WithKey(s, key, k)
  {
    assert ([x] + s)[1..] == s;
  }

  lemma NonIncreasingTail<T>(s: seq<T>, key: T -> int)
    requires s != [] && NonIncreasing(s, key)
    ensures NonIncreasing(s[1..], key)
  {
    forall i, j | 0 <= i < j < |s[1..]| ensures key(s[1..][i]) >= key(s[1..][j]) {
      assert s[1..][i] == s[i + 1] && s[1..][j] == s[j + 1];
    }
  }

  lemma {:induction false} WithKeyAppend<T>(a: seq<T>, b: seq<T>, key: T -> int, k: int)
    ensures WithKey(a + b, key, k) == WithKey(a, key, k) + WithKey(b, key, k)
  {
    if a == [] {
      assert a + b == b;
    } else {
      var tail := a[1..] + b;
      assert a + b == [a[0]] + tail;
      WithKeyAppend(a[1..], b, key, k);
      PrependWithKey(a, tail, WithKey(b, key, k), key, k);
    }
  }

  /** Putting the head of `s` back in front of `rest` adds the head to its
      key's elements, when the tail of `s` and `rest` differ by `extra`. */
  lemma PrependWithKey<T>(s: seq<T>, rest: seq<T>, extra: seq<T>, key: T -> int, k: int)
    requires s != []
    requires WithKey(rest, key, k) == WithKey(s[1..], key, k) + extra
    ensures WithKey([s[0]] + rest, key, k) == WithKey(s, key, k) + extra
  {
    WithKeyCons(s[0], rest, key, k);
  }

  /** Inserting into an ordered sequence appends `x` to the elements of its
      key and leaves every other key's elements as they were. */
  lemma {:induction false} InsertStableWithKey<T>(x: T, s: seq<T>, key: T -> int, k: int)
    requires NonIncreasing(s, key)
    ensures WithKey(InsertStable(x, s, key), key, k) == WithKey(s, key, k) + (if key(x) == k then [x] else [])
  {
    if s == [] {
      WithKeyCons(x, [], key, k);
    } else if key(s[0]) >= key(x) {
      NonIncreasingTail(s, key);
      InsertStableWithKey(x, s[1..], key, k);
      PrependWithKey(s, InsertStable(x, s[1..], key), if key(x) == k then [x] else [], key, k);
    } else {
      WithKeyCons(x, s, key, k);
      if key(x) == k {
        WithKeyAbsent(s, key, k);
      }
    }
  }

  /** The reference sort is ordered and a permutation of its input. */
  lemma {:induction false} SortDescOrdered<T>(s: seq<T>, key: T -> int)
    ensures NonIncreasing(SortDesc(s, key), key)
    ensures multiset(SortDesc(s, key)) == multiset(s)
    ensures |SortDesc(s, key)| == |s|
  {
    if s != [] {
      var init, last := s[..|s| - 1], s[|s| - 1];
      assert s == init + [last];
      SortDescOrdered(init, key);
      InsertStableOrdered(last, SortDesc(init, key), key);
      InsertStablePermutes(last, SortDesc(init, key), key);
      assert |SortDesc(s, key)| == |multiset(SortDesc(s, key))|;
    }
  }

  /** The reference sort is stable: the elements of any one key keep their
      input order. */
  lemma {:induction false} SortDescStable<T>(s: seq<T>, key: T -> int, k: int)
    ensures WithKey(SortDesc(s, key), key, k) == WithKey(s, key, k)
  {
    if s != [] {
      var init, last := s[..|s| - 1], s[|s| - 1];
      assert s == init + [last];
      SortDescStable(init, key, k);
      SortDescOrdered(init, key);
      InsertStableWithKey(last, SortDesc(init, key), key, k);
      WithKeyAppend(init, [last], key, k);
      assert WithKey([last], key, k) == (if key(last) == k then [last] else []) + WithKey([last][1..], key, k);
    }
  }

  /** The split point of an insertion: before it every key is at least
      `key(x)`, after it every key is below. */
  lemma {:induction false} InsertStableAt<T>(x: T, s: seq<T>, key: T -> int, j: nat)
    requires j <= |s|
    requires forall m :: 0 <= m < j ==> key(s[m]) >= key(x)
    requires forall m :: j <= m < |s| ==> key(s[m]) < key(x)
    ensures InsertStable(x, s, key) == s[..j] + [x] + s[j..]
  {
    if j > 0 {
      InsertStableAt(x, s[1..], key, j - 1);
      assert s[1..][..j - 1] == s[1..j];
      assert s[1..][j - 1..] == s[j..];
      assert s[..j] == [s[0]] + s[1..j];
    }
  }

  /** The reference sort of one more input element inserts that element. */
  lemma SortDescExtend<T>(input: seq<T>, i: nat, key: T -> int)
    requires i < |input|
    ensures SortDesc(input[..i + 1], key) == InsertStable(input[i], SortDesc(input[..i], key), key)
  {
    var prefix := input[..i + 1];
    assert prefix[..i] == input[..i];
  }

  /** In an ordered sequence every key before position `j` is at least the
      key at `j - 1`. */
  lemma OrderedPrefixAtLeast<T>(s: seq<T>, key: T -> int, j: nat, bound: int)
    requires NonIncreasing(s, key) && j <= |s|
    requires j > 0 ==> key(s[j - 1]) >= bound
    ensures forall m :: 0 <= m < j ==> key(s[m]) >= bound
  {
    forall m | 0 <= m < j ensures key(s[m]) >= bound {
      if m < j - 1 {
        assert key(s[m]) >= key(s[j - 1]);
      }
    }
  }

  /** A sequence that agrees with `s` before `j`, holds `x` at `j` and `s`
      shifted by one after it, is `s` with `x` inserted at `j`. */
  lemma ShiftedIsInsertion<T>(s: seq<T>, x: T, j: nat, after: seq<T>)
    requires j <= |s| < |after|
    requires forall m :: 0 <= m < j ==> after[m] == s[m]
    requires after[j] == x
    requires forall m :: j < m <= |s| ==> after[m] == s[m - 1]
    ensures after[..|s| + 1] == s[..j] + [x] + s[j..]
  {
    var built := s[..j] + [x] + s[j..];
    forall m | 0 <= m < |s| + 1 ensures after[m] == built[m] {
      if m < j {
        assert built[m] == s[m];
      } else if m > j {
        assert built[m] == s[m - 1];
      }
    }
  }

  /** One pass of the outer loop of `SortInPlace`: `x = input[i]` written at
      the split point `j` of the sorted prefix extends the sorted prefix. */
  lemma InsertionStep<T>(input: seq<T>, i: nat, key: T -> int, sorted: seq<T>, j: nat, after: seq<T>)
    requires i < |input| == |after| && j <= i
    requires sorted == SortDesc(input[..i], key) && |sorted| == i
    requires forall m :: 0 <= m < j ==> after[m] == sorted[m]
    requires after[j] == input[i]
    requires forall m :: j < m <= i ==> after[m] == sorted[m - 1]
    requires j > 0 ==> key(sorted[j - 1]) >= key(input[i])
    requires forall m :: j <= m < i ==> key(sorted[m]) < key(input[i])
    ensures after[..i + 1] == SortDesc(input[..i + 1], key)
  {
    SortDescOrdered(input[..i], key);
    OrderedPrefixAtLeast(sorted, key, j, key(input[i]));
    InsertStableAt(input[i], sorted, key, j);
    SortDescExtend(input, i, key);
    ShiftedIsInsertion(sorted, input[i], j, after);
  }

  /** Sorts `a` in place, stably, by non-increasing `key`. */
  method SortInPlace<T>(a: array<T>, key: T -> int)
    modifies a
    ensures a[..] == SortDesc(old(a[..]), key)
  {
    ghost var input := a[..];
    var i := 0;
    while i < a.Length
      invariant 0 <= i <= a.Length
      invariant a[..i] == SortDesc(input[..i], key)
      invariant a[i..] == input[i..]
    {
      InsertNext(a, i, key, input);
      i := i + 1;
    }
    assert input[..a.Length] == input;
  }

  /** One pass of the insertion sort: `a[i]` moves down past the sorted
      elements before it whose key is below its own. */
  method InsertNext<T>(a: array<T>, i: int, key: T -> int, ghost input: seq<T>)
    requires 0 <= i < a.Length == |input|
    requires a[..i] == SortDesc(input[..i], key) && a[i..] == input[i..]
    modifies a
    ensures a[..i + 1] == SortDesc(input[..i + 1], key) && a[i + 1..] == input[i + 1..]
  {
    ghost var sorted := a[..i];
    assert forall m :: 0 <= m < i ==> a[m] == sorted[m];
    assert forall m :: i <= m < a.Length ==> a[m] == input[m];
    var x := a[i];
    var j := i;
    while j > 0 && key(a[j - 1]) < key(x)
      invariant 0 <= j <= i
      invariant forall m :: 0 <= m < j ==> a[m] == sorted[m]
      invariant forall m :: j < m <= i ==> a[m] == sorted[m - 1]
      invariant forall m :: i < m < a.Length ==> a[m] == input[m]
      invariant forall m :: j <= m < i ==> key(sorted[m]) < key(x)
    {
      a[j] := a[j - 1];
      j := j - 1;
    }
    a[j] := x;
    ghost var after := a[..];
    InsertionStep(input, i, key, sorted, j, after);
    assert forall m :: i < m < a.Length ==> after[m] == input[m];
    assert after[i + 1..] == input[i + 1..];
  }
}
