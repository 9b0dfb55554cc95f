/** Stable sorting by a total order, and the byte order of Rust strings and vectors. */
module Order {

  /** Lexicographic order. */
  predicate LexLeq(a: seq<int>, b: seq<int>) {
    a == [] || (b != [] && (a[0] < b[0] || (a[0] == b[0] && LexLeq(a[1..], b[1..]))))
  }

  /** A string of numbers precedes another where it ends first, or has the smaller number at the first difference. */
  lemma {:induction false} LexLeqIff(a: seq<int>, b: seq<int>)
    ensures LexLeq(a, b) <==> exists k :: 0 <= k <= |a| && LessAt(a, b, k)
  {
    if a != [] && b != [] && a[0] == b[0] {
      LexLeqIff(a[1..], b[1..]);
      forall k | 0 <= k < |a|
        ensures LessAt(a, b, k + 1) <==> LessAt(a[1..], b[1..], k)
      {
        LessShifted(a, b, k);
      }
      if LexLeq(a, b) {
        var k :| 0 <= k <= |a[1..]| && LessAt(a[1..], b[1..], k);
        assert LessAt(a, b, k + 1);
      }
      assert !LessAt(a, b, 0);
      assert forall k :: 0 < k <= |a| && LessAt(a, b, k) ==> LessAt(a[1..], b[1..], k - 1);
    } else {
      assert LexLeq(a, b) ==> LessAt(a, b, 0);
      assert forall k :: 0 < k <= |a| && LessAt(a, b, k) ==> a[..k][0] == b[..k][0];
    }
  }

  /** The strings agree up to `k`, where the first ends or has the smaller number. */
  ghost predicate LessAt(a: seq<int>, b: seq<int>, k: nat)
    requires k <= |a|
  {
    k <= |b| && a[..k] == b[..k] && (k == |a| || (k < |b| && a[k] < b[k]))
  }

  lemma {:induction false} LessShifted(a: seq<int>, b: seq<int>, k: nat)
    requires a != [] && b != [] && a[0] == b[0] && k < |a|
    ensures LessAt(a, b, k + 1) <==> LessAt(a[1..], b[1..], k)
  {
    if k + 1 <= |b| {
      assert a[..k + 1] == [a[0]] + a[1..][..k] && b[..k + 1] == [b[0]] + b[1..][..k];
    }
  }

  lemma {:induction false} LexTotal(a: seq<int>, b: seq<int>)
    ensures LexLeq(a, b) || LexLeq(b, a)
    ensures LexLeq(a, b) && LexLeq(b, a) ==> a == b
  {
    if a != [] && b != [] && a[0] == b[0] {
      LexTotal(a[1..], b[1..]);
      assert a == [a[0]] + a[1..] && b == [b[0]] + b[1..];
    }
  }

  lemma {:induction false} LexTransitive(a: seq<int>, b: seq<int>, c: seq<int>)
    requires LexLeq(a, b) && LexLeq(b, c)
    ensures LexLeq(a, c)
  {
    if a != [] && a[0] == b[0] == c[0] {
      LexTransitive(a[1..], b[1..], c[1..]);
    }
  }

  // ---------------------------------------------------------------------------------------------
  // Sorting by a key

  function Insert<T>(x: T, sorted: seq<T>, key: T -> seq<int>): (r: seq<T>)
    ensures multiset(r) == multiset(sorted) + multiset{x}
  {
    if sorted == [] || LexLeq(key(x), key(sorted[0])) then [x] + sorted
    else
      assert sorted == [sorted[0]] + sorted[1..];
      [sorted[0]] + Insert(x, sorted[1..], key)
  }

  /** `sort_by_key`: equal keys keep their order. */
  function SortBy<T>(s: seq<T>, key: T -> seq<int>): (r: seq<T>)
    ensures multiset(r) == multiset(s)
  {
    if s == [] then []
    else
      assert s == [s[0]] + s[1..];
      Insert(s[0], SortBy(s[1..], key), key)
  }

  lemma {:induction false} SortMembers<T>(s: seq<T>, key: T -> seq<int>)
    ensures |SortBy(s, key)| == |s|
    ensures forall x :: x in SortBy(s, key) <==> x in s
  {
    var r := SortBy(s, key);
    assert |multiset(r)| == |multiset(s)|;
    assert forall x :: x in r <==> x in multiset(r);
    assert forall x :: x in s <==> x in multiset(s);
  }

  ghost predicate Ascending<T>(s: seq<T>, key: T -> seq<int>) {
    forall i, j :: 0 <= i < j < |s| ==> LexLeq(key(s[i]), key(s[j]))
  }

  lemma {:induction false} InsertAscends<T>(x: T, sorted: seq<T>, key: T -> seq<int>)
    requires Ascending(sorted, key)
    ensures Ascending(Insert(x, sorted, key), key)
  {
    var r := Insert(x, sorted, key);
    if sorted == [] {
    } else if LexLeq(key(x), key(sorted[0])) {
      forall j | 0 <= j < |sorted|
        ensures LexLeq(key(x), key(sorted[j]))
      {
        if j > 0 {
          LexTransitive(key(x), key(sorted[0]), key(sorted[j]));
        }
      }
    } else {
      LexTotal(key(x), key(sorted[0]));
      var rest := Insert(x, sorted[1..], key);
      InsertAscends(x, sorted[1..], key);
      forall j | 0 <= j < |rest|
        ensures LexLeq(key(sorted[0]), key(rest[j]))
      {
        assert rest[j] in multiset(rest);
        assert rest[j] == x || rest[j] in sorted[1..];
      }
    }
  }

  lemma {:induction false} SortAscends<T>(s: seq<T>, key: T -> seq<int>)
    ensures Ascending(SortBy(s, key), key)
  {
    if s != [] {
      SortAscends(s[1..], key);
      InsertAscends(s[0], SortBy(s[1..], key), key);
    }
  }

  /** Members with the same key are the same member. */
  ghost predicate KeyDetermines<T(!new)>(s: seq<T>, key: T -> seq<int>) {
    forall x, y :: x in s && y in s && key(x) == key(y) ==> x == y
  }

  lemma {:induction false} SameMembers<T>(a: seq<T>, b: seq<T>)
    requires multiset(a) == multiset(b)
    ensures |a| == |b| && forall x :: x in a <==> x in b
  {
    assert |multiset(a)| == |multiset(b)|;
    assert forall x :: x in a <==> x in multiset(a);
    assert forall x :: x in b <==> x in multiset(b);
  }

  /** The least key is at the front, whichever sequence one looks at. */
  lemma {:induction false} SameFront<T(!new)>(a: seq<T>, b: seq<T>, key: T -> seq<int>)
    requires a != [] && b != [] && a[0] in b && b[0] in a
    requires Ascending(a, key) && Ascending(b, key) && KeyDetermines(a, key)
    ensures a[0] == b[0]
  {
    var i :| 0 <= i < |b| && b[i] == a[0];
    var j :| 0 <= j < |a| && a[j] == b[0];
    LexTotal(key(a[0]), key(b[0]));
    assert a[0] in a;
  }

  lemma {:induction false} AscendingTail<T>(s: seq<T>, key: T -> seq<int>)
    requires s != [] && Ascending(s, key)
    ensures Ascending(s[1..], key) && multiset(s) == multiset{s[0]} + multiset(s[1..])
  {
    assert s == [s[0]] + s[1..];
    assert forall i :: 0 <= i < |s[1..]| ==> s[1..][i] == s[i + 1];
  }

  /** Ascending, with keys that tell members apart, a sequence is determined by its members. */
  lemma {:induction false} AscendingUnique<T(!new)>(a: seq<T>, b: seq<T>, key: T -> seq<int>)
    requires Ascending(a, key) && Ascending(b, key) && multiset(a) == multiset(b) && KeyDetermines(a, key)
    ensures a == b
  {
    SameMembers(a, b);
    if a != [] {
      SameFront(a, b, key);
      AscendingTail(a, key);
      AscendingTail(b, key);
      DeterminedTail(a, key);
      hide Ascending, KeyDetermines;
      assert a == [a[0]] + a[1..] && b == [b[0]] + b[1..];
      assert multiset(a[1..]) == multiset(a) - multiset{a[0]} == multiset(b[1..]);
      AscendingUnique(a[1..], b[1..], key);
    }
  }

  lemma {:induction false} DeterminedTail<T(!new)>(a: seq<T>, key: T -> seq<int>)
    requires a != [] && KeyDetermines(a, key)
    ensures KeyDetermines(a[1..], key)
  {
    assert forall x :: x in a[1..] ==> x in a;
  }

  /** Sorting forgets the order the members came in. */
  lemma {:induction false} SortForgetsOrder<T(!new)>(a: seq<T>, b: seq<T>, key: T -> seq<int>)
    requires multiset(a) == multiset(b) && KeyDetermines(a, key)
    ensures SortBy(a, key) == SortBy(b, key)
  {
    SortAscends(a, key);
    SortAscends(b, key);
    SortMembers(a, key);
    assert KeyDetermines(SortBy(a, key), key);
    AscendingUnique(SortBy(a, key), SortBy(b, key), key);
  }

  lemma {:induction false} FrontStays<T>(x: T, sorted: seq<T>, key: T -> seq<int>)
    requires sorted != [] ==> LexLeq(key(x), key(sorted[0]))
    ensures Insert(x, sorted, key) == [x] + sorted
  {
  }

  /** Sorting an ascending sequence changes nothing. */
  lemma {:induction false} SortOfAscending<T>(s: seq<T>, key: T -> seq<int>)
    requires Ascending(s, key)
    ensures SortBy(s, key) == s
  {
    if s != [] {
      assert forall i, j :: 0 <= i < j < |s[1..]| ==> s[1..][i] == s[i + 1] && s[1..][j] == s[j + 1];
      SortOfAscending(s[1..], key);
      FrontStays(s[0], s[1..], key);
      assert s == [s[0]] + s[1..];
    }
  }

  // ---------------------------------------------------------------------------------------------
  // Distinct keys

  predicate Distinct<T>(s: seq<T>, key: T -> seq<int>) {
    forall i, j :: 0 <= i < j < |s| ==> key(s[i]) != key(s[j])
  }

  lemma {:induction false} DistinctDetermines<T(!new)>(s: seq<T>, key: T -> seq<int>)
    requires Distinct(s, key)
    ensures KeyDetermines(s, key)
  {
    forall x, y | x in s && y in s && key(x) == key(y)
      ensures x == y
    {
      var i :| 0 <= i < |s| && s[i] == x;
      var j :| 0 <= j < |s| && s[j] == y;
      assert i == j || i < j || j < i;
    }
  }

  lemma {:induction false} InsertDistinct<T(!new)>(x: T, sorted: seq<T>, key: T -> seq<int>)
    requires Distinct(sorted, key) && forall y :: y in sorted ==> key(y) != key(x)
    ensures Distinct(Insert(x, sorted, key), key)
  {
    if sorted != [] && !LexLeq(key(x), key(sorted[0])) {
      var rest := Insert(x, sorted[1..], key);
      assert forall i :: 0 <= i < |sorted[1..]| ==> sorted[1..][i] == sorted[i + 1];
      InsertDistinct(x, sorted[1..], key);
      forall j | 0 <= j < |rest|
        ensures key(sorted[0]) != key(rest[j])
      {
        assert rest[j] in multiset(rest);
        assert rest[j] == x || rest[j] in sorted[1..];
      }
    }
  }

  lemma {:induction false} SortDistinct<T(!new)>(s: seq<T>, key: T -> seq<int>)
    requires Distinct(s, key)
    ensures Distinct(SortBy(s, key), key)
  {
    if s != [] {
      var rest := s[1..];
      assert forall i :: 0 <= i < |rest| ==> rest[i] == s[i + 1];
      SortDistinct(rest, key);
      SortMembers(rest, key);
      forall y | y in SortBy(rest, key)
        ensures key(y) != key(s[0])
      {
        var i :| 0 <= i < |rest| && rest[i] == y;
        assert s[i + 1] == y;
      }
      InsertDistinct(s[0], SortBy(rest, key), key);
    }
  }

  /** Replacing members by members with the same keys keeps order and distinctness. */
  lemma {:induction false} SameKeys<T(!new)>(s: seq<T>, n: seq<T>, key: T -> seq<int>)
    requires |s| == |n| && forall i :: 0 <= i < |s| ==> key(n[i]) == key(s[i])
    ensures Ascending(s, key) ==> Ascending(n, key)
    ensures Distinct(s, key) ==> Distinct(n, key)
  {
  }
}
