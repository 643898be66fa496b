/** `Array.prototype.sort` with a comparator `(b, a) => key(b) - key(a)`. The sort is stable,
    and a negative comparator value puts its first argument first, so rows come out in
    ascending order of the key, equal keys in their original order. */
module Sorting {

  /** The comparator the tables pass to `sort`. */
  function Compare(first: int, second: int): int {
    first - second
  }

  /** The comparator places `x` before `y` exactly when `x`'s key is the smaller: ascending. */
  lemma CompareAscending(x: int, y: int)
    ensures Compare(x, y) < 0 <==> x < y
    ensures Compare(x, y) > 0 <==> y < x
  {
  }

  predicate SortedBy<T>(s: seq<T>, key: T -> int) {
    forall i, j :: 0 <= i < j < |s| ==> key(s[i]) <= key(s[j])
  }

  /** `x` placed before the first element whose key is not smaller. */
  function Insert<T>(x: T, s: seq<T>, key: T -> int): (r: seq<T>)
    ensures |r| == |s| + 1
  {
    if s == [] || key(x) <= key(s[0]) then [x] + s else [s[0]] + Insert(x, s[1..], key)
  }

  /** Insertion sort, which is stable. */
  function SortBy<T>(s: seq<T>, key: T -> int): (r: seq<T>)
    ensures |r| == |s|
  {
    if s == [] then [] else Insert(s[0], SortBy(s[1..], key), key)
  }

  lemma {:induction false} InsertSorted<T>(x: T, s: seq<T>, key: T -> int)
    requires SortedBy(s, key)
    ensures SortedBy(Insert(x, s, key), key)
    ensures Insert(x, s, key)[0] == x || (s != [] && Insert(x, s, key)[0] == s[0])
  {
    if s != [] && key(x) > key(s[0]) {
      InsertSorted(x, s[1..], key);
      var r := Insert(x, s, key);
      assert r == [s[0]] + Insert(x, s[1..], key);
      forall i, j | 0 <= i < j < |r| ensures key(r[i]) <= key(r[j]) {
        if i == 0 {
          assert r[j] == x || r[j] in s[1..] by {
            InsertElements(x, s[1..], key);
            assert r[j] == Insert(x, s[1..], key)[j - 1];
          }
        }
      }
    }
  }

  lemma {:induction false} InsertElements<T>(x: T, s: seq<T>, key: T -> int)
    ensures forall k :: 0 <= k < |Insert(x, s, key)| ==> Insert(x, s, key)[k] == x || Insert(x, s, key)[k] in s
  {
    if s != [] && key(x) > key(s[0]) {
      InsertElements(x, s[1..], key);
    }
  }

  lemma {:induction false} InsertPermutes<T>(x: T, s: seq<T>, key: T -> int)
    ensures multiset(Insert(x, s, key)) == multiset(s) + multiset{x}
  {
    if s != [] && key(x) > key(s[0]) {
      InsertPermutes(x, s[1..], key);
      assert s == [s[0]] + s[1..];
    }
  }

  /** The rows come out in ascending order of the key. */
  lemma {:induction false} SortBySorted<T>(s: seq<T>, key: T -> int)
    ensures SortedBy(SortBy(s, key), key)
  {
    if s != [] {
      SortBySorted(s[1..], key);
      InsertSorted(s[0], SortBy(s[1..], key), key);
    }
  }

  /** The rows come out as the same rows, none lost and none repeated. */
  lemma {:induction false} SortByPermutes<T>(s: seq<T>, key: T -> int)
    ensures multiset(SortBy(s, key)) == multiset(s)
  {
    if s != [] {
      SortByPermutes(s[1..], key);
      InsertPermutes(s[0], SortBy(s[1..], key), key);
      assert s == [s[0]] + s[1..];
    }
  }

  /** Rows already in order are left as they are, which is what stability asks of a sort. */
  lemma {:induction false} SortBySortedInput<T>(s: seq<T>, key: T -> int)
    requires SortedBy(s, key)
    ensures SortBy(s, key) == s
  {
    if s != [] {
      assert SortedBy(s[1..], key);
      SortBySortedInput(s[1..], key);
      assert s == [s[0]] + s[1..];
    }
  }

  /** Rows with indices 5, 2 and 9 are shown as 2, 5, 9: ascending, not descending. */
  lemma AscendingExample()
    ensures SortBy([5, 2, 9], (x: int) => x) == [2, 5, 9]
  {
    var key := (x: int) => x;
    assert SortBy([9], key) == [9];
    assert [2, 9][1..] == [9];
    assert SortBy([2, 9], key) == Insert(2, [9], key) == [2, 9];
    assert [5, 2, 9][1..] == [2, 9];
    assert Insert(5, [2, 9], key) == [2] + Insert(5, [9], key) == [2, 5, 9];
  }
}
