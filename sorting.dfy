/**
 * Python's stable `list.sort(key=...)` and `sorted(...)` of the set of keys
 * of a dictionary. Sort keys are pairs compared lexicographically, which
 * covers both sort keys the core uses: a message's timestamp and a pooled
 * sample's `(time, channel)`.
 */
module Sorting {

  /** A sort key: compared on `major` first, then on `minor`. */
  datatype Key = Key(major: real, minor: int)

  predicate KeyLe(a: Key, b: Key) {
    a.major < b.major || (a.major == b.major && a.minor <= b.minor)
  }

  predicate SortedBy<T>(s: seq<T>, key: T -> Key) {
    forall i, j :: 0 <= i < j < |s| ==> KeyLe(key(s[i]), key(s[j]))
  }

  /**
   * Inserts `x` into `s` just before the first element whose key is not
   * smaller than `x`'s, so that `x` precedes the elements of equal key.
   */
  function Insert<T>(x: T, s: seq<T>, key: T -> Key): (r: seq<T>)
    ensures multiset(r) == multiset(s) + multiset{x} && |r| == |s| + 1
  {
    if |s| == 0 then [x]
    else if KeyLe(key(x), key(s[0])) then [x] + s
    else
      assert s == [s[0]] + s[1..];
      [s[0]] + Insert(x, s[1..], key)
  }

  /** Inserting into a sorted sequence keeps it sorted. */
  lemma {:induction false} InsertSorted<T>(x: T, s: seq<T>, key: T -> Key)
    requires SortedBy(s, key)
    ensures SortedBy(Insert(x, s, key), key)
  {
    if |s| > 0 && !KeyLe(key(x), key(s[0])) {
      var t := Insert(x, s[1..], key);
      InsertSorted(x, s[1..], key);
      forall j | 0 <= j < |t| ensures KeyLe(key(s[0]), key(t[j])) {
        assert t[j] in multiset(t);
        if t[j] != x {
          assert t[j] in multiset(s[1..]);
          var i :| 0 <= i < |s[1..]| && s[1..][i] == t[j];
          assert s[1..][i] == s[i + 1];
        }
      }
      var r := [s[0]] + t;
      forall i, j | 0 <= i < j < |r| ensures KeyLe(key(r[i]), key(r[j])) {
        if i > 0 {
          assert r[i] == t[i - 1] && r[j] == t[j - 1];
        } else {
          assert r[j] == t[j - 1];
        }
      }
    }
  }

  /** A stable sort of `s` by `key`. */
  function SortBy<T>(s: seq<T>, key: T -> Key): (r: seq<T>)
    ensures SortedBy(r, key)
    ensures multiset(r) == multiset(s) && |r| == |s|
  {
    if |s| == 0 then []
    else
      assert s == [s[0]] + s[1..];
      var t := SortBy(s[1..], key);
      InsertSorted(s[0], t, key);
      Insert(s[0], t, key)
  }

  /** The elements of `s` whose key is `k`, in their order in `s`. */
  function WithKey<T>(s: seq<T>, key: T -> Key, k: Key): seq<T> {
    if |s| == 0 then []
    else (if key(s[0]) == k then [s[0]] else []) + WithKey(s[1..], key, k)
  }

  lemma WithKeyCons<T>(y: T, t: seq<T>, key: T -> Key, k: Key)
    ensures WithKey([y] + t, key, k) == (if key(y) == k then [y] else []) + WithKey(t, key, k)
  {
    assert ([y] + t)[1..] == t;
  }

  lemma {:induction false} InsertWithKey<T>(x: T, s: seq<T>, key: T -> Key, k: Key)
    ensures WithKey(Insert(x, s, key), key, k)
         == (if key(x) == k then [x] else []) + WithKey(s, key, k)
  {
    if |s| == 0 {
      WithKeyCons(x, s, key, k);
    } else if KeyLe(key(x), key(s[0])) {
      WithKeyCons(x, s, key, k);
    } else {
      var t := Insert(x, s[1..], key);
      var head := if key(s[0]) == k then [s[0]] else [];
      var mine := if key(x) == k then [x] else [];
      var tail := WithKey(s[1..], key, k);
      InsertWithKey(x, s[1..], key, k);
      assert WithKey(Insert(x, s, key), key, k) == head + WithKey(t, key, k) by {
        assert Insert(x, s, key) == [s[0]] + t;
        WithKeyCons(s[0], t, key, k);
      }
      assert WithKey(s, key, k) == head + tail;
      assert head == [] || mine == [] by {
        assert key(x) != key(s[0]);
      }
      SwapEmpty(head, mine, tail);
    }
  }

  /** Of two sequences at least one of which is empty, either may go first. */
  lemma SwapEmpty<T>(a: seq<T>, b: seq<T>, c: seq<T>)
    requires a == [] || b == []
    ensures a + (b + c) == b + (a + c)
  {
    if a == [] {
      assert a + (b + c) == b + c == b + (a + c);
    } else {
      assert a + (b + c) == a + c == b + (a + c);
    }
  }

  /**
   * The sort is stable: the elements that share a key keep their relative
   * order.
   */
  lemma {:induction false} SortByStable<T>(s: seq<T>, key: T -> Key, k: Key)
    ensures WithKey(SortBy(s, key), key, k) == WithKey(s, key, k)
  {
    if |s| > 0 {
      SortByStable(s[1..], key, k);
      InsertWithKey(s[0], SortBy(s[1..], key), key, k);
    }
  }

  /** Sorting a sequence that is already sorted leaves it as it is. */
  lemma {:induction false} SortBySorted<T>(s: seq<T>, key: T -> Key)
    requires SortedBy(s, key)
    ensures SortBy(s, key) == s
  {
    if |s| > 0 {
      SortBySorted(s[1..], key);
      assert |s| == 1 || KeyLe(key(s[0]), key(s[1]));
      assert |s| > 1 ==> s == [s[0]] + s[1..];
    }
  }

  predicate StrictlyIncreasing(s: seq<int>) {
    forall i, j :: 0 <= i < j < |s| ==> s[i] < s[j]
  }

  predicate StrictlyIncreasingReals(s: seq<real>) {
    forall i, j :: 0 <= i < j < |s| ==> s[i] < s[j]
  }

  /** A finite non-empty set of integers has a least element. */
  lemma {:induction false} MinExists(s: set<int>)
    requires s != {}
    ensures exists m :: m in s && forall x :: x in s ==> m <= x
    decreases |s|
  {
    if forall x :: x !in s {
      assert false;
    }
    var y :| y in s;
    var rest := s - {y};
    if rest == {} {
      forall x | x in s ensures x == y {
        assert x !in rest;
      }
      assert y in s && forall x :: x in s ==> y <= x;
    } else {
      MinExists(rest);
      var mm :| mm in rest && forall x :: x in rest ==> mm <= x;
      var m := if y < mm then y else mm;
      assert forall x :: x in s ==> x == y || x in rest;
      assert m in s && forall x :: x in s ==> m <= x;
    }
  }

  /** A finite non-empty set of reals has a least element. */
  lemma {:induction false} MinRealExists(s: set<real>)
    requires s != {}
    ensures exists m :: m in s && forall x :: x in s ==> m <= x
    decreases |s|
  {
    if forall x :: x !in s {
      assert false;
    }
    var y :| y in s;
    var rest := s - {y};
    if rest == {} {
      forall x | x in s ensures x == y {
        assert x !in rest;
      }
      assert y in s && forall x :: x in s ==> y <= x;
    } else {
      MinRealExists(rest);
      var mm :| mm in rest && forall x :: x in rest ==> mm <= x;
      var m := if y < mm then y else mm;
      assert forall x :: x in s ==> x == y || x in rest;
      assert m in s && forall x :: x in s ==> m <= x;
    }
  }

  /** The least element of a finite non-empty set of integers. */
  function MinInt(s: set<int>): (m: int)
    requires s != {}
    ensures m in s && forall x :: x in s ==> m <= x
  {
    MinExists(s);
    var m :| m in s && forall x :: x in s ==> m <= x;
    m
  }

  /** The least element of a finite non-empty set of reals. */
  function MinReal(s: set<real>): (m: real)
    requires s != {}
    ensures m in s && forall x :: x in s ==> m <= x
  {
    MinRealExists(s);
    var m :| m in s && forall x :: x in s ==> m <= x;
    m
  }

  /** Python's `sorted(keys)` for a finite set of integers. */
  function SortedInts(s: set<int>): (r: seq<int>)
    ensures StrictlyIncreasing(r)
    ensures |r| == |s| && forall x :: x in s <==> x in r
    decreases |s|
  {
    if s == {} then []
    else
      var m := MinInt(s);
      var rest := SortedInts(s - {m});
      assert forall j :: 0 <= j < |rest| ==> m < rest[j] by {
        assert forall j :: 0 <= j < |rest| ==> rest[j] in s - {m};
      }
      [m] + rest
  }

  /** Python's `sorted(keys)` for a finite set of times. */
  function SortedReals(s: set<real>): (r: seq<real>)
    ensures StrictlyIncreasingReals(r)
    ensures |r| == |s| && forall x :: x in s <==> x in r
    decreases |s|
  {
    if s == {} then []
    else
      var m := MinReal(s);
      var rest := SortedReals(s - {m});
      assert forall j :: 0 <= j < |rest| ==> m < rest[j] by {
        assert forall j :: 0 <= j < |rest| ==> rest[j] in s - {m};
      }
      [m] + rest
  }
}
