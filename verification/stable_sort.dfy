/** `Array.prototype.sort((a, b) => key(b) - key(a))`: a stable sort into descending key order.

    ECMAScript requires `sort` to be stable, and a comparator of the form `key(b) - key(a)`
    is consistent, so the result is fully determined: keys non-increasing, and elements with
    equal keys in their input order. Any algorithm with that outcome models the call; this
    module uses insertion, which makes the two facts easy to prove. */
module StableSort {

  ghost predicate SortedDesc<T>(s: seq<T>, key: T -> real) {
    forall i, j :: 0 <= i < j < |s| ==> key(s[i]) >= key(s[j])
  }

  /** Places `x` in front of the first element whose key is not above its own. */
  function Insert<T>(x: T, s: seq<T>, key: T -> real): (r: seq<T>)
    ensures multiset(r) == multiset(s) + multiset{x}
    ensures |r| == |s| + 1
    ensures SortedDesc(s, key) ==> SortedDesc(r, key)
  {
    if |s| == 0 || key(s[0]) <= key(x) then
      InsertFront(x, s, key);
      [x] + s
    else
      var rest := Insert(x, s[1..], key);
      assert s == [s[0]] + s[1..];
      InsertBehind(x, s, rest, key);
      [s[0]] + rest
  }

  lemma InsertFront<T>(x: T, s: seq<T>, key: T -> real)
    requires |s| == 0 || key(s[0]) <= key(x)
    ensures SortedDesc(s, key) ==> SortedDesc([x] + s, key)
  {
    if SortedDesc(s, key) {
      var r := [x] + s;
      forall i, j | 0 <= i < j < |r| ensures key(r[i]) >= key(r[j]) {
        if i == 0 {
          assert r[j] == s[j - 1];
          if j > 1 {
            assert key(s[0]) >= key(s[j - 1]);
          }
        } else {
          assert r[i] == s[i - 1] && r[j] == s[j - 1];
        }
      }
    }
  }

  /** `s[0]` stays in front when `x` goes further in. */
  lemma InsertBehind<T>(x: T, s: seq<T>, rest: seq<T>, key: T -> real)
    requires |s| > 0 && key(s[0]) > key(x)
    requires multiset(rest) == multiset(s[1..]) + multiset{x}
    requires SortedDesc(s[1..], key) ==> SortedDesc(rest, key)
    ensures SortedDesc(s, key) ==> SortedDesc([s[0]] + rest, key)
  {
    if SortedDesc(s, key) {
      var r := [s[0]] + rest;
      assert SortedDesc(s[1..], key) by {
        forall i, j | 0 <= i < j < |s[1..]| ensures key(s[1..][i]) >= key(s[1..][j]) {
          assert s[1..][i] == s[i + 1] && s[1..][j] == s[j + 1];
        }
      }
      forall i, j | 0 <= i < j < |r| ensures key(r[i]) >= key(r[j]) {
        if i == 0 {
          assert r[j] == rest[j - 1] && r[j] in multiset(rest);
          if r[j] != x {
            assert r[j] in multiset(s[1..]);
            var k :| 0 <= k < |s[1..]| && s[1..][k] == r[j];
            assert s[k + 1] == r[j];
          }
        } else {
          assert r[i] == rest[i - 1] && r[j] == rest[j - 1];
        }
      }
    }
  }

  function SortDesc<T>(s: seq<T>, key: T -> real): (r: seq<T>)
    ensures multiset(r) == multiset(s)
    ensures |r| == |s|
    ensures SortedDesc(r, key)
  {
    if |s| == 0 then []
    else
      assert s == [s[0]] + s[1..];
      Insert(s[0], SortDesc(s[1..], key), key)
  }

  /** The elements of `s` whose key is `v`, in their order in `s`. */
  function WithKey<T>(s: seq<T>, key: T -> real, v: real): (r: seq<T>)
    ensures forall y :: y in r ==> y in s && key(y) == v
  {
    if |s| == 0 then []
    else if key(s[0]) == v then [s[0]] + WithKey(s[1..], key, v)
    else WithKey(s[1..], key, v)
  }

  lemma {:induction false} InsertWithKey<T>(x: T, s: seq<T>, key: T -> real, v: real)
    ensures WithKey(Insert(x, s, key), key, v) ==
            (if key(x) == v then [x] + WithKey(s, key, v) else WithKey(s, key, v))
  {
    if |s| == 0 || key(s[0]) <= key(x) {
      assert Insert(x, s, key) == [x] + s;
      assert ([x] + s)[1..] == s;
    } else {
      var rest := Insert(x, s[1..], key);
      assert ([s[0]] + rest)[1..] == rest;
      InsertWithKey(x, s[1..], key, v);
    }
  }

  /** `WithKey(s, key, v)` starts with the first element of `s` carrying `v`. */
  lemma {:induction false} WithKeyHead<T>(s: seq<T>, key: T -> real, v: real) returns (k: nat)
    requires |WithKey(s, key, v)| > 0
    ensures k < |s| && s[k] == WithKey(s, key, v)[0] && key(s[k]) == v
    ensures forall j :: 0 <= j < k ==> key(s[j]) != v
  {
    assert |s| > 0;
    if key(s[0]) == v {
      k := 0;
    } else {
      var k' := WithKeyHead(s[1..], key, v);
      k := k' + 1;
      forall j | 0 <= j < k ensures key(s[j]) != v {
        if j > 0 {
          assert s[j] == s[1..][j - 1];
        }
      }
    }
  }

  /** Stability: for every key value, the elements carrying it keep their relative order. */
  lemma {:induction false} SortIsStable<T>(s: seq<T>, key: T -> real, v: real)
    ensures WithKey(SortDesc(s, key), key, v) == WithKey(s, key, v)
  {
    if |s| > 0 {
      SortIsStable(s[1..], key, v);
      InsertWithKey(s[0], SortDesc(s[1..], key), key, v);
    }
  }

  /** `before` holds of every pair of elements of `s` taken in their order in `s`. */
  ghost predicate Chain<T>(s: seq<T>, before: (T, T) -> bool) {
    forall i, j :: 0 <= i < j < |s| ==> before(s[i], s[j])
  }

  /** Ordered by descending key, and by `before` among equal keys. */
  ghost predicate SortedThen<T>(s: seq<T>, key: T -> real, before: (T, T) -> bool) {
    forall i, j :: 0 <= i < j < |s| ==>
      key(s[i]) > key(s[j]) || (key(s[i]) == key(s[j]) && before(s[i], s[j]))
  }

  lemma {:induction false} InsertSortedThen<T>(x: T, s: seq<T>, key: T -> real, before: (T, T) -> bool)
    requires SortedThen(s, key, before)
    requires forall y :: y in s ==> before(x, y)
    ensures SortedThen(Insert(x, s, key), key, before)
  {
    if |s| == 0 || key(s[0]) <= key(x) {
      var r := [x] + s;
      assert Insert(x, s, key) == r;
      forall i, j | 0 <= i < j < |r|
        ensures key(r[i]) > key(r[j]) || (key(r[i]) == key(r[j]) && before(r[i], r[j]))
      {
        if i == 0 {
          assert r[j] == s[j - 1] && r[j] in s;
          if j > 1 {
            assert key(s[0]) >= key(s[j - 1]);
          }
        } else {
          assert r[i] == s[i - 1] && r[j] == s[j - 1];
        }
      }
    } else {
      var rest := Insert(x, s[1..], key);
      assert s == [s[0]] + s[1..];
      InsertSortedThen(x, s[1..], key, before);
      var r := [s[0]] + rest;
      forall i, j | 0 <= i < j < |r|
        ensures key(r[i]) > key(r[j]) || (key(r[i]) == key(r[j]) && before(r[i], r[j]))
      {
        if i == 0 {
          assert r[j] == rest[j - 1] && r[j] in multiset(rest);
          if r[j] != x {
            var k :| 0 <= k < |s[1..]| && s[1..][k] == r[j];
            assert s[k + 1] == r[j];
          }
        } else {
          assert r[i] == rest[i - 1] && r[j] == rest[j - 1];
        }
      }
    }
  }

  /** A stable sort of a sequence already ordered by `before` orders equal keys by `before`. */
  lemma {:induction false} SortBreaksTiesByInputOrder<T>(s: seq<T>, key: T -> real, before: (T, T) -> bool)
    requires Chain(s, before)
    ensures SortedThen(SortDesc(s, key), key, before)
  {
    if |s| > 0 {
      var t := SortDesc(s[1..], key);
      assert Chain(s[1..], before) by {
        forall i, j | 0 <= i < j < |s[1..]| ensures before(s[1..][i], s[1..][j]) {
          assert s[1..][i] == s[i + 1] && s[1..][j] == s[j + 1];
        }
      }
      SortBreaksTiesByInputOrder(s[1..], key, before);
      forall y | y in t ensures before(s[0], y) {
        assert y in multiset(s[1..]);
        var k :| 0 <= k < |s[1..]| && s[1..][k] == y;
        assert s[k + 1] == y;
      }
      InsertSortedThen(s[0], t, key, before);
    }
  }
}
