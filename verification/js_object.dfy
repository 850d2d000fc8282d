/** A plain JavaScript object used as a dictionary (`{} as Record<K, V>`).

    Assigning to a key the object lacks appends that key to its creation order;
    assigning to a key it has replaces the value and keeps the position.
    `Object.entries` lists the keys in the order of the ECMAScript operation
    OrdinaryOwnPropertyKeys: first every key that is an array index
    (an integer 0 <= n < 2^32 - 1), in ascending numeric order, then the other
    keys in creation order. */
module JsObject {
  import opened Wrappers
  import opened Seqs
  import opened StableSort
  import opened Digits

  datatype Dict<K, V> = Dict(keys: seq<K>, values: map<K, V>)

  /** Keys are listed once each, and exactly the keys that hold a value are listed. */
  ghost predicate Valid<K, V>(d: Dict<K, V>) {
    && Distinct(d.keys)
    && (forall k :: k in d.keys ==> k in d.values)
    && (forall k :: k in d.values ==> k in d.keys)
  }

  function Empty<K, V>(): (d: Dict<K, V>)
    ensures Valid(d) && |d.keys| == 0
  {
    Dict([], map[])
  }

  /** `d[k]`: `None` is `undefined`. */
  function Get<K, V>(d: Dict<K, V>, k: K): Option<V> {
    if k in d.values then Some(d.values[k]) else None
  }

  /** `d[k] = v`. */
  function Put<K, V>(d: Dict<K, V>, k: K, v: V): (r: Dict<K, V>)
    requires Valid(d)
    ensures Valid(r)
    ensures r.values == d.values[k := v]
    ensures |d.keys| <= |r.keys| && r.keys[..|d.keys|] == d.keys
    ensures k in d.values ==> r.keys == d.keys
  {
    if k in d.values then Dict(d.keys, d.values[k := v])
    else
      assert (d.keys + [k])[..|d.keys|] == d.keys;
      Dict(d.keys + [k], d.values[k := v])
  }

  /** Assigning to the key `k` met after `init` keeps the keys in order of first appearance. */
  lemma PutKeepsFirstAppearance<K, V>(init: seq<K>, k: K, acc: Dict<K, V>, d: Dict<K, V>)
    requires Valid(acc) && InOrderOf(acc.keys, init)
    requires forall x :: x in acc.values <==> x in init
    requires k in acc.values ==> d.keys == acc.keys
    requires k !in acc.values ==> d.keys == acc.keys + [k]
    ensures InOrderOf(d.keys, init + [k])
  {
    var ids := init + [k];
    forall x | x in acc.keys ensures FirstIndex(ids, x) == FirstIndex(init, x) {
      FirstIndexAppend(init, k, x);
    }
    if k !in acc.values {
      FirstIndexAppend(init, k, k);
      forall i, j | 0 <= i < j < |d.keys| ensures FirstIndex(ids, d.keys[i]) < FirstIndex(ids, d.keys[j]) {
        assert d.keys[i] == acc.keys[i] && acc.keys[i] in acc.keys;
        if j < |acc.keys| {
          assert d.keys[j] == acc.keys[j] && acc.keys[j] in acc.keys;
        }
      }
    } else {
      forall i, j | 0 <= i < j < |d.keys| ensures FirstIndex(ids, d.keys[i]) < FirstIndex(ids, d.keys[j]) {
        assert d.keys[i] in acc.keys && d.keys[j] in acc.keys;
      }
    }
  }

  // ---- Which keys are array indices

  /** 2^32 - 1: array indices are the integers below it. */
  const ArrayIndexLimit: nat := 0xFFFF_FFFF

  predicate IsArrayIndex(n: int) {
    0 <= n < ArrayIndexLimit
  }

  /** The array index a number key stands for, if any. */
  function NumberKeyIndex(k: int): (r: Option<nat>)
    ensures r.Some? <==> IsArrayIndex(k)
    ensures r.Some? ==> r.value == k
  {
    if IsArrayIndex(k) then Some(k) else None
  }

  /** The array index a string key stands for, if any: only the canonical numeral of an index counts. */
  function StringKeyIndex(s: string): (r: Option<nat>)
    ensures r.Some? ==> IsArrayIndex(r.value) && Canonical(s)
  {
    if Canonical(s) && Value(s) < ArrayIndexLimit then Some(Value(s)) else None
  }

  /** Distinct strings never stand for the same array index. */
  lemma StringKeyIndexInjective(a: string, b: string)
    ensures StringKeyIndex(a).Some? && StringKeyIndex(a) == StringKeyIndex(b) ==> a == b
  {
    if StringKeyIndex(a).Some? && StringKeyIndex(a) == StringKeyIndex(b) {
      DecimalOfValue(a);
      DecimalOfValue(b);
    }
  }

  /** The property key a number is stored under: `String(k)` for an integer `k`. */
  function NumberToKey(k: int): string {
    if k < 0 then "-" + Decimal(-k) else Decimal(k)
  }

  /** A number key is an array index exactly when the string it is stored under is one,
      and then both stand for the same index; so the tallies below may keep integer keys. */
  lemma NumberKeyIndexAgrees(k: int)
    ensures StringKeyIndex(NumberToKey(k)) == NumberKeyIndex(k)
  {
    if k >= 0 {
      ValueOfDecimal(k);
    } else {
      assert !IsDigit(NumberToKey(k)[0]);
    }
  }

  /** `Number(key)` reads back the integer a key was stored under: the key is the decimal
      numeral of `k`, after a minus sign when `k` is negative. */
  lemma NumberToKeyReadsBack(k: int)
    ensures k >= 0 ==> AllDigits(NumberToKey(k)) && Value(NumberToKey(k)) == k
    ensures k < 0 ==> NumberToKey(k)[0] == '-' && AllDigits(NumberToKey(k)[1..]) &&
                      Value(NumberToKey(k)[1..]) == -k
  {
    if k >= 0 {
      ValueOfDecimal(k);
    } else {
      ValueOfDecimal(-k);
      assert NumberToKey(k)[1..] == Decimal(-k);
    }
  }

  /** Distinct integers are stored under distinct keys. */
  lemma NumberToKeyInjective(a: int, b: int)
    ensures NumberToKey(a) == NumberToKey(b) ==> a == b
  {
    if a >= 0 {
      ValueOfDecimal(a);
    } else {
      ValueOfDecimal(-a);
      assert NumberToKey(a)[1..] == Decimal(-a);
    }
    if b >= 0 {
      ValueOfDecimal(b);
    } else {
      ValueOfDecimal(-b);
      assert NumberToKey(b)[1..] == Decimal(-b);
    }
  }

  // ---- Enumeration order

  /** The keys that are array indices, in creation order. */
  function IndexKeys<K>(ks: seq<K>, index: K -> Option<nat>): (r: seq<K>)
    ensures forall k :: k in r ==> k in ks && index(k).Some?
  {
    if |ks| == 0 then []
    else if index(ks[0]).Some? then [ks[0]] + IndexKeys(ks[1..], index)
    else IndexKeys(ks[1..], index)
  }

  /** The other keys, in creation order. */
  function PlainKeys<K>(ks: seq<K>, index: K -> Option<nat>): (r: seq<K>)
    ensures forall k :: k in r ==> k in ks && index(k).None?
  {
    if |ks| == 0 then []
    else if index(ks[0]).None? then [ks[0]] + PlainKeys(ks[1..], index)
    else PlainKeys(ks[1..], index)
  }

  lemma {:induction false} SplitPermutes<K>(ks: seq<K>, index: K -> Option<nat>)
    ensures multiset(IndexKeys(ks, index)) + multiset(PlainKeys(ks, index)) == multiset(ks)
  {
    if |ks| > 0 {
      assert ks == [ks[0]] + ks[1..];
      SplitPermutes(ks[1..], index);
    }
  }

  /** The elements of `p` occur in `ks` in the order they have in `p`. */
  ghost predicate InOrderOf<K>(p: seq<K>, ks: seq<K>) {
    forall i, j :: 0 <= i < j < |p| ==> FirstIndex(ks, p[i]) < FirstIndex(ks, p[j])
  }

  /** Non-index keys keep their creation order when the index keys are taken out. */
  lemma {:induction false} PlainKeysKeepOrder<K>(ks: seq<K>, index: K -> Option<nat>)
    requires Distinct(ks)
    ensures InOrderOf(PlainKeys(ks, index), ks)
  {
    if |ks| > 0 {
      var tail := ks[1..];
      PlainKeysKeepOrder(tail, index);
      var p, p' := PlainKeys(ks, index), PlainKeys(tail, index);
      forall k | k in p' ensures FirstIndex(ks, k) == 1 + FirstIndex(tail, k) {
        assert k != ks[0];
      }
      if index(ks[0]).Some? {
        assert p == p';
      } else {
        assert p == [ks[0]] + p';
        forall i, j | 0 <= i < j < |p| ensures FirstIndex(ks, p[i]) < FirstIndex(ks, p[j]) {
          assert p[j] == p'[j - 1] && p'[j - 1] in p';
          if i > 0 {
            assert p[i] == p'[i - 1] && p'[i - 1] in p';
            assert FirstIndex(tail, p'[i - 1]) < FirstIndex(tail, p'[j - 1]);
          }
        }
      }
    }
  }

  /** Sorting by this key, descending, puts index keys in ascending numeric order. */
  function AscendingIndex<K>(index: K -> Option<nat>): K -> real {
    k => if index(k).Some? then -(index(k).value as real) else 0.0
  }

  /** The array-index keys in ascending numeric order. */
  function SortedIndexKeys<K>(ks: seq<K>, index: K -> Option<nat>): (r: seq<K>)
    ensures multiset(r) == multiset(IndexKeys(ks, index))
    ensures forall k :: k in r ==> index(k).Some?
    ensures forall i, j :: 0 <= i < j < |r| ==> index(r[i]).value <= index(r[j]).value
  {
    var r := SortDesc(IndexKeys(ks, index), AscendingIndex(index));
    AscendingIndexOrder(IndexKeys(ks, index), r, index);
    r
  }

  /** Index keys sorted by descending `AscendingIndex` are in ascending index order. */
  lemma AscendingIndexOrder<K>(s: seq<K>, r: seq<K>, index: K -> Option<nat>)
    requires forall k :: k in s ==> index(k).Some?
    requires multiset(r) == multiset(s)
    requires SortedDesc(r, AscendingIndex(index))
    ensures forall k :: k in r ==> index(k).Some?
    ensures forall i, j :: 0 <= i < j < |r| ==> index(r[i]).value <= index(r[j]).value
  {
    forall k | k in r ensures index(k).Some? {
      assert k in multiset(s);
    }
    forall i, j | 0 <= i < j < |r| ensures index(r[i]).value <= index(r[j]).value {
      assert r[i] in multiset(s) && r[j] in multiset(s);
      assert AscendingIndex(index)(r[i]) >= AscendingIndex(index)(r[j]);
    }
  }

  /** The keys of an object, in the order `Object.entries` lists them. */
  function OwnKeys<K>(ks: seq<K>, index: K -> Option<nat>): (r: seq<K>)
    requires Distinct(ks)
    ensures multiset(r) == multiset(ks)
    ensures |r| == |ks|
    ensures Distinct(r)
  {
    var r := SortedIndexKeys(ks, index) + PlainKeys(ks, index);
    SplitPermutes(ks, index);
    DistinctPermutation(ks, r);
    assert |multiset(r)| == |multiset(ks)|;
    r
  }

  /** Array-index keys come first, in ascending numeric order. */
  lemma OwnKeysIndexFirst<K>(ks: seq<K>, index: K -> Option<nat>)
    requires Distinct(ks)
    ensures var r := OwnKeys(ks, index);
      forall i, j :: 0 <= i < j < |r| && index(r[j]).Some? ==>
        index(r[i]).Some? && index(r[i]).value <= index(r[j]).value
  {
    var front, back := SortedIndexKeys(ks, index), PlainKeys(ks, index);
    var r := OwnKeys(ks, index);
    assert r == front + back;
    forall i, j | 0 <= i < j < |r| && index(r[j]).Some?
      ensures index(r[i]).Some? && index(r[i]).value <= index(r[j]).value
    {
      assert j < |front|;
      assert r[i] == front[i] && r[j] == front[j];
    }
  }

  /** The other keys follow, in creation order. */
  lemma OwnKeysPlainInOrder<K>(ks: seq<K>, index: K -> Option<nat>)
    requires Distinct(ks)
    ensures var r := OwnKeys(ks, index);
      forall i, j :: 0 <= i < j < |r| && index(r[i]).None? && index(r[j]).None? ==>
        FirstIndex(ks, r[i]) < FirstIndex(ks, r[j])
  {
    PlainKeysKeepOrder(ks, index);
    PlainTailInOrder(SortedIndexKeys(ks, index), PlainKeys(ks, index), ks, index);
  }

  lemma PlainTailInOrder<K>(front: seq<K>, back: seq<K>, ks: seq<K>, index: K -> Option<nat>)
    requires forall k :: k in front ==> index(k).Some?
    requires InOrderOf(back, ks)
    ensures var r := front + back;
      forall i, j :: 0 <= i < j < |r| && index(r[i]).None? && index(r[j]).None? ==>
        FirstIndex(ks, r[i]) < FirstIndex(ks, r[j])
  {
    var r := front + back;
    assert forall k :: 0 <= k < |front| ==> index(r[k]).Some? by {
      forall k | 0 <= k < |front| ensures index(r[k]).Some? {
        assert r[k] == front[k] && front[k] in front;
      }
    }
    forall i, j | 0 <= i < j < |r| && index(r[i]).None? && index(r[j]).None?
      ensures FirstIndex(ks, r[i]) < FirstIndex(ks, r[j])
    {
      assert r[i] == back[i - |front|] && r[j] == back[j - |front|];
    }
  }

  lemma OwnKeysHeld<K, V>(d: Dict<K, V>, index: K -> Option<nat>)
    requires Valid(d)
    ensures forall k :: k in OwnKeys(d.keys, index) ==> k in d.values
  {
    forall k | k in OwnKeys(d.keys, index) ensures k in d.values {
      assert k in multiset(OwnKeys(d.keys, index));
    }
  }

  /** `Object.entries(d)`. */
  function Entries<K, V>(d: Dict<K, V>, index: K -> Option<nat>): (r: seq<(K, V)>)
    requires Valid(d)
    ensures |r| == |d.keys|
    ensures forall i :: 0 <= i < |r| ==>
              r[i].0 == OwnKeys(d.keys, index)[i] && r[i].0 in d.values && r[i].1 == d.values[r[i].0]
  {
    var ks := OwnKeys(d.keys, index);
    OwnKeysHeld(d, index);
    seq(|ks|, i requires 0 <= i < |ks| => (ks[i], d.values[ks[i]]))
  }
}
