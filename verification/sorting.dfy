/** Python's `sorted(xs, key=..., reverse=True)`: a stable sort into
    descending key order. Elements whose keys are equal keep their original
    relative order (reversing does not reverse ties). */
module Sorting {
  import Text

  /** `lt` is a strict total order on keys. */
  ghost predicate StrictTotalOrder<K(!new)>(lt: (K, K) -> bool) {
    && (forall a :: !lt(a, a))
    && (forall a, b, c :: lt(a, b) && lt(b, c) ==> lt(a, c))
    && (forall a, b :: a != b ==> lt(a, b) || lt(b, a))
  }

  /** No element has a smaller key than a later one. */
  ghost predicate SortedDesc<T, K>(s: seq<T>, key: T -> K, lt: (K, K) -> bool) {
    forall i, j :: 0 <= i < j < |s| ==> !lt(key(s[i]), key(s[j]))
  }

  /** The elements whose key is `k`, in their order. */
  function WithKey<T, K(==)>(s: seq<T>, key: T -> K, k: K): (r: seq<T>)
    ensures forall i :: 0 <= i < |r| ==> key(r[i]) == k
  {
    if |s| == 0 then []
    else (if key(s[0]) == k then [s[0]] else []) + WithKey(s[1..], key, k)
  }

  /** Place `x` after every element whose key is not smaller than its own. */
  function Insert<T, K(!new)>(x: T, s: seq<T>, key: T -> K, lt: (K, K) -> bool): (r: seq<T>)
    requires StrictTotalOrder(lt) && SortedDesc(s, key, lt)
    ensures |r| == |s| + 1
    ensures multiset(r) == multiset(s) + multiset{x}
    ensures SortedDesc(r, key, lt)
  {
    if |s| == 0 then [x]
    else if lt(key(s[0]), key(x)) then
      AllBelow(x, s, key, lt);
      [x] + s
    else
      SortedTail(s, key, lt);
      var rest := Insert(x, s[1..], key, lt);
      assert s == [s[0]] + s[1..];
      HeadAbove(x, s, rest, key, lt);
      ConsSorted(s[0], rest, key, lt);
      [s[0]] + rest
  }

  lemma ConsSorted<T, K>(h: T, rest: seq<T>, key: T -> K, lt: (K, K) -> bool)
    requires SortedDesc(rest, key, lt)
    requires forall j :: 0 <= j < |rest| ==> !lt(key(h), key(rest[j]))
    ensures SortedDesc([h] + rest, key, lt)
  {
    var r := [h] + rest;
    forall i, j | 0 <= i < j < |r| ensures !lt(key(r[i]), key(r[j])) {
      assert r[j] == rest[j - 1];
      if i > 0 {
        assert r[i] == rest[i - 1];
      }
    }
  }

  /** The head of `s` has a key no smaller than anything in the rest of `s`
      with `x` added, when it is not below `x`'s. */
  lemma HeadAbove<T, K(!new)>(x: T, s: seq<T>, rest: seq<T>, key: T -> K, lt: (K, K) -> bool)
    requires StrictTotalOrder(lt) && SortedDesc(s, key, lt)
    requires |s| > 0 && !lt(key(s[0]), key(x))
    requires multiset(rest) == multiset(s[1..]) + multiset{x}
    ensures forall j :: 0 <= j < |rest| ==> !lt(key(s[0]), key(rest[j]))
  {
    forall j | 0 <= j < |rest| ensures !lt(key(s[0]), key(rest[j])) {
      assert rest[j] in multiset(rest);
      if rest[j] != x {
        assert rest[j] in multiset(s[1..]);
        var k :| 0 <= k < |s[1..]| && s[1..][k] == rest[j];
        assert s[k + 1] == rest[j];
      }
    }
  }

  /** When the largest key is below `x`'s, every key is. */
  lemma AllBelow<T, K(!new)>(x: T, s: seq<T>, key: T -> K, lt: (K, K) -> bool)
    requires StrictTotalOrder(lt) && SortedDesc(s, key, lt)
    requires |s| > 0 && lt(key(s[0]), key(x))
    ensures forall j :: 0 <= j < |s| ==> lt(key(s[j]), key(x))
  {
    forall j | 0 < j < |s| ensures lt(key(s[j]), key(x)) {
      if key(s[j]) != key(s[0]) {
        assert !lt(key(s[0]), key(s[j]));
      }
    }
  }

  lemma SortedTail<T, K>(s: seq<T>, key: T -> K, lt: (K, K) -> bool)
    requires |s| > 0 && SortedDesc(s, key, lt)
    ensures SortedDesc(s[1..], key, lt)
  {
    forall i, j | 0 <= i < j < |s| - 1 ensures !lt(key(s[1..][i]), key(s[1..][j])) {
      assert s[1..][i] == s[i + 1] && s[1..][j] == s[j + 1];
    }
  }

  /** `sorted(s, key=key, reverse=True)`. */
  function SortDesc<T, K(!new)>(s: seq<T>, key: T -> K, lt: (K, K) -> bool): (r: seq<T>)
    requires StrictTotalOrder(lt)
    ensures multiset(r) == multiset(s)
    ensures |r| == |s|
    ensures SortedDesc(r, key, lt)
  {
    if |s| == 0 then []
    else
      assert s == s[..|s| - 1] + [s[|s| - 1]];
      Insert(s[|s| - 1], SortDesc(s[..|s| - 1], key, lt), key, lt)
  }

  lemma {:induction false} WithKeyAppend<T, K>(s: seq<T>, t: seq<T>, key: T -> K, k: K)
    ensures WithKey(s + t, key, k) == WithKey(s, key, k) + WithKey(t, key, k)
  {
    if |s| == 0 {
      assert s + t == t;
    } else {
      assert (s + t)[1..] == s[1..] + t;
      WithKeyAppend(s[1..], t, key, k);
    }
  }

  lemma {:induction false} WithKeyAbsent<T, K>(s: seq<T>, key: T -> K, k: K)
    requires forall i :: 0 <= i < |s| ==> key(s[i]) != k
    ensures WithKey(s, key, k) == []
  {
    if |s| > 0 {
      WithKeyAbsent(s[1..], key, k);
    }
  }

  /** An `x` with a key above all of `s` shares it with none of them. */
  lemma FrontStable<T, K(!new)>(x: T, s: seq<T>, key: T -> K, lt: (K, K) -> bool, k: K)
    requires StrictTotalOrder(lt) && SortedDesc(s, key, lt)
    requires |s| > 0 && lt(key(s[0]), key(x))
    ensures WithKey([x] + s, key, k) == WithKey(s, key, k) + WithKey([x], key, k)
  {
    WithKeyAppend([x], s, key, k);
    if key(x) == k {
      AllBelow(x, s, key, lt);
      WithKeyAbsent(s, key, k);
    } else {
      assert WithKey([x], key, k) == [];
    }
  }

  /** Inserting `x` puts it after every earlier element with the same key. */
  lemma {:induction false} InsertStable<T, K(!new)>(x: T, s: seq<T>, key: T -> K, lt: (K, K) -> bool, k: K)
    requires StrictTotalOrder(lt) && SortedDesc(s, key, lt)
    ensures WithKey(Insert(x, s, key, lt), key, k) == WithKey(s, key, k) + WithKey([x], key, k)
  {
    if |s| == 0 {
      assert Insert(x, s, key, lt) == [x];
    } else if lt(key(s[0]), key(x)) {
      assert Insert(x, s, key, lt) == [x] + s;
      FrontStable(x, s, key, lt, k);
    } else {
      SortedTail(s, key, lt);
      var rest := Insert(x, s[1..], key, lt);
      assert Insert(x, s, key, lt) == [s[0]] + rest;
      InsertStable(x, s[1..], key, lt, k);
      StableStep(s, rest, key, k, WithKey([x], key, k));
    }
  }

  /** Putting the same head before both sides keeps a stability equation. */
  lemma {:induction false} StableStep<T, K>(s: seq<T>, rest: seq<T>, key: T -> K, k: K, c: seq<T>)
    requires |s| > 0 && WithKey(rest, key, k) == WithKey(s[1..], key, k) + c
    ensures WithKey([s[0]] + rest, key, k) == WithKey(s, key, k) + c
  {
    var h, t := [s[0]], s[1..];
    var a, b := WithKey(h, key, k), WithKey(t, key, k);
    WithKeyAppend(h, rest, key, k);
    WithKeyAppend(h, t, key, k);
    assert h + t == s;
    calc {
      WithKey(h + rest, key, k);
      a + (b + c);
      (a + b) + c;
    }
  }

  /** Sorting is stable: the elements sharing any one key come out in the
      order they went in. */
  lemma {:induction false} SortDescStable<T, K(!new)>(s: seq<T>, key: T -> K, lt: (K, K) -> bool, k: K)
    requires StrictTotalOrder(lt)
    ensures WithKey(SortDesc(s, key, lt), key, k) == WithKey(s, key, k)
  {
    if |s| > 0 {
      var init, x := s[..|s| - 1], s[|s| - 1];
      var sorted := SortDesc(init, key, lt);
      var inserted := Insert(x, sorted, key, lt);
      assert SortDesc(s, key, lt) == inserted;
      assert WithKey(sorted, key, k) == WithKey(init, key, k) by {
        SortDescStable(init, key, lt, k);
      }
      assert WithKey(inserted, key, k) == WithKey(sorted, key, k) + WithKey([x], key, k) by {
        InsertStable(x, sorted, key, lt, k);
      }
      assert s == init + [x];
      StableJoin(init, x, sorted, inserted, key, k);
    }
  }

  /** The last step of the stability proof, on the sequences alone. */
  lemma StableJoin<T, K>(init: seq<T>, x: T, sorted: seq<T>, inserted: seq<T>, key: T -> K, k: K)
    requires WithKey(sorted, key, k) == WithKey(init, key, k)
    requires WithKey(inserted, key, k) == WithKey(sorted, key, k) + WithKey([x], key, k)
    ensures WithKey(inserted, key, k) == WithKey(init + [x], key, k)
  {
    WithKeyAppend(init, [x], key, k);
  }

  /** Ascending integers (Python `datetime` comparison on timestamps). */
  function IntLess(): (lt: (int, int) -> bool)
    ensures StrictTotalOrder(lt)
  {
    (a: int, b: int) => a < b
  }

  /** Python string comparison (code-point order). */
  function StringLess(): (lt: (string, string) -> bool)
    ensures StrictTotalOrder(lt)
  {
    var lt := (a: string, b: string) => Text.Less(a, b);
    assert StrictTotalOrder(lt) by {
      forall a ensures !lt(a, a) {
        Text.LessIrreflexive(a);
      }
      forall a, b, c | lt(a, b) && lt(b, c) ensures lt(a, c) {
        Text.LessTransitive(a, b, c);
      }
      forall a, b | a != b ensures lt(a, b) || lt(b, a) {
        Text.LessTotal(a, b);
      }
    }
    lt
  }
}
