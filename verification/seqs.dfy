/** First-match lookup, filtering and truncation over sequences: the
    in-memory counterparts of `Array.prototype.find`/`some`/`filter` in the
    browser code and of `find_one`/`find(...).to_list(n)` on the server,
    whose collections are modelled as sequences in insertion order. */
module Seqs {
  import opened Wrappers

  /** Position of the first element satisfying `p`, if any. */
  function FirstIndex<T>(s: seq<T>, p: T -> bool): (r: Option<nat>)
    ensures r.Some? ==> r.value < |s| && p(s[r.value])
    ensures r.Some? ==> forall j :: 0 <= j < r.value ==> !p(s[j])
    ensures r.None? <==> forall j :: 0 <= j < |s| ==> !p(s[j])
  {
    if |s| == 0 then None
    else if p(s[0]) then Some(0)
    else
      match FirstIndex(s[1..], p)
      case None => None
      case Some(i) => Some(i + 1)
  }

  /** The first element satisfying `p` (JavaScript `find`, MongoDB `find_one`). */
  function FindFirst<T>(s: seq<T>, p: T -> bool): (r: Option<T>)
    ensures r.Some? <==> exists i :: 0 <= i < |s| && p(s[i])
    ensures r.Some? ==> exists i :: 0 <= i < |s| && s[i] == r.value && p(s[i])
                                    && forall j :: 0 <= j < i ==> !p(s[j])
  {
    match FirstIndex(s, p)
    case None => None
    case Some(i) => Some(s[i])
  }

  /** The elements satisfying `p`, in their original order. */
  function Filter<T(==)>(s: seq<T>, p: T -> bool): (r: seq<T>)
    ensures |r| <= |s|
    ensures forall i :: 0 <= i < |r| ==> r[i] in s && p(r[i])
    ensures forall i :: 0 <= i < |s| && p(s[i]) ==> s[i] in r
    ensures multiset(r) <= multiset(s)
  {
    if |s| == 0 then []
    else
      assert s == [s[0]] + s[1..];
      if p(s[0]) then [s[0]] + Filter(s[1..], p)
      else Filter(s[1..], p)
  }

  /** At most the first `n` elements (`to_list(n)` of a MongoDB cursor). */
  function Take<T>(s: seq<T>, n: nat): (r: seq<T>)
    ensures |r| == if |s| <= n then |s| else n
    ensures forall i :: 0 <= i < |r| ==> r[i] == s[i]
  {
    if |s| <= n then s else s[..n]
  }

  /** The defined images of `f` over `s`, in order (a `for` loop that pushes
      `f(x)` whenever there is one). */
  function FilterMap<A, B>(f: A -> Option<B>, s: seq<A>): (r: seq<B>)
    ensures |r| <= |s|
  {
    if |s| == 0 then []
    else
      match f(s[0])
      case Some(b) => [b] + FilterMap(f, s[1..])
      case None => FilterMap(f, s[1..])
  }

  /** Where each element of `FilterMap(f, s[from..])` came from: strictly
      increasing positions of `s`, from `from` on, each mapped by `f` to that
      element. */
  function Origins<A, B>(f: A -> Option<B>, s: seq<A>, from: nat): (o: seq<nat>)
    requires from <= |s|
    ensures |o| == |FilterMap(f, s[from..])|
    ensures forall i :: 0 <= i < |o| ==> from <= o[i] < |s| && f(s[o[i]]) == Some(FilterMap(f, s[from..])[i])
    ensures forall i, j :: 0 <= i < j < |o| ==> o[i] < o[j]
    decreases |s| - from
  {
    if from == |s| then []
    else
      var rest := Origins(f, s, from + 1);
      assert s[from..][1..] == s[from + 1..];
      if f(s[from]).Some? then [from] + rest else rest
  }

  /** Every position whose image is defined contributes an element. */
  lemma {:induction false} OriginsComplete<A, B>(f: A -> Option<B>, s: seq<A>, from: nat, k: nat)
    requires from <= k < |s| && f(s[k]).Some?
    ensures exists i :: 0 <= i < |Origins(f, s, from)| && Origins(f, s, from)[i] == k
    decreases k - from
  {
    var o := Origins(f, s, from);
    var rest := Origins(f, s, from + 1);
    if k == from {
      assert o == [from] + rest;
      assert o[0] == k;
    } else {
      OriginsComplete(f, s, from + 1, k);
      var i :| 0 <= i < |rest| && rest[i] == k;
      if f(s[from]).Some? {
        assert o == [from] + rest;
        assert o[i + 1] == k;
      } else {
        assert o == rest;
      }
    }
  }

  /** A permutation has the same members. */
  lemma PermutationMembers<T>(a: seq<T>, b: seq<T>)
    requires multiset(a) == multiset(b)
    ensures forall i :: 0 <= i < |b| ==> b[i] in a
  {
    forall i | 0 <= i < |b| ensures b[i] in a {
      assert b[i] in multiset(b);
    }
  }

  /** Every element `f` keeps shows up in `FilterMap(f, s)`. */
  lemma FilterMapComplete<A, B>(f: A -> Option<B>, s: seq<A>, k: nat)
    requires k < |s| && f(s[k]).Some?
    ensures exists i :: 0 <= i < |FilterMap(f, s)| && FilterMap(f, s)[i] == f(s[k]).value
  {
    OriginsComplete(f, s, 0, k);
    assert s[0..] == s;
    var i :| 0 <= i < |Origins(f, s, 0)| && Origins(f, s, 0)[i] == k;
    assert f(s[k]) == Some(FilterMap(f, s)[i]);
  }

  lemma {:induction false} FilterAll<T>(s: seq<T>, p: T -> bool)
    requires forall i :: 0 <= i < |s| ==> p(s[i])
    ensures Filter(s, p) == s
  {
    if |s| > 0 {
      FilterAll(s[1..], p);
    }
  }

  lemma {:induction false} FilterNone<T>(s: seq<T>, p: T -> bool)
    requires forall i :: 0 <= i < |s| ==> !p(s[i])
    ensures Filter(s, p) == []
  {
    if |s| > 0 {
      FilterNone(s[1..], p);
    }
  }

  /** Filtering a sequence with one more element at the end. */
  lemma {:induction false} FilterAppend<T>(s: seq<T>, x: T, p: T -> bool)
    ensures Filter(s + [x], p) == Filter(s, p) + (if p(x) then [x] else [])
  {
    if |s| == 0 {
      assert s + [x] == [x];
      assert [x][1..] == [];
    } else {
      assert (s + [x])[1..] == s[1..] + [x];
      FilterAppend(s[1..], x, p);
    }
  }

  /** The sum of `f` over `s`, failing with the first failure of `f`, in
      order (a loop that adds as it goes and lets the first exception
      escape). */
  function SumAll<T, E>(s: seq<T>, f: T -> Result<int, E>): Result<int, E> {
    if |s| == 0 then Ok(0)
    else
      var first :- f(s[0]);
      var rest :- SumAll(s[1..], f);
      Ok(first + rest)
  }

  /** `f` where `p` holds, 0 elsewhere. */
  function Masked<T, E>(p: T -> bool, f: T -> Result<int, E>): T -> Result<int, E> {
    x => if p(x) then f(x) else Ok(0)
  }

  /** Summing over the elements `p` keeps is summing the masked function
      over all elements, failures included. */
  lemma {:induction false} SumOfFilter<T, E>(s: seq<T>, p: T -> bool, f: T -> Result<int, E>)
    ensures SumAll(Filter(s, p), f) == SumAll(s, Masked(p, f))
  {
    if |s| > 0 {
      SumOfFilter(s[1..], p, f);
      if p(s[0]) {
        assert ([s[0]] + Filter(s[1..], p))[1..] == Filter(s[1..], p);
      }
    }
  }

  /** A sum fails only with an error `f` gives. */
  lemma {:induction false} SumAllError<T, E>(s: seq<T>, f: T -> Result<int, E>, e: E)
    requires forall i :: 0 <= i < |s| && f(s[i]).Err? ==> f(s[i]).error == e
    ensures SumAll(s, f).Err? ==> SumAll(s, f).error == e
  {
    if |s| > 0 {
      assert forall i :: 0 <= i < |s| - 1 ==> s[1..][i] == s[i + 1];
      SumAllError(s[1..], f, e);
    }
  }

  /** A sum fails exactly when `f` fails on some element. */
  lemma {:induction false} SumAllFails<T, E>(s: seq<T>, f: T -> Result<int, E>)
    ensures SumAll(s, f).Err? <==> exists i :: 0 <= i < |s| && f(s[i]).Err?
  {
    if |s| > 0 {
      SumAllFails(s[1..], f);
      assert forall i :: 0 <= i < |s| - 1 ==> s[1..][i] == s[i + 1];
    }
  }

  /** `f` applied to every element in order, failing with the first
      failure. */
  function MapAll<T, U, E>(s: seq<T>, f: T -> Result<U, E>): (r: Result<seq<U>, E>)
    ensures r.Ok? <==> forall i :: 0 <= i < |s| ==> f(s[i]).Ok?
    ensures r.Ok? ==> |r.value| == |s| && forall i :: 0 <= i < |s| ==> f(s[i]) == Ok(r.value[i])
  {
    if |s| == 0 then Ok([])
    else
      var first :- f(s[0]);
      var rest :- MapAll(s[1..], f);
      assert forall i :: 1 <= i < |s| ==> s[i] == s[1..][i - 1];
      Ok([first] + rest)
  }

  /** A mapping fails only with an error `f` gives. */
  lemma {:induction false} MapAllError<T, U, E>(s: seq<T>, f: T -> Result<U, E>, e: E)
    requires forall i :: 0 <= i < |s| && f(s[i]).Err? ==> f(s[i]).error == e
    ensures MapAll(s, f).Err? ==> MapAll(s, f).error == e
  {
    if |s| > 0 {
      assert forall i :: 0 <= i < |s| - 1 ==> s[1..][i] == s[i + 1];
      MapAllError(s[1..], f, e);
    }
  }

  /** Mapping depends only on the values `f` takes on the elements. */
  lemma {:induction false} MapAllCongruent<T, U, E>(s: seq<T>, f: T -> Result<U, E>, g: T -> Result<U, E>)
    requires forall i :: 0 <= i < |s| ==> f(s[i]) == g(s[i])
    ensures MapAll(s, f) == MapAll(s, g)
  {
    if |s| > 0 {
      assert forall i :: 0 <= i < |s| - 1 ==> s[1..][i] == s[i + 1];
      MapAllCongruent(s[1..], f, g);
    }
  }
}
