/** Order-preserving operations on the stored arrays: `Array.prototype.filter`,
    removal by id (the `filter(x => x.id !== id)` every delete uses) and
    `slice(0, n)`. */
module Collections {
  import opened Wrappers

  /** `s.filter(p)`: the elements satisfying `p`, in their original order. */
  function Filter<T>(s: seq<T>, p: T -> bool): (r: seq<T>)
    ensures |r| <= |s|
    ensures forall i :: 0 <= i < |r| ==> r[i] in s && p(r[i])
    ensures forall i :: 0 <= i < |s| && p(s[i]) ==> s[i] in r
  {
    if s == [] then []
    else (if p(s[0]) then [s[0]] else []) + Filter(s[1..], p)
  }

  /** Filtering a sequence with a known head. */
  lemma FilterCons<T>(h: T, s: seq<T>, p: T -> bool)
    ensures Filter([h] + s, p) == (if p(h) then [h] else []) + Filter(s, p)
  {
    assert ([h] + s)[0] == h && ([h] + s)[1..] == s;
  }

  /** Sequences with the same filtered view keep it under a common head. */
  lemma FilterConsCongruent<T>(h: T, a: seq<T>, b: seq<T>, p: T -> bool)
    requires Filter(a, p) == Filter(b, p)
    ensures Filter([h] + a, p) == Filter([h] + b, p)
  {
    FilterCons(h, a, p);
    FilterCons(h, b, p);
  }

  /** Two neighbours of which at most one passes may trade places without
      changing the filtered view. */
  lemma FilterSwap<T>(x: T, y: T, t: seq<T>, p: T -> bool)
    requires !(p(x) && p(y))
    ensures Filter([x] + ([y] + t), p) == Filter([y] + ([x] + t), p)
  {
    var ft := Filter(t, p);
    var xf := if p(x) then [x] else [];
    var yf := if p(y) then [y] else [];
    assert Filter([x] + ([y] + t), p) == xf + (yf + ft) by {
      FilterCons(x, [y] + t, p);
      FilterCons(y, t, p);
    }
    assert Filter([y] + ([x] + t), p) == yf + (xf + ft) by {
      FilterCons(y, [x] + t, p);
      FilterCons(x, t, p);
    }
    SwapEmpty(xf, yf, ft);
  }

  /** Of two sequences one of which is empty, either may come first. */
  lemma SwapEmpty<T>(a: seq<T>, b: seq<T>, c: seq<T>)
    requires a == [] || b == []
    ensures a + (b + c) == b + (a + c)
  {
    if a == [] {
      assert a + (b + c) == b + c;
    } else {
      assert a + (b + c) == a + c;
    }
  }

  /** Filtering distributes over concatenation: kept elements keep their relative order. */
  lemma {:induction false} FilterConcat<T>(a: seq<T>, b: seq<T>, p: T -> bool)
    ensures Filter(a + b, p) == Filter(a, p) + Filter(b, p)
  {
    if a == [] {
      assert a + b == b;
    } else {
      assert (a + b)[0] == a[0] && (a + b)[1..] == a[1..] + b;
      FilterConcat(a[1..], b, p);
    }
  }

  /** A filter keeps everything exactly when it drops nothing, i.e. when the
      lengths agree, i.e. when every element satisfies the predicate. */
  lemma {:induction false} FilterKeepsAll<T>(s: seq<T>, p: T -> bool)
    ensures Filter(s, p) == s <==> |Filter(s, p)| == |s|
    ensures |Filter(s, p)| == |s| <==> forall i :: 0 <= i < |s| ==> p(s[i])
  {
    if s != [] {
      FilterKeepsAll(s[1..], p);
      if !p(s[0]) {
        assert |Filter(s, p)| < |s|;
      } else {
        assert forall i :: 1 <= i < |s| ==> s[1..][i - 1] == s[i];
      }
    }
  }

  /** Nothing passes a filter that no element satisfies. */
  lemma {:induction false} FilterNone<T>(s: seq<T>, p: T -> bool)
    requires forall i :: 0 <= i < |s| ==> !p(s[i])
    ensures Filter(s, p) == []
  {
    if s != [] {
      assert s == [s[0]] + s[1..];
      FilterCons(s[0], s[1..], p);
      FilterNone(s[1..], p);
    }
  }

  /** Filtering twice with the same predicate is filtering once. */
  lemma {:induction false} FilterIdempotent<T>(s: seq<T>, p: T -> bool)
    ensures Filter(Filter(s, p), p) == Filter(s, p)
  {
    var r := Filter(s, p);
    assert forall i :: 0 <= i < |r| ==> p(r[i]) by {
      forall i | 0 <= i < |r| ensures p(r[i]) {
      }
    }
    FilterKeepsAll(r, p);
  }

  /** `s.map(f)`. */
  function Map<T, U>(s: seq<T>, f: T -> U): (r: seq<U>)
    ensures |r| == |s|
    ensures forall i :: 0 <= i < |s| ==> r[i] == f(s[i])
  {
    seq(|s|, i requires 0 <= i < |s| => f(s[i]))
  }

  /** Mapping a sequence with a known head. */
  lemma MapCons<T, U>(h: T, t: seq<T>, f: T -> U)
    ensures Map([h] + t, f) == [f(h)] + Map(t, f)
  {
    var l, r := Map([h] + t, f), [f(h)] + Map(t, f);
    forall i | 0 <= i < |l| ensures l[i] == r[i] {
      if i > 0 {
        assert ([h] + t)[i] == t[i - 1];
      }
    }
  }

  /** The predicate "the id is not `id`", for the record type whose id `idOf` reads. */
  function IdIsNot<T>(id: string, idOf: T -> string): T -> bool {
    x => idOf(x) != id
  }

  /** `records.filter(r => r.id !== id)`. */
  function RemoveById<T>(s: seq<T>, id: string, idOf: T -> string): (r: seq<T>)
    ensures |r| <= |s|
    ensures forall i :: 0 <= i < |r| ==> r[i] in s && idOf(r[i]) != id
    ensures forall i :: 0 <= i < |s| && idOf(s[i]) != id ==> s[i] in r
  {
    Filter(s, IdIsNot(id, idOf))
  }

  /** Removing an id changes the collection exactly when some record carries that id. */
  lemma RemoveByIdUnchangedIffAbsent<T>(s: seq<T>, id: string, idOf: T -> string)
    ensures RemoveById(s, id, idOf) == s <==> forall i :: 0 <= i < |s| ==> idOf(s[i]) != id
  {
    FilterKeepsAll(s, IdIsNot(id, idOf));
  }

  /** Removal preserves order: removing from a concatenation removes from each part. */
  lemma RemoveByIdConcat<T>(a: seq<T>, b: seq<T>, id: string, idOf: T -> string)
    ensures RemoveById(a + b, id, idOf) == RemoveById(a, id, idOf) + RemoveById(b, id, idOf)
  {
    FilterConcat(a, b, IdIsNot(id, idOf));
  }

  /** `s.findIndex(x => idOf(x) === id)` as an option: the first index whose
      record carries `id`, or `None`. */
  function FindById<T>(s: seq<T>, id: string, idOf: T -> string): (r: Option<nat>)
    ensures r.Some? ==> r.value < |s| && idOf(s[r.value]) == id
    ensures r.Some? ==> forall j :: 0 <= j < r.value ==> idOf(s[j]) != id
    ensures r.None? ==> forall j :: 0 <= j < |s| ==> idOf(s[j]) != id
  {
    if s == [] then None
    else if idOf(s[0]) == id then Some(0)
    else match FindById(s[1..], id, idOf)
      case Some(i) => Some(i + 1)
      case None => None
  }

  /** The first index holding an id depends only on the ids, position by position. */
  lemma FindByIdSameIds<T>(a: seq<T>, b: seq<T>, id: string, idOf: T -> string)
    requires |a| == |b|
    requires forall i :: 0 <= i < |a| ==> idOf(a[i]) == idOf(b[i])
    ensures FindById(a, id, idOf) == FindById(b, id, idOf)
  {
  }

  /** `s.slice(0, n)` for n >= 0: the first `n` elements, or all of them. */
  function Take<T>(s: seq<T>, n: nat): (r: seq<T>)
    ensures |r| == if n < |s| then n else |s|
    ensures r <= s
  {
    if n < |s| then s[..n] else s
  }
}
