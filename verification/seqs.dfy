/** Sequence operations behind the source's array idioms: `filter`, `reduce`
    with `+`, `slice`, and `filter((_, i) => i !== index)`. */
module Seqs {

  /** `s.filter(keep)`: the elements that pass, in their original order. */
  function Filter<T(!new)>(s: seq<T>, keep: T -> bool): (r: seq<T>)
    ensures |r| <= |s|
    ensures forall i :: 0 <= i < |r| ==> keep(r[i])
    ensures multiset(r) <= multiset(s)
  {
    if |s| == 0 then []
    else
      assert s == [s[0]] + s[1..];
      if keep(s[0]) then [s[0]] + Filter(s[1..], keep) else Filter(s[1..], keep)
  }

  /** The result holds exactly the elements of `s` that pass. */
  lemma {:induction false} FilterMembers<T(!new)>(s: seq<T>, keep: T -> bool)
    ensures forall x :: x in Filter(s, keep) <==> x in s && keep(x)
    decreases |s|
  {
    if |s| > 0 {
      FilterMembers(s[1..], keep);
      assert s == [s[0]] + s[1..];
    }
  }

  /** Filtering distributes over concatenation. */
  lemma {:induction false} FilterAppend<T(!new)>(a: seq<T>, b: seq<T>, keep: T -> bool)
    ensures Filter(a + b, keep) == Filter(a, keep) + Filter(b, keep)
    decreases |a|
  {
    if |a| > 0 {
      FilterAppend(a[1..], b, keep);
      assert (a + b)[1..] == a[1..] + b;
    } else {
      assert a + b == b;
    }
  }

  /** A filter that keeps everything is the identity. */
  lemma {:induction false} FilterAll<T(!new)>(s: seq<T>, keep: T -> bool)
    requires forall i :: 0 <= i < |s| ==> keep(s[i])
    ensures Filter(s, keep) == s
    decreases |s|
  {
    if |s| > 0 {
      FilterAll(s[1..], keep);
    }
  }

  /** A filter that rejects everything gives the empty sequence. */
  lemma {:induction false} FilterNone<T(!new)>(s: seq<T>, keep: T -> bool)
    requires forall i :: 0 <= i < |s| ==> !keep(s[i])
    ensures Filter(s, keep) == []
    decreases |s|
  {
    if |s| > 0 {
      FilterNone(s[1..], keep);
    }
  }

  /** A filter that rejects exactly the element at `i` removes just that one. */
  lemma {:induction false} FilterDropsOnly<T(!new)>(s: seq<T>, keep: T -> bool, i: int)
    requires 0 <= i < |s|
    requires !keep(s[i])
    requires forall j :: 0 <= j < |s| && j != i ==> keep(s[j])
    ensures Filter(s, keep) == s[..i] + s[i + 1..]
    decreases |s|
  {
    if i == 0 {
      FilterAll(s[1..], keep);
    } else {
      FilterDropsOnly(s[1..], keep, i - 1);
      assert s[1..][..i - 1] == s[1..i];
      assert s[1..][i..] == s[i + 1..];
      assert [s[0]] + s[1..i] == s[..i];
    }
  }

  /** The sum of `f` over `s`: `s.reduce((acc, x) => acc + f(x), 0)`. */
  function Sum<T>(s: seq<T>, f: T -> int): int
    decreases |s|
  {
    if |s| == 0 then 0 else f(s[0]) + Sum(s[1..], f)
  }

  /** Sums distribute over concatenation. */
  lemma {:induction false} SumAppend<T>(a: seq<T>, b: seq<T>, f: T -> int)
    ensures Sum(a + b, f) == Sum(a, f) + Sum(b, f)
    decreases |a|
  {
    if |a| > 0 {
      SumAppend(a[1..], b, f);
      assert (a + b)[1..] == a[1..] + b;
    } else {
      assert a + b == b;
    }
  }

  /** The sum of a single element is its term. */
  lemma SumSingle<T>(x: T, f: T -> int)
    ensures Sum([x], f) == f(x)
  {
    assert [x][1..] == [];
  }

  /** The sum of `a + [x] + b` splits into the three parts. */
  lemma SumAround<T>(a: seq<T>, x: T, b: seq<T>, f: T -> int)
    ensures Sum(a + [x] + b, f) == Sum(a, f) + f(x) + Sum(b, f)
  {
    SumAppend(a + [x], b, f);
    SumAppend(a, [x], f);
    SumSingle(x, f);
  }

  /** Replacing one element changes the sum by the difference of the two terms. */
  lemma SumUpdate<T>(s: seq<T>, i: int, v: T, f: T -> int)
    requires 0 <= i < |s|
    ensures Sum(s[i := v], f) == Sum(s, f) - f(s[i]) + f(v)
  {
    Around(s, i);
    Around(s[i := v], i);
    SumAround(s[..i], s[i], s[i + 1..], f);
    SumAround(s[..i], v, s[i + 1..], f);
  }

  /** Removing one element lowers the sum by its term. */
  lemma SumRemove<T>(s: seq<T>, i: int, f: T -> int)
    requires 0 <= i < |s|
    ensures Sum(s[..i] + s[i + 1..], f) == Sum(s, f) - f(s[i])
  {
    Around(s, i);
    SumWithout(s[..i], s[i], s[i + 1..], f);
  }

  /** A sequence is the part before an index, the element there and the rest. */
  lemma Around<T>(s: seq<T>, i: int)
    requires 0 <= i < |s|
    ensures s == s[..i] + [s[i]] + s[i + 1..]
  {
  }

  lemma SumWithout<T>(a: seq<T>, x: T, b: seq<T>, f: T -> int)
    ensures Sum(a + b, f) == Sum(a + [x] + b, f) - f(x)
  {
    SumAround(a, x, b, f);
    SumAppend(a, b, f);
  }

  /** `s.filter((_, j) => j !== index)`: drops the element at `index`, if any. */
  function RemoveAt<T>(s: seq<T>, index: int): (r: seq<T>)
    ensures 0 <= index < |s| ==> r == s[..index] + s[index + 1..]
    ensures !(0 <= index < |s|) ==> r == s
    decreases |s|
  {
    if |s| == 0 then []
    else if index == 0 then s[1..]
    else
      var rest := RemoveAt(s[1..], index - 1);
      assert 0 <= index < |s| ==> s[1..][..index - 1] + s[1..][index..] == s[1..index] + s[index + 1..];
      assert !(0 <= index < |s|) ==> [s[0]] + s[1..] == s;
      [s[0]] + rest
  }

  /** JavaScript's clamping of one `slice` bound to `[0, len]`. */
  function SliceBound(k: int, len: nat): (r: nat)
    ensures r <= len
  {
    if k < 0 then (if len + k < 0 then 0 else len + k)
    else if k > len then len
    else k
  }

  /** `s.slice(start, end)`: negative bounds count from the end, bounds past
      the end are clamped, and a crossed range is empty. */
  function Slice<T>(s: seq<T>, start: int, end: int): (r: seq<T>)
    ensures |r| <= |s|
  {
    var lo := SliceBound(start, |s|);
    var hi := SliceBound(end, |s|);
    if hi <= lo then [] else s[lo..hi]
  }

  /** For in-range, ordered bounds `slice` is Dafny's subsequence. */
  lemma SliceInRange<T>(s: seq<T>, start: int, end: int)
    requires 0 <= start <= end
    ensures end <= |s| ==> Slice(s, start, end) == s[start..end]
    ensures start <= |s| <= end ==> Slice(s, start, end) == s[start..]
    ensures |s| <= start ==> Slice(s, start, end) == []
  {
  }
}
