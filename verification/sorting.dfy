/** `Array.prototype.sort` with a comparator, as a stable insertion sort. The
    comparator `le(a, b)` stands for `compare(a, b) <= 0`: `a` may stay before
    `b`. JavaScript's sort is stable, so elements the comparator calls equal
    keep their input order. */
module Sorting {

  /** `le` is total and transitive: a consistent JavaScript comparator. */
  ghost predicate TotalPreorder<T(!new)>(le: (T, T) -> bool) {
    && (forall a, b :: le(a, b) || le(b, a))
    && (forall a, b, c :: le(a, b) && le(b, c) ==> le(a, c))
  }

  /** Every neighbouring pair is in comparator order. */
  predicate Sorted<T>(s: seq<T>, le: (T, T) -> bool) {
    forall i :: 0 <= i < |s| - 1 ==> le(s[i], s[i + 1])
  }

  /** Inserts `x` before the first element it may precede. */
  function Insert<T>(x: T, s: seq<T>, le: (T, T) -> bool): (r: seq<T>)
    ensures |r| == |s| + 1
    ensures multiset(r) == multiset(s) + multiset{x}
    ensures r[0] == x || (|s| > 0 && r[0] == s[0])
    decreases |s|
  {
    if |s| == 0 then [x]
    else if le(x, s[0]) then [x] + s
    else
      assert s == [s[0]] + s[1..];
      [s[0]] + Insert(x, s[1..], le)
  }

  /** Insertion keeps a sorted sequence sorted. */
  lemma {:induction false} InsertSorted<T(!new)>(x: T, s: seq<T>, le: (T, T) -> bool)
    requires TotalPreorder(le)
    requires Sorted(s, le)
    ensures Sorted(Insert(x, s, le), le)
    decreases |s|
  {
    if |s| > 0 && !le(x, s[0]) {
      InsertSorted(x, s[1..], le);
      var rest := Insert(x, s[1..], le);
      assert le(s[0], x);
      assert rest[0] == x || rest[0] == s[1];
    }
  }

  /** The sorted copy of `s`: `[...s].sort(compare)`. */
  function Sort<T>(s: seq<T>, le: (T, T) -> bool): (r: seq<T>)
    ensures |r| == |s|
    ensures multiset(r) == multiset(s)
    decreases |s|
  {
    if |s| == 0 then []
    else
      assert s == [s[0]] + s[1..];
      Insert(s[0], Sort(s[1..], le), le)
  }

  /** With a consistent comparator the result is in comparator order. */
  lemma {:induction false} SortSorted<T(!new)>(s: seq<T>, le: (T, T) -> bool)
    requires TotalPreorder(le)
    ensures Sorted(Sort(s, le), le)
    decreases |s|
  {
    if |s| > 0 {
      SortSorted(s[1..], le);
      InsertSorted(s[0], Sort(s[1..], le), le);
    }
  }

  /** A comparator that returns 0 for every pair leaves the order unchanged. */
  lemma {:induction false} SortAllEqualIsIdentity<T>(s: seq<T>, le: (T, T) -> bool)
    requires forall a, b :: le(a, b)
    ensures Sort(s, le) == s
    decreases |s|
  {
    if |s| > 0 {
      SortAllEqualIsIdentity(s[1..], le);
      assert Sort(s, le) == Insert(s[0], s[1..], le);
    }
  }

  /** The comparator calls `a` and `b` equal: neither must go first. */
  predicate Tied<T>(a: T, b: T, le: (T, T) -> bool) {
    le(a, b) && le(b, a)
  }

  /** The elements of `s` tied with `y`, in the order `s` holds them. */
  function Ties<T>(s: seq<T>, y: T, le: (T, T) -> bool): seq<T>
    decreases |s|
  {
    if |s| == 0 then []
    else (if Tied(s[0], y, le) then [s[0]] else []) + Ties(s[1..], y, le)
  }

  /** Any two elements tied with `y` may go in either order. */
  ghost predicate TiesInterchangeable<T(!new)>(y: T, le: (T, T) -> bool) {
    forall a, b :: Tied(a, y, le) && Tied(b, y, le) ==> le(a, b)
  }

  /** A consistent comparator makes the elements tied with any `y`
      interchangeable. */
  lemma TiedWithSame<T(!new)>(y: T, le: (T, T) -> bool)
    requires TotalPreorder(le)
    ensures TiesInterchangeable(y, le)
  {
    forall a, b | Tied(a, y, le) && Tied(b, y, le)
      ensures le(a, b)
    {
      assert le(a, y) && le(y, b);
    }
  }

  /** The ties of a sequence with a known first element. */
  lemma TiesCons<T>(a: T, rest: seq<T>, y: T, le: (T, T) -> bool)
    ensures Ties([a] + rest, y, le) == (if Tied(a, y, le) then [a] else []) + Ties(rest, y, le)
  {
    assert ([a] + rest)[1..] == rest;
  }

  /** Inserting `x` puts it ahead of every element tied with it: it stops at
      the first element it may precede, which any tied element is. */
  lemma {:induction false} InsertTies<T(!new)>(x: T, t: seq<T>, y: T, le: (T, T) -> bool)
    requires TiesInterchangeable(y, le)
    ensures Ties(Insert(x, t, le), y, le) == (if Tied(x, y, le) then [x] else []) + Ties(t, y, le)
    decreases |t|
  {
    if |t| == 0 {
      TiesCons(x, t, y, le);
    } else if le(x, t[0]) {
      TiesCons(x, t, y, le);
    } else {
      var a, rest := t[0], Insert(x, t[1..], le);
      assert Insert(x, t, le) == [a] + rest;
      TiesCons(a, rest, y, le);
      assert t == [a] + t[1..];
      TiesCons(a, t[1..], y, le);
      InsertTies(x, t[1..], y, le);
      var head := if Tied(x, y, le) then [x] else [];
      var first := if Tied(a, y, le) then [a] else [];
      assert first == [] || head == [];
      assert first + (head + Ties(t[1..], y, le)) == head + (first + Ties(t[1..], y, le));
    }
  }

  /** Stability: the elements the comparator calls equal to any `y` come out
      in the order they went in. */
  lemma {:induction false} SortStable<T(!new)>(s: seq<T>, y: T, le: (T, T) -> bool)
    requires TotalPreorder(le)
    ensures Ties(Sort(s, le), y, le) == Ties(s, y, le)
    decreases |s|
  {
    if |s| > 0 {
      SortStable(s[1..], y, le);
      TiedWithSame(y, le);
      InsertTies(s[0], Sort(s[1..], le), y, le);
    }
  }

  /** Neighbour order extends to every pair, earlier before later. */
  lemma {:induction false} SortedPairs<T(!new)>(s: seq<T>, le: (T, T) -> bool, i: int, j: int)
    requires TotalPreorder(le)
    requires Sorted(s, le)
    requires 0 <= i <= j < |s|
    ensures le(s[i], s[j])
    decreases j - i
  {
    if i < j {
      SortedPairs(s, le, i + 1, j);
    }
  }

  /** Sorting never invents or drops an element. */
  lemma SortSameElements<T>(s: seq<T>, le: (T, T) -> bool, x: T)
    ensures x in Sort(s, le) <==> x in s
  {
    assert x in Sort(s, le) <==> x in multiset(Sort(s, le));
    assert x in s <==> x in multiset(s);
  }
  /** Code-point lexicographic order on strings, the model's stand-in for
      `a.localeCompare(b) <= 0`. */
  predicate LexLe(a: string, b: string)
    decreases |a|
  {
    |a| == 0 || (|b| > 0 && (a[0] < b[0] || (a[0] == b[0] && LexLe(a[1..], b[1..]))))
  }

  lemma {:induction false} LexLeTotal(a: string, b: string)
    ensures LexLe(a, b) || LexLe(b, a)
    decreases |a|
  {
    if |a| > 0 && |b| > 0 && a[0] == b[0] {
      LexLeTotal(a[1..], b[1..]);
    }
  }

  lemma {:induction false} LexLeTransitive(a: string, b: string, c: string)
    requires LexLe(a, b) && LexLe(b, c)
    ensures LexLe(a, c)
    decreases |a|
  {
    if |a| > 0 && a[0] == b[0] && b[0] == c[0] {
      LexLeTransitive(a[1..], b[1..], c[1..]);
    }
  }

  /** Lexicographic order is a consistent comparator. */
  lemma LexLeTotalPreorder()
    ensures TotalPreorder((a: string, b: string) => LexLe(a, b))
  {
    forall a: string, b: string
      ensures LexLe(a, b) || LexLe(b, a)
    {
      LexLeTotal(a, b);
    }
    forall a: string, b: string, c: string | LexLe(a, b) && LexLe(b, c)
      ensures LexLe(a, c)
    {
      LexLeTransitive(a, b, c);
    }
  }
}
