/** Sequence helpers for the table models: row selection (a WHERE clause),
    counting (COUNT(*)), and ordering (ORDER BY) over SQLite-style keys. */
module Seqs {

  /** Rows of `s` for which `keep` holds, in their original order. */
  function Filter<T(!new)>(s: seq<T>, keep: T -> bool): (r: seq<T>)
    ensures |r| <= |s|
    ensures forall x :: multiset(r)[x] == if keep(x) then multiset(s)[x] else 0
    ensures forall x :: x in r <==> x in s && keep(x)
    ensures IsSubsequence(r, s)
  {
    if s == [] then []
    else
      var rest := Filter(s[1..], keep);
      assert s == [s[0]] + s[1..];
      if keep(s[0]) then [s[0]] + rest else rest
  }

  /** A predicate that holds for every row selects them all. */
  lemma {:induction false} FilterKeepsAll<T(!new)>(s: seq<T>, keep: T -> bool)
    requires forall x :: x in s ==> keep(x)
    ensures Filter(s, keep) == s
    decreases |s|
  {
    if s != [] {
      FilterKeepsAll(s[1..], keep);
      assert s == [s[0]] + s[1..];
    }
  }

  /** Filtering twice with the same predicate selects nothing new. */
  lemma {:induction false} FilterTwice<T(!new)>(s: seq<T>, keep: T -> bool)
    ensures Filter(Filter(s, keep), keep) == Filter(s, keep)
    decreases |s|
  {
    if s != [] {
      FilterTwice(s[1..], keep);
      var rest := Filter(s[1..], keep);
      if keep(s[0]) {
        assert ([s[0]] + rest)[1..] == rest;
      }
    }
  }

  /** A rejected row appended at the end is not selected. */
  lemma {:induction false} FilterAppendDropped<T(!new)>(s: seq<T>, x: T, keep: T -> bool)
    requires !keep(x)
    ensures Filter(s + [x], keep) == Filter(s, keep)
  {
    if s == [] {
      assert [x][1..] == [];
    } else {
      assert (s + [x])[1..] == s[1..] + [x];
      FilterAppendDropped(s[1..], x, keep);
    }
  }

  /** `r` can be obtained from `s` by deleting elements. */
  ghost predicate IsSubsequence<T>(r: seq<T>, s: seq<T>)
    decreases |s|
  {
    if r == [] then true
    else if s == [] then false
    else (r[0] == s[0] && IsSubsequence(r[1..], s[1..])) || IsSubsequence(r, s[1..])
  }

  /** Number of rows satisfying `p`. */
  function Count<T(!new)>(s: seq<T>, p: T -> bool): nat {
    |Filter(s, p)|
  }

  /** Counting is monotone in the predicate. */
  lemma {:induction false} CountMonotone<T(!new)>(s: seq<T>, p: T -> bool, q: T -> bool)
    requires forall x :: p(x) ==> q(x)
    ensures Count(s, p) <= Count(s, q)
  {
    if s != [] {
      CountMonotone(s[1..], p, q);
    }
  }

  /** Two disjoint predicates count no more than a predicate covering both. */
  lemma {:induction false} CountDisjoint<T(!new)>(s: seq<T>, p: T -> bool, q: T -> bool, u: T -> bool)
    requires forall x :: !(p(x) && q(x))
    requires forall x :: p(x) || q(x) ==> u(x)
    ensures Count(s, p) + Count(s, q) <= Count(s, u)
  {
    if s != [] {
      CountDisjoint(s[1..], p, q, u);
    }
  }

  /** A row the predicate rejects makes the count fall short of the length. */
  lemma {:induction false} CountStrict<T(!new)>(s: seq<T>, p: T -> bool, x: T)
    requires x in s && !p(x)
    ensures Count(s, p) < |s|
  {
    if s[0] != x {
      CountStrict(s[1..], p, x);
    }
  }

  /** A sort key as SQLite compares column values: integers before text,
      text by code point (the order of BINARY collation on UTF-8). */
  datatype Key = Num(n: int) | Text(s: string)

  predicate TextLe(a: string, b: string)
    decreases |a|
  {
    if a == [] then true
    else if b == [] then false
    else if a[0] != b[0] then a[0] < b[0]
    else TextLe(a[1..], b[1..])
  }

  predicate KeyLe(a: Key, b: Key) {
    match (a, b)
    case (Num(x), Num(y)) => x <= y
    case (Num(_), Text(_)) => true
    case (Text(_), Num(_)) => false
    case (Text(x), Text(y)) => TextLe(x, y)
  }

  lemma {:induction false} TextLeTotal(a: string, b: string)
    ensures TextLe(a, b) || TextLe(b, a)
    decreases |a|
  {
    if a != [] && b != [] && a[0] == b[0] {
      TextLeTotal(a[1..], b[1..]);
    }
  }

  lemma {:induction false} TextLeTransitive(a: string, b: string, c: string)
    requires TextLe(a, b) && TextLe(b, c)
    ensures TextLe(a, c)
    decreases |a|
  {
    if a != [] && b != [] && c != [] && a[0] == b[0] && b[0] == c[0] {
      TextLeTransitive(a[1..], b[1..], c[1..]);
    }
  }

  lemma KeyLeTotal(a: Key, b: Key)
    ensures KeyLe(a, b) || KeyLe(b, a)
  {
    if a.Text? && b.Text? {
      TextLeTotal(a.s, b.s);
    }
  }

  lemma KeyLeTransitive(a: Key, b: Key, c: Key)
    requires KeyLe(a, b) && KeyLe(b, c)
    ensures KeyLe(a, c)
  {
    if a.Text? && b.Text? && c.Text? {
      TextLeTransitive(a.s, b.s, c.s);
    }
  }

  /** `ORDER BY key ASC` (or `DESC`): may `a` come before `b`? */
  predicate Before(a: Key, b: Key, descending: bool) {
    if descending then KeyLe(b, a) else KeyLe(a, b)
  }

  lemma BeforeTotal(a: Key, b: Key, descending: bool)
    ensures Before(a, b, descending) || Before(b, a, descending)
  {
    KeyLeTotal(a, b);
  }

  lemma BeforeTransitive(a: Key, b: Key, c: Key, descending: bool)
    requires Before(a, b, descending) && Before(b, c, descending)
    ensures Before(a, c, descending)
  {
    if descending {
      KeyLeTransitive(c, b, a);
    } else {
      KeyLeTransitive(a, b, c);
    }
  }

  /** Every earlier element may come before every later one. */
  ghost predicate SortedBy<T>(s: seq<T>, key: T -> Key, descending: bool) {
    forall i, j :: 0 <= i < j < |s| ==> Before(key(s[i]), key(s[j]), descending)
  }

  /** Prepending an element that may precede every element keeps order. */
  lemma ConsSorted<T>(h: T, rest: seq<T>, key: T -> Key, descending: bool)
    requires SortedBy(rest, key, descending)
    requires forall y :: y in rest ==> Before(key(h), key(y), descending)
    ensures SortedBy([h] + rest, key, descending)
  {
    var r := [h] + rest;
    forall i, j | 0 <= i < j < |r| ensures Before(key(r[i]), key(r[j]), descending) {
      if i == 0 {
        assert r[j] == rest[j - 1];
        assert rest[j - 1] in rest;
      } else {
        assert r[i] == rest[i - 1] && r[j] == rest[j - 1];
      }
    }
  }

  lemma HeadBeforeTail<T>(s: seq<T>, key: T -> Key, descending: bool)
    requires |s| > 0 && SortedBy(s, key, descending)
    ensures forall y :: y in s[1..] ==> Before(key(s[0]), key(y), descending)
  {
    forall y | y in s[1..] ensures Before(key(s[0]), key(y), descending) {
      var j :| 0 <= j < |s[1..]| && s[1..][j] == y;
      assert s[j + 1] == y;
    }
  }

  lemma MembersOfUnion<T>(r: seq<T>, s: seq<T>, x: T)
    requires multiset(r) == multiset(s) + multiset{x}
    ensures forall y :: y in r ==> y == x || y in s
  {
    forall y | y in r ensures y == x || y in s {
      assert y in multiset(r);
    }
  }

  /** Inserts `x` into the sorted `s`. */
  function Insert<T>(x: T, s: seq<T>, key: T -> Key, descending: bool): (r: seq<T>)
    requires SortedBy(s, key, descending)
    ensures multiset(r) == multiset(s) + multiset{x}
    ensures SortedBy(r, key, descending)
  {
    if s == [] then [x]
    else if Before(key(x), key(s[0]), descending) then
      HeadBeforeTail(s, key, descending);
      assert forall y :: y in s ==> y == s[0] || y in s[1..] by {
        assert s == [s[0]] + s[1..];
      }
      forall y | y in s[1..] ensures Before(key(x), key(y), descending) {
        BeforeTransitive(key(x), key(s[0]), key(y), descending);
      }
      ConsSorted(x, s, key, descending);
      [x] + s
    else
      var rest := Insert(x, s[1..], key, descending);
      assert s == [s[0]] + s[1..];
      BeforeTotal(key(x), key(s[0]), descending);
      HeadBeforeTail(s, key, descending);
      MembersOfUnion(rest, s[1..], x);
      ConsSorted(s[0], rest, key, descending);
      [s[0]] + rest
  }

  /** `ORDER BY`: a permutation of `s` sorted by `key`. */
  function Sort<T>(s: seq<T>, key: T -> Key, descending: bool): (r: seq<T>)
    ensures multiset(r) == multiset(s)
    ensures |r| == |s|
    ensures SortedBy(r, key, descending)
  {
    if s == [] then []
    else
      assert s == [s[0]] + s[1..];
      var r := Insert(s[0], Sort(s[1..], key, descending), key, descending);
      assert |r| == |multiset(r)|;
      r
  }

  /** `SELECT … WHERE keep ORDER BY key`: exactly the kept rows, each as
      often as in the table, in key order. */
  function Query<T(!new)>(s: seq<T>, keep: T -> bool, key: T -> Key, descending: bool): (r: seq<T>)
    ensures forall x :: multiset(r)[x] == if keep(x) then multiset(s)[x] else 0
    ensures forall x :: x in r <==> x in s && keep(x)
    ensures |r| == Count(s, keep)
    ensures SortedBy(r, key, descending)
  {
    var r := Sort(Filter(s, keep), key, descending);
    assert forall x :: x in r <==> x in multiset(r);
    r
  }
}
