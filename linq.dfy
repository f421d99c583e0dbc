/**
 * The LINQ operators the handlers compose (`Where`, `Any`, `GroupBy`,
 * `Skip`/`Take`, the stable `OrderBy`), as functions on sequences, with the
 * facts about them that the handlers' proofs use.
 */
module Linq {

  /** `Where`: the order-preserving subsequence of the elements satisfying `p`. */
  function Where<T(==,!new)>(s: seq<T>, p: T -> bool): (r: seq<T>)
    ensures |r| <= |s|
    ensures forall x :: x in r <==> x in s && p(x)
    decreases |s|
  {
    if s == [] then [] else Where(s[..|s| - 1], p) + (if p(s[|s| - 1]) then [s[|s| - 1]] else [])
  }

  /** Filtering distributes over concatenation: appending never reorders what was kept. */
  lemma {:induction false} WhereConcat<T(!new)>(a: seq<T>, b: seq<T>, p: T -> bool)
    ensures Where(a + b, p) == Where(a, p) + Where(b, p)
    decreases |b|
  {
    if b == [] {
      assert a + b == a;
    } else {
      var n := |b| - 1;
      assert (a + b)[..|a + b| - 1] == a + b[..n] && (a + b)[|a + b| - 1] == b[n];
      WhereConcat(a, b[..n], p);
      AppendAssoc(Where(a, p), Where(b[..n], p), if p(b[n]) then [b[n]] else []);
    }
  }

  /** `Any`. */
  predicate Any<T>(s: seq<T>, p: T -> bool) {
    exists i :: 0 <= i < |s| && p(s[i])
  }

  /** `Any(p)` holds exactly when `Where(p)` is not empty. */
  lemma AnyIffWhereNonEmpty<T(!new)>(s: seq<T>, p: T -> bool)
    ensures Any(s, p) <==> Where(s, p) != []
  {
    if Any(s, p) {
      var i :| 0 <= i < |s| && p(s[i]);
      assert s[i] in Where(s, p);
    }
  }

  /** Some element of a filter passes `p` exactly when some element of the source passes both. */
  lemma AnyOfWhere<T(!new)>(s: seq<T>, q: T -> bool, p: T -> bool)
    ensures Any(Where(s, q), p) <==> exists x :: x in s && q(x) && p(x)
  {
    var w := Where(s, q);
    if exists x :: x in s && q(x) && p(x) {
      var x :| x in s && q(x) && p(x);
      assert x in w;
      var i :| 0 <= i < |w| && w[i] == x;
      assert p(w[i]);
    }
    if Any(w, p) {
      var i :| 0 <= i < |w| && p(w[i]);
      assert w[i] in w;
    }
  }

  /**
   * What `Single`/`SingleOrDefault` find: no element, exactly one (by its
   * index), or several (both operators then throw; `Single` throws on none too).
   */
  datatype Single = NoMatch | Match(index: nat) | Ambiguous

  /** `SingleOrDefault(p)`, reporting the position of the one match. */
  function SingleWhere<T>(s: seq<T>, p: T -> bool): (r: Single)
    ensures r.NoMatch? <==> forall i :: 0 <= i < |s| ==> !p(s[i])
    ensures r.Match? ==> r.index < |s| && p(s[r.index]) && forall i :: 0 <= i < |s| && p(s[i]) ==> i == r.index
    ensures r.Ambiguous? ==> exists i, j :: 0 <= i < j < |s| && p(s[i]) && p(s[j])
    decreases |s|
  {
    if s == [] then NoMatch
    else
      var n := |s| - 1;
      var r := SingleWhere(s[..n], p);
      assert forall i :: 0 <= i < n ==> s[..n][i] == s[i];
      if !p(s[n]) then r
      else if r.NoMatch? then Match(n)
      else
        assert r.Match? ==> r.index < n && p(s[r.index]);
        Ambiguous
  }

  /** The predicate "has key `k`", one function value per key. */
  function HasKey<T, K(==,!new)>(key: T -> K, k: K): T -> bool {
    x => key(x) == k
  }

  /** The keys of `s`, each once, in order of first occurrence (the order `GroupBy` yields groups in). */
  function DistinctKeys<T, K(==,!new)>(s: seq<T>, key: T -> K): (r: seq<K>)
    ensures |r| <= |s|
    ensures forall k :: k in r <==> exists i :: 0 <= i < |s| && key(s[i]) == k
    ensures forall i, j :: 0 <= i < j < |r| ==> r[i] != r[j]
    decreases |s|
  {
    if s == [] then []
    else
      var rest := DistinctKeys(s[..|s| - 1], key);
      assert forall i :: 0 <= i < |s| - 1 ==> s[..|s| - 1][i] == s[i];
      if key(s[|s| - 1]) in rest then rest else rest + [key(s[|s| - 1])]
  }

  /** `GroupBy(key)`: one group per distinct key, each holding that key's elements in input order. */
  function GroupBy<T(==,!new), K(==,!new)>(s: seq<T>, key: T -> K): (r: seq<seq<T>>)
    ensures |r| == |DistinctKeys(s, key)|
  {
    var keys := DistinctKeys(s, key);
    seq(|keys|, i requires 0 <= i < |keys| => Where(s, HasKey(key, keys[i])))
  }

  /** Every group is non-empty, its elements share its key, and distinct groups have distinct keys. */
  lemma GroupByGroups<T(!new), K(!new)>(s: seq<T>, key: T -> K, i: int)
    requires 0 <= i < |GroupBy(s, key)|
    ensures GroupBy(s, key)[i] != []
    ensures forall x :: x in GroupBy(s, key)[i] <==> x in s && key(x) == DistinctKeys(s, key)[i]
  {
    var k := DistinctKeys(s, key)[i];
    assert k in DistinctKeys(s, key);
    var j :| 0 <= j < |s| && key(s[j]) == k;
    assert HasKey(key, k)(s[j]);
    assert s[j] in GroupBy(s, key)[i];
  }

  /** Each element of the input lies in exactly one group: the group of its key. */
  lemma GroupByPartition<T(!new), K(!new)>(s: seq<T>, key: T -> K, x: T)
    requires x in s
    ensures exists i :: 0 <= i < |GroupBy(s, key)| && x in GroupBy(s, key)[i]
    ensures forall i, j ::
      (0 <= i < |GroupBy(s, key)| && 0 <= j < |GroupBy(s, key)| &&
       x in GroupBy(s, key)[i] && x in GroupBy(s, key)[j]) ==> i == j
  {
    var keys := DistinctKeys(s, key);
    var n :| 0 <= n < |s| && s[n] == x;
    assert key(s[n]) == key(x);
    assert key(x) in keys;
    var i :| 0 <= i < |keys| && keys[i] == key(x);
    assert HasKey(key, keys[i])(x);
    assert x in GroupBy(s, key)[i];
  }

  /** `Skip(n)`: the suffix after the first `n` elements (all of them when `n <= 0`). */
  function Skip<T>(s: seq<T>, n: int): (r: seq<T>)
    ensures |r| == if n <= 0 then |s| else if n >= |s| then 0 else |s| - n
    ensures r == s[|s| - |r|..]
  {
    if n <= 0 then s else if n >= |s| then [] else s[n..]
  }

  /** `Take(n)`: the prefix of at most `n` elements (none when `n <= 0`). */
  function Take<T>(s: seq<T>, n: int): (r: seq<T>)
    ensures |r| == if n <= 0 then 0 else if n >= |s| then |s| else n
    ensures r == s[..|r|]
  {
    if n <= 0 then [] else if n >= |s| then s else s[..n]
  }

  /** The largest value of a 32-bit `int`. */
  const Int32Max: int := 0x7FFF_FFFF

  /**
   * An integer result as unchecked 32-bit `int` arithmetic leaves it: the
   * one value in the `int` range congruent to it modulo 2^32.
   */
  function WrapInt32(x: int): (r: int)
    ensures -Int32Max - 1 <= r <= Int32Max
    ensures (r - x) % 0x1_0000_0000 == 0
    ensures -Int32Max - 1 <= x <= Int32Max ==> r == x
    decreases if x > Int32Max then x else if x < -Int32Max - 1 then -x else 0
  {
    if x > Int32Max then WrapInt32(x - 0x1_0000_0000)
    else if x < -Int32Max - 1 then WrapInt32(x + 0x1_0000_0000)
    else x
  }

  /** The offset `(pageNumber - 1) * pageSize`, computed in unchecked 32-bit arithmetic. */
  function PageOffset(pageNumber: int, pageSize: int): int {
    WrapInt32((pageNumber - 1) * pageSize)
  }

  /** `Skip((pageNumber - 1) * pageSize).Take(pageSize)`. */
  function Page<T>(s: seq<T>, pageNumber: int, pageSize: int): seq<T> {
    Take(Skip(s, PageOffset(pageNumber, pageSize)), pageSize)
  }

  /**
   * For a page request the validators accept, the page is the slice of at
   * most `pageSize` elements starting at the offset, and the offset is
   * `(pageNumber - 1) * pageSize` whenever that product fits in an `int`.
   * An offset that wraps to a negative value skips nothing, so the request
   * is answered with the first page.
   */
  lemma PageIsSlice<T>(s: seq<T>, pageNumber: int, pageSize: int)
    requires pageNumber >= 1 && pageSize >= 1
    ensures (pageNumber - 1) * pageSize <= Int32Max ==> PageOffset(pageNumber, pageSize) == (pageNumber - 1) * pageSize
    ensures var off := PageOffset(pageNumber, pageSize);
      var lo := if off < 0 then 0 else off;
      var hi := lo + pageSize;
      |Page(s, pageNumber, pageSize)| <= pageSize &&
      Page(s, pageNumber, pageSize) ==
        if lo >= |s| then [] else if hi >= |s| then s[lo..] else s[lo..hi]
  {
    var product := (pageNumber - 1) * pageSize;
    assert product >= 0 by {
      assert pageNumber - 1 >= 0;
    }
    WindowIsSlice(s, PageOffset(pageNumber, pageSize), pageSize);
  }

  /** `Skip(off).Take(size)` for any offset: a negative one skips nothing. */
  lemma WindowIsSlice<T>(s: seq<T>, off: int, size: int)
    requires size >= 1
    ensures var lo := if off < 0 then 0 else off;
      var hi := lo + size;
      |Take(Skip(s, off), size)| <= size &&
      Take(Skip(s, off), size) ==
        if lo >= |s| then [] else if hi >= |s| then s[lo..] else s[lo..hi]
  {
  }

  /**
   * Page 1073741825 of size 2 asks for offset 2^31, which wraps to the
   * smallest `int`: the answer is the first two elements, not an empty page.
   */
  lemma WrappedOffsetAnswersFirstPage<T>(s: seq<T>)
    ensures PageOffset(1073741825, 2) == -Int32Max - 1
    ensures Page(s, 1073741825, 2) == Take(s, 2)
  {
    assert (1073741825 - 1) * 2 == 0x8000_0000;
  }

  /**
   * In a list the source can hold (its count is an `int`), the element at
   * index `i` is shown on page `i / pageSize + 1`, at position `i % pageSize`.
   */
  lemma PagesCover<T>(s: seq<T>, pageSize: int, i: int)
    requires |s| <= Int32Max
    requires pageSize >= 1 && 0 <= i < |s|
    ensures var p := Page(s, i / pageSize + 1, pageSize);
      i % pageSize < |p| && p[i % pageSize] == s[i]
  {
    var q, m := i / pageSize, i % pageSize;
    assert q * pageSize + m == i;
    assert q >= 0;
    assert q * pageSize >= 0;
    PageIsSlice(s, q + 1, pageSize);
  }

  /** `key` is nondecreasing along `s`. */
  predicate SortedBy<T>(s: seq<T>, key: T -> int) {
    forall i, j :: 0 <= i < j < |s| ==> key(s[i]) <= key(s[j])
  }

  /** Inserts `x` after every element whose key is not greater than its own. */
  function InsertBy<T>(x: T, s: seq<T>, key: T -> int): seq<T>
    decreases |s|
  {
    if s == [] then [x]
    else if key(s[|s| - 1]) <= key(x) then s + [x]
    else InsertBy(x, s[..|s| - 1], key) + [s[|s| - 1]]
  }

  /** The stable `OrderBy(key)`: an insertion sort taking the input from left to right. */
  function SortBy<T>(s: seq<T>, key: T -> int): seq<T>
    decreases |s|
  {
    if s == [] then [] else InsertBy(s[|s| - 1], SortBy(s[..|s| - 1], key), key)
  }

  lemma {:induction false} InsertByPermutes<T>(x: T, s: seq<T>, key: T -> int)
    ensures multiset(InsertBy(x, s, key)) == multiset(s) + multiset{x}
    decreases |s|
  {
    if s != [] && key(s[|s| - 1]) > key(x) {
      InsertByPermutes(x, s[..|s| - 1], key);
      InitAndLast(s);
    }
  }

  lemma {:induction false} InsertBySorted<T>(x: T, s: seq<T>, key: T -> int)
    requires SortedBy(s, key)
    ensures SortedBy(InsertBy(x, s, key), key)
    decreases |s|
  {
    if s != [] && key(s[|s| - 1]) > key(x) {
      var init, last := s[..|s| - 1], s[|s| - 1];
      InsertBySorted(x, init, key);
      var r := InsertBy(x, init, key);
      assert forall i :: 0 <= i < |init| ==> key(init[i]) <= key(last) by {
        forall i | 0 <= i < |init| ensures key(init[i]) <= key(last) {
          assert init[i] == s[i];
        }
      }
      InsertByBelow(x, init, key, key(last));
      forall i, j | 0 <= i < j < |r + [last]| ensures key((r + [last])[i]) <= key((r + [last])[j]) {
        if j == |r| {
          assert (r + [last])[i] in r;
        }
      }
    }
  }

  /** Inserting below a bound into elements below it stays below it. */
  lemma InsertByBelow<T>(x: T, s: seq<T>, key: T -> int, bound: int)
    requires key(x) <= bound
    requires forall i :: 0 <= i < |s| ==> key(s[i]) <= bound
    ensures forall y :: y in InsertBy(x, s, key) ==> key(y) <= bound
  {
    var r := InsertBy(x, s, key);
    InsertByPermutes(x, s, key);
    forall y | y in r ensures key(y) <= bound {
      assert y in multiset(r);
      if y != x {
        assert y in multiset(s);
        var k :| 0 <= k < |s| && s[k] == y;
      }
    }
  }

  /** `SortBy` orders by key and keeps exactly the input's elements. */
  lemma {:induction false} SortByCorrect<T>(s: seq<T>, key: T -> int)
    ensures SortedBy(SortBy(s, key), key)
    ensures multiset(SortBy(s, key)) == multiset(s)
    decreases |s|
  {
    if s != [] {
      var init := s[..|s| - 1];
      SortByCorrect(init, key);
      InsertBySorted(s[|s| - 1], SortBy(init, key), key);
      InsertByPermutes(s[|s| - 1], SortBy(init, key), key);
      InitAndLast(s);
    }
  }

  /** The elements of `s` whose key is `t`, in order. */
  function WithKey<T(==,!new)>(s: seq<T>, key: T -> int, t: int): seq<T> {
    Where(s, HasKey(key, t))
  }

  lemma WhereSingleton<T(!new)>(y: T, p: T -> bool)
    ensures Where([y], p) == if p(y) then [y] else []
  {
    assert [y][..0] == [];
  }

  lemma SwapEmpty<T>(a: seq<T>, u: seq<T>, v: seq<T>)
    requires u == [] || v == []
    ensures a + u + v == a + v + u
  {
  }

  lemma {:induction false} InsertByWhere<T(!new)>(x: T, s: seq<T>, key: T -> int, t: int)
    ensures Where(InsertBy(x, s, key), HasKey(key, t)) == Where(s, HasKey(key, t)) + Where([x], HasKey(key, t))
    decreases |s|
  {
    var p := HasKey(key, t);
    if s == [] {
      assert InsertBy(x, s, key) == [x];
    } else {
      var init, last := s[..|s| - 1], s[|s| - 1];
      assert s == init + [last];
      if key(last) <= key(x) {
        WhereConcat(s, [x], p);
      } else {
        var r := InsertBy(x, init, key);
        assert InsertBy(x, s, key) == r + [last];
        InsertByWhere(x, init, key, t);
        WhereConcat(r, [last], p);
        WhereConcat(init, [last], p);
        WhereSingleton(x, p);
        WhereSingleton(last, p);
        SwapEmpty(Where(init, p), Where([x], p), Where([last], p));
      }
    }
  }

  lemma InsertByWithKey<T(!new)>(x: T, s: seq<T>, key: T -> int, t: int)
    ensures WithKey(InsertBy(x, s, key), key, t) == WithKey(s, key, t) + WithKey([x], key, t)
  {
    InsertByWhere(x, s, key, t);
  }

  /**
   * `SortBy` is stable: for every key, the elements with that key keep their
   * relative input order.
   */
  lemma {:induction false} SortByStable<T(!new)>(s: seq<T>, key: T -> int, t: int)
    ensures WithKey(SortBy(s, key), key, t) == WithKey(s, key, t)
    decreases |s|
  {
    if s != [] {
      var init := s[..|s| - 1];
      SortByStable(init, key, t);
      InsertByWithKey(s[|s| - 1], SortBy(init, key), key, t);
      WhereConcat(init, [s[|s| - 1]], HasKey(key, t));
      assert s == init + [s[|s| - 1]];
    }
  }

  /** An input already in key order is returned as given. */
  lemma {:induction false} SortByKeepsSorted<T>(s: seq<T>, key: T -> int)
    requires SortedBy(s, key)
    ensures SortBy(s, key) == s
    decreases |s|
  {
    if s != [] {
      var n := |s| - 1;
      var init := s[..n];
      assert SortedBy(init, key);
      SortByKeepsSorted(init, key);
      assert SortBy(s, key) == InsertBy(s[n], init, key);
      if n > 0 {
        assert init[n - 1] == s[n - 1];
        assert key(init[n - 1]) <= key(s[n]);
      }
      assert init + [s[n]] == s;
    }
  }

  /** Every element of the sorted sequence comes from the input. */
  lemma SortByMembers<T>(s: seq<T>, key: T -> int, x: T)
    requires x in SortBy(s, key)
    ensures x in s
  {
    SortByCorrect(s, key);
    assert x in multiset(SortBy(s, key));
  }

  /** `Select(f)`: `f` applied to each element, in order. */
  function Select<T, U>(s: seq<T>, f: T -> U): (r: seq<U>)
    ensures |r| == |s|
    ensures forall i :: 0 <= i < |s| ==> r[i] == f(s[i])
  {
    seq(|s|, i requires 0 <= i < |s| => f(s[i]))
  }

  /** Two elements with one key make one group holding both, in order. */
  lemma GroupByPair<T(!new), K(!new)>(a: T, b: T, key: T -> K)
    requires key(a) == key(b)
    ensures GroupBy([a, b], key) == [[a, b]]
  {
    assert [a, b][..1] == [a];
    assert DistinctKeys([a], key) == [key(a)] by {
      assert [a][..0] == [];
    }
    assert DistinctKeys([a, b], key) == [key(a)];
    assert Where([a], HasKey(key, key(a))) == [a] by {
      assert [a][..0] == [];
    }
    assert Where([a, b], HasKey(key, key(a))) == [a, b];
  }

  /** Filtering then mapping one more element appends its image when it passes. */
  lemma SelectWhereSnoc<T(!new), U>(s: seq<T>, p: T -> bool, f: T -> U)
    requires s != []
    ensures var n := |s| - 1;
      Select(Where(s, p), f) == Select(Where(s[..n], p), f) + (if p(s[n]) then [f(s[n])] else [])
  {
    var n := |s| - 1;
    if p(s[n]) {
      SelectSnoc(Where(s[..n], p), s[n], f);
    }
  }

  /** Mapping one more element appends its image. */
  lemma SelectSnoc<T, U>(s: seq<T>, x: T, f: T -> U)
    ensures Select(s + [x], f) == Select(s, f) + [f(x)]
  {
    assert forall i :: 0 <= i < |s| ==> (s + [x])[i] == s[i];
  }

  /** A `foreach` that updates one accumulator with each element in turn. */
  function FoldLeft<S, T>(f: (S, T) -> S, s: S, xs: seq<T>): S
    decreases |xs|
  {
    if xs == [] then s else f(FoldLeft(f, s, xs[..|xs| - 1]), xs[|xs| - 1])
  }

  /** `PaginatedList<T>(items, count, pageNumber, pageSize)`: one page and the size of the whole list. */
  datatype PaginatedList<T> = PaginatedList(items: seq<T>, totalCount: int, pageNumber: int, pageSize: int)

  /** The page of `s` requested by `pageNumber` and `pageSize`, with `s`'s length as its total. */
  function Paginate<T>(s: seq<T>, pageNumber: int, pageSize: int): PaginatedList<T> {
    PaginatedList(Page(s, pageNumber, pageSize), |s|, pageNumber, pageSize)
  }

  /** A weaker filter keeps at least as many elements. */
  lemma {:induction false} WhereMonotone<T(!new)>(s: seq<T>, p: T -> bool, q: T -> bool)
    requires forall x :: p(x) ==> q(x)
    ensures |Where(s, p)| <= |Where(s, q)|
    decreases |s|
  {
    if s != [] {
      WhereMonotone(s[..|s| - 1], p, q);
    }
  }

  /** A filter no element passes keeps nothing. */
  lemma {:induction false} WhereNone<T(!new)>(s: seq<T>, p: T -> bool)
    requires forall x :: x in s ==> !p(x)
    ensures Where(s, p) == []
    decreases |s|
  {
    if s != [] {
      WhereNone(s[..|s| - 1], p);
      assert s[|s| - 1] in s;
    }
  }

  /** A filter every element passes keeps everything. */
  lemma {:induction false} WhereAll<T(!new)>(s: seq<T>, p: T -> bool)
    requires forall i :: 0 <= i < |s| ==> p(s[i])
    ensures Where(s, p) == s
    decreases |s|
  {
    if s != [] {
      var n := |s| - 1;
      assert forall i :: 0 <= i < n ==> p(s[..n][i]) by {
        forall i | 0 <= i < n ensures p(s[..n][i]) {
          assert s[..n][i] == s[i];
        }
      }
      WhereAll(s[..n], p);
      assert p(s[n]);
      InitAndLast(s);
    }
  }

  /** A non-empty sequence is its initial part followed by its last element. */
  lemma InitAndLast<T>(s: seq<T>)
    requires s != []
    ensures s[..|s| - 1] + [s[|s| - 1]] == s
  {
  }

  /** Appending in two steps is appending the two parts at once. */
  lemma AppendAssoc<T>(a: seq<T>, b: seq<T>, c: seq<T>)
    ensures (a + b) + c == a + (b + c)
  {
  }

  /** Cutting out `i` before or after dropping the last element. */
  lemma SlicesOfInit<T>(s: seq<T>, i: nat)
    requires i + 1 < |s|
    ensures var n := |s| - 1; s[..n][..i] + s[..n][i + 1..] + [s[n]] == s[..i] + s[i + 1..]
  {
    var n := |s| - 1;
    assert s[..n][..i] == s[..i];
    assert s[..n][i + 1..] + [s[n]] == s[i + 1..];
  }

  /** `FindIndex`: the position of the first element satisfying `p`, or -1. */
  function FirstWhere<T>(s: seq<T>, p: T -> bool): (r: int)
    ensures -1 <= r < |s|
    ensures r == -1 <==> forall i :: 0 <= i < |s| ==> !p(s[i])
    ensures r >= 0 ==> p(s[r]) && forall i :: 0 <= i < r ==> !p(s[i])
    decreases |s|
  {
    if s == [] then -1
    else if p(s[0]) then 0
    else
      var k := FirstWhere(s[1..], p);
      if k == -1 then -1 else k + 1
  }

  /** Two filters in a row are one filter by both. */
  lemma {:induction false} WhereWhere<T(!new)>(s: seq<T>, p: T -> bool, q: T -> bool, both: T -> bool)
    requires forall x :: both(x) == (p(x) && q(x))
    ensures Where(Where(s, p), q) == Where(s, both)
    decreases |s|
  {
    if s != [] {
      var n := |s| - 1;
      WhereWhere(s[..n], p, q, both);
      WhereConcat(Where(s[..n], p), if p(s[n]) then [s[n]] else [], q);
    }
  }

  /** Two filters that agree on every element keep the same elements. */
  lemma {:induction false} WhereSame<T(!new)>(s: seq<T>, p: T -> bool, q: T -> bool)
    requires forall x :: p(x) == q(x)
    ensures Where(s, p) == Where(s, q)
    decreases |s|
  {
    if s != [] {
      WhereSame(s[..|s| - 1], p, q);
    }
  }

  /** `List.Remove(x)`: the first element equal to `x` is dropped; without one, nothing changes. */
  function RemoveValue<T(==)>(s: seq<T>, x: T): (r: seq<T>)
    ensures multiset(r) == multiset(s) - multiset{x}
    ensures x in s ==> |r| == |s| - 1
    ensures x !in s ==> r == s
    decreases |s|
  {
    if s == [] then []
    else if s[0] == x then
      assert s == [s[0]] + s[1..];
      s[1..]
    else
      assert s == [s[0]] + s[1..];
      [s[0]] + RemoveValue(s[1..], x)
  }

  /** A `foreach` calling `List.Remove` with each element of `xs` in turn. */
  function RemoveEach<T(==)>(s: seq<T>, xs: seq<T>): seq<T>
    decreases |xs|
  {
    if xs == [] then s else RemoveEach(RemoveValue(s, xs[0]), xs[1..])
  }

  /** Removing each of `xs` in turn takes away, per value, as many copies as `xs` holds (or all there are). */
  lemma {:induction false} RemoveEachMultiset<T>(s: seq<T>, xs: seq<T>)
    ensures multiset(RemoveEach(s, xs)) == multiset(s) - multiset(xs)
    decreases |xs|
  {
    if xs != [] {
      RemoveEachMultiset(RemoveValue(s, xs[0]), xs[1..]);
      MultisetOfCons(xs);
      DifferenceOfDifference(multiset(s), multiset{xs[0]}, multiset(xs[1..]));
    }
  }

  /** When `r` is `s` less the elements of `m`, an element `s` holds at most once and `m` holds is gone. */
  lemma RemovedCopyGone<T>(s: seq<T>, m: seq<T>, r: seq<T>, x: T)
    requires multiset(r) == multiset(s) - multiset(m)
    requires x in m && multiset(s)[x] <= 1
    ensures x !in r
  {
    assert multiset(m)[x] >= 1;
    assert multiset(r)[x] == 0;
  }

  /** A non-empty sequence's multiset is its head's plus its tail's. */
  lemma MultisetOfCons<T>(xs: seq<T>)
    requires xs != []
    ensures multiset(xs) == multiset{xs[0]} + multiset(xs[1..])
  {
    assert xs == [xs[0]] + xs[1..];
  }

  /** Taking away `b` and then `c` is taking away `b + c`. */
  lemma DifferenceOfDifference<T>(a: multiset<T>, b: multiset<T>, c: multiset<T>)
    ensures (a - b) - c == a - (b + c)
  {
    forall x ensures ((a - b) - c)[x] == (a - (b + c))[x] {
    }
  }

  /** A filter that all elements but the one at `i` pass removes that one. */
  lemma {:induction false} WhereDropsOne<T(!new)>(s: seq<T>, p: T -> bool, i: nat)
    requires i < |s| && !p(s[i])
    requires forall k :: 0 <= k < |s| && k != i ==> p(s[k])
    ensures Where(s, p) == s[..i] + s[i + 1..]
    decreases |s|
  {
    var n := |s| - 1;
    var init := s[..n];
    assert Where(s, p) == Where(init, p) + (if p(s[n]) then [s[n]] else []);
    assert forall k :: 0 <= k < n ==> init[k] == s[k];
    if i == n {
      WhereAll(init, p);
      assert s[..i] + s[i + 1..] == init;
    } else {
      WhereDropsOne(init, p, i);
      SlicesOfInit(s, i);
    }
  }

  /** Every element of a page comes from the paged sequence. */
  lemma PageMember<T>(s: seq<T>, pageNumber: int, pageSize: int, x: T)
    requires x in Page(s, pageNumber, pageSize)
    ensures x in s
  {
    var skipped := Skip(s, PageOffset(pageNumber, pageSize));
    assert x in skipped;
  }

  /**
   * The elements with key `k` form one of the groups `keep` retains exactly
   * when there are some and `keep` accepts them.
   */
  lemma KeptGroupIff<T(!new), K(!new)>(s: seq<T>, key: T -> K, k: K, keep: seq<T> -> bool)
    ensures Where(s, HasKey(key, k)) in Where(GroupBy(s, key), keep) <==>
      Where(s, HasKey(key, k)) != [] && keep(Where(s, HasKey(key, k)))
  {
    var groups := GroupBy(s, key);
    var keys := DistinctKeys(s, key);
    var g := Where(s, HasKey(key, k));
    if g != [] && keep(g) {
      assert g[0] in s;
      var n :| 0 <= n < |s| && s[n] == g[0];
      assert HasKey(key, k)(s[n]);
      assert k in keys;
      var i :| 0 <= i < |keys| && keys[i] == k;
      assert groups[i] == g;
    }
    if g in Where(groups, keep) {
      assert g in groups;
      var i :| 0 <= i < |groups| && groups[i] == g;
      GroupByGroups(s, key, i);
    }
  }
}
