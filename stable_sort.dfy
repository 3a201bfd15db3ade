/** `Array.prototype.sort` with a numeric comparator, and `slice(0, 5)` after it.
    JavaScript's sort is stable: elements the comparator calls equal keep their
    relative order. A comparator `(a, b) => f(a) - f(b)` sorts by the integer key
    `f` ascending; `(a, b) => f(b) - f(a)` is the same sort with the key `-f`.
    The model sorts by insertion; StableSortUnique shows that every sorted,
    stable rearrangement of a sequence is this one, so the algorithm the
    JavaScript engine uses makes no difference. The module also holds the
    sequence relations the filters are stated with. */
module StableSort {

  function Min(a: int, b: int): int { if a <= b then a else b }

  /** The elements of `s` whose key is `k`, in their order in `s`. A sort is
      stable when it leaves every such subsequence unchanged. */
  function WithKey<T>(s: seq<T>, key: T -> int, k: int): seq<T>
  {
    if s == [] then []
    else (if key(s[0]) == k then [s[0]] else []) + WithKey(s[1..], key, k)
  }

  predicate SortedBy<T>(s: seq<T>, key: T -> int)
  {
    forall i, j :: 0 <= i < j < |s| ==> key(s[i]) <= key(s[j])
  }

  ghost predicate NoDup<T>(s: seq<T>)
  {
    forall i, j :: 0 <= i < j < |s| ==> s[i] != s[j]
  }

  /** `a` is `b` with some elements left out, the rest in their order: what
      `Array.prototype.filter` returns. */
  predicate Subseq<T(==)>(a: seq<T>, b: seq<T>)
    decreases |b|
  {
    if a == [] then true
    else if b == [] then false
    else if a[0] == b[0] then Subseq(a[1..], b[1..])
    else Subseq(a, b[1..])
  }

  /** Inserts `x` in front of the first element whose key is not smaller. */
  function Insert<T>(x: T, s: seq<T>, key: T -> int): (r: seq<T>)
    ensures |r| == |s| + 1
    ensures multiset(r) == multiset(s) + multiset{x}
  {
    if s == [] || key(x) <= key(s[0]) then [x] + s
    else
      assert s == [s[0]] + s[1..];
      [s[0]] + Insert(x, s[1..], key)
  }

  lemma {:induction false} InsertSorted<T>(x: T, s: seq<T>, key: T -> int)
    requires SortedBy(s, key)
    ensures SortedBy(Insert(x, s, key), key)
  {
    if s != [] && key(x) > key(s[0]) {
      var tail := Insert(x, s[1..], key);
      InsertSorted(x, s[1..], key);
      forall j | 0 <= j < |tail| ensures key(s[0]) <= key(tail[j]) {
        assert tail[j] in multiset(tail);
        if tail[j] != x {
          assert tail[j] in multiset(s[1..]);
          var i :| 0 <= i < |s[1..]| && s[1..][i] == tail[j];
          assert s[1..][i] == s[i + 1];
        }
      }
      var r := [s[0]] + tail;
      forall i, j | 0 <= i < j < |r| ensures key(r[i]) <= key(r[j]) {
        if i > 0 {
          assert r[i] == tail[i - 1] && r[j] == tail[j - 1];
        } else {
          assert r[j] == tail[j - 1];
        }
      }
    }
  }

  /** Inserting `x` adds it at the head of its own key's subsequence and leaves
      every other key's subsequence alone. */
  lemma {:induction false} InsertWithKey<T>(x: T, s: seq<T>, key: T -> int, k: int)
    ensures WithKey(Insert(x, s, key), key, k) == (if key(x) == k then [x] else []) + WithKey(s, key, k)
  {
    if s == [] || key(x) <= key(s[0]) {
      assert ([x] + s)[1..] == s;
    } else {
      var tail := Insert(x, s[1..], key);
      InsertWithKey(x, s[1..], key, k);
      assert ([s[0]] + tail)[1..] == tail;
      var head := if key(s[0]) == k then [s[0]] else [];
      var mine := if key(x) == k then [x] else [];
      assert WithKey(s, key, k) == head + WithKey(s[1..], key, k);
      assert WithKey([s[0]] + tail, key, k) == head + (mine + WithKey(s[1..], key, k));
      assert head == [] || mine == [];
    }
  }

  /** Stable sort by ascending `key`. */
  function SortBy<T>(s: seq<T>, key: T -> int): (r: seq<T>)
    ensures |r| == |s|
    ensures multiset(r) == multiset(s)
    ensures SortedBy(r, key)
    ensures forall k :: WithKey(r, key, k) == WithKey(s, key, k)
  {
    if s == [] then []
    else
      var t := SortBy(s[1..], key);
      assert s == [s[0]] + s[1..];
      InsertSorted(s[0], t, key);
      forall k ensures WithKey(Insert(s[0], t, key), key, k) == WithKey(s, key, k) {
        InsertWithKey(s[0], t, key, k);
      }
      Insert(s[0], t, key)
  }

  lemma {:induction false} WithKeyMembers<T>(s: seq<T>, key: T -> int, k: int, x: T)
    ensures x in WithKey(s, key, k) <==> x in s && key(x) == k
  {
    if s != [] {
      WithKeyMembers(s[1..], key, k, x);
      assert s == [s[0]] + s[1..];
    }
  }

  lemma OwnKeyPresent<T>(s: seq<T>, key: T -> int)
    ensures s != [] ==> WithKey(s, key, key(s[0])) != []
  {
  }

  /** Sortedness and stability pin the result down: two sorted sequences whose
      elements of each key come in the same order are equal. Hence every stable
      sort of `s` by `key` is `SortBy(s, key)`. */
  lemma {:induction false} StableSortUnique<T>(a: seq<T>, b: seq<T>, key: T -> int)
    requires SortedBy(a, key) && SortedBy(b, key)
    requires forall k :: WithKey(a, key, k) == WithKey(b, key, k)
    ensures a == b
  {
    if a == [] || b == [] {
      OwnKeyPresent(a, key);
      OwnKeyPresent(b, key);
    } else {
      var ka, kb := key(a[0]), key(b[0]);
      assert WithKey(a, key, ka)[0] == a[0];
      WithKeyMembers(b, key, ka, a[0]);
      var i :| 0 <= i < |b| && b[i] == a[0];
      assert kb <= ka;
      assert WithKey(b, key, kb)[0] == b[0];
      WithKeyMembers(a, key, kb, b[0]);
      var j :| 0 <= j < |a| && a[j] == b[0];
      assert ka <= kb;
      assert a[0] == b[0];
      forall k ensures WithKey(a[1..], key, k) == WithKey(b[1..], key, k) {
        var pre := if ka == k then [a[0]] else [];
        assert WithKey(a, key, k) == pre + WithKey(a[1..], key, k);
        assert WithKey(b, key, k) == pre + WithKey(b[1..], key, k);
        assert (pre + WithKey(a[1..], key, k))[|pre|..] == WithKey(a[1..], key, k);
        assert (pre + WithKey(b[1..], key, k))[|pre|..] == WithKey(b[1..], key, k);
      }
      StableSortUnique(a[1..], b[1..], key);
      assert a == [a[0]] + a[1..] && b == [b[0]] + b[1..];
    }
  }

  /** Taking a prefix of a sequence takes a prefix of each key's subsequence. */
  lemma {:induction false} WithKeyPrefix<T>(s: seq<T>, n: nat, key: T -> int, k: int)
    requires n <= |s|
    ensures var p := WithKey(s[..n], key, k); |p| <= |WithKey(s, key, k)| && WithKey(s, key, k)[..|p|] == p
  {
    if n > 0 {
      WithKeyPrefix(s[1..], n - 1, key, k);
      assert s[..n][1..] == s[1..][..n - 1];
    }
  }

  /** Whatever a sorted sequence's prefix leaves out has a key at least that
      of the prefix's last element. */
  lemma PrefixOmitsLargerKeys<T>(t: seq<T>, n: nat, key: T -> int)
    requires 0 < n <= |t| && SortedBy(t, key)
    ensures multiset(t[..n]) <= multiset(t)
    ensures forall x :: x in multiset(t) - multiset(t[..n]) ==> key(t[n - 1]) <= key(x)
  {
    assert t == t[..n] + t[n..];
    assert multiset(t) == multiset(t[..n]) + multiset(t[n..]);
    forall x | x in multiset(t) - multiset(t[..n]) ensures key(t[n - 1]) <= key(x) {
      assert x in multiset(t[n..]);
      var j :| 0 <= j < |t[n..]| && t[n..][j] == x;
      assert t[n + j] == x;
    }
  }

  /** `[...s].sort(by key).slice(0, 5)`: the five elements of smallest key,
      ties going to the element that comes first in `s`. */
  function TopFive<T>(s: seq<T>, key: T -> int): (r: seq<T>)
    ensures |r| == Min(5, |s|)
    ensures SortedBy(r, key)
    ensures multiset(r) <= multiset(s)
    ensures forall x :: x in multiset(s) - multiset(r) ==> key(r[|r| - 1]) <= key(x)
    ensures forall k :: var p := WithKey(r, key, k); |p| <= |WithKey(s, key, k)| && WithKey(s, key, k)[..|p|] == p
  {
    var t := SortBy(s, key);
    var n := Min(5, |s|);
    if n == 0 then []
    else
      PrefixOmitsLargerKeys(t, n, key);
      forall k ensures var p := WithKey(t[..n], key, k); |p| <= |WithKey(s, key, k)| && WithKey(s, key, k)[..|p|] == p {
        WithKeyPrefix(t, n, key, k);
      }
      t[..n]
  }

  lemma {:induction false} NoDupCount<T>(s: seq<T>, x: T)
    requires NoDup(s)
    ensures multiset(s)[x] <= 1
  {
    if s != [] {
      assert s == [s[0]] + s[1..];
      assert NoDup(s[1..]) by {
        forall i, j | 0 <= i < j < |s[1..]| ensures s[1..][i] != s[1..][j] {
          assert s[1..][i] == s[i + 1] && s[1..][j] == s[j + 1];
        }
      }
      NoDupCount(s[1..], x);
      if s[0] == x {
        assert x !in s[1..] by {
          forall i | 0 <= i < |s[1..]| ensures s[1..][i] != x {
            assert s[1..][i] == s[i + 1];
          }
        }
      }
    }
  }

  /** A sub-multiset of a duplicate-free sequence is duplicate free: a top-five
      list drawn from distinct players lists each of them at most once. */
  lemma NoDupSubMultiset<T>(r: seq<T>, s: seq<T>)
    requires NoDup(s) && multiset(r) <= multiset(s)
    ensures NoDup(r)
  {
    forall i, j | 0 <= i < j < |r| ensures r[i] != r[j] {
      if r[i] == r[j] {
        assert r == r[..j] + r[j..];
        assert r[i] in multiset(r[..j]);
        assert r[j] in multiset(r[j..]);
        assert multiset(r)[r[i]] >= 2;
        NoDupCount(s, r[i]);
        assert false;
      }
    }
  }

  /** The ranks of `s` increase strictly along it. */
  predicate Ranked<T>(s: seq<T>, rank: T -> int)
  {
    forall i, j :: 0 <= i < j < |s| ==> rank(s[i]) < rank(s[j])
  }

  lemma RankedTail<T>(s: seq<T>, rank: T -> int)
    requires s != [] && Ranked(s, rank)
    ensures Ranked(s[1..], rank)
    ensures forall x :: x in s[1..] ==> rank(s[0]) < rank(x)
  {
    var t := s[1..];
    forall i, j | 0 <= i < j < |t| ensures rank(t[i]) < rank(t[j]) {
      assert t[i] == s[i + 1] && t[j] == s[j + 1];
    }
    forall x | x in t ensures rank(s[0]) < rank(x) {
      var m :| 0 <= m < |t| && t[m] == x;
      assert t[m] == s[m + 1];
    }
  }

  lemma RankedCons<T>(x: T, t: seq<T>, rank: T -> int)
    requires Ranked(t, rank) && forall y :: y in t ==> rank(x) < rank(y)
    ensures Ranked([x] + t, rank)
  {
    var w := [x] + t;
    forall i, j | 0 <= i < j < |w| ensures rank(w[i]) < rank(w[j]) {
      assert w[j] == t[j - 1] && w[j] in t;
      if i > 0 {
        assert w[i] == t[i - 1];
      }
    }
  }

  /** Each key's subsequence of a sequence whose ranks increase has increasing
      ranks too. */
  lemma {:induction false} WithKeyRanked<T>(s: seq<T>, key: T -> int, k: int, rank: T -> int)
    requires Ranked(s, rank)
    ensures Ranked(WithKey(s, key, k), rank)
  {
    if s != [] {
      var t := s[1..];
      RankedTail(s, rank);
      WithKeyRanked(t, key, k, rank);
      var rest := WithKey(t, key, k);
      if key(s[0]) == k {
        forall y | y in rest ensures rank(s[0]) < rank(y) {
          WithKeyMembers(t, key, k, y);
        }
        RankedCons(s[0], rest, rank);
      }
    }
  }

  /** Two elements of the same key appear in that key's subsequence in the
      order they have in the sequence. */
  lemma {:induction false} WithKeyPositions<T>(s: seq<T>, key: T -> int, i: int, j: int)
    requires 0 <= i < j < |s| && key(s[i]) == key(s[j])
    ensures var w := WithKey(s, key, key(s[i]));
      exists p, q :: 0 <= p < q < |w| && w[p] == s[i] && w[q] == s[j]
  {
    var k := key(s[i]);
    var t := s[1..];
    var rest := WithKey(t, key, k);
    if i == 0 {
      assert t[j - 1] == s[j];
      WithKeyMembers(t, key, k, s[j]);
      var q :| 0 <= q < |rest| && rest[q] == s[j];
      var w := [s[0]] + rest;
      assert WithKey(s, key, k) == w;
      assert 0 < q + 1 < |w| && w[0] == s[0] && w[q + 1] == s[j];
    } else {
      assert t[i - 1] == s[i] && t[j - 1] == s[j];
      WithKeyPositions(t, key, i - 1, j - 1);
      var p, q :| 0 <= p < q < |rest| && rest[p] == s[i] && rest[q] == s[j];
      var pre := if key(s[0]) == k then [s[0]] else [];
      var w := pre + rest;
      assert WithKey(s, key, k) == w;
      assert 0 <= p + |pre| < q + |pre| < |w| && w[p + |pre|] == s[i] && w[q + |pre|] == s[j];
    }
  }

  /** A stable sort of a sequence ranked in increasing order keeps equal-key
      elements in rank order. */
  lemma StableKeepsRank<T>(s: seq<T>, r: seq<T>, key: T -> int, rank: T -> int, i: int, j: int)
    requires Ranked(s, rank)
    requires forall k :: WithKey(r, key, k) == WithKey(s, key, k)
    requires 0 <= i < j < |r| && key(r[i]) == key(r[j])
    ensures rank(r[i]) < rank(r[j])
  {
    var k := key(r[i]);
    WithKeyPositions(r, key, i, j);
    WithKeyRanked(s, key, k, rank);
    var w := WithKey(r, key, k);
    var p, q :| 0 <= p < q < |w| && w[p] == r[i] && w[q] == r[j];
    assert w == WithKey(s, key, k);
  }
}
