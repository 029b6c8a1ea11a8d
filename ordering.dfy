/** The database queries of the server actions: `findMany({ where, orderBy: { createdAt: "desc" }, take })`
    over a table held as a map from row id to row. The table's own row order is not specified, so the
    rows are read out of the map in an arbitrary order, then filtered and sorted newest first. */
module Ordering {

  /** Rows ordered by their timestamp, newest first. Rows with equal timestamps may come in any order. */
  predicate NewestFirst<T>(s: seq<T>, key: T -> int) {
    forall i, j :: 0 <= i < j < |s| ==> key(s[i]) >= key(s[j])
  }

  /** No row appears twice. */
  ghost predicate Distinct<T>(s: seq<T>) {
    forall i, j :: 0 <= i < j < |s| ==> s[i] != s[j]
  }

  /** No two keys of the table hold the same row: true of every table whose rows carry their own id. */
  ghost predicate Injective<K, V>(m: map<K, V>) {
    forall k1, k2 :: k1 in m && k2 in m && m[k1] == m[k2] ==> k1 == k2
  }

  /** A table whose rows carry their own key holds no row under two keys. */
  lemma KeyedInjective<K, V>(m: map<K, V>, keyOf: V -> K)
    requires forall k :: k in m ==> keyOf(m[k]) == k
    ensures Injective(m)
  {
    forall k1, k2 | k1 in m && k2 in m && m[k1] == m[k2] ensures k1 == k2 {
      assert keyOf(m[k1]) == k1 && keyOf(m[k2]) == k2;
    }
  }

  /** A sequence has no repeated row exactly when each row occurs in it at most once. */
  lemma {:induction false} DistinctCounts<T>(s: seq<T>)
    ensures Distinct(s) <==> forall x :: multiset(s)[x] <= 1
  {
    if s != [] {
      DistinctCounts(s[1..]);
      assert s == [s[0]] + s[1..];
      assert multiset(s) == multiset{s[0]} + multiset(s[1..]);
      if Distinct(s) {
        assert s[0] !in s[1..] by {
          forall j | 0 <= j < |s[1..]| ensures s[1..][j] != s[0] {
            assert s[1..][j] == s[j + 1];
          }
        }
        assert Distinct(s[1..]) by {
          forall i, j | 0 <= i < j < |s[1..]| ensures s[1..][i] != s[1..][j] {
            assert s[1..][i] == s[i + 1] && s[1..][j] == s[j + 1];
          }
        }
      }
      if forall x :: multiset(s)[x] <= 1 {
        assert multiset(s)[s[0]] <= 1;
        assert multiset(s[1..])[s[0]] == 0;
        assert forall x :: multiset(s[1..])[x] <= multiset(s)[x];
        assert Distinct(s[1..]);
        forall i, j | 0 <= i < j < |s| ensures s[i] != s[j] {
          if i == 0 {
            assert s[j] in s[1..];
          } else {
            assert s[i] == s[1..][i - 1] && s[j] == s[1..][j - 1];
          }
        }
      }
    }
  }

  /** In a sequence without repeats each row occurs once or not at all. */
  lemma DistinctMultiset<T>(s: seq<T>)
    requires Distinct(s)
    ensures forall x :: multiset(s)[x] == if x in s then 1 else 0
  {
    DistinctCounts(s);
  }

  /** Two sequences without repeats, the second holding the rows of the first except `x`: as
      multisets, the second is the first with `x` taken out. */
  lemma DistinctMinus<T>(a: seq<T>, b: seq<T>, x: T)
    requires Distinct(a) && Distinct(b)
    requires forall y :: y in b <==> y in a && y != x
    ensures multiset(b) == multiset(a) - multiset{x}
  {
    DistinctMultiset(a);
    DistinctMultiset(b);
    assert forall y :: multiset(b)[y] == (multiset(a) - multiset{x})[y];
  }

  /** A sequence without repeats has as many rows as the set of its rows. */
  lemma {:induction false} DistinctCard<T>(s: seq<T>)
    requires Distinct(s)
    ensures |set x | x in s| == |s|
  {
    if s != [] {
      var rest := s[1..];
      assert Distinct(rest) by {
        forall i, j | 0 <= i < j < |rest| ensures rest[i] != rest[j] {
          assert rest[i] == s[i + 1] && rest[j] == s[j + 1];
        }
      }
      DistinctCard(rest);
      assert s[0] !in rest by {
        forall j | 0 <= j < |rest| ensures rest[j] != s[0] {
          assert rest[j] == s[j + 1];
        }
      }
      assert (set x | x in s) == {s[0]} + (set x | x in rest);
    }
  }

  /** Puts `x` into a newest-first sequence in front of the first row that is not newer than it. */
  function Insert<T>(x: T, s: seq<T>, key: T -> int): (r: seq<T>)
    requires NewestFirst(s, key)
    ensures NewestFirst(r, key)
    ensures multiset(r) == multiset(s) + multiset{x}
    ensures |r| == |s| + 1 && (r[0] == x || (s != [] && r[0] == s[0]))
  {
    if s == [] || key(x) >= key(s[0]) then
      [x] + s
    else
      var rest := Insert(x, s[1..], key);
      assert s == [s[0]] + s[1..];
      assert key(rest[0]) <= key(s[0]);
      [s[0]] + rest
  }

  /** `orderBy: { createdAt: "desc" }`: the same rows, newest first. */
  function SortNewestFirst<T>(s: seq<T>, key: T -> int): (r: seq<T>)
    ensures NewestFirst(r, key)
    ensures multiset(r) == multiset(s)
  {
    if s == [] then []
    else
      assert s == [s[0]] + s[1..];
      Insert(s[0], SortNewestFirst(s[1..], key), key)
  }

  /** `where`: the rows that satisfy `p`, in their order. */
  function Where<T(!new)>(s: seq<T>, p: T -> bool): (r: seq<T>)
    ensures |r| <= |s|
    ensures forall x :: x in r <==> x in s && p(x)
    ensures Distinct(s) ==> Distinct(r)
  {
    if s == [] then []
    else if p(s[0]) then [s[0]] + Where(s[1..], p)
    else Where(s[1..], p)
  }

  /** `take: n`: the first `n` rows, or all of them when there are fewer. */
  function Take<T>(s: seq<T>, n: nat): (r: seq<T>)
    ensures |r| == if |s| < n then |s| else n
    ensures r == s[..|r|]
  {
    if |s| <= n then s else s[..n]
  }

  /** The rows of a table, each key's row once, in an unspecified order. */
  ghost function Rows<K, V(!new)>(m: map<K, V>): (r: seq<V>)
    ensures forall v :: v in r <==> v in m.Values
    ensures Injective(m) ==> Distinct(r)
    decreases |m|
  {
    if |m| == 0 then []
    else
      var k :| k in m;
      var rest := m - {k};
      assert m.Keys == rest.Keys + {k};
      assert forall v :: v in m.Values <==> v == m[k] || v in rest.Values by {
        forall v | v in m.Values ensures v == m[k] || v in rest.Values {
          var k' :| k' in m && m[k'] == v;
          if k' != k { assert k' in rest; }
        }
      }
      assert Injective(m) ==> m[k] !in rest.Values;
      [m[k]] + Rows(rest)
  }

  /** `findMany({ where: p, orderBy: { createdAt: "desc" } })`: exactly the rows of the table that
      satisfy `p`, newest first. */
  ghost function FindManyNewestFirst<K, V(!new)>(m: map<K, V>, p: V -> bool, key: V -> int): (r: seq<V>)
    ensures NewestFirst(r, key)
    ensures forall v :: v in r <==> v in m.Values && p(v)
  {
    var s := Where(Rows(m), p);
    var r := SortNewestFirst(s, key);
    assert forall v :: v in r <==> v in multiset(r);
    assert forall v :: v in s <==> v in multiset(s);
    r
  }

  /** When no two keys hold the same row, `findMany` lists each matching row once. */
  lemma FindManyDistinct<K, V(!new)>(m: map<K, V>, p: V -> bool, key: V -> int)
    requires Injective(m)
    ensures Distinct(FindManyNewestFirst(m, p, key))
  {
    var s := Where(Rows(m), p);
    DistinctCounts(s);
    DistinctCounts(FindManyNewestFirst(m, p, key));
  }

  /** A prefix of a sequence without repeats has none either. */
  lemma TakeDistinct<T>(s: seq<T>, n: nat)
    requires Distinct(s)
    ensures Distinct(Take(s, n))
  {
    assert forall i :: 0 <= i < |Take(s, n)| ==> Take(s, n)[i] == s[i];
  }

  /** Taking a prefix of a newest-first sequence keeps the newest rows: every row left out is no
      newer than any row kept. */
  lemma {:induction false} TakeKeepsNewest<T>(s: seq<T>, n: nat, key: T -> int)
    requires NewestFirst(s, key)
    ensures NewestFirst(Take(s, n), key)
    ensures forall x, y :: x in s && x !in Take(s, n) && y in Take(s, n) ==> key(x) <= key(y)
  {
    var r := Take(s, n);
    forall x, y | x in s && x !in r && y in r ensures key(x) <= key(y) {
      var i :| 0 <= i < |s| && s[i] == x;
      var j :| 0 <= j < |r| && r[j] == y;
      assert forall k :: 0 <= k < |r| ==> r[k] == s[k];
      assert j < i;
      assert s[j] == y;
    }
  }
}
