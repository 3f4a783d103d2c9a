/** Sorting by a caller-supplied "goes no later than" relation, as
    `sort_values` / `sorted` are used by the dashboard. Only sortedness and
    permutation are promised: the order among equal keys is not. */
module Sorting {

  /** `le` is total and transitive: a sort key with a direction. */
  ghost predicate IsTotalPreorder<T(!new)>(le: (T, T) -> bool)
  {
    (forall a, b :: le(a, b) || le(b, a)) &&
    (forall a, b, c :: le(a, b) && le(b, c) ==> le(a, c))
  }

  ghost predicate SortedBy<T>(s: seq<T>, le: (T, T) -> bool)
  {
    forall i, j :: 0 <= i < j < |s| ==> le(s[i], s[j])
  }

  function Insert<T>(x: T, s: seq<T>, le: (T, T) -> bool): seq<T>
  {
    if s == [] then [x]
    else if le(x, s[0]) then [x] + s
    else [s[0]] + Insert(x, s[1..], le)
  }

  function SortBy<T>(s: seq<T>, le: (T, T) -> bool): seq<T>
  {
    if s == [] then [] else Insert(s[0], SortBy(s[1..], le), le)
  }

  lemma {:induction false} InsertCorrect<T(!new)>(x: T, s: seq<T>, le: (T, T) -> bool)
    requires IsTotalPreorder(le)
    requires SortedBy(s, le)
    ensures multiset(Insert(x, s, le)) == multiset(s) + multiset{x}
    ensures SortedBy(Insert(x, s, le), le)
  {
    if s != [] && !le(x, s[0]) {
      var rest := Insert(x, s[1..], le);
      assert SortedBy(s[1..], le);
      InsertCorrect(x, s[1..], le);
      assert s == [s[0]] + s[1..];
      assert le(s[0], x);
      forall k | 0 <= k < |rest| ensures le(s[0], rest[k]) {
        assert rest[k] in multiset(rest);
        assert rest[k] == x || rest[k] in multiset(s[1..]);
        if rest[k] != x {
          var m :| 0 <= m < |s[1..]| && s[1..][m] == rest[k];
          assert s[m + 1] == rest[k];
        }
      }
    }
  }

  /** SortBy returns the same rows (a permutation), ordered by `le`. */
  lemma {:induction false} SortByCorrect<T(!new)>(s: seq<T>, le: (T, T) -> bool)
    requires IsTotalPreorder(le)
    ensures multiset(SortBy(s, le)) == multiset(s)
    ensures |SortBy(s, le)| == |s|
    ensures SortedBy(SortBy(s, le), le)
  {
    if s != [] {
      SortByCorrect(s[1..], le);
      InsertCorrect(s[0], SortBy(s[1..], le), le);
      assert s == [s[0]] + s[1..];
    }
    assert |multiset(SortBy(s, le))| == |SortBy(s, le)|;
  }

  /** Keeping the first k rows of a sorted sequence: each kept row goes no
      later than each dropped one. */
  lemma PrefixPrecedesRest<T>(s: seq<T>, le: (T, T) -> bool, k: nat)
    requires SortedBy(s, le) && k <= |s|
    ensures forall x, y :: x in s[..k] && y in s[k..] ==> le(x, y)
  {
    forall x, y | x in s[..k] && y in s[k..] ensures le(x, y) {
      var i :| 0 <= i < k && s[..k][i] == x;
      var j :| 0 <= j < |s| - k && s[k..][j] == y;
      assert s[i] == x && s[k + j] == y;
    }
  }
}
