/** Shared vocabulary: optional values, `std::map::operator[]` reads, and the
    ascending iteration order of `std::map` and `std::set`. */
module Basics {
  datatype Option<+T> = None | Some(value: T)

  /** What `m[k]` yields in C++ when a missing key reads as the default value. */
  function Get<K, V>(m: map<K, V>, k: K, default: V): V {
    if k in m then m[k] else default
  }

  lemma MinExists(s: set<int>)
    requires s != {}
    ensures exists m :: m in s && forall k | k in s :: m <= k
    decreases |s|
  {
    assert (forall k :: k !in s) ==> s == {};
    var x :| x in s;
    var rest := s - {x};
    if rest == {} {
      assert forall k | k in s :: k == x by {
        assert forall k | k in s && k != x :: k in rest;
      }
      assert forall k | k in s :: x <= k;
    } else {
      MinExists(rest);
      var m :| m in rest && forall k | k in rest :: m <= k;
      var least := if m < x then m else x;
      assert least in s;
      assert forall k | k in s :: k == x || k in rest;
      assert forall k | k in s :: least <= k;
    }
  }

  /** `*s.begin()` */
  function Min(s: set<int>): (m: int)
    requires s != {}
    ensures m in s
    ensures forall k | k in s :: m <= k
  {
    MinExists(s);
    var m :| m in s && forall k | k in s :: m <= k;
    m
  }

  ghost predicate Increasing(r: seq<int>) {
    forall i, j | 0 <= i < j < |r| :: r[i] < r[j]
  }

  lemma PrependLeast(m: int, rest: seq<int>)
    requires Increasing(rest) && forall k | k in rest :: m < k
    ensures Increasing([m] + rest)
    ensures forall k :: k in [m] + rest <==> k == m || k in rest
  {
    var r := [m] + rest;
    forall i, j | 0 <= i < j < |r|
      ensures r[i] < r[j]
    {
      assert r[j] == rest[j - 1] && rest[j - 1] in rest;
    }
  }

  /** The keys in the order in which a C++ range-for visits them. */
  function Ascending(s: set<int>): (r: seq<int>)
    ensures |r| == |s|
    ensures forall k :: k in r <==> k in s
    ensures Increasing(r)
    decreases |s|
  {
    if s == {} then []
    else
      var m := Min(s);
      var rest := Ascending(s - {m});
      PrependLeast(m, rest);
      assert s == {m} + (s - {m});
      [m] + rest
  }

  /** The set filled by `for (i = 1; i <= n; i++) insert(i)`. */
  function UpTo(n: nat): (r: set<int>)
    ensures forall p :: p in r <==> 1 <= p <= n
    ensures |r| == n
  {
    if n == 0 then {} else UpTo(n - 1) + {n}
  }

  function SetOf(users: seq<int>): set<int> {
    set u | u in users
  }

  lemma SetOfSplit(users: seq<int>)
    requires users != []
    ensures SetOf(users) == {users[0]} + SetOf(users[1..])
  {
  }
}
