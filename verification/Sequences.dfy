/** Options and the sequence operations the other modules share. */
module Sequences {

  datatype Option<T> = None | Some(value: T)

  /** The elements of s that satisfy p, in order. */
  function Filter<T(!new)>(p: T -> bool, s: seq<T>): (r: seq<T>)
    ensures forall x :: x in r <==> x in s && p(x)
  {
    if s == [] then []
    else if p(s[0]) then [s[0]] + Filter(p, s[1..])
    else Filter(p, s[1..])
  }

  lemma {:induction false} FilterConcat<T(!new)>(p: T -> bool, a: seq<T>, b: seq<T>)
    ensures Filter(p, a + b) == Filter(p, a) + Filter(p, b)
  {
    if a == [] {
      assert a + b == b;
    } else {
      assert (a + b)[1..] == a[1..] + b;
      FilterConcat(p, a[1..], b);
    }
  }

  /** Filtering by q what p kept; q may decide alone where it implies p. */
  lemma {:induction false} FilterWithin<T(!new)>(p: T -> bool, q: T -> bool, s: seq<T>)
    requires forall x :: x in s && q(x) ==> p(x)
    ensures Filter(q, Filter(p, s)) == Filter(q, s)
  {
    if s != [] {
      FilterWithin(p, q, s[1..]);
    }
  }

  lemma {:induction false} FilterAgree<T(!new)>(p: T -> bool, q: T -> bool, s: seq<T>)
    requires forall x :: x in s ==> p(x) == q(x)
    ensures Filter(p, s) == Filter(q, s)
  {
    if s != [] {
      FilterAgree(p, q, s[1..]);
    }
  }

  /** Two filters in a row are one filter by any predicate that says both. */
  lemma {:induction false} FilterCompose<T(!new)>(p: T -> bool, q: T -> bool, both: T -> bool, s: seq<T>)
    requires forall x :: x in s ==> (both(x) <==> p(x) && q(x))
    ensures Filter(q, Filter(p, s)) == Filter(both, s)
  {
    if s != [] {
      FilterCompose(p, q, both, s[1..]);
    }
  }

  lemma {:induction false} FilterNone<T(!new)>(p: T -> bool, s: seq<T>)
    requires forall x :: x in s ==> !p(x)
    ensures Filter(p, s) == []
  {
    if s != [] {
      FilterNone(p, s[1..]);
    }
  }

  lemma {:induction false} FilterAll<T(!new)>(p: T -> bool, s: seq<T>)
    requires forall x :: x in s ==> p(x)
    ensures Filter(p, s) == s
  {
    if s != [] {
      FilterAll(p, s[1..]);
    }
  }

  /** s is listed in increasing order without repetition. */
  predicate Increasing(s: seq<int>) {
    forall i, j :: 0 <= i < j < |s| ==> s[i] < s[j]
  }

  function SetOf<T>(s: seq<T>): set<T> {
    set x | x in s
  }

  lemma {:induction false} IncreasingSize(s: seq<int>)
    requires Increasing(s)
    ensures |SetOf(s)| == |s|
  {
    if s != [] {
      IncreasingSize(s[1..]);
      assert SetOf(s) == {s[0]} + SetOf(s[1..]);
    }
  }

  /** A smaller set inside a set of the same size is that set. */
  lemma SubsetSameSize<T>(a: set<T>, b: set<T>)
    requires a <= b && |b| <= |a|
    ensures a == b
  {
    assert |b - a| == |b| - |a|;
  }

  lemma Pick(x: set<int>) returns (e: int)
    requires x != {}
    ensures e in x
  {
    assert exists y :: y in x by {
      if forall y :: y !in x {
        assert false;
      }
    }
    e :| e in x;
  }

  predicate IsMax(x: set<int>, m: int) {
    m in x && forall y :: y in x ==> y <= m
  }

  lemma {:induction false} MaxExists(x: set<int>) returns (m: int)
    requires x != {}
    ensures IsMax(x, m)
  {
    var e := Pick(x);
    var others := x - {e};
    assert forall y :: y in x ==> y == e || y in others;
    if others == {} {
      m := e;
    } else {
      var rest := MaxExists(others);
      m := if e > rest then e else rest;
    }
  }

  function MaxOf(x: set<int>): (r: Option<int>)
    ensures r.None? <==> x == {}
    ensures r.Some? ==> r.value in x && forall y :: y in x ==> y <= r.value
  {
    if x == {} then None
    else
      assert exists m :: IsMax(x, m) by {
        var m := MaxExists(x);
      }
      var m :| IsMax(x, m);
      Some(m)
  }

  lemma {:induction false} MinExists(x: set<int>) returns (m: int)
    requires x != {}
    ensures IsMin(x, m)
  {
    var e := Pick(x);
    var others := x - {e};
    assert forall y :: y in x ==> y == e || y in others;
    if others == {} {
      m := e;
    } else {
      var rest := MinExists(others);
      m := if e < rest then e else rest;
    }
  }

  predicate IsMin(x: set<int>, m: int) {
    m in x && forall y :: y in x ==> m <= y
  }

  function MinOf(x: set<int>): (r: Option<int>)
    ensures r.None? <==> x == {}
    ensures r.Some? ==> r.value in x && forall y :: y in x ==> r.value <= y
  {
    if x == {} then None
    else
      assert exists m :: IsMin(x, m) by {
        var m := MinExists(x);
      }
      var m :| IsMin(x, m);
      Some(m)
  }

  function Keyed<T>(key: T -> int, k: int): T -> bool {
    (r: T) => key(r) == k
  }

  /** What a lookup with an empty default finds. */
  function Group<T>(m: map<int, seq<T>>, k: int): seq<T> {
    if k in m then m[k] else []
  }

  function Put<T>(m: map<int, seq<T>>, k: int, r: T): map<int, seq<T>> {
    m[k := Group(m, k) + [r]]
  }

  /** The rows by key, each behind the earlier rows of its key. */
  function GroupsOf<T>(rows: seq<T>, key: T -> int): map<int, seq<T>> {
    if rows == [] then map[]
    else Put(GroupsOf(rows[..|rows| - 1], key), key(rows[|rows| - 1]), rows[|rows| - 1])
  }

  method GroupBy<T>(rows: seq<T>, key: T -> int) returns (m: map<int, seq<T>>)
    ensures m == GroupsOf(rows, key)
  {
    m := map[];
    for i := 0 to |rows|
      invariant m == GroupsOf(rows[..i], key)
    {
      assert rows[..i + 1][..i] == rows[..i];
      var k := key(rows[i]);
      if k in m {
        m := m[k := m[k] + [rows[i]]];
      } else {
        assert [] + [rows[i]] == [rows[i]];
        m := m[k := [rows[i]]];
      }
    }
    assert rows[..|rows|] == rows;
  }

  /** Under each key, the rows with that key in their order; a key is present when some row has it. */
  lemma {:induction false} GroupIsFilter<T(!new)>(rows: seq<T>, key: T -> int, k: int)
    ensures Group(GroupsOf(rows, key), k) == Filter(Keyed(key, k), rows)
    ensures k in GroupsOf(rows, key) <==> Filter(Keyed(key, k), rows) != []
  {
    if rows != [] {
      var n := |rows| - 1;
      GroupIsFilter(rows[..n], key, k);
      FilterConcat(Keyed(key, k), rows[..n], [rows[n]]);
      assert rows == rows[..n] + [rows[n]];
      assert [rows[n]][1..] == [];
    }
  }
}
