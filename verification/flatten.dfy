/** flattenArgs: the positional argument list, taken from the entries in
    ascending position order, slices expanded element by element. */
module Flatten {
  import opened Values
  import opened Params

  predicate IsMinKey(m: map<string, ParamEntry>, k: string) {
    k in m && forall j :: j in m ==> m[k].pos <= m[j].pos
  }

  lemma {:induction false} MinKeyExists(m: map<string, ParamEntry>)
    requires |m| > 0
    ensures exists k :: IsMinKey(m, k)
    decreases |m|
  {
    var k0 :| k0 in m;
    var rest := m - {k0};
    assert forall j :: j in m ==> j == k0 || j in rest;
    if |rest| == 0 {
      assert forall j :: j in m ==> j == k0;
      assert IsMinKey(m, k0);
    } else {
      MinKeyExists(rest);
      var k1 :| IsMinKey(rest, k1);
      if m[k0].pos <= m[k1].pos {
        assert IsMinKey(m, k0);
      } else {
        assert IsMinKey(m, k1);
      }
    }
  }

  predicate StrictlyIncreasing(s: seq<ParamEntry>) {
    forall i, j :: 0 <= i < j < |s| ==> s[i].pos < s[j].pos
  }

  predicate Lists(m: map<string, ParamEntry>, r: seq<ParamEntry>) {
    && (forall k :: k in m ==> m[k] in r)
    && (forall e :: e in r ==> exists k :: k in m && m[k] == e)
  }

  /** The entry of least position, put in front of a strictly increasing
      listing of the others, keeps the listing strictly increasing. */
  lemma SortedConsIncreasing(m: map<string, ParamEntry>, k: string, tail: seq<ParamEntry>)
    requires IsMinKey(m, k)
    requires DistinctPositions(m)
    requires StrictlyIncreasing(tail) && Lists(m - {k}, tail)
    ensures StrictlyIncreasing([m[k]] + tail)
  {
    var rest := m - {k};
    var r := [m[k]] + tail;
    forall e | e in tail
      ensures m[k].pos < e.pos
    {
      var j :| j in rest && rest[j] == e;
      assert m[j] == e;
    }
    forall i, j | 0 <= i < j < |r|
      ensures r[i].pos < r[j].pos
    {
      if i == 0 {
        assert r[j] == tail[j - 1];
        assert r[j] in tail;
      } else {
        assert r[i] == tail[i - 1] && r[j] == tail[j - 1];
      }
    }
  }

  /** A listing of all entries but k's, with k's in front, lists them all. */
  lemma SortedConsLists(m: map<string, ParamEntry>, k: string, tail: seq<ParamEntry>)
    requires k in m
    requires Lists(m - {k}, tail)
    ensures Lists(m, [m[k]] + tail)
  {
    var rest := m - {k};
    var r := [m[k]] + tail;
    forall j | j in m
      ensures m[j] in r
    {
      if j != k {
        assert j in rest;
        assert rest[j] in tail;
      }
    }
    forall e | e in r
      ensures exists j :: j in m && m[j] == e
    {
      if e != m[k] {
        assert e in tail;
        var j :| j in rest && rest[j] == e;
        assert m[j] == e;
      }
    }
  }

  /** Putting the entry of least position in front of a sorted listing of
      the others gives a sorted listing of all. */
  lemma SortedCons(m: map<string, ParamEntry>, k: string, tail: seq<ParamEntry>)
    requires IsMinKey(m, k)
    requires DistinctPositions(m)
    requires StrictlyIncreasing(tail) && Lists(m - {k}, tail)
    ensures StrictlyIncreasing([m[k]] + tail)
    ensures Lists(m, [m[k]] + tail)
  {
    SortedConsIncreasing(m, k, tail);
    SortedConsLists(m, k, tail);
  }

  /** slices.SortedFunc over the entries, comparing positions. With
      distinct positions the order is fully determined. */
  function SortedEntries(m: map<string, ParamEntry>): (r: seq<ParamEntry>)
    requires DistinctPositions(m)
    ensures |r| == |m|
    ensures StrictlyIncreasing(r)
    ensures Lists(m, r)
    decreases |m|
  {
    if |m| == 0 then []
    else
      MinKeyExists(m);
      var k :| IsMinKey(m, k);
      var tail := SortedEntries(m - {k});
      SortedCons(m, k, tail);
      [m[k]] + tail
  }

  /** The arguments the entries of `s` become, in the order of `s`. */
  function ExpandAll(s: seq<ParamEntry>): seq<Value> {
    if |s| == 0 then [] else Expand(s[0].val) + ExpandAll(s[1..])
  }

  /** flattenArgs. The `len` field plays no part: only the bound values and
      the order of the positions matter. */
  function FlattenArgs(entries: map<string, ParamEntry>): seq<Value>
    requires DistinctPositions(entries)
  {
    ExpandAll(SortedEntries(entries))
  }

  /** Two sequences ordered by strictly increasing position that hold the
      same entries are the same sequence. */
  lemma {:induction false} SortedUnique(a: seq<ParamEntry>, b: seq<ParamEntry>)
    requires StrictlyIncreasing(a) && StrictlyIncreasing(b)
    requires |a| == |b|
    requires forall e :: e in a <==> e in b
    ensures a == b
    decreases |a|
  {
    if |a| > 0 {
      assert a[0] == b[0] by {
        assert b[0] in a;
        assert a[0] in b;
        var i :| 0 <= i < |a| && a[i] == b[0];
        var j :| 0 <= j < |b| && b[j] == a[0];
        assert a[0].pos <= a[i].pos;
        assert b[0].pos <= b[j].pos;
        assert i == 0;
      }
      forall e
        ensures e in a[1..] <==> e in b[1..]
      {
        if e in a[1..] {
          var i :| 1 <= i < |a| && a[i] == e;
          assert a[0].pos < e.pos;
          assert e in b;
        }
        if e in b[1..] {
          var j :| 1 <= j < |b| && b[j] == e;
          assert b[0].pos < e.pos;
          assert e in a;
        }
      }
      SortedUnique(a[1..], b[1..]);
      assert a == [a[0]] + a[1..];
      assert b == [b[0]] + b[1..];
    }
  }

  /** flattenArgs visits the entries in ascending position: for any listing
      of the entries by strictly increasing position, the result is the
      expansion of that listing. */
  lemma FlattenInPositionOrder(entries: map<string, ParamEntry>, s: seq<ParamEntry>)
    requires DistinctPositions(entries)
    requires StrictlyIncreasing(s)
    requires |s| == |entries|
    requires Lists(entries, s)
    ensures FlattenArgs(entries) == ExpandAll(s)
  {
    SortedUnique(SortedEntries(entries), s);
  }
}
