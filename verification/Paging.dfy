/** Keyset paging: the first rows of a table by key, after a cursor. */
module Paging {
  import opened Wrappers

  predicate Beyond(k: int, after: Option<int>) {
    after.None? || after.value < k
  }

  ghost predicate IsLeast(s: set<int>, m: int) {
    m in s && forall x :: x in s ==> m <= x
  }

  ghost function Pick<T>(s: set<T>): (x: T)
    requires s != {}
    ensures x in s
  {
    var x :| x in s;
    x
  }

  lemma {:induction false} LeastExists(s: set<int>)
    requires s != {}
    ensures exists m :: IsLeast(s, m)
    decreases |s|
  {
    var x := Pick(s);
    var rest := s - {x};
    if rest == {} {
      assert s == {x};
      assert IsLeast(s, x);
    } else {
      LeastExists(rest);
      var m :| IsLeast(rest, m);
      assert s == rest + {x};
      assert IsLeast(s, if x < m then x else m);
    }
  }

  ghost predicate Ascending(keys: seq<int>) {
    forall i, j :: 0 <= i < j < |keys| ==> keys[i] < keys[j]
  }

  /** `page` is the keys `ORDER BY key LIMIT limit` gives of `s`: in order, and
      short only when it holds every key. */
  ghost predicate IsPage(page: seq<int>, s: set<int>, limit: nat) {
    && Ascending(page)
    && |page| <= limit
    && (forall i :: 0 <= i < |page| ==> page[i] in s)
    && (forall k :: k in s && k !in page ==> |page| == limit && forall i :: 0 <= i < |page| ==> page[i] < k)
  }

  lemma AscendingCons(m: int, rest: seq<int>)
    requires Ascending(rest) && forall k :: k in rest ==> m < k
    ensures Ascending([m] + rest)
  {
    var page := [m] + rest;
    assert forall i :: 0 < i < |page| ==> page[i] == rest[i - 1] && page[i] in rest;
  }

  lemma {:induction false} PageCons(m: int, rest: seq<int>, s: set<int>, limit: nat)
    requires limit > 0 && IsLeast(s, m) && IsPage(rest, s - {m}, limit - 1)
    ensures IsPage([m] + rest, s, limit)
  {
    hide Ascending;
    var page := [m] + rest;
    assert forall k :: k in rest ==> k in s - {m};
    AscendingCons(m, rest);
    forall k | k in s && k !in page
      ensures |page| == limit && forall i :: 0 <= i < |page| ==> page[i] < k
    {
      assert page[0] == m && k in s - {m} && k !in rest;
    }
  }

  /** `SELECT key ORDER BY key LIMIT limit`. */
  method SelectPage(s: set<int>, limit: nat) returns (page: seq<int>)
    ensures IsPage(page, s, limit)
    decreases limit
  {
    if limit == 0 || s == {} { return []; }
    LeastExists(s);
    var m :| m in s && forall x :: x in s ==> m <= x;
    var rest := SelectPage(s - {m}, limit - 1);
    PageCons(m, rest, s, limit);
    page := [m] + rest;
  }
}
