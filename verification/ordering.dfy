/** Listing a set of record ids newest first, as the store's `orderBy: { ...: 'desc' }` does. */
module Ordering {

  predicate SortedDesc(s: seq<int>, key: int -> int) {
    forall i, j | 0 <= i < j < |s| :: key(s[i]) >= key(s[j])
  }

  /** The ids of a listing of records, in listing order. */
  function Ids<T>(list: seq<T>, id: T -> int): (ids: seq<int>)
    ensures |ids| == |list| && forall i | 0 <= i < |list| :: ids[i] == id(list[i])
  {
    seq(|list|, i requires 0 <= i < |list| => id(list[i]))
  }

  /** Puts `x` in front of the first element whose key is not larger. */
  function InsertDesc(s: seq<int>, x: int, key: int -> int): (r: seq<int>)
    ensures multiset(r) == multiset(s) + multiset{x}
  {
    if s == [] || key(x) >= key(s[0]) then
      [x] + s
    else
      assert s == [s[0]] + s[1..];
      [s[0]] + InsertDesc(s[1..], x, key)
  }

  lemma {:induction false} InsertDescSorted(s: seq<int>, x: int, key: int -> int)
    requires SortedDesc(s, key)
    ensures SortedDesc(InsertDesc(s, x, key), key)
  {
    if s == [] || key(x) >= key(s[0]) {
    } else {
      var rest := InsertDesc(s[1..], x, key);
      InsertDescSorted(s[1..], x, key);
      forall y | y in rest ensures key(s[0]) >= key(y) {
        assert y in multiset(rest);
        if y != x {
          assert y in multiset(s[1..]);
          var k :| 0 <= k < |s[1..]| && s[1..][k] == y;
          assert s[k + 1] == y;
        }
      }
      assert InsertDesc(s, x, key) == [s[0]] + rest;
    }
  }

  lemma HasMember(s: set<int>)
    requires s != {}
    ensures exists x :: x in s
  {
    if forall x :: x !in s {
      assert false;
    }
  }

  /** Lists every id of `ids` exactly once, largest key first. */
  method SortDesc(ids: set<int>, key: int -> int) returns (r: seq<int>)
    ensures multiset(r) == multiset(ids)
    ensures SortedDesc(r, key)
  {
    r := [];
    var rest := ids;
    while rest != {}
      invariant rest <= ids
      invariant multiset(r) == multiset(ids - rest)
      invariant SortedDesc(r, key)
      decreases |rest|
    {
      HasMember(rest);
      var x :| x in rest;
      r, rest := TakeOne(ids, rest, r, x, key);
    }
    assert ids - rest == ids;
  }

  method TakeOne(ids: set<int>, rest: set<int>, r: seq<int>, x: int, key: int -> int)
    returns (r': seq<int>, rest': set<int>)
    requires x in rest && rest <= ids
    requires multiset(r) == multiset(ids - rest) && SortedDesc(r, key)
    ensures rest' == rest - {x} && rest' <= ids
    ensures multiset(r') == multiset(ids - rest') && SortedDesc(r', key)
  {
    assert ids - (rest - {x}) == (ids - rest) + {x};
    InsertDescSorted(r, x, key);
    r' := InsertDesc(r, x, key);
    rest' := rest - {x};
  }
}
