/** The order in which the store returns rows for `orderBy: { createdAt: 'desc' }`
    and the `skip`/`take` window applied to it. Rows are named by id; `stamps`
    maps each id to its creation time. The source leaves rows with equal
    creation times in whatever order the database picks; this model fixes
    that order to ascending id, so that pages are deterministic. */
module Ordering {

  /** `a` and `b` are rows, and `a` comes no later than `b` in newest-first order. */
  predicate Precedes(stamps: map<int, int>, a: int, b: int)
  {
    a in stamps && b in stamps && (stamps[a] > stamps[b] || (stamps[a] == stamps[b] && a <= b))
  }

  predicate IsFirst(stamps: map<int, int>, x: int, ids: set<int>)
    requires ids <= stamps.Keys
  {
    x in ids && forall y :: y in ids ==> Precedes(stamps, x, y)
  }

  predicate NewestFirstSorted(stamps: map<int, int>, s: seq<int>)
  {
    forall i, j :: 0 <= i < j < |s| ==> Precedes(stamps, s[i], s[j])
  }

  lemma NonEmptyHasElement(ids: set<int>)
    requires ids != {}
    ensures exists y :: y in ids
  {
    if forall y :: y !in ids {
      assert false;
    }
  }

  /** Every non-empty finite set of rows has a newest row. */
  lemma {:induction false} FirstExists(stamps: map<int, int>, ids: set<int>)
    requires ids <= stamps.Keys && ids != {}
    ensures exists x :: IsFirst(stamps, x, ids)
  {
    NonEmptyHasElement(ids);
    var y :| y in ids;
    if ids == {y} {
      assert IsFirst(stamps, y, ids);
    } else {
      FirstExists(stamps, ids - {y});
      var x :| IsFirst(stamps, x, ids - {y});
      if Precedes(stamps, x, y) {
        assert IsFirst(stamps, x, ids);
      } else {
        forall z | z in ids
          ensures Precedes(stamps, y, z)
        {
          if z != y {
            assert Precedes(stamps, x, z);
          }
        }
        assert IsFirst(stamps, y, ids);
      }
    }
  }

  /** The rows of `ids`, newest first, each exactly once. */
  function NewestFirst(stamps: map<int, int>, ids: set<int>): (r: seq<int>)
    requires ids <= stamps.Keys
    ensures |r| == |ids|
    ensures forall i :: 0 <= i < |r| ==> r[i] in ids
    ensures forall x :: x in ids ==> x in r
    ensures forall i, j :: 0 <= i < j < |r| ==> r[i] != r[j]
    ensures NewestFirstSorted(stamps, r)
    decreases ids
  {
    if ids == {} then []
    else
      FirstExists(stamps, ids);
      var x :| IsFirst(stamps, x, ids);
      var rest := NewestFirst(stamps, ids - {x});
      FirstThenSorted(stamps, x, ids, rest);
      [x] + rest
  }

  /** Putting the newest row of `ids` before a newest-first sequence of the
      others keeps it newest first. */
  lemma FirstThenSorted(stamps: map<int, int>, x: int, ids: set<int>, rest: seq<int>)
    requires ids <= stamps.Keys && IsFirst(stamps, x, ids)
    requires forall i :: 0 <= i < |rest| ==> rest[i] in ids
    requires NewestFirstSorted(stamps, rest)
    ensures NewestFirstSorted(stamps, [x] + rest)
  {
    var r := [x] + rest;
    forall i, j | 0 <= i < j < |r|
      ensures Precedes(stamps, r[i], r[j])
    {
      assert r[j] == rest[j - 1];
      if i > 0 {
        assert r[i] == rest[i - 1];
      }
    }
  }

  /** `skip`/`take`: the rows from position `skip` on, at most `take` of them. */
  function Window<T>(s: seq<T>, skip: nat, take: nat): (r: seq<T>)
    ensures |r| <= take
    ensures skip >= |s| ==> r == []
    ensures skip < |s| ==> |r| == if |s| - skip < take then |s| - skip else take
    ensures forall i :: 0 <= i < |r| ==> skip + i < |s| && r[i] == s[skip + i]
  {
    if skip >= |s| then []
    else if |s| - skip < take then s[skip..]
    else s[skip..skip + take]
  }

  /** A window of a newest-first sequence is newest-first. */
  lemma WindowKeepsOrder(stamps: map<int, int>, s: seq<int>, skip: nat, take: nat)
    requires NewestFirstSorted(stamps, s)
    ensures NewestFirstSorted(stamps, Window(s, skip, take))
  {
    var r := Window(s, skip, take);
    forall i, j | 0 <= i < j < |r|
      ensures Precedes(stamps, r[i], r[j])
    {
      WindowPairInOrder(stamps, s, skip, take, i, j);
    }
  }

  lemma WindowPairInOrder(stamps: map<int, int>, s: seq<int>, skip: nat, take: nat, i: int, j: int)
    requires NewestFirstSorted(stamps, s)
    requires 0 <= i < j < |Window(s, skip, take)|
    ensures var r := Window(s, skip, take);
            Precedes(stamps, r[i], r[j])
  {
    var r := Window(s, skip, take);
    assert r[i] == s[skip + i] && r[j] == s[skip + j];
  }
}
