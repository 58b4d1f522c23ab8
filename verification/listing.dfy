/**
 The order every listing uses: `.sort({ createdAt: -1 })`, newest first.
 MongoDB leaves the order of equal timestamps unspecified; the model
 breaks such ties by ascending id so that a listing is a function of the
 store, and the contracts below promise only what the sort promises.
 */
module Listing {
  import opened Foundation

  /** `k` is the first entry of `t` in newest-first order. */
  predicate IsNewest(t: map<Id, nat>, k: Id) {
    k in t && forall j :: j in t ==> t[j] < t[k] || (t[j] == t[k] && k <= j)
  }

  lemma {:induction false} NewestExists(t: map<Id, nat>)
    requires t != map[]
    ensures exists k :: IsNewest(t, k)
    decreases |t|
  {
    var y :| y in t;
    var rest := t - {y};
    assert rest.Keys == t.Keys - {y};
    if rest.Keys == {} {
      assert t.Keys == {y};
      assert IsNewest(t, y);
    } else {
      NewestExists(rest);
      var k :| IsNewest(rest, k);
      if t[y] > t[k] || (t[y] == t[k] && y <= k) {
        assert IsNewest(t, y) by {
          forall j | j in t ensures t[j] < t[y] || (t[j] == t[y] && y <= j) {
            if j != y { assert j in rest; }
          }
        }
      } else {
        assert IsNewest(t, k) by {
          forall j | j in t ensures t[j] < t[k] || (t[j] == t[k] && k <= j) {
            if j != y { assert j in rest; }
          }
        }
      }
    }
  }

  function Newest(t: map<Id, nat>): (k: Id)
    requires t != map[]
    ensures IsNewest(t, k)
  {
    NewestExists(t);
    var k: Id :| IsNewest(t, k);
    k
  }

  /** `r` lists every key of `t` exactly once. */
  predicate EnumeratesOnce(r: seq<Id>, t: map<Id, nat>) {
    && |r| == |t|
    && (forall i :: 0 <= i < |r| ==> r[i] in t)
    && (forall k :: k in t ==> k in r)
    && (forall i, j :: 0 <= i < j < |r| ==> r[i] != r[j])
  }

  /** Creation times never increase along `r`. */
  predicate NewestFirst(r: seq<Id>, t: map<Id, nat>)
    requires forall i :: 0 <= i < |r| ==> r[i] in t
  {
    forall i, j :: 0 <= i < j < |r| ==> t[r[i]] >= t[r[j]]
  }

  /** An enumeration of `t` without `k`, read back as facts about `t`. */
  lemma EnumeratesRest(t: map<Id, nat>, k: Id, tail: seq<Id>)
    requires k in t
    requires EnumeratesOnce(tail, t - {k}) && NewestFirst(tail, t - {k})
    ensures |tail| == |t| - 1
    ensures forall i :: 0 <= i < |tail| ==> tail[i] in t && tail[i] != k
    ensures forall x :: x in t && x != k ==> x in tail
    ensures forall i, j :: 0 <= i < j < |tail| ==> tail[i] != tail[j] && t[tail[i]] >= t[tail[j]]
  {
    var rest := t - {k};
    assert rest.Keys == t.Keys - {k};
    forall x | x in t && x != k ensures x in tail {
      assert x in rest;
    }
    forall i, j | 0 <= i < j < |tail| ensures t[tail[i]] >= t[tail[j]] {
      assert rest[tail[i]] == t[tail[i]] && rest[tail[j]] == t[tail[j]];
    }
  }

  /** Putting the newest key in front of a newest-first enumeration of
      the others enumerates them all, newest first. */
  lemma ConsNewest(t: map<Id, nat>, k: Id, tail: seq<Id>)
    requires IsNewest(t, k)
    requires |tail| == |t| - 1
    requires forall i :: 0 <= i < |tail| ==> tail[i] in t && tail[i] != k
    requires forall x :: x in t && x != k ==> x in tail
    requires forall i, j :: 0 <= i < j < |tail| ==> tail[i] != tail[j] && t[tail[i]] >= t[tail[j]]
    ensures EnumeratesOnce([k] + tail, t) && NewestFirst([k] + tail, t)
  {
    var r := [k] + tail;
    assert forall i :: 1 <= i < |r| ==> r[i] == tail[i - 1];
    forall x | x in t ensures x in r {
      if x != k { var i :| 0 <= i < |tail| && tail[i] == x; assert r[i + 1] == x; }
    }
    forall i | 0 <= i < |r| ensures r[i] in t {
      if i > 0 { assert r[i] == tail[i - 1]; }
    }
    forall i, j | 0 <= i < j < |r| ensures r[i] != r[j] && t[r[i]] >= t[r[j]] {
      if i > 0 {
        assert r[i] == tail[i - 1] && r[j] == tail[j - 1];
      } else {
        assert r[j] == tail[j - 1];
      }
    }
  }

  /** The keys of `t` (creation times by id), newest first: every key
      exactly once, and creation times never increase along the list. */
  function ByRecency(t: map<Id, nat>): (r: seq<Id>)
    ensures EnumeratesOnce(r, t)
    ensures NewestFirst(r, t)
    decreases |t|
  {
    if t == map[] then []
    else
      var k := Newest(t);
      assert (t - {k}).Keys == t.Keys - {k};
      var tail := ByRecency(t - {k});
      EnumeratesRest(t, k, tail);
      ConsNewest(t, k, tail);
      [k] + tail
  }
}
