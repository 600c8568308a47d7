/** The three "keep the best so far" scans of the engine, and the stable descending ranking used by
    the config leaderboard. Each scan walks its input left to right and replaces the current best only
    by a strictly larger key, so the earliest of several equal maxima wins. */
module Selection {
  import opened Wrappers

  /** Python's `max(xs, key=key)` on a non-empty list: the index of the first element with the largest key. */
  function FirstMax<T>(xs: seq<T>, key: T -> real): (i: nat)
    requires |xs| > 0
    ensures i < |xs|
    ensures forall j :: 0 <= j < |xs| ==> key(xs[j]) <= key(xs[i])
    ensures forall j :: 0 <= j < i ==> key(xs[j]) < key(xs[i])
    decreases |xs|
  {
    if |xs| == 1 then 0
    else
      var i := FirstMax(xs[..|xs| - 1], key);
      if key(xs[|xs| - 1]) > key(xs[i]) then |xs| - 1 else i
  }

  /** The scan that starts with nothing and a best key of `floor`: the index of the first element whose
      key is the largest, provided that key exceeds `floor`. */
  function FirstAbove<T>(xs: seq<T>, key: T -> real, floor: real): (r: Option<nat>)
    ensures r.None? <==> forall j :: 0 <= j < |xs| ==> key(xs[j]) <= floor
    ensures r.Some? ==> r.value < |xs| && floor < key(xs[r.value])
    ensures r.Some? ==> forall j :: 0 <= j < |xs| ==> key(xs[j]) <= key(xs[r.value])
    ensures r.Some? ==> forall j :: 0 <= j < r.value ==> key(xs[j]) < key(xs[r.value])
    decreases |xs|
  {
    if |xs| == 0 then None
    else
      var prev := FirstAbove(xs[..|xs| - 1], key, floor);
      var best := if prev.Some? then key(xs[prev.value]) else floor;
      if key(xs[|xs| - 1]) > best then Some(|xs| - 1) else prev
  }

  /** Strictly increasing positions, all below `n`. */
  predicate IncreasingBelow(idx: seq<nat>, n: nat) {
    && (forall a, b :: 0 <= a < b < |idx| ==> idx[a] < idx[b])
    && (forall a :: 0 <= a < |idx| ==> idx[a] < n)
  }

  /** The positions of the present options, in increasing order, each present position once. */
  function SomeIndices<T>(os: seq<Option<T>>): (idx: seq<nat>)
    ensures IncreasingBelow(idx, |os|)
    ensures forall a :: 0 <= a < |idx| ==> os[idx[a]].Some?
    ensures forall i :: 0 <= i < |os| && os[i].Some? ==> i in idx
    decreases |os|
  {
    if |os| == 0 then []
    else
      var init := SomeIndices(os[..|os| - 1]);
      assert forall a :: 0 <= a < |init| ==> os[init[a]] == os[..|os| - 1][init[a]];
      init + (if os[|os| - 1].Some? then [|os| - 1] else [])
  }

  /** The values of the present options, in order: the `m`-th value is the one held at the `m`-th
      present position. */
  function Somes<T>(os: seq<Option<T>>): (r: seq<T>)
    ensures |r| == |SomeIndices(os)|
    ensures forall m :: 0 <= m < |r| ==> os[SomeIndices(os)[m]] == Some(r[m])
    decreases |os|
  {
    if |os| == 0 then []
    else
      var init := os[..|os| - 1];
      var r := Somes(init);
      assert forall m :: 0 <= m < |r| ==> os[SomeIndices(init)[m]] == init[SomeIndices(init)[m]];
      r + (match os[|os| - 1] case Some(h) => [h] case None => [])
  }

  /** Listing the values of an option followed by more options. */
  lemma {:induction false} SomesCons<T>(o: Option<T>, os: seq<Option<T>>)
    ensures Somes([o] + os) == (if o.Some? then [o.value] else []) + Somes(os)
    decreases |os|
  {
    var all := [o] + os;
    if |os| > 0 {
      var init := os[..|os| - 1];
      assert all[..|all| - 1] == [o] + init;
      SomesCons(o, init);
    } else {
      assert all[..|all| - 1] == [];
    }
  }

  /** A value is listed exactly when some option holds it. */
  lemma SomesContents<T>(os: seq<Option<T>>, x: T)
    ensures x in Somes(os) <==> exists m :: 0 <= m < |os| && os[m] == Some(x)
  {
    var r := Somes(os);
    var idx := SomeIndices(os);
    if m :| 0 <= m < |os| && os[m] == Some(x) {
      var a :| 0 <= a < |idx| && idx[a] == m;
      assert r[a] == x;
    }
    if x in r {
      var a :| 0 <= a < |r| && r[a] == x;
      assert os[idx[a]] == Some(x);
    }
  }

  /** Only one index can be the first maximum: whatever meets `FirstMax`'s contract is its result. */
  lemma FirstMaxUnique<T>(xs: seq<T>, key: T -> real, i: nat)
    requires i < |xs|
    requires forall j :: 0 <= j < |xs| ==> key(xs[j]) <= key(xs[i])
    requires forall j :: 0 <= j < i ==> key(xs[j]) < key(xs[i])
    ensures FirstMax(xs, key) == i
  {
    var m := FirstMax(xs, key);
    assert key(xs[m]) <= key(xs[i]) && key(xs[i]) <= key(xs[m]);
  }

  /** Two lists with the same keys position by position have the same first maximum. */
  lemma FirstMaxSameKeys<T, U>(xs: seq<T>, kx: T -> real, ys: seq<U>, ky: U -> real)
    requires |xs| == |ys| > 0
    requires forall j :: 0 <= j < |xs| ==> kx(xs[j]) == ky(ys[j])
    ensures FirstMax(xs, kx) == FirstMax(ys, ky)
  {
    var i := FirstMax(ys, ky);
    FirstMaxUnique(xs, kx, i);
  }

  /** Position `i` is ranked ahead of position `j`: a larger key, or an equal key and an earlier position.
      This is the order a stable sort by descending key produces. */
  predicate RankedBefore(keys: seq<real>, i: nat, j: nat)
    requires i < |keys| && j < |keys|
  {
    keys[i] > keys[j] || (keys[i] == keys[j] && i < j)
  }

  /** Every earlier entry of `order` is ranked ahead of every later one. */
  predicate Ranked(keys: seq<real>, order: seq<nat>)
  {
    && (forall a :: 0 <= a < |order| ==> order[a] < |keys|)
    && (forall a, b :: 0 <= a < b < |order| ==> RankedBefore(keys, order[a], order[b]))
  }

  /** Inserts position `x`, which precedes every position in `order`, in front of the first entry whose
      key is not larger than its own. */
  function Insert(keys: seq<real>, x: nat, order: seq<nat>): (r: seq<nat>)
    requires x < |keys|
    requires Ranked(keys, order)
    requires forall a :: 0 <= a < |order| ==> x < order[a]
    ensures |r| == |order| + 1
    ensures Ranked(keys, r)
    ensures forall a :: 0 <= a < |r| ==> r[a] == x || r[a] in order
    ensures x in r
    ensures forall y :: y in order ==> y in r
    decreases |order|
  {
    if |order| == 0 || keys[x] >= keys[order[0]] then [x] + order
    else
      var rest := Insert(keys, x, order[1..]);
      assert forall a :: 0 <= a < |rest| ==> RankedBefore(keys, order[0], rest[a]);
      [order[0]] + rest
  }

  /** Positions `lo .. |keys| - 1` sorted by descending key, ties kept in position order
      (Python's `sorted(..., reverse=True)`, which is stable). */
  function RankFrom(keys: seq<real>, lo: nat): (r: seq<nat>)
    requires lo <= |keys|
    ensures |r| == |keys| - lo
    ensures Ranked(keys, r)
    ensures forall a :: 0 <= a < |r| ==> lo <= r[a]
    ensures forall i :: lo <= i < |keys| ==> i in r
    decreases |keys| - lo
  {
    if lo == |keys| then []
    else
      var rest := RankFrom(keys, lo + 1);
      Insert(keys, lo, rest)
  }

  /** The first position of the descending ranking is the first maximum. */
  lemma {:induction false} RankHeadIsFirstMax<T>(xs: seq<T>, key: T -> real, keys: seq<real>)
    requires |xs| > 0 && |keys| == |xs|
    requires forall j :: 0 <= j < |xs| ==> keys[j] == key(xs[j])
    ensures RankFrom(keys, 0)[0] == FirstMax(xs, key)
  {
    var r := RankFrom(keys, 0);
    var h := r[0];
    assert h < |xs|;
    forall j | 0 <= j < |xs| && j != h
      ensures RankedBefore(keys, h, j)
    {
      assert j in r;
      var b :| 0 <= b < |r| && r[b] == j;
      assert b != 0;
    }
    assert forall j :: 0 <= j < |xs| ==> key(xs[j]) <= key(xs[h]) by {
      forall j | 0 <= j < |xs| ensures key(xs[j]) <= key(xs[h]) {
        if j != h { assert RankedBefore(keys, h, j); }
      }
    }
    assert forall j :: 0 <= j < h ==> key(xs[j]) < key(xs[h]) by {
      forall j | 0 <= j < h ensures key(xs[j]) < key(xs[h]) {
        assert RankedBefore(keys, h, j);
      }
    }
    FirstMaxUnique(xs, key, h);
  }
}
