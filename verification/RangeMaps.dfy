/** A map from a fixed interval of keys to values, stored as one node per run of equal values
    (include/odb/utils/range-map.hh). */
module RangeMaps {
  import opened Common

  datatype Node<T> = Node(begKey: U64, val: T)

  datatype Range<T> = Range(low: U64, high: U64, val: T)

  /** Begin keys strictly increase from `lo` and stay within `hi`. */
  ghost predicate Sorted<T>(ns: seq<Node<T>>, lo: nat, hi: nat) {
    && 0 < |ns|
    && ns[0].begKey == lo
    && (forall i, j :: 0 <= i < j < |ns| ==> ns[i].begKey < ns[j].begKey)
    && (forall i :: 0 <= i < |ns| ==> ns[i].begKey <= hi)
  }

  /** The first `n` nodes have no two neighbours with the same value. */
  ghost predicate MergedUpTo<T>(ns: seq<Node<T>>, n: nat) {
    forall i :: 0 <= i && i + 1 < n && i + 1 < |ns| ==> ns[i].val != ns[i + 1].val
  }

  ghost predicate Canonical<T>(ns: seq<Node<T>>, lo: nat, hi: nat) {
    Sorted(ns, lo, hi) && MergedUpTo(ns, |ns|)
  }

  /** Node `i` is the one whose run contains `key`. */
  ghost predicate Holds<T>(ns: seq<Node<T>>, i: int, key: nat) {
    0 <= i < |ns| && ns[i].begKey <= key && (i + 1 < |ns| ==> key < ns[i + 1].begKey)
  }

  /** The value a node list gives to `key`: that of the last node starting at or before it. */
  function At<T>(ns: seq<Node<T>>, key: nat): T
    requires 0 < |ns|
  {
    var last := |ns| - 1;
    if last == 0 || ns[last].begKey <= key then ns[last].val else At(ns[..last], key)
  }

  lemma {:induction false} AtHolder<T>(ns: seq<Node<T>>, lo: nat, hi: nat, i: int, key: nat)
    requires Sorted(ns, lo, hi) && Holds(ns, i, key)
    ensures At(ns, key) == ns[i].val
  {
    if i < |ns| - 1 {
      AtHolder(ns[..|ns| - 1], lo, hi, i, key);
    }
  }

  lemma {:induction false} HolderOf<T>(ns: seq<Node<T>>, lo: nat, hi: nat, key: nat) returns (i: int)
    requires Sorted(ns, lo, hi) && lo <= key
    ensures Holds(ns, i, key) && At(ns, key) == ns[i].val
  {
    i := |ns| - 1;
    while ns[i].begKey > key
      invariant 0 <= i < |ns| && (i + 1 < |ns| ==> key < ns[i + 1].begKey)
    {
      i := i - 1;
    }
    AtHolder(ns, lo, hi, i, key);
  }

  /** Canonical lists are determined by their bounds and their contents. */
  lemma CanonicalUnique<T>(a: seq<Node<T>>, b: seq<Node<T>>, lo: nat, hi: nat)
    requires Canonical(a, lo, hi) && Canonical(b, lo, hi)
    requires forall k :: lo <= k <= hi ==> At(a, k) == At(b, k)
    ensures a == b
  {
    var i := 0;
    AgreeAt(a, b, lo, hi, 0);
    while i + 1 < |a| && i + 1 < |b|
      invariant 0 <= i < |a| && i < |b|
      invariant forall j :: 0 <= j <= i ==> a[j] == b[j]
    {
      NextStart(a, b, lo, hi, i);
      NextStart(b, a, lo, hi, i);
      i := i + 1;
      AgreeAt(a, b, lo, hi, i);
    }
    if i + 1 < |a| {
      NextStart(a, b, lo, hi, i);
    }
    if i + 1 < |b| {
      NextStart(b, a, lo, hi, i);
    }
  }

  /** Two lists with the same contents that share the start of node `i` share its value. */
  lemma AgreeAt<T>(a: seq<Node<T>>, b: seq<Node<T>>, lo: nat, hi: nat, i: nat)
    requires Canonical(a, lo, hi) && Canonical(b, lo, hi)
    requires i < |a| && i < |b| && a[i].begKey == b[i].begKey
    requires forall k :: lo <= k <= hi ==> At(a, k) == At(b, k)
    ensures a[i] == b[i]
  {
    var k := a[i].begKey;
    AtHolder(a, lo, hi, i, k);
    AtHolder(b, lo, hi, i, k);
    assert a[0].begKey <= k;
  }

  /** If the lists agree on node `i` and `a` has a next node, `b` has one that starts no later. */
  lemma NextStart<T>(a: seq<Node<T>>, b: seq<Node<T>>, lo: nat, hi: nat, i: nat)
    requires Canonical(a, lo, hi) && Canonical(b, lo, hi)
    requires i + 1 < |a| && i < |b| && a[i] == b[i]
    requires forall k :: lo <= k <= hi ==> At(a, k) == At(b, k)
    ensures i + 1 < |b| && b[i + 1].begKey <= a[i + 1].begKey
  {
    var k := a[i + 1].begKey;
    AtHolder(a, lo, hi, i + 1, k);
    assert a[0].begKey < k && a[i].val != a[i + 1].val;
    if i + 1 >= |b| || k < b[i + 1].begKey {
      AtHolder(b, lo, hi, i, k);
    }
  }

  /** Two lists of nodes of which the second gives [low..high] the value `v` and keeps the rest. */
  ghost predicate Overwritten<T>(before: seq<Node<T>>, after: seq<Node<T>>, lo: nat, hi: nat, low: nat, high: nat, v: T)
    requires 0 < |before| && 0 < |after|
  {
    forall k :: lo <= k <= hi ==> At(after, k) == if low <= k <= high then v else At(before, k)
  }

  /** `r` is `ns` with node `i` cut in two at `key`. */
  ghost predicate IsSplit<T>(ns: seq<Node<T>>, r: seq<Node<T>>, i: nat, key: U64) {
    && i < |ns| && |r| == |ns| + 1 && r[i + 1] == Node(key, ns[i].val)
    && (forall j :: 0 <= j <= i ==> r[j] == ns[j])
    && (forall j :: i + 1 < j < |r| ==> r[j] == ns[j - 1])
  }

  function Split<T>(ns: seq<Node<T>>, i: nat, key: U64): (r: seq<Node<T>>)
    requires i < |ns|
    ensures IsSplit(ns, r, i, key)
  {
    ns[..i + 1] + [Node(key, ns[i].val)] + ns[i + 1..]
  }

  /** Some node starts at `key`. */
  ghost predicate Starts<T>(ns: seq<Node<T>>, key: nat) {
    exists i :: 0 <= i < |ns| && ns[i].begKey == key
  }

  lemma SplitStarts<T>(ns: seq<Node<T>>, r: seq<Node<T>>, i: nat, key: U64)
    requires IsSplit(ns, r, i, key)
    ensures Starts(r, key) && forall k :: Starts(ns, k) ==> Starts(r, k)
  {
    assert r[i + 1].begKey == key;
    forall k | Starts(ns, k)
      ensures Starts(r, k)
    {
      var j :| 0 <= j < |ns| && ns[j].begKey == k;
      assert r[if j <= i then j else j + 1].begKey == k;
    }
  }

  lemma SplitSorted<T>(ns: seq<Node<T>>, r: seq<Node<T>>, lo: nat, hi: nat, i: nat, key: U64)
    requires Sorted(ns, lo, hi) && Holds(ns, i, key) && ns[i].begKey != key && key <= hi
    requires IsSplit(ns, r, i, key)
    ensures Sorted(r, lo, hi)
  {
    forall a, b | 0 <= a < b < |r|
      ensures r[a].begKey < r[b].begKey
    {
      var x := if a <= i then a else a - 1;
      var y := if b <= i then b else b - 1;
      assert x < y ==> ns[x].begKey < ns[y].begKey;
      assert x < i ==> ns[x].begKey < ns[i].begKey;
      assert i + 1 < y ==> ns[i + 1].begKey < ns[y].begKey;
    }
  }

  /** Cutting a node in two changes no value. */
  lemma SplitKeeps<T>(ns: seq<Node<T>>, r: seq<Node<T>>, lo: nat, hi: nat, i: nat, key: U64)
    requires Sorted(ns, lo, hi) && Holds(ns, i, key) && ns[i].begKey != key && key <= hi
    requires IsSplit(ns, r, i, key)
    ensures Sorted(r, lo, hi)
    ensures forall k :: lo <= k <= hi ==> At(r, k) == At(ns, k)
    ensures Starts(r, key) && forall k :: Starts(ns, k) ==> Starts(r, k)
  {
    SplitStarts(ns, r, i, key);
    SplitSorted(ns, r, lo, hi, i, key);
    forall k | lo <= k <= hi
      ensures At(r, k) == At(ns, k)
    {
      var j := HolderOf(ns, lo, hi, k);
      AtHolder(r, lo, hi, if j < i || (j == i && k < key) then j else j + 1, k);
    }
  }

  lemma HolderInside<T>(ns: seq<Node<T>>, i: int, key: nat)
    requires Holds(ns, i, key)
    ensures 0 <= i < |ns|
  {
  }

  /** `r` is `ns` without node `i + 1`. */
  ghost predicate IsDrop<T>(ns: seq<Node<T>>, r: seq<Node<T>>, i: nat) {
    i + 1 < |ns| && |r| == |ns| - 1 && (forall j :: 0 <= j <= i ==> r[j] == ns[j]) &&
    forall j :: i < j < |r| ==> r[j] == ns[j + 1]
  }

  lemma DropSorted<T>(ns: seq<Node<T>>, r: seq<Node<T>>, lo: nat, hi: nat, i: nat)
    requires Sorted(ns, lo, hi) && IsDrop(ns, r, i)
    ensures Sorted(r, lo, hi)
  {
  }

  /** Who holds a key in `ns` holds it in `r`, or its predecessor does, with the same value. */
  lemma DropHolds<T>(ns: seq<Node<T>>, r: seq<Node<T>>, lo: nat, hi: nat, i: nat, j: nat, k: nat)
    requires Sorted(ns, lo, hi) && IsDrop(ns, r, i) && ns[i].val == ns[i + 1].val && Holds(ns, j, k)
    ensures var h := if j <= i then j else j - 1; Holds(r, h, k) && r[h].val == ns[j].val
  {
    if j == i && i + 2 < |ns| {
      assert ns[i + 1].begKey < ns[i + 2].begKey;
    }
  }

  lemma DropKeeps<T>(ns: seq<Node<T>>, r: seq<Node<T>>, lo: nat, hi: nat, i: nat, k: nat)
    requires Sorted(ns, lo, hi) && IsDrop(ns, r, i) && ns[i].val == ns[i + 1].val && lo <= k <= hi
    ensures 0 < |r| && At(r, k) == At(ns, k)
  {
    hide At, Holds;
    DropSorted(ns, r, lo, hi, i);
    var j := HolderOf(ns, lo, hi, k);
    HolderInside(ns, j, k);
    DropHolds(ns, r, lo, hi, i, j, k);
    AtHolder(r, lo, hi, if j <= i then j else j - 1, k);
  }

  /** Removing a node whose value repeats its predecessor's changes no value. */
  lemma MergeKeeps<T>(ns: seq<Node<T>>, lo: nat, hi: nat, i: nat)
    requires Sorted(ns, lo, hi) && i + 1 < |ns| && ns[i].val == ns[i + 1].val
    ensures var r := ns[..i + 1] + ns[i + 2..];
            Sorted(r, lo, hi) && forall k :: lo <= k <= hi ==> At(r, k) == At(ns, k)
  {
    var r := ns[..i + 1] + ns[i + 2..];
    assert IsDrop(ns, r, i);
    DropSorted(ns, r, lo, hi, i);
    forall k | lo <= k <= hi
      ensures At(r, k) == At(ns, k)
    {
      hide At, Sorted, IsDrop;
      DropKeeps(ns, r, lo, hi, i, k);
    }
  }

  /** Writing `v` over the whole nodes a..b-1 writes it over exactly the keys they cover. */
  lemma OverwriteNodes<T>(ns: seq<Node<T>>, r: seq<Node<T>>, lo: nat, hi: nat, low: nat, high: nat, a: nat, b: nat,
                          v: T)
    requires Sorted(ns, lo, hi) && lo <= low <= high <= hi
    requires a < b <= |ns| && ns[a].begKey == low
    requires if b < |ns| then ns[b].begKey == high + 1 else high == hi
    requires |r| == |ns| && forall j :: 0 <= j < |ns| ==> r[j] == if a <= j < b then Node(ns[j].begKey, v) else ns[j]
    ensures Sorted(r, lo, hi) && Overwritten(ns, r, lo, hi, low, high, v)
  {
    forall k | lo <= k <= hi
      ensures At(r, k) == if low <= k <= high then v else At(ns, k)
    {
      var j := HolderOf(ns, lo, hi, k);
      AtHolder(r, lo, hi, j, k);
      if a < j {
        assert ns[a].begKey < ns[j].begKey;
      }
      if j < a && j + 1 < a {
        assert ns[j + 1].begKey < ns[a].begKey;
      }
      if b < j {
        assert ns[b].begKey < ns[j].begKey;
      }
      if j < b && j + 1 < b && b < |ns| {
        assert ns[j + 1].begKey < ns[b].begKey;
      }
    }
  }

  class RangeMap<T(==)> {
    const minKey: U64
    const maxKey: U64
    var ranges: seq<Node<T>>

    ghost predicate Valid()
      reads this
    {
      minKey <= maxKey && Canonical(ranges, minKey, maxKey)
    }

    constructor (minKey: U64, maxKey: U64, val: T)
      requires minKey <= maxKey
      ensures Valid() && this.minKey == minKey && this.maxKey == maxKey
      ensures ranges == [Node(minKey, val)]
    {
      this.minKey, this.maxKey, ranges := minKey, maxKey, [Node(minKey, val)];
    }

    /** The last node that starts at or before `key`. */
    method FindNode(key: U64) returns (it: nat)
      requires Sorted(ranges, minKey, maxKey) && minKey <= key
      ensures Holds(ranges, it, key)
    {
      it := 0;
      var next := 1;
      while next != |ranges| && key >= ranges[next].begKey
        invariant next == it + 1 <= |ranges| && ranges[it].begKey <= key
        decreases |ranges| - next
      {
        it, next := next, next + 1;
      }
    }

    method Get(key: U64) returns (v: T)
      requires Valid() && minKey <= key <= maxKey
      ensures v == At(ranges, key)
    {
      var it := FindNode(key);
      AtHolder(ranges, minKey, maxKey, it, key);
      v := ranges[it].val;
    }

    /** Splits at both ends, overwrites the nodes in between, then merges equal neighbours. */
    method Set(low: U64, high: U64, val: T)
      requires Valid() && minKey <= low <= high <= maxKey
      modifies this
      ensures Valid() && Overwritten(old(ranges), ranges, minKey, maxKey, low, high, val)
    {
      hide At, Starts, Holds;
      SplitAt(low);
      var highIt := |ranges|;
      if high != maxKey {
        var key: U64 := high + 1;
        SplitAt(key);
        highIt := FindNode(key);
      }
      var lowIt := FindNode(low);
      ghost var cut := ranges;
      AtCut(cut, minKey, maxKey, low);
      if high != maxKey {
        AtCut(cut, minKey, maxKey, high + 1);
      }
      var it := lowIt;
      while it != highIt
        invariant lowIt <= it <= highIt <= |ranges| == |cut|
        invariant forall j :: 0 <= j < |cut| ==>
                  ranges[j] == if lowIt <= j < it then Node(cut[j].begKey, val) else cut[j]
        decreases highIt - it
      {
        ranges := ranges[it := Node(ranges[it].begKey, val)];
        it := it + 1;
      }
      OverwriteNodes(cut, ranges, minKey, maxKey, low, high, lowIt, highIt, val);
      Fix();
    }

    /** Makes some node start at `key`. */
    method SplitAt(key: U64)
      requires Sorted(ranges, minKey, maxKey) && minKey <= key <= maxKey
      modifies this
      ensures Sorted(ranges, minKey, maxKey)
      ensures forall k :: minKey <= k <= maxKey ==> At(ranges, k) == old(At(ranges, k))
      ensures Starts(ranges, key) && forall k :: Starts(old(ranges), k) ==> Starts(ranges, k)
    {
      var it := FindNode(key);
      if ranges[it].begKey != key {
        ghost var was := ranges;
        ranges := Split(ranges, it, key);
        SplitKeeps(was, ranges, minKey, maxKey, it, key);
      }
    }

    /** Merges neighbours that carry the same value. */
    method Fix()
      requires Sorted(ranges, minKey, maxKey)
      modifies this
      ensures Canonical(ranges, minKey, maxKey)
      ensures forall k :: minKey <= k <= maxKey ==> At(ranges, k) == old(At(ranges, k))
    {
      var idx := 0;
      while idx + 1 < |ranges|
        invariant Sorted(ranges, minKey, maxKey) && 0 <= idx < |ranges| && MergedUpTo(ranges, idx + 1)
        invariant forall k :: minKey <= k <= maxKey ==> At(ranges, k) == old(At(ranges, k))
        decreases |ranges| - idx
      {
        if ranges[idx].val == ranges[idx + 1].val {
          MergeKeeps(ranges, minKey, maxKey, idx);
          ranges := ranges[..idx + 1] + ranges[idx + 2..];
        } else {
          idx := idx + 1;
        }
      }
    }

    /** The run around `key`: constant, and maximal on both sides. */
    method RangeOf(key: U64) returns (r: Range<T>)
      requires Valid() && minKey <= key <= maxKey
      ensures minKey <= r.low <= key <= r.high <= maxKey
      ensures forall k :: r.low <= k <= r.high ==> At(ranges, k) == r.val
      ensures r.low > minKey ==> At(ranges, r.low - 1) != r.val
      ensures r.high < maxKey ==> At(ranges, r.high + 1) != r.val
    {
      var it := FindNode(key);
      r := RangeAt(it);
    }

    /** The `i`-th run in key order. */
    method RangeAt(i: nat) returns (r: Range<T>)
      requires Valid() && i < |ranges|
      ensures r.low == ranges[i].begKey && r.val == ranges[i].val
      ensures r.high == if i + 1 < |ranges| then ranges[i + 1].begKey - 1 else maxKey
      ensures minKey <= r.low <= r.high <= maxKey
      ensures forall k :: r.low <= k <= r.high ==> At(ranges, k) == r.val
      ensures r.low > minKey ==> At(ranges, r.low - 1) != r.val
      ensures r.high < maxKey ==> At(ranges, r.high + 1) != r.val
    {
      var next := i + 1;
      if next != |ranges| {
        assert ranges[i].begKey < ranges[next].begKey;
      }
      var endKey: U64 := if next == |ranges| then maxKey else ranges[next].begKey - 1;
      r := Range(ranges[i].begKey, endKey, ranges[i].val);
      assert i > 0 ==> ranges[0].begKey < ranges[i].begKey;
      forall k | r.low <= k <= r.high
        ensures At(ranges, k) == r.val
      {
        AtHolder(ranges, minKey, maxKey, i, k);
      }
      if r.low > minKey {
        assert i > 0 && ranges[i - 1].begKey < r.low && ranges[i - 1].val != ranges[i].val;
        AtHolder(ranges, minKey, maxKey, i - 1, r.low - 1);
      }
      if r.high < maxKey {
        AtHolder(ranges, minKey, maxKey, next, r.high + 1);
      }
    }
  }

  /** A key at which some node starts is held by that node. */
  lemma AtCut<T>(ns: seq<Node<T>>, lo: nat, hi: nat, key: nat)
    requires Sorted(ns, lo, hi) && Starts(ns, key)
    ensures forall i :: Holds(ns, i, key) ==> ns[i].begKey == key
  {
    var j :| 0 <= j < |ns| && ns[j].begKey == key;
    forall i | Holds(ns, i, key)
      ensures ns[i].begKey == key
    {
      assert i == j;
    }
  }

  // Whole histories of updates.

  datatype Update<T> = Update(low: U64, high: U64, val: T)

  /** The total map after the updates, as the fold of pointwise assignments. */
  function Fold<T>(init: T, us: seq<Update<T>>, key: nat): T {
    if us == [] then init
    else
      var u := us[|us| - 1];
      if u.low <= key <= u.high then u.val else Fold(init, us[..|us| - 1], key)
  }

  /** `states` are the node lists a map goes through under `us`, as the contract of Set allows. */
  ghost predicate History<T>(lo: U64, hi: U64, init: T, us: seq<Update<T>>, states: seq<seq<Node<T>>>) {
    && lo <= hi
    && |states| == |us| + 1
    && states[0] == [Node(lo, init)]
    && (forall i :: 0 <= i < |us| ==> lo <= us[i].low <= us[i].high <= hi)
    && (forall i :: 0 <= i < |states| ==> Canonical(states[i], lo, hi))
    && (forall i :: 0 <= i < |us| ==> Overwritten(states[i], states[i + 1], lo, hi, us[i].low, us[i].high, us[i].val))
  }

  /** After any sequence of updates the map is the fold of pointwise assignments. */
  lemma {:induction false} HistoryIsFold<T>(lo: U64, hi: U64, init: T, us: seq<Update<T>>, states: seq<seq<Node<T>>>)
    requires History(lo, hi, init, us, states)
    ensures forall k :: lo <= k <= hi ==> At(states[|us|], k) == Fold(init, us, k)
  {
    if us != [] {
      var n := |us| - 1;
      HistoryIsFold(lo, hi, init, us[..n], states[..n + 1]);
    }
  }

  /** A new map taken through a list of updates. */
  method Play<T(==)>(lo: U64, hi: U64, init: T, us: seq<Update<T>>)
      returns (m: RangeMap<T>, ghost states: seq<seq<Node<T>>>)
    requires lo <= hi && forall i :: 0 <= i < |us| ==> lo <= us[i].low <= us[i].high <= hi
    ensures fresh(m) && m.Valid() && m.minKey == lo && m.maxKey == hi
    ensures History(lo, hi, init, us, states) && m.ranges == states[|us|]
    ensures forall k :: lo <= k <= hi ==> At(m.ranges, k) == Fold(init, us, k)
  {
    hide Overwritten, At;
    m := new RangeMap<T>(lo, hi, init);
    states := [m.ranges];
    var i := 0;
    assert us[..0] == [];
    while i < |us|
      invariant 0 <= i <= |us| && fresh(m) && m.Valid() && m.minKey == lo && m.maxKey == hi
      invariant History(lo, hi, init, us[..i], states) && m.ranges == states[i]
    {
      m.Set(us[i].low, us[i].high, us[i].val);
      HistoryGrows(lo, hi, init, us, i, states, m.ranges);
      states := states + [m.ranges];
      i := i + 1;
    }
    assert us[..i] == us;
    HistoryIsFold(lo, hi, init, us, states);
  }

  lemma HistoryGrows<T>(lo: U64, hi: U64, init: T, us: seq<Update<T>>, i: nat, states: seq<seq<Node<T>>>,
                        next: seq<Node<T>>)
    requires i < |us| && History(lo, hi, init, us[..i], states) && lo <= us[i].low <= us[i].high <= hi
    requires 0 < |next| && Canonical(next, lo, hi) &&
             Overwritten(states[i], next, lo, hi, us[i].low, us[i].high, us[i].val)
    ensures History(lo, hi, init, us[..i + 1], states + [next])
  {
    hide Overwritten, Canonical;
  }

  ghost predicate SameFold<T>(lo: U64, hi: U64, a: T, us: seq<Update<T>>, b: T, vs: seq<Update<T>>) {
    forall k :: lo <= k <= hi ==> Fold(a, us, k) == Fold(b, vs, k)
  }

  /** Two histories have the same contents exactly when they end in the very same node list. */
  lemma SameContentsSameNodes<T>(lo: U64, hi: U64, a: T, us: seq<Update<T>>, ss: seq<seq<Node<T>>>,
                                 b: T, vs: seq<Update<T>>, ts: seq<seq<Node<T>>>)
    requires History(lo, hi, a, us, ss) && History(lo, hi, b, vs, ts)
    ensures SameFold(lo, hi, a, us, b, vs) <==> ss[|us|] == ts[|vs|]
  {
    HistoryIsFold(lo, hi, a, us, ss);
    HistoryIsFold(lo, hi, b, vs, ts);
    if SameFold(lo, hi, a, us, b, vs) {
      CanonicalUnique(ss[|us|], ts[|vs|], lo, hi);
    }
    if ss[|us|] == ts[|vs|] {
      forall k | lo <= k <= hi
        ensures Fold(a, us, k) == Fold(b, vs, k)
      {
        assert At(ss[|us|], k) == At(ts[|vs|], k);
      }
    }
  }
}
