/**
 txSortedMap of tx_list.go: a nonce-indexed map with a heap of its nonces and a
 cache of the sorted contents. All three are kept in agreement by every operation.
 */
module TxSortedMap {
  import opened TxListSpec
  import Heap

  datatype Option<T> = None | Some(value: T)

  function NonceKey(n: nat): Heap.Key { (n, 0) }

  ghost predicate Ascending(s: seq<nat>) { forall i, j :: 0 <= i < j < |s| ==> s[i] < s[j] }

  method Insert(r: seq<nat>, x: nat) returns (s: seq<nat>)
    requires Ascending(r) && x !in r
    ensures Ascending(s) && multiset(s) == multiset(r) + multiset{x}
  {
    var k := 0;
    while k < |r| && r[k] < x
      invariant 0 <= k <= |r| && forall j :: 0 <= j < k ==> r[j] < x
    {
      k := k + 1;
    }
    InsertedAscending(r, k, x);
    InsertedCounts(r, k, x);
    s := r[..k] + [x] + r[k..];
  }

  lemma InsertedAscending(r: seq<nat>, k: nat, x: nat)
    requires Ascending(r) && x !in r && k <= |r| && (forall j :: 0 <= j < k ==> r[j] < x) && (k < |r| ==> x <= r[k])
    ensures Ascending(r[..k] + [x] + r[k..])
  {
    if k < |r| { assert r[k] != x; }
    assert forall j :: k < j < |r| ==> r[k] < r[j];
  }

  lemma InsertedCounts(r: seq<nat>, k: nat, x: nat)
    requires k <= |r|
    ensures multiset(r[..k] + [x] + r[k..]) == multiset(r) + multiset{x}
  {
    assert r == r[..k] + r[k..];
  }

  /** sort.Sort, by insertion. */
  method Sort(s: seq<nat>) returns (r: seq<nat>)
    requires forall i, j :: 0 <= i < j < |s| ==> s[i] != s[j]
    ensures Ascending(r) && multiset(r) == multiset(s)
  {
    r := [];
    var i := 0;
    while i < |s|
      invariant 0 <= i <= |s| && Ascending(r) && multiset(r) == multiset(s[..i])
    {
      assert s[..i + 1] == s[..i] + [s[i]];
      assert s[i] in r <==> s[i] in multiset(s[..i]);
      r := Insert(r, s[i]);
      i := i + 1;
    }
    assert s[..|s|] == s;
  }

  lemma TwiceCounts(h: seq<nat>, i: nat, j: nat)
    requires i < j < |h| && h[i] == h[j]
    ensures multiset(h)[h[j]] >= 2
  {
    assert h == h[..j] + [h[j]] + h[j + 1..];
    assert h[i] in h[..j];
  }

  /** A heap that holds each key of a map once has as many elements as the map. */
  lemma KeysOnce(h: seq<nat>, keys: set<nat>)
    requires multiset(h) == multiset(keys)
    ensures |h| == |keys|
    ensures forall i, j :: 0 <= i < j < |h| ==> h[i] != h[j]
    ensures forall n :: n in keys <==> n in h
  {
    assert |multiset(h)| == |h| && |multiset(keys)| == |keys|;
    forall i, j | 0 <= i < j < |h| ensures h[i] != h[j] {
      if h[i] == h[j] { TwiceCounts(h, i, j); }
    }
    forall n ensures n in keys <==> n in h { assert n in multiset(keys) <==> n in multiset(h); }
  }

  /** The heap holds each nonce of the map once, in heap order. */
  ghost predicate Indexes(index: seq<nat>, items: Items) {
    Filed(items) && Heap.IsHeap(NonceKey, index) && multiset(index) == multiset(items.Keys)
  }

  /** The head of the index is the lowest nonce. */
  lemma HeadIsMin(index: seq<nat>, items: Items)
    requires Indexes(index, items) && index != []
    ensures IsMin(items, index[0])
  {
    KeysOnce(index, items.Keys);
    forall n | n in items ensures index[0] <= n {
      var i :| 0 <= i < |index| && index[i] == n;
      Heap.HeadIsLeast(NonceKey, index, i);
    }
  }

  /** Take the transaction with the lowest nonce out of the heap and the map. */
  method PopMin(index: seq<nat>, items: Items) returns (index': seq<nat>, items': Items, tx: Tx)
    requires Indexes(index, items) && index != []
    ensures Indexes(index', items')
    ensures tx.nonce == index[0] && IsMin(items, tx.nonce) && tx == items[tx.nonce]
    ensures items' == From(items, tx.nonce + 1)
  {
    HeadIsMin(index, items);
    var nonce;
    nonce, index' := Heap.Pop(NonceKey, index);
    tx := items[nonce];
    WithoutOne(index, index', items, nonce);
    items' := items - {nonce};
    assert items' == From(items, nonce + 1);
  }

  /** The loop of Forward. */
  method PopBelow(index0: seq<nat>, items0: Items, threshold: nat)
    returns (index: seq<nat>, items: Items, removed: seq<Tx>)
    requires Indexes(index0, items0)
    ensures Indexes(index, items) && Popped(items0, threshold, items, removed)
  {
    index, items, removed := index0, items0, [];
    ghost var t: nat := 0;
    PoppedNone(items0, t);
    while |index| > 0 && index[0] < threshold
      invariant Indexes(index, items) && t <= threshold && Popped(items0, t, items, removed)
      decreases |items|
    {
      HeadIsMin(index, items);
      ghost var before := items;
      var tx;
      index, items, tx := PopMin(index, items);
      PoppedNext(items0, t, before, removed, tx);
      removed := removed + [tx];
      t := tx.nonce + 1;
    }
    if |index| > 0 { HeadIsMin(index, items); }
    KeysOnce(index, items.Keys);
    PoppedAll(items0, t, items, removed, threshold);
  }

  /** The loop of Ready: pop from the lowest nonce to the first gap. */
  method PopRun(index0: seq<nat>, items0: Items)
    returns (index: seq<nat>, items: Items, ready: seq<Tx>, ghost lo: nat, ghost hi: nat)
    requires Indexes(index0, items0) && index0 != []
    ensures Indexes(index, items) && Popped(items0, hi, items, ready) && hi !in items
    ensures lo == index0[0] < hi && forall k :: lo <= k < hi ==> k in items0
  {
    index, items, ready := index0, items0, [];
    var next: nat := index[0];
    HeadIsMin(index, items);
    lo := next;
    PoppedNone(items0, next);
    while |index| > 0 && index[0] == next
      invariant Indexes(index, items) && Popped(items0, next, items, ready)
      invariant Consecutive(items0, lo, next) && lo <= next
      invariant next == lo ==> |index| > 0 && index[0] == next
      decreases |items|
    {
      ghost var before := items;
      var tx;
      index, items, tx := PopMin(index, items);
      PoppedNext(items0, next, before, ready, tx);
      ready := ready + [tx];
      next := next + 1;
    }
    hi := next;
    if |index| > 0 { HeadIsMin(index, items); }
    KeysOnce(index, items.Keys);
    ConsecutiveAll(items0, lo, hi);
  }

  method PlaceOf(index: seq<nat>, nonce: nat) returns (i: nat)
    requires nonce in index
    ensures i < |index| && index[i] == nonce
  {
    i := 0;
    while i < |index| && index[i] != nonce
      invariant 0 <= i <= |index| && nonce !in index[..i]
    {
      i := i + 1;
    }
  }

  class SortedMap {
    var items: Items
    var index: seq<nat>
    var cache: Option<seq<Tx>>

    /** ... and a cache is the sorted contents. */
    ghost predicate Valid()
      reads this
    {
      Indexes(index, items) && (cache.Some? ==> SortedOf(cache.value, items))
    }

    constructor ()
      ensures Valid() && items == map[]
    {
      items, index, cache := map[], [], None;
    }

    method Put(tx: Tx)
      requires Valid()
      modifies this
      ensures Valid() && items == old(items)[tx.nonce := tx]
    {
      hide Heap.IsHeap;
      WithOne(items, tx);
      if tx.nonce !in items { index := Heap.Push(NonceKey, index, tx.nonce); }
      items, cache := items[tx.nonce := tx], None;
    }

    method Forward(threshold: nat) returns (removed: seq<Tx>)
      requires Valid()
      modifies this
      ensures Valid() && items == From(old(items), threshold)
      ensures SortedOf(removed, Below(old(items), threshold))
    {
      index, items, removed := PopBelow(index, items, threshold);
      if cache.Some? {
        SortedCut(cache.value, old(items), threshold);
        SortedLength(removed, Below(old(items), threshold));
        cache := Some(cache.value[|removed|..]);
      }
    }

    /** Removes what the predicate selects; the map is visited in no particular order. */
    method Filter(selects: Tx -> bool) returns (removed: seq<Tx>)
      requires Valid()
      modifies this
      ensures Valid() && items == Unchosen(old(items), selects, {}) && Lists(removed, Chosen(old(items), selects, {}))
    {
      removed := [];
      ghost var was := items;
      var todo := items.Keys;
      FilterStart(was, selects);
      while todo != {}
        invariant todo <= was.Keys && cache == old(cache) && index == old(index)
        invariant items == Unchosen(was, selects, todo) && Lists(removed, Chosen(was, selects, todo))
        decreases todo
      {
        var nonce :| nonce in todo;
        FilterStep(was, selects, todo, nonce, removed);
        todo := todo - {nonce};
        if selects(items[nonce]) {
          removed := removed + [items[nonce]];
          items := items - {nonce};
        }
      }
      if |removed| > 0 {
        Reindex();
        cache := None;
      } else {
        ListsLength(removed, Chosen(was, selects, {}));
        NoneChosen(was, selects);
      }
    }

    /** Rebuild the heap from the keys of the map. */
    method Reindex()
      requires Filed(items)
      modifies this`index
      ensures Indexes(index, items)
    {
      var keys: seq<nat> := [];
      var todo := items.Keys;
      while todo != {}
        invariant todo <= items.Keys && multiset(keys) == multiset(items.Keys - todo)
        decreases todo
      {
        var nonce :| nonce in todo;
        assert items.Keys - (todo - {nonce}) == (items.Keys - todo) + {nonce};
        todo := todo - {nonce};
        keys := keys + [nonce];
      }
      index := Heap.Init(NonceKey, keys);
    }

    method Remove(nonce: nat) returns (found: bool)
      requires Valid()
      modifies this
      ensures Valid() && found == (nonce in old(items)) && items == old(items) - {nonce}
    {
      found := nonce in items;
      if !found {
        assert items == items - {nonce};
        return;
      }
      KeysOnce(index, items.Keys);
      var i := PlaceOf(index, nonce);
      index := Heap.Remove(NonceKey, index, i);
      WithoutOne(old(index), index, items, nonce);
      items, cache := items - {nonce}, None;
    }

    method Ready(start: nat) returns (ready: seq<Tx>)
      requires Valid()
      modifies this
      ensures Valid()
      ensures exists taken ::
        ReadyTakes(old(items), start, taken) && SortedOf(ready, taken) && items == old(items) - taken.Keys
    {
      if |index| > 0 { HeadIsMin(index, items); }
      KeysOnce(index, items.Keys);
      if |index| == 0 || index[0] > start {
        ready := [];
        ReadyNone(items, start);
        return;
      }
      ghost var lo, hi;
      index, items, ready, lo, hi := PopRun(index, items);
      ReadyRun(old(items), start, lo, hi, items, ready);
      cache := None;
    }

    method Cap(threshold: nat) returns (drops: seq<Tx>)
      requires Valid()
      modifies this
      ensures Valid() && items == CapKept(old(items), threshold) && Lists(drops, CapDropped(old(items), threshold))
      ensures |old(items)| > threshold ==> |items| == threshold
    {
      KeysOnce(index, items.Keys);
      if |items| <= threshold {
        AllKept(items, threshold);
        drops := [];
        return;
      }
      var sorted := Sort(index);
      KeysOnce(sorted, items.Keys);
      var kept;
      kept, drops := DropHighest(items, sorted, threshold);
      if cache.Some? {
        CapCache(sorted, cache.value, items, threshold, drops);
        cache := Some(cache.value[..|cache.value| - |drops|]);
      }
      CapKeys(sorted, items, threshold);
      index := Heap.Init(NonceKey, sorted[..threshold]);
      items := kept;
    }

    method Flatten() returns (txs: seq<Tx>)
      requires Valid()
      modifies this`cache
      ensures Valid() && SortedOf(txs, items)
    {
      if cache.None? {
        KeysOnce(index, items.Keys);
        var keys := Sort(index);
        KeysOnce(keys, items.Keys);
        var all := Pick(items, keys);
        cache := Some(all);
      }
      txs := cache.value;
    }
  }

  /** The loop of Cap: gather and delete the highest nonces. */
  method DropHighest(m: Items, sorted: seq<nat>, threshold: nat) returns (kept: Items, drops: seq<Tx>)
    requires Filed(m) && Ascending(sorted) && multiset(sorted) == multiset(m.Keys) && threshold <= |sorted| == |m|
    ensures kept == CapKept(m, threshold) && Lists(drops, CapDropped(m, threshold))
  {
    hide Lower;
    kept, drops := m, [];
    var size := |m|;
    AllKept(m, size);
    hide CapKept;
    hide CapDropped;
    hide Lists;
    hide Filed;
    hide Ascending;
    while size > threshold
      invariant threshold <= size <= |sorted|
      invariant kept == CapKept(m, size) && Lists(drops, CapDropped(m, size))
    {
      CapStep(sorted, m, size, drops);
      var nonce := sorted[size - 1];
      drops := drops + [kept[nonce]];
      kept := kept - {nonce};
      size := size - 1;
    }
  }

  /** The transactions at the given nonces, in that order. */
  method Pick(m: Items, keys: seq<nat>) returns (txs: seq<Tx>)
    requires Filed(m) && Ascending(keys) && forall n :: n in m <==> n in keys
    ensures SortedOf(txs, m)
  {
    txs := [];
    var i := 0;
    while i < |keys|
      invariant 0 <= i <= |keys| && |txs| == i
      invariant forall k :: 0 <= k < i ==> txs[k] == m[keys[k]]
    {
      txs := txs + [m[keys[i]]];
      i := i + 1;
    }
    forall n | n in m ensures m[n] in txs {
      var k :| 0 <= k < |keys| && keys[k] == n;
      assert txs[k] == m[n];
    }
  }

  // -------------------------------------------------------- popping from below

  /** Everything below t has been popped, in order. */
  ghost predicate Popped(was: Items, t: nat, items: Items, removed: seq<Tx>) {
    items == From(was, t) && SortedOf(removed, Below(was, t))
  }

  lemma PoppedNone(was: Items, t: nat)
    requires forall n :: n in was ==> n >= t
    ensures Popped(was, t, was, [])
  {
    assert From(was, t) == was && Below(was, t) == map[];
  }

  lemma PoppedNext(was: Items, t: nat, items: Items, removed: seq<Tx>, tx: Tx)
    requires Filed(was) && Popped(was, t, items, removed)
    requires IsMin(items, tx.nonce) && items[tx.nonce] == tx
    ensures Popped(was, tx.nonce + 1, From(items, tx.nonce + 1), removed + [tx])
    ensures tx.nonce >= t && tx.nonce in was && |From(items, tx.nonce + 1)| < |items|
  {
    forall n | n in was && t <= n <= tx.nonce ensures n == tx.nonce { assert n in items; }
    SortedNext(removed, was, t, tx);
    var rest := From(items, tx.nonce + 1);
    assert rest == From(was, tx.nonce + 1);
    assert items.Keys == rest.Keys + {tx.nonce};
  }

  lemma PoppedAll(was: Items, t: nat, items: Items, removed: seq<Tx>, threshold: nat)
    requires Popped(was, t, items, removed) && t <= threshold
    requires forall n :: n in items ==> n >= threshold
    ensures Popped(was, threshold, items, removed)
  {
    forall n | n in was && n >= t ensures n >= threshold { assert n in items; }
    assert items == From(was, threshold) && Below(was, t) == Below(was, threshold);
  }

  /** All nonces from lo up to hi are there. */
  ghost predicate Consecutive(m: Items, lo: nat, hi: nat) {
    hi <= lo || (hi - 1 in m && Consecutive(m, lo, hi - 1))
  }

  lemma {:induction false} ConsecutiveAll(m: Items, lo: nat, hi: nat)
    requires Consecutive(m, lo, hi)
    ensures forall k :: lo <= k < hi ==> k in m
  {
    if lo < hi { ConsecutiveAll(m, lo, hi - 1); }
  }

  lemma ReadyNone(m: Items, start: nat)
    requires forall n :: n in m ==> n > start
    ensures exists taken :: ReadyTakes(m, start, taken) && SortedOf([], taken) && m == m - taken.Keys
  {
    var none: Items := map[];
    assert ReadyTakes(m, start, none) && SortedOf([], none) && m == m - none.Keys;
  }

  lemma ReadyRun(was: Items, start: nat, lo: nat, hi: nat, items: Items, ready: seq<Tx>)
    requires IsMin(was, lo) && lo < hi && lo <= start && (forall k :: lo <= k < hi ==> k in was)
    requires Popped(was, hi, items, ready) && hi !in items
    ensures exists taken :: ReadyTakes(was, start, taken) && SortedOf(ready, taken) && items == was - taken.Keys
  {
    var taken := Below(was, hi);
    assert hi !in was;
    assert ReadyTakes(was, start, taken);
    assert items == was - taken.Keys;
  }

  lemma WithOne(m: Items, tx: Tx)
    ensures multiset((m[tx.nonce := tx]).Keys) == if tx.nonce in m then multiset(m.Keys)
      else multiset(m.Keys) + multiset{tx.nonce}
  {
    assert (m[tx.nonce := tx]).Keys == if tx.nonce in m then m.Keys else m.Keys + {tx.nonce};
  }

  lemma WithoutOne(h: seq<nat>, r: seq<nat>, m: Items, nonce: nat)
    requires nonce in m && multiset(h) == multiset(m.Keys) && multiset(h) == multiset(r) + multiset{nonce}
    ensures multiset(r) == multiset((m - {nonce}).Keys)
  {
    assert multiset((m - {nonce}).Keys) == multiset(m.Keys) - multiset{nonce};
    assert multiset(r) == multiset(h) - multiset{nonce};
  }

  // ------------------------------------------------------------------ filtering

  /** What Filter has removed once only the nonces in todo are still to be visited. */
  ghost function Chosen(m: Items, selects: Tx -> bool, todo: set<nat>): Items {
    map n | n in m && n !in todo && selects(m[n]) :: m[n]
  }

  /** ... and what it has left. */
  ghost function Unchosen(m: Items, selects: Tx -> bool, todo: set<nat>): Items {
    map n | n in m && (n in todo || !selects(m[n])) :: m[n]
  }

  lemma FilterStart(m: Items, selects: Tx -> bool)
    ensures Unchosen(m, selects, m.Keys) == m && Lists([], Chosen(m, selects, m.Keys))
  {
  }

  lemma FilterStep(m: Items, selects: Tx -> bool, todo: set<nat>, nonce: nat, removed: seq<Tx>)
    requires Filed(m) && nonce in todo && todo <= m.Keys && Lists(removed, Chosen(m, selects, todo))
    ensures if selects(m[nonce]) then
        && Unchosen(m, selects, todo - {nonce}) == Unchosen(m, selects, todo) - {nonce}
        && Lists(removed + [m[nonce]], Chosen(m, selects, todo - {nonce}))
      else
        Unchosen(m, selects, todo - {nonce}) == Unchosen(m, selects, todo)
          && Lists(removed, Chosen(m, selects, todo - {nonce}))
  {
    if selects(m[nonce]) {
      ListsNext(removed, Chosen(m, selects, todo), m[nonce]);
      assert Chosen(m, selects, todo - {nonce}) == Chosen(m, selects, todo)[nonce := m[nonce]];
      assert Unchosen(m, selects, todo - {nonce}) == Unchosen(m, selects, todo) - {nonce};
    } else {
      assert Chosen(m, selects, todo - {nonce}) == Chosen(m, selects, todo);
      assert Unchosen(m, selects, todo - {nonce}) == Unchosen(m, selects, todo);
    }
  }

  lemma NoneChosen(m: Items, selects: Tx -> bool)
    requires |Chosen(m, selects, {})| == 0
    ensures Unchosen(m, selects, {}) == m
  {
    assert Chosen(m, selects, {}).Keys == {};
    forall n | n in m ensures !selects(m[n]) { assert n !in Chosen(m, selects, {}); }
  }

  // -------------------------------------------------------------------- capping

  lemma ListsNext(s: seq<Tx>, m: Items, tx: Tx)
    requires Lists(s, m) && tx.nonce !in m
    ensures Lists(s + [tx], m[tx.nonce := tx])
  {
    var m' := m[tx.nonce := tx];
    forall n | n in m' ensures m'[n] in s + [tx] {
      if n != tx.nonce { assert m[n] in s; }
    }
  }

  lemma LowerSize(m: Items, n: nat)
    ensures |Lower(m, n)| <= |m|
    ensures n in m ==> |Lower(m, n)| < |m|
  {
    Grows(Lower(m, n), m.Keys);
    if n in m { Grows(Lower(m, n) + {n}, m.Keys); }
  }

  lemma AllKept(m: Items, k: nat)
    requires |m| <= k
    ensures CapKept(m, k) == m && CapDropped(m, k) == map[]
  {
    forall n | n in m ensures |Lower(m, n)| < k { LowerSize(m, n); }
  }

  /** In a sorted index, a nonce's place is the number of nonces below it. */
  lemma {:induction false} Rank(s: seq<nat>, m: Items, i: nat)
    requires Ascending(s) && multiset(s) == multiset(m.Keys) && i < |s|
    ensures |Lower(m, s[i])| == i
  {
    KeysOnce(s, m.Keys);
    if i == 0 {
      assert Lower(m, s[0]) == {};
    } else {
      Rank(s, m, i - 1);
      RankNext(s, m, i);
    }
  }

  lemma RankNext(s: seq<nat>, m: Items, i: nat)
    requires Ascending(s) && 0 < i < |s| && forall n :: n in m <==> n in s
    ensures |Lower(m, s[i])| == |Lower(m, s[i - 1])| + 1
  {
    assert Lower(m, s[i]) == Lower(m, s[i - 1]) + {s[i - 1]};
    assert s[i - 1] !in Lower(m, s[i - 1]);
  }

  lemma Place(s: seq<nat>, m: Items, n: nat) returns (i: nat)
    requires Ascending(s) && multiset(s) == multiset(m.Keys) && n in m
    ensures i < |s| && s[i] == n && |Lower(m, n)| == i
  {
    KeysOnce(s, m.Keys);
    i :| 0 <= i < |s| && s[i] == n;
    Rank(s, m, i);
  }

  /** Capping at k keeps what is below the k-th nonce. */
  lemma CapIsBelow(s: seq<nat>, m: Items, k: nat)
    requires Ascending(s) && multiset(s) == multiset(m.Keys) && k < |s|
    ensures CapKept(m, k) == Below(m, s[k])
  {
    forall n | n in m ensures |Lower(m, n)| < k <==> n < s[k] {
      var i := Place(s, m, n);
    }
  }

  lemma CapStepKept(s: seq<nat>, m: Items, k: nat)
    requires Ascending(s) && multiset(s) == multiset(m.Keys) && 0 < k <= |s|
    ensures s[k - 1] in CapKept(m, k) && CapKept(m, k - 1) == CapKept(m, k) - {s[k - 1]}
  {
    KeysOnce(s, m.Keys);
    Rank(s, m, k - 1);
    var a, b := CapKept(m, k - 1), CapKept(m, k) - {s[k - 1]};
    forall x ensures x in a <==> x in b {
      if x in m { var i := Place(s, m, x); }
    }
    assert a.Keys == b.Keys;
  }

  lemma CapStepDropped(s: seq<nat>, m: Items, k: nat)
    requires Ascending(s) && multiset(s) == multiset(m.Keys) && 0 < k <= |s|
    ensures s[k - 1] in m && s[k - 1] !in CapDropped(m, k)
    ensures CapDropped(m, k - 1) == CapDropped(m, k)[s[k - 1] := m[s[k - 1]]]
  {
    KeysOnce(s, m.Keys);
    Rank(s, m, k - 1);
    forall x | x in m ensures |Lower(m, x)| >= k - 1 <==> |Lower(m, x)| >= k || x == s[k - 1] {
      var i := Place(s, m, x);
    }
  }

  lemma CapStep(s: seq<nat>, m: Items, k: nat, drops: seq<Tx>)
    requires Ascending(s) && multiset(s) == multiset(m.Keys) && 0 < k <= |s| && Filed(m)
    requires Lists(drops, CapDropped(m, k))
    ensures s[k - 1] in CapKept(m, k) && CapKept(m, k - 1) == CapKept(m, k) - {s[k - 1]}
    ensures Lists(drops + [m[s[k - 1]]], CapDropped(m, k - 1))
  {
    CapStepKept(s, m, k);
    CapStepDropped(s, m, k);
    ListsNext(drops, CapDropped(m, k), m[s[k - 1]]);
  }

  lemma CapKeys(s: seq<nat>, m: Items, k: nat)
    requires Ascending(s) && multiset(s) == multiset(m.Keys) && k < |s|
    ensures multiset(s[..k]) == multiset(CapKept(m, k).Keys) && |CapKept(m, k)| == k
  {
    KeysOnce(s, m.Keys);
    CapIsBelow(s, m, k);
    var keys := CapKept(m, k).Keys;
    OnceEach(s[..k], keys);
    KeysOnce(s[..k], keys);
  }

  lemma {:induction false} OnceEach(s: seq<nat>, keys: set<nat>)
    requires Ascending(s) && forall n :: n in keys <==> n in s
    ensures multiset(s) == multiset(keys)
  {
    if s == [] {
      assert keys == {};
    } else {
      var k := |s| - 1;
      assert s == s[..k] + [s[k]];
      assert forall n :: n in keys - {s[k]} <==> n in s[..k];
      OnceEach(s[..k], keys - {s[k]});
      assert keys == (keys - {s[k]}) + {s[k]};
    }
  }

  lemma CapCache(s: seq<nat>, c: seq<Tx>, m: Items, k: nat, drops: seq<Tx>)
    requires Filed(m) && SortedOf(c, m) && Ascending(s) && multiset(s) == multiset(m.Keys) && k < |s|
    requires Lists(drops, CapDropped(m, k))
    ensures |drops| <= |c| && SortedOf(c[..|c| - |drops|], CapKept(m, k))
  {
    CapIsBelow(s, m, k);
    SortedCut(c, m, s[k]);
    CapSizes(c, m, k, drops);
  }

  lemma CapSizes(c: seq<Tx>, m: Items, k: nat, drops: seq<Tx>)
    requires Filed(m) && SortedOf(c, m) && Lists(drops, CapDropped(m, k))
    ensures |c| == |CapKept(m, k)| + |drops|
  {
    SortedLength(c, m);
    ListsLength(drops, CapDropped(m, k));
    assert m.Keys == CapKept(m, k).Keys + CapDropped(m, k).Keys;
    assert CapKept(m, k).Keys !! CapDropped(m, k).Keys;
  }

  /** Appending the next transaction above t keeps a listing sorted. */
  lemma SortedNext(s: seq<Tx>, m: Items, t: nat, tx: Tx)
    requires Filed(m) && SortedOf(s, Below(m, t)) && tx.nonce >= t && tx.nonce in m && m[tx.nonce] == tx
    requires forall n :: n in m && t <= n <= tx.nonce ==> n == tx.nonce
    ensures SortedOf(s + [tx], Below(m, tx.nonce + 1))
  {
    var b := Below(m, tx.nonce + 1);
    forall n | n in b ensures b[n] in s + [tx] {
      if n < t { assert Below(m, t)[n] in s; }
    }
  }
}
