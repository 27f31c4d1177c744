/**
 txPricedList of tx_list.go: a price heap over the pooled transactions that may
 also hold stale ones. The pool's lookup table is passed in as the set of live
 transactions, and the local accounts as the set of their addresses.
 */
module TxPriced {
  import opened TxListSpec
  import Heap

  /** priceHeap.Less: cheaper first, and at equal price the higher nonce. */
  function PriceKey(tx: Tx): Heap.Key { (tx.price, 0 - tx.nonce) }

  ghost predicate Remote(tx: Tx, locals: set<nat>) { tx.sender !in locals }

  /** The cheaper of two remote transactions is discarded first, at equal price the one with the higher nonce. */
  ghost predicate GoesFirst(d: Tx, t: Tx) { d.price < t.price || (d.price == t.price && d.nonce >= t.nonce) }

  /** Every live transaction is somewhere in the sequence. */
  ghost predicate Covers(items: seq<Tx>, all: set<Tx>) { forall tx :: tx in all ==> tx in items }

  /** ... exactly once. */
  ghost predicate Once(items: seq<Tx>, all: set<Tx>) { forall tx :: tx in all ==> multiset(items)[tx] == 1 }

  /** The heap holds the live transactions once each, and stales counts the others. */
  ghost predicate Counts(items: seq<Tx>, stales: int, all: set<Tx>) { Once(items, all) && |items| == |all| + stales }

  /** What is on the heap, in any order, was there before. */
  ghost predicate Within(items: seq<Tx>, before: seq<Tx>) { forall tx :: tx in items ==> tx in before }

  /** Putting a transaction keeps the count right exactly if no stale copy of it is on the heap. */
  lemma PutCounts(items: seq<Tx>, more: seq<Tx>, stales: int, all: set<Tx>, tx: Tx)
    requires Counts(items, stales, all) && tx !in all && multiset(more) == multiset(items) + multiset{tx}
    ensures Counts(more, stales, all + {tx}) <==> tx !in items
  {
    assert |multiset(more)| == |more| && |multiset(items)| == |items|;
    assert |all + {tx}| == |all| + 1;
    if tx in items {
      assert tx in multiset(items);
      assert multiset(more)[tx] >= 2 && tx in all + {tx};
    } else {
      assert tx !in multiset(items);
    }
  }

  /** A transaction that leaves the pool and comes back before the heap is rebuilt is on the heap twice. */
  lemma PutAgain(tx: Tx)
    ensures Counts([tx], 1, {}) && !Counts([tx, tx], 1, {tx})
  {
    assert multiset([tx, tx]) == multiset([tx]) + multiset{tx};
    PutCounts([tx], [tx, tx], 1, {}, tx);
    assert {} + {tx} == {tx};
  }

  class PricedList {
    var items: seq<Tx>
    var stales: int

    ghost predicate Valid()
      reads this
    {
      Heap.IsHeap(PriceKey, items)
    }

    ghost predicate Exact(all: set<Tx>)
      reads this
    {
      Counts(items, stales, all)
    }

    constructor ()
      ensures Valid() && items == [] && Exact({})
    {
      items, stales := [], 0;
    }

    /** The heap gains a transaction that has just entered the pool; all are the pooled ones with it. */
    method Put(tx: Tx, ghost all: set<Tx>)
      requires Valid() && tx in all
      modifies this
      ensures Valid() && multiset(items) == multiset(old(items)) + multiset{tx} && stales == old(stales)
      ensures forall t :: t in items <==> t == tx || t in old(items)
      ensures old(Exact(all - {tx})) ==> (Exact(all) <==> tx !in old(items))
    {
      items := Heap.Push(PriceKey, items, tx);
      forall t ensures t in items <==> t == tx || t in old(items) {
        assert t in items <==> t in multiset(items);
        assert t in old(items) <==> t in multiset(old(items));
      }
      if old(Exact(all - {tx})) {
        PutCounts(old(items), items, stales, all - {tx}, tx);
        assert all - {tx} + {tx} == all;
      }
    }

    /** A transaction has just left the pool; rebuild the heap when more than a quarter of it is stale. */
    method Removed(all: set<Tx>)
      requires Valid() && Covers(items, all)
      modifies this
      ensures Valid() && Covers(items, all) && Within(items, old(items))
      ensures old(Counts(items, stales + 1, all)) ==> Exact(all)
      ensures (items == old(items) && stales == old(stales) + 1 && stales <= |items| / 4)
        || (multiset(items) == multiset(all) && stales == 0)
    {
      stales := stales + 1;
      if stales <= |items| / 4 { return; }
      stales := 0;
      var reheap := Enumerate(all);
      items := Heap.Init(PriceKey, reheap);
      assert |multiset(items)| == |items| && |multiset(all)| == |all|;
      forall tx ensures tx in items <==> tx in all { assert tx in items <==> tx in multiset(items); }
    }

    /** Drops exactly the live remote transactions below the threshold. */
    method Cap(threshold: nat, all: set<Tx>, locals: set<nat>) returns (drop: seq<Tx>)
      requires Valid() && Covers(items, all)
      modifies this
      ensures Valid() && Covers(items, all - Elements(drop)) && Within(items, old(items))
      ensures forall tx :: tx in drop <==> tx in all && Remote(tx, locals) && tx.price < threshold
      ensures old(Exact(all)) ==> Exact(all - Elements(drop))
    {
      drop := [];
      var save: seq<Tx> := [];
      while |items| > 0
        invariant Heap.IsHeap(PriceKey, items) && Sorted3(items, save, drop, all)
        invariant forall tx :: tx in drop ==> tx in all && Remote(tx, locals) && tx.price < threshold
        invariant forall tx :: tx in save ==> tx in all && (!Remote(tx, locals) || tx.price >= threshold)
        invariant old(Exact(all)) ==> Balanced3(items, save, drop, all, stales)
        invariant Within(items, old(items)) && Within(save, old(items))
        decreases |items|
      {
        var tx;
        ghost var before := items;
        tx, items := Heap.Pop(PriceKey, items);
        Moved(before, items, save, drop, all, tx, stales);
        if tx !in all {
          stales := stales - 1;
          continue;
        }
        if tx.price >= threshold {
          save := save + [tx];
          break;
        }
        if tx.sender in locals { save := save + [tx]; } else { drop := drop + [tx]; }
      }
      ghost var popped := items;
      forall tx | tx in all && Remote(tx, locals) && tx.price < threshold ensures tx in drop {
        assert tx in items || tx in save || tx in drop;
      }
      PushBack(save);
      Restored(popped, save, drop, items, all, stales);
    }

    /** For a remote transaction and a pool that is not empty: true exactly when no live transaction is cheaper. */
    method Underpriced(tx: Tx, all: set<Tx>, locals: set<nat>) returns (r: bool)
      requires Valid() && Covers(items, all)
      modifies this
      ensures Valid() && Covers(items, all) && Within(items, old(items))
      ensures old(Exact(all)) ==> Exact(all)
      ensures r <==> Remote(tx, locals) && all != {} && forall t :: t in all ==> t.price >= tx.price
    {
      if tx.sender in locals { return false; }
      while |items| > 0 && items[0] !in all
        invariant Valid() && Covers(items, all) && Within(items, old(items)) && (old(Exact(all)) ==> Exact(all))
        decreases |items|
      {
        stales := stales - 1;
        ghost var before := items;
        var head;
        head, items := Heap.Pop(PriceKey, items);
        forall t | t in all ensures t in items && multiset(items)[t] == multiset(before)[t] {
          assert t in before && t in multiset(before) && t != head;
        }
        forall t | t in items ensures t in before { assert t in multiset(before); }
      }
      if |items| == 0 {
        assert forall t :: t in all ==> t in items;
        assert all == {};
        return false;
      }
      var cheapest := items[0];
      forall t | t in all ensures cheapest.price <= t.price {
        var i :| 0 <= i < |items| && items[i] == t;
        Heap.HeadIsLeast(PriceKey, items, i);
      }
      r := cheapest.price >= tx.price;
    }

    /** Takes up to count live remote transactions, the cheapest first, and never a local one. */
    method Discard(count: nat, all: set<Tx>, locals: set<nat>) returns (drop: seq<Tx>)
      requires Valid() && Covers(items, all)
      modifies this
      ensures Valid() && Covers(items, all - Elements(drop)) && |drop| <= count && Within(items, old(items))
      ensures forall tx :: tx in drop ==> tx in all && Remote(tx, locals)
      ensures forall d, tx :: d in drop && tx in all && Remote(tx, locals) && tx !in drop ==> GoesFirst(d, tx)
      ensures |drop| < count ==> forall tx :: tx in all && Remote(tx, locals) ==> tx in drop
      ensures old(Exact(all)) ==> Exact(all - Elements(drop)) && |Elements(drop)| == |drop|
    {
      drop := [];
      var save: seq<Tx> := [];
      var left := count;
      while |items| > 0 && left > 0
        invariant left == count - |drop| >= 0
        invariant Heap.IsHeap(PriceKey, items) && Sorted3(items, save, drop, all)
        invariant forall tx :: tx in drop ==> tx in all && Remote(tx, locals)
        invariant forall tx :: tx in save ==> tx in all && !Remote(tx, locals)
        invariant forall d, tx :: d in drop && tx in items ==> GoesFirst(d, tx)
        invariant old(Exact(all)) ==> Balanced3(items, save, drop, all, stales)
        invariant Within(items, old(items)) && Within(save, old(items))
        decreases |items|
      {
        var tx;
        ghost var before := items;
        tx, items := Heap.Pop(PriceKey, items);
        Moved(before, items, save, drop, all, tx, stales);
        forall t | t in items ensures t in before && GoesFirst(tx, t) {
          assert t in multiset(before);
          assert !Heap.Less(PriceKey(t), PriceKey(tx));
        }
        if tx !in all {
          stales := stales - 1;
          continue;
        }
        if tx.sender in locals {
          save := save + [tx];
        } else {
          drop := drop + [tx];
          left := left - 1;
        }
      }
      ghost var popped := items;
      PushBack(save);
      Restored(popped, save, drop, items, all, stales);
      if old(Exact(all)) { DistinctSize(drop, all); DropSize(drop, all); }
    }

    /** Pushing the saved transactions back. */
    method PushBack(save: seq<Tx>)
      requires Valid()
      modifies this`items
      ensures Valid() && multiset(items) == multiset(old(items)) + multiset(save)
    {
      var i := 0;
      while i < |save|
        invariant 0 <= i <= |save| && Valid() && multiset(items) == multiset(old(items)) + multiset(save[..i])
      {
        assert save[..i + 1] == save[..i] + [save[i]];
        items := Heap.Push(PriceKey, items, save[i]);
        i := i + 1;
      }
      assert save[..|save|] == save;
    }
  }

  function Elements(s: seq<Tx>): set<Tx> { set tx | tx in s }

  method Enumerate(all: set<Tx>) returns (s: seq<Tx>)
    ensures multiset(s) == multiset(all)
  {
    s := [];
    var todo := all;
    while todo != {}
      invariant todo <= all && multiset(s) == multiset(all - todo)
      decreases todo
    {
      var tx :| tx in todo;
      assert all - (todo - {tx}) == (all - todo) + {tx};
      todo := todo - {tx};
      s := s + [tx];
    }
    assert all - {} == all;
  }

  // ------------------------------------------ splitting the heap into three parts

  /** Every live transaction is in one of the three sequences. */
  ghost predicate Sorted3(items: seq<Tx>, save: seq<Tx>, drop: seq<Tx>, all: set<Tx>) {
    forall tx :: tx in all ==> tx in items || tx in save || tx in drop
  }

  /** ... exactly once, and the stale ones are counted. */
  ghost predicate Balanced3(items: seq<Tx>, save: seq<Tx>, drop: seq<Tx>, all: set<Tx>, stales: int) {
    && (forall tx :: tx in all ==> multiset(items)[tx] + multiset(save)[tx] + multiset(drop)[tx] == 1)
    && |items| + |save| + |drop| == |all| + stales
  }

  lemma Moved(before: seq<Tx>, items: seq<Tx>, save: seq<Tx>, drop: seq<Tx>, all: set<Tx>, tx: Tx, stales: int)
    requires multiset(before) == multiset(items) + multiset{tx} && |items| == |before| - 1
    requires Sorted3(before, save, drop, all)
    ensures Within(items, before) && tx in before
    ensures tx !in all ==> Sorted3(items, save, drop, all)
    ensures Sorted3(items, save + [tx], drop, all) && Sorted3(items, save, drop + [tx], all)
    ensures Balanced3(before, save, drop, all, stales) ==>
      && (tx !in all ==> Balanced3(items, save, drop, all, stales - 1))
      && Balanced3(items, save + [tx], drop, all, stales)
      && Balanced3(items, save, drop + [tx], all, stales)
  {
    assert tx in multiset(before);
    forall t | t in items ensures t in before { assert t in multiset(before); }
    forall t | t in all ensures t in items || t == tx || t in save || t in drop {
      assert t in before ==> t in multiset(items) + multiset{tx};
    }
  }

  lemma Restored(popped: seq<Tx>, save: seq<Tx>, drop: seq<Tx>, items: seq<Tx>, all: set<Tx>, stales: int)
    requires multiset(items) == multiset(popped) + multiset(save) && Sorted3(popped, save, drop, all)
    requires forall tx :: tx in drop ==> tx in all
    ensures Covers(items, all - Elements(drop))
    ensures forall tx :: tx in items ==> tx in popped || tx in save
    ensures Balanced3(popped, save, drop, all, stales) ==> Counts(items, stales, all - Elements(drop))
  {
    var live := all - Elements(drop);
    forall tx | tx in items ensures tx in popped || tx in save { assert tx in multiset(items); }
    forall tx | tx in live ensures tx in items {
      assert tx in popped || tx in save;
      assert tx in multiset(popped) + multiset(save);
    }
    if Balanced3(popped, save, drop, all, stales) {
      assert |multiset(items)| == |items| && |multiset(popped)| == |popped| && |multiset(save)| == |save|;
      DistinctSize(drop, all);
      forall tx | tx in live ensures multiset(items)[tx] == 1 { assert tx !in multiset(drop); }
    }
  }

  lemma DropSize(drop: seq<Tx>, all: set<Tx>)
    requires Elements(drop) <= all && |all - Elements(drop)| == |all| - |drop|
    ensures |Elements(drop)| == |drop|
  {
    assert all == (all - Elements(drop)) + Elements(drop);
  }

  /** A sequence that holds no live transaction twice has as many elements as distinct ones. */
  lemma {:induction false} DistinctSize(drop: seq<Tx>, all: set<Tx>)
    requires forall tx :: tx in drop ==> tx in all && multiset(drop)[tx] <= 1
    ensures |all - Elements(drop)| == |all| - |drop|
  {
    if drop == [] {
      assert all - Elements(drop) == all;
    } else {
      var k := |drop| - 1;
      var rest := drop[..k];
      assert drop == rest + [drop[k]];
      assert multiset(drop) == multiset(rest) + multiset{drop[k]};
      assert drop[k] !in rest by { assert multiset(drop)[drop[k]] <= 1; }
      forall tx | tx in rest ensures tx in all && multiset(rest)[tx] <= 1 { assert tx in drop; }
      DistinctSize(rest, all);
      assert all - Elements(drop) == (all - Elements(rest)) - {drop[k]};
      assert drop[k] in all - Elements(rest);
    }
  }
}
