/**
 Adding a batch of transactions to a pool that has room for it: the result does not
 depend on anything but the pool and the batch.
 */
module TxPoolMerge {
  import opened TxListSpec
  import opened TxPoolSpec
  import opened TxPool
  import opened TxPriced
  import opened TxPoolFair
  import opened TxPoolRun

  /** The remote transaction is new, valid, and taken by its list. */
  ghost predicate Enterable(s: View, config: Config, b: Book, tx: Tx) {
    && tx !in b.all && Admissible(tx, s.chain, tx.sender in s.locals, s.gasPrice)
    && Welcome(b, tx, config.priceBump)
  }

  ghost function MergedOne(s: View, config: Config, b: Book, tx: Tx): Book {
    if Enterable(s, config, b, tx) then Entered(b, tx) else b
  }

  /** The book after a batch of remote additions that meet no limit. */
  ghost function Merged(s: View, config: Config, txs: seq<Tx>): Book {
    if txs == [] then s.book
    else MergedOne(s, config, Merged(s, config, txs[..|txs| - 1]), txs[|txs| - 1])
  }

  /** The accounts that got a new nonce queued. */
  ghost function MergedDue(s: View, config: Config, txs: seq<Tx>): set<nat> {
    if txs == [] then {}
    else
      var tx, b := txs[|txs| - 1], Merged(s, config, txs[..|txs| - 1]);
      MergedDue(s, config, txs[..|txs| - 1]) + if Enterable(s, config, b, tx) && !Occupied(b, tx) then {tx.sender}
        else {}
  }

  /** The pooled transactions and those of the batch that are valid. */
  ghost function Crowd(s: View, txs: seq<Tx>): set<Tx> {
    s.book.all + set tx | tx in txs && Admissible(tx, s.chain, tx.sender in s.locals, s.gasPrice)
  }

  /** In a crowd that fits into the pool no transaction meets the limit. */
  lemma {:induction false} BatchMerges(s: View, s': View, config: Config, txs: seq<Tx>, dirty: set<nat>, crowd: set<Tx>)
    requires Batch(s, s', config, txs, false, dirty) && Crowd(s, txs) <= crowd && |crowd| <= config.Limit()
    ensures s' == s.(book := Merged(s, config, txs), log := s'.log)
    ensures dirty == MergedDue(s, config, txs) && s'.book.all <= crowd
    decreases |txs|
  {
    hide Follows;
    hide MadeRoom;
    hide Entered;
    hide Admissible;
    hide Welcome;
    hide Occupied;
    if txs != [] {
      var k := |txs| - 1;
      var s1: View, dirty1: set<nat>, replace: bool, ok: bool :|
        Batch(s, s1, config, txs[..k], false, dirty1)
          && BatchLast(s1, s', config, txs, false, dirty1, replace, ok, dirty);
      BatchMerges(s, s1, config, txs[..k], dirty1, crowd);
      AdmitMerges(s, s1, s', config, txs[k], crowd, replace, ok);
    }
  }

  lemma AdmitMerges(s: View, s1: View, s': View, config: Config, tx: Tx, crowd: set<Tx>, replace: bool, ok: bool)
    requires Admits(s1, s', config, tx, false, replace, ok) && s1 == s.(book := s1.book, log := s1.log)
    requires s1.book.all <= crowd && |crowd| <= config.Limit()
    requires Admissible(tx, s.chain, tx.sender in s.locals, s.gasPrice) ==> tx in crowd
    ensures s' == s1.(book := MergedOne(s, config, s1.book, tx), log := s'.log) && s'.book.all <= crowd
    ensures Due(tx, replace, ok) == if Enterable(s, config, s1.book, tx) && !Occupied(s1.book, tx) then {tx.sender}
      else {}
  {
    hide Follows;
    hide MadeRoom;
    hide Admissible;
    hide Welcome;
    hide Occupied;
    if tx !in s1.book.all && Admissible(tx, s.chain, tx.sender in s.locals, s.gasPrice) {
      SetGrows(s1.book.all, crowd);
      assert !Refused(s1, config, tx, false);
    }
  }

  /** The virtual nonces and the nonces of the pending lists stay. */
  lemma {:induction false} MergedShape(s: View, config: Config, txs: seq<Tx>, a: nat)
    requires s.book.Sound({})
    ensures var b := Merged(s, config, txs);
      b.Sound({}) && b.vnonce == s.book.vnonce && Of(b.pending, a).Keys == Of(s.book.pending, a).Keys
    decreases |txs|
  {
    if txs != [] {
      var k := |txs| - 1;
      var b := Merged(s, config, txs[..k]);
      MergedShape(s, config, txs[..k], a);
      if Enterable(s, config, b, txs[k]) { EnteredShape(b, txs[k], a); }
    }
  }

  lemma EnteredShape(b: Book, tx: Tx, a: nat)
    requires b.Sound({}) && tx !in b.all
    ensures Entered(b, tx).Sound({}) && Entered(b, tx).vnonce == b.vnonce
    ensures Of(Entered(b, tx).pending, a).Keys == Of(b.pending, a).Keys
  {
    if tx.nonce in Of(b.pending, tx.sender) { SwappedSound(b, tx); } else { EnqueuedSound(b, tx); }
    hide AllSound;
    PutIs(b.pending, tx.sender, tx);
  }

  // ----------------------------------------------------------------- counting

  lemma {:induction false} ValuesSize(items: Items)
    requires Filed(items)
    ensures |Values(items)| == |items|
    decreases |items|
  {
    if items.Keys == {} {
      assert Values(items) == {};
    } else {
      var n :| n in items.Keys;
      ValuesSize(items - {n});
      var rest := items - {n};
      forall t | t in Values(items) && t != items[n] ensures t in Values(rest) {
        var k :| k in items && items[k] == t;
        assert rest[k] == t;
      }
      forall t | t in Values(rest) ensures t in Values(items) && t != items[n] {
        var k :| k in rest && rest[k] == t;
        assert items[k] == t;
      }
      assert Values(items) == Values(rest) + {items[n]};
      assert items.Keys == (items - {n}).Keys + {n};
    }
  }

  /** The pooled transactions of some accounts that are pending. */
  ghost function PendingOf(b: Book, keys: set<nat>): set<Tx> {
    set tx | tx in b.all && tx.sender in keys && Holds(Of(b.pending, tx.sender), tx)
  }

  lemma {:induction false} PendingCount(b: Book, keys: set<nat>)
    requires b.Sound({})
    ensures |PendingOf(b, keys)| == Sum(keys, Sizes(b.pending))
    decreases |keys|
  {
    if keys == {} {
      assert PendingOf(b, keys) == {};
    } else {
      var a :| a in keys;
      SumPull(keys, Sizes(b.pending), a);
      PendingCount(b, keys - {a});
      AccountCount(b, keys, a);
    }
  }

  lemma AccountCount(b: Book, keys: set<nat>, a: nat)
    requires b.Sound({}) && a in keys
    ensures |PendingOf(b, keys)| == |PendingOf(b, keys - {a})| + |Of(b.pending, a)|
  {
    OwnPending(b, a);
    hide AllSound;
    hide Holds;
    var own, others := PendingOf(b, {a}), PendingOf(b, keys - {a});
    assert PendingOf(b, keys) == own + others && own !! others;
  }

  lemma OwnPending(b: Book, a: nat)
    requires b.Sound({})
    ensures |PendingOf(b, {a})| == |Of(b.pending, a)|
  {
    var p := Of(b.pending, a);
    assert SoundAt(a, p, Of(b.queue, a), b.all, {});
    hide AllSound;
    ValuesSize(p);
    forall tx ensures tx in Values(p) <==> tx in PendingOf(b, {a}) {
      if tx in Values(p) { assert Holds(p, tx); }
      if tx in PendingOf(b, {a}) { assert p[tx.nonce] == tx; }
    }
    assert PendingOf(b, {a}) == Values(p);
  }

  /** There are no more pending transactions than pooled ones. */
  lemma PendingInPool(b: Book)
    requires b.Sound({})
    ensures Total(b.pending) <= |b.all|
  {
    PendingCount(b, b.pending.Keys);
    SetGrows(PendingOf(b, b.pending.Keys), b.all);
  }
}
