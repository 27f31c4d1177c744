/**
 Two runs from an empty pool in which a change of the head leaves the pending nonces out
 of order: a gap that is never looked for, and a virtual nonce behind the state nonce.
 */
module TxPoolWitness {
  import opened TxListSpec
  import opened TxPoolSpec
  import opened TxPool
  import opened TxPriced
  import opened TxPoolPromote
  import opened TxPoolFair
  import opened TxPoolQueue
  import opened TxPoolMend
  import opened TxPoolRun
  import opened TxPoolMerge
  import opened TxPoolReset
  import opened TxPoolTrace

  /** A head with state nonce n for account 0 and k for all others; transactions cost nothing. */
  function HeadAt(n: nat, k: nat): Chain { Chain((a: nat) => if a == 0 then n else k, (a: nat) => 0, 0) }

  function Simple(id: nat, sender: nat, nonce: nat): Tx { Tx(id, sender, nonce, 0, 0, 0, true) }

  /** A valid transaction is the next one of an account with nothing queued. */
  ghost predicate IsNext(s: View, tx: Tx) {
    && s.book.Sound({}) && tx !in s.book.all && Admissible(tx, s.chain, tx.sender in s.locals, s.gasPrice)
    && Of(s.book.queue, tx.sender) == map[]
    && tx.nonce == Virtual(s.chain, s.book.vnonce, tx.sender) && tx.nonce !in Of(s.book.pending, tx.sender)
  }

  /** It has become pending. */
  ghost predicate Extended(b: Book, b': Book, chain: Chain, tx: Tx) {
    && b'.Sound({}) && b'.all <= b.all + {tx}
    && (forall a :: Of(b.queue, a) == map[] ==> Of(b'.queue, a) == map[])
    && (forall a :: Of(b'.pending, a) == if a == tx.sender then Of(b.pending, a)[tx.nonce := tx] else Of(b.pending, a))
    && (forall a :: Virtual(chain, b'.vnonce, a) == if a == tx.sender then tx.nonce + 1
         else Virtual(chain, b.vnonce, a))
  }

  lemma CrowdOfOne(s: View, tx: Tx)
    ensures |Crowd(s, [tx])| <= |s.book.all| + 1
  {
    SetGrows(Crowd(s, [tx]), s.book.all + {tx});
    if tx !in s.book.all {
      assert |s.book.all + {tx}| == |s.book.all| + 1;
    } else {
      assert s.book.all + {tx} == s.book.all;
    }
  }

  lemma MergedNext(s: View, config: Config, tx: Tx)
    requires IsNext(s, tx)
    ensures Merged(s, config, [tx]) == Enqueued(s.book, tx) && MergedDue(s, config, [tx]) == {tx.sender}
  {
    assert [tx][..0] == [];
    assert Enterable(s, config, s.book, tx) && !Occupied(s.book, tx);
    assert Merged(s, config, [tx]) == MergedOne(s, config, Merged(s, config, []), tx);
  }

  lemma AddedNext(s: View, m: View, config: Config, tx: Tx)
    requires IsNext(s, tx) && |s.book.all| < config.globalSlots && AddsTxs(s, m, config, [tx], false)
    ensures Extended(s.book, m.book, s.chain, tx) && m == s.(book := m.book, log := m.log)
  {
    hide AllSound;
    hide PromotesAll;
    hide Extended;
    hide Merged;
    hide MergedDue;
    hide Batch;
    var mid: View, dirty: set<nat> :| Batch(s, mid, config, [tx], false, dirty) && ThenPromotes(mid, m, config, dirty);
    CrowdOfOne(s, tx);
    BatchMerges(s, mid, config, [tx], dirty, Crowd(s, [tx]));
    MergedNext(s, config, tx);
    NextPromotes(s.book, m.book, s.chain, s.locals, config, tx);
  }

  lemma NextPromotes(b: Book, b': Book, chain: Chain, locals: set<nat>, config: Config, tx: Tx)
    requires b.Sound({}) && tx !in b.all && |b.all| < config.globalSlots && Of(b.queue, tx.sender) == map[]
    requires tx.nonce == Virtual(chain, b.vnonce, tx.sender) && tx.nonce !in Of(b.pending, tx.sender)
    requires chain.nonce(tx.sender) <= tx.nonce && tx.cost <= chain.balance(tx.sender) && tx.gas <= chain.maxGas
    requires PromotesAll(Enqueued(b, tx), b', chain, locals, config, {tx.sender})
    ensures Extended(b, b', chain, tx)
  {
    hide Follows;
    hide AllSound;
    hide AllPromoted;
    hide Evened;
    hide Truncated;
    hide Drained;
    hide Extended;
    var e := Enqueued(b, tx);
    var b1: Book, b2: Book :| PromotesBy(e, b1, b2, b', chain, locals, config, {tx.sender});
    EnqueuedSize(b, tx);
    NothingEvened(e, b1, b2, chain, locals, config, {tx.sender});
    hide Thinned;
    NextPromoted(b, b1, chain, locals, config.accountQueue, tx);
    NextDrained(b, b1, b', chain, locals, config.globalQueue, tx);
  }

  lemma EnqueuedSize(b: Book, tx: Tx)
    requires tx !in b.all && Of(b.queue, tx.sender) == map[]
    ensures |Enqueued(b, tx).all| == |b.all| + 1
  {
    assert Enqueued(b, tx).all == b.all + {tx};
  }

  lemma NextPromoted(b: Book, b1: Book, chain: Chain, locals: set<nat>, limit: nat, tx: Tx)
    requires b.Sound({}) && Of(b.queue, tx.sender) == map[]
    requires tx.nonce == Virtual(chain, b.vnonce, tx.sender) && tx.nonce !in Of(b.pending, tx.sender)
    requires chain.nonce(tx.sender) <= tx.nonce && tx.cost <= chain.balance(tx.sender) && tx.gas <= chain.maxGas
    requires AllPromoted(Enqueued(b, tx), b1, chain, locals, limit, {tx.sender})
    ensures Extended(b, b1, chain, tx)
  {
    var a, e := tx.sender, Enqueued(b, tx);
    PutIs(b.queue, a, tx);
    NextOthers(b, b1, chain, locals, limit, tx);
    assert TookReady(e, b1, chain, a, a in locals, limit);
    hide AllPromoted;
    hide AllSound;
    hide TookReady;
    var q: Items := map[tx.nonce := tx];
    assert Of(e.queue, a) == q;
    NextTaken(e, b1, chain, a, a in locals, limit, tx);
    PlusOne(Of(b.pending, a), tx);
  }

  lemma PlusOne(p: Items, tx: Tx)
    ensures p + map[tx.nonce := tx] == p[tx.nonce := tx]
  {
  }

  lemma NextOthers(b: Book, b1: Book, chain: Chain, locals: set<nat>, limit: nat, tx: Tx)
    requires AllPromoted(Enqueued(b, tx), b1, chain, locals, limit, {tx.sender})
    ensures b1.Sound({}) && b1.all <= b.all + {tx}
    ensures forall c :: c != tx.sender ==>
      && Of(b1.pending, c) == Of(b.pending, c) && Of(b1.queue, c) == Of(b.queue, c)
      && Virtual(chain, b1.vnonce, c) == Virtual(chain, b.vnonce, c)
  {
    hide TookReady;
    PutIs(b.queue, tx.sender, tx);
    forall c | c != tx.sender
      ensures Of(b1.pending, c) == Of(b.pending, c) && Of(b1.queue, c) == Of(b.queue, c)
      ensures Virtual(chain, b1.vnonce, c) == Virtual(chain, b.vnonce, c)
    {
      assert SameAt(Enqueued(b, tx), b1, chain, c);
    }
  }

  lemma NextTaken(e: Book, b1: Book, chain: Chain, a: nat, local: bool, limit: nat, tx: Tx)
    requires var q: Items := map[tx.nonce := tx]; Of(e.queue, a) == q
    requires tx.nonce == Virtual(chain, e.vnonce, a)
    requires chain.nonce(a) <= tx.nonce && tx.cost <= chain.balance(a) && tx.gas <= chain.maxGas
    requires TookReady(e, b1, chain, a, local, limit)
    ensures Of(b1.pending, a) == Of(e.pending, a) + map[tx.nonce := tx] && Of(b1.queue, a) == map[]
    ensures Virtual(chain, b1.vnonce, a) == tx.nonce + 1
  {
    hide ReadyTakes;
    hide Usable;
    hide Rest;
    var taken :| Took(e, b1, chain, a, local, limit, taken);
    SingleTaken(chain, a, tx, taken);
    RestOfNone(local, limit);
    assert tx.nonce in taken;
  }

  lemma NextDrained(b: Book, b1: Book, b': Book, chain: Chain, locals: set<nat>, limit: nat, tx: Tx)
    requires Extended(b, b1, chain, tx) && Drained(b1, b', locals, limit) && Truncated(b1, b', chain)
    ensures Extended(b, b', chain, tx)
  {
    hide AllSound;
    hide AllGapless;
    hide Total;
    hide RemoteTotal;
    forall a | Of(b.queue, a) == map[] ensures Of(b'.queue, a) == map[] { QueueEmpty(b1, b', locals, limit, a); }
  }

  lemma QueueEmpty(b: Book, b': Book, locals: set<nat>, limit: nat, a: nat)
    requires Drained(b, b', locals, limit) && Of(b.queue, a) == map[]
    ensures Of(b'.queue, a) == map[]
  {
    hide Total;
    hide RemoteTotal;
    var last: nat :| CutOnce(b.queue, b'.queue, last, true);
    assert CutAt(Of(b.queue, a), Of(b'.queue, a), a == last);
  }

  lemma RestOfNone(local: bool, limit: nat)
    ensures Rest(map[], local, limit) == map[]
  {
  }

  /** Of a queue with just the next transaction, Ready takes that. */
  lemma SingleTaken(chain: Chain, a: nat, tx: Tx, taken: Items)
    requires chain.nonce(a) <= tx.nonce && tx.cost <= chain.balance(a) && tx.gas <= chain.maxGas
    requires var q: Items := map[tx.nonce := tx]; ReadyTakes(Usable(chain, a, q), tx.nonce, taken)
    ensures var q: Items := map[tx.nonce := tx]; Usable(chain, a, q) == q && taken == q && q - taken.Keys == map[]
  {
    var q: Items := map[tx.nonce := tx];
    assert Usable(chain, a, q) == q;
    hide Usable;
    assert tx.nonce in q;
  }

  // ------------------------------------------------------------- a gap that stays

  /**
   The head is at nonce 5 and transaction 5 is pending. The head moves back to nonce 3, and transaction 3
   returns without 4: in the end 3 and 5 are pending, and 4 is missing.
   */
  method GapStays() returns (pool: Pool, ghost before: View)
    ensures pool.Valid() && before.book.Sound({}) && before.book.Gapless(before.chain, {})
    ensures Resets(before, pool.Now(), pool.config, HeadAt(3, 3), [Simple(1, 0, 3)])
    ensures !pool.book.Gapless(pool.chain, {})
  {
    hide AllSound;
    hide Pool.Tracks;
    hide AllGapless;
    hide Follows;
    hide AddsTxs;
    hide Resets;
    hide Orderly;
    hide Fits;
    hide NoGaps;
    hide Extended;
    var config := Config(10, 16, 64, 16, 64);
    pool := new Pool(config, HeadAt(5, 5), 0);
    ghost var empty := pool.Now();
    AddTxs(pool, [Simple(0, 0, 5)], false);
    before := pool.Now();
    assert IsNext(empty, Simple(0, 0, 5));
    AddedNext(empty, before, config, Simple(0, 0, 5));
    StepFollows(empty.book, before.book, empty.chain);
    Reset(pool, HeadAt(3, 3), [Simple(1, 0, 3)]);
    GapIsLeft(empty, before, config);
  }

  lemma GapIsLeft(empty: View, s: View, config: Config)
    requires empty.book == Book(map[], map[], {}, map[]) && config.globalSlots >= 2
    requires Extended(empty.book, s.book, HeadAt(5, 5), Simple(0, 0, 5))
    requires s == empty.(book := s.book, log := s.log) && s.chain == HeadAt(5, 5) && s.gasPrice == 0
    ensures var chain', txs := HeadAt(3, 3), [Simple(1, 0, 3)];
      Fits(s, config, chain', txs) && !NoGaps(s, config, chain', txs)
  {
    var chain', tx3, tx5 := HeadAt(3, 3), Simple(1, 0, 3), Simple(0, 0, 5);
    var t := Rebased(s, chain');
    SameLists(s.book, t.book);
    hide AllSound;
    hide Merged;
    hide MergedDue;
    SetGrows(s.book.all, {tx5});
    CrowdOfOne(t, tx3);
    hide Crowd;
    var p: Items, q: Items := map[5 := tx5], map[3 := tx3];
    assert Of(t.book.pending, 0) == p;
    assert tx3 !in {tx5};
    assert IsNext(t, tx3);
    hide Extended;
    MergedNext(t, config, tx3);
    PutIs(t.book.queue, 0, tx3);
    assert Of(Enqueued(t.book, tx3).queue, 0) == q;
    hide IsNext;
    GapOfOne(p, q, tx3, tx5);
  }

  lemma GapOfOne(p: Items, q: Items, tx3: Tx, tx5: Tx)
    requires p == map[5 := tx5] && q == map[3 := tx3] && tx3 == Simple(1, 0, 3) && tx5 == Simple(0, 0, 5)
    ensures LeavesGap(HeadAt(3, 3), 0, p, q, 5)
  {
    assert 3 in Usable(HeadAt(3, 3), 0, q) && 4 !in Usable(HeadAt(3, 3), 0, q);
  }

  // ------------------------------------------- a virtual nonce that falls behind

  lemma {:induction false} SumOfNone(keys: set<nat>, f: nat -> nat)
    requires forall k :: k in keys ==> f(k) == 0
    ensures Sum(keys, f) == 0
    decreases |keys|
  {
    if keys != {} {
      var k :| k in keys;
      SumPull(keys, f, k);
      SumOfNone(keys - {k}, f);
    }
  }

  lemma SumOfTwo(keys: set<nat>, f: nat -> nat, a: nat, c: nat)
    requires a in keys && c in keys && a != c && forall k :: k in keys && k != a && k != c ==> f(k) == 0
    ensures Sum(keys, f) == f(a) + f(c)
  {
    SumPull(keys, f, a);
    SumPull(keys - {a}, f, c);
    SumOfNone(keys - {a} - {c}, f);
  }

  /** Accounts 0 and 1 have two and one pending transactions, where two are allowed. */
  ghost predicate Crowded(m: ListMap) {
    && Interval(Of(m, 0), 0, 2) && |Of(m, 0)| == 2 && |Of(m, 1)| == 1
    && forall a :: a != 0 && a != 1 ==> Of(m, a) == map[]
  }

  lemma CrowdedLevel(m: ListMap, m': ListMap, level: nat)
    requires Crowded(m)
    ensures Total(m) == 3
    ensures WaterLevel(m, m', Eligible(m, {}, 1), 1, 2, level) ==> level == 1 && Of(m', 0) == CapKept(Of(m, 0), 1)
  {
    var e := Eligible(m, {}, 1);
    assert 0 in m && 1 in m;
    forall a | a in e ensures a == 0 { assert m[a] == Of(m, a); }
    assert e == {0};
    SumOfTwo(m.Keys, Sizes(m), 0, 1);
    SumOfTwo(m.Keys, Levels(m, e, level), 0, 1);
  }

  /**
   Transactions 0 and 1 of account 0 are mined, and one of account 1 comes back. The pending limit cuts
   account 0 before its mined transactions are dropped, and its virtual nonce falls behind.
   */
  method VirtualFallsBehind() returns (pool: Pool, ghost before: View)
    ensures pool.Valid() && before.book.Sound({}) && before.book.Gapless(before.chain, {})
    ensures Resets(before, pool.Now(), pool.config, HeadAt(2, 0), [Simple(2, 1, 0)])
    ensures Virtual(pool.chain, pool.book.vnonce, 0) < pool.chain.nonce(0)
  {
    hide AllSound;
    hide Pool.Tracks;
    hide AllGapless;
    hide Follows;
    hide AddsTxs;
    hide Resets;
    hide Orderly;
    hide Fits;
    hide NoGaps;
    hide Extended;
    var config, chain := Config(10, 1, 2, 4, 4), HeadAt(0, 1);
    var tx0, tx1 := Simple(0, 0, 0), Simple(1, 0, 1);
    pool := new Pool(config, chain, 0);
    ghost var empty := pool.Now();
    AddTxs(pool, [tx0], false);
    ghost var s := pool.Now();
    assert IsNext(empty, tx0);
    AddedNext(empty, s, config, tx0);
    SecondIsNext(empty, s, chain, tx0, tx1);
    StepFollows(empty.book, s.book, chain);
    AddTxs(pool, [tx1], false);
    before := pool.Now();
    AddedNext(s, before, config, tx1);
    StepFollows(s.book, before.book, chain);
    BothPending(empty, s, before, chain, tx0, tx1);
    Reset(pool, HeadAt(2, 0), [Simple(2, 1, 0)]);
    BehindAtEnd(before, pool.Now(), config);
  }

  lemma SecondIsNext(empty: View, s: View, chain: Chain, tx0: Tx, tx1: Tx)
    requires empty.book == Book(map[], map[], {}, map[]) && empty.locals == {} && empty.gasPrice == 0
    requires tx0 == Simple(0, 0, 0) && tx1 == Simple(1, 0, 1) && chain == HeadAt(0, 1)
    requires empty.chain == chain && Extended(empty.book, s.book, chain, tx0)
      && s == empty.(book := s.book, log := s.log)
    ensures IsNext(s, tx1) && |s.book.all| < 2
  {
    hide AllSound;
    SetGrows(s.book.all, {tx0});
    assert tx1 !in {tx0};
  }

  /** Transactions 0 and 1 of account 0 are pending, and nothing else. */
  ghost predicate TwoPending(b: Book) {
    && b.Sound({}) && Of(b.pending, 0).Keys == {0, 1} && |b.all| <= 2 && Of(b.queue, 1) == map[]
    && (forall a :: a != 0 ==> Of(b.pending, a) == map[]) && Simple(2, 1, 0) !in b.all
  }

  lemma BothPending(empty: View, s: View, s': View, chain: Chain, tx0: Tx, tx1: Tx)
    requires empty.book == Book(map[], map[], {}, map[]) && tx0 == Simple(0, 0, 0) && tx1 == Simple(1, 0, 1)
    requires Extended(empty.book, s.book, chain, tx0) && Extended(s.book, s'.book, chain, tx1)
    ensures TwoPending(s'.book)
  {
    hide AllSound;
    assert s'.book.all <= {tx0, tx1};
    SetGrows(s'.book.all, {tx0, tx1});
    assert Of(s.book.pending, 0).Keys == {0};
  }

  lemma BehindAtEnd(s: View, s': View, config: Config)
    requires TwoPending(s.book) && s.locals == {} && s.gasPrice == 0 && config == Config(10, 1, 2, 4, 4)
    requires Resets(s, s', config, HeadAt(2, 0), [Simple(2, 1, 0)])
    ensures Virtual(HeadAt(2, 0), s'.book.vnonce, 0) < 2
  {
    hide TwoPending;
    hide AddsTxs;
    hide AllDemoted;
    hide Raised;
    hide PromotesAll;
    var chain', txs := HeadAt(2, 0), [Simple(2, 1, 0)];
    var m: View, d: Book, r: Book :| ResetBy(s, m, d, r, s', config, chain', txs);
    BehindAfterAdds(s, m, config, chain', Simple(2, 1, 0));
    BehindStays(s, m, d, r, s', config, chain', txs, 0);
  }

  lemma BehindAfterAdds(s: View, m: View, config: Config, chain: Chain, tx: Tx)
    requires TwoPending(s.book) && s.locals == {} && s.gasPrice == 0 && config == Config(10, 1, 2, 4, 4)
    requires chain == HeadAt(2, 0) && tx == Simple(2, 1, 0)
    requires AddsTxs(Rebased(s, chain), m, config, [tx], false)
    ensures Virtual(chain, m.book.vnonce, 0) < 2 && From(Of(m.book.pending, 0), 2) == map[]
  {
    var t := Rebased(s, chain);
    hide AllSound;
    hide PromotesAll;
    hide Merged;
    hide MergedDue;
    hide Batch;
    var mid: View, dirty: set<nat> :| Batch(t, mid, config, [tx], false, dirty) && ThenPromotes(mid, m, config, dirty);
    CrowdOfOne(t, tx);
    hide Crowd;
    BatchMerges(t, mid, config, [tx], dirty, Crowd(t, [tx]));
    ReturnIsNext(s, chain, tx);
    hide TwoPending;
    MergedNext(t, config, tx);
    hide IsNext;
    CrowdedPromotes(t.book, m.book, chain, config, tx);
  }

  lemma ReturnIsNext(s: View, chain: Chain, tx: Tx)
    requires TwoPending(s.book) && s.locals == {} && s.gasPrice == 0 && chain == HeadAt(2, 0) && tx == Simple(2, 1, 0)
    ensures var t := Rebased(s, chain); IsNext(t, tx) && TwoPending(t.book)
  {
    SameLists(s.book, Rebased(s, chain).book);
    hide AllSound;
    var none: Items := map[];
    assert Of(s.book.pending, 1) == none;
  }

  lemma CrowdedPromotes(b: Book, b': Book, chain: Chain, config: Config, tx: Tx)
    requires TwoPending(b) && b.vnonce == map[] && config == Config(10, 1, 2, 4, 4)
    requires chain == HeadAt(2, 0) && tx == Simple(2, 1, 0)
    requires PromotesAll(Enqueued(b, tx), b', chain, {}, config, {1})
    ensures Virtual(chain, b'.vnonce, 0) < 2 && From(Of(b'.pending, 0), 2) == map[]
  {
    hide AllSound;
    hide Follows;
    hide AllPromoted;
    hide Truncated;
    hide Total;
    hide RemoteTotal;
    var b1: Book, b2: Book :| PromotesBy(Enqueued(b, tx), b1, b2, b', chain, {}, config, {1});
    NextPromoted(b, b1, chain, {}, config.accountQueue, tx);
    NowCrowded(b, b1, chain, tx);
    hide Extended;
    CrowdedFalls(b1, b2, chain);
  }

  lemma NowCrowded(b: Book, b1: Book, chain: Chain, tx: Tx)
    requires TwoPending(b) && b.vnonce == map[] && tx == Simple(2, 1, 0)
    requires chain == HeadAt(2, 0) && Extended(b, b1, chain, tx)
    ensures Crowded(b1.pending) && Of(b1.pending, 0).Keys == {0, 1} && Virtual(chain, b1.vnonce, 0) == 2
  {
    var p, p1, none: Items := Of(b1.pending, 0), Of(b1.pending, 1), map[];
    assert p == Of(b.pending, 0) && p.Keys == {0, 1} && p1 == none[0 := tx];
    assert forall a :: a != 0 && a != 1 ==> Of(b1.pending, a) == none;
    assert Virtual(chain, b1.vnonce, 0) == Virtual(chain, b.vnonce, 0) == 2;
    hide TwoPending;
    hide Extended;
    hide Of;
    hide Virtual;
    Sizes21(p, p1, tx);
  }

  lemma Sizes21(p: Items, p1: Items, tx: Tx)
    requires p.Keys == {0, 1} && p1 == map[0 := tx]
    ensures |p| == 2 && Interval(p, 0, 2) && |p1| == 1
  {
    assert |p.Keys| == 2 && p1.Keys == {0};
  }

  lemma CrowdedFalls(b1: Book, b2: Book, chain: Chain)
    requires Crowded(b1.pending) && Of(b1.pending, 0).Keys == {0, 1} && Virtual(chain, b1.vnonce, 0) == 2
    requires Thinned(b1, b2, chain) && Evened(b1, b2, {}, 1, 2)
    ensures Virtual(chain, b2.vnonce, 0) < 2 && From(Of(b2.pending, 0), 2) == map[]
  {
    hide AllSound;
    hide AllGapless;
    hide WaterLevel;
    hide Total;
    var p := Of(b1.pending, 0);
    CrowdedLevel(b1.pending, b2.pending, 1);
    var level :| WaterLevel(b1.pending, b2.pending, Eligible(b1.pending, {}, 1), 1, 2, level);
    CrowdedLevel(b1.pending, b2.pending, level);
    assert FewerAt(p, Of(b2.pending, 0), Virtual(chain, b1.vnonce, 0), Virtual(chain, b2.vnonce, 0));
    assert Below(p, 2) == p;
    CapFallsBehind(p, 1, 2, Virtual(chain, b1.vnonce, 0), Virtual(chain, b2.vnonce, 0));
  }
}
