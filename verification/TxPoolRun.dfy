/**
 The pool's entry points: adding transactions, changing the minimum price, evicting
 idle accounts and following the chain head; and what holds over every run of them.
 */
module TxPoolRun {
  import opened TxListSpec
  import opened TxPoolSpec
  import opened TxPool
  import opened TxPriced
  import opened TxPoolPromote
  import opened TxPoolFair
  import opened TxPoolQueue
  import TxList

  // --------------------------------------------------------------- composition

  /**
   From b to b', soundness was kept, and so was the order of pending nonces but for the promotions that became
   due or were done.
   */
  ghost predicate Follows(b: Book, b': Book, chain: Chain, due: set<nat>, done: set<nat>) {
    && b'.Sound({})
    && forall dirty :: b.Gapless(chain, dirty) ==> b'.Gapless(chain, dirty + due - done)
  }

  lemma FollowsNone(b: Book, chain: Chain)
    requires b.Sound({})
    ensures Follows(b, b, chain, {}, {})
  {
    forall dirty | b.Gapless(chain, dirty) ensures b.Gapless(chain, dirty + {} - {}) {
      assert dirty + {} - {} == dirty;
    }
  }

  lemma FollowsRemoved(b: Book, b1: Book, b2: Book, chain: Chain, tx: Tx)
    requires Follows(b, b1, chain, {}, {}) && RemovedFrom(b1, b2, chain, tx)
    ensures Follows(b, b2, chain, {}, {})
  {
    forall dirty | b.Gapless(chain, dirty) ensures b2.Gapless(chain, dirty + {} - {}) {
      assert b1.Gapless(chain, dirty + {} - {});
    }
  }

  lemma FollowsPromoted(b: Book, b1: Book, b2: Book, chain: Chain, done: set<nat>, a: nat)
    requires Follows(b, b1, chain, {}, done) && AccountPromoted(b1, b2, chain, a)
    ensures Follows(b, b2, chain, {}, done + {a})
  {
    forall dirty | b.Gapless(chain, dirty) ensures b2.Gapless(chain, dirty + {} - (done + {a})) {
      assert b1.Gapless(chain, dirty + {} - done);
      assert dirty + {} - done - {a} == dirty + {} - (done + {a});
    }
  }

  lemma FollowsTrimmed(b: Book, b1: Book, b2: Book, b3: Book, chain: Chain, due: set<nat>, done: set<nat>)
    requires Follows(b, b1, chain, due, done) && Thinned(b1, b2, chain) && Truncated(b2, b3, chain)
    ensures Follows(b, b3, chain, due, done)
  {
    hide AllSound;
    hide AllGapless;
    hide FewerAt;
  }

  lemma FollowsBoth(b: Book, b1: Book, b2: Book, chain: Chain, due1: set<nat>, due2: set<nat>)
    requires Follows(b, b1, chain, due1, {}) && Follows(b1, b2, chain, due2, {})
    ensures Follows(b, b2, chain, due1 + due2, {})
  {
    forall dirty | b.Gapless(chain, dirty) ensures b2.Gapless(chain, dirty + (due1 + due2) - {}) {
      assert b1.Gapless(chain, dirty + due1 - {});
      assert dirty + due1 - {} + due2 - {} == dirty + (due1 + due2) - {};
    }
  }

  /** What was due has been done. */
  lemma FollowsDone(b: Book, b1: Book, b2: Book, chain: Chain, due: set<nat>)
    requires Follows(b, b1, chain, due, {}) && Follows(b1, b2, chain, {}, due)
    ensures Follows(b, b2, chain, {}, {})
  {
    forall dirty | b.Gapless(chain, dirty) ensures b2.Gapless(chain, dirty + {} - {}) {
      assert b1.Gapless(chain, dirty + due - {});
      WeakerDirty(b2, chain, dirty + due - {} + {} - due, dirty + {} - {});
    }
  }

  lemma WeakerDirty(b: Book, chain: Chain, dirty: set<nat>, more: set<nat>)
    requires b.Gapless(chain, dirty) && dirty <= more
    ensures b.Gapless(chain, more)
  {
  }

  // --------------------------------------------------------- promoteExecutables

  ghost predicate SameAt(b: Book, b': Book, chain: Chain, a: nat) {
    && Of(b'.pending, a) == Of(b.pending, a) && Of(b'.queue, a) == Of(b.queue, a)
    && Virtual(chain, b'.vnonce, a) == Virtual(chain, b.vnonce, a)
  }

  /** The account loop of promoteExecutables: every account in done was promoted, and no other was touched. */
  ghost predicate AllPromoted(b: Book, b': Book, chain: Chain, locals: set<nat>, limit: nat, done: set<nat>) {
    && b'.Sound({}) && b'.all <= b.all
    && forall a :: if a in done then TookReady(b, b', chain, a, a in locals, limit) else SameAt(b, b', chain, a)
  }

  /** promoteExecutables: promotions, then the pending limit, then the queue limit. */
  ghost predicate PromotesAll(b: Book, b': Book, chain: Chain, locals: set<nat>, config: Config, accounts: set<nat>) {
    Follows(b, b', chain, {}, accounts) &&
    exists b1: Book, b2: Book :: PromotesBy(b, b1, b2, b', chain, locals, config, accounts)
  }

  ghost predicate PromotesBy(b: Book, b1: Book, b2: Book, b': Book, chain: Chain, locals: set<nat>, config: Config,
                             accounts: set<nat>) {
    && AllPromoted(b, b1, chain, locals, config.accountQueue, accounts)
    && Thinned(b1, b2, chain) && Evened(b1, b2, locals, config.accountSlots, config.globalSlots)
    && Truncated(b2, b', chain) && Drained(b2, b', locals, config.globalQueue)
  }

  lemma PromotedNone(b: Book, chain: Chain, locals: set<nat>, limit: nat)
    requires b.Sound({})
    ensures AllPromoted(b, b, chain, locals, limit, {})
  {
  }

  lemma PromotedNext(b: Book, b1: Book, b2: Book, chain: Chain, locals: set<nat>, limit: nat, done: set<nat>, a: nat)
    requires AllPromoted(b, b1, chain, locals, limit, done) && a !in done
    requires AccountPromoted(b1, b2, chain, a) && TookReady(b1, b2, chain, a, a in locals, limit)
    ensures AllPromoted(b, b2, chain, locals, limit, done + {a})
  {
    hide AllSound;
    hide AllGapless;
    forall c
      ensures if c in done + {a} then TookReady(b, b2, chain, c, c in locals, limit) else SameAt(b, b2, chain, c)
    {
      if c == a { TookSince(b, b1, b2, chain, a, a in locals, limit); }
      else if c in done { TookUntil(b, b1, b2, chain, c, c in locals, limit); }
    }
  }

  lemma TookSince(b: Book, b1: Book, b2: Book, chain: Chain, a: nat, local: bool, limit: nat)
    requires SameAt(b, b1, chain, a) && TookReady(b1, b2, chain, a, local, limit)
    ensures TookReady(b, b2, chain, a, local, limit)
  {
    hide ReadyTakes;
    hide Rest;
    hide Usable;
    var taken :| Took(b1, b2, chain, a, local, limit, taken);
    assert Took(b, b2, chain, a, local, limit, taken);
  }

  lemma TookUntil(b: Book, b1: Book, b2: Book, chain: Chain, a: nat, local: bool, limit: nat)
    requires TookReady(b, b1, chain, a, local, limit) && SameAt(b1, b2, chain, a)
    ensures TookReady(b, b2, chain, a, local, limit)
  {
    hide ReadyTakes;
    hide Rest;
    hide Usable;
    var taken :| Took(b, b1, chain, a, local, limit, taken);
    assert Took(b, b2, chain, a, local, limit, taken);
  }

  /** Promote the given accounts, then enforce the pending and the queue limit. */
  method PromoteExecutables(pool: Pool, accounts: seq<nat>)
    requires pool.Valid() && Distinct(accounts)
    modifies pool`book, pool`log, pool.priced
    ensures pool.Valid() && pool.log == old(pool.log)
    ensures PromotesAll(old(pool.book), pool.book, pool.chain, pool.locals, pool.config, Members(accounts))
    ensures Total(pool.book.queue) <= pool.config.globalQueue
      || forall a :: a !in pool.locals ==> |Of(pool.book.queue, a)| == 0
  {
    hide AllSound;
    hide Pool.Tracks;
    hide Follows;
    hide AllPromoted;
    hide Thinned;
    hide Truncated;
    hide Evened;
    hide Drained;
    hide Distinct;
    PromoteAll(pool, accounts);
    ghost var b, b1 := old(pool.book), pool.book;
    var metered := Equalize(pool);
    ghost var b2 := pool.book;
    var beats: map<nat, nat> := *;
    Truncate(pool, beats);
    FollowsTrimmed(b, b1, b2, pool.book, pool.chain, {}, Members(accounts));
    assert PromotesBy(b, b1, b2, pool.book, pool.chain, pool.locals, pool.config, Members(accounts));
    OnlyLocal(b2, pool.book, pool.locals, pool.config.globalQueue);
  }

  /** The account loop. */
  method PromoteAll(pool: Pool, accounts: seq<nat>)
    requires pool.Valid() && Distinct(accounts)
    modifies pool`book, pool`log, pool.priced
    ensures pool.Valid() && Follows(old(pool.book), pool.book, pool.chain, {}, Members(accounts))
      && pool.log == old(pool.log)
    ensures AllPromoted(old(pool.book), pool.book, pool.chain, pool.locals, pool.config.accountQueue, Members(accounts))
  {
    hide AllSound;
    hide Pool.Tracks;
    hide Follows;
    hide AccountPromoted;
    hide TookReady;
    hide AllPromoted;
    ghost var b := pool.book;
    var i := 0;
    FollowsNone(b, pool.chain);
    PromotedNone(b, pool.chain, pool.locals, pool.config.accountQueue);
    assert Members(accounts[..0]) == {};
    while i < |accounts|
      invariant 0 <= i <= |accounts| && pool.Valid() && pool.log == old(pool.log)
      invariant Follows(b, pool.book, pool.chain, {}, Members(accounts[..i]))
      invariant AllPromoted(b, pool.book, pool.chain, pool.locals, pool.config.accountQueue, Members(accounts[..i]))
    {
      ghost var b1, done := pool.book, Members(accounts[..i]);
      PromoteAccount(pool, accounts[i]);
      FollowsPromoted(b, b1, pool.book, pool.chain, done, accounts[i]);
      assert accounts[i] !in done;
      PromotedNext(b, b1, pool.book, pool.chain, pool.locals, pool.config.accountQueue, done, accounts[i]);
      assert Members(accounts[..i + 1]) == done + {accounts[i]};
      i := i + 1;
    }
    assert accounts[..|accounts|] == accounts;
  }

  /** If the queue limit is still exceeded, no remote account has anything queued. */
  lemma OnlyLocal(b: Book, b': Book, locals: set<nat>, limit: nat)
    requires Drained(b, b', locals, limit)
    ensures Total(b'.queue) > limit ==> forall a :: a !in locals ==> |Of(b'.queue, a)| == 0
  {
    if Total(b'.queue) > limit {
      assert Total(b.queue) > limit;
      RemoteGone(b.queue, b'.queue, locals, limit);
    }
  }

  lemma RemoteGone(q: ListMap, q': ListMap, locals: set<nat>, limit: nat)
    requires Total(q) > limit && Total(q') > limit
      && Total(q') == Total(q) - Least(Total(q) - limit, RemoteTotal(q, locals))
    requires forall a :: a in locals ==> Of(q', a) == Of(q, a)
    ensures forall a :: a !in locals ==> |Of(q', a)| == 0
  {
    var keys := q.Keys + q'.Keys;
    SumMore(q, keys);
    SumMore(q', keys);
    SumSplit(keys, locals, Sizes(q));
    SumSplit(keys, locals, Sizes(q'));
    SumEquals(keys * locals, Sizes(q), Sizes(q'));
    RemoteSum(q, keys, locals);
    assert Sum(keys - locals, Sizes(q')) == 0;
    forall a | a !in locals ensures |Of(q', a)| == 0 {
      if a in q' { SumPull(keys - locals, Sizes(q'), a); }
    }
  }

  lemma {:induction false} RemoteSum(q: ListMap, keys: set<nat>, locals: set<nat>)
    requires q.Keys <= keys
    ensures Sum(keys - locals, Sizes(q)) == RemoteTotal(q, locals)
    decreases |keys|
  {
    if keys - locals == q.Keys - locals { return; }
    var a :| a in keys - locals && a !in q.Keys;
    SumPull(keys - locals, Sizes(q), a);
    assert keys - locals - {a} == keys - {a} - locals;
    RemoteSum(q, keys - {a}, locals);
  }

  /** removeTx for transactions that Discard or Cap has already taken off the price heap. */
  method RemoveAll(pool: Pool, txs: seq<Tx>)
    requires pool.Priced(Elements(txs)) && pool.book.Sound({}) && Elements(txs) <= pool.book.all
    modifies pool`book, pool`log, pool.priced
    ensures pool.Valid() && Follows(old(pool.book), pool.book, pool.chain, {}, {})
    ensures Without(old(pool.book), pool.book, pool.chain, Elements(txs))
    ensures pool.log == old(pool.log) && Within(pool.priced.items, old(pool.priced.items))
  {
    hide AllSound;
    hide Pool.Tracks;
    hide Follows;
    hide RemovedFrom;
    hide Without;
    ghost var b, gone := pool.book, Elements(txs);
    FollowsNone(b, pool.chain);
    WithoutUnknown(b, pool.chain, {});
    var i := 0;
    assert Elements(txs[..0]) == {};
    while i < |txs|
      invariant 0 <= i <= |txs| && pool.Priced(gone) && pool.book.Sound({}) && Follows(b, pool.book, pool.chain, {}, {})
      invariant Without(b, pool.book, pool.chain, Elements(txs[..i]))
      invariant pool.log == old(pool.log) && Within(pool.priced.items, old(pool.priced.items))
    {
      ghost var b1 := pool.book;
      assert txs[i] in gone;
      pool.RemoveTx(txs[i], false, gone);
      FollowsRemoved(b, b1, pool.book, pool.chain, txs[i]);
      RemovedOne(b1, pool.book, pool.chain, txs[i]);
      WithoutBoth(b, b1, pool.book, pool.chain, Elements(txs[..i]), {txs[i]});
      assert Elements(txs[..i + 1]) == Elements(txs[..i]) + {txs[i]};
      i := i + 1;
    }
    assert txs[..|txs|] == txs;
    assert pool.book.all == b.all - gone by { WithoutAll(b, pool.book, pool.chain, gone); }
    assert pool.book.all - gone == pool.book.all && pool.book.all - {} == pool.book.all;
  }

  lemma RemovedOne(b: Book, b': Book, chain: Chain, tx: Tx)
    requires RemovedFrom(b, b', chain, tx)
    ensures b'.Sound({}) && Without(b, b', chain, {tx})
  {
  }

  lemma WithoutAll(b: Book, b': Book, chain: Chain, gone: set<Tx>)
    requires Without(b, b', chain, gone)
    ensures b'.all == b.all - gone
  {
  }

  // ------------------------------------------------------------------------ add

  /** validateTx: a remote transaction must also meet the minimum price. */
  ghost predicate Admissible(tx: Tx, chain: Chain, free: bool, gasPrice: nat) {
    && tx.wellFormed && tx.gas <= chain.maxGas && (free || gasPrice <= tx.price)
    && chain.nonce(tx.sender) <= tx.nonce && tx.cost <= chain.balance(tx.sender)
  }

  /** The list that a new transaction would enter takes it. */
  ghost predicate Welcome(b: Book, tx: Tx, priceBump: nat) {
    if tx.nonce in Of(b.pending, tx.sender) then Accepts(b.pending, tx.sender, tx, priceBump)
      else Accepts(b.queue, tx.sender, tx, priceBump)
  }

  /** A new transaction takes the place of a pending one. */
  ghost function Swapped(b: Book, tx: Tx): Book {
    b.(pending := Put(b.pending, tx.sender, tx), all := b.all - Replaced(b.pending, tx.sender, tx) + {tx})
  }

  /** The new transaction enters one list or the other. */
  ghost function Entered(b: Book, tx: Tx): Book {
    if tx.nonce in Of(b.pending, tx.sender) then Swapped(b, tx) else Enqueued(b, tx)
  }

  lemma SwappedSound(b: Book, tx: Tx)
    requires b.Sound({}) && tx !in b.all && tx.nonce in Of(b.pending, tx.sender)
    ensures Swapped(b, tx).Sound({}) && Of(b.pending, tx.sender)[tx.nonce] in b.all
  {
    var a, b' := tx.sender, Swapped(b, tx);
    assert SoundAt(a, Of(b.pending, a), Of(b.queue, a), b.all, {});
    EnterPending(a, Of(b.pending, a), Of(b.queue, a), b.all, tx);
    PutIs(b.pending, a, tx);
    Localize(b.pending, b.queue, b.all, {}, b'.pending, b'.queue, b'.all, {}, a);
  }

  lemma EnqueuedSound(b: Book, tx: Tx)
    requires b.Sound({}) && tx !in b.all && tx.nonce !in Of(b.pending, tx.sender)
    ensures Enqueued(b, tx).Sound({})
    ensures tx.nonce in Of(b.queue, tx.sender) ==> Of(b.queue, tx.sender)[tx.nonce] in b.all
  {
    var a, b' := tx.sender, Enqueued(b, tx);
    assert SoundAt(a, Of(b.pending, a), Of(b.queue, a), b.all, {});
    EnterQueue(a, Of(b.pending, a), Of(b.queue, a), b.all, tx);
    PutIs(b.queue, a, tx);
    Localize(b.pending, b.queue, b.all, {}, b'.pending, b'.queue, b'.all, {}, a);
  }

  /** A replacement leaves the nonces alone; a new queued nonce may call for a promotion. */
  lemma EnteredFollows(b: Book, chain: Chain, tx: Tx)
    requires b.Sound({}) && tx !in b.all
    ensures var a := tx.sender; var replace := tx.nonce in Of(b.pending, a) || tx.nonce in Of(b.queue, a);
      Follows(b, Entered(b, tx), chain, if replace then {} else {a}, {})
  {
    var a, b' := tx.sender, Entered(b, tx);
    var due := if tx.nonce in Of(b.pending, a) || tx.nonce in Of(b.queue, a) then {} else {a};
    if tx.nonce in Of(b.pending, a) { SwappedSound(b, tx); } else { EnqueuedSound(b, tx); }
    hide AllSound;
    hide AllGapless;
    hide Entered;
    forall dirty | b.Gapless(chain, dirty) ensures b'.Gapless(chain, dirty + due - {}) {
      WeakerDirty(b, chain, dirty, dirty + due - {});
      EnteredGapless(b, chain, tx, dirty + due - {});
    }
  }

  lemma EnteredGapless(b: Book, chain: Chain, tx: Tx, dirty: set<nat>)
    requires b.Gapless(chain, dirty)
    requires tx.nonce in Of(b.pending, tx.sender) || tx.nonce in Of(b.queue, tx.sender) || tx.sender in dirty
    ensures Entered(b, tx).Gapless(chain, dirty)
  {
    var a, b' := tx.sender, Entered(b, tx);
    PutIs(b.pending, a, tx);
    PutIs(b.queue, a, tx);
    assert GaplessAt(Of(b.pending, a), chain.nonce(a), Virtual(chain, b.vnonce, a));
    LocalizeGapless(b.pending, b.queue, chain, b.vnonce, dirty, b'.pending, b'.queue, b'.vnonce, a);
  }

  ghost function RemoteOf(all: set<Tx>, locals: set<nat>): set<Tx> { set tx | tx in all && Remote(tx, locals) }

  /**
   Making room took away the cheapest remote transactions, at most as many as asked for and at least one
   if there is one; and exactly as many, or all of them, while the price heap is exact.
   */
  ghost predicate MadeRoom(b: Book, mid: Book, chain: Chain, locals: set<nat>, count: nat, exact: bool) {
    var gone := b.all - mid.all;
    && Without(b, mid, chain, gone) && |gone| <= count
    && (forall d :: d in gone ==> Remote(d, locals))
    && (forall d, t :: d in gone && t in mid.all && Remote(t, locals) ==> GoesFirst(d, t))
    && (count > 0 && gone == {} ==> RemoteOf(b.all, locals) == {})
    && (exact ==> |gone| == Least(count, |RemoteOf(b.all, locals)|))
  }

  /** Make room by removing the cheapest remote transactions. */
  method MakeRoom(pool: Pool, count: nat)
    requires pool.Valid()
    modifies pool`book, pool`log, pool.priced
    ensures pool.Valid() && Follows(old(pool.book), pool.book, pool.chain, {}, {})
    ensures MadeRoom(old(pool.book), pool.book, pool.chain, pool.locals, count, pool.log.exact)
    ensures pool.log == old(pool.log) && Within(pool.priced.items, old(pool.priced.items))
  {
    hide AllSound;
    hide Follows;
    hide Without;
    ghost var b := pool.book;
    assert b.all - {} == b.all;
    var drop := pool.priced.Discard(count, pool.book.all, pool.locals);
    ElementsSize(drop);
    RemoveAll(pool, drop);
    RoomIsMade(b, pool.book, pool.chain, pool.locals, count, pool.log.exact, drop);
  }

  lemma {:induction false} ElementsSize(s: seq<Tx>)
    ensures |Elements(s)| <= |s|
  {
    if s == [] {
      assert Elements(s) == {};
    } else {
      ElementsSize(s[1..]);
      assert Elements(s) == {s[0]} + Elements(s[1..]);
    }
  }

  lemma RoomIsMade(b: Book, mid: Book, chain: Chain, locals: set<nat>, count: nat, exact: bool, drop: seq<Tx>)
    requires Without(b, mid, chain, Elements(drop)) && |drop| <= count && |Elements(drop)| <= |drop|
    requires forall tx :: tx in drop ==> tx in b.all && Remote(tx, locals)
    requires forall d, tx :: d in drop && tx in b.all && Remote(tx, locals) && tx !in drop ==> GoesFirst(d, tx)
    requires |drop| < count ==> forall tx :: tx in b.all && Remote(tx, locals) ==> tx in drop
    requires exact ==> |Elements(drop)| == |drop|
    ensures MadeRoom(b, mid, chain, locals, count, exact)
  {
    WithoutAll(b, mid, chain, Elements(drop));
    hide Without;
    var gone := b.all - mid.all;
    assert gone == Elements(drop);
    assert gone == {} ==> drop == [] by { if drop != [] { assert drop[0] in gone; } }
    if |drop| < count { assert RemoteOf(b.all, locals) == gone; } else { SetGrows(gone, RemoteOf(b.all, locals)); }
  }

  lemma SetGrows(s: set<Tx>, t: set<Tx>)
    requires s <= t
    ensures |s| <= |t| && (s != t ==> |s| < |t|)
  {
    assert t == s + (t - s);
    if s != t { assert t - s != {}; }
  }

  /** add after the checks: put the transaction into the list it belongs to. */
  method Enter(pool: Pool, tx: Tx) returns (replace: bool, ok: bool)
    requires pool.Valid() && tx !in pool.book.all
    modifies pool`book, pool`log, pool.priced
    ensures pool.Valid() && ok == Welcome(old(pool.book), tx, pool.config.priceBump)
    ensures pool.book == if ok then Entered(old(pool.book), tx) else old(pool.book)
    ensures replace == (ok && Occupied(old(pool.book), tx))
    ensures if ok then Logged(old(pool.log), pool.log, old(pool.priced.items), tx) else pool.log == old(pool.log)
  {
    hide AllSound;
    hide Pool.Tracks;
    hide Logged;
    var b := pool.book;
    var list: Items := Of(b.pending, tx.sender);
    if tx.nonce in list {
      SwappedSound(b, tx);
      if !TxList.Outbids(list[tx.nonce], tx, pool.config.priceBump) { return false, false; }
      pool.book := pool.book.(pending := Put(b.pending, tx.sender, tx));
      ghost var items := pool.priced.items;
      pool.Forget(list[tx.nonce]);
      ghost var fewer := pool.priced.items;
      pool.Record(tx, {});
      LoggedSince(old(pool.log), pool.log, items, fewer, tx);
      return true, true;
    }
    EnqueuedSound(b, tx);
    replace, ok := pool.EnqueueTx(tx, {});
  }

  lemma LoggedSince(log: Log, log': Log, items: seq<Tx>, fewer: seq<Tx>, tx: Tx)
    requires Logged(log, log', fewer, tx) && Within(fewer, items)
    ensures Logged(log, log', items, tx)
  {
  }

  /** The nonce of the transaction is taken in one list or the other. */
  ghost predicate Occupied(b: Book, tx: Tx) {
    tx.nonce in Of(b.pending, tx.sender) || tx.nonce in Of(b.queue, tx.sender)
  }

  /** add turns the transaction away at once: it is known, not valid, or too cheap for a full pool. */
  ghost predicate Refused(s: View, config: Config, tx: Tx, local: bool) {
    var free := local || tx.sender in s.locals;
    || tx in s.book.all
    || !Admissible(tx, s.chain, free, s.gasPrice)
    || (|s.book.all| >= config.Limit() && !free && s.book.all != {}
         && forall t :: t in s.book.all ==> t.price >= tx.price)
  }

  ghost function Due(tx: Tx, replace: bool, ok: bool): set<nat> { if ok && !replace then {tx.sender} else {} }

  /** add: nothing happens, or room is made in a full pool and then the transaction enters its list if that takes it. */
  ghost predicate Admits(s: View, s': View, config: Config, tx: Tx, local: bool, replace: bool, ok: bool) {
    && Follows(s.book, s'.book, s.chain, Due(tx, replace, ok), {})
    && if Refused(s, config, tx, local) then s' == s && !ok && !replace
       else exists mid: Book :: Roomy(s, mid, config) && Enters(s, mid, s', config, tx, local, replace, ok)
  }

  /** Room was made exactly if the pool was full. */
  ghost predicate Roomy(s: View, mid: Book, config: Config) {
    var size := |s.book.all|;
    if size < config.Limit() then mid == s.book
    else MadeRoom(s.book, mid, s.chain, s.locals, size - config.Limit() + 1, s.log.exact)
  }

  /** A local transaction whitelists its sender unless it replaces a pending one. */
  ghost predicate Enters(s: View, mid: Book, s': View, config: Config, tx: Tx, local: bool, replace: bool, ok: bool) {
    && ok == Welcome(mid, tx, config.priceBump) && replace == (ok && Occupied(mid, tx))
    && s'.book == (if ok then Entered(mid, tx) else mid)
    && s'.locals == (if ok && local && tx.nonce !in Of(mid.pending, tx.sender) then s.locals + {tx.sender}
         else s.locals)
    && s'.chain == s.chain && s'.gasPrice == s.gasPrice
    && if ok then Grown(s.log, s'.log, {tx}) else s'.log == s.log
  }

  /** Two transactions compete for one place in the pool. */
  ghost predicate SameSlot(t: Tx, tx: Tx) { t.sender == tx.sender && t.nonce == tx.nonce }

  /** A higher price, and higher by the price bump, the new threshold rounded down. */
  ghost predicate Beats(tx: Tx, t: Tx, priceBump: nat) {
    t.price < tx.price && t.price * (100 + priceBump) < 100 * (tx.price + 1)
  }

  ghost predicate Valid(s: View, tx: Tx, local: bool) {
    Admissible(tx, s.chain, local || tx.sender in s.locals, s.gasPrice)
  }

  /** The pool has room for the transaction, or makes some for it. */
  ghost predicate HasRoom(s: View, config: Config, tx: Tx, local: bool) {
    || |s.book.all| < config.globalSlots + config.globalQueue || local || tx.sender in s.locals
    || s.book.all == {} || exists t :: t in s.book.all && t.price < tx.price
  }

  /** The transaction gets its place exactly if that is free or it beats the one that has it; nothing else moves. */
  ghost predicate Placed(mid: Book, b: Book, config: Config, tx: Tx, replace: bool, ok: bool) {
    && (ok <==> forall t :: t in mid.all && SameSlot(t, tx) ==> Beats(tx, t, config.priceBump))
    && (replace <==> ok && exists t :: t in mid.all && SameSlot(t, tx))
    && (forall t :: t in b.all <==> (t in mid.all && !(ok && SameSlot(t, tx))) || (ok && t == tx))
    && (forall a ::
         a != tx.sender || !ok ==> Of(b.pending, a) == Of(mid.pending, a) && Of(b.queue, a) == Of(mid.queue, a))
    && (ok ==> InPlace(Of(mid.pending, tx.sender), Of(mid.queue, tx.sender), Of(b.pending, tx.sender),
                       Of(b.queue, tx.sender), tx))
  }

  /** A pending nonce is replaced where it is; any other is queued. */
  ghost predicate InPlace(p: Items, q: Items, p': Items, q': Items, tx: Tx) {
    if tx.nonce in p then p' == p[tx.nonce := tx] && q' == q else p' == p && q' == q[tx.nonce := tx]
  }

  /**
   What a caller of add can count on: only a new transaction that meets the rules is taken, a full pool takes none
   that is not above its cheapest, and any other gets its place if that is free or it pays enough for it.
   */
  ghost predicate Decided(s: View, s': View, config: Config, tx: Tx, local: bool, replace: bool, ok: bool) {
    if tx in s.book.all || !Valid(s, tx, local) || !HasRoom(s, config, tx, local) then s' == s && !ok && !replace
    else exists mid: Book :: Roomy(s, mid, config) && Placed(mid, s'.book, config, tx, replace, ok)
  }

  lemma OutbidsBeats(t: Tx, tx: Tx, priceBump: nat)
    ensures TxList.Outbids(t, tx, priceBump) <==> Beats(tx, t, priceBump)
  {
  }

  lemma EntersPlaces(s: View, mid: Book, s': View, config: Config, tx: Tx, local: bool, replace: bool, ok: bool)
    requires mid.Sound({}) && tx !in mid.all && Enters(s, mid, s', config, tx, local, replace, ok)
    ensures Placed(mid, s'.book, config, tx, replace, ok)
  {
    var a := tx.sender;
    var p, q := Of(mid.pending, a), Of(mid.queue, a);
    assert SoundAt(a, p, q, mid.all, {});
    hide AllSound;
    PutIs(mid.pending, a, tx);
    PutIs(mid.queue, a, tx);
    hide Put;
    OnePlace(p, q, mid.all, config.priceBump, tx);
    hide TxList.Outbids;
    hide Beats;
    hide SoundAt;
    hide Of;
  }

  /** At most one transaction has the place, and the price rule applies to that one. */
  lemma OnePlace(p: Items, q: Items, all: set<Tx>, priceBump: nat, tx: Tx)
    requires SoundAt(tx.sender, p, q, all, {})
    ensures forall t :: t in all && SameSlot(t, tx) <==>
      (tx.nonce in p && t == p[tx.nonce]) || (tx.nonce in q && t == q[tx.nonce])
    ensures tx.nonce in p ==> tx.nonce !in q
    ensures (forall t :: t in all && SameSlot(t, tx) ==> Beats(tx, t, priceBump)) <==>
      (tx.nonce in p ==> TxList.Outbids(p[tx.nonce], tx, priceBump)) &&
      (tx.nonce in q ==> TxList.Outbids(q[tx.nonce], tx, priceBump))
  {
    if tx.nonce in p { assert Holds(p, p[tx.nonce]); }
    if tx.nonce in q { assert Holds(q, q[tx.nonce]); }
    hide Beats;
    hide TxList.Outbids;
    if tx.nonce in p { OutbidsBeats(p[tx.nonce], tx, priceBump); }
    if tx.nonce in q { OutbidsBeats(q[tx.nonce], tx, priceBump); }
  }

  /** validateTx. */
  method ValidateTx(pool: Pool, tx: Tx, local: bool) returns (valid: bool)
    ensures valid <==> Valid(pool.Now(), tx, local)
    ensures valid ==> tx.wellFormed && tx.gas <= pool.chain.maxGas
    ensures valid ==> pool.chain.nonce(tx.sender) <= tx.nonce && tx.cost <= pool.chain.balance(tx.sender)
    ensures valid ==> local || tx.sender in pool.locals || pool.gasPrice <= tx.price
  {
    if !tx.wellFormed || pool.chain.maxGas < tx.gas { return false; }
    if !(local || tx.sender in pool.locals) && pool.gasPrice > tx.price { return false; }
    if pool.chain.nonce(tx.sender) > tx.nonce { return false; }
    return pool.chain.balance(tx.sender) >= tx.cost;
  }

  /** add: validate, make room, and enter the transaction into its list. */
  method Add(pool: Pool, tx: Tx, local: bool) returns (replace: bool, ok: bool)
    requires pool.Valid()
    modifies pool`book, pool`log, pool`locals, pool.priced
    ensures pool.Valid() && Admits(old(pool.Now()), pool.Now(), pool.config, tx, local, replace, ok)
    ensures old(pool.log.exact) && tx !in old(pool.priced.items) ==> pool.log.exact
    ensures Decided(old(pool.Now()), pool.Now(), pool.config, tx, local, replace, ok)
    ensures ok ==> tx !in old(pool.book).all && tx in pool.book.all && tx.wellFormed && tx.gas <= pool.chain.maxGas
    ensures ok ==> pool.chain.nonce(tx.sender) <= tx.nonce && tx.cost <= pool.chain.balance(tx.sender)
    ensures ok ==> local || tx.sender in old(pool.locals) || pool.gasPrice <= tx.price
  {
    hide AllSound;
    hide Pool.Tracks;
    hide Follows;
    hide Admits;
    hide Decided;
    hide Valid;
    hide Enters;
    hide MadeRoom;
    hide Roomy;
    ghost var s := pool.Now();
    FollowsNone(s.book, pool.chain);
    TurnedAway(s, pool.config, tx, local);
    if tx in pool.book.all { return false, false; }
    var valid := ValidateTx(pool, tx, local);
    if !valid { return false, false; }
    var limit := pool.config.globalSlots + pool.config.globalQueue;
    if |pool.book.all| >= limit {
      if !local {
        var cheap := pool.Underpriced(tx);
        if cheap { return false, false; }
      }
      MakeRoom(pool, |pool.book.all| - limit + 1);
    }
    ghost var mid := pool.book;
    RoomMade(s, mid, pool.config, tx);
    replace, ok := Take(pool, tx, local);
    FollowsBoth(s.book, mid, pool.book, pool.chain, {}, Due(tx, replace, ok));
    AddDecides(s, mid, pool.Now(), pool.config, tx, local, replace, ok);
  }

  /** Nothing happens to a transaction that is known, not valid, or too cheap for a full pool. */
  lemma TurnedAway(s: View, config: Config, tx: Tx, local: bool)
    requires Follows(s.book, s.book, s.chain, {}, {})
    ensures tx in s.book.all || !Valid(s, tx, local) || !HasRoom(s, config, tx, local) ==>
      Admits(s, s, config, tx, local, false, false) && Decided(s, s, config, tx, local, false, false)
  {
    hide Follows;
  }

  lemma RoomMade(s: View, mid: Book, config: Config, tx: Tx)
    requires tx !in s.book.all
    requires if |s.book.all| < config.Limit() then mid == s.book
      else MadeRoom(s.book, mid, s.chain, s.locals, |s.book.all| - config.Limit() + 1, s.log.exact)
    ensures Roomy(s, mid, config) && tx !in mid.all
  {
    if |s.book.all| >= config.Limit() {
      RoomIsPart(s.book, mid, s.chain, s.locals, |s.book.all| - config.Limit() + 1, s.log.exact);
    }
    hide MadeRoom;
  }

  lemma AddDecides(s: View, mid: Book, s': View, config: Config, tx: Tx, local: bool, replace: bool, ok: bool)
    requires tx !in s.book.all && Valid(s, tx, local) && HasRoom(s, config, tx, local)
    requires Roomy(s, mid, config) && tx !in mid.all && mid.Sound({})
    requires Follows(s.book, s'.book, s.chain, {} + Due(tx, replace, ok), {})
      && Enters(s.(book := mid), mid, s', config, tx, local, replace, ok)
    ensures Admits(s, s', config, tx, local, replace, ok) && Decided(s, s', config, tx, local, replace, ok)
    ensures ok ==> tx in s'.book.all
  {
    assert Enters(s, mid, s', config, tx, local, replace, ok);
    EntersPlaces(s, mid, s', config, tx, local, replace, ok);
    assert {} + Due(tx, replace, ok) == Due(tx, replace, ok);
    assert !Refused(s, config, tx, local);
    hide Follows;
    hide Enters;
    hide Roomy;
    TakenIn(mid, s'.book, config, tx, replace, ok);
    hide Placed;
  }

  lemma TakenIn(mid: Book, b: Book, config: Config, tx: Tx, replace: bool, ok: bool)
    requires Placed(mid, b, config, tx, replace, ok)
    ensures ok ==> tx in b.all
  {
  }

  /** The end of add: the transaction enters its list, and a local sender may be whitelisted. */
  method Take(pool: Pool, tx: Tx, local: bool) returns (replace: bool, ok: bool)
    requires pool.Valid() && tx !in pool.book.all
    modifies pool`book, pool`log, pool`locals, pool.priced
    ensures pool.Valid() && Enters(old(pool.Now()), old(pool.book), pool.Now(), pool.config, tx, local, replace, ok)
    ensures Follows(old(pool.book), pool.book, pool.chain, Due(tx, replace, ok), {})
    ensures old(pool.log.exact) && tx !in old(pool.priced.items) ==> pool.log.exact
  {
    hide AllSound;
    hide Pool.Tracks;
    hide Follows;
    hide Entered;
    hide Welcome;
    ghost var mid, log, items := pool.book, pool.log, pool.priced.items;
    var pending := tx.nonce in Of(pool.book.pending, tx.sender);
    FollowsNone(mid, pool.chain);
    pool.HeapWasPut({});
    replace, ok := Enter(pool, tx);
    if ok {
      LoggedGrows(log, pool.log, items, tx);
      EnteredFollows(mid, pool.chain, tx);
      if local && !pending { pool.locals := pool.locals + {tx.sender}; }
    }
  }

  lemma RoomIsPart(b: Book, mid: Book, chain: Chain, locals: set<nat>, count: nat, exact: bool)
    requires MadeRoom(b, mid, chain, locals, count, exact)
    ensures mid.all <= b.all
  {
  }

  lemma LoggedGrows(log: Log, log': Log, items: seq<Tx>, tx: Tx)
    requires Logged(log, log', items, tx) && forall t :: t in items ==> t in log.put
    ensures Grown(log, log', {tx})
  {
  }

  // -------------------------------------------------------------------- batches

  method ListOf(keys: set<nat>) returns (s: seq<nat>)
    ensures Distinct(s) && Members(s) == keys
  {
    s := [];
    var todo := keys;
    while todo != {}
      invariant todo <= keys && Distinct(s) && Members(s) == keys - todo
      decreases todo
    {
      var a :| a in todo;
      assert a !in Members(s);
      assert Members(s + [a]) == Members(s) + {a};
      todo := todo - {a};
      s := s + [a];
    }
  }

  /**
   The first part of addTxsLocked: the transactions are added one after the other; dirty are the accounts due
   for promotion.
   */
  ghost predicate Batch(s: View, s': View, config: Config, txs: seq<Tx>, local: bool, dirty: set<nat>)
    decreases |txs|
  {
    if txs == [] then s' == s && dirty == {}
    else exists s1: View, dirty1: set<nat>, replace: bool, ok: bool ::
      Batch(s, s1, config, txs[..|txs| - 1], local, dirty1)
        && BatchLast(s1, s', config, txs, local, dirty1, replace, ok, dirty)
  }

  ghost predicate BatchLast(s: View, s': View, config: Config, txs: seq<Tx>, local: bool, before: set<nat>,
                            replace: bool, ok: bool, dirty: set<nat>)
    requires txs != []
  {
    var tx := txs[|txs| - 1];
    Admits(s, s', config, tx, local, replace, ok) && dirty == before + Due(tx, replace, ok)
  }

  lemma BatchNext(s: View, s1: View, s2: View, config: Config, txs: seq<Tx>, i: nat, local: bool, dirty: set<nat>,
                  replace: bool, ok: bool)
    requires i < |txs| && Batch(s, s1, config, txs[..i], local, dirty)
      && Admits(s1, s2, config, txs[i], local, replace, ok)
    ensures Batch(s, s2, config, txs[..i + 1], local, dirty + Due(txs[i], replace, ok))
  {
    hide Admits;
    assert txs[..i + 1][..i] == txs[..i];
    assert BatchLast(s1, s2, config, txs[..i + 1], local, dirty, replace, ok, dirty + Due(txs[i], replace, ok));
  }

  /** A batch keeps what the pool keeps, and only its accounts become due; the chain and the price stay. */
  lemma {:induction false} BatchFollows(s: View, s': View, config: Config, txs: seq<Tx>, local: bool, dirty: set<nat>)
    requires s.book.Sound({}) && Batch(s, s', config, txs, local, dirty)
    ensures Follows(s.book, s'.book, s.chain, dirty, {}) && s'.chain == s.chain && s'.gasPrice == s.gasPrice
    ensures s.locals <= s'.locals && (!local ==> s'.locals == s.locals)
    decreases |txs|
  {
    hide AllSound;
    hide Follows;
    hide MadeRoom;
    hide Entered;
    if txs == [] {
      FollowsNone(s.book, s.chain);
    } else {
      var k := |txs| - 1;
      var s1: View, dirty1: set<nat>, replace: bool, ok: bool :|
        Batch(s, s1, config, txs[..k], local, dirty1)
          && BatchLast(s1, s', config, txs, local, dirty1, replace, ok, dirty);
      BatchFollows(s, s1, config, txs[..k], local, dirty1);
      FollowsBoth(s.book, s1.book, s'.book, s.chain, dirty1, Due(txs[k], replace, ok));
    }
  }

  ghost predicate DistinctTxs(txs: seq<Tx>) { forall i, j :: 0 <= i < j < |txs| ==> txs[i] != txs[j] }

  lemma AdmitGrows(s: View, s': View, config: Config, tx: Tx, local: bool, replace: bool, ok: bool)
    requires Admits(s, s', config, tx, local, replace, ok)
    ensures Grown(s.log, s'.log, {tx})
  {
    hide Follows;
    hide MadeRoom;
    hide Entered;
    hide Welcome;
  }

  lemma NothingGrows(log: Log)
    ensures Grown(log, log, {})
  {
  }

  lemma GrownTwice(log: Log, log1: Log, log2: Log, txs: set<Tx>, more: set<Tx>)
    requires Grown(log, log1, txs) && Grown(log1, log2, more) && txs !! more
    ensures Grown(log, log2, txs + more)
  {
  }

  /** A batch of different transactions that were never on the price heap keeps it exact. */
  lemma {:induction false} BatchGrows(s: View, s': View, config: Config, txs: seq<Tx>, local: bool, dirty: set<nat>)
    requires Batch(s, s', config, txs, local, dirty) && DistinctTxs(txs)
    ensures Grown(s.log, s'.log, Elements(txs))
    decreases |txs|
  {
    hide Admits;
    hide Grown;
    if txs == [] {
      assert Elements(txs) == {};
      NothingGrows(s.log);
    } else {
      var k := |txs| - 1;
      var s1: View, dirty1: set<nat>, replace: bool, ok: bool :|
        Batch(s, s1, config, txs[..k], local, dirty1)
          && BatchLast(s1, s', config, txs, local, dirty1, replace, ok, dirty);
      BatchGrows(s, s1, config, txs[..k], local, dirty1);
      AdmitGrows(s1, s', config, txs[k], local, replace, ok);
      assert Elements(txs) == Elements(txs[..k]) + {txs[k]} && txs[k] !in Elements(txs[..k]);
      GrownTwice(s.log, s1.log, s'.log, Elements(txs[..k]), {txs[k]});
    }
  }

  /** addTxsLocked: a batch of additions, and if any account is due, a promotion of all that are. */
  ghost predicate AddsTxs(s: View, s': View, config: Config, txs: seq<Tx>, local: bool) {
    exists mid: View, dirty: set<nat> ::
      Batch(s, mid, config, txs, local, dirty) && ThenPromotes(mid, s', config, dirty)
  }

  ghost predicate ThenPromotes(mid: View, s': View, config: Config, dirty: set<nat>) {
    if dirty == {} then s' == mid
    else s' == mid.(book := s'.book) && PromotesAll(mid.book, s'.book, mid.chain, mid.locals, config, dirty)
  }

  method AddAll(pool: Pool, txs: seq<Tx>, local: bool) returns (dirty: set<nat>)
    requires pool.Valid()
    modifies pool`book, pool`log, pool`locals, pool.priced
    ensures pool.Valid() && Batch(old(pool.Now()), pool.Now(), pool.config, txs, local, dirty)
  {
    hide AllSound;
    hide Pool.Tracks;
    hide Admits;
    hide Decided;
    ghost var s := pool.Now();
    dirty := {};
    var i := 0;
    assert txs[..0] == [];
    while i < |txs|
      invariant 0 <= i <= |txs| && pool.Valid() && Batch(s, pool.Now(), pool.config, txs[..i], local, dirty)
    {
      ghost var s1 := pool.Now();
      var replace, ok := Add(pool, txs[i], local);
      ghost var before := dirty;
      BatchNext(s, s1, pool.Now(), pool.config, txs, i, local, before, replace, ok);
      if ok && !replace { dirty := dirty + {txs[i].sender}; }
      assert dirty == before + Due(txs[i], replace, ok);
      i := i + 1;
    }
    assert txs[..|txs|] == txs;
  }

  /** addTx and addTxsLocked. */
  method AddTxs(pool: Pool, txs: seq<Tx>, local: bool)
    requires pool.Valid()
    modifies pool`book, pool`log, pool`locals, pool.priced
    ensures pool.Valid() && AddsTxs(old(pool.Now()), pool.Now(), pool.config, txs, local)
    ensures Follows(old(pool.book), pool.book, pool.chain, {}, {})
  {
    hide AllSound;
    hide Pool.Tracks;
    hide Follows;
    hide PromotesAll;
    hide Batch;
    ghost var s := pool.Now();
    var dirty := AddAll(pool, txs, local);
    ghost var mid := pool.Now();
    BatchFollows(s, mid, pool.config, txs, local, dirty);
    if dirty != {} {
      var accounts := ListOf(dirty);
      PromoteExecutables(pool, accounts);
      PromotesFollows(mid.book, pool.book, pool.chain, pool.locals, pool.config, dirty);
      FollowsDone(s.book, mid.book, pool.book, pool.chain, dirty);
    }
    assert ThenPromotes(mid, pool.Now(), pool.config, dirty);
  }

  lemma PromotesFollows(b: Book, b': Book, chain: Chain, locals: set<nat>, config: Config, accounts: set<nat>)
    requires PromotesAll(b, b', chain, locals, config, accounts)
    ensures Follows(b, b', chain, {}, accounts)
  {
  }

  /** A local transaction that replaces a pending one does not whitelist its sender. */
  lemma ReplacementStaysRemote(s': View, replace: bool, ok: bool)
    requires var (s, config, tx) := LocalReplacement(); Admits(s, s', config, tx, true, replace, ok)
    ensures ok && replace && LocalReplacement().2.sender !in s'.locals
  {
    var (s, config, tx) := LocalReplacement();
    var cheap := Tx(1, 0, 0, 1, 0, 0, true);
    assert s.book.all == {cheap} && tx !in s.book.all && |s.book.all| < config.Limit();
    hide Follows;
    assert !Refused(s, config, tx, true);
  }

  function LocalReplacement(): (View, Config, Tx) {
    var cheap, dear := Tx(1, 0, 0, 1, 0, 0, true), Tx(2, 0, 0, 2, 0, 0, true);
    var items: Items := map[0 := cheap];
    var b := Book(map[0 := items], map[], {cheap}, map[0 := 1]);
    var chain := Chain((a: nat) => 0, (a: nat) => 0, 0);
    (View(b, chain, {}, 0, Log({cheap}, true)), Config(0, 4, 4, 4, 4), dear)
  }

  // ----------------------------------------------------- price changes, evictions

  /** The remote transactions below the price. */
  ghost function Cheap(all: set<Tx>, locals: set<nat>, price: nat): set<Tx> {
    set tx | tx in all && Remote(tx, locals) && tx.price < price
  }

  /** SetGasPrice: the remote transactions below the new price go, and nothing else. */
  method SetGasPrice(pool: Pool, price: nat)
    requires pool.Valid()
    modifies pool`book, pool`log, pool`gasPrice, pool.priced
    ensures pool.Valid() && Follows(old(pool.book), pool.book, pool.chain, {}, {}) && pool.gasPrice == price
    ensures Without(old(pool.book), pool.book, pool.chain, Cheap(old(pool.book).all, pool.locals, price))
    ensures pool.log == old(pool.log)
  {
    hide AllSound;
    hide Follows;
    hide Without;
    pool.gasPrice := price;
    assert pool.book.all - {} == pool.book.all;
    ghost var all := pool.book.all;
    var drop := pool.priced.Cap(price, pool.book.all, pool.locals);
    assert Elements(drop) == Cheap(all, pool.locals, price);
    RemoveAll(pool, drop);
  }

  lemma FollowsShortened(b: Book, b1: Book, b2: Book, chain: Chain, a: nat, left: Items)
    requires Follows(b, b1, chain, {}, {}) && Shortened(b1, b2, chain, a, left)
    ensures Follows(b, b2, chain, {}, {})
  {
  }

  ghost predicate Evicted(b: Book, b': Book, locals: set<nat>, idle: set<nat>) {
    && b'.pending == b.pending && b'.vnonce == b.vnonce
    && forall a :: Of(b'.queue, a) == if a in idle && a !in locals then map[] else Of(b.queue, a)
  }

  /** The eviction loop: remote accounts that have been idle lose their queue. */
  method Evict(pool: Pool, idle: set<nat>)
    requires pool.Valid()
    modifies pool`book, pool`log, pool.priced
    ensures pool.Valid() && Follows(old(pool.book), pool.book, pool.chain, {}, {}) && pool.log == old(pool.log)
    ensures Evicted(old(pool.book), pool.book, pool.locals, idle)
  {
    hide AllSound;
    hide Pool.Tracks;
    hide Follows;
    hide Shortened;
    hide Only;
    ghost var b := pool.book;
    FollowsNone(b, pool.chain);
    var todo := pool.book.queue.Keys;
    while todo != {}
      invariant pool.Valid() && Follows(b, pool.book, pool.chain, {}, {}) && pool.log == old(pool.log)
      invariant pool.book.pending == b.pending && pool.book.vnonce == b.vnonce
      invariant forall a :: Of(pool.book.queue, a) == if a !in todo && a in idle && a !in pool.locals then map[]
        else Of(b.queue, a)
      decreases todo
    {
      var a :| a in todo;
      todo := todo - {a};
      if a in idle && a !in pool.locals {
        ghost var b1 := pool.book;
        ghost var list: Items := Of(b1.queue, a);
        RemoveMany(pool, a, Of(pool.book.queue, a).Keys);
        FollowsShortened(b, b1, pool.book, pool.chain, a, list - list.Keys);
        EvictedOne(b1, pool.book, pool.chain, a);
      }
    }
  }

  lemma EvictedOne(b: Book, b': Book, chain: Chain, a: nat)
    requires Shortened(b, b', chain, a, Of(b.queue, a) - Of(b.queue, a).Keys)
    ensures b'.pending == b.pending && b'.vnonce == b.vnonce
    ensures forall c :: Of(b'.queue, c) == if c == a then map[] else Of(b.queue, c)
  {
    assert Of(b.queue, a) - Of(b.queue, a).Keys == map[];
  }
}
