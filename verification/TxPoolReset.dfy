/**
 Following the chain head: demoteUnexecutables and reset, and exactly when a reset
 leaves the pending nonces in order.
 */
module TxPoolReset {
  import opened TxListSpec
  import opened TxPoolSpec
  import opened TxPool
  import opened TxPriced
  import opened TxPoolPromote
  import opened TxPoolFair
  import opened TxPoolQueue
  import opened TxPoolMend
  import opened TxPoolRun
  import opened TxPoolMerge

  // ------------------------------------------------------------------ demotion

  /** The transactions that go back to the queue. */
  function Postponed(chain: Chain, a: nat, list: Items): Items {
    Invalidated(From(list, chain.nonce(a)), chain.balance(a), chain.maxGas)
      + (Payable(chain, a, list) - Kept(chain, a, list).Keys)
  }

  function Unfit(chain: Chain, a: nat, list: Items): set<Tx> {
    Values(Below(list, chain.nonce(a))) + Values(Unpaid(From(list, chain.nonce(a)), chain.balance(a), chain.maxGas))
  }

  /** What demoteUnexecutables does for one account: old and unpayable transactions go, later ones are queued again. */
  ghost predicate Demoted(b: Book, b': Book, chain: Chain, a: nat) {
    var list := Of(b.pending, a);
    && b'.vnonce == b.vnonce && Only(b.pending, b'.pending, a) && Only(b.queue, b'.queue, a)
    && Of(b'.pending, a) == Kept(chain, a, list)
    && Of(b'.queue, a) == Of(b.queue, a) + Postponed(chain, a, list)
    && b'.all == b.all - Unfit(chain, a, list)
    && b'.pending.Keys == if Kept(chain, a, list) == map[] then b.pending.Keys - {a} else b.pending.Keys + {a}
  }

  /** Pending transactions of account a are dropped, or sent into limbo. */
  function Cutting(b: Book, a: nat, kept: Items, dropped: Items): Book {
    b.(pending := b.pending[a := kept], all := b.all - Values(dropped))
  }

  lemma CuttingSound(b: Book, a: nat, kept: Items, dropped: Items)
    requires b.Sound({}) && SubItems(kept, Of(b.pending, a)) && SubItems(dropped, Of(b.pending, a))
      && kept.Keys !! dropped.Keys
    ensures var limbo := Of(b.pending, a) - kept.Keys - dropped.Keys;
      Cutting(b, a, kept, dropped).Sound(Values(limbo)) && FiledFor(a, limbo)
    ensures Droppable(b, dropped)
  {
    var p, b' := Of(b.pending, a), Cutting(b, a, kept, dropped);
    var limbo := p - kept.Keys - dropped.Keys;
    assert SoundAt(a, p, Of(b.queue, a), b.all, {});
    TakePending(a, p, Of(b.queue, a), b.all, kept, dropped);
    SetIs(b.pending, a, kept);
    OwnValues(a, p - kept.Keys, dropped.Keys);
    forall t | t in Values(dropped) ensures t.sender == a { var k :| k in dropped && dropped[k] == t; }
    Localize(b.pending, b.queue, b.all, {}, b'.pending, b'.queue, b'.all, Values(limbo), a);
  }

  /** Forward: nothing is left in limbo. */
  lemma ForwardParts(list: Items, t: nat)
    ensures SubItems(From(list, t), list) && SubItems(Below(list, t), list) && From(list, t).Keys !! Below(list, t).Keys
    ensures list - From(list, t).Keys - Below(list, t).Keys == map[] && Values(map[]) == {}
  {
  }

  lemma RestIs(list: Items, kept: Items, gone: Items, rest: Items)
    requires SubItems(rest, list) && list.Keys == kept.Keys + gone.Keys + rest.Keys
    requires kept.Keys !! rest.Keys && gone.Keys !! rest.Keys
    ensures list - kept.Keys - gone.Keys == rest
  {
  }

  lemma FilterParts(list: Items, cost: nat, gas: nat)
    ensures SubItems(StrictKept(list, cost, gas), list) && SubItems(Unpaid(list, cost, gas), list)
    ensures StrictKept(list, cost, gas).Keys !! Unpaid(list, cost, gas).Keys
    ensures list - StrictKept(list, cost, gas).Keys - Unpaid(list, cost, gas).Keys == Invalidated(list, cost, gas)
  {
    FilterPartitions(list, cost, gas);
    var kept, gone, rest := StrictKept(list, cost, gas), Unpaid(list, cost, gas), Invalidated(list, cost, gas);
    assert SubItems(rest, list);
    hide StrictKept;
    hide Unpaid;
    hide Invalidated;
    RestIs(list, kept, gone, rest);
  }

  /** A pending list is cut down, and what goes is dropped or requeued. */
  method CutDown(pool: Pool, a: nat, kept: Items, dropped: Items)
    requires pool.Valid() && SubItems(kept, Of(pool.book.pending, a)) && SubItems(dropped, Of(pool.book.pending, a))
      && kept.Keys !! dropped.Keys
    modifies pool`book, pool`log, pool.priced
    ensures pool.Valid() && CutTo(old(pool.book), pool.book, a, kept, dropped) && pool.log == old(pool.log)
  {
    hide AllSound;
    hide Pool.Tracks;
    hide SubItems;
    ghost var b := pool.book;
    var list := Of(pool.book.pending, a);
    CuttingSound(b, a, kept, dropped);
    pool.book := pool.book.(pending := pool.book.pending[a := kept]);
    pool.DropAll(dropped);
    ghost var b1 := pool.book;
    assert b1 == Cutting(b, a, kept, dropped);
    pool.RequeueAll(a, list - kept.Keys - dropped.Keys, {});
    SetIs(b.pending, a, kept);
  }

  ghost predicate CutTo(b: Book, b': Book, a: nat, kept: Items, dropped: Items) {
    && b'.vnonce == b.vnonce && b'.pending == b.pending[a := kept] && Only(b.queue, b'.queue, a)
    && Of(b'.queue, a) == Of(b.queue, a) + (Of(b.pending, a) - kept.Keys - dropped.Keys)
    && b'.all == b.all - Values(dropped)
  }

  /** One iteration of the loop of demoteUnexecutables. */
  method DemoteAccount(pool: Pool, a: nat)
    requires pool.Valid() && a in pool.book.pending
    modifies pool`book, pool`log, pool.priced
    ensures pool.Valid() && Demoted(old(pool.book), pool.book, pool.chain, a) && pool.log == old(pool.log)
  {
    hide AllSound;
    hide Pool.Tracks;
    hide CutTo;
    hide CutShape;
    hide SubItems;
    hide Demoted;
    hide Values;
    hide From;
    hide Below;
    hide StrictKept;
    hide Unpaid;
    hide Invalidated;
    hide Only;
    ghost var b := pool.book;
    var nonce, cost, gas := pool.chain.nonce(a), pool.chain.balance(a), pool.chain.maxGas;
    var list := pool.book.pending[a];
    var young := From(list, nonce);
    ForwardParts(list, nonce);
    CutDown(pool, a, young, Below(list, nonce));
    ghost var b1 := pool.book;
    FirstCut(b, b1, a, young, Below(list, nonce));
    var kept := StrictKept(young, cost, gas);
    FilterParts(young, cost, gas);
    CutDown(pool, a, kept, Unpaid(young, cost, gas));
    ghost var b2, queued, gone := pool.book, Invalidated(young, cost, gas), Unfit(pool.chain, a, list);
    NextCut(b, b1, b2, a, young, map[], Values(Below(list, nonce)), kept, Unpaid(young, cost, gas));
    NothingMore(queued, gone);
    if kept != map[] && nonce !in kept {
      NothingLeft(kept);
      NextShape(b, b2, a, kept, queued, gone);
      CutDown(pool, a, map[], map[]);
      NextCut(b, b2, pool.book, a, kept, queued, gone, map[], map[]);
      queued := queued + kept;
      kept := map[];
    }
    ghost var b3 := pool.book;
    PostponedIs(pool.chain, a, list);
    if kept == map[] { pool.book := pool.book.(pending := pool.book.pending - {a}); }
    Finished(b, b3, pool.book, pool.chain, a, kept, queued, gone);
    SameLists(b3, pool.book);
  }

  lemma NothingMore(items: Items, gone: set<Tx>)
    ensures map[] + items == items && items - items.Keys == map[] && items + map[] == items
    ensures gone + {} == gone && Values(map[]) == {}
  {
  }

  lemma NothingLeft(list: Items)
    ensures SubItems(map[], list) && Values(map[]) == {}
    ensures var none: Items := map[]; list - none.Keys - none.Keys == list
  {
  }

  /** The book after some pending transactions went and others were queued again. */
  ghost predicate CutShape(b: Book, b': Book, a: nat, kept: Items, queued: Items, gone: set<Tx>) {
    && b'.vnonce == b.vnonce && b'.pending == b.pending[a := kept] && Only(b.queue, b'.queue, a)
    && Of(b'.queue, a) == Of(b.queue, a) + queued && b'.all == b.all - gone
  }

  lemma FirstCut(b: Book, b1: Book, a: nat, kept: Items, dropped: Items)
    requires CutTo(b, b1, a, kept, dropped)
    ensures CutShape(b, b1, a, kept, Of(b.pending, a) - kept.Keys - dropped.Keys, Values(dropped))
  {
  }

  lemma NextCut(b: Book, b1: Book, b2: Book, a: nat, young: Items, queued: Items, gone: set<Tx>, kept: Items,
                dropped: Items)
    requires CutShape(b, b1, a, young, queued, gone) && CutTo(b1, b2, a, kept, dropped)
    ensures CutShape(b, b2, a, kept, queued + (young - kept.Keys - dropped.Keys), gone + Values(dropped))
  {
    hide Values;
    var rest := young - kept.Keys - dropped.Keys;
    assert Of(b1.pending, a) == young;
    AddTwice(Of(b.queue, a), queued, rest, b.all, gone, Values(dropped));
  }

  lemma AddTwice(q: Items, queued: Items, rest: Items, all: set<Tx>, gone: set<Tx>, more: set<Tx>)
    ensures q + queued + rest == q + (queued + rest) && all - gone - more == all - (gone + more)
  {
  }

  lemma NextShape(b: Book, b2: Book, a: nat, kept: Items, queued: Items, gone: set<Tx>)
    requires CutShape(b, b2, a, kept, queued, gone)
    ensures Of(b2.pending, a) == kept
  {
  }

  /** The two cases of the check for a gap in front. */
  lemma PostponedIs(chain: Chain, a: nat, list: Items)
    ensures var kept := Payable(chain, a, list);
      var queued := Invalidated(From(list, chain.nonce(a)), chain.balance(a), chain.maxGas);
      if kept != map[] && chain.nonce(a) !in kept
        then Kept(chain, a, list) == map[] && Postponed(chain, a, list) == queued + kept
      else Kept(chain, a, list) == kept && Postponed(chain, a, list) == queued
  {
    hide Invalidated;
    hide Payable;
    hide From;
    var kept, queued := Payable(chain, a, list),
        Invalidated(From(list, chain.nonce(a)), chain.balance(a), chain.maxGas);
    assert kept - {} == kept && kept - kept.Keys == map[];
    NothingMore(queued, {});
  }

  lemma Finished(b: Book, b3: Book, b': Book, chain: Chain, a: nat, kept: Items, queued: Items, gone: set<Tx>)
    requires a in b.pending && CutShape(b, b3, a, kept, queued, gone)
    requires kept == Kept(chain, a, b.pending[a]) && queued == Postponed(chain, a, b.pending[a])
      && gone == Unfit(chain, a, b.pending[a])
    requires b' == if kept == map[] then b3.(pending := b3.pending - {a}) else b3
    ensures Demoted(b, b', chain, a) && forall c :: Of(b'.pending, c) == Of(b3.pending, c)
  {
    hide Kept;
    hide Postponed;
    hide Unfit;
  }

  /** demoteUnexecutables, as seen from every account. */
  ghost predicate AllDemoted(b: Book, b': Book, chain: Chain, todo: set<nat>) {
    && b'.vnonce == b.vnonce
    && (forall a :: DemotedAt(b, b', chain, a, todo))
    && (forall a :: a in b'.pending ==> a in todo || Of(b'.pending, a) != map[])
    && (forall tx :: tx in b'.all <==>
         tx in b.all && (tx.sender in todo || tx !in Unfit(chain, tx.sender, Of(b.pending, tx.sender))))
  }

  ghost predicate DemotedAt(b: Book, b': Book, chain: Chain, a: nat, todo: set<nat>) {
    var list := Of(b.pending, a);
    && Of(b'.pending, a) == (if a in todo then list else Kept(chain, a, list))
    && Of(b'.queue, a) == if a in todo then Of(b.queue, a) else Of(b.queue, a) + Postponed(chain, a, list)
  }

  lemma UnlistedKept(b: Book, chain: Chain)
    ensures AllDemoted(b, b, chain, b.pending.Keys)
  {
    forall a | a !in b.pending
      ensures Of(b.pending, a) == Kept(chain, a, map[]) && Of(b.queue, a) == Of(b.queue, a) + Postponed(chain, a, map[])
      ensures Unfit(chain, a, map[]) == {}
    {
      assert Postponed(chain, a, map[]) == map[];
      assert Of(b.queue, a) + map[] == Of(b.queue, a);
    }
  }

  lemma UnfitIsOwn(chain: Chain, a: nat, list: Items)
    requires FiledFor(a, list)
    ensures forall tx :: tx in Unfit(chain, a, list) ==> tx.sender == a
  {
  }

  lemma DemotedNext(b: Book, b1: Book, b2: Book, chain: Chain, todo: set<nat>, a: nat)
    requires b.Sound({}) && AllDemoted(b, b1, chain, todo) && a in todo && Demoted(b1, b2, chain, a)
    ensures AllDemoted(b, b2, chain, todo - {a})
  {
    hide Demoted;
    hide DemotedAt;
    hide Unfit;
    hide AllSound;
    DemotedLookup(b, b1, b2, chain, todo, a);
    DemotedNonempty(b1, b2, chain, todo, a);
    DemotedEach(b, b1, b2, chain, todo, a);
  }

  lemma DemotedEach(b: Book, b1: Book, b2: Book, chain: Chain, todo: set<nat>, a: nat)
    requires AllDemoted(b, b1, chain, todo) && a in todo && Demoted(b1, b2, chain, a)
    ensures forall c :: DemotedAt(b, b2, chain, c, todo - {a})
  {
    assert forall c :: DemotedAt(b, b1, chain, c, todo);
    hide AllDemoted;
    hide DemotedAt;
    hide Demoted;
    forall c ensures DemotedAt(b, b2, chain, c, todo - {a}) {
      DemotedAtNext(b, b1, b2, chain, todo, a, c);
    }
  }

  lemma DemotedNonempty(b1: Book, b2: Book, chain: Chain, todo: set<nat>, a: nat)
    requires Demoted(b1, b2, chain, a) && forall c :: c in b1.pending ==> c in todo || Of(b1.pending, c) != map[]
    ensures forall c :: c in b2.pending ==> c in todo - {a} || Of(b2.pending, c) != map[]
    ensures b2.vnonce == b1.vnonce
  {
    hide Kept;
    hide Postponed;
    hide Unfit;
    forall c | c in b2.pending && c !in todo - {a} ensures Of(b2.pending, c) != map[] {
      if c != a { assert c in b1.pending; }
    }
  }

  lemma DemotedAtNext(b: Book, b1: Book, b2: Book, chain: Chain, todo: set<nat>, a: nat, c: nat)
    requires a in todo && DemotedAt(b, b1, chain, a, todo) && DemotedAt(b, b1, chain, c, todo)
      && Demoted(b1, b2, chain, a)
    ensures DemotedAt(b, b2, chain, c, todo - {a})
  {
    hide Kept;
    hide Postponed;
    hide Unfit;
  }

  lemma DemotedLookup(b: Book, b1: Book, b2: Book, chain: Chain, todo: set<nat>, a: nat)
    requires b.Sound({}) && AllDemoted(b, b1, chain, todo) && a in todo && Demoted(b1, b2, chain, a)
    ensures forall tx :: tx in b2.all <==>
      tx in b.all && (tx.sender in todo - {a} || tx !in Unfit(chain, tx.sender, Of(b.pending, tx.sender)))
  {
    assert SoundAt(a, Of(b.pending, a), Of(b.queue, a), b.all, {});
    UnfitIsOwn(chain, a, Of(b.pending, a));
    hide AllSound;
    hide Kept;
    hide Postponed;
    hide Unfit;
    hide Only;
    assert DemotedAt(b, b1, chain, a, todo);
    assert Of(b1.pending, a) == Of(b.pending, a);
  }

  /** demoteUnexecutables. */
  method Demote(pool: Pool)
    requires pool.Valid()
    modifies pool`book, pool`log, pool.priced
    ensures pool.Valid() && AllDemoted(old(pool.book), pool.book, pool.chain, {}) && pool.log == old(pool.log)
  {
    hide AllSound;
    hide Pool.Tracks;
    hide Demoted;
    hide AllDemoted;
    ghost var b := pool.book;
    UnlistedKept(b, pool.chain);
    var todo := pool.book.pending.Keys;
    while todo != {}
      invariant pool.Valid() && todo <= pool.book.pending.Keys && pool.log == old(pool.log)
      invariant AllDemoted(b, pool.book, pool.chain, todo)
      decreases todo
    {
      var a :| a in todo;
      ghost var b1 := pool.book;
      DemoteAccount(pool, a);
      DemotedNext(b, b1, pool.book, pool.chain, todo, a);
      DemotedKeys(b1, pool.book, pool.chain, a);
      todo := todo - {a};
    }
  }

  lemma DemotedKeys(b: Book, b': Book, chain: Chain, a: nat)
    requires Demoted(b, b', chain, a)
    ensures b.pending.Keys - {a} <= b'.pending.Keys
  {
  }

  // --------------------------------------------------------------------- reset

  method LastNonce(m: Items) returns (last: nat)
    requires m.Keys != {}
    ensures IsLast(m, last)
  {
    last :| last in m.Keys;
    var todo := m.Keys;
    while todo != {}
      invariant last in m && todo <= m.Keys && forall n :: n in m && n !in todo ==> n <= last
      decreases todo
    {
      var n :| n in todo;
      if n > last { last := n; }
      todo := todo - {n};
    }
  }

  /** The virtual nonce of account a when every pending list has had its say. */
  ghost predicate RaisedAt(m: ListMap, a: nat, v: nat, v': nat) {
    if a in m then v' > 0 && IsLast(m[a], v' - 1) else v' == v
  }

  ghost predicate Raised(b: Book, b': Book, chain: Chain) {
    && b' == b.(vnonce := b'.vnonce)
    && forall a :: RaisedAt(b.pending, a, Virtual(chain, b.vnonce, a), Virtual(chain, b'.vnonce, a))
  }

  /** Set the virtual nonce of every pending account to the one after its last transaction. */
  method RaiseNonces(pool: Pool)
    requires pool.Valid() && forall a :: a in pool.book.pending ==> pool.book.pending[a] != map[]
    modifies pool`book
    ensures pool.Valid() && Raised(old(pool.book), pool.book, pool.chain)
  {
    hide AllSound;
    hide Pool.Tracks;
    ghost var b := pool.book;
    var m := pool.book.pending;
    var v := pool.book.vnonce;
    var todo := m.Keys;
    while todo != {}
      invariant todo <= m.Keys && pool.book == b && pool.Valid()
      invariant forall a :: a !in todo ==> RaisedAt(m, a, Virtual(pool.chain, b.vnonce, a), Virtual(pool.chain, v, a))
      decreases todo
    {
      var a :| a in todo;
      var last := LastNonce(m[a]);
      v := v[a := last + 1];
      todo := todo - {a};
    }
    hide RaisedAt;
    pool.book := pool.book.(vnonce := v);
    SameLists(b, pool.book);
  }

  /** Exactly the tidy lists are without gaps after demotion and the update of the virtual nonces. */
  lemma KeptGapless(chain: Chain, a: nat, list: Items, v: nat, v': nat)
    requires EndsAt(Kept(chain, a, list), v, v')
    ensures GaplessAt(Kept(chain, a, list), chain.nonce(a), v') <==> Tidy(chain, a, list, v)
  {
    var nonce, paid := chain.nonce(a), Payable(chain, a, list);
    forall n: nat ensures n in paid ==> n in list && n >= nonce { PayableIs(chain, a, list, n); }
    forall n: nat, k: nat | n in paid && nonce <= k < n && k in list ensures k in paid {
      PayableIs(chain, a, list, n);
      PayableIs(chain, a, list, k);
    }
    hide Payable;
    if nonce in paid {
      assert v' - 1 in paid && nonce <= v' - 1;
      if Tidy(chain, a, list, v) {
        forall n: nat ensures n in paid <==> nonce <= n < v' { }
      }
    } else {
      var none: Items := map[];
      assert nonce !in none && (v' > 0 ==> v' - 1 !in none);
    }
  }

  lemma ResetGapless(b: Book, d: Book, r: Book, chain: Chain)
    requires AllDemoted(b, d, chain, {}) && Raised(d, r, chain)
    ensures r.Gapless(chain, r.queue.Keys) <==>
      forall a :: Tidy(chain, a, Of(b.pending, a), Virtual(chain, b.vnonce, a))
  {
    forall a
      ensures GaplessAt(Of(r.pending, a), chain.nonce(a), Virtual(chain, r.vnonce, a)) <==>
        Tidy(chain, a, Of(b.pending, a), Virtual(chain, b.vnonce, a))
    {
      DemotedEnds(b, d, r, chain, a);
      KeptGapless(chain, a, Of(b.pending, a), Virtual(chain, b.vnonce, a), Virtual(chain, r.vnonce, a));
    }
    hide AllDemoted;
    hide Raised;
    hide GaplessAt;
    hide Tidy;
  }

  lemma DemotedEnds(b: Book, d: Book, r: Book, chain: Chain, a: nat)
    requires AllDemoted(b, d, chain, {}) && Raised(d, r, chain)
    ensures Of(r.pending, a) == Kept(chain, a, Of(b.pending, a))
    ensures Of(r.queue, a) == Of(b.queue, a) + Postponed(chain, a, Of(b.pending, a))
    ensures EndsAt(Of(r.pending, a), Virtual(chain, b.vnonce, a), Virtual(chain, r.vnonce, a))
    ensures r.all <= b.all
  {
    hide Kept;
    hide Postponed;
    assert DemotedAt(b, d, chain, a, {});
    assert RaisedAt(d.pending, a, Virtual(chain, d.vnonce, a), Virtual(chain, r.vnonce, a));
  }

  /** The first thing that reset does: the virtual nonces are forgotten, and the head has moved. */
  function Rebased(s: View, chain': Chain): View { s.(book := s.book.(vnonce := map[]), chain := chain') }

  /**
   reset: m is the pool after the discarded transactions were added, d after demotion, r with the new virtual
   nonces.
   */
  ghost predicate ResetBy(s: View, m: View, d: Book, r: Book, s': View, config: Config, chain': Chain, txs: seq<Tx>) {
    && AddsTxs(Rebased(s, chain'), m, config, txs, false)
    && AllDemoted(m.book, d, chain', {}) && d.Sound({}) && Raised(d, r, chain')
    && PromotesAll(r, s'.book, chain', m.locals, config, r.queue.Keys)
    && s' == m.(book := s'.book)
  }

  ghost predicate Resets(s: View, s': View, config: Config, chain': Chain, txs: seq<Tx>) {
    exists m: View, d: Book, r: Book :: ResetBy(s, m, d, r, s', config, chain', txs)
  }

  // ------------------------------------------------------------ the order holds

  /**
   No account that gets a discarded transaction back at its new state nonce is left with a gap before
   its old pending list.
   */
  ghost predicate NoGaps(s: View, config: Config, chain': Chain, txs: seq<Tx>) {
    var t := Rebased(s, chain');
    var b := Merged(t, config, txs);
    forall a :: a in MergedDue(t, config, txs) ==>
      !LeavesGap(chain', a, Of(b.pending, a), Of(b.queue, a), s.chain.nonce(a))
  }

  /** Pool and valid transactions together are within the pending limit. */
  ghost predicate Fits(s: View, config: Config, chain': Chain, txs: seq<Tx>) {
    |Crowd(Rebased(s, chain'), txs)| <= config.globalSlots
  }

  /** Remote lists have few transactions below the state nonces. */
  ghost predicate FewBelow(b: Book, chain: Chain, locals: set<nat>, slots: nat) {
    forall a :: a in locals || |Below(Of(b.pending, a), chain.nonce(a))| <= slots
  }

  /**
   Nothing comes back; or there is room, nobody is left with a gap, and remote lists have few transactions below
   the new nonces.
   */
  ghost predicate Orderly(s: View, config: Config, chain': Chain, txs: seq<Tx>) {
    txs == [] || (
      && |Crowd(Rebased(s, chain'), txs)| <= config.Limit() && NoGaps(s, config, chain', txs)
      && FewBelow(s.book, chain', s.locals, config.accountSlots))
  }

  /** Before the first promotion, every list is the old interval. */
  lemma MergedInterval(s: View, config: Config, chain': Chain, txs: seq<Tx>, a: nat)
    requires s.book.Sound({}) && s.book.Gapless(s.chain, {})
    ensures var b := Merged(Rebased(s, chain'), config, txs);
      && b.Sound({}) && b.vnonce == map[] && s.chain.nonce(a) <= Virtual(s.chain, s.book.vnonce, a)
      && Interval(Of(b.pending, a), s.chain.nonce(a), Virtual(s.chain, s.book.vnonce, a))
      && |Below(Of(b.pending, a), chain'.nonce(a))| == |Below(Of(s.book.pending, a), chain'.nonce(a))|
  {
    var t := Rebased(s, chain');
    SameLists(s.book, t.book);
    MergedShape(t, config, txs, a);
    assert GaplessAt(Of(s.book.pending, a), s.chain.nonce(a), Virtual(s.chain, s.book.vnonce, a));
    hide AllSound;
    hide AllGapless;
    var p, p' := Of(s.book.pending, a), Of(Merged(t, config, txs).pending, a);
    assert p.Keys == p'.Keys;
    assert Below(p, chain'.nonce(a)).Keys == Below(p', chain'.nonce(a)).Keys;
  }

  /** The first promotion leaves an account tidy exactly if it leaves no gap. */
  lemma PromotedTidyAt(b: Book, b1: Book, chain: Chain, locals: set<nat>, limit: nat, due: set<nat>, a: nat, x: nat,
                       y: nat)
    requires b.Sound({}) && b.vnonce == map[] && x <= y && Interval(Of(b.pending, a), x, y)
    requires AllPromoted(b, b1, chain, locals, limit, due)
    ensures TidyAt(b1, chain, a) <==> !(a in due && LeavesGap(chain, a, Of(b.pending, a), Of(b.queue, a), x))
    ensures Below(Of(b1.pending, a), chain.nonce(a)) == Below(Of(b.pending, a), chain.nonce(a))
  {
    var p, q := Of(b.pending, a), Of(b.queue, a);
    assert SoundAt(a, p, q, b.all, {});
    hide AllSound;
    hide Tidy;
    hide LeavesGap;
    if a in due {
      DueTidies(b, b1, chain, a, a in locals, limit, x, y);
    } else {
      assert SameAt(b, b1, chain, a);
      IntervalTidy(chain, a, p, x, y);
    }
  }

  lemma DueTidies(b: Book, b1: Book, chain: Chain, a: nat, local: bool, limit: nat, x: nat, y: nat)
    requires b.vnonce == map[] && x <= y && Interval(Of(b.pending, a), x, y)
      && Of(b.pending, a).Keys !! Of(b.queue, a).Keys
    requires TookReady(b, b1, chain, a, local, limit)
    ensures TidyAt(b1, chain, a) <==> !LeavesGap(chain, a, Of(b.pending, a), Of(b.queue, a), x)
    ensures Below(Of(b1.pending, a), chain.nonce(a)) == Below(Of(b.pending, a), chain.nonce(a))
  {
    hide ReadyTakes;
    hide Rest;
    hide Usable;
    hide Tidy;
    hide LeavesGap;
    var p, q, v' := Of(b.pending, a), Of(b.queue, a), Virtual(chain, b1.vnonce, a);
    var taken :| Took(b, b1, chain, a, local, limit, taken);
    assert Virtual(chain, b.vnonce, a) == chain.nonce(a);
    assert EndsAt(taken, chain.nonce(a), v');
    TakenAbove(chain, a, q, taken);
    PromotionTidies(chain, a, p, q, x, y, taken, v');
    hide Interval;
    assert Below(p + taken, chain.nonce(a)) == Below(p, chain.nonce(a));
  }

  lemma TakenAbove(chain: Chain, a: nat, queue: Items, taken: Items)
    requires ReadyTakes(Usable(chain, a, queue), chain.nonce(a), taken)
    ensures SubItems(taken, Usable(chain, a, queue)) && forall n :: n in taken ==> n >= chain.nonce(a)
  {
    UsableIs(chain, a, queue);
    hide Usable;
  }

  lemma PromotesTidy(b: Book, b': Book, chain: Chain, locals: set<nat>, config: Config, due: set<nat>)
    requires PromotesAll(b, b', chain, locals, config, due)
    requires forall b1 :: AllPromoted(b, b1, chain, locals, config.accountQueue, due) ==>
      AllTidy(b1, chain) && (|b.all| <= config.globalSlots || FewBelow(b1, chain, locals, config.accountSlots))
    ensures AllTidy(b', chain)
  {
    hide Follows;
    hide AllPromoted;
    hide Thinned;
    hide TidyAt;
    hide WaterLevel;
    hide AllSound;
    hide AllGapless;
    var b1: Book, b2: Book :| PromotesBy(b, b1, b2, b', chain, locals, config, due);
    if |b.all| <= config.globalSlots {
      NothingEvened(b, b1, b2, chain, locals, config, due);
    } else if Total(b1.pending) > config.globalSlots {
      var slots, limit := config.accountSlots, config.globalSlots;
      var level :| WaterLevel(b1.pending, b2.pending, Eligible(b1.pending, locals, slots), slots, limit, level);
      EvenedTidy(b1, b2, chain, locals, slots, limit, level);
      WaterAbove(b1.pending, b2.pending, Eligible(b1.pending, locals, slots), slots, limit, level);
    }
    SameTidy(b2, b', chain);
  }

  lemma WaterAbove(m: ListMap, m': ListMap, eligible: set<nat>, slots: nat, limit: nat, level: nat)
    requires WaterLevel(m, m', eligible, slots, limit, level)
    ensures slots <= level
  {
  }

  lemma SameTidy(b: Book, b': Book, chain: Chain)
    requires AllTidy(b, chain) && b'.pending == b.pending && b'.vnonce == b.vnonce
    ensures AllTidy(b', chain)
  {
    hide Tidy;
    forall a ensures TidyAt(b', chain, a) { assert TidyAt(b, chain, a); }
  }

  /** The discarded transactions are back, and every list is tidy. */
  lemma AddsTidy(s: View, m: View, config: Config, chain': Chain, txs: seq<Tx>)
    requires s.book.Sound({}) && s.book.Gapless(s.chain, {})
    requires Orderly(s, config, chain', txs) || (Fits(s, config, chain', txs) && NoGaps(s, config, chain', txs))
    requires AddsTxs(Rebased(s, chain'), m, config, txs, false)
    ensures AllTidy(m.book, chain')
  {
    hide AllSound;
    hide AllGapless;
    hide PromotesAll;
    hide TidyAt;
    hide LeavesGap;
    var t := Rebased(s, chain');
    var mid: View, dirty: set<nat> :| Batch(t, mid, config, txs, false, dirty) && ThenPromotes(mid, m, config, dirty);
    if txs != [] { BatchMerges(t, mid, config, txs, dirty, Crowd(t, txs)); }
    hide Batch;
    if dirty == {} {
      forall a ensures TidyAt(m.book, chain', a) { MergedTidyAt(s, config, chain', txs, a); }
    } else {
      SetGrows(mid.book.all, Crowd(t, txs));
      forall b1 | AllPromoted(mid.book, b1, chain', s.locals, config.accountQueue, dirty)
        ensures AllTidy(b1, chain')
        ensures |mid.book.all| <= config.globalSlots || FewBelow(b1, chain', s.locals, config.accountSlots)
      {
        forall a
          ensures TidyAt(b1, chain', a)
          ensures |Below(Of(b1.pending, a), chain'.nonce(a))| == |Below(Of(s.book.pending, a), chain'.nonce(a))|
        {
          MergedInterval(s, config, chain', txs, a);
          hide AllPromoted;
          PromotedTidyAt(mid.book, b1, chain', s.locals, config.accountQueue, dirty, a, s.chain.nonce(a),
            Virtual(s.chain, s.book.vnonce, a));
        }
      }
      PromotesTidy(mid.book, m.book, chain', s.locals, config, dirty);
    }
  }

  lemma MergedTidyAt(s: View, config: Config, chain': Chain, txs: seq<Tx>, a: nat)
    requires s.book.Sound({}) && s.book.Gapless(s.chain, {})
    ensures TidyAt(Merged(Rebased(s, chain'), config, txs), chain', a)
  {
    MergedInterval(s, config, chain', txs, a);
    hide Merged;
    hide Tidy;
    IntervalTidy(chain', a, Of(Merged(Rebased(s, chain'), config, txs).pending, a), s.chain.nonce(a),
      Virtual(s.chain, s.book.vnonce, a));
  }

  /** Tidy lists before demotion, and the pending nonces are in order at the end. */
  lemma TidyResets(s: View, m: View, d: Book, r: Book, s': View, config: Config, chain': Chain, txs: seq<Tx>)
    requires ResetBy(s, m, d, r, s', config, chain', txs) && AllTidy(m.book, chain')
    ensures s'.book.Gapless(chain', {})
  {
    hide AllSound;
    hide AllGapless;
    hide AddsTxs;
    hide AllDemoted;
    hide Raised;
    hide Tidy;
    forall a ensures Tidy(chain', a, Of(m.book.pending, a), Virtual(chain', m.book.vnonce, a)) {
      assert TidyAt(m.book, chain', a);
    }
    ResetGapless(m.book, d, r, chain');
    PromotesFollows(r, s'.book, chain', m.locals, config, r.queue.Keys);
    assert r.queue.Keys + {} - r.queue.Keys == {};
  }

  // ---------------------------------------------------------- the order breaks

  /** Nonce gap is neither pending nor queued, and there is a pending nonce on either side of it. */
  ghost predicate TornAt(b: Book, a: nat, low: nat, gap: nat, high: nat) {
    && low < gap < high && low in Of(b.pending, a) && high in Of(b.pending, a)
    && gap !in Of(b.pending, a) && gap !in Of(b.queue, a)
  }

  lemma TornPromoted(b: Book, b1: Book, chain: Chain, locals: set<nat>, limit: nat, due: set<nat>, a: nat, low: nat,
                     gap: nat, high: nat)
    requires AllPromoted(b, b1, chain, locals, limit, due) && TornAt(b, a, low, gap, high)
    ensures TornAt(b1, a, low, gap, high)
  {
    hide AllSound;
    if a in due {
      UsableIs(chain, a, Of(b.queue, a));
      hide Usable;
      var taken := TakenOnly(b, b1, chain, locals, limit, due, a);
      hide AllPromoted;
      hide ReadyTakes;
    } else {
      assert SameAt(b, b1, chain, a);
    }
  }

  lemma TakenIsUsable(q: Items, start: nat, taken: Items)
    requires ReadyTakes(q, start, taken)
    ensures SubItems(taken, q)
  {
  }

  /** A promotion in a pool within the pending limit does not cut anything. */
  lemma NothingEvened(b: Book, b1: Book, b2: Book, chain: Chain, locals: set<nat>, config: Config, due: set<nat>)
    requires AllPromoted(b, b1, chain, locals, config.accountQueue, due) && |b.all| <= config.globalSlots
    requires Evened(b1, b2, locals, config.accountSlots, config.globalSlots)
    ensures b2 == b1
  {
    PendingInPool(b1);
    SetGrows(b1.all, b.all);
  }

  lemma TornDrained(b: Book, b': Book, locals: set<nat>, limit: nat, a: nat, low: nat, gap: nat, high: nat)
    requires TornAt(b, a, low, gap, high) && Drained(b, b', locals, limit)
    ensures TornAt(b', a, low, gap, high)
  {
    hide Total;
    hide RemoteTotal;
    var last: nat :| CutOnce(b.queue, b'.queue, last, true);
    assert CutAt(Of(b.queue, a), Of(b'.queue, a), a == last);
  }

  lemma TornPromotes(b: Book, b': Book, chain: Chain, locals: set<nat>, config: Config, due: set<nat>, a: nat, low: nat,
                     gap: nat, high: nat)
    requires PromotesAll(b, b', chain, locals, config, due) && |b.all| <= config.globalSlots
      && TornAt(b, a, low, gap, high)
    ensures TornAt(b', a, low, gap, high)
  {
    hide Follows;
    hide AllPromoted;
    hide Thinned;
    hide Evened;
    hide Truncated;
    hide Drained;
    hide TornAt;
    var b1: Book, b2: Book :| PromotesBy(b, b1, b2, b', chain, locals, config, due);
    TornPromoted(b, b1, chain, locals, config.accountQueue, due, a, low, gap, high);
    NothingEvened(b, b1, b2, chain, locals, config, due);
    TornDrained(b2, b', locals, config.globalQueue, a, low, gap, high);
  }

  /** The first promotion tears the list, where it leaves a gap. */
  lemma GapTears(b: Book, b1: Book, chain: Chain, locals: set<nat>, limit: nat, due: set<nat>, a: nat, x: nat, y: nat)
    returns (gap: nat)
    requires b.Sound({}) && b.vnonce == map[] && x <= y && Interval(Of(b.pending, a), x, y) && a in due
    requires AllPromoted(b, b1, chain, locals, limit, due) && LeavesGap(chain, a, Of(b.pending, a), Of(b.queue, a), x)
    ensures TornAt(b1, a, chain.nonce(a), gap, x)
    ensures chain.nonce(a) in Payable(chain, a, Of(b1.pending, a)) && x in Payable(chain, a, Of(b1.pending, a))
  {
    var p, q, nonce := Of(b.pending, a), Of(b.queue, a), chain.nonce(a);
    assert p.Keys !! q.Keys by { assert SoundAt(a, p, q, b.all, {}); }
    hide AllSound;
    UsableIs(chain, a, q);
    assert nonce in Usable(chain, a, q);
    hide Usable;
    hide Payable;
    var taken := TakenOnly(b, b1, chain, locals, limit, due, a);
    hide AllPromoted;
    gap := RunAt(Usable(chain, a, q), nonce, taken);
    hide ReadyTakes;
    RunTidies(chain, a, p, q, x, y, taken, gap);
    hide LeavesGap;
    hide Interval;
    PayableIs(chain, a, p + taken, nonce);
    PayableIs(chain, a, p + taken, x);
  }

  /** What a promotion takes from and leaves in the queue was usable. */
  lemma TakenOnly(b: Book, b1: Book, chain: Chain, locals: set<nat>, limit: nat, due: set<nat>, a: nat)
    returns (taken: Items)
    requires AllPromoted(b, b1, chain, locals, limit, due) && a in due
    ensures ReadyTakes(Usable(chain, a, Of(b.queue, a)), Virtual(chain, b.vnonce, a), taken)
    ensures Of(b1.pending, a) == Of(b.pending, a) + taken && SubItems(taken, Usable(chain, a, Of(b.queue, a)))
    ensures SubItems(Of(b1.queue, a), Usable(chain, a, Of(b.queue, a)))
  {
    hide AllSound;
    hide Usable;
    hide ReadyTakes;
    assert TookReady(b, b1, chain, a, a in locals, limit);
    taken :| Took(b, b1, chain, a, a in locals, limit, taken);
    hide AllPromoted;
    TakenIsUsable(Usable(chain, a, Of(b.queue, a)), Virtual(chain, b.vnonce, a), taken);
  }

  /** Demotion and the new virtual nonces leave it torn. */
  lemma TornKept(b: Book, d: Book, r: Book, chain: Chain, a: nat, gap: nat, high: nat)
    requires AllDemoted(b, d, chain, {}) && Raised(d, r, chain) && TornAt(b, a, chain.nonce(a), gap, high)
    requires chain.nonce(a) in Payable(chain, a, Of(b.pending, a)) && high in Payable(chain, a, Of(b.pending, a))
    ensures TornAt(r, a, chain.nonce(a), gap, high)
  {
    var list := Of(b.pending, a);
    DemotedEnds(b, d, r, chain, a);
    PayableIs(chain, a, list, gap);
    PostponedIsPart(chain, a, list, gap);
    hide AllDemoted;
    hide Raised;
    hide Payable;
    hide Postponed;
  }

  lemma PostponedIsPart(chain: Chain, a: nat, list: Items, n: nat)
    ensures n in Postponed(chain, a, list) ==> n in list
  {
    PayableIs(chain, a, list, n);
  }

  lemma TornNotGapless(b: Book, chain: Chain, a: nat, gap: nat, high: nat)
    requires TornAt(b, a, chain.nonce(a), gap, high)
    ensures !b.Gapless(chain, {})
  {
    assert !GaplessAt(Of(b.pending, a), chain.nonce(a), Virtual(chain, b.vnonce, a));
  }

  /** Within the pending limit, an account that is left with a gap has one at the end. */
  lemma GapResets(s: View, m: View, d: Book, r: Book, s': View, config: Config, chain': Chain, txs: seq<Tx>)
    requires s.book.Sound({}) && s.book.Gapless(s.chain, {}) && Fits(s, config, chain', txs)
    requires ResetBy(s, m, d, r, s', config, chain', txs) && !NoGaps(s, config, chain', txs)
    ensures !s'.book.Gapless(chain', {})
  {
    hide AllSound;
    hide AllGapless;
    hide LeavesGap;
    hide PromotesAll;
    hide AllDemoted;
    hide Raised;
    hide TornAt;
    hide Payable;
    var t := Rebased(s, chain');
    var mid: View, dirty: set<nat> :| Batch(t, mid, config, txs, false, dirty) && ThenPromotes(mid, m, config, dirty);
    BatchMerges(t, mid, config, txs, dirty, Crowd(t, txs));
    hide Batch;
    var b := mid.book;
    var a :| a in dirty && LeavesGap(chain', a, Of(b.pending, a), Of(b.queue, a), s.chain.nonce(a));
    MergedInterval(s, config, chain', txs, a);
    SetGrows(b.all, Crowd(t, txs));
    var gap := GapPromotes(b, m.book, chain', s.locals, config, dirty, a, s.chain.nonce(a),
        Virtual(s.chain, s.book.vnonce, a));
    TornKept(m.book, d, r, chain', a, gap, s.chain.nonce(a));
    DemotedEnds(m.book, d, r, chain', a);
    SetGrows(r.all, m.book.all);
    SetGrows(m.book.all, b.all);
    TornPromotes(r, s'.book, chain', m.locals, config, r.queue.Keys, a, chain'.nonce(a), gap, s.chain.nonce(a));
    TornNotGapless(s'.book, chain', a, gap, s.chain.nonce(a));
  }

  lemma GapPromotes(b: Book, b': Book, chain: Chain, locals: set<nat>, config: Config, due: set<nat>, a: nat, x: nat,
                    y: nat) returns (gap: nat)
    requires b.Sound({}) && b.vnonce == map[] && x <= y && Interval(Of(b.pending, a), x, y) && a in due
    requires PromotesAll(b, b', chain, locals, config, due) && |b.all| <= config.globalSlots
    requires LeavesGap(chain, a, Of(b.pending, a), Of(b.queue, a), x)
    ensures TornAt(b', a, chain.nonce(a), gap, x) && b'.all <= b.all
    ensures chain.nonce(a) in Payable(chain, a, Of(b'.pending, a)) && x in Payable(chain, a, Of(b'.pending, a))
  {
    hide AllSound;
    hide LeavesGap;
    hide Follows;
    hide TornAt;
    hide Payable;
    hide Total;
    hide RemoteTotal;
    var b1: Book, b2: Book :| PromotesBy(b, b1, b2, b', chain, locals, config, due);
    gap := GapTears(b, b1, chain, locals, config.accountQueue, due, a, x, y);
    NothingEvened(b, b1, b2, chain, locals, config, due);
    TornDrained(b2, b', locals, config.globalQueue, a, chain.nonce(a), gap, x);
  }

  /** A virtual nonce that has fallen behind the state nonce stays there, whatever the limits. */
  lemma BehindStays(s: View, m: View, d: Book, r: Book, s': View, config: Config, chain': Chain, txs: seq<Tx>, a: nat)
    requires ResetBy(s, m, d, r, s', config, chain', txs)
    requires Virtual(chain', m.book.vnonce, a) < chain'.nonce(a)
      && From(Of(m.book.pending, a), chain'.nonce(a)) == map[]
    ensures Virtual(chain', s'.book.vnonce, a) < chain'.nonce(a) && !s'.book.Gapless(chain', {})
  {
    hide AllSound;
    hide AddsTxs;
    hide AllDemoted;
    hide Raised;
    hide PromotesAll;
    assert Kept(chain', a, Of(m.book.pending, a)) == map[];
    DemotedEnds(m.book, d, r, chain', a);
    hide Kept;
    NothingPromoted(r, s'.book, chain', m.locals, config, r.queue.Keys, a);
    BehindNotGapless(s'.book, chain', a);
  }

  lemma BehindNotGapless(b: Book, chain: Chain, a: nat)
    requires Virtual(chain, b.vnonce, a) < chain.nonce(a)
    ensures !b.Gapless(chain, {})
  {
    assert !GaplessAt(Of(b.pending, a), chain.nonce(a), Virtual(chain, b.vnonce, a));
  }

  lemma NothingPromoted(b: Book, b': Book, chain: Chain, locals: set<nat>, config: Config, due: set<nat>, a: nat)
    requires PromotesAll(b, b', chain, locals, config, due) && Of(b.pending, a) == map[]
    requires Virtual(chain, b.vnonce, a) < chain.nonce(a)
    ensures Virtual(chain, b'.vnonce, a) == Virtual(chain, b.vnonce, a)
  {
    hide AllSound;
    hide Follows;
    hide Evened;
    hide Truncated;
    hide Total;
    hide RemoteTotal;
    var b1: Book, b2: Book :| PromotesBy(b, b1, b2, b', chain, locals, config, due);
    if a in due {
      UsableIs(chain, a, Of(b.queue, a));
      hide Usable;
      var taken :| Took(b, b1, chain, a, a in locals, config.accountQueue, taken);
      assert taken == map[];
    } else {
      assert SameAt(b, b1, chain, a);
    }
    var none: Items := map[];
    assert Of(b.pending, a) + none == none;
    assert FewerAt(Of(b1.pending, a), Of(b2.pending, a), Virtual(chain, b1.vnonce, a), Virtual(chain, b2.vnonce, a));
  }

  // ------------------------------------------------------------------ the method

  /**
   Main result. A reset that is orderly leaves pending nonces in order. Within the pending limit they are
   in order if and only if no account is left with a gap.
   */
  lemma ResetInOrder(s: View, s': View, config: Config, chain': Chain, txs: seq<Tx>)
    requires s.book.Sound({}) && s.book.Gapless(s.chain, {}) && Resets(s, s', config, chain', txs)
    ensures Orderly(s, config, chain', txs) ==> s'.book.Gapless(chain', {})
    ensures Fits(s, config, chain', txs) ==> (s'.book.Gapless(chain', {}) <==> NoGaps(s, config, chain', txs))
  {
    hide AllSound;
    hide AllGapless;
    hide LeavesGap;
    var m: View, d: Book, r: Book :| ResetBy(s, m, d, r, s', config, chain', txs);
    hide AllDemoted;
    hide Raised;
    hide PromotesAll;
    if Orderly(s, config, chain', txs) {
      AddsTidy(s, m, config, chain', txs);
      TidyResets(s, m, d, r, s', config, chain', txs);
    }
    if Fits(s, config, chain', txs) {
      if NoGaps(s, config, chain', txs) {
        AddsTidy(s, m, config, chain', txs);
        TidyResets(s, m, d, r, s', config, chain', txs);
      } else {
        GapResets(s, m, d, r, s', config, chain', txs);
      }
    }
  }

  /** reset: from any state and to any head the pool stays sound; exactly when the nonces stay in order. */
  method Reset(pool: Pool, chain': Chain, reinject: seq<Tx>)
    requires pool.Valid()
    modifies pool`book, pool`log, pool`chain, pool`locals, pool.priced
    ensures pool.Valid() && Resets(old(pool.Now()), pool.Now(), pool.config, chain', reinject)
    ensures pool.chain == chain' && pool.locals == old(pool.locals)
    ensures old(pool.book.Gapless(pool.chain, {}) && Orderly(pool.Now(), pool.config, chain', reinject)) ==>
      pool.book.Gapless(chain', {})
    ensures old(pool.book.Gapless(pool.chain, {}) && Fits(pool.Now(), pool.config, chain', reinject)) ==>
      (pool.book.Gapless(chain', {}) <==> old(NoGaps(pool.Now(), pool.config, chain', reinject)))
  {
    hide AllSound;
    hide Pool.Tracks;
    hide AllGapless;
    hide Follows;
    hide AddsTxs;
    hide AllDemoted;
    hide Raised;
    hide RaisedAt;
    hide PromotesAll;
    hide Orderly;
    hide Fits;
    hide NoGaps;
    ghost var s := pool.Now();
    pool.chain := chain';
    SameLists(s.book, s.book.(vnonce := map[]));
    pool.book := pool.book.(vnonce := map[]);
    AddTxs(pool, reinject, false);
    ghost var m := pool.Now();
    AddsKeeps(Rebased(s, chain'), m, pool.config, reinject);
    Demote(pool);
    ghost var d := pool.book;
    DemotedLists(m.book, d, chain');
    RaiseNonces(pool);
    ghost var r := pool.book;
    RaisedQueue(d, r, chain');
    var accounts := ListOf(pool.book.queue.Keys);
    PromoteExecutables(pool, accounts);
    assert ResetBy(s, m, d, r, pool.Now(), pool.config, chain', reinject);
    if s.book.Gapless(s.chain, {}) { ResetInOrder(s, pool.Now(), pool.config, chain', reinject); }
  }

  lemma AddsKeeps(s: View, s': View, config: Config, txs: seq<Tx>)
    requires s.book.Sound({}) && AddsTxs(s, s', config, txs, false)
    ensures s'.chain == s.chain && s'.locals == s.locals && s'.gasPrice == s.gasPrice
  {
    hide AllSound;
    hide Follows;
    hide PromotesAll;
    hide Batch;
    var mid: View, dirty: set<nat> :| Batch(s, mid, config, txs, false, dirty) && ThenPromotes(mid, s', config, dirty);
    BatchFollows(s, mid, config, txs, false, dirty);
  }

  lemma RaisedQueue(d: Book, r: Book, chain: Chain)
    requires Raised(d, r, chain)
    ensures r.queue == d.queue
  {
  }

  lemma DemotedLists(b: Book, b': Book, chain: Chain)
    requires AllDemoted(b, b', chain, {})
    ensures forall a :: a in b'.pending ==> b'.pending[a] != map[]
  {
    assert forall a :: a in b'.pending ==> Of(b'.pending, a) == b'.pending[a];
  }
}
