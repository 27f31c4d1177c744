/**
 The state of the transaction pool as values, and what every operation of tx_pool.go
 keeps: the lookup table is the disjoint union of the pending and queued lists, and
 pending nonces form the interval from the state nonce to the virtual nonce.
 */
module TxPoolSpec {
  import opened TxListSpec
  import TxList

  /** pool.pending and pool.queue: the contents of the list of each account that has one. */
  type ListMap = map<nat, Items>

  function Of(m: ListMap, a: nat): Items { if a in m then m[a] else map[] }

  predicate Holds(items: Items, tx: Tx) { tx.nonce in items && items[tx.nonce] == tx }

  ghost predicate FiledFor(a: nat, items: Items) {
    forall n :: n in items ==> items[n].sender == a && items[n].nonce == n
  }

  /**
   One account is in order: its lists share no nonce, and the lookup table knows exactly what they
   hold. Transactions in limbo have left one list and not yet entered the other.
   */
  ghost predicate SoundAt(a: nat, pending: Items, queue: Items, all: set<Tx>, limbo: set<Tx>) {
    && FiledFor(a, pending) && FiledFor(a, queue)
    && pending.Keys !! queue.Keys
    && (forall tx: Tx :: tx.sender == a ==> (tx in all <==> Holds(pending, tx) || Holds(queue, tx) || tx in limbo))
    && (forall tx :: tx in limbo && tx.sender == a ==> tx.nonce !in pending && tx.nonce !in queue)
    && (forall tx, t :: tx in limbo && t in limbo && tx.sender == t.sender == a && tx.nonce == t.nonce ==> tx == t)
  }

  ghost predicate AllSound(pending: ListMap, queue: ListMap, all: set<Tx>, limbo: set<Tx>) {
    forall a :: SoundAt(a, Of(pending, a), Of(queue, a), all, limbo)
  }

  /** Only the list of account a differs. */
  ghost predicate Only(m: ListMap, m': ListMap, a: nat) { forall b :: b != a ==> Of(m', b) == Of(m, b) }

  ghost predicate SameOthers(s: set<Tx>, s': set<Tx>, a: nat) {
    forall tx: Tx :: tx.sender != a ==> (tx in s <==> tx in s')
  }

  /** Soundness is a matter of one account at a time. */
  lemma Localize(p: ListMap, q: ListMap, all: set<Tx>, limbo: set<Tx>, p': ListMap, q': ListMap, all': set<Tx>,
                 limbo': set<Tx>, a: nat)
    requires AllSound(p, q, all, limbo)
    requires Only(p, p', a) && Only(q, q', a) && SameOthers(all, all', a) && SameOthers(limbo, limbo', a)
    requires SoundAt(a, Of(p', a), Of(q', a), all', limbo')
    ensures AllSound(p', q', all', limbo')
  {
    forall b ensures SoundAt(b, Of(p', b), Of(q', b), all', limbo') {
      if b != a { assert SoundAt(b, Of(p, b), Of(q, b), all, limbo); }
    }
  }

  /** The lookup table is the disjoint union of the two lists. */
  lemma SoundMeans(p: ListMap, q: ListMap, all: set<Tx>)
    requires AllSound(p, q, all, {})
    ensures forall tx :: tx in all <==> Holds(Of(p, tx.sender), tx) || Holds(Of(q, tx.sender), tx)
    ensures forall a, n :: !(n in Of(p, a) && n in Of(q, a))
  {
    forall tx ensures tx in all <==> Holds(Of(p, tx.sender), tx) || Holds(Of(q, tx.sender), tx) {
      assert SoundAt(tx.sender, Of(p, tx.sender), Of(q, tx.sender), all, {});
    }
    forall a, n ensures !(n in Of(p, a) && n in Of(q, a)) { assert SoundAt(a, Of(p, a), Of(q, a), all, {}); }
  }

  function Values(items: Items): set<Tx> { set n | n in items :: items[n] }

  // --------------------------------------------------------- virtual nonces

  /** The chain state the pool works against. */
  datatype Chain = Chain(nonce: nat -> nat, balance: nat -> nat, maxGas: nat)

  /** pendingState: a nonce map that falls back on the state nonce. */
  function Virtual(chain: Chain, vnonce: map<nat, nat>, a: nat): nat {
    if a in vnonce then vnonce[a] else chain.nonce(a)
  }

  /** Pending nonces are exactly those from the state nonce up to the virtual nonce. */
  ghost predicate GaplessAt(pending: Items, nonce: nat, virtual: nat) {
    nonce <= virtual && Interval(pending, nonce, virtual)
  }

  /** ... for every account; and unless it still waits for a promotion, nothing is queued at its virtual nonce. */
  ghost predicate AllGapless(pending: ListMap, queue: ListMap, chain: Chain, vnonce: map<nat, nat>, dirty: set<nat>) {
    forall a ::
      && GaplessAt(Of(pending, a), chain.nonce(a), Virtual(chain, vnonce, a))
      && (a !in dirty ==> Virtual(chain, vnonce, a) !in Of(queue, a))
  }

  lemma LocalizeGapless(p: ListMap, q: ListMap, chain: Chain, v: map<nat, nat>, dirty: set<nat>, p': ListMap,
                        q': ListMap, v': map<nat, nat>, a: nat)
    requires AllGapless(p, q, chain, v, dirty)
    requires Only(p, p', a) && Only(q, q', a) && forall b :: b != a ==> Virtual(chain, v', b) == Virtual(chain, v, b)
    requires GaplessAt(Of(p', a), chain.nonce(a), Virtual(chain, v', a))
    requires a !in dirty ==> Virtual(chain, v', a) !in Of(q', a)
    ensures AllGapless(p', q', chain, v', dirty)
  {
  }

  // ------------------------------------------------------- local transitions

  /** removeTx on a pending transaction: it goes, and what comes after it awaits requeueing. */
  lemma RemovePending(a: nat, p: Items, q: Items, all: set<Tx>, tx: Tx)
    requires SoundAt(a, p, q, all, {}) && tx.sender == a && tx in all && tx.nonce in p
    ensures p[tx.nonce] == tx
    ensures SoundAt(a, Below(p, tx.nonce), q, all - {tx}, Values(From(p, tx.nonce + 1)))
  {
    var limbo := Values(From(p, tx.nonce + 1));
    assert Holds(p, p[tx.nonce]);
    forall t | t in limbo ensures exists n :: n in p && n > tx.nonce && t == p[n] { }
    forall t: Tx | t.sender == a
      ensures t in all - {tx} <==> Holds(Below(p, tx.nonce), t) || Holds(q, t) || t in limbo
    {
      if Holds(p, t) && t.nonce > tx.nonce { assert t.nonce in From(p, tx.nonce + 1); }
    }
  }

  lemma RemoveQueued(a: nat, p: Items, q: Items, all: set<Tx>, tx: Tx)
    requires SoundAt(a, p, q, all, {}) && tx.sender == a && tx in all && tx.nonce !in p
    ensures Holds(q, tx) && SoundAt(a, p, q - {tx.nonce}, all - {tx}, {})
  {
  }

  /** Taking any part of the queue out into limbo, or dropping it. */
  lemma TakeQueued(a: nat, p: Items, q: Items, all: set<Tx>, kept: Items)
    requires SoundAt(a, p, q, all, {}) && forall n :: n in kept ==> n in q && kept[n] == q[n]
    ensures var gone := Values(q - kept.Keys);
      SoundAt(a, p, kept, all, gone) && SoundAt(a, p, kept, all - gone, {}) && gone <= all
  {
    var gone := Values(q - kept.Keys);
    forall t: Tx | t.sender == a ensures t in gone <==> Holds(q, t) && t.nonce !in kept {
      if Holds(q, t) && t.nonce !in kept { assert t.nonce in q - kept.Keys; }
    }
    assert gone <= all by { forall t | t in gone ensures t in all { assert Holds(q, t); } }
  }

  /** The same for the pending list. */
  lemma TakePending(a: nat, p: Items, q: Items, all: set<Tx>, kept: Items, dropped: Items)
    requires SoundAt(a, p, q, all, {})
    requires forall n :: n in kept ==> n in p && kept[n] == p[n]
    requires forall n :: n in dropped ==> n in p && dropped[n] == p[n] && n !in kept
    ensures SoundAt(a, kept, q, all - Values(dropped), Values(p - kept.Keys - dropped.Keys))
    ensures Values(dropped) <= all
  {
    var gone, limbo := Values(dropped), Values(p - kept.Keys - dropped.Keys);
    forall t: Tx | t.sender == a
      ensures t in gone <==> Holds(p, t) && t.nonce in dropped
      ensures t in limbo <==> Holds(p, t) && t.nonce !in kept && t.nonce !in dropped
    {
      if Holds(p, t) && t.nonce in dropped { assert dropped[t.nonce] == t; }
      if Holds(p, t) && t.nonce !in kept && t.nonce !in dropped { assert t.nonce in p - kept.Keys - dropped.Keys; }
    }
    assert gone <= all by { forall t | t in gone ensures t in all { assert Holds(p, t); } }
  }

  /** A transaction in limbo finds its nonce free and enters the queue. */
  lemma LimboToQueue(a: nat, p: Items, q: Items, all: set<Tx>, limbo: set<Tx>, tx: Tx)
    requires SoundAt(a, p, q, all, limbo) && tx in limbo && tx.sender == a
    ensures tx.nonce !in q && tx in all && SoundAt(a, p, q[tx.nonce := tx], all, limbo - {tx})
  {
  }

  lemma LimboToPending(a: nat, p: Items, q: Items, all: set<Tx>, limbo: set<Tx>, tx: Tx)
    requires SoundAt(a, p, q, all, limbo) && tx in limbo && tx.sender == a
    ensures tx.nonce !in p && tx in all && SoundAt(a, p[tx.nonce := tx], q, all, limbo - {tx})
  {
  }

  /** A new transaction enters a list, replacing one with its nonce if there is one. */
  lemma EnterQueue(a: nat, p: Items, q: Items, all: set<Tx>, tx: Tx)
    requires SoundAt(a, p, q, all, {}) && tx.sender == a && tx !in all && tx.nonce !in p
    ensures var old' := if tx.nonce in q then {q[tx.nonce]} else {};
      old' <= all && SoundAt(a, p, q[tx.nonce := tx], all - old' + {tx}, {})
  {
    if tx.nonce in q { assert Holds(q, q[tx.nonce]); }
  }

  lemma EnterPending(a: nat, p: Items, q: Items, all: set<Tx>, tx: Tx)
    requires SoundAt(a, p, q, all, {}) && tx.sender == a && tx !in all && tx.nonce in p
    ensures p[tx.nonce] in all && SoundAt(a, p[tx.nonce := tx], q, all - {p[tx.nonce]} + {tx}, {})
  {
    assert Holds(p, p[tx.nonce]);
  }

  // ---------------------------------------------------------------- the book

  /** pool.pending, pool.queue, pool.all and the virtual nonces of pool.pendingState. */
  datatype Book = Book(pending: ListMap, queue: ListMap, all: set<Tx>, vnonce: map<nat, nat>) {
    ghost predicate Sound(limbo: set<Tx>) { AllSound(pending, queue, all, limbo) }

    ghost predicate Gapless(chain: Chain, dirty: set<nat>) { AllGapless(pending, queue, chain, vnonce, dirty) }
  }

  /** The transaction of account a that tx would replace. */
  ghost function Replaced(m: ListMap, a: nat, tx: Tx): set<Tx> {
    if tx.nonce in Of(m, a) then {Of(m, a)[tx.nonce]} else {}
  }

  /** The price rule of txList.Add. */
  ghost predicate Accepts(m: ListMap, a: nat, tx: Tx, priceBump: nat) {
    tx.nonce in Of(m, a) ==> TxList.Outbids(Of(m, a)[tx.nonce], tx, priceBump)
  }

  function Put(m: ListMap, a: nat, tx: Tx): ListMap { m[a := Of(m, a)[tx.nonce := tx]] }

  /** A list that has become empty is deleted. */
  function SetOrDelete(m: ListMap, a: nat, items: Items): ListMap {
    if items == map[] then m - {a} else m[a := items]
  }

  lemma PutIs(m: ListMap, a: nat, tx: Tx)
    ensures Of(Put(m, a, tx), a) == Of(m, a)[tx.nonce := tx] && Only(m, Put(m, a, tx), a)
  {
  }

  lemma SetIs(m: ListMap, a: nat, items: Items)
    ensures Of(SetOrDelete(m, a, items), a) == items && Only(m, SetOrDelete(m, a, items), a)
    ensures Of(m[a := items], a) == items && Only(m, m[a := items], a)
  {
  }

  /** enqueueTx, when the transaction is accepted. */
  ghost function Enqueued(b: Book, tx: Tx): Book {
    b.(queue := Put(b.queue, tx.sender, tx), all := b.all - Replaced(b.queue, tx.sender, tx) + {tx})
  }

  /** promoteTx, when the transaction is accepted. */
  ghost function Promoted(b: Book, a: nat, tx: Tx): Book {
    b.(pending := Put(b.pending, a, tx), all := b.all - Replaced(b.pending, a, tx) + {tx},
      vnonce := b.vnonce[a := tx.nonce + 1])
  }

  /** Requeueing from limbo meets no other transaction with the nonce, so it cannot fail. */
  lemma RequeueOne(b: Book, limbo: set<Tx>, tx: Tx)
    requires b.Sound(limbo) && tx in limbo
    ensures tx.nonce !in Of(b.queue, tx.sender) && tx in b.all
    ensures Enqueued(b, tx).Sound(limbo - {tx}) && Enqueued(b, tx).all == b.all
  {
    var a, b' := tx.sender, Enqueued(b, tx);
    assert SoundAt(a, Of(b.pending, a), Of(b.queue, a), b.all, limbo);
    LimboToQueue(a, Of(b.pending, a), Of(b.queue, a), b.all, limbo, tx);
    PutIs(b.queue, a, tx);
    assert b'.all == b.all;
    Localize(b.pending, b.queue, b.all, limbo, b'.pending, b'.queue, b'.all, limbo - {tx}, a);
  }

  /** Nor does a promotion. */
  lemma PromoteOne(b: Book, limbo: set<Tx>, tx: Tx)
    requires b.Sound(limbo) && tx in limbo
    ensures tx.nonce !in Of(b.pending, tx.sender) && tx in b.all
    ensures Promoted(b, tx.sender, tx).Sound(limbo - {tx}) && Promoted(b, tx.sender, tx).all == b.all
  {
    var a, b' := tx.sender, Promoted(b, tx.sender, tx);
    assert SoundAt(a, Of(b.pending, a), Of(b.queue, a), b.all, limbo);
    LimboToPending(a, Of(b.pending, a), Of(b.queue, a), b.all, limbo, tx);
    PutIs(b.pending, a, tx);
    assert b'.all == b.all;
    Localize(b.pending, b.queue, b.all, limbo, b'.pending, b'.queue, b'.all, limbo - {tx}, a);
  }

  /** Items of account a, requeued one after the other. */
  ghost predicate Requeued(b: Book, b': Book, a: nat, items: Items) {
    && b'.pending == b.pending && b'.all == b.all && b'.vnonce == b.vnonce
    && Only(b.queue, b'.queue, a) && Of(b'.queue, a) == Of(b.queue, a) + items
  }

  lemma RequeueShape(b: Book, b': Book, a: nat, done: Items, tx: Tx)
    requires Requeued(b, b', a, done) && tx.sender == a && tx in b'.all && tx.nonce !in Of(b'.queue, a)
    ensures Requeued(b, Enqueued(b', tx), a, done[tx.nonce := tx])
  {
    PutIs(b'.queue, a, tx);
    assert Of(b.queue, a) + done[tx.nonce := tx] == (Of(b.queue, a) + done)[tx.nonce := tx];
  }

  function Part(items: Items, keys: set<nat>): Items { map n | n in items && n in keys :: items[n] }

  lemma PartAll(items: Items)
    ensures Part(items, items.Keys) == items && Values(Part(items, {})) == {} && items.Keys - {} == items.Keys
  {
  }

  lemma PartNext(items: Items, todo: set<nat>, n: nat)
    requires n in todo && todo <= items.Keys
    ensures Part(items, items.Keys - (todo - {n})) == Part(items, items.Keys - todo)[n := items[n]]
    ensures Part(items, todo - {n}) == Part(items, todo) - {n}
    ensures Values(Part(items, items.Keys - (todo - {n}))) == Values(Part(items, items.Keys - todo)) + {items[n]}
  {
    var done, more := Part(items, items.Keys - todo), Part(items, items.Keys - (todo - {n}));
    assert more == done[n := items[n]];
    forall t | t in Values(done) ensures t in Values(more) {
      var k :| k in done && done[k] == t;
      assert more[k] == t;
    }
    assert more[n] == items[n];
  }

  lemma PartOther(items: Items, keys: set<nat>, n: nat)
    requires Filed(items) && n in items && n !in keys
    ensures items[n] !in Values(Part(items, keys))
  {
  }

  lemma RequeueStart(b: Book, a: nat, items: Items)
    ensures Part(items, items.Keys) == items && Requeued(b, b, a, Part(items, items.Keys - items.Keys))
  {
    assert Of(b.queue, a) + map[] == Of(b.queue, a);
  }

  lemma RequeueNext(b: Book, b': Book, a: nat, items: Items, todo: set<nat>, n: nat)
    requires n in todo && todo <= items.Keys && FiledFor(a, items)
    requires b'.Sound(Values(Part(items, todo))) && Requeued(b, b', a, Part(items, items.Keys - todo))
    ensures var tx := items[n];
      && tx.sender == a && tx.nonce == n && tx in b'.all && n !in Of(b'.queue, a)
      && Enqueued(b', tx).Sound(Values(Part(items, todo - {n})))
      && Requeued(b, Enqueued(b', tx), a, Part(items, items.Keys - (todo - {n})))
  {
    var tx, part := items[n], Part(items, todo);
    assert part[n] == tx;
    assert tx in Values(part);
    RequeueOne(b', Values(part), tx);
    ValuesMinus(a, part, n);
    PartNext(items, todo, n);
    RequeueShape(b, b', a, Part(items, items.Keys - todo), tx);
  }

  lemma ValuesMinus(a: nat, m: Items, n: nat)
    requires n in m && FiledFor(a, m)
    ensures Values(m - {n}) == Values(m) - {m[n]}
  {
    forall t | t in Values(m) && t != m[n] ensures t in Values(m - {n}) {
      var k :| k in m && m[k] == t;
      assert (m - {n})[k] == t;
    }
    forall t | t in Values(m - {n}) ensures t in Values(m) && t != m[n] {
      var k :| k in m - {n} && (m - {n})[k] == t;
      assert m[k] == t;
    }
  }

  // ------------------------------------------------------------------ removal

  /** Nonce n and those below it stay pending when some transactions go. */
  ghost predicate Leads(p: Items, gone: set<Tx>, n: nat) { n in p && forall k :: k in p && k <= n ==> p[k] !in gone }

  ghost function Leading(p: Items, gone: set<Tx>): Items { map n | n in p && Leads(p, gone, n) :: p[n] }

  /** The pending transactions that go to the queue then. */
  ghost function Loose(p: Items, gone: set<Tx>): Items { map n | n in p && !Leads(p, gone, n) && p[n] !in gone :: p[n] }

  ghost function Trailing(p: Items, q: Items, gone: set<Tx>): Items { Left(q, gone) + Loose(p, gone) }

  ghost function Left(q: Items, gone: set<Tx>): Items { map n | n in q && q[n] !in gone :: q[n] }

  /** The virtual nonce falls to the lowest of some nonces, unless it is not above it. */
  ghost predicate FallsTo(v: nat, v': nat, nonces: set<nat>) {
    v' <= v && (forall n :: n in nonces ==> v' <= n) && (v' == v || v' in nonces)
  }

  ghost function Taken(p: Items, gone: set<Tx>): set<nat> { set n | n in p && p[n] in gone }

  ghost predicate WithoutAt(p: Items, q: Items, v: nat, p': Items, q': Items, v': nat, gone: set<Tx>) {
    p' == Leading(p, gone) && q' == Trailing(p, q, gone) && FallsTo(v, v', Taken(p, gone))
  }

  /** removeTx for every transaction in gone, in any order: what every account is left with. */
  ghost predicate Without(b: Book, b': Book, chain: Chain, gone: set<Tx>) {
    && b'.all == b.all - gone
    && forall a :: WithoutAt(Of(b.pending, a), Of(b.queue, a), Virtual(chain, b.vnonce, a),
                             Of(b'.pending, a), Of(b'.queue, a), Virtual(chain, b'.vnonce, a), gone)
  }

  lemma WithoutNone(p: Items, q: Items, v: nat, gone: set<Tx>)
    requires p.Keys !! q.Keys && forall n :: (n in p ==> p[n] !in gone) && (n in q ==> q[n] !in gone)
    ensures WithoutAt(p, q, v, p, q, v, gone)
  {
    assert forall n :: n in p ==> Leads(p, gone, n);
    hide Leads;
    assert Leading(p, gone) == p && Loose(p, gone) == map[];
    assert Left(q, gone) + map[] == q;
  }

  lemma WithoutTwice(p: Items, q: Items, v: nat, p1: Items, q1: Items, v1: nat, p2: Items, q2: Items, v2: nat,
                     g: set<Tx>, h: set<Tx>)
    requires p.Keys !! q.Keys && WithoutAt(p, q, v, p1, q1, v1, g) && WithoutAt(p1, q1, v1, p2, q2, v2, h)
    ensures WithoutAt(p, q, v, p2, q2, v2, g + h)
  {
    LeadingTwice(p, g, h);
    TrailingTwice(p, q, g, h);
    hide Leading;
    hide Trailing;
    FallsTwice(p, g, h, v, v1, v2);
  }

  lemma FallsTwice(p: Items, g: set<Tx>, h: set<Tx>, v: nat, v1: nat, v2: nat)
    requires FallsTo(v, v1, Taken(p, g)) && FallsTo(v1, v2, Taken(Leading(p, g), h))
    ensures FallsTo(v, v2, Taken(p, g + h))
  {
    forall n | n in Taken(p, g + h) ensures v2 <= n {
      if Leads(p, g, n) {
        assert n in Taken(Leading(p, g), h);
      } else {
        var k :| k in p && k <= n && p[k] in g;
        assert k in Taken(p, g);
      }
    }
  }

  lemma LeadsTwice(p: Items, g: set<Tx>, h: set<Tx>, n: nat)
    ensures Leads(Leading(p, g), h, n) <==> Leads(p, g + h, n)
  {
    if Leads(Leading(p, g), h, n) {
      forall k | k in p && k <= n ensures p[k] !in g + h {
        assert Leads(p, g, k);
        assert k in Leading(p, g);
      }
    }
    if Leads(p, g + h, n) { assert Leads(p, g, n); }
  }

  lemma LeadingTwice(p: Items, g: set<Tx>, h: set<Tx>)
    ensures Leading(Leading(p, g), h) == Leading(p, g + h)
  {
    forall n ensures n in Leading(Leading(p, g), h) <==> n in Leading(p, g + h) { LeadsTwice(p, g, h, n); }
  }

  lemma TrailingTwice(p: Items, q: Items, g: set<Tx>, h: set<Tx>)
    requires p.Keys !! q.Keys
    ensures Trailing(Leading(p, g), Trailing(p, q, g), h) == Trailing(p, q, g + h)
  {
    LooseTwice(p, g, h);
    assert Left(q, g).Keys !! Loose(p, g).Keys;
    LeftSum(Left(q, g), Loose(p, g), h);
    LeftTwice(q, g, h);
    hide Left;
    hide Loose;
    hide Leading;
    SumMoves(Left(q, g + h), Left(Loose(p, g), h), Loose(Leading(p, g), h));
  }

  lemma LeftTwice(q: Items, g: set<Tx>, h: set<Tx>)
    ensures Left(Left(q, g), h) == Left(q, g + h)
  {
  }

  lemma LeftSum(a: Items, b: Items, h: set<Tx>)
    requires a.Keys !! b.Keys
    ensures Left(a + b, h) == Left(a, h) + Left(b, h)
  {
  }

  lemma SumMoves(a: Items, b: Items, c: Items)
    ensures a + b + c == a + (b + c)
  {
  }

  /** What became loose the first time and is still there, and what becomes loose the second time. */
  lemma LooseTwice(p: Items, g: set<Tx>, h: set<Tx>)
    ensures Left(Loose(p, g), h) + Loose(Leading(p, g), h) == Loose(p, g + h)
  {
    forall n ensures n in Left(Loose(p, g), h) || n in Loose(Leading(p, g), h) <==> n in Loose(p, g + h) {
      LeadsTwice(p, g, h, n);
      if Leads(p, g + h, n) { assert Leads(p, g, n); }
      hide Leads;
    }
    hide Leads;
  }

  lemma WithoutBoth(b: Book, b1: Book, b2: Book, chain: Chain, g: set<Tx>, h: set<Tx>)
    requires b.Sound({}) && Without(b, b1, chain, g) && Without(b1, b2, chain, h)
    ensures Without(b, b2, chain, g + h)
  {
    forall a
      ensures WithoutAt(Of(b.pending, a), Of(b.queue, a), Virtual(chain, b.vnonce, a),
                        Of(b2.pending, a), Of(b2.queue, a), Virtual(chain, b2.vnonce, a), g + h)
    {
      assert SoundAt(a, Of(b.pending, a), Of(b.queue, a), b.all, {});
      assert WithoutAt(Of(b.pending, a), Of(b.queue, a), Virtual(chain, b.vnonce, a),
                       Of(b1.pending, a), Of(b1.queue, a), Virtual(chain, b1.vnonce, a), g);
      hide AllSound;
      hide WithoutAt;
      WithoutTwice(Of(b.pending, a), Of(b.queue, a), Virtual(chain, b.vnonce, a),
                   Of(b1.pending, a), Of(b1.queue, a), Virtual(chain, b1.vnonce, a),
                   Of(b2.pending, a), Of(b2.queue, a), Virtual(chain, b2.vnonce, a), g, h);
    }
  }

  /** Transactions that are not in the pool, if any, leave no trace. */
  lemma WithoutUnknown(b: Book, chain: Chain, gone: set<Tx>)
    requires b.Sound({}) && b.all !! gone
    ensures Without(b, b, chain, gone)
  {
    forall a
      ensures WithoutAt(Of(b.pending, a), Of(b.queue, a), Virtual(chain, b.vnonce, a),
                        Of(b.pending, a), Of(b.queue, a), Virtual(chain, b.vnonce, a), gone)
    {
      var p, q := Of(b.pending, a), Of(b.queue, a);
      assert SoundAt(a, p, q, b.all, {});
      forall n ensures (n in p ==> p[n] !in gone) && (n in q ==> q[n] !in gone) {
        if n in p { assert Holds(p, p[n]); }
        if n in q { assert Holds(q, q[n]); }
      }
      WithoutNone(p, q, Virtual(chain, b.vnonce, a), gone);
    }
  }

  /** The transactions of other accounts are not those of account a. */
  lemma WithoutOther(b: Book, chain: Chain, tx: Tx, a: nat, v: nat)
    requires b.Sound({}) && a != tx.sender
    ensures WithoutAt(Of(b.pending, a), Of(b.queue, a), v, Of(b.pending, a), Of(b.queue, a), v, {tx})
  {
    assert SoundAt(a, Of(b.pending, a), Of(b.queue, a), b.all, {});
    WithoutNone(Of(b.pending, a), Of(b.queue, a), v, {tx});
  }

  lemma WithoutPending(p: Items, q: Items, v: nat, tx: Tx)
    requires p.Keys !! q.Keys && Holds(p, tx) && forall n :: n in p ==> p[n].nonce == n
    requires forall n :: n in q ==> q[n].nonce == n
    ensures var v' := if v > tx.nonce then tx.nonce else v;
      WithoutAt(p, q, v, Below(p, tx.nonce), q + From(p, tx.nonce + 1), v', {tx})
  {
    assert forall k :: k in p ==> (p[k] in {tx} <==> k == tx.nonce);
    WithoutParts(p, {tx}, tx.nonce);
    hide Leads;
    assert Left(q, {tx}) == q;
    assert Taken(p, {tx}) == {tx.nonce};
  }

  lemma WithoutParts(p: Items, gone: set<Tx>, n: nat)
    requires forall k :: k in p ==> (p[k] in gone <==> k == n)
    requires n in p
    ensures Leading(p, gone) == Below(p, n) && Loose(p, gone) == From(p, n + 1)
  {
    assert forall k :: k in p ==> (Leads(p, gone, k) <==> k < n);
    hide Leads;
  }

  lemma WithoutQueued(p: Items, q: Items, v: nat, tx: Tx)
    requires p.Keys !! q.Keys && Holds(q, tx) && forall n :: n in p ==> p[n].nonce == n
    requires forall n :: n in q ==> q[n].nonce == n
    ensures WithoutAt(p, q, v, p, q - {tx.nonce}, v, {tx})
  {
    assert forall k :: k in p ==> Leads(p, {tx}, k);
    hide Leads;
    assert Leading(p, {tx}) == p && Loose(p, {tx}) == map[];
    assert Left(q, {tx}) + map[] == q - {tx.nonce};
    assert Taken(p, {tx}) == {};
  }

  /** removeTx before the invalidated transactions are requeued. */
  ghost function Cut(b: Book, tx: Tx): Book {
    b.(pending := SetOrDelete(b.pending, tx.sender, Below(Of(b.pending, tx.sender), tx.nonce)), all := b.all - {tx})
  }

  /** removeTx: exactly the named transaction goes. */
  ghost predicate RemovedFrom(b: Book, b': Book, chain: Chain, tx: Tx) {
    && b'.all == b.all - {tx} && b'.Sound({}) && Without(b, b', chain, {tx})
    && forall dirty :: b.Gapless(chain, dirty) ==> b'.Gapless(chain, dirty)
  }

  lemma RemovedUnknown(b: Book, chain: Chain, tx: Tx)
    requires b.Sound({}) && tx !in b.all
    ensures RemovedFrom(b, b, chain, tx)
  {
    assert b.all - {tx} == b.all;
    WithoutUnknown(b, chain, {tx});
  }

  lemma CutSound(b: Book, tx: Tx)
    requires b.Sound({}) && tx in b.all && tx.nonce in Of(b.pending, tx.sender)
    ensures var rest := From(Of(b.pending, tx.sender), tx.nonce + 1);
      Cut(b, tx).Sound(Values(rest)) && FiledFor(tx.sender, rest)
  {
    var a := tx.sender;
    var p, q := Of(b.pending, a), Of(b.queue, a);
    var rest := From(p, tx.nonce + 1);
    var b' := Cut(b, tx);
    assert SoundAt(a, p, q, b.all, {});
    RemovePending(a, p, q, b.all, tx);
    SetIs(b.pending, a, Below(p, tx.nonce));
    assert SameOthers({}, Values(rest), a) by {
      forall t | t in Values(rest) ensures t.sender == a { var k :| k in rest && rest[k] == t; }
    }
    Localize(b.pending, b.queue, b.all, {}, b'.pending, b'.queue, b'.all, Values(rest), a);
  }

  /** removeTx after requeueing: the virtual nonce drops to the removed nonce. */
  ghost function Lowered(b: Book, chain: Chain, tx: Tx): Book {
    b.(vnonce := if Virtual(chain, b.vnonce, tx.sender) > tx.nonce then b.vnonce[tx.sender := tx.nonce] else b.vnonce)
  }

  /** Then the pending nonces end there. */
  lemma CutGapless(b: Book, b': Book, chain: Chain, tx: Tx)
    requires b.Sound({}) && tx in b.all && tx.nonce in Of(b.pending, tx.sender)
    requires Requeued(Cut(b, tx), b', tx.sender, From(Of(b.pending, tx.sender), tx.nonce + 1)) && b'.Sound({})
    ensures RemovedFrom(b, Lowered(b', chain, tx), chain, tx)
  {
    var a := tx.sender;
    var v := Lowered(b', chain, tx).vnonce;
    SetIs(b.pending, a, Below(Of(b.pending, a), tx.nonce));
    assert SoundAt(a, Of(b.pending, a), Of(b.queue, a), b.all, {});
    CutWithout(b, b', chain, tx);
    hide Without;
    forall dirty | b.Gapless(chain, dirty) ensures AllGapless(b'.pending, b'.queue, chain, v, dirty) {
      assert GaplessAt(Of(b.pending, a), chain.nonce(a), Virtual(chain, b.vnonce, a));
      IntervalCut(Of(b.pending, a), chain.nonce(a), Virtual(chain, b.vnonce, a), tx.nonce);
      LocalizeGapless(b.pending, b.queue, chain, b.vnonce, dirty, b'.pending, b'.queue, v, a);
    }
  }

  lemma CutWithout(b: Book, b': Book, chain: Chain, tx: Tx)
    requires b.Sound({}) && tx in b.all && tx.nonce in Of(b.pending, tx.sender)
    requires Requeued(Cut(b, tx), b', tx.sender, From(Of(b.pending, tx.sender), tx.nonce + 1))
    ensures Without(b, Lowered(b', chain, tx), chain, {tx})
  {
    var a, b2 := tx.sender, Lowered(b', chain, tx);
    var p, q, v := Of(b.pending, a), Of(b.queue, a), Virtual(chain, b.vnonce, a);
    SetIs(b.pending, a, Below(p, tx.nonce));
    assert SoundAt(a, p, q, b.all, {});
    assert Holds(p, tx) by { assert Holds(p, p[tx.nonce]); }
    WithoutPending(p, q, v, tx);
    forall c | c != a
      ensures WithoutAt(Of(b.pending, c), Of(b.queue, c), Virtual(chain, b.vnonce, c),
                        Of(b2.pending, c), Of(b2.queue, c), Virtual(chain, b2.vnonce, c), {tx})
    {
      WithoutOther(b, chain, tx, c, Virtual(chain, b.vnonce, c));
    }
  }

  ghost function Unqueued(b: Book, tx: Tx): Book {
    b.(queue := SetOrDelete(b.queue, tx.sender, Of(b.queue, tx.sender) - {tx.nonce}), all := b.all - {tx})
  }

  lemma UnqueuedRemoves(b: Book, chain: Chain, tx: Tx)
    requires b.Sound({}) && tx in b.all && tx.nonce !in Of(b.pending, tx.sender)
    ensures Holds(Of(b.queue, tx.sender), tx) && RemovedFrom(b, Unqueued(b, tx), chain, tx)
  {
    var a := tx.sender;
    var b' := Unqueued(b, tx);
    assert SoundAt(a, Of(b.pending, a), Of(b.queue, a), b.all, {});
    RemoveQueued(a, Of(b.pending, a), Of(b.queue, a), b.all, tx);
    SetIs(b.queue, a, Of(b.queue, a) - {tx.nonce});
    Localize(b.pending, b.queue, b.all, {}, b'.pending, b'.queue, b'.all, {}, a);
    UnqueuedWithout(b, chain, tx);
    hide Without;
    forall dirty | b.Gapless(chain, dirty) ensures b'.Gapless(chain, dirty) {
      LocalizeGapless(b.pending, b.queue, chain, b.vnonce, dirty, b'.pending, b'.queue, b'.vnonce, a);
    }
  }

  lemma UnqueuedWithout(b: Book, chain: Chain, tx: Tx)
    requires b.Sound({}) && Holds(Of(b.queue, tx.sender), tx)
    ensures Without(b, Unqueued(b, tx), chain, {tx})
  {
    var a, b' := tx.sender, Unqueued(b, tx);
    assert SoundAt(a, Of(b.pending, a), Of(b.queue, a), b.all, {});
    SetIs(b.queue, a, Of(b.queue, a) - {tx.nonce});
    WithoutQueued(Of(b.pending, a), Of(b.queue, a), Virtual(chain, b.vnonce, a), tx);
    forall c | c != a
      ensures WithoutAt(Of(b.pending, c), Of(b.queue, c), Virtual(chain, b.vnonce, c),
                        Of(b'.pending, c), Of(b'.queue, c), Virtual(chain, b'.vnonce, c), {tx})
    {
      WithoutOther(b, chain, tx, c, Virtual(chain, b.vnonce, c));
    }
  }
}
