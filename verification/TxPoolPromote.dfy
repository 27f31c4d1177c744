/**
 The per-account part of promoteExecutables: drop what is old or cannot be paid for,
 move the run that has become executable to the pending list, cap the rest.
 */
module TxPoolPromote {
  import opened TxListSpec
  import opened TxPoolSpec
  import opened TxPool
  import opened TxPriced
  import TxPoolFair

  // ---------------------------------------------------------------- on values

  /** Queue transactions of account a that are not kept are dropped. */
  function Trimmed(b: Book, a: nat, kept: Items): Book {
    b.(queue := b.queue[a := kept], all := b.all - Values(Of(b.queue, a) - kept.Keys))
  }

  ghost predicate IsLast(m: Items, last: nat) { last in m && forall n :: n in m ==> n <= last }

  ghost predicate SubItems(kept: Items, m: Items) { forall n :: n in kept ==> n in m && kept[n] == m[n] }

  /** The pool knows the transactions. */
  ghost predicate Droppable(b: Book, items: Items) { Values(items) <= b.all && Filed(items) }

  lemma TrimSound(b: Book, a: nat, kept: Items)
    requires b.Sound({}) && SubItems(kept, Of(b.queue, a))
    ensures Trimmed(b, a, kept).Sound({}) && Of(Trimmed(b, a, kept).queue, a) == kept
      && Only(b.queue, Trimmed(b, a, kept).queue, a)
    ensures Droppable(b, Of(b.queue, a) - kept.Keys)
  {
    var b' := Trimmed(b, a, kept);
    assert SoundAt(a, Of(b.pending, a), Of(b.queue, a), b.all, {});
    TakeQueued(a, Of(b.pending, a), Of(b.queue, a), b.all, kept);
    assert Filed(Of(b.queue, a) - kept.Keys);
    SetIs(b.queue, a, kept);
    OwnValues(a, Of(b.queue, a), kept.Keys);
    Localize(b.pending, b.queue, b.all, {}, b'.pending, b'.queue, b'.all, {}, a);
  }

  lemma OwnValues(a: nat, m: Items, keys: set<nat>)
    requires FiledFor(a, m)
    ensures forall t :: t in Values(m - keys) ==> t.sender == a
  {
    forall t | t in Values(m - keys) ensures t.sender == a { var k :| k in m - keys && (m - keys)[k] == t; }
  }

  /** The ready run has left the queue and waits to enter the pending list. */
  lemma TakeSound(b: Book, a: nat, kept: Items, taken: Items)
    requires b.Sound({}) && SubItems(kept, Of(b.queue, a)) && taken == Of(b.queue, a) - kept.Keys
    ensures b.(queue := b.queue[a := kept]).Sound(Values(taken)) && FiledFor(a, taken)
  {
    var b' := b.(queue := b.queue[a := kept]);
    assert SoundAt(a, Of(b.pending, a), Of(b.queue, a), b.all, {});
    TakeQueued(a, Of(b.pending, a), Of(b.queue, a), b.all, kept);
    SetIs(b.queue, a, kept);
    OwnValues(a, Of(b.queue, a), kept.Keys);
    Localize(b.pending, b.queue, b.all, {}, b'.pending, b'.queue, b'.all, Values(taken), a);
  }

  /** The nonces [lo, next) of the run have been promoted. */
  ghost predicate PromotedTo(b: Book, b': Book, a: nat, run: Items, lo: nat, next: nat) {
    && b'.queue == b.queue && b'.all == b.all
    && Only(b.pending, b'.pending, a) && Of(b'.pending, a) == Of(b.pending, a) + Below(run, next)
    && b'.vnonce == if lo < next then b.vnonce[a := next] else b.vnonce
  }

  lemma PromoteStart(b: Book, a: nat, run: Items, lo: nat)
    requires forall n :: n in run ==> n >= lo
    ensures PromotedTo(b, b, a, run, lo, lo) && From(run, lo) == run
  {
    assert Of(b.pending, a) + Below(run, lo) == Of(b.pending, a);
  }

  lemma PromoteShape(b: Book, b': Book, a: nat, run: Items, lo: nat, tx: Tx)
    requires tx.sender == a && lo <= tx.nonce && tx.nonce in run && run[tx.nonce] == tx
    requires PromotedTo(b, b', a, run, lo, tx.nonce) && tx in b'.all && tx.nonce !in Of(b'.pending, a)
    ensures PromotedTo(b, Promoted(b', a, tx), a, run, lo, tx.nonce + 1)
  {
    PutIs(b'.pending, a, tx);
    assert Promoted(b', a, tx).all == b'.all;
    BelowNext(Of(b.pending, a), run, tx);
    hide Below;
  }

  lemma BelowNext(p: Items, run: Items, tx: Tx)
    requires tx.nonce in run && run[tx.nonce] == tx
    ensures p + Below(run, tx.nonce + 1) == (p + Below(run, tx.nonce))[tx.nonce := tx]
  {
  }

  lemma FromNext(run: Items, next: nat)
    ensures From(run, next) - {next} == From(run, next + 1)
  {
  }

  lemma PromoteNext(b': Book, a: nat, run: Items, next: nat)
    requires FiledFor(a, run) && next in run && b'.Sound(Values(From(run, next)))
    ensures var tx := run[next];
      && tx.sender == a && tx.nonce == next && tx in b'.all && next !in Of(b'.pending, a)
      && Promoted(b', a, tx).Sound(Values(From(run, next + 1)))
  {
    var tx, left := run[next], From(run, next);
    assert left[next] == tx;
    assert tx in Values(left);
    PromoteOne(b', Values(left), tx);
    ValuesMinus(a, left, next);
    FromNext(run, next);
    hide Values;
  }

  /** Only account a differs. */
  ghost predicate SameBut(b: Book, b': Book, chain: Chain, a: nat) {
    && Only(b.pending, b'.pending, a) && Only(b.queue, b'.queue, a)
    && forall c :: c != a ==> Virtual(chain, b'.vnonce, c) == Virtual(chain, b.vnonce, c)
  }

  /** What one account's promotion keeps. */
  ghost predicate AccountPromoted(b: Book, b': Book, chain: Chain, a: nat) {
    && b'.Sound({}) && b'.all <= b.all && SameBut(b, b', chain, a)
    && forall dirty :: b.Gapless(chain, dirty) ==> b'.Gapless(chain, dirty - {a})
  }

  /**
   What stays queued: the usable transactions that were not promoted, and of these no more than a remote account
   may have.
   */
  ghost function Rest(items: Items, local: bool, limit: nat): Items {
    if local then items else CapKept(items, limit)
  }

  /**
   The promotion moved exactly what Ready takes from the usable queue at the virtual nonce, and left exactly the
   rest.
   */
  ghost predicate TookReady(b: Book, b': Book, chain: Chain, a: nat, local: bool, limit: nat) {
    exists taken :: Took(b, b', chain, a, local, limit, taken)
  }

  ghost predicate Took(b: Book, b': Book, chain: Chain, a: nat, local: bool, limit: nat, taken: Items) {
    var usable, v, v' := Usable(chain, a, Of(b.queue, a)), Virtual(chain, b.vnonce, a), Virtual(chain, b'.vnonce, a);
    && ReadyTakes(usable, v, taken)
    && Of(b'.pending, a) == Of(b.pending, a) + taken
    && Of(b'.queue, a) == Rest(usable - taken.Keys, local, limit)
    && if taken == map[] then v' == v else v' > 0 && IsLast(taken, v' - 1)
  }

  /** The queue after Forward and Filter. */
  ghost function Usable(chain: Chain, a: nat, list: Items): Items {
    LooseKept(From(list, chain.nonce(a)), chain.balance(a), chain.maxGas)
  }

  lemma UsableAs(chain: Chain, a: nat, list: Items)
    ensures Usable(chain, a, list) == LooseKept(From(list, chain.nonce(a)), chain.balance(a), chain.maxGas)
  {
  }

  /** The account may still send the transaction. */
  ghost predicate Sendable(chain: Chain, a: nat, tx: Tx) {
    tx.nonce >= chain.nonce(a) && tx.cost <= chain.balance(a) && tx.gas <= chain.maxGas
  }

  /** Nonce n of the old queue has been promoted. */
  ghost predicate MovedUp(b: Book, b': Book, a: nat, n: nat) { n !in Of(b.pending, a) && n in Of(b'.pending, a) }

  /** Nonce n of the old queue has been dropped although the account may still send it. */
  ghost predicate CutOff(b: Book, b': Book, chain: Chain, a: nat, n: nat) {
    && n in Of(b.queue, a) && Sendable(chain, a, Of(b.queue, a)[n])
    && n !in Of(b'.queue, a) && n !in Of(b'.pending, a)
  }

  /**
   Account a's promotion as its owner sees it: what is pending stays; what stays queued or moves up was queued
   and may be sent; if the account is local nothing of that kind is dropped, if it is remote only what lies above
   everything that stays or moves up, and only as long as the queue is at its limit.
   */
  ghost predicate Sifted(b: Book, b': Book, chain: Chain, a: nat, local: bool, limit: nat) {
    && SubItems(Of(b.pending, a), Of(b'.pending, a))
    && (forall n :: n in Of(b'.queue, a) ==> Waits(b, b', chain, a, n))
    && (forall n :: MovedUp(b, b', a, n) ==> WasQueued(b, chain, a, n, Of(b'.pending, a)[n]))
    && forall n :: CutOff(b, b', chain, a, n) ==> !local && CutAbove(b, b', a, n, limit)
  }

  /** Transaction tx had nonce n in the queue and may be sent. */
  ghost predicate WasQueued(b: Book, chain: Chain, a: nat, n: nat, tx: Tx) {
    n in Of(b.queue, a) && tx == Of(b.queue, a)[n] && Sendable(chain, a, tx)
  }

  ghost predicate Waits(b: Book, b': Book, chain: Chain, a: nat, n: nat) {
    n in Of(b'.queue, a) && WasQueued(b, chain, a, n, Of(b'.queue, a)[n]) && n !in Of(b'.pending, a)
  }

  /** The queue is full, and nonce n is above all that stayed there and all that moved up. */
  ghost predicate CutAbove(b: Book, b': Book, a: nat, n: nat, limit: nat) {
    && |Of(b'.queue, a)| == limit
    && (forall k :: k in Of(b'.queue, a) ==> k < n) && forall k: nat :: MovedUp(b, b', a, k) ==> k < n
  }

  lemma TookSifts(b: Book, b': Book, chain: Chain, a: nat, local: bool, limit: nat)
    requires b.Sound({}) && TookReady(b, b', chain, a, local, limit)
    ensures Sifted(b, b', chain, a, local, limit)
  {
    var p, q := Of(b.pending, a), Of(b.queue, a);
    assert p.Keys !! q.Keys && FiledFor(a, q) by { assert SoundAt(a, p, q, b.all, {}); }
    hide AllSound;
    var taken :| Took(b, b', chain, a, local, limit, taken);
    assert Of(b'.pending, a) == p + taken;
    var usable := Usable(chain, a, q);
    UsableMeans(chain, a, q);
    TakenIsLow(usable, Virtual(chain, b.vnonce, a), taken);
    RestMeans(usable - taken.Keys, local, limit);
    hide Usable;
    hide Rest;
    hide ReadyTakes;
    hide Of;
    SiftsBy(b, b', chain, a, local, limit, usable, taken);
  }

  lemma SiftsBy(b: Book, b': Book, chain: Chain, a: nat, local: bool, limit: nat, usable: Items, taken: Items)
    requires Of(b.pending, a).Keys !! Of(b.queue, a).Keys && Of(b'.pending, a) == Of(b.pending, a) + taken
    requires SubItems(usable, Of(b.queue, a)) && SubItems(taken, usable)
    requires SubItems(Of(b'.queue, a), usable - taken.Keys)
    requires forall n :: n in usable <==> n in Of(b.queue, a) && Sendable(chain, a, Of(b.queue, a)[n])
    requires forall n, k :: n in usable && n !in taken && k in taken ==> k < n
    requires forall n :: n in usable - taken.Keys && n !in Of(b'.queue, a) ==>
      !local && |Of(b'.queue, a)| == limit && forall x :: x in Of(b'.queue, a) ==> x < n
    ensures Sifted(b, b', chain, a, local, limit)
  {
    hide Of;
    hide Sendable;
    MovedIs(b, b', a, taken);
    hide MovedUp;
    forall n | n in Of(b'.queue, a) ensures Waits(b, b', chain, a, n) { assert n in usable - taken.Keys; }
    hide Waits;
    forall n | CutOff(b, b', chain, a, n) ensures !local && CutAbove(b, b', a, n, limit) {
      assert n in usable - taken.Keys && n !in Of(b'.queue, a);
      hide CutOff;
    }
  }

  lemma MovedIs(b: Book, b': Book, a: nat, taken: Items)
    requires Of(b.pending, a).Keys !! Of(b.queue, a).Keys && Of(b'.pending, a) == Of(b.pending, a) + taken
    requires SubItems(taken, Of(b.queue, a))
    ensures SubItems(Of(b.pending, a), Of(b'.pending, a))
    ensures forall n :: MovedUp(b, b', a, n) <==> n in taken
    ensures forall n :: n in taken ==> Of(b'.pending, a)[n] == taken[n] && n in Of(b.queue, a)
  {
    hide Of;
  }

  lemma UsableMeans(chain: Chain, a: nat, q: Items)
    requires FiledFor(a, q)
    ensures SubItems(Usable(chain, a, q), q)
    ensures forall n :: n in Usable(chain, a, q) <==> n in q && Sendable(chain, a, q[n])
  {
  }

  lemma RestMeans(rest: Items, local: bool, limit: nat)
    ensures SubItems(Rest(rest, local, limit), rest)
    ensures forall n :: n in rest && n !in Rest(rest, local, limit) ==>
      !local && |Rest(rest, local, limit)| == limit && forall x :: x in Rest(rest, local, limit) ==> x < n
  {
    hide CapKept;
    CapIsPart(rest, limit);
    forall n | n in rest && n !in CapKept(rest, limit)
      ensures |CapKept(rest, limit)| == limit && forall x :: x in CapKept(rest, limit) ==> x < n
    {
      CutIsHigh(rest, limit, n);
    }
  }

  lemma TakenIsLow(usable: Items, start: nat, taken: Items)
    requires ReadyTakes(usable, start, taken)
    ensures SubItems(taken, usable) && forall n, k :: n in usable && n !in taken && k in taken ==> k < n
  {
  }

  lemma CutIsHigh(m: Items, k: nat, n: nat)
    requires n in m && n !in CapKept(m, k)
    ensures |CapKept(m, k)| == k && forall x :: x in CapKept(m, k) ==> x < n
  {
    TxPoolFair.CapSize(m, k);
    TxPoolFair.CapIsLow(m, k);
    Grows(Lower(m, n), m.Keys);
  }

  /** With pending nonces up to the virtual nonce, the run starts there and closes it up to the first gap. */
  lemma RunCloses(p: Items, q: Items, nonce: nat, virtual: nat, taken: Items, lo: nat, hi: nat)
    requires GaplessAt(p, nonce, virtual) && p.Keys !! q.Keys && forall n :: n in q ==> n >= nonce
    requires lo <= hi && Interval(taken, lo, hi) && SubItems(taken, q)
    requires if lo < hi then lo <= virtual && IsMin(q, lo) && hi !in q else forall n :: n in q ==> n > virtual
    ensures GaplessAt(p + taken, nonce, if lo < hi then hi else virtual)
    ensures (if lo < hi then hi else virtual) !in q - taken.Keys
  {
    if lo < hi { assert lo in q && lo !in p; }
  }

  /** The promotion of account a as a whole: taken has moved to the pending list, kept is what is left of the queue. */
  lemma AccountDone(b: Book, b': Book, chain: Chain, a: nat, q: Items, taken: Items, lo: nat, hi: nat, kept: Items)
    requires b.Sound({}) && b'.Sound({}) && b'.all <= b.all
    requires q == Usable(chain, a, Of(b.queue, a)) && lo <= hi && Interval(taken, lo, hi) && SubItems(taken, q)
    requires var v := Virtual(chain, b.vnonce, a);
      if lo < hi then lo <= v && IsMin(q, lo) && hi !in q else forall n :: n in q ==> n > v
    requires Only(b.pending, b'.pending, a) && Of(b'.pending, a) == Of(b.pending, a) + taken
    requires Only(b.queue, b'.queue, a) && Of(b'.queue, a) == kept && SubItems(kept, q - taken.Keys)
    requires b'.vnonce == if lo < hi then b.vnonce[a := hi] else b.vnonce
    ensures AccountPromoted(b, b', chain, a)
    ensures var v' := Virtual(chain, b'.vnonce, a);
      if taken == map[] then v' == Virtual(chain, b.vnonce, a) else v' > 0 && IsLast(taken, v' - 1)
  {
    RunEndsAt(b, b', chain, a, taken, lo, hi);
    hide AllSound;
    hide AllGapless;
    hide Usable;
    hide Interval;
    hide IsLast;
    forall dirty | b.Gapless(chain, dirty) ensures b'.Gapless(chain, dirty - {a}) {
      AccountGapless(b, b', chain, dirty, a, q, taken, lo, hi);
    }
  }

  lemma RunEndsAt(b: Book, b': Book, chain: Chain, a: nat, taken: Items, lo: nat, hi: nat)
    requires lo <= hi && Interval(taken, lo, hi) && b'.vnonce == if lo < hi then b.vnonce[a := hi] else b.vnonce
    ensures var v' := Virtual(chain, b'.vnonce, a);
      if taken == map[] then v' == Virtual(chain, b.vnonce, a) else v' > 0 && IsLast(taken, v' - 1)
  {
    assert lo < hi ==> hi - 1 in taken;
  }

  lemma AccountGapless(b: Book, b': Book, chain: Chain, dirty: set<nat>, a: nat, q: Items, taken: Items, lo: nat,
                       hi: nat)
    requires b.Sound({}) && b.Gapless(chain, dirty)
    requires q == Usable(chain, a, Of(b.queue, a)) && lo <= hi && Interval(taken, lo, hi) && SubItems(taken, q)
    requires var v := Virtual(chain, b.vnonce, a);
      if lo < hi then lo <= v && IsMin(q, lo) && hi !in q else forall n :: n in q ==> n > v
    requires Only(b.pending, b'.pending, a) && Of(b'.pending, a) == Of(b.pending, a) + taken
    requires Only(b.queue, b'.queue, a) && SubItems(Of(b'.queue, a), q - taken.Keys)
    requires b'.vnonce == if lo < hi then b.vnonce[a := hi] else b.vnonce
    ensures b'.Gapless(chain, dirty - {a})
  {
    UsableApart(b, chain, a);
    hide AllSound;
    assert GaplessAt(Of(b.pending, a), chain.nonce(a), Virtual(chain, b.vnonce, a));
    hide AllGapless;
    hide Usable;
    RunCloses(Of(b.pending, a), q, chain.nonce(a), Virtual(chain, b.vnonce, a), taken, lo, hi);
    hide GaplessAt;
    hide Interval;
    CleanGapless(b, b', chain, dirty, a);
  }

  lemma UsableApart(b: Book, chain: Chain, a: nat)
    requires b.Sound({})
    ensures Of(b.pending, a).Keys !! Usable(chain, a, Of(b.queue, a)).Keys
    ensures forall n :: n in Usable(chain, a, Of(b.queue, a)) ==> n >= chain.nonce(a)
  {
    assert SoundAt(a, Of(b.pending, a), Of(b.queue, a), b.all, {});
  }

  lemma CleanGapless(b: Book, b': Book, chain: Chain, dirty: set<nat>, a: nat)
    requires b.Gapless(chain, dirty) && Only(b.pending, b'.pending, a) && Only(b.queue, b'.queue, a)
    requires forall c :: c != a ==> Virtual(chain, b'.vnonce, c) == Virtual(chain, b.vnonce, c)
    requires GaplessAt(Of(b'.pending, a), chain.nonce(a), Virtual(chain, b'.vnonce, a))
    requires Virtual(chain, b'.vnonce, a) !in Of(b'.queue, a)
    ensures b'.Gapless(chain, dirty - {a})
  {
    forall c
      ensures GaplessAt(Of(b'.pending, c), chain.nonce(c), Virtual(chain, b'.vnonce, c))
      ensures c !in dirty - {a} ==> Virtual(chain, b'.vnonce, c) !in Of(b'.queue, c)
    {
      if c != a { assert GaplessAt(Of(b.pending, c), chain.nonce(c), Virtual(chain, b.vnonce, c)); }
    }
  }

  // -------------------------------------------------------------- on the pool

  method MinNonce(m: Items) returns (min: nat)
    requires m.Keys != {}
    ensures IsMin(m, min)
  {
    min :| min in m.Keys;
    var todo := m.Keys;
    while todo != {}
      invariant min in m && todo <= m.Keys && forall n :: n in m && n !in todo ==> min <= n
      decreases todo
    {
      var n :| n in todo;
      if n < min { min := n; }
      todo := todo - {n};
    }
  }

  method RunEnd(m: Items, min: nat) returns (hi: nat)
    requires min in m
    ensures min < hi && hi !in m && forall k :: min <= k < hi ==> k in m
  {
    hi := min;
    while hi in m
      invariant min <= hi && forall k :: min <= k < hi ==> k in m
      decreases |From(m, hi)|
    {
      assert From(m, hi).Keys == From(m, hi + 1).Keys + {hi};
      hi := hi + 1;
    }
  }

  /** txSortedMap.Ready on the contents: the run from the lowest nonce, unless that is beyond start. */
  method TakeReady(m: Items, start: nat) returns (taken: Items, lo: nat, hi: nat)
    ensures ReadyTakes(m, start, taken) && SubItems(taken, m) && lo <= hi && Interval(taken, lo, hi)
    ensures if lo < hi then lo <= start && IsMin(m, lo) && hi !in m else forall n :: n in m ==> n > start
  {
    if m.Keys == {} { return map[], 0, 0; }
    lo := MinNonce(m);
    if lo > start { return map[], 0, 0; }
    hi := RunEnd(m, lo);
    taken := Below(m, hi);
    ReadyIs(m, start, lo, hi);
  }

  lemma ReadyIs(m: Items, start: nat, lo: nat, hi: nat)
    requires IsMin(m, lo) && lo <= start && lo < hi && hi !in m && forall k :: lo <= k < hi ==> k in m
    ensures ReadyTakes(m, start, Below(m, hi)) && Interval(Below(m, hi), lo, hi)
  {
    assert m != map[] && !(forall n :: n in m ==> n > start);
  }

  /** Promote a run, lowest nonce first. */
  method PromoteRun(pool: Pool, a: nat, run: Items, lo: nat, hi: nat)
    requires lo <= hi && Interval(run, lo, hi) && FiledFor(a, run)
    requires pool.Priced({}) && pool.book.Sound(Values(run))
    modifies pool`book, pool`log, pool.priced
    ensures pool.Priced({}) && pool.book.Sound({}) && PromotedTo(old(pool.book), pool.book, a, run, lo, hi)
    ensures pool.log == old(pool.log)
  {
    hide AllSound;
    hide Pool.Tracks;
    hide PromotedTo;
    var next := lo;
    ghost var b := pool.book;
    PromoteStart(b, a, run, lo);
    while next < hi
      invariant lo <= next <= hi && pool.Priced({}) && pool.log == old(pool.log)
      invariant pool.book.Sound(Values(From(run, next))) && PromotedTo(b, pool.book, a, run, lo, next)
    {
      PromoteNext(pool.book, a, run, next);
      PromoteShape(b, pool.book, a, run, lo, run[next]);
      var ok := pool.PromoteTx(a, run[next]);
      next := next + 1;
    }
    assert Values(From(run, hi)) == {};
  }

  /** The stages of one account's promotion up to the cap. */
  ghost predicate ReadyStage(b: Book, b2: Book, b3: Book, chain: Chain, a: nat, q: Items, taken: Items, lo: nat,
                             hi: nat) {
    && q == Usable(chain, a, Of(b.queue, a))
    && b2 == Trimmed(b, a, q).(queue := Trimmed(b, a, q).queue[a := q - taken.Keys])
    && PromotedTo(b2, b3, a, taken, lo, hi) && lo <= hi && Interval(taken, lo, hi) && SubItems(taken, q)
    && ReadyTakes(q, Virtual(chain, b.vnonce, a), taken)
    && var v := Virtual(chain, b.vnonce, a);
       if lo < hi then lo <= v && IsMin(q, lo) && hi !in q else forall n :: n in q ==> n > v
  }

  /** Drop what is too old or cannot be paid for, and promote what has become executable. */
  method PromoteReady(pool: Pool, a: nat)
    returns (rest: Items, ghost b2: Book, ghost q: Items, ghost taken: Items, ghost lo: nat, ghost hi: nat)
    requires pool.Valid()
    modifies pool`book, pool`log, pool.priced
    ensures pool.Valid() && ReadyStage(old(pool.book), b2, pool.book, pool.chain, a, q, taken, lo, hi)
    ensures rest == q - taken.Keys && Of(pool.book.queue, a) == rest && pool.log == old(pool.log)
  {
    hide AllSound;
    hide Pool.Tracks;
    hide PromotedTo;
    hide Usable;
    hide ReadyTakes;
    hide Only;
    hide SubItems;
    hide Interval;
    hide IsMin;
    ghost var b := pool.book;
    var chain := pool.chain;
    var usable := LooseKept(From(Of(pool.book.queue, a), chain.nonce(a)), chain.balance(a), chain.maxGas);
    assert usable == Usable(chain, a, Of(pool.book.queue, a)) by { UsableAs(chain, a, Of(pool.book.queue, a)); }
    UsableIsPart(chain, a, Of(b.queue, a));
    TrimSound(b, a, usable);
    Trim(pool, a, usable);
    var run, first, end := TakeReady(usable, Virtual(chain, pool.book.vnonce, a));
    rest := usable - run.Keys;
    SplitOff(usable, run);
    TakeSound(pool.book, a, rest, run);
    pool.book := pool.book.(queue := pool.book.queue[a := rest]);
    b2 := pool.book;
    SetIs(Trimmed(b, a, usable).queue, a, rest);
    PromoteRun(pool, a, run, first, end);
    PromoteLeavesQueue(b2, pool.book, a, run, first, end);
    q, taken, lo, hi := usable, run, first, end;
  }

  /** One iteration of the account loop of promoteExecutables. */
  method PromoteAccount(pool: Pool, a: nat)
    requires pool.Valid()
    modifies pool`book, pool`log, pool.priced
    ensures pool.Valid() && AccountPromoted(old(pool.book), pool.book, pool.chain, a) && pool.log == old(pool.log)
    ensures TookReady(old(pool.book), pool.book, pool.chain, a, a in pool.locals, pool.config.accountQueue)
    ensures Sifted(old(pool.book), pool.book, pool.chain, a, a in pool.locals, pool.config.accountQueue)
    ensures a in pool.locals ==> KeepsSendable(old(pool.book), pool.book, pool.chain, a)
    ensures a !in pool.locals ==> |Of(pool.book.queue, a)| <= pool.config.accountQueue
  {
    hide AllSound;
    hide Pool.Tracks;
    hide AccountPromoted;
    hide TookReady;
    hide ReadyStage;
    hide SubItems;
    hide CapKept;
    hide Only;
    hide Droppable;
    hide Sifted;
    hide KeepsSendable;
    ghost var b := pool.book;
    if a !in pool.book.queue {
      NothingQueued(b, pool.chain, a, a in pool.locals, pool.config.accountQueue);
      TookSifts(b, b, pool.chain, a, a in pool.locals, pool.config.accountQueue);
      if a in pool.locals { LocalStays(b, b, pool.chain, a, true, pool.config.accountQueue); }
      return;
    }
    ghost var b2, q, taken, lo, hi;
    var rest;
    rest, b2, q, taken, lo, hi := PromoteReady(pool, a);
    ghost var b3 := pool.book;
    var kept := rest;
    if a !in pool.locals { kept := CapKept(rest, pool.config.accountQueue); }
    CapIsPart(rest, pool.config.accountQueue);
    TrimSound(b3, a, kept);
    Trim(pool, a, kept);
    DeletedIfEmpty(b3, a, kept);
    if kept == map[] { pool.book := pool.book.(queue := pool.book.queue - {a}); }
    PromotionEnds(b, q, b2, b3, pool.book, pool.chain, a, taken, lo, hi, a in pool.locals, pool.config.accountQueue,
      kept);
  }

  /** Without a cap, everything that may be sent stays. */
  ghost predicate KeepsSendable(b: Book, b': Book, chain: Chain, a: nat) {
    forall n :: n in Of(b.queue, a) ==>
      var tx := Of(b.queue, a)[n];
      tx.nonce >= chain.nonce(a) && tx.cost <= chain.balance(a) && tx.gas <= chain.maxGas ==>
        n in Of(b'.queue, a) || n in Of(b'.pending, a)
  }

  lemma LocalStays(b: Book, b': Book, chain: Chain, a: nat, local: bool, limit: nat)
    requires Sifted(b, b', chain, a, local, limit) && local
    ensures KeepsSendable(b, b', chain, a)
  {
    hide Of;
    forall n | n in Of(b.queue, a) && Sendable(chain, a, Of(b.queue, a)[n])
      ensures n in Of(b'.queue, a) || n in Of(b'.pending, a)
    {
      assert !CutOff(b, b', chain, a, n);
    }
  }

  lemma DeletedIfEmpty(b: Book, a: nat, kept: Items)
    ensures var q := Trimmed(b, a, kept).queue; SetOrDelete(q, a, kept) == if kept == map[] then q - {a} else q
  {
  }

  lemma PromotionEnds(b: Book, q: Items, b2: Book, b3: Book, b': Book, chain: Chain, a: nat, taken: Items, lo: nat,
                      hi: nat, local: bool, limit: nat, kept: Items)
    requires b.Sound({}) && kept == (if local then q - taken.Keys else CapKept(q - taken.Keys, limit))
      && ReadyStage(b, b2, b3, chain, a, q, taken, lo, hi)
    requires Trimmed(b3, a, kept).Sound({}) && SubItems(kept, q - taken.Keys)
    requires b' == Trimmed(b3, a, kept).(queue := SetOrDelete(Trimmed(b3, a, kept).queue, a, kept))
    ensures b'.Sound({}) && Of(b'.queue, a) == kept && b'.all == Trimmed(b3, a, kept).all
    ensures AccountPromoted(b, b', chain, a) && TookReady(b, b', chain, a, local, limit)
    ensures Sifted(b, b', chain, a, local, limit) && (local ==> KeepsSendable(b, b', chain, a))
  {
    assert kept == Rest(q - taken.Keys, local, limit);
    hide Rest;
    hide CapKept;
    hide ReadyStage;
    hide AllSound;
    hide AccountPromoted;
    hide TookReady;
    hide Sifted;
    hide KeepsSendable;
    AccountFinish(b, q, b2, b3, b', chain, a, taken, lo, hi, local, limit, kept);
    TookSifts(b, b', chain, a, local, limit);
    if local { LocalStays(b, b', chain, a, local, limit); }
  }

  lemma AccountFinish(b: Book, q: Items, b2: Book, b3: Book, b': Book, chain: Chain, a: nat, taken: Items, lo: nat,
                      hi: nat, local: bool, limit: nat, kept: Items)
    requires b.Sound({}) && kept == Rest(q - taken.Keys, local, limit)
      && ReadyStage(b, b2, b3, chain, a, q, taken, lo, hi)
    requires Trimmed(b3, a, kept).Sound({}) && SubItems(kept, q - taken.Keys)
    requires b' == Trimmed(b3, a, kept).(queue := SetOrDelete(Trimmed(b3, a, kept).queue, a, kept))
    ensures b'.Sound({}) && Of(b'.queue, a) == kept && b'.all == Trimmed(b3, a, kept).all
    ensures AccountPromoted(b, b', chain, a) && TookReady(b, b', chain, a, local, limit)
  {
    hide AllSound;
    hide Rest;
    hide PromotedTo;
    hide ReadyTakes;
    hide Usable;
    hide Only;
    hide SubItems;
    hide Interval;
    hide IsMin;
    ChainEnds(b, q, b2, b3, b', a, taken, lo, hi, kept);
    AccountDone(b, b', chain, a, q, taken, lo, hi, kept);
    assert Took(b, b', chain, a, local, limit, taken);
  }

  lemma UsableIsPart(chain: Chain, a: nat, list: Items)
    ensures SubItems(Usable(chain, a, list), list)
  {
  }

  lemma SplitOff(q: Items, taken: Items)
    requires SubItems(taken, q)
    ensures taken == q - (q - taken.Keys).Keys && SubItems(q - taken.Keys, q)
  {
  }

  lemma CapIsPart(m: Items, k: nat)
    ensures SubItems(CapKept(m, k), m) && SubItems(m, m) && |CapKept(m, k)| <= k
  {
    CapBound(m, k);
  }

  lemma PromoteLeavesQueue(b: Book, b': Book, a: nat, run: Items, lo: nat, hi: nat)
    requires PromotedTo(b, b', a, run, lo, hi)
    ensures b'.queue == b.queue
  {
  }

  /** What the stages of one account's promotion amount to. */
  lemma ChainEnds(b: Book, q: Items, b2: Book, b3: Book, b': Book, a: nat, taken: Items, lo: nat, hi: nat, kept: Items)
    requires b2 == Trimmed(b, a, q).(queue := Trimmed(b, a, q).queue[a := q - taken.Keys])
    requires PromotedTo(b2, b3, a, taken, lo, hi) && Interval(taken, lo, hi) && Trimmed(b3, a, kept).Sound({})
    requires b' == Trimmed(b3, a, kept).(queue := SetOrDelete(Trimmed(b3, a, kept).queue, a, kept))
    ensures b'.Sound({}) && b'.all <= b.all
    ensures Only(b.pending, b'.pending, a) && Of(b'.pending, a) == Of(b.pending, a) + taken
    ensures Only(b.queue, b'.queue, a) && Of(b'.queue, a) == kept
    ensures b'.vnonce == if lo < hi then b.vnonce[a := hi] else b.vnonce
    ensures taken == map[] ==> b'.vnonce == b.vnonce
  {
    assert lo < hi ==> lo in taken;
    BelowAll(taken, lo, hi);
    hide Interval;
    hide Below;
    SetIs(Trimmed(b, a, q).queue, a, q - taken.Keys);
    SetIs(b3.queue, a, kept);
    SetIs(Trimmed(b3, a, kept).queue, a, kept);
    TrimmedLess(b, a, q);
    TrimmedLess(b3, a, kept);
    SameLists(Trimmed(b3, a, kept), b');
  }

  lemma BelowAll(m: Items, lo: nat, hi: nat)
    requires Interval(m, lo, hi)
    ensures Below(m, hi) == m
  {
  }

  lemma TrimmedLess(b: Book, a: nat, kept: Items)
    ensures Trimmed(b, a, kept).all <= b.all && Trimmed(b, a, kept).pending == b.pending
      && Trimmed(b, a, kept).vnonce == b.vnonce
    ensures Only(b.queue, Trimmed(b, a, kept).queue, a)
  {
  }

  lemma SameLists(b: Book, b': Book)
    requires b.Sound({}) && b'.all == b.all
    requires forall a :: Of(b'.pending, a) == Of(b.pending, a) && Of(b'.queue, a) == Of(b.queue, a)
    ensures b'.Sound({})
  {
    forall a ensures SoundAt(a, Of(b'.pending, a), Of(b'.queue, a), b'.all, {}) {
      assert SoundAt(a, Of(b.pending, a), Of(b.queue, a), b.all, {});
    }
  }

  /** Drop the queued transactions of account a that are not kept. */
  method Trim(pool: Pool, a: nat, kept: Items)
    requires pool.Priced({}) && Droppable(pool.book, Of(pool.book.queue, a) - kept.Keys)
    modifies pool`book, pool`log, pool.priced
    ensures pool.Priced({}) && pool.book == Trimmed(old(pool.book), a, kept) && pool.log == old(pool.log)
  {
    var list := Of(pool.book.queue, a);
    pool.book := pool.book.(queue := pool.book.queue[a := kept]);
    pool.DropAll(list - kept.Keys);
  }

  lemma NothingQueued(b: Book, chain: Chain, a: nat, local: bool, limit: nat)
    requires b.Sound({}) && Of(b.queue, a) == map[]
    ensures AccountPromoted(b, b, chain, a) && TookReady(b, b, chain, a, local, limit)
    ensures |Of(b.queue, a)| <= limit
  {
    NothingTaken(b, chain, a, local, limit);
    hide TookReady;
    hide AllSound;
    forall dirty | b.Gapless(chain, dirty) ensures b.Gapless(chain, dirty - {a}) {
      assert GaplessAt(Of(b.pending, a), chain.nonce(a), Virtual(chain, b.vnonce, a));
      CleanGapless(b, b, chain, dirty, a);
    }
  }

  lemma NothingTaken(b: Book, chain: Chain, a: nat, local: bool, limit: nat)
    requires Of(b.queue, a) == map[]
    ensures TookReady(b, b, chain, a, local, limit)
  {
    var none: Items := map[];
    assert Of(b.pending, a) + none == Of(b.pending, a);
    assert Usable(chain, a, none) == none && none - none.Keys == none && Rest(none, local, limit) == none;
    hide Usable;
    hide Rest;
    assert Took(b, b, chain, a, local, limit, none);
  }
}
