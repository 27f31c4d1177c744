/**
 Whole runs of the pool: what holds over every sequence of additions, price changes,
 evictions and head changes, and two runs from an empty pool in which a head change
 leaves the pending nonces out of order.
 */
module TxPoolTrace {
  import opened TxListSpec
  import opened TxPoolSpec
  import opened TxPool
  import opened TxPriced
  import opened TxPoolPromote
  import opened TxPoolFair
  import opened TxPoolQueue
  import opened TxPoolMend
  import opened TxPoolRun
  import opened TxPoolMerge
  import opened TxPoolReset

  datatype Op =
    | AddOp(txs: seq<Tx>, local: bool)
    | PriceOp(price: nat)
    | EvictOp(idle: set<nat>)
    | HeadOp(chain: Chain, reinject: seq<Tx>)

  /** One operation of the pool. */
  ghost predicate Steps(s: View, s': View, config: Config, op: Op) {
    s'.book.Sound({}) &&
    match op
    case AddOp(txs, local) => AddsTxs(s, s', config, txs, local) && Follows(s.book, s'.book, s.chain, {}, {})
      && s'.chain == s.chain
    case PriceOp(price) =>
      && s' == s.(book := s'.book, gasPrice := price) && Follows(s.book, s'.book, s.chain, {}, {})
      && Without(s.book, s'.book, s.chain, Cheap(s.book.all, s.locals, price))
    case EvictOp(idle) =>
      && s' == s.(book := s'.book) && Follows(s.book, s'.book, s.chain, {}, {})
      && Evicted(s.book, s'.book, s.locals, idle)
    case HeadOp(chain, reinject) => Resets(s, s', config, chain, reinject) && s'.chain == chain
  }

  /** A change of the head meets a condition under which order is kept. */
  ghost predicate InOrder(s: View, config: Config, op: Op) {
    op.HeadOp? ==>
      || Orderly(s, config, op.chain, op.reinject)
      || (Fits(s, config, op.chain, op.reinject) && NoGaps(s, config, op.chain, op.reinject))
  }

  lemma StepInOrder(s: View, s': View, config: Config, op: Op)
    requires s.book.Sound({}) && s.book.Gapless(s.chain, {}) && Steps(s, s', config, op) && InOrder(s, config, op)
    ensures s'.book.Gapless(s'.chain, {})
  {
    hide AllSound;
    hide AllGapless;
    hide AddsTxs;
    hide Without;
    hide Evicted;
    hide Resets;
    hide Orderly;
    hide Fits;
    hide NoGaps;
    if op.HeadOp? {
      ResetInOrder(s, s', config, op.chain, op.reinject);
    } else {
      StepFollows(s.book, s'.book, s.chain);
    }
  }

  lemma StepFollows(b: Book, b': Book, chain: Chain)
    requires Follows(b, b', chain, {}, {})
    ensures b.Gapless(chain, {}) ==> b'.Gapless(chain, {})
  {
    var none: set<nat> := {};
    assert none + {} - {} == none;
  }

  /** The transactions that an operation offers to the pool. */
  function Offers(op: Op): seq<Tx> {
    match op
    case AddOp(txs, local) => txs
    case HeadOp(chain, reinject) => reinject
    case _ => []
  }

  function Offered(ops: seq<Op>): seq<Tx> {
    if ops == [] then [] else Offered(ops[..|ops| - 1]) + Offers(ops[|ops| - 1])
  }

  lemma AddsGrow(s: View, s': View, config: Config, txs: seq<Tx>, local: bool)
    requires AddsTxs(s, s', config, txs, local) && DistinctTxs(txs)
    ensures Grown(s.log, s'.log, Elements(txs))
  {
    hide PromotesAll;
    hide Batch;
    var mid: View, dirty: set<nat> :| Batch(s, mid, config, txs, local, dirty) && ThenPromotes(mid, s', config, dirty);
    BatchGrows(s, mid, config, txs, local, dirty);
  }

  lemma StepGrows(s: View, s': View, config: Config, op: Op)
    requires Steps(s, s', config, op) && DistinctTxs(Offers(op))
    ensures Grown(s.log, s'.log, Elements(Offers(op)))
  {
    hide AllSound;
    hide Follows;
    hide AddsTxs;
    hide Without;
    hide Evicted;
    hide AllDemoted;
    hide PromotesAll;
    match op
    case AddOp(txs, local) => AddsGrow(s, s', config, txs, local);
    case HeadOp(chain, reinject) =>
      var m: View, d: Book, r: Book :| ResetBy(s, m, d, r, s', config, chain, reinject);
      AddsGrow(Rebased(s, chain), m, config, reinject, false);
    case _ =>
  }

  // -------------------------------------------------------------------- runs

  /** The pool before, between and after the operations of a run. */
  ghost predicate IsRun(trace: seq<View>, config: Config, ops: seq<Op>) {
    && |trace| == |ops| + 1 && trace[0].book.Sound({})
    && forall i {:trigger ops[i]} :: 0 <= i < |ops| ==> Steps(trace[i], trace[i + 1], config, ops[i])
  }

  /** Over every run the lookup table is the disjoint union of the lists. */
  lemma RunSound(trace: seq<View>, config: Config, ops: seq<Op>, i: nat)
    requires IsRun(trace, config, ops) && i <= |ops|
    ensures trace[i].book.Sound({})
  {
    if i > 0 { assert Steps(trace[i - 1], trace[i], config, ops[i - 1]); }
  }

  /**
   Over every run whose changes of the head are in order when they happen, pending nonces always
   reach from state to virtual nonce, and nothing is queued there.
   */
  lemma {:induction false} RunInOrder(trace: seq<View>, config: Config, ops: seq<Op>, i: nat)
    requires IsRun(trace, config, ops) && i <= |ops| && trace[0].book.Gapless(trace[0].chain, {})
    requires forall k {:trigger ops[k]} :: 0 <= k < i ==> InOrder(trace[k], config, ops[k])
    ensures trace[i].book.Gapless(trace[i].chain, {})
  {
    hide Steps;
    hide InOrder;
    hide AllSound;
    hide AllGapless;
    if i > 0 {
      RunInOrder(trace, config, ops, i - 1);
      RunSound(trace, config, ops, i - 1);
      assert InOrder(trace[i - 1], config, ops[i - 1]) && Steps(trace[i - 1], trace[i], config, ops[i - 1]);
      StepInOrder(trace[i - 1], trace[i], config, ops[i - 1]);
    }
  }

  /**
   Over every run that offers no transaction twice, nor one that was on the price heap before, the heap stays
   exact.
   */
  lemma {:induction false} RunExact(trace: seq<View>, config: Config, ops: seq<Op>)
    requires IsRun(trace, config, ops) && DistinctTxs(Offered(ops))
    ensures Grown(trace[0].log, trace[|ops|].log, Elements(Offered(ops)))
    decreases |ops|
  {
    hide Steps;
    hide AllSound;
    if ops != [] {
      var k := |ops| - 1;
      var before, last := Offered(ops[..k]), Offers(ops[k]);
      OfferedParts(before, last);
      assert IsRun(trace[..k + 1], config, ops[..k]) by {
        forall i | 0 <= i < k ensures Steps(trace[i], trace[i + 1], config, ops[..k][i]) {
          assert ops[..k][i] == ops[i];
        }
      }
      RunExact(trace[..k + 1], config, ops[..k]);
      StepGrows(trace[k], trace[k + 1], config, ops[k]);
    }
  }

  lemma OfferedParts(before: seq<Tx>, last: seq<Tx>)
    requires DistinctTxs(before + last)
    ensures DistinctTxs(before) && DistinctTxs(last) && Elements(before) !! Elements(last)
    ensures Elements(before + last) == Elements(before) + Elements(last)
  {
    var all := before + last;
    forall i, j | 0 <= i < j < |before| ensures before[i] != before[j] { assert all[i] != all[j]; }
    forall i, j | 0 <= i < j < |last| ensures last[i] != last[j] { assert all[|before| + i] != all[|before| + j]; }
    forall i, j | 0 <= i < |before| && 0 <= j < |last| ensures before[i] != last[j] {
      assert all[i] != all[|before| + j];
    }
  }

  method Step(pool: Pool, op: Op)
    requires pool.Valid()
    modifies pool, pool.priced
    ensures pool.Valid() && Steps(old(pool.Now()), pool.Now(), pool.config, op)
  {
    hide AllSound;
    hide Pool.Tracks;
    hide Follows;
    hide AddsTxs;
    hide Without;
    hide Evicted;
    hide Resets;
    ghost var s := pool.Now();
    match op {
      case AddOp(txs, local) => AddTxs(pool, txs, local);
      case PriceOp(price) => SetGasPrice(pool, price);
      case EvictOp(idle) => Evict(pool, idle);
      case HeadOp(chain, reinject) => Reset(pool, chain, reinject);
    }
  }

  /** Every run of the pool is one of which these lemmas speak. */
  method Run(pool: Pool, ops: seq<Op>) returns (ghost trace: seq<View>)
    requires pool.Valid()
    modifies pool, pool.priced
    ensures pool.Valid() && IsRun(trace, pool.config, ops) && trace[0] == old(pool.Now()) && trace[|ops|] == pool.Now()
  {
    hide AllSound;
    hide Pool.Tracks;
    hide Steps;
    trace := [pool.Now()];
    var i := 0;
    while i < |ops|
      invariant 0 <= i <= |ops| && pool.Valid() && |trace| == i + 1
      invariant trace[0] == old(pool.Now()) && trace[i] == pool.Now()
      invariant forall k {:trigger ops[k]} :: 0 <= k < i ==> Steps(trace[k], trace[k + 1], pool.config, ops[k])
    {
      Step(pool, ops[i]);
      trace := trace + [pool.Now()];
      i := i + 1;
    }
  }
}
