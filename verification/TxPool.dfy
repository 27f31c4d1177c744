/**
 The transaction pool of tx_pool.go. Locks, the journal, metrics, logging and the
 event feed are left away; map iteration orders and heartbeats are arbitrary.
 */
module TxPool {
  import opened TxListSpec
  import opened TxPoolSpec
  import opened TxPriced
  import TxList
  import Heap

  datatype Config = Config(priceBump: nat, accountSlots: nat, globalSlots: nat, accountQueue: nat, globalQueue: nat) {
    /** The number of transactions from which the pool is full. */
    ghost function Limit(): nat { globalSlots + globalQueue }
  }

  /** What was ever put on the price heap, and whether nothing was put there while a stale copy of it was there. */
  datatype Log = Log(put: set<Tx>, exact: bool)

  /** A new transaction was put on the heap. */
  ghost predicate Logged(log: Log, log': Log, items: seq<Tx>, tx: Tx) {
    && log'.put == log.put + {tx} && (log'.exact ==> log.exact)
    && (log.exact && tx !in items ==> log'.exact)
  }

  /** New transactions went on the heap; if none of them had ever been there before, nothing is there twice. */
  ghost predicate Grown(log: Log, log': Log, txs: set<Tx>) {
    log'.put <= log.put + txs && (log'.exact ==> log.exact) && (log.exact && log.put !! txs ==> log'.exact)
  }

  /** The pool as seen between its operations. */
  datatype View = View(book: Book, chain: Chain, locals: set<nat>, gasPrice: nat, log: Log)

  class Pool {
    const config: Config
    const priced: PricedList
    var chain: Chain
    var locals: set<nat>
    var gasPrice: nat
    var book: Book
    ghost var log: Log

    /**
     The price heap holds every pooled transaction, but for those in gone. As long as nothing was put there
     while a stale copy of it was there, it holds them once each, and the number of other entries is known.
     */
    ghost predicate Priced(gone: set<Tx>)
      reads this`book, this`log, priced
    {
      Tracks(book.all - gone)
    }

    ghost predicate Tracks(all: set<Tx>)
      reads this`log, priced
    {
      && priced.Valid() && Covers(priced.items, all)
      && (forall tx :: tx in priced.items ==> tx in log.put)
      && (log.exact ==> priced.Exact(all))
    }

    ghost predicate Valid()
      reads this`book, this`log, priced
    {
      Priced({}) && book.Sound({})
    }

    ghost function Now(): View
      reads this
    {
      View(book, chain, locals, gasPrice, log)
    }

    constructor (config: Config, chain: Chain, gasPrice: nat)
      ensures Valid() && book.Gapless(chain, {}) && this.config == config && fresh(priced)
      ensures this.chain == chain && this.gasPrice == gasPrice && locals == {}
      ensures book == Book(map[], map[], {}, map[]) && log == Log({}, true)
    {
      this.config, this.chain, this.gasPrice := config, chain, gasPrice;
      priced := new PricedList();
      locals, book, log := {}, Book(map[], map[], {}, map[]), Log({}, true);
    }

    // ------------------------------------------------- entering and leaving lists

    /** A new transaction goes into the lookup table and on the price heap. */
    method Record(tx: Tx, ghost gone: set<Tx>)
      requires Priced(gone) && tx !in book.all && tx !in gone
      modifies this`book, this`log, priced
      ensures Priced(gone) && Logged(old(log), log, old(priced.items), tx)
      ensures book == old(book).(all := old(book).all + {tx})
    {
      book := book.(all := book.all + {tx});
      log := Log(log.put + {tx}, log.exact && tx !in priced.items);
      assert book.all - gone - {tx} == old(book).all - gone;
      priced.Put(tx, book.all - gone);
    }

    /** A transaction leaves the lookup table, and the price heap is told. */
    method Forget(tx: Tx)
      requires Priced({}) && tx in book.all
      modifies this`book, this`log, priced
      ensures Priced({}) && log == old(log) && Within(priced.items, old(priced.items))
      ensures book == old(book).(all := old(book).all - {tx})
    {
      book := book.(all := book.all - {tx});
      assert old(book).all == book.all + {tx} && old(book).all - {} == old(book).all && book.all - {} == book.all;
      priced.Removed(book.all);
    }

    lemma HeapWasPut(gone: set<Tx>)
      requires Priced(gone)
      ensures forall tx :: tx in priced.items ==> tx in log.put
    {
    }

    /** For a remote transaction and a pool that is not empty: no pooled transaction is cheaper. */
    method Underpriced(tx: Tx) returns (r: bool)
      requires Priced({})
      modifies priced
      ensures Priced({}) && Within(priced.items, old(priced.items))
      ensures r <==> Remote(tx, locals) && book.all != {} && forall t :: t in book.all ==> t.price >= tx.price
    {
      assert book.all - {} == book.all;
      r := priced.Underpriced(tx, book.all, locals);
    }

    /** enqueueTx. The heap must be complete if this call is going to touch it. */
    method EnqueueTx(tx: Tx, ghost gone: set<Tx>) returns (replaced: bool, ok: bool)
      requires Priced(gone)
      requires gone == {} || (tx in book.all && tx.nonce !in Of(book.queue, tx.sender))
      requires tx.nonce in Of(book.queue, tx.sender) ==>
        tx !in book.all && Of(book.queue, tx.sender)[tx.nonce] in book.all
      requires tx !in gone || tx in book.all
      modifies this`book, this`log, priced
      ensures Priced(gone)
      ensures if ok && tx !in old(book).all then Logged(old(log), log, old(priced.items), tx) else log == old(log)
      ensures !(ok && tx !in old(book).all) ==> Within(priced.items, old(priced.items))
      ensures ok == Accepts(old(book).queue, tx.sender, tx, config.priceBump)
      ensures replaced == (ok && tx.nonce in Of(old(book).queue, tx.sender))
      ensures book == if ok then Enqueued(old(book), tx) else old(book)
    {
      var b := book;
      var list := Of(b.queue, tx.sender);
      replaced := tx.nonce in list;
      if replaced && !TxList.Outbids(list[tx.nonce], tx, config.priceBump) { return false, false; }
      book := book.(queue := Put(b.queue, tx.sender, tx));
      if replaced { Forget(list[tx.nonce]); }
      if tx !in book.all { Record(tx, gone); }
      ok := true;
      assert book.all == Enqueued(b, tx).all;
    }

    /** promoteTx. */
    method PromoteTx(a: nat, tx: Tx) returns (ok: bool)
      requires Priced({}) && (tx in book.all || Accepts(book.pending, a, tx, config.priceBump))
      requires tx.nonce in Of(book.pending, a) ==>
        Of(book.pending, a)[tx.nonce] != tx && Of(book.pending, a)[tx.nonce] in book.all
      modifies this`book, this`log, priced
      ensures Priced({})
      ensures if ok && tx !in old(book).all then Logged(old(log), log, old(priced.items), tx) else log == old(log)
      ensures ok == Accepts(old(book).pending, a, tx, config.priceBump)
      ensures book == if ok then Promoted(old(book), a, tx) else old(book).(all := old(book).all - {tx})
    {
      hide Tracks;
      var b := book;
      var list := Of(b.pending, a);
      if tx.nonce in list && !TxList.Outbids(list[tx.nonce], tx, config.priceBump) {
        Forget(tx);
        return false;
      }
      if tx.nonce in list { Forget(list[tx.nonce]); }
      book := book.(pending := Put(b.pending, a, tx));
      if tx !in book.all { Record(tx, {}); }
      book := book.(vnonce := book.vnonce[a := tx.nonce + 1]);
      ok := true;
      assert book.all == Promoted(b, a, tx).all;
    }

    /** Requeue transactions that have left the pending list; it never fails. */
    method RequeueAll(a: nat, items: Items, ghost gone: set<Tx>)
      requires Priced(gone) && book.Sound(Values(items)) && FiledFor(a, items)
      modifies this`book, this`log, priced
      ensures Priced(gone) && book.Sound({}) && Requeued(old(book), book, a, items)
      ensures log == old(log) && Within(priced.items, old(priced.items))
    {
      var todo := items.Keys;
      ghost var b := book;
      RequeueStart(b, a, items);
      while todo != {}
        invariant Priced(gone) && todo <= items.Keys && book.Sound(Values(Part(items, todo)))
        invariant log == old(log) && Within(priced.items, old(priced.items))
        invariant Requeued(b, book, a, Part(items, items.Keys - todo))
        decreases todo
      {
        var n :| n in todo;
        RequeueNext(b, book, a, items, todo, n);
        var replaced, ok := EnqueueTx(items[n], gone);
        todo := todo - {n};
      }
      PartAll(items);
    }

    /** Delete transactions from the lookup table, telling the price heap each time. */
    method DropAll(items: Items)
      requires Priced({}) && Values(items) <= book.all && Filed(items)
      modifies this`book, this`log, priced
      ensures Priced({}) && book == old(book).(all := old(book).all - Values(items)) && log == old(log)
    {
      var todo := items.Keys;
      ghost var b := book;
      assert items.Keys - todo == {} && Values(Part(items, {})) == {};
      while todo != {}
        invariant Priced({}) && todo <= items.Keys && log == old(log)
        invariant book == b.(all := b.all - Values(Part(items, items.Keys - todo)))
        decreases todo
      {
        var n :| n in todo;
        PartNext(items, todo, n);
        PartOther(items, items.Keys - todo, n);
        assert items[n] in Values(items);
        Forget(items[n]);
        todo := todo - {n};
        assert book.all == b.all - Values(Part(items, items.Keys - todo));
      }
      PartAll(items);
    }

    /** removeTx: exactly the named transaction leaves, whichever list it is in. */
    method RemoveTx(tx: Tx, outofbound: bool, ghost gone: set<Tx>)
      requires Priced(gone) && book.Sound({})
      requires if outofbound then gone == {} else tx in book.all ==> tx in gone
      modifies this`book, this`log, priced
      ensures Priced(gone) && RemovedFrom(old(book), book, chain, tx)
      ensures log == old(log) && Within(priced.items, old(priced.items))
      ensures tx in old(book).all && tx.nonce !in Of(old(book).pending, tx.sender) ==> book == Unqueued(old(book), tx)
    {
      hide AllSound;
      hide Tracks;
      hide Without;
      hide RemovedFrom;
      if tx !in book.all {
        assert book.all - {tx} == book.all;
        RemovedUnknown(book, chain, tx);
        return;
      }
      ghost var b := book;
      var a := tx.sender;
      if outofbound {
        Forget(tx);
      } else {
        book := book.(all := book.all - {tx});
        assert book.all - gone == b.all - gone;
      }
      var list := Of(book.pending, a);
      if tx.nonce in list {
        CutSound(b, tx);
        book := book.(pending := SetOrDelete(book.pending, a, Below(list, tx.nonce)));
        RequeueAll(a, From(list, tx.nonce + 1), gone);
        CutGapless(b, book, chain, tx);
        if Virtual(chain, book.vnonce, a) > tx.nonce {
          book := book.(vnonce := book.vnonce[a := tx.nonce]);
        }
      } else {
        UnqueuedRemoves(b, chain, tx);
        book := book.(queue := SetOrDelete(book.queue, a, Of(book.queue, a) - {tx.nonce}));
      }
    }
  }
}
