/**
 txList of tx_list.go: the transactions of one account, strict (no gaps allowed)
 for the pending list and loose for the queue, with caps on cost and gas that let
 Filter skip its scan.
 */
module TxList {
  import opened TxListSpec
  import opened TxSortedMap

  /** The price rule for replacing a transaction with the same nonce. */
  predicate Outbids(was: Tx, tx: Tx, priceBump: nat) {
    was.price < tx.price && was.price * (100 + priceBump) / 100 <= tx.price
  }

  /** What a strict list loses along with nonce n. */
  function After(m: Items, n: nat): Items { map k | k in m && k > n :: m[k] }

  function NonceAbove(n: nat): Tx -> bool { (tx: Tx) => tx.nonce > n }

  function CannotPay(costLimit: nat, gasLimit: nat): Tx -> bool { (tx: Tx) => Unpayable(tx, costLimit, gasLimit) }

  class List {
    const strict: bool
    const txs: SortedMap
    var costcap: nat
    var gascap: nat

    /** The caps bound every transaction in the list. */
    ghost predicate Valid()
      reads this, txs
    {
      txs.Valid() && forall n :: n in txs.items ==> txs.items[n].cost <= costcap && txs.items[n].gas <= gascap
    }

    constructor (strict: bool)
      ensures Valid() && this.strict == strict && fresh(txs) && txs.items == map[] && costcap == 0 && gascap == 0
    {
      this.strict := strict;
      txs := new SortedMap();
      costcap, gascap := 0, 0;
    }

    method Add(tx: Tx, priceBump: nat) returns (inserted: bool, replaced: Option<Tx>)
      requires Valid()
      modifies this, txs
      ensures Valid()
      ensures inserted == (tx.nonce in old(txs.items) ==> Outbids(old(txs.items)[tx.nonce], tx, priceBump))
      ensures txs.items == if inserted then old(txs.items)[tx.nonce := tx] else old(txs.items)
      ensures replaced == if inserted && tx.nonce in old(txs.items) then Some(old(txs.items)[tx.nonce]) else None
    {
      replaced := None;
      if tx.nonce in txs.items {
        var was := txs.items[tx.nonce];
        var threshold := was.price * (100 + priceBump) / 100;
        if was.price >= tx.price || threshold > tx.price { return false, None; }
        replaced := Some(was);
      }
      txs.Put(tx);
      if costcap < tx.cost { costcap := tx.cost; }
      if gascap < tx.gas { gascap := tx.gas; }
      inserted := true;
    }

    /** Whatever the caps allow Filter to skip, it keeps and returns what a full scan would. */
    method Filter(costLimit: nat, gasLimit: nat) returns (removed: seq<Tx>, invalids: seq<Tx>)
      requires Valid()
      modifies this, txs
      ensures Valid()
      ensures txs.items == if strict then StrictKept(old(txs.items), costLimit, gasLimit)
        else LooseKept(old(txs.items), costLimit, gasLimit)
      ensures Lists(removed, Unpaid(old(txs.items), costLimit, gasLimit))
      ensures Lists(invalids, if strict then Invalidated(old(txs.items), costLimit, gasLimit) else map[])
    {
      ghost var m := txs.items;
      if costcap <= costLimit && gascap <= gasLimit {
        NothingUnpaid(m, costLimit, gasLimit);
        return [], [];
      }
      costcap, gascap := costLimit, gasLimit;
      removed := txs.Filter(CannotPay(costLimit, gasLimit));
      FirstPass(m, costLimit, gasLimit);
      invalids := [];
      if strict && |removed| > 0 {
        var lowest := LowestNonce(removed);
        LowestUnpaid(m, costLimit, gasLimit, removed, lowest);
        invalids := txs.Filter(NonceAbove(lowest));
        SecondPass(m, costLimit, gasLimit, lowest);
      } else if strict {
        ListsLength(removed, Unpaid(m, costLimit, gasLimit));
        AllPayable(m, costLimit, gasLimit);
      }
    }

    method Remove(tx: Tx) returns (found: bool, invalids: seq<Tx>)
      requires Valid()
      modifies txs
      ensures Valid() && found == (tx.nonce in old(txs.items))
      ensures txs.items == if found && strict then Below(old(txs.items), tx.nonce) else old(txs.items) - {tx.nonce}
      ensures Lists(invalids, if found && strict then After(old(txs.items), tx.nonce) else map[])
    {
      ghost var m := txs.items;
      var nonce := tx.nonce;
      found := txs.Remove(nonce);
      invalids := [];
      if found && strict {
        invalids := txs.Filter(NonceAbove(nonce));
        RemovePass(m, nonce);
      }
    }

    method Forward(threshold: nat) returns (removed: seq<Tx>)
      requires Valid()
      modifies txs
      ensures Valid() && txs.items == From(old(txs.items), threshold)
        && SortedOf(removed, Below(old(txs.items), threshold))
    {
      removed := txs.Forward(threshold);
    }

    method Cap(threshold: nat) returns (drops: seq<Tx>)
      requires Valid()
      modifies txs
      ensures Valid() && txs.items == CapKept(old(txs.items), threshold)
        && Lists(drops, CapDropped(old(txs.items), threshold))
    {
      drops := txs.Cap(threshold);
    }
  }

  method LowestNonce(txs: seq<Tx>) returns (lowest: nat)
    requires |txs| > 0
    ensures exists j :: 0 <= j < |txs| && txs[j].nonce == lowest
    ensures forall j :: 0 <= j < |txs| ==> lowest <= txs[j].nonce
  {
    lowest := txs[0].nonce;
    var i := 1;
    while i < |txs|
      invariant 1 <= i <= |txs|
      invariant exists j :: 0 <= j < i && txs[j].nonce == lowest
      invariant forall j :: 0 <= j < i ==> lowest <= txs[j].nonce
    {
      if lowest > txs[i].nonce { lowest := txs[i].nonce; }
      i := i + 1;
    }
  }

  lemma RemovePass(m: Items, nonce: nat)
    requires Filed(m)
    ensures Chosen(m - {nonce}, NonceAbove(nonce), {}) == After(m, nonce)
    ensures Unchosen(m - {nonce}, NonceAbove(nonce), {}) == Below(m, nonce)
  {
  }

  lemma NothingUnpaid(m: Items, costLimit: nat, gasLimit: nat)
    requires forall n :: n in m ==> !Unpayable(m[n], costLimit, gasLimit)
    ensures StrictKept(m, costLimit, gasLimit) == m && LooseKept(m, costLimit, gasLimit) == m
    ensures Unpaid(m, costLimit, gasLimit) == map[] && Invalidated(m, costLimit, gasLimit) == map[]
  {
  }

  lemma AllPayable(m: Items, costLimit: nat, gasLimit: nat)
    requires |Unpaid(m, costLimit, gasLimit)| == 0
    ensures StrictKept(m, costLimit, gasLimit) == m == LooseKept(m, costLimit, gasLimit)
    ensures Invalidated(m, costLimit, gasLimit) == map[]
  {
    assert Unpaid(m, costLimit, gasLimit).Keys == {};
    forall n | n in m ensures !Unpayable(m[n], costLimit, gasLimit) { assert n !in Unpaid(m, costLimit, gasLimit); }
    NothingUnpaid(m, costLimit, gasLimit);
  }

  lemma FirstPass(m: Items, costLimit: nat, gasLimit: nat)
    ensures Chosen(m, CannotPay(costLimit, gasLimit), {}) == Unpaid(m, costLimit, gasLimit)
    ensures Unchosen(m, CannotPay(costLimit, gasLimit), {}) == LooseKept(m, costLimit, gasLimit)
  {
  }

  /** The least unpayable nonce, from a listing of the unpayable ones. */
  lemma LowestUnpaid(m: Items, costLimit: nat, gasLimit: nat, removed: seq<Tx>, lowest: nat)
    requires Filed(m) && Lists(removed, Unpaid(m, costLimit, gasLimit))
    requires exists j :: 0 <= j < |removed| && removed[j].nonce == lowest
    requires forall j :: 0 <= j < |removed| ==> lowest <= removed[j].nonce
    ensures lowest in m && Unpayable(m[lowest], costLimit, gasLimit)
    ensures forall n :: n in m && Unpayable(m[n], costLimit, gasLimit) ==> lowest <= n
  {
    forall n | n in m && Unpayable(m[n], costLimit, gasLimit) ensures lowest <= n {
      assert Unpaid(m, costLimit, gasLimit)[n] in removed;
    }
  }

  lemma SecondPass(m: Items, costLimit: nat, gasLimit: nat, lowest: nat)
    requires Filed(m) && lowest in m && Unpayable(m[lowest], costLimit, gasLimit)
    requires forall n :: n in m && Unpayable(m[n], costLimit, gasLimit) ==> lowest <= n
    ensures Chosen(LooseKept(m, costLimit, gasLimit), NonceAbove(lowest), {}) == Invalidated(m, costLimit, gasLimit)
    ensures Unchosen(LooseKept(m, costLimit, gasLimit), NonceAbove(lowest), {}) == StrictKept(m, costLimit, gasLimit)
  {
  }
}
