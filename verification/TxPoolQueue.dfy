/**
 The queue limit of promoteExecutables: when too many transactions are queued, remote
 accounts lose theirs, whole lists first and the highest nonces of the last one.
 */
module TxPoolQueue {
  import opened TxListSpec
  import opened TxPoolSpec
  import opened TxPool
  import opened TxPriced
  import opened TxPoolFair

  // ---------------------------------------------------------------- on values

  /** Queued transactions of account a were removed. */
  ghost predicate Shortened(b: Book, b': Book, chain: Chain, a: nat, left: Items) {
    && b'.Sound({}) && b'.all <= b.all && b'.pending == b.pending && b'.vnonce == b.vnonce
    && Only(b.queue, b'.queue, a) && Of(b'.queue, a) == left && b.queue.Keys - {a} <= b'.queue.Keys <= b.queue.Keys
    && forall dirty :: b.Gapless(chain, dirty) ==> b'.Gapless(chain, dirty)
  }

  lemma ShortenedNone(b: Book, chain: Chain, a: nat)
    requires b.Sound({})
    ensures Shortened(b, b, chain, a, Of(b.queue, a))
  {
  }

  lemma ShortenedNext(b: Book, b1: Book, chain: Chain, a: nat, left: Items, tx: Tx)
    requires Shortened(b, b1, chain, a, left) && tx.sender == a && Holds(left, tx)
    ensures tx in b1.all && tx.nonce !in Of(b1.pending, a)
    ensures RemovedFrom(b1, Unqueued(b1, tx), chain, tx) ==> Shortened(b, Unqueued(b1, tx), chain, a, left - {tx.nonce})
  {
    assert SoundAt(a, Of(b1.pending, a), Of(b1.queue, a), b1.all, {});
    assert Holds(Of(b1.queue, a), tx);
    SetIs(b1.queue, a, left - {tx.nonce});
  }

  /** removeTx for a choice of one account's queued transactions. */
  method RemoveMany(pool: Pool, a: nat, victims: set<nat>)
    requires pool.Valid() && victims <= Of(pool.book.queue, a).Keys
    modifies pool`book, pool`log, pool.priced
    ensures pool.Valid() && Shortened(old(pool.book), pool.book, pool.chain, a, Of(old(pool.book).queue, a) - victims)
    ensures pool.log == old(pool.log)
  {
    hide AllSound;
    hide Pool.Tracks;
    hide Shortened;
    hide RemovedFrom;
    ghost var b := pool.book;
    var list := Of(pool.book.queue, a);
    var todo := victims;
    ShortenedNone(b, pool.chain, a);
    assert list - (victims - todo) == list;
    while todo != {}
      invariant pool.Valid() && todo <= victims && pool.log == old(pool.log)
      invariant Shortened(b, pool.book, pool.chain, a, list - (victims - todo))
      decreases todo
    {
      var n :| n in todo;
      ghost var b1 := pool.book;
      Listed(b, a, n);
      ShortenedNext(b, b1, pool.chain, a, list - (victims - todo), list[n]);
      pool.RemoveTx(list[n], true, {});
      RemovedSound(b1, pool.book, pool.chain, list[n]);
      assert list - (victims - todo) - {n} == list - (victims - (todo - {n}));
      todo := todo - {n};
    }
    assert victims - {} == victims;
  }

  lemma Listed(b: Book, a: nat, n: nat)
    requires b.Sound({}) && n in Of(b.queue, a)
    ensures Of(b.queue, a)[n].sender == a && Of(b.queue, a)[n].nonce == n
  {
    assert SoundAt(a, Of(b.pending, a), Of(b.queue, a), b.all, {});
  }

  lemma RemovedSound(b: Book, b': Book, chain: Chain, tx: Tx)
    requires RemovedFrom(b, b', chain, tx)
    ensures b'.Sound({})
  {
  }

  // ------------------------------------------------------------------ counting

  /** Keys without a list add nothing to a sum. */
  lemma {:induction false} SumMore(m: ListMap, keys: set<nat>)
    requires m.Keys <= keys
    ensures Sum(keys, Sizes(m)) == Total(m)
    decreases |keys|
  {
    if keys != m.Keys {
      var a :| a in keys && a !in m.Keys;
      SumPull(keys, Sizes(m), a);
      SumMore(m, keys - {a});
    }
  }

  lemma TotalAfter(m: ListMap, m': ListMap, a: nat)
    requires Only(m, m', a) && m'.Keys <= m.Keys && a in m
    ensures Total(m') == Total(m) - |Of(m, a)| + |Of(m', a)|
  {
    SumMore(m', m.Keys);
    SumPull(m.Keys, Sizes(m'), a);
    SumPull(m.Keys, Sizes(m), a);
    SumEquals(m.Keys - {a}, Sizes(m), Sizes(m'));
  }

  /** The queued transactions of remote accounts. */
  ghost function RemoteTotal(m: ListMap, locals: set<nat>): nat { Sum(m.Keys - locals, Sizes(m)) }

  lemma CapDroppedSize(m: Items, k: nat)
    requires k <= |m|
    ensures |m - CapDropped(m, k).Keys| == k && m - CapDropped(m, k).Keys == CapKept(m, k)
  {
    CapSize(m, k);
    assert m - CapDropped(m, k).Keys == CapKept(m, k);
  }

  /** Queued transactions were removed, and what the pool keeps was kept. */
  ghost predicate Truncated(b: Book, b': Book, chain: Chain) {
    && b'.Sound({}) && b'.all <= b.all && b'.pending == b.pending && b'.vnonce == b.vnonce
    && forall dirty :: b.Gapless(chain, dirty) ==> b'.Gapless(chain, dirty)
  }

  lemma TruncatedNone(b: Book, chain: Chain)
    requires b.Sound({})
    ensures Truncated(b, b, chain)
  {
  }

  lemma TruncatedNext(b: Book, b1: Book, b2: Book, chain: Chain, a: nat, left: Items)
    requires Truncated(b, b1, chain) && Shortened(b1, b2, chain, a, left)
    ensures Truncated(b, b2, chain)
  {
  }

  /** Accounts in todo have not been touched, the rest of the remote ones have nothing left, and the sums fit. */
  ghost predicate Draining(q: ListMap, cur: ListMap, locals: set<nat>, todo: set<nat>, excess: nat, drop: nat) {
    && todo <= q.Keys - locals && todo <= cur.Keys <= q.Keys && drop <= excess
    && (forall a :: a in todo || a in locals ==> Of(cur, a) == Of(q, a))
    && Total(cur) == Total(q) - (excess - drop)
    && (drop > 0 ==> Sum(todo, Sizes(q)) == RemoteTotal(q, locals) - (excess - drop))
    && excess - drop <= RemoteTotal(q, locals)
  }

  lemma DrainStart(q: ListMap, locals: set<nat>, excess: nat)
    ensures Draining(q, q, locals, q.Keys - locals, excess, excess)
  {
  }

  lemma DrainNext(q: ListMap, cur: ListMap, cur': ListMap, locals: set<nat>, todo: set<nat>, excess: nat, drop: nat,
                  a: nat, k: nat)
    requires Draining(q, cur, locals, todo, excess, drop) && a in todo && 0 < drop && k <= drop
    requires Only(cur, cur', a) && cur.Keys - {a} <= cur'.Keys <= cur.Keys
    requires |Of(cur', a)| == |Of(cur, a)| - k && (k < drop ==> k == |Of(cur, a)|)
    ensures Draining(q, cur', locals, todo - {a}, excess, drop - k)
  {
    TotalAfter(cur, cur', a);
    SumPull(todo, Sizes(q), a);
  }

  /** A queue stays, or goes as a whole, or, for one account, loses its highest nonces. */
  ghost predicate CutAt(q: Items, q': Items, one: bool) {
    q' == q || q' == map[] || (one && q' == CapKept(q, |q'|))
  }

  ghost predicate CutOnce(q: ListMap, cur: ListMap, last: nat, ended: bool) {
    forall a :: CutAt(Of(q, a), Of(cur, a), ended && a == last)
  }

  /**
   The queue limit: exactly the excess is dropped, or all remote transactions if there are fewer; whole
   lists of remote accounts, and of at most one more the highest nonces.
   */
  ghost predicate Drained(b: Book, b': Book, locals: set<nat>, limit: nat) {
    var q, q' := b.queue, b'.queue;
    && b'.pending == b.pending && b'.vnonce == b.vnonce
    && (if Total(q) <= limit then b' == b else Total(q') == Total(q) - Least(Total(q) - limit, RemoteTotal(q, locals)))
    && (forall a :: a in locals ==> Of(q', a) == Of(q, a))
    && exists last: nat :: CutOnce(q, q', last, true)
  }

  /** pool.beats: an account without a heartbeat has the zero time. */
  ghost function Beat(beats: map<nat, nat>, a: nat): nat { if a in beats then beats[a] else 0 }

  /** An account loses something only after every remote account with a later heartbeat has lost everything. */
  ghost predicate LatestFirst(q: ListMap, q': ListMap, locals: set<nat>, beats: map<nat, nat>) {
    forall a, c :: Of(q', a) != Of(q, a) && c !in locals && Beat(beats, a) < Beat(beats, c) ==> Of(q', c) == map[]
  }

  /** In the middle of the loop: the accounts in todo come last, and the others are empty unless the loop ends. */
  ghost predicate Ordered(q: ListMap, cur: ListMap, locals: set<nat>, beats: map<nat, nat>, todo: set<nat>,
                          ended: bool) {
    && todo <= q.Keys && LatestFirst(q, cur, locals, beats)
    && (forall a, c :: a in todo && c in q.Keys - locals - todo ==> Beat(beats, a) <= Beat(beats, c))
    && (!ended ==> forall a :: a !in locals && a !in todo ==> Of(cur, a) == map[])
  }

  lemma OrderedStart(q: ListMap, locals: set<nat>, beats: map<nat, nat>, ended: bool)
    ensures Ordered(q, q, locals, beats, q.Keys - locals, ended)
  {
  }

  lemma OrderedNext(q: ListMap, cur: ListMap, cur': ListMap, locals: set<nat>, beats: map<nat, nat>, todo: set<nat>,
                    a: nat, ended: bool)
    requires Ordered(q, cur, locals, beats, todo, false) && a in todo && Only(cur, cur', a)
    requires forall c :: c in todo ==> Beat(beats, c) <= Beat(beats, a)
    requires !ended || Of(cur, a) == map[] ==> Of(cur', a) == map[]
    ensures Ordered(q, cur', locals, beats, todo - {a}, ended)
  {
    hide Beat;
    forall x, c | Of(cur', x) != Of(q, x) && c !in locals && Beat(beats, x) < Beat(beats, c)
      ensures Of(cur', c) == map[]
    {
      if x == a { assert c !in todo; } else { assert Of(cur, x) != Of(q, x); }
    }
  }

  /** The end of the sorted slice. */
  method Latest(accounts: set<nat>, beats: map<nat, nat>) returns (latest: nat)
    requires accounts != {}
    ensures latest in accounts && forall c :: c in accounts ==> Beat(beats, c) <= Beat(beats, latest)
  {
    latest :| latest in accounts;
    var todo := accounts;
    while todo != {}
      invariant latest in accounts && todo <= accounts
      invariant forall c :: c in accounts && c !in todo ==> Beat(beats, c) <= Beat(beats, latest)
      decreases todo
    {
      var a :| a in todo;
      var beat := if a in beats then beats[a] else 0;
      if beat > if latest in beats then beats[latest] else 0 { latest := a; }
      todo := todo - {a};
    }
  }

  /** The queue limit of promoteExecutables. */
  method Truncate(pool: Pool, beats: map<nat, nat>)
    requires pool.Valid()
    modifies pool`book, pool`log, pool.priced
    ensures pool.Valid() && Truncated(old(pool.book), pool.book, pool.chain) && pool.log == old(pool.log)
    ensures Drained(old(pool.book), pool.book, pool.locals, pool.config.globalQueue)
    ensures LatestFirst(old(pool.book).queue, pool.book.queue, pool.locals, beats)
  {
    hide AllSound;
    hide Pool.Tracks;
    hide Truncated;
    hide Shortened;
    hide CutOnce;
    hide Ordered;
    hide Beat;
    ghost var b, q := pool.book, pool.book.queue;
    TruncatedNone(b, pool.chain);
    NothingCut(q, 0);
    OrderedStart(q, pool.locals, beats, false);
    assert LatestFirst(q, q, pool.locals, beats);
    hide LatestFirst;
    var queued := CountAll(pool.book.queue);
    if queued <= pool.config.globalQueue { return; }
    var drop := queued - pool.config.globalQueue;
    ghost var excess := drop;
    var addresses := pool.book.queue.Keys - pool.locals;
    ghost var last: nat := 0;
    DrainStart(q, pool.locals, excess);
    while drop > 0 && addresses != {}
      invariant pool.Valid() && Truncated(b, pool.book, pool.chain) && pool.log == old(pool.log)
      invariant 0 <= drop && Draining(q, pool.book.queue, pool.locals, addresses, excess, drop)
      invariant CutOnce(q, pool.book.queue, last, drop == 0)
      invariant Ordered(q, pool.book.queue, pool.locals, beats, addresses, drop == 0)
      decreases addresses
    {
      var a := Latest(addresses, beats);
      ghost var cur := pool.book.queue;
      drop := DropFrom(pool, b, q, excess, addresses, drop, a, last);
      OrderedNext(q, cur, pool.book.queue, pool.locals, beats, addresses, a, drop == 0);
      addresses := addresses - {a};
      last := a;
    }
    assert addresses == {} ==> Sum(addresses, Sizes(q)) == 0;
    CutEnds(q, pool.book.queue, last, drop == 0);
    TruncatedShape(b, pool.book, pool.chain);
    OrderedEnds(q, pool.book.queue, pool.locals, beats, addresses, drop == 0);
  }

  lemma OrderedEnds(q: ListMap, cur: ListMap, locals: set<nat>, beats: map<nat, nat>, todo: set<nat>, ended: bool)
    requires Ordered(q, cur, locals, beats, todo, ended)
    ensures LatestFirst(q, cur, locals, beats)
  {
  }

  lemma NothingCut(q: ListMap, last: nat)
    ensures CutOnce(q, q, last, true) && CutOnce(q, q, last, false)
  {
  }

  lemma CutEnds(q: ListMap, cur: ListMap, last: nat, ended: bool)
    requires CutOnce(q, cur, last, ended)
    ensures CutOnce(q, cur, last, true)
  {
    forall a ensures CutAt(Of(q, a), Of(cur, a), a == last) { assert CutAt(Of(q, a), Of(cur, a), ended && a == last); }
  }

  lemma CutNext(q: ListMap, cur: ListMap, cur': ListMap, last: nat, a: nat, ended: bool)
    requires CutOnce(q, cur, last, false) && Only(cur, cur', a) && Of(cur, a) == Of(q, a)
    requires CutAt(Of(q, a), Of(cur', a), ended)
    ensures CutOnce(q, cur', a, ended)
  {
    forall c ensures CutAt(Of(q, c), Of(cur', c), ended && c == a) {
      if c != a { assert CutAt(Of(q, c), Of(cur, c), false); }
    }
  }

  lemma TruncatedShape(b: Book, b': Book, chain: Chain)
    requires Truncated(b, b', chain)
    ensures b'.pending == b.pending && b'.vnonce == b.vnonce
  {
  }

  /** One iteration: all of the account's transactions if they are not too many, else only the highest nonces. */
  method DropFrom(pool: Pool, ghost b: Book, ghost q: ListMap, ghost excess: nat, ghost todo: set<nat>, drop: nat,
                  a: nat, ghost last: nat)
    returns (rest: nat)
    requires pool.Valid() && Truncated(b, pool.book, pool.chain) && a in todo && drop > 0
    requires Draining(q, pool.book.queue, pool.locals, todo, excess, drop) && CutOnce(q, pool.book.queue, last, false)
    modifies pool`book, pool`log, pool.priced
    ensures pool.Valid() && Truncated(b, pool.book, pool.chain) && pool.log == old(pool.log)
    ensures Draining(q, pool.book.queue, pool.locals, todo - {a}, excess, rest)
    ensures CutOnce(q, pool.book.queue, a, rest == 0) && Only(old(pool.book).queue, pool.book.queue, a)
    ensures rest > 0 || Of(old(pool.book).queue, a) == map[] ==> Of(pool.book.queue, a) == map[]
  {
    hide AllSound;
    hide Pool.Tracks;
    hide Truncated;
    hide Shortened;
    hide CutOnce;
    hide CutAt;
    hide Only;
    hide Draining;
    ghost var b1 := pool.book;
    var list := Of(pool.book.queue, a);
    var victims := Victims(list, drop);
    VictimsLeave(list, drop);
    hide Victims;
    hide Of;
    RemoveMany(pool, a, victims);
    rest := if |list| <= drop then drop - |list| else 0;
    DropDone(b, q, b1, pool.book, pool.chain, pool.locals, todo, excess, drop, a, last, rest);
  }

  lemma DropDone(b: Book, q: ListMap, b1: Book, b2: Book, chain: Chain, locals: set<nat>, todo: set<nat>, excess: nat,
                 drop: nat, a: nat, last: nat, rest: nat)
    requires Truncated(b, b1, chain) && a in todo && drop > 0 && Draining(q, b1.queue, locals, todo, excess, drop)
    requires CutOnce(q, b1.queue, last, false)
    requires var list := Of(b1.queue, a);
      Shortened(b1, b2, chain, a, list - Victims(list, drop)) && rest == if |list| <= drop then drop - |list| else 0
    ensures Truncated(b, b2, chain) && Draining(q, b2.queue, locals, todo - {a}, excess, rest)
    ensures CutOnce(q, b2.queue, a, rest == 0) && Only(b1.queue, b2.queue, a)
    ensures rest > 0 || Of(b1.queue, a) == map[] ==> Of(b2.queue, a) == map[]
  {
    hide Truncated;
    hide Shortened;
    hide CutOnce;
    hide CutAt;
    hide AllSound;
    var list := Of(b1.queue, a);
    assert list == Of(q, a);
    hide Draining;
    var left := list - Victims(list, drop);
    VictimsLeave(list, drop);
    hide Victims;
    TruncatedNext(b, b1, b2, chain, a, left);
    ShortenedShape(b1, b2, chain, a, left);
    DrainNext(q, b1.queue, b2.queue, locals, todo, excess, drop, a, Least(|list|, drop));
    CutNext(q, b1.queue, b2.queue, last, a, rest == 0);
  }

  /** All nonces of a list if they are not too many, else the highest. */
  function Victims(list: Items, drop: nat): set<nat> {
    if |list| <= drop then list.Keys else CapDropped(list, |list| - drop).Keys
  }

  lemma DroppedIsPart(list: Items, k: nat)
    ensures CapDropped(list, k).Keys <= list.Keys
  {
  }

  lemma VictimsLeave(list: Items, drop: nat)
    requires drop > 0
    ensures Victims(list, drop) <= list.Keys && |list - Victims(list, drop)| == |list| - Least(|list|, drop)
    ensures CutAt(list, list - Victims(list, drop), drop == Least(|list|, drop))
    ensures |list| <= drop || list == map[] ==> list - Victims(list, drop) == map[]
  {
    hide CapKept;
    hide CapDropped;
    hide CutAt;
    if |list| > drop { HighestLeave(list, |list| - drop); } else { AllLeave(list, drop == |list|); }
  }

  lemma AllLeave(list: Items, one: bool)
    ensures |list - list.Keys| == 0 && list - list.Keys == map[] && CutAt(list, list - list.Keys, one)
  {
    var none: Items := map[];
    assert list - list.Keys == none && |none| == 0;
  }

  lemma HighestLeave(list: Items, k: nat)
    requires k <= |list|
    ensures CapDropped(list, k).Keys <= list.Keys && |list - CapDropped(list, k).Keys| == k
    ensures CutAt(list, list - CapDropped(list, k).Keys, true)
  {
    CapDroppedSize(list, k);
    DroppedIsPart(list, k);
    hide CapKept;
    hide CapDropped;
  }

  lemma ShortenedShape(b: Book, b': Book, chain: Chain, a: nat, left: Items)
    requires Shortened(b, b', chain, a, left)
    ensures Only(b.queue, b'.queue, a) && Of(b'.queue, a) == left && b.queue.Keys - {a} <= b'.queue.Keys <= b.queue.Keys
  {
  }

  lemma {:induction false} SumSplit(keys: set<nat>, locals: set<nat>, size: nat -> nat)
    ensures Sum(keys, size) == Sum(keys - locals, size) + Sum(keys * locals, size)
    decreases |keys|
  {
    if keys == {} {
      assert keys - locals == {} && keys * locals == {};
    } else {
      var a :| a in keys;
      SumPull(keys, size, a);
      SumSplit(keys - {a}, locals, size);
      if a in locals {
        SumPull(keys * locals, size, a);
        assert keys - {a} - locals == keys - locals && (keys - {a}) * locals == keys * locals - {a};
      } else {
        SumPull(keys - locals, size, a);
        assert keys - {a} - locals == keys - locals - {a} && (keys - {a}) * locals == keys * locals;
      }
    }
  }
}
