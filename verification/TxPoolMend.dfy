/**
 What a change of the chain head does to pending lists. The head may move to another
 branch, with other state nonces; discarded transactions are then added again before
 the pending lists are checked, and only a gap in front of a list is looked for.
 */
module TxPoolMend {
  import opened TxListSpec
  import opened TxPoolSpec
  import opened TxPoolPromote
  import opened TxPoolFair

  /** A pending list without the transactions that are too old, and without those after one that cannot be paid for. */
  function Payable(chain: Chain, a: nat, list: Items): Items {
    StrictKept(From(list, chain.nonce(a)), chain.balance(a), chain.maxGas)
  }

  /** ... and without a gap in front: what demotion keeps. */
  function Kept(chain: Chain, a: nat, list: Items): Items {
    if chain.nonce(a) in Payable(chain, a, list) then Payable(chain, a, list) else map[]
  }

  /** What demotion keeps has no gap and will end at the virtual nonce. */
  ghost predicate Tidy(chain: Chain, a: nat, list: Items, virtual: nat) {
    var nonce, paid := chain.nonce(a), Payable(chain, a, list);
    if nonce in paid then forall n, k :: n in paid && nonce <= k < n ==> k in list else virtual == nonce
  }

  lemma PayableIs(chain: Chain, a: nat, list: Items, n: nat)
    ensures n in Payable(chain, a, list) <==>
      && n in list && n >= chain.nonce(a)
      && forall k :: k in list && chain.nonce(a) <= k <= n ==> !Unpayable(list[k], chain.balance(a), chain.maxGas)
    ensures n in Payable(chain, a, list) ==> Payable(chain, a, list)[n] == list[n]
  {
    var young := From(list, chain.nonce(a));
    if n in Payable(chain, a, list) {
      forall k | k in list && chain.nonce(a) <= k <= n ensures !Unpayable(list[k], chain.balance(a), chain.maxGas) {
        assert k in young;
      }
    }
  }

  /** A list without gaps is tidy while the virtual nonce is the state nonce. */
  lemma IntervalTidy(chain: Chain, a: nat, list: Items, lo: nat, hi: nat)
    requires Interval(list, lo, hi)
    ensures Tidy(chain, a, list, chain.nonce(a))
  {
    hide Payable;
    forall n | n in Payable(chain, a, list) ensures n in list { PayableIs(chain, a, list, n); }
    PayableIs(chain, a, list, chain.nonce(a));
  }

  // ------------------------------------------------------------ a promotion

  /**
   A promotion at the state nonce starts, but the queue does not reach up to the old pending list, which
   begins at first with a transaction that can be paid for.
   */
  ghost predicate LeavesGap(chain: Chain, a: nat, p: Items, queue: Items, first: nat) {
    var nonce, usable := chain.nonce(a), Usable(chain, a, queue);
    && nonce in usable && first in p && !Unpayable(p[first], chain.balance(a), chain.maxGas)
    && exists k :: nonce <= k < first && k !in usable
  }

  ghost predicate EndsAt(taken: Items, v: nat, v': nat) {
    if taken == map[] then v' == v else v' > 0 && IsLast(taken, v' - 1)
  }

  /** Exactly when a promotion at the state nonce leaves a list that demotion makes tidy. */
  lemma PromotionTidies(chain: Chain, a: nat, p: Items, queue: Items, x: nat, y: nat, taken: Items, v': nat)
    requires x <= y && Interval(p, x, y) && p.Keys !! queue.Keys
    requires ReadyTakes(Usable(chain, a, queue), chain.nonce(a), taken) && EndsAt(taken, chain.nonce(a), v')
    ensures chain.nonce(a) <= v'
    ensures Tidy(chain, a, p + taken, v') <==> !LeavesGap(chain, a, p, queue, x)
  {
    var nonce, usable := chain.nonce(a), Usable(chain, a, queue);
    UsableIs(chain, a, queue);
    hide Usable;
    if nonce !in usable {
      assert forall n :: n in usable ==> n > nonce;
      assert taken == map[] && p + taken == p;
      IntervalTidy(chain, a, p, x, y);
    } else {
      var hi := RunAt(usable, nonce, taken);
      hide ReadyTakes;
      RunTidies(chain, a, p, queue, x, y, taken, hi);
    }
  }

  lemma UsableIs(chain: Chain, a: nat, queue: Items)
    ensures SubItems(Usable(chain, a, queue), queue)
    ensures forall n :: n in Usable(chain, a, queue) ==>
      n >= chain.nonce(a) && !Unpayable(queue[n], chain.balance(a), chain.maxGas)
  {
  }

  /** The run that Ready takes at the state nonce. */
  lemma RunAt(q: Items, nonce: nat, taken: Items) returns (hi: nat)
    requires nonce in q && (forall n :: n in q ==> n >= nonce) && ReadyTakes(q, nonce, taken)
    ensures nonce < hi && hi !in q && (forall k :: nonce <= k < hi ==> k in q) && Interval(taken, nonce, hi)
      && SubItems(taken, q)
  {
    assert q != map[];
    var lo: nat, top: nat :| IsMin(q, lo) && lo < top && top !in q && (forall k :: lo <= k < top ==> k in q)
        && taken == Below(q, top);
    assert lo == nonce;
    hi := top;
  }

  lemma RunTidies(chain: Chain, a: nat, p: Items, queue: Items, x: nat, y: nat, taken: Items, hi: nat)
    requires x <= y && Interval(p, x, y) && p.Keys !! queue.Keys && chain.nonce(a) in Usable(chain, a, queue)
    requires chain.nonce(a) < hi && hi !in Usable(chain, a, queue) && SubItems(taken, Usable(chain, a, queue))
    requires Interval(taken, chain.nonce(a), hi)
    ensures chain.nonce(a) in Payable(chain, a, p + taken)
    ensures Tidy(chain, a, p + taken, hi) <==> !LeavesGap(chain, a, p, queue, x)
    ensures LeavesGap(chain, a, p, queue, x) ==> hi < x && hi !in p + taken && x in Payable(chain, a, p + taken)
  {
    var nonce, list := chain.nonce(a), p + taken;
    UsableIs(chain, a, queue);
    hide Usable;
    forall n | n in taken ensures n in Payable(chain, a, list) {
      PayableIs(chain, a, list, n);
      assert forall k :: k in list && nonce <= k <= n ==> k in taken;
    }
    PayableIs(chain, a, list, x);
    forall n | n in Payable(chain, a, list) ensures n in list { PayableIs(chain, a, list, n); }
    if nonce < x < y {
      assert x !in taken && hi <= x;
      if hi < x {
        assert hi !in list && (forall k :: k in list && nonce <= k <= x ==> k in taken || k == x);
        if Unpayable(p[x], chain.balance(a), chain.maxGas) {
          forall n | n in Payable(chain, a, list) ensures n in taken { PayableIs(chain, a, list, n); }
        }
      }
    }
  }

  // ------------------------------------------------------------------- a cap

  /** A cap that leaves fewer than the transactions below a nonce cuts one of them. */
  lemma TopIsCut(m: Items, level: nat, nonce: nat)
    requires |Below(m, nonce)| > level
    ensures exists top :: top < nonce && top in m.Keys - CapKept(m, level).Keys
  {
    var below := Below(m, nonce).Keys;
    var top := MaxOf(below);
    assert Lower(m, top) == below - {top};
    assert top in m.Keys - CapKept(m, level).Keys;
  }

  /** The virtual nonce falls behind the state nonce exactly if the cap does not leave everything below it. */
  lemma CapFallsBehind(m: Items, level: nat, nonce: nat, v: nat, v': nat)
    requires nonce <= v && FallsTo(v, v', m.Keys - CapKept(m, level).Keys)
    ensures v' < nonce <==> |Below(m, nonce)| > level
  {
    var below := Below(m, nonce);
    assert Lower(m, nonce) == below.Keys;
    if |below| > level {
      TopIsCut(m, level, nonce);
    } else {
      forall n | n in m.Keys - CapKept(m, level).Keys ensures n >= nonce {
        if n < nonce { Grows(Lower(m, n) + {n}, Lower(m, nonce)); }
      }
    }
  }

  /** A cap leaves a tidy list tidy, or an old one without its upper part. */
  lemma CapTidies(chain: Chain, a: nat, m: Items, level: nat, v: nat, v': nat)
    requires Tidy(chain, a, m, v) && chain.nonce(a) <= v && FallsTo(v, v', m.Keys - CapKept(m, level).Keys)
    ensures |Below(m, chain.nonce(a))| <= level ==> chain.nonce(a) <= v' && Tidy(chain, a, CapKept(m, level), v')
    ensures |Below(m, chain.nonce(a))| > level ==>
      v' < chain.nonce(a) && From(CapKept(m, level), chain.nonce(a)) == map[]
  {
    var nonce, cut := chain.nonce(a), CapKept(m, level);
    CapFallsBehind(m, level, nonce, v, v');
    CapIsPrefix(m, level);
    if |Below(m, nonce)| <= level {
      hide CapKept;
      PrefixTidy(chain, a, m, cut, v, v');
    } else {
      assert Lower(m, nonce) == Below(m, nonce).Keys;
      forall n | n in cut ensures n < nonce {
        if n >= nonce { Grows(Lower(m, nonce), Lower(m, n)); }
      }
    }
  }

  ghost predicate IsPrefix(cut: Items, m: Items) {
    SubItems(cut, m) && forall n, k :: n in cut && k in m && k <= n ==> k in cut
  }

  lemma CapIsPrefix(m: Items, level: nat)
    ensures IsPrefix(CapKept(m, level), m)
  {
    forall n, k | n in CapKept(m, level) && k in m && k <= n ensures k in CapKept(m, level) {
      Grows(Lower(m, k), Lower(m, n));
    }
  }

  lemma PrefixTidy(chain: Chain, a: nat, m: Items, cut: Items, v: nat, v': nat)
    requires Tidy(chain, a, m, v) && IsPrefix(cut, m)
    requires chain.nonce(a) <= v' && FallsTo(v, v', m.Keys - cut.Keys)
    ensures Tidy(chain, a, cut, v')
  {
    var nonce := chain.nonce(a);
    forall n ensures n in Payable(chain, a, cut) <==> n in Payable(chain, a, m) && n in cut {
      PayableIs(chain, a, m, n);
      PayableIs(chain, a, cut, n);
    }
    hide Payable;
    if nonce in Payable(chain, a, m) && nonce !in cut {
      PayableIs(chain, a, m, nonce);
      assert nonce in m.Keys - cut.Keys;
    }
  }

  // -------------------------------------------------------------- all accounts

  ghost predicate TidyAt(b: Book, chain: Chain, a: nat) {
    var v := Virtual(chain, b.vnonce, a);
    chain.nonce(a) <= v && Tidy(chain, a, Of(b.pending, a), v)
  }

  /** Demotion will leave every account without gaps and up to its virtual nonce. */
  ghost predicate AllTidy(b: Book, chain: Chain) { forall a :: TidyAt(b, chain, a) }

  /** Tidy lists are so after the pending limit exactly if the level leaves everything below the state nonces. */
  lemma EvenedTidy(b: Book, b': Book, chain: Chain, locals: set<nat>, slots: nat, limit: nat, level: nat)
    requires AllTidy(b, chain) && Thinned(b, b', chain)
    requires WaterLevel(b.pending, b'.pending, Eligible(b.pending, locals, slots), slots, limit, level)
    ensures AllTidy(b', chain) <==>
      forall a :: a in Eligible(b.pending, locals, slots) ==> |Below(Of(b.pending, a), chain.nonce(a))| <= level
  {
    hide Tidy;
    hide CapKept;
    hide TotalAt;
    hide AllSound;
    hide AllGapless;
    var who := Eligible(b.pending, locals, slots);
    forall a ensures TidyAt(b', chain, a) <==> (a in who ==> |Below(Of(b.pending, a), chain.nonce(a))| <= level) {
      var p, v, v' := Of(b.pending, a), Virtual(chain, b.vnonce, a), Virtual(chain, b'.vnonce, a);
      assert TidyAt(b, chain, a) && FewerAt(p, Of(b'.pending, a), v, v');
      if a in who {
        assert Of(b'.pending, a) == CapKept(p, level);
        CapTidies(chain, a, p, level, v, v');
      } else {
        assert Of(b'.pending, a) == p && p.Keys - p.Keys == {};
      }
    }
    hide TidyAt;
  }
}
