/**
 The fairness part of promoteExecutables: when too many transactions are pending,
 the accounts with the most are lowered together, one transaction per round. The
 result is a water level: one cap for every remote account above its allowance.
 */
module TxPoolFair {
  import opened TxListSpec
  import opened TxPoolSpec
  import opened TxPool
  import opened TxPriced

  // --------------------------------------------------------------------- sums

  ghost function Sum(keys: set<nat>, size: nat -> nat): nat {
    if keys == {} then 0 else var a :| a in keys; size(a) + Sum(keys - {a}, size)
  }

  lemma {:induction false} SumPull(keys: set<nat>, size: nat -> nat, a: nat)
    requires a in keys
    ensures Sum(keys, size) == size(a) + Sum(keys - {a}, size)
    decreases |keys|
  {
    var c :| c in keys && Sum(keys, size) == size(c) + Sum(keys - {c}, size);
    if c != a {
      SumPull(keys - {c}, size, a);
      SumPull(keys - {a}, size, c);
      assert keys - {c} - {a} == keys - {a} - {c};
    }
  }

  /** Two sums that differ by one at each account of a set differ by the size of the set. */
  lemma {:induction false} SumDiffers(keys: set<nat>, f: nat -> nat, g: nat -> nat, more: set<nat>)
    requires more <= keys
    requires forall a :: a in keys ==> f(a) == g(a) + if a in more then 1 else 0
    ensures Sum(keys, f) == Sum(keys, g) + |more|
    decreases |keys|
  {
    if keys == {} {
      assert more == {};
    } else {
      var a :| a in keys;
      SumPull(keys, f, a);
      SumPull(keys, g, a);
      SumDiffers(keys - {a}, f, g, more - {a});
      if a in more { assert |more - {a}| == |more| - 1; } else { assert more - {a} == more; }
    }
  }

  lemma SumEquals(keys: set<nat>, f: nat -> nat, g: nat -> nat)
    requires forall a :: a in keys ==> f(a) == g(a)
    ensures Sum(keys, f) == Sum(keys, g)
  {
    SumDiffers(keys, f, g, {});
  }

  function Sizes(m: ListMap): nat -> nat { (a: nat) => |Of(m, a)| }

  /** The number of transactions in all lists. */
  ghost function Total(m: ListMap): nat { Sum(m.Keys, Sizes(m)) }

  // ------------------------------------------------------------------- levels

  ghost function Least(a: nat, b: nat): nat { if a < b then a else b }

  /** The accounts that may be lowered: remote ones above their allowance. */
  ghost function Eligible(m: ListMap, locals: set<nat>, slots: nat): set<nat> {
    set a | a in m && a !in locals && |m[a]| > slots
  }

  ghost function Levels(m: ListMap, eligible: set<nat>, level: nat): nat -> nat {
    (a: nat) => if a in eligible then Least(|Of(m, a)|, level) else |Of(m, a)|
  }

  /** The number of transactions if the eligible accounts are cut off at the level. */
  ghost function TotalAt(m: ListMap, eligible: set<nat>, level: nat): nat { Sum(m.Keys, Levels(m, eligible, level)) }

  /** Eligible accounts keep their lowest nonces up to the level; no other account is touched. */
  ghost predicate AtLevel(m: ListMap, m': ListMap, eligible: set<nat>, level: nat) {
    && m'.Keys == m.Keys
    && forall a :: a in m ==> m'[a] == if a in eligible then CapKept(m[a], level) else m[a]
  }

  /** Some accounts have lost their highest nonce. */
  ghost predicate Lowered(m: ListMap, m': ListMap, who: set<nat>) {
    && m'.Keys == m.Keys
    && forall a :: a in m ==> m'[a] == if a in who && |m[a]| > 0 then CapKept(m[a], |m[a]| - 1) else m[a]
  }

  // --------------------------------------------------------- capping repeatedly

  lemma CapAll(m: Items, k: nat)
    requires |m| <= k
    ensures CapKept(m, k) == m
  {
    forall n | n in m ensures |Lower(m, n)| < k {
      Grows(Lower(m, n) + {n}, m.Keys);
    }
  }

  /** Capping at one less than the size takes off the highest nonce. */
  lemma CapLast(m: Items) returns (top: nat)
    requires |m| > 0
    ensures top in m && (forall n :: n in m ==> n <= top)
    ensures CapKept(m, |m| - 1) == m - {top} && |m - {top}| == |m| - 1
  {
    assert m.Keys != {};
    top := MaxOf(m.Keys);
    assert Lower(m, top) == m.Keys - {top};
    forall n | n in m && n != top ensures |Lower(m, n)| < |m| - 1 {
      Grows(Lower(m, n) + {n}, m.Keys - {top});
    }
    assert CapKept(m, |m| - 1) == m - {top};
    hide Lower;
    hide CapKept;
    assert m.Keys == (m - {top}).Keys + {top};
  }

  /** Capping twice is capping at the lower cap. */
  lemma CapCap(m: Items, j: nat, k: nat)
    requires j <= k
    ensures CapKept(CapKept(m, k), j) == CapKept(m, j)
  {
    var c := CapKept(m, k);
    forall n | n in c ensures Lower(c, n) == Lower(m, n) {
      forall x | x in Lower(m, n) ensures x in c { Grows(Lower(m, x), Lower(m, n)); }
    }
  }

  lemma {:induction false} CapSize(m: Items, k: nat)
    ensures |CapKept(m, k)| == Least(|m|, k)
    decreases |m| - k
  {
    if k >= |m| {
      CapAll(m, k);
    } else {
      hide CapKept;
      CapSize(m, k + 1);
      var top := CapLast(CapKept(m, k + 1));
      CapCap(m, k, k + 1);
    }
  }

  // --------------------------------------------------------------- level lemmas

  lemma StartLevel(m: ListMap, eligible: set<nat>, level: nat)
    requires forall a :: a in eligible ==> a in m && |m[a]| <= level
    ensures AtLevel(m, m, eligible, level)
  {
    forall a | a in eligible ensures CapKept(m[a], level) == m[a] { CapAll(m[a], level); }
  }

  lemma LevelTotal(m: ListMap, m': ListMap, eligible: set<nat>, level: nat)
    requires AtLevel(m, m', eligible, level)
    ensures Total(m') == TotalAt(m, eligible, level)
  {
    forall a | a in m ensures Sizes(m')(a) == Levels(m, eligible, level)(a) { CapSize(m[a], level); }
    SumEquals(m.Keys, Sizes(m'), Levels(m, eligible, level));
  }

  lemma LevelAbove(m: ListMap, eligible: set<nat>, level: nat)
    requires forall a :: a in eligible ==> a in m && |m[a]| <= level
    ensures TotalAt(m, eligible, level) == Total(m)
  {
    SumEquals(m.Keys, Levels(m, eligible, level), Sizes(m));
  }

  /** Lowering exactly the accounts that reach above the level by one brings everything to the level. */
  lemma LowerLevel(m: ListMap, cur: ListMap, cur': ListMap, eligible: set<nat>, level: nat, who: set<nat>)
    requires AtLevel(m, cur, eligible, level + 1) && Lowered(cur, cur', who)
    requires forall a :: a in who <==> a in eligible && a in m && |m[a]| > level
    ensures AtLevel(m, cur', eligible, level)
    ensures TotalAt(m, eligible, level + 1) == TotalAt(m, eligible, level) + |who|
  {
    forall a | a in m ensures cur'[a] == if a in eligible then CapKept(m[a], level) else m[a] {
      CapSize(m[a], level + 1);
      CapCap(m[a], level, level + 1);
      if a in eligible && a !in who { CapAll(m[a], level); CapAll(m[a], level + 1); }
    }
    SumDiffers(m.Keys, Levels(m, eligible, level + 1), Levels(m, eligible, level), who);
  }

  // ------------------------------------------------------- dropping one transaction

  /** The highest pending transaction of account a is dropped, and the virtual nonce falls to its nonce. */
  function TopCut(b: Book, chain: Chain, a: nat, top: nat): Book
    requires top in Of(b.pending, a)
  {
    b.(pending := b.pending[a := Of(b.pending, a) - {top}],
       all := b.all - {Of(b.pending, a)[top]},
       vnonce := if Virtual(chain, b.vnonce, a) > top then b.vnonce[a := top] else b.vnonce)
  }

  /** Pending transactions were dropped, and what the pool keeps was kept. */
  ghost predicate Thinned(b: Book, b': Book, chain: Chain) {
    && b'.Sound({}) && b'.all <= b.all && b'.queue == b.queue
    && (forall dirty :: b.Gapless(chain, dirty) ==> b'.Gapless(chain, dirty))
    && forall a :: FewerAt(Of(b.pending, a), Of(b'.pending, a), Virtual(chain, b.vnonce, a),
         Virtual(chain, b'.vnonce, a))
  }

  /** Some transactions went, and the virtual nonce dropped to the lowest of them if it was above. */
  ghost predicate FewerAt(p: Items, p': Items, v: nat, v': nat) {
    (forall n :: n in p' ==> n in p && p'[n] == p[n]) && FallsTo(v, v', p.Keys - p'.Keys)
  }

  lemma FewerTwice(p: Items, p1: Items, p2: Items, v: nat, v1: nat, v2: nat)
    requires FewerAt(p, p1, v, v1) && FewerAt(p1, p2, v1, v2)
    ensures FewerAt(p, p2, v, v2)
  {
    forall n | n in p.Keys - p2.Keys ensures v2 <= n { assert n in p.Keys - p1.Keys || n in p1.Keys - p2.Keys; }
  }

  lemma TopCutSound(b: Book, chain: Chain, a: nat, top: nat)
    requires b.Sound({}) && top in Of(b.pending, a)
    ensures TopCut(b, chain, a, top).Sound({}) && top !in Of(b.queue, a) && Of(b.pending, a)[top] in b.all
  {
    var p, q, b' := Of(b.pending, a), Of(b.queue, a), TopCut(b, chain, a, top);
    var dropped: Items := map[top := p[top]];
    assert SoundAt(a, p, q, b.all, {});
    assert Holds(p, p[top]);
    TakePending(a, p, q, b.all, p - {top}, dropped);
    assert Values(dropped) == {p[top]};
    assert p - (p - {top}).Keys - dropped.Keys == map[];
    SetIs(b.pending, a, p - {top});
    Localize(b.pending, b.queue, b.all, {}, b'.pending, b'.queue, b'.all, {}, a);
  }

  lemma TopCutFewer(b: Book, chain: Chain, a: nat, top: nat)
    requires top in Of(b.pending, a)
    ensures var b' := TopCut(b, chain, a, top);
      forall c :: FewerAt(Of(b.pending, c), Of(b'.pending, c), Virtual(chain, b.vnonce, c),
        Virtual(chain, b'.vnonce, c))
  {
    var p, b' := Of(b.pending, a), TopCut(b, chain, a, top);
    SetIs(b.pending, a, p - {top});
    assert p.Keys - (p - {top}).Keys == {top};
    forall c
      ensures FewerAt(Of(b.pending, c), Of(b'.pending, c), Virtual(chain, b.vnonce, c), Virtual(chain, b'.vnonce, c))
    {
      if c != a { assert Of(b'.pending, c) == Of(b.pending, c); }
    }
  }

  lemma TopCutThins(b: Book, chain: Chain, a: nat, top: nat)
    requires b.Sound({}) && top in Of(b.pending, a) && forall n :: n in Of(b.pending, a) ==> n <= top
    ensures Thinned(b, TopCut(b, chain, a, top), chain) && Of(b.pending, a)[top] in b.all
  {
    var p, b' := Of(b.pending, a), TopCut(b, chain, a, top);
    TopCutSound(b, chain, a, top);
    TopCutFewer(b, chain, a, top);
    hide AllSound;
    hide FewerAt;
    SetIs(b.pending, a, p - {top});
    forall dirty | b.Gapless(chain, dirty) ensures b'.Gapless(chain, dirty) {
      assert GaplessAt(p, chain.nonce(a), Virtual(chain, b.vnonce, a));
      assert top + 1 !in p;
      LocalizeGapless(b.pending, b.queue, chain, b.vnonce, dirty, b'.pending, b'.queue, b'.vnonce, a);
    }
  }

  lemma ThinnedTwice(b: Book, b1: Book, b2: Book, chain: Chain)
    requires Thinned(b, b1, chain) && Thinned(b1, b2, chain)
    ensures Thinned(b, b2, chain)
  {
    hide AllSound;
    hide AllGapless;
    forall a
      ensures FewerAt(Of(b.pending, a), Of(b2.pending, a), Virtual(chain, b.vnonce, a), Virtual(chain, b2.vnonce, a))
    {
      assert FewerAt(Of(b.pending, a), Of(b1.pending, a), Virtual(chain, b.vnonce, a), Virtual(chain, b1.vnonce, a));
      hide FewerAt;
      FewerTwice(Of(b.pending, a), Of(b1.pending, a), Of(b2.pending, a),
                 Virtual(chain, b.vnonce, a), Virtual(chain, b1.vnonce, a), Virtual(chain, b2.vnonce, a));
    }
  }

  /** list.Cap(list.Len() - 1) on a pending list, with its bookkeeping. */
  method LowerOne(pool: Pool, a: nat)
    requires pool.Valid() && a in pool.book.pending && |pool.book.pending[a]| > 0
    modifies pool`book, pool`log, pool.priced
    ensures pool.Valid() && Thinned(old(pool.book), pool.book, pool.chain) && pool.log == old(pool.log)
    ensures pool.book.pending
      == old(pool.book).pending[a := CapKept(old(pool.book).pending[a], |old(pool.book).pending[a]| - 1)]
  {
    hide AllSound;
    hide Pool.Tracks;
    hide Thinned;
    ghost var b := pool.book;
    var list := pool.book.pending[a];
    ghost var last := CapLast(list);
    var top :| top in list && forall n :: n in list ==> n <= top;
    assert top == last;
    TopCutThins(b, pool.chain, a, top);
    pool.book := pool.book.(pending := pool.book.pending[a := list - {top}]);
    pool.Forget(list[top]);
    if Virtual(pool.chain, pool.book.vnonce, a) > top {
      pool.book := pool.book.(vnonce := pool.book.vnonce[a := top]);
    }
    assert pool.book == TopCut(b, pool.chain, a, top);
    ThinnedSound(b, pool.book, pool.chain);
  }

  lemma ThinnedSound(b: Book, b': Book, chain: Chain)
    requires Thinned(b, b', chain)
    ensures b'.Sound({})
  {
  }

  function Members(s: seq<nat>): set<nat> { set a | a in s }

  /** One round: every offender loses its highest nonce. */
  method LowerAll(pool: Pool, offenders: seq<nat>)
    requires pool.Valid() && Distinct(offenders)
    requires forall a :: a in offenders ==> a in pool.book.pending && |pool.book.pending[a]| > 0
    modifies pool`book, pool`log, pool.priced
    ensures pool.Valid() && Thinned(old(pool.book), pool.book, pool.chain) && pool.log == old(pool.log)
    ensures Lowered(old(pool.book).pending, pool.book.pending, Members(offenders))
  {
    hide AllSound;
    hide Pool.Tracks;
    hide Thinned;
    hide CapKept;
    hide Lowered;
    ghost var b := pool.book;
    var i := 0;
    ThinnedNot(b, pool.chain);
    LoweredNone(b.pending, offenders);
    while i < |offenders|
      invariant 0 <= i <= |offenders| && pool.Valid() && Thinned(b, pool.book, pool.chain) && pool.log == old(pool.log)
      invariant Lowered(b.pending, pool.book.pending, Members(offenders[..i]))
    {
      ghost var b1 := pool.book;
      LoweredNext(b.pending, b1.pending, offenders, i);
      LowerOne(pool, offenders[i]);
      ThinnedTwice(b, b1, pool.book, pool.chain);
      i := i + 1;
    }
    assert offenders[..|offenders|] == offenders;
  }

  lemma LoweredNone(m: ListMap, offenders: seq<nat>)
    ensures Lowered(m, m, Members(offenders[..0]))
  {
  }

  lemma LoweredNext(m: ListMap, cur: ListMap, offenders: seq<nat>, i: nat)
    requires i < |offenders| && Distinct(offenders) && Lowered(m, cur, Members(offenders[..i]))
    requires forall a :: a in offenders ==> a in m && |m[a]| > 0
    ensures var a := offenders[i];
      a in cur && cur[a] == m[a] && Lowered(m, cur[a := CapKept(cur[a], |cur[a]| - 1)], Members(offenders[..i + 1]))
  {
    var a := offenders[i];
    assert a in offenders && a !in Members(offenders[..i]);
    assert Members(offenders[..i + 1]) == Members(offenders[..i]) + {a};
  }

  lemma ThinnedNot(b: Book, chain: Chain)
    requires b.Sound({})
    ensures Thinned(b, b, chain)
  {
  }

  // ------------------------------------------------------------- water filling

  /** The lists are at the level, the counter is right, and the next level up would be too high. */
  ghost predicate LevelState(m: ListMap, cur: ListMap, eligible: set<nat>, level: nat, count: int, limit: nat) {
    AtLevel(m, cur, eligible, level) && count == TotalAt(m, eligible, level) && TotalAt(m, eligible, level + 1) > limit
  }

  /** The largest level, not below the allowance, at which the limit is met; or the allowance. */
  ghost predicate WaterLevel(m: ListMap, m': ListMap, eligible: set<nat>, slots: nat, limit: nat, level: nat) {
    && slots <= level && AtLevel(m, m', eligible, level) && TotalAt(m, eligible, level + 1) > limit
    && (TotalAt(m, eligible, level) <= limit || level == slots)
  }

  lemma RoundLowers(m: ListMap, cur: ListMap, cur': ListMap, eligible: set<nat>, level: nat, count: int, limit: nat,
                    offenders: seq<nat>)
    requires LevelState(m, cur, eligible, level, count, limit) && count > limit && level > 0
    requires Lowered(cur, cur', Members(offenders)) && Distinct(offenders)
    requires forall a :: a in offenders <==> a in eligible && a in m && |m[a]| >= level
    ensures LevelState(m, cur', eligible, level - 1, count - |offenders|, limit)
  {
    hide TotalAt;
    hide AtLevel;
    hide Lowered;
    MembersSize(offenders);
    assert forall a :: a in Members(offenders) <==> a in offenders;
    hide Members;
    LowerLevel(m, cur, cur', eligible, level - 1, Members(offenders));
  }

  ghost predicate Distinct(s: seq<nat>) { forall i, j :: 0 <= i < j < |s| ==> s[i] != s[j] }

  lemma {:induction false} MembersSize(s: seq<nat>)
    requires Distinct(s)
    ensures |Members(s)| == |s|
  {
    if s != [] {
      var k := |s| - 1;
      MembersSize(s[..k]);
      assert Members(s) == Members(s[..k]) + {s[k]};
      assert s[k] !in Members(s[..k]);
    }
  }

  /** At a level, an account that reaches it has exactly that many transactions. */
  lemma SizeAtLevel(m: ListMap, cur: ListMap, eligible: set<nat>, level: nat, a: nat)
    requires AtLevel(m, cur, eligible, level) && a in eligible && a in m
    ensures a in cur && |cur[a]| == Least(|m[a]|, level)
  {
    CapSize(m[a], level);
  }

  /** Lower the offenders together until the limit is met or the floor is reached. */
  method LowerWhile(pool: Pool, offenders: seq<nat>, watched: nat, floor: nat, count0: int,
                    ghost m: ListMap, ghost eligible: set<nat>, ghost level0: nat)
    returns (count: int, ghost level: nat)
    requires pool.Valid() && Distinct(offenders) && watched in offenders && floor <= level0
    requires LevelState(m, pool.book.pending, eligible, level0, count0, pool.config.globalSlots)
    requires forall a :: a in offenders ==> a in eligible && a in m && |m[a]| >= level0
    requires forall a :: a in eligible && a !in offenders ==> a in m && |m[a]| <= floor
    modifies pool`book, pool`log, pool.priced
    ensures pool.Valid() && Thinned(old(pool.book), pool.book, pool.chain) && pool.log == old(pool.log)
    ensures floor <= level <= level0 && (count <= pool.config.globalSlots || level == floor)
    ensures LevelState(m, pool.book.pending, eligible, level, count, pool.config.globalSlots)
  {
    hide AllSound;
    hide Pool.Tracks;
    hide Thinned;
    hide LevelState;
    hide Lowered;
    count, level := count0, level0;
    ghost var b := pool.book;
    ThinnedNot(b, pool.chain);
    WatchedSize(m, pool.book.pending, eligible, level, count, pool.config.globalSlots, offenders);
    while count > pool.config.globalSlots && |pool.book.pending[watched]| > floor
      invariant pool.Valid() && Thinned(b, pool.book, pool.chain) && floor <= level <= level0
        && pool.log == old(pool.log)
      invariant LevelState(m, pool.book.pending, eligible, level, count, pool.config.globalSlots)
      invariant forall a :: a in offenders ==> a in pool.book.pending && |pool.book.pending[a]| == level
      decreases level
    {
      ghost var b1 := pool.book;
      LowerAll(pool, offenders);
      ThinnedTwice(b, b1, pool.book, pool.chain);
      RoundLowers(m, b1.pending, pool.book.pending, eligible, level, count, pool.config.globalSlots, offenders);
      count := count - |offenders|;
      level := level - 1;
      WatchedSize(m, pool.book.pending, eligible, level, count, pool.config.globalSlots, offenders);
    }
  }

  lemma WatchedSize(m: ListMap, cur: ListMap, eligible: set<nat>, level: nat, count: int, limit: nat,
                    offenders: seq<nat>)
    requires LevelState(m, cur, eligible, level, count, limit)
    requires forall a :: a in offenders ==> a in eligible && a in m && |m[a]| >= level
    ensures forall a :: a in offenders ==> a in cur && |cur[a]| == level
  {
    forall a | a in offenders ensures a in cur && |cur[a]| == level { SizeAtLevel(m, cur, eligible, level, a); }
  }

  method CountAll(m: ListMap) returns (count: nat)
    ensures count == Total(m)
  {
    count := 0;
    var todo := m.Keys;
    while todo != {}
      invariant todo <= m.Keys && count + Sum(todo, Sizes(m)) == Total(m)
      decreases todo
    {
      var a :| a in todo;
      SumPull(todo, Sizes(m), a);
      count := count + |m[a]|;
      todo := todo - {a};
    }
  }

  /** prque: pop an account with the most transactions. */
  method PopLargest(m: ListMap, spammers: set<nat>) returns (a: nat)
    requires spammers != {} && spammers <= m.Keys
    ensures a in spammers && forall c :: c in spammers ==> |Of(m, c)| <= |Of(m, a)|
  {
    a :| a in spammers;
    var todo := spammers;
    while todo != {}
      invariant a in spammers && todo <= spammers
      invariant forall c :: c in spammers && c !in todo ==> |Of(m, c)| <= |Of(m, a)|
      decreases todo
    {
      var c :| c in todo;
      if |m[c]| > |m[a]| { a := c; }
      todo := todo - {c};
    }
  }

  lemma LargestSize(m: ListMap, keys: set<nat>) returns (bound: nat)
    requires keys <= m.Keys
    ensures forall a :: a in keys ==> a in m && |m[a]| <= bound
  {
    bound := 0;
    var todo := keys;
    while todo != {}
      invariant todo <= keys && forall a :: a in keys && a !in todo ==> |m[a]| <= bound
      decreases todo
    {
      var a :| a in todo;
      if |m[a]| > bound { bound := |m[a]|; }
      todo := todo - {a};
    }
  }

  /** Lists that are not above the level are untouched, so the level may start at the largest of them. */
  lemma FirstOffender(m: ListMap, cur: ListMap, eligible: set<nat>, level: nat, count: int, limit: nat, a: nat)
    requires LevelState(m, cur, eligible, level, count, limit) && a in eligible && eligible <= m.Keys
    requires forall c :: c in eligible ==> c in m && |m[c]| <= |m[a]| <= level
    ensures LevelState(m, cur, eligible, |m[a]|, count, limit)
  {
    hide AtLevel;
    hide TotalAt;
    hide Total;
    StartLevel(m, eligible, level);
    LevelAbove(m, eligible, level);
    LevelAbove(m, eligible, level + 1);
    LevelUnique(m, cur, m, eligible, level);
    StartState(m, eligible, |m[a]|, limit);
  }

  lemma LevelUnique(m: ListMap, cur: ListMap, cur': ListMap, eligible: set<nat>, level: nat)
    requires AtLevel(m, cur, eligible, level) && AtLevel(m, cur', eligible, level)
    ensures cur == cur'
  {
    assert forall a :: a in cur ==> cur[a] == cur'[a];
  }

  lemma StartState(m: ListMap, eligible: set<nat>, level: nat, limit: nat)
    requires forall a :: a in eligible ==> a in m && |m[a]| <= level
    requires Total(m) > limit
    ensures LevelState(m, m, eligible, level, Total(m), limit)
  {
    StartLevel(m, eligible, level);
    LevelAbove(m, eligible, level);
    LevelAbove(m, eligible, level + 1);
  }

  lemma Untouched(m: ListMap, cur: ListMap, eligible: set<nat>, level: nat, count: int, limit: nat, spammers: set<nat>)
    requires LevelState(m, cur, eligible, level, count, limit) && spammers <= eligible
    requires forall a :: a in spammers ==> a in m && |m[a]| <= level
    ensures spammers <= cur.Keys && forall a :: a in spammers ==> Of(cur, a) == m[a]
  {
    forall a | a in spammers ensures a in cur && Of(cur, a) == m[a] { CapAll(m[a], level); }
  }

  /** Where the offender loop stands: the offenders are at the level, the rest of the spammers below it. */
  ghost predicate Sorting(m: ListMap, eligible: set<nat>, offenders: seq<nat>, spammers: set<nat>, level: nat,
                          slots: nat, over: bool) {
    && Distinct(offenders) && Members(offenders) !! spammers && Members(offenders) + spammers == eligible
    && eligible <= m.Keys && slots <= level
    && (forall a :: a in eligible ==> |m[a]| > slots)
    && (forall a :: a in spammers ==> |m[a]| <= level)
    && (over ==> forall a :: a in offenders ==> |m[a]| >= level)
  }

  /** The limit is met, or the eligible accounts are cut at a water level, and virtual nonces follow. */
  ghost predicate Evened(b: Book, b': Book, locals: set<nat>, slots: nat, limit: nat) {
    if Total(b.pending) <= limit then b' == b
    else exists level :: WaterLevel(b.pending, b'.pending, Eligible(b.pending, locals, slots), slots, limit, level)
  }

  /** What is left is unchanged and lies below everything that is gone. */
  ghost predicate HighestGo(p: Items, p': Items) {
    && (forall n :: n in p' ==> n in p && p'[n] == p[n])
    && forall n, k :: n in p && n !in p' && k in p' ==> k < n
  }

  /** If account a was cut, no remote account above the allowance has more left than it. */
  ghost predicate NotSpared(m: ListMap, m': ListMap, a: nat, c: nat, locals: set<nat>, slots: nat) {
    |Of(m', a)| < |Of(m, a)| && c !in locals && |Of(m', c)| > slots ==> |Of(m', c)| <= |Of(m', a)|
  }

  /** The pending limit of promoteExecutables; metered is what the running counter says was dropped. */
  method Equalize(pool: Pool) returns (metered: int)
    requires pool.Valid()
    modifies pool`book, pool`log, pool.priced
    ensures pool.Valid() && Thinned(old(pool.book), pool.book, pool.chain) && pool.log == old(pool.log)
    ensures Evened(old(pool.book), pool.book, pool.locals, pool.config.accountSlots, pool.config.globalSlots)
    ensures metered == Total(old(pool.book).pending) - Total(pool.book.pending)
    ensures Total(pool.book.pending) <= pool.config.globalSlots
      || forall a :: a !in pool.locals ==> |Of(pool.book.pending, a)| <= pool.config.accountSlots
    ensures forall a :: a in pool.locals || |Of(old(pool.book).pending, a)| <= pool.config.accountSlots ==>
      Of(pool.book.pending, a) == Of(old(pool.book).pending, a)
    ensures forall a :: HighestGo(Of(old(pool.book).pending, a), Of(pool.book.pending, a))
    ensures forall a, c :: NotSpared(old(pool.book).pending, pool.book.pending, a, c, pool.locals,
      pool.config.accountSlots)
  {
    hide AllSound;
    hide Pool.Tracks;
    hide Thinned;
    hide LevelState;
    hide Evened;
    hide HighestGo;
    hide NotSpared;
    hide Sorting;
    ghost var b, m := pool.book, pool.book.pending;
    var slots, limit := pool.config.accountSlots, pool.config.globalSlots;
    ThinnedNot(b, pool.chain);
    var count: int := CountAll(pool.book.pending);
    if count <= limit {
      EvenedNot(b, pool.locals, slots, limit);
      EvenedMeans(b, b, pool.locals, slots, limit);
      return 0;
    }
    var before := count;
    var spammers := set a | a in pool.book.pending && a !in pool.locals && |pool.book.pending[a]| > slots;
    ghost var eligible := Eligible(m, pool.locals, slots);
    assert spammers == eligible;
    var offenders: seq<nat> := [];
    ghost var level := LargestSize(m, eligible);
    if level < slots { level := slots; }
    StartState(m, eligible, level, limit);
    SortingStart(m, pool.locals, slots, level);
    while count > limit && spammers != {}
      invariant pool.Valid() && Thinned(b, pool.book, pool.chain) && pool.log == old(pool.log)
      invariant LevelState(m, pool.book.pending, eligible, level, count, limit)
      invariant Sorting(m, eligible, offenders, spammers, level, slots, count > limit)
      decreases spammers
    {
      offenders, spammers, count, level := NextOffender(pool, offenders, spammers, count, m, eligible, level, b);
    }
    if count > limit && |offenders| > 0 {
      ghost var b1 := pool.book;
      AllOffend(m, eligible, offenders, level, slots);
      count, level := LowerWhile(pool, offenders, offenders[|offenders| - 1], slots, count, m, eligible, level);
      ThinnedTwice(b, b1, pool.book, pool.chain);
    } else if count > limit {
      NoOffender(m, eligible, level, slots, pool.book.pending, count, limit);
      level := slots;
    } else {
      LevelNotBelow(m, eligible, offenders, spammers, level, slots, count > limit);
    }
    EvenedAt(b, pool.book, pool.locals, level, count, slots, limit);
    metered := before - count;
    EvenedMeans(b, pool.book, pool.locals, slots, limit);
  }

  /**
   What the water level means for the accounts: the limit is met, or no remote account has more than its
   allowance left; local accounts and small ones are untouched; the highest nonces go; and an account that was
   cut has no fewer left than any other remote one above the allowance.
   */
  lemma EvenedMeans(b: Book, b': Book, locals: set<nat>, slots: nat, limit: nat)
    requires Evened(b, b', locals, slots, limit)
    ensures Total(b'.pending) <= limit || forall a :: a !in locals ==> |Of(b'.pending, a)| <= slots
    ensures forall a :: a in locals || |Of(b.pending, a)| <= slots ==> Of(b'.pending, a) == Of(b.pending, a)
    ensures forall a :: HighestGo(Of(b.pending, a), Of(b'.pending, a))
    ensures forall a, c :: NotSpared(b.pending, b'.pending, a, c, locals, slots)
  {
    if Total(b.pending) > limit {
      var who := Eligible(b.pending, locals, slots);
      var level :| WaterLevel(b.pending, b'.pending, who, slots, limit, level);
      LevelTotal(b.pending, b'.pending, who, level);
      CutMeans(b.pending, b'.pending, locals, slots, level);
      hide AtLevel;
      hide Eligible;
      hide HighestGo;
      hide Total;
      hide TotalAt;
      hide Of;
      forall a, c ensures NotSpared(b.pending, b'.pending, a, c, locals, slots) {
        PairMeans(b.pending, b'.pending, locals, slots, level, a, c);
      }
    } else {
      assert forall a :: HighestGo(Of(b.pending, a), Of(b'.pending, a));
    }
  }

  lemma CutMeans(m: ListMap, m': ListMap, locals: set<nat>, slots: nat, level: nat)
    requires AtLevel(m, m', Eligible(m, locals, slots), level)
    ensures forall a :: if a in locals || |Of(m, a)| <= slots then Of(m', a) == Of(m, a)
      else |Of(m', a)| == if |Of(m, a)| < level then |Of(m, a)| else level
    ensures forall a :: HighestGo(Of(m, a), Of(m', a))
  {
    forall a
      ensures if a in locals || |Of(m, a)| <= slots then Of(m', a) == Of(m, a)
        else Of(m', a) == CapKept(Of(m, a), level)
      ensures |CapKept(Of(m, a), level)| == if |Of(m, a)| < level then |Of(m, a)| else level
      ensures HighestGo(Of(m, a), CapKept(Of(m, a), level)) && HighestGo(Of(m, a), Of(m, a))
    {
      CapSize(Of(m, a), level);
      CapIsLow(Of(m, a), level);
    }
    hide AtLevel;
    hide CapKept;
    hide HighestGo;
  }

  lemma PairMeans(m: ListMap, m': ListMap, locals: set<nat>, slots: nat, level: nat, a: nat, c: nat)
    requires if a in locals || |Of(m, a)| <= slots then Of(m', a) == Of(m, a)
      else |Of(m', a)| == if |Of(m, a)| < level then |Of(m, a)| else level
    requires if c in locals || |Of(m, c)| <= slots then Of(m', c) == Of(m, c)
      else |Of(m', c)| == if |Of(m, c)| < level then |Of(m, c)| else level
    ensures NotSpared(m, m', a, c, locals, slots)
  {
  }

  /** What a cap drops lies above everything that it keeps. */
  lemma CapIsLow(m: Items, k: nat)
    ensures forall n, x :: n in m && n !in CapKept(m, k) && x in CapKept(m, k) ==> x < n
  {
    forall n, x | n in m && n !in CapKept(m, k) && x in CapKept(m, k) ensures x < n {
      if x > n { Grows(Lower(m, n) + {n}, Lower(m, x)); }
    }
  }

  /** The running counter is the number of pending transactions. */
  lemma CounterIsTrue(m: ListMap, cur: ListMap, eligible: set<nat>, level: nat, count: int, limit: nat)
    requires LevelState(m, cur, eligible, level, count, limit)
    ensures count == Total(cur)
  {
    LevelTotal(m, cur, eligible, level);
  }

  lemma SortingStart(m: ListMap, locals: set<nat>, slots: nat, level: nat)
    requires slots <= level && forall a :: a in Eligible(m, locals, slots) ==> a in m && |m[a]| <= level
    ensures Sorting(m, Eligible(m, locals, slots), [], Eligible(m, locals, slots), level, slots, true)
  {
  }

  lemma LevelNotBelow(m: ListMap, eligible: set<nat>, offenders: seq<nat>, spammers: set<nat>, level: nat, slots: nat,
                      over: bool)
    requires Sorting(m, eligible, offenders, spammers, level, slots, over)
    ensures slots <= level
  {
  }

  lemma AllOffend(m: ListMap, eligible: set<nat>, offenders: seq<nat>, level: nat, slots: nat)
    requires Sorting(m, eligible, offenders, {}, level, slots, true)
    ensures Distinct(offenders) && slots <= level
    ensures forall a :: a in offenders ==> a in eligible && a in m && |m[a]| >= level
    ensures forall a :: a in eligible ==> a in offenders
  {
    forall a | a in offenders ensures a in eligible { assert a in Members(offenders); }
    forall a | a in eligible ensures a in offenders { assert a in Members(offenders); }
  }

  lemma NoOffender(m: ListMap, eligible: set<nat>, level: nat, slots: nat, cur: ListMap, count: int, limit: nat)
    requires Sorting(m, eligible, [], {}, level, slots, true) && LevelState(m, cur, eligible, level, count, limit)
    ensures LevelState(m, cur, eligible, slots, count, limit)
  {
    assert eligible == {};
    SumEquals(m.Keys, Levels(m, {}, level), Levels(m, {}, slots));
    SumEquals(m.Keys, Levels(m, {}, level + 1), Levels(m, {}, slots + 1));
  }

  lemma LevelIsWater(m: ListMap, cur: ListMap, eligible: set<nat>, level: nat, count: int, slots: nat, limit: nat)
    requires LevelState(m, cur, eligible, level, count, limit) && slots <= level && (count <= limit || level == slots)
    ensures WaterLevel(m, cur, eligible, slots, limit, level)
  {
  }

  lemma EvenedAt(b: Book, b': Book, locals: set<nat>, level: nat, count: int, slots: nat, limit: nat)
    requires LevelState(b.pending, b'.pending, Eligible(b.pending, locals, slots), level, count, limit)
    requires Total(b.pending) > limit && slots <= level && (count <= limit || level == slots)
    ensures Evened(b, b', locals, slots, limit) && count == Total(b'.pending)
  {
    var eligible := Eligible(b.pending, locals, slots);
    LevelIsWater(b.pending, b'.pending, eligible, level, count, slots, limit);
    CounterIsTrue(b.pending, b'.pending, eligible, level, count, limit);
    hide Eligible;
    hide WaterLevel;
  }

  lemma EvenedNot(b: Book, locals: set<nat>, slots: nat, limit: nat)
    requires Total(b.pending) <= limit
    ensures Evened(b, b, locals, slots, limit)
  {
  }

  /** One iteration of the offender loop: pop the largest spammer and bring the others down to it. */
  method NextOffender(pool: Pool, offenders0: seq<nat>, spammers0: set<nat>, count0: int,
                      ghost m: ListMap, ghost eligible: set<nat>, ghost level0: nat, ghost b: Book)
    returns (offenders: seq<nat>, spammers: set<nat>, count: int, ghost level: nat)
    requires pool.Valid() && Thinned(b, pool.book, pool.chain) && spammers0 != {} && count0 > pool.config.globalSlots
    requires LevelState(m, pool.book.pending, eligible, level0, count0, pool.config.globalSlots)
    requires Sorting(m, eligible, offenders0, spammers0, level0, pool.config.accountSlots, true)
    modifies pool`book, pool`log, pool.priced
    ensures pool.Valid() && Thinned(b, pool.book, pool.chain) && spammers < spammers0 && pool.log == old(pool.log)
    ensures LevelState(m, pool.book.pending, eligible, level, count, pool.config.globalSlots)
    ensures Sorting(m, eligible, offenders, spammers, level, pool.config.accountSlots, count > pool.config.globalSlots)
  {
    hide AllSound;
    hide Pool.Tracks;
    hide Thinned;
    hide LevelState;
    hide Sorting;
    var limit := pool.config.globalSlots;
    OffendersAbove(m, eligible, offenders0, spammers0, level0, pool.config.accountSlots);
    Untouched(m, pool.book.pending, eligible, level0, count0, limit, spammers0);
    var offender := PopLargest(pool.book.pending, spammers0);
    spammers := spammers0 - {offender};
    offenders := offenders0 + [offender];
    count, level := count0, level0;
    if |offenders| > 1 {
      var threshold := |pool.book.pending[offender]|;
      ghost var b1 := pool.book;
      var watched := offenders[|offenders| - 2];
      assert watched == offenders0[|offenders0| - 1];
      count, level := LowerWhile(pool, offenders0, watched, threshold, count, m, eligible, level);
      ThinnedTwice(b, b1, pool.book, pool.chain);
    } else {
      FirstOffender(m, pool.book.pending, eligible, level, count, limit, offender);
      level := |m[offender]|;
    }
    SortingNext(m, eligible, offenders0, spammers0, level0, pool.config.accountSlots, offender, level, count > limit);
  }

  lemma OffendersAbove(m: ListMap, eligible: set<nat>, offenders: seq<nat>, spammers: set<nat>, level: nat, slots: nat)
    requires Sorting(m, eligible, offenders, spammers, level, slots, true)
    ensures Distinct(offenders) && spammers <= eligible <= m.Keys && slots <= level
    ensures forall a :: a in offenders ==> a in eligible && a in m && |m[a]| >= level
    ensures forall a :: a in eligible && a !in offenders ==> a in spammers
    ensures forall a :: a in spammers ==> a in m && slots < |m[a]| <= level
  {
    forall a | a in offenders ensures a in eligible { assert a in Members(offenders); }
    forall a | a in eligible && a !in offenders ensures a in spammers { assert a !in Members(offenders); }
  }

  /** The next offender has been brought in, and the level lies between it and the others. */
  lemma SortingNext(m: ListMap, eligible: set<nat>, offenders: seq<nat>, spammers: set<nat>, level: nat, slots: nat,
                    offender: nat, level': nat, over: bool)
    requires Sorting(m, eligible, offenders, spammers, level, slots, true) && offender in spammers
    requires offender in m && |m[offender]| <= level' && (over ==> level' <= |m[offender]|) && (level' <= level)
    requires forall a :: a in spammers ==> a in m && |m[a]| <= |m[offender]|
    ensures Sorting(m, eligible, offenders + [offender], spammers - {offender}, level', slots, over)
  {
    assert Members(offenders + [offender]) == Members(offenders) + {offender};
    assert offender !in Members(offenders);
  }

  /** The level is the largest that meets the limit. */
  lemma LevelIsLargest(m: ListMap, m': ListMap, eligible: set<nat>, slots: nat, limit: nat, level: nat, higher: nat)
    requires WaterLevel(m, m', eligible, slots, limit, level) && higher > level
    ensures TotalAt(m, eligible, higher) > limit
  {
    SumGrows(m.Keys, Levels(m, eligible, level + 1), Levels(m, eligible, higher));
  }

  lemma {:induction false} SumGrows(keys: set<nat>, f: nat -> nat, g: nat -> nat)
    requires forall a :: a in keys ==> f(a) <= g(a)
    ensures Sum(keys, f) <= Sum(keys, g)
    decreases |keys|
  {
    if keys != {} {
      var a :| a in keys;
      SumPull(keys, f, a);
      SumPull(keys, g, a);
      SumGrows(keys - {a}, f, g);
    }
  }
}
