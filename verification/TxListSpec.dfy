/**
 Transactions and the contents of a per-account transaction list, as values: what
 the operations of tx_list.go keep, drop and return.
 */
module TxListSpec {

  /** A signed transaction. Two transactions with the same hash are equal, so a value stands for its hash. */
  datatype Tx = Tx(id: nat, sender: nat, nonce: nat, price: nat, gas: nat, cost: nat, wellFormed: bool)

  /** The contents of a list: at most one transaction per nonce. */
  type Items = map<nat, Tx>

  ghost predicate Filed(m: Items) { forall n :: n in m ==> m[n].nonce == n }

  function Below(m: Items, t: nat): Items { map n | n in m && n < t :: m[n] }

  function From(m: Items, t: nat): Items { map n | n in m && n >= t :: m[n] }

  /** The sequence holds exactly the transactions of m, in the order of their nonces. */
  ghost predicate SortedOf(s: seq<Tx>, m: Items) {
    && (forall i, j :: 0 <= i < j < |s| ==> s[i].nonce < s[j].nonce)
    && (forall i :: 0 <= i < |s| ==> s[i].nonce in m && m[s[i].nonce] == s[i])
    && (forall n {:trigger m[n] in s} :: n in m ==> m[n] in s)
  }

  /** The sequence holds every transaction of m exactly once, in some order. */
  ghost predicate Lists(s: seq<Tx>, m: Items) {
    && (forall i, j :: 0 <= i < j < |s| ==> s[i].nonce != s[j].nonce)
    && (forall i :: 0 <= i < |s| ==> s[i].nonce in m && m[s[i].nonce] == s[i])
    && (forall n {:trigger m[n] in s} :: n in m ==> m[n] in s)
  }

  lemma {:induction false} ListsLength(s: seq<Tx>, m: Items)
    requires Lists(s, m) && Filed(m)
    ensures |s| == |m|
    decreases |s|
  {
    if m.Keys != {} {
      var n :| n in m.Keys;
      assert m[n] in s;
    }
    if s != [] {
      var last := s[|s| - 1];
      var m' := map n | n in m && n != last.nonce :: m[n];
      assert m.Keys == m'.Keys + {last.nonce};
      forall n | n in m' ensures m'[n] in s[..|s| - 1] {
        assert m[n] in s;
        var i :| 0 <= i < |s| && s[i] == m[n];
        assert s[..|s| - 1][i] == s[i];
      }
      ListsLength(s[..|s| - 1], m');
    }
  }

  lemma SortedPrefix(s: seq<Tx>, m: Items, t: nat, k: nat)
    requires SortedOf(s, m) && Filed(m) && k <= |s|
    requires forall i :: 0 <= i < |s| ==> (i < k <==> s[i].nonce < t)
    ensures SortedOf(s[..k], Below(m, t))
  {
    forall n | n in Below(m, t) ensures m[n] in s[..k] {
      assert m[n] in s;
      var i :| 0 <= i < |s| && s[i] == m[n];
      assert s[..k][i] == s[i];
    }
  }

  lemma SortedSuffix(s: seq<Tx>, m: Items, t: nat, k: nat)
    requires SortedOf(s, m) && Filed(m) && k <= |s|
    requires forall i :: 0 <= i < |s| ==> (i < k <==> s[i].nonce < t)
    ensures SortedOf(s[k..], From(m, t))
  {
    forall n | n in From(m, t) ensures m[n] in s[k..] {
      assert m[n] in s;
      var i :| 0 <= i < |s| && s[i] == m[n];
      assert s[k..][i - k] == s[i];
    }
  }

  lemma CutPoint(s: seq<Tx>, t: nat) returns (k: nat)
    requires forall i, j :: 0 <= i < j < |s| ==> s[i].nonce < s[j].nonce
    ensures k <= |s| && forall i :: 0 <= i < |s| ==> (i < k <==> s[i].nonce < t)
  {
    k := 0;
    while k < |s| && s[k].nonce < t
      invariant 0 <= k <= |s| && forall i :: 0 <= i < k ==> s[i].nonce < t
    {
      k := k + 1;
    }
  }

  /** Cutting a sorted listing where the nonces reach t gives the two halves. */
  lemma SortedCut(s: seq<Tx>, m: Items, t: nat)
    requires SortedOf(s, m) && Filed(m)
    ensures var k := |Below(m, t)|; k <= |s| && SortedOf(s[..k], Below(m, t)) && SortedOf(s[k..], From(m, t))
  {
    var k := CutPoint(s, t);
    SortedPrefix(s, m, t, k);
    SortedSuffix(s, m, t, k);
    SortedLength(s[..k], Below(m, t));
  }

  lemma SortedLength(s: seq<Tx>, m: Items)
    requires SortedOf(s, m) && Filed(m)
    ensures |s| == |m|
  {
    ListsLength(s, m);
  }

  /** A listing in nonce order is unique. */
  lemma {:induction false} SortedUnique(s: seq<Tx>, t: seq<Tx>, m: Items)
    requires SortedOf(s, m) && SortedOf(t, m) && Filed(m)
    ensures s == t
    decreases |s|
  {
    SortedLength(s, m);
    SortedLength(t, m);
    if s != [] {
      var k := |s| - 1;
      var a, b := s[k].nonce, t[k].nonce;
      assert m[a] in t && m[b] in s;
      assert a == b;
      assert s[k] == t[k];
      LastDropped(s, m);
      LastDropped(t, m);
      SortedUnique(s[..k], t[..k], Below(m, a));
      assert s == s[..k] + [s[k]] && t == t[..k] + [t[k]];
    }
  }

  lemma LastDropped(s: seq<Tx>, m: Items)
    requires SortedOf(s, m) && Filed(m) && s != []
    ensures SortedOf(s[..|s| - 1], Below(m, s[|s| - 1].nonce))
  {
    var k := |s| - 1;
    forall n | n in Below(m, s[k].nonce) ensures m[n] in s[..k] {
      assert m[n] in s;
      var i :| 0 <= i < |s| && s[i] == m[n];
      assert s[..k][i] == s[i];
    }
  }

  // --------------------------------------------------------------------- Cap

  /** The nonces of m below n. */
  function Lower(m: Items, n: nat): set<nat> { set x | x in m && x < n }

  /** Cap: the k lowest nonces stay. */
  function CapKept(m: Items, k: nat): Items { map n | n in m && |Lower(m, n)| < k :: m[n] }

  lemma {:induction false} LowerCap(m: Items, keys: set<nat>, k: nat)
    requires forall n :: n in keys ==> n in m && |Lower(m, n)| < k
    ensures |keys| <= k
  {
    if keys != {} {
      var top := MaxOf(keys);
      if k > 0 {
        forall n | n in keys - {top} ensures |Lower(m, n)| < k - 1 {
          Grows(Lower(m, n) + {n}, Lower(m, top));
        }
        LowerCap(m, keys - {top}, k - 1);
      }
      assert |keys - {top}| == |keys| - 1;
    }
  }

  lemma {:induction false} MaxOf(keys: set<nat>) returns (top: nat)
    requires keys != {}
    ensures top in keys && forall n :: n in keys ==> n <= top
  {
    top :| top in keys;
    var rest := keys - {top};
    assert forall n :: n in keys ==> n == top || n in rest;
    if rest != {} {
      var other := MaxOf(rest);
      if other > top { top := other; }
    }
  }

  lemma {:induction false} Grows(a: set<nat>, b: set<nat>)
    requires a <= b
    ensures |a| <= |b|
  {
    if a != {} {
      var x :| x in a;
      Grows(a - {x}, b - {x});
    }
  }

  /** Cap leaves at most k transactions. */
  lemma CapBound(m: Items, k: nat)
    ensures |CapKept(m, k)| <= k
  {
    LowerCap(m, CapKept(m, k).Keys, k);
  }

  /** ... and the rest is dropped. */
  function CapDropped(m: Items, k: nat): Items { map n | n in m && |Lower(m, n)| >= k :: m[n] }

  // ------------------------------------------------------------------- Ready

  /** The consecutive nonces from lo on that m holds, up to n. */
  ghost predicate Run(m: Items, lo: nat, n: nat) { forall k :: lo <= k <= n ==> k in m }

  ghost predicate IsMin(m: Items, lo: nat) { lo in m && forall n :: n in m ==> lo <= n }

  /**
   What Ready takes: nothing if the lowest nonce is beyond start, else the run from the lowest nonce to the
   first gap.
   */
  ghost predicate ReadyTakes(m: Items, start: nat, taken: Items) {
    if m == map[] || forall n :: n in m ==> n > start then taken == map[]
    else exists lo: nat, hi: nat ::
      IsMin(m, lo) && lo < hi && hi !in m && (forall k :: lo <= k < hi ==> k in m) && taken == Below(m, hi)
  }

  // ------------------------------------------------------------------ Filter

  predicate Unpayable(tx: Tx, costLimit: nat, gasLimit: nat) { tx.cost > costLimit || tx.gas > gasLimit }

  /** Filter's first result: what the account cannot pay for. */
  function Unpaid(m: Items, costLimit: nat, gasLimit: nat): Items {
    map n | n in m && Unpayable(m[n], costLimit, gasLimit) :: m[n]
  }

  /** Filter's second result in strict mode: what comes after something that was removed. */
  function Invalidated(m: Items, costLimit: nat, gasLimit: nat): Items {
    map n | n in m && !Unpayable(m[n], costLimit, gasLimit)
      && (exists k :: k in m && k < n && Unpayable(m[k], costLimit, gasLimit)) :: m[n]
  }

  /** What a strict list keeps. */
  function StrictKept(m: Items, costLimit: nat, gasLimit: nat): Items {
    map n | n in m && (forall k :: k in m && k <= n ==> !Unpayable(m[k], costLimit, gasLimit)) :: m[n]
  }

  /** What a list that may have gaps keeps. */
  function LooseKept(m: Items, costLimit: nat, gasLimit: nat): Items {
    map n | n in m && !Unpayable(m[n], costLimit, gasLimit) :: m[n]
  }

  /** Kept, removed and invalidated transactions partition the list. */
  lemma FilterPartitions(m: Items, costLimit: nat, gasLimit: nat)
    ensures var a, b, c := StrictKept(m, costLimit, gasLimit).Keys, Unpaid(m, costLimit, gasLimit).Keys,
      Invalidated(m, costLimit, gasLimit).Keys;
      a !! b && a !! c && b !! c && a + b + c == m.Keys
    ensures var a, b := LooseKept(m, costLimit, gasLimit).Keys, Unpaid(m, costLimit, gasLimit).Keys;
      a !! b && a + b == m.Keys
  {
    FilterMembers(m, costLimit, gasLimit);
    hide StrictKept;
    hide Unpaid;
    hide Invalidated;
    hide LooseKept;
    hide Spoilt;
    hide Unpayable;
  }

  /** Nonce n cannot be paid for, or comes after one that cannot. */
  ghost predicate Spoilt(m: Items, costLimit: nat, gasLimit: nat, n: nat) {
    exists k :: k in m && k <= n && Unpayable(m[k], costLimit, gasLimit)
  }

  lemma FilterMembers(m: Items, costLimit: nat, gasLimit: nat)
    ensures forall n :: n in Unpaid(m, costLimit, gasLimit) <==> n in m && Unpayable(m[n], costLimit, gasLimit)
    ensures forall n :: n in LooseKept(m, costLimit, gasLimit) <==> n in m && !Unpayable(m[n], costLimit, gasLimit)
    ensures forall n :: n in StrictKept(m, costLimit, gasLimit) <==> n in m && !Spoilt(m, costLimit, gasLimit, n)
    ensures forall n :: n in Invalidated(m, costLimit, gasLimit) <==>
      n in m && !Unpayable(m[n], costLimit, gasLimit) && Spoilt(m, costLimit, gasLimit, n)
    ensures forall n :: n in m && Unpayable(m[n], costLimit, gasLimit) ==> Spoilt(m, costLimit, gasLimit, n)
  {
    hide Unpayable;
    forall n | n in m && !Unpayable(m[n], costLimit, gasLimit)
      ensures n in Invalidated(m, costLimit, gasLimit) <==> Spoilt(m, costLimit, gasLimit, n)
    {
      if Spoilt(m, costLimit, gasLimit, n) {
        var k :| k in m && k <= n && Unpayable(m[k], costLimit, gasLimit);
        assert k < n;
      }
    }
  }

  // -------------------------------------------------------------- contiguity

  /** The nonces are exactly those of the interval [lo, hi). */
  ghost predicate Interval(m: Items, lo: nat, hi: nat) { forall n :: n in m <==> lo <= n < hi }

  /** A contiguous strict list stays contiguous when anything above a point, or below one, goes. */
  lemma IntervalCut(m: Items, lo: nat, hi: nat, t: nat)
    requires Interval(m, lo, hi)
    ensures lo <= t <= hi ==> Interval(Below(m, t), lo, t) && Interval(From(m, t), t, hi)
    ensures t <= lo ==> From(m, t) == m && Below(m, t) == map[]
    ensures t >= hi ==> From(m, t) == map[] && Below(m, t) == m
  {
  }

  /** ... and so it does under Filter. */
  lemma IntervalFilter(m: Items, lo: nat, hi: nat, costLimit: nat, gasLimit: nat) returns (t: nat)
    requires Interval(m, lo, hi) && lo <= hi
    ensures lo <= t <= hi && StrictKept(m, costLimit, gasLimit) == Below(m, t)
    ensures Interval(StrictKept(m, costLimit, gasLimit), lo, t)
  {
    t := lo;
    while t < hi && !Unpayable(m[t], costLimit, gasLimit)
      invariant lo <= t <= hi && forall k :: lo <= k < t ==> !Unpayable(m[k], costLimit, gasLimit)
    {
      t := t + 1;
    }
  }

  lemma {:induction false} CountBelow(m: Items, lo: nat, hi: nat, n: nat)
    requires Interval(m, lo, hi) && lo <= n <= hi
    ensures |Lower(m, n)| == n - lo
  {
    if n == lo {
      assert Lower(m, n) == {};
    } else {
      CountBelow(m, lo, hi, n - 1);
      assert Lower(m, n) == Lower(m, n - 1) + {n - 1};
    }
  }

  /** ... and under Cap. */
  lemma IntervalCap(m: Items, lo: nat, hi: nat, k: nat)
    requires Interval(m, lo, hi) && lo <= hi
    ensures var t := if lo + k < hi then lo + k else hi; CapKept(m, k) == Below(m, t) && Interval(CapKept(m, k), lo, t)
  {
    forall n | n in m ensures |Lower(m, n)| == n - lo { CountBelow(m, lo, hi, n); }
  }
}
