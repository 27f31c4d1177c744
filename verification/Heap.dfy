/**
 container/heap over a slice, as nonceHeap and priceHeap of tx_list.go use it:
 sift up, sift down, Push, Pop, Remove and Init. An element is ordered by a pair
 of integers, which covers both heaps: (nonce, 0) and (price, -nonce).
 */
module Heap {

  type Key = (int, int)

  predicate Less(a: Key, b: Key) { a.0 < b.0 || (a.0 == b.0 && a.1 < b.1) }

  function Parent(i: int): int { (i - 1) / 2 }

  /** Every element but those under suspicion is no smaller than its parent. */
  ghost predicate HeapExcept<T>(key: T -> Key, h: seq<T>, n: int, up: int, down: int) {
    && n <= |h|
    && (forall i :: 1 <= i < n && i != up && Parent(i) != down ==> !Less(key(h[i]), key(h[Parent(i)])))
    && (forall i :: 1 <= i < n && Parent(i) >= 1 && (Parent(i) == up || Parent(i) == down) ==>
          !Less(key(h[i]), key(h[Parent(Parent(i))])))
  }

  ghost predicate IsHeap<T>(key: T -> Key, h: seq<T>) {
    forall i :: 1 <= i < |h| ==> !Less(key(h[i]), key(h[Parent(i)]))
  }

  /** The head of a heap is a least element. */
  lemma {:induction false} HeadIsLeast<T>(key: T -> Key, h: seq<T>, i: nat)
    requires IsHeap(key, h) && i < |h|
    ensures !Less(key(h[i]), key(h[0]))
    decreases i
  {
    if i > 0 { HeadIsLeast(key, h, Parent(i)); }
  }

  function Swap<T>(h: seq<T>, i: nat, j: nat): (r: seq<T>)
    requires i < |h| && j < |h|
    ensures |r| == |h| && multiset(r) == multiset(h)
  {
    assert h == h[..i] + [h[i]] + h[i + 1..];
    h[i := h[j]][j := h[i]]
  }

  lemma UpStep<T>(key: T -> Key, h: seq<T>, j: nat)
    requires 1 <= j < |h| && HeapExcept(key, h, |h|, j, -1) && Less(key(h[j]), key(h[Parent(j)]))
    ensures HeapExcept(key, Swap(h, Parent(j), j), |h|, Parent(j), -1)
  {
    var i := Parent(j);
    var r := Swap(h, i, j);
    forall c | 1 <= c < |r| && c != i
      ensures !Less(key(r[c]), key(r[Parent(c)]))
    {
      if c != j {
        assert !Less(key(h[c]), key(h[Parent(c)]));
        if Parent(c) == j { assert !Less(key(h[c]), key(h[Parent(Parent(c))])); }
      }
    }
    forall c | 1 <= c < |r| && Parent(c) >= 1 && Parent(c) == i
      ensures !Less(key(r[c]), key(r[Parent(i)]))
    {
      assert !Less(key(h[i]), key(h[Parent(i)]));
      if c != j { assert !Less(key(h[c]), key(h[Parent(c)])); }
    }
  }

  /** heap.up */
  method Up<T>(key: T -> Key, h: seq<T>, j0: nat) returns (r: seq<T>)
    requires j0 < |h| && HeapExcept(key, h, |h|, j0, -1)
    ensures IsHeap(key, r) && multiset(r) == multiset(h) && |r| == |h|
  {
    r := h;
    var j := j0;
    while true
      invariant 0 <= j < |r| == |h| && multiset(r) == multiset(h)
      invariant HeapExcept(key, r, |r|, j, -1)
      decreases j
    {
      if j == 0 { break; } // Go's (0 - 1) / 2 is 0: the root is its own parent
      var i := (j - 1) / 2;
      if !Less(key(r[j]), key(r[i])) { break; }
      UpStep(key, r, j);
      r := Swap(r, i, j);
      j := i;
    }
  }

  lemma DownStep<T>(key: T -> Key, h: seq<T>, n: nat, i: nat, j: nat)
    requires i < j < n <= |h| && Parent(j) == i && HeapExcept(key, h, n, -1, i)
    requires Less(key(h[j]), key(h[i]))
    requires forall c :: 1 <= c < n && Parent(c) == i ==> !Less(key(h[c]), key(h[j]))
    ensures HeapExcept(key, Swap(h, i, j), n, -1, j)
  {
    var r := Swap(h, i, j);
    forall c | 1 <= c < n && Parent(c) != j
      ensures !Less(key(r[c]), key(r[Parent(c)]))
    {
      if Parent(c) != i { assert !Less(key(h[c]), key(h[Parent(c)])); }
      if c == i { assert Parent(j) == i && !Less(key(h[j]), key(h[Parent(Parent(j))])); }
    }
    forall c | 1 <= c < n && Parent(c) >= 1 && Parent(c) == j
      ensures !Less(key(r[c]), key(r[Parent(j)]))
    {
      assert !Less(key(h[c]), key(h[Parent(c)]));
    }
  }

  /** The child of i that heap.down compares with it: the left one, unless the right one is smaller. */
  function Smaller<T>(key: T -> Key, h: seq<T>, n: nat, i: nat): (j: nat)
    requires 2 * i + 1 < n <= |h|
    ensures i < j < n && Parent(j) == i
    ensures forall c :: 1 <= c < n && Parent(c) == i ==> !Less(key(h[c]), key(h[j]))
  {
    var j1 := 2 * i + 1;
    assert forall c :: 1 <= c < n && Parent(c) == i ==> c == j1 || c == j1 + 1;
    if j1 + 1 < n && Less(key(h[j1 + 1]), key(h[j1])) then j1 + 1 else j1
  }

  /** heap.down over the first n elements; an element that should rise instead does not move. */
  method Down<T>(key: T -> Key, h: seq<T>, i0: nat, n: nat) returns (r: seq<T>, moved: bool)
    requires i0 <= n <= |h| && (HeapExcept(key, h, n, -1, i0) || HeapExcept(key, h, n, i0, -1))
    ensures |r| == |h| && multiset(r[..n]) == multiset(h[..n]) && r[n..] == h[n..]
    ensures HeapExcept(key, h, n, -1, i0) || moved ==> HeapExcept(key, r, n, -1, -1)
    ensures !moved ==> r == h
  {
    r := h;
    var i := i0;
    while true
      invariant i0 <= i <= n <= |r| == |h| && multiset(r[..n]) == multiset(h[..n]) && r[n..] == h[n..]
      invariant i == i0 ==> r == h
      invariant HeapExcept(key, r, n, -1, i) || (i == i0 && HeapExcept(key, r, n, i0, -1))
      decreases n - i
    {
      if 2 * i + 1 >= n { break; }
      var j := Smaller(key, r, n, i);
      if !Less(key(r[j]), key(r[i])) { break; }
      DownStep(key, r, n, i, j);
      SwapPrefix(r, i, j, n);
      r := Swap(r, i, j);
      i := j;
    }
    moved := i > i0;
    assert forall c :: 1 <= c < n && Parent(c) == i ==> c == 2 * i + 1 || c == 2 * i + 2;
  }

  lemma SwapPrefix<T>(h: seq<T>, i: nat, j: nat, n: nat)
    requires i < n <= |h| && j < n
    ensures multiset(Swap(h, i, j)[..n]) == multiset(h[..n]) && Swap(h, i, j)[n..] == h[n..]
  {
    assert Swap(h, i, j)[..n] == Swap(h[..n], i, j);
  }

  /** heap.Push */
  method Push<T>(key: T -> Key, h: seq<T>, x: T) returns (r: seq<T>)
    requires IsHeap(key, h)
    ensures IsHeap(key, r) && multiset(r) == multiset(h) + multiset{x}
  {
    r := Up(key, h + [x], |h|);
  }

  lemma Prefix<T>(key: T -> Key, h: seq<T>, n: nat)
    requires n <= |h| && HeapExcept(key, h, n, -1, -1)
    ensures IsHeap(key, h[..n])
  {
    forall i | 1 <= i < n
      ensures !Less(key(h[..n][i]), key(h[..n][Parent(i)]))
    {
      assert !Less(key(h[i]), key(h[Parent(i)]));
    }
  }

  /** heap.Pop */
  method Pop<T>(key: T -> Key, h: seq<T>) returns (x: T, r: seq<T>)
    requires IsHeap(key, h) && |h| > 0
    ensures x == h[0] && IsHeap(key, r) && multiset(h) == multiset(r) + multiset{x} && |r| == |h| - 1
    ensures forall y :: y in r ==> !Less(key(y), key(x))
  {
    var n := |h| - 1;
    var s := Swap(h, 0, n);
    var moved;
    s, moved := Down(key, s, 0, n);
    assert s == s[..n] + s[n..] && s[n..] == Swap(h, 0, n)[n..] == [h[0]];
    assert Swap(h, 0, n) == Swap(h, 0, n)[..n] + [h[0]];
    x, r := s[n], s[..n];
    Prefix(key, s, n);
    forall y | y in r ensures !Less(key(y), key(x)) {
      assert y in multiset(h);
      var i :| 0 <= i < |h| && h[i] == y;
      HeadIsLeast(key, h, i);
    }
  }

  /** heap.Remove */
  method Remove<T>(key: T -> Key, h: seq<T>, i: nat) returns (r: seq<T>)
    requires IsHeap(key, h) && i < |h|
    ensures IsHeap(key, r) && multiset(h) == multiset(r) + multiset{h[i]}
  {
    var n := |h| - 1;
    if n == i {
      WithoutLast(key, h);
      return h[..n];
    }
    hide IsHeap;
    var s := TakeOut(h, i);
    Mend(key, h, i);
    r := Fix(key, s, i);
  }

  lemma WithoutLast<T>(key: T -> Key, h: seq<T>)
    requires IsHeap(key, h) && |h| > 0
    ensures IsHeap(key, h[..|h| - 1]) && multiset(h) == multiset(h[..|h| - 1]) + multiset{h[|h| - 1]}
  {
    assert h == h[..|h| - 1] + [h[|h| - 1]];
  }

  /** heap.Fix: the element at i may be out of order in either direction. */
  method Fix<T>(key: T -> Key, h: seq<T>, i: nat) returns (r: seq<T>)
    requires i < |h| && (HeapExcept(key, h, |h|, -1, i) || HeapExcept(key, h, |h|, i, -1))
    ensures IsHeap(key, r) && multiset(r) == multiset(h)
  {
    hide HeapExcept;
    hide IsHeap;
    var t, moved := Down(key, h, i, |h|);
    assert t[..|h|] == t && h[..|h|] == h;
    if moved {
      WholeHeap(key, t, i);
      return t;
    }
    if HeapExcept(key, h, |h|, -1, i) { WholeHeap(key, t, i); }
    r := Up(key, t, i);
  }

  /** The elements but the i-th, with the last one in its place. */
  function TakeOut<T>(h: seq<T>, i: nat): (s: seq<T>)
    requires i < |h|
    ensures |s| == |h| - 1 && multiset(h) == multiset(s) + multiset{h[i]}
  {
    assert Swap(h, i, |h| - 1) == Swap(h, i, |h| - 1)[..|h| - 1] + [h[i]];
    Swap(h, i, |h| - 1)[..|h| - 1]
  }

  /** Where nothing is out of order, nothing has to rise either. */
  lemma WholeHeap<T>(key: T -> Key, h: seq<T>, i: nat)
    requires HeapExcept(key, h, |h|, -1, -1)
    ensures IsHeap(key, h) && HeapExcept(key, h, |h|, i, -1)
  {
    forall c | 1 <= c < |h| && Parent(c) >= 1 && Parent(c) == i
      ensures !Less(key(h[c]), key(h[Parent(i)]))
    {
      assert !Less(key(h[c]), key(h[i])) && !Less(key(h[i]), key(h[Parent(i)]));
    }
  }

  /** The last element, put at i, can only be out of order in one direction. */
  lemma Mend<T>(key: T -> Key, h: seq<T>, i: nat)
    requires IsHeap(key, h) && i < |h| - 1
    ensures var n := |h| - 1; var t := TakeOut(h, i);
      if i > 0 && Less(key(t[i]), key(t[Parent(i)])) then HeapExcept(key, t, n, i, -1) else HeapExcept(key, t, n, -1, i)
  {
    var n := |h| - 1;
    var t := TakeOut(h, i);
    assert forall c :: 0 <= c < n && c != i ==> t[c] == h[c];
    Elsewhere(key, h, t, i);
    hide Less;
  }

  /** Putting another element at i disturbs only i and its children. */
  lemma Elsewhere<T>(key: T -> Key, h: seq<T>, t: seq<T>, i: nat)
    requires IsHeap(key, h) && i < |t| <= |h| && forall c :: 0 <= c < |t| && c != i ==> t[c] == h[c]
    ensures forall c :: 1 <= c < |t| && c != i && Parent(c) != i ==> !Less(key(t[c]), key(t[Parent(c)]))
    ensures forall c :: 1 <= c < |t| && Parent(c) == i && i >= 1 ==> !Less(key(t[c]), key(t[Parent(i)]))
  {
    forall c | 1 <= c < |t| && Parent(c) == i && i >= 1 ensures !Less(key(t[c]), key(t[Parent(i)])) {
      assert !Less(key(h[c]), key(h[Parent(c)])) && !Less(key(h[i]), key(h[Parent(i)]));
    }
  }

  /** heap.Init */
  method Init<T>(key: T -> Key, h: seq<T>) returns (r: seq<T>)
    ensures IsHeap(key, r) && multiset(r) == multiset(h)
  {
    r := h;
    var i := |h| / 2;
    while i > 0
      invariant 0 <= i <= |h| / 2 && |r| == |h| && multiset(r) == multiset(h)
      invariant forall c :: 1 <= c < |r| && Parent(c) >= i ==> !Less(key(r[c]), key(r[Parent(c)]))
    {
      i := i - 1;
      r := Sink(key, r, i);
    }
  }

  /** One heap.down of heap.Init: everything below i is already in order. */
  method Sink<T>(key: T -> Key, h: seq<T>, i0: nat) returns (r: seq<T>)
    requires i0 < |h|
    requires forall c :: 1 <= c < |h| && Parent(c) > i0 ==> !Less(key(h[c]), key(h[Parent(c)]))
    ensures |r| == |h| && multiset(r) == multiset(h)
    ensures forall c :: 1 <= c < |r| && Parent(c) >= i0 ==> !Less(key(r[c]), key(r[Parent(c)]))
  {
    r := h;
    var i := i0;
    while true
      invariant i0 <= i < |r| == |h| && multiset(r) == multiset(h)
      invariant forall c :: 1 <= c < |r| && Parent(c) >= i0 && Parent(c) != i ==> !Less(key(r[c]), key(r[Parent(c)]))
      invariant forall c :: 1 <= c < |r| && Parent(c) == i && Parent(i) >= i0 && i > i0 ==>
        !Less(key(r[c]), key(r[Parent(i)]))
      decreases |r| - i
    {
      if 2 * i + 1 >= |r| { break; }
      var j := Smaller(key, r, |r|, i);
      if !Less(key(r[j]), key(r[i])) { break; }
      SinkStep(key, r, i0, i, j);
      r := Swap(r, i, j);
      i := j;
    }
  }

  lemma SinkStep<T>(key: T -> Key, h: seq<T>, i0: nat, i: nat, j: nat)
    requires i0 <= i < j < |h| && Parent(j) == i && Less(key(h[j]), key(h[i]))
    requires forall c :: 1 <= c < |h| && Parent(c) >= i0 && Parent(c) != i ==> !Less(key(h[c]), key(h[Parent(c)]))
    requires forall c :: 1 <= c < |h| && Parent(c) == i && Parent(i) >= i0 && i > i0 ==>
      !Less(key(h[c]), key(h[Parent(i)]))
    requires forall c :: 1 <= c < |h| && Parent(c) == i ==> !Less(key(h[c]), key(h[j]))
    ensures var r := Swap(h, i, j);
      && (forall c :: 1 <= c < |r| && Parent(c) >= i0 && Parent(c) != j ==> !Less(key(r[c]), key(r[Parent(c)])))
      && (forall c :: 1 <= c < |r| && Parent(c) == j ==> !Less(key(r[c]), key(r[Parent(j)])))
  {
    var r := Swap(h, i, j);
    forall c | 1 <= c < |r| && Parent(c) >= i0 && Parent(c) != j
      ensures !Less(key(r[c]), key(r[Parent(c)]))
    {
      if Parent(c) != i { assert !Less(key(h[c]), key(h[Parent(c)])); }
      if c == i { assert !Less(key(h[j]), key(h[Parent(i)])); }
    }
    forall c | 1 <= c < |r| && Parent(c) == j
      ensures !Less(key(r[c]), key(r[Parent(j)]))
    {
      assert !Less(key(h[c]), key(h[Parent(c)]));
    }
  }
}
