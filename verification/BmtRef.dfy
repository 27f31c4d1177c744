/**
 The reference side of the binary Merkle tree hash (bmt_r.go): a recursion over
 the data that halves its span until it falls below the data length.

 The base hash is any function on byte strings; nothing is assumed about it,
 not even the length of its results.
 */
module BmtRef {

  newtype byte = x: int | 0 <= x < 256
  type Bytes = seq<byte>
  type Hash = Bytes -> Bytes

  function Pow2(k: nat): (r: nat)
    ensures r > 0
  {
    if k == 0 then 1 else 2 * Pow2(k - 1)
  }

  /** The number of bytes below a node that is k levels above the leaves. */
  function Width(size: nat, k: nat): (w: nat)
    ensures size > 0 ==> w >= 2 * size
  {
    if k == 0 then 2 * size else 2 * Width(size, k - 1)
  }

  lemma {:induction false} WidthIsPower(size: nat, k: nat)
    ensures Width(size, k) == 2 * size * Pow2(k)
  {
    if k > 0 {
      WidthIsPower(size, k - 1);
      assert 2 * (2 * size * Pow2(k - 1)) == 2 * size * (2 * Pow2(k - 1));
    }
  }

  lemma {:induction false} WidthMonotone(size: nat, j: nat, k: nat)
    requires j <= k
    ensures Width(size, j) <= Width(size, k)
  {
    if j < k { WidthMonotone(size, j, k - 1); }
  }

  /** A tree of this depth has room for count segments, and no shallower one has. */
  ghost predicate DepthFits(count: nat, d: nat) {
    && count <= 2 * Pow2(d)
    && (d > 0 ==> 2 * Pow2(d - 1) < count)
  }

  /** The loop of depth(): how often (n - 1) / 2 can be halved before it is zero. */
  method Depth(n: nat) returns (d: nat)
    requires n > 0
    ensures DepthFits(n, d)
  {
    d := 0;
    var l := (n - 1) / 2;
    while l > 0
      invariant Pow2(d) * l <= (n - 1) / 2 < Pow2(d) * (l + 1)
      invariant d > 0 ==> Pow2(d - 1) <= (n - 1) / 2
    {
      HalveStep(Pow2(d), l, (n - 1) / 2);
      d := d + 1;
      l := l / 2;
    }
  }

  lemma HalveStep(w: nat, l: nat, m: nat)
    requires w * l <= m < w * (l + 1)
    ensures 2 * w * (l / 2) <= m < 2 * w * (l / 2 + 1)
    ensures l > 0 ==> w <= m
  {
    Halves(w, l);
    Least(w, l);
  }

  lemma Least(w: nat, l: nat)
    ensures l > 0 ==> w <= w * l
  {
    if l > 0 { assert w * 1 <= w * l; }
  }

  lemma Halves(w: nat, l: nat)
    ensures 2 * w * (l / 2) <= w * l
    ensures w * (l + 1) <= 2 * w * (l / 2 + 1)
  {
    var q := l / 2;
    assert l == 2 * q || l == 2 * q + 1;
    assert w * (2 * q) == 2 * w * q;
    assert 2 * w * (q + 1) == w * (2 * q + 2);
  }

  /** The span loop of RefHasher.hash: halve s until it is below l. */
  function Halve(s: nat, l: nat): (r: nat)
    requires l > 0
    ensures r < l && r <= s
  {
    if s < l then s else Halve(s / 2, l)
  }

  /** A span is the width of some level, so that it can be halved down to one leaf. */
  ghost predicate IsSpan(size: nat, s: nat) {
    exists k: nat :: s == Width(size, k)
  }

  /** Halving a level's width stops at the widest level that is below the length. */
  lemma {:induction false} HalveWidth(size: nat, k: nat, l: nat)
    returns (m: nat)
    requires size > 0 && l > 2 * size
    ensures m <= k && Halve(Width(size, k), l) == Width(size, m)
    ensures Width(size, m) < l
    ensures m < k ==> l <= Width(size, m + 1)
  {
    if Width(size, k) < l {
      m := k;
    } else {
      m := HalveWidth(size, k - 1, l);
    }
  }

  /** RefHasher.hash. */
  function RefHash(h: Hash, size: nat, d: Bytes, s: nat): Bytes
    requires size > 0 && IsSpan(size, s)
    decreases |d|
  {
    if |d| <= 2 * size then
      h(d)
    else
      assert exists k: nat, m: nat :: s == Width(size, k) && Halve(s, |d|) == Width(size, m) by {
        var k: nat :| s == Width(size, k);
        var m := HalveWidth(size, k, |d|);
      }
      var t := Halve(s, |d|);
      var left := RefHash(h, size, d[..t], t);
      var right := if |d| - t > size then RefHash(h, size, d[t..], t) else d[t..];
      h(left + right)
  }

  /** The recursion of RefHasher.hash, with the span loop written out. */
  method HashSlice(h: Hash, size: nat, d: Bytes, span: nat) returns (r: Bytes)
    requires size > 0 && IsSpan(size, span)
    ensures r == RefHash(h, size, d, span)
    decreases |d|
  {
    var left, right := d, [];
    if |d| > 2 * size {
      var s := span;
      ghost var k: nat :| span == Width(size, k);
      while s >= |d|
        invariant k >= 0 && s == Width(size, k)
        invariant Halve(s, |d|) == Halve(span, |d|)
        decreases s
      {
        k := k - 1;
        s := s / 2;
      }
      assert s == Halve(span, |d|);
      left := HashSlice(h, size, d[..s], s);
      right := d[s..];
      if |d| - s > size {
        right := HashSlice(h, size, right, s);
      }
    }
    assert |d| <= 2 * size ==> left + right == d;
    r := h(left + right);
  }

  /** The power-of-two loop of NewRefHasher, returning the span in bytes. */
  method NewRefHasherSpan(size: nat, count: nat, ghost depth: nat) returns (span: nat)
    requires size > 0 && count > 0 && DepthFits(count, depth)
    ensures span == if depth == 0 then Width(size, 0) else Width(size, depth - 1)
  {
    var c := 2;
    ghost var k := 0;
    while c < count
      invariant c == 2 * Pow2(k) && k <= depth
      decreases count - c
    {
      PowBelow(k, depth, count);
      c := c * 2;
      k := k + 1;
    }
    PowAbove(k, depth, count);
    assert k == depth;
    if c > 2 { c := c / 2; }
    span := c * size;
    if depth == 0 {
      assert c == 2;
    } else {
      WidthIsPower(size, depth - 1);
      assert c == 2 * Pow2(depth - 1);
      assert c * size == 2 * size * Pow2(depth - 1);
    }
  }

  lemma {:induction false} PowMonotone(j: nat, k: nat)
    requires j <= k
    ensures Pow2(j) <= Pow2(k)
    decreases k
  {
    if j < k { PowMonotone(j, k - 1); }
  }

  lemma PowBelow(k: nat, depth: nat, count: nat)
    requires DepthFits(count, depth) && k <= depth && 2 * Pow2(k) < count
    ensures k < depth
  {
  }

  lemma PowAbove(k: nat, depth: nat, count: nat)
    requires DepthFits(count, depth) && k <= depth && 2 * Pow2(k) >= count
    ensures k == depth
  {
    if k < depth { PowMonotone(k, depth - 1); }
  }

  /** RefHasher.Hash: data beyond the capacity is cut off before hashing. */
  function RefHashCapped(h: Hash, size: nat, count: nat, span: nat, d: Bytes): Bytes
    requires size > 0 && IsSpan(size, span)
  {
    RefHash(h, size, if |d| > size * count then d[..size * count] else d, span)
  }
}
