/**
 Hasher.Write, which cuts the written bytes into double segments, and the main
 result: the concurrent tree computes what RefHasher.Hash computes.
 */
module BmtHasher {
  import opened BmtRef
  import opened BmtTree
  import opened BmtTheorem

  // ------------------------------------------------------------- cutting the data

  /** The double segments of a chunk; the last may be partial, and empty data has one empty segment. */
  function Split(size: nat, data: Bytes): (segs: seq<Bytes>)
    requires size > 0
    ensures |segs| > 0
  {
    if |data| <= 2 * size then [data] else [data[..2 * size]] + Split(size, data[2 * size..])
  }

  /** The bytes that n leaves hold. */
  function LeafBytes(size: nat, n: int): nat {
    if n <= 0 then 0 else LeafBytes(size, n - 1) + 2 * size
  }

  lemma {:induction false} LeafBytesIs(size: nat, n: nat)
    ensures LeafBytes(size, n) == 2 * size * n
  {
    if n > 0 {
      LeafBytesIs(size, n - 1);
      assert 2 * size * n == 2 * size * (n - 1) + 2 * size;
    }
  }

  lemma {:induction false} SplitShape(size: nat, data: Bytes)
    requires size > 0
    ensures var segs := Split(size, data); var n := |segs|;
      && LeafBytes(size, n - 1) <= |data| <= LeafBytes(size, n)
      && (|data| > 0 ==> LeafBytes(size, n - 1) < |data|)
      && (forall i :: 0 <= i < n - 1 ==> |segs[i]| == 2 * size)
      && |segs[n - 1]| == |data| - LeafBytes(size, n - 1)
  {
    if |data| > 2 * size { SplitShape(size, data[2 * size..]); }
  }

  /** The end of the block of w bytes that starts at offset a. */
  function End(data: Bytes, a: nat, w: nat): nat {
    if a + w <= |data| then a + w else |data|
  }

  lemma {:induction false} SplitAt(size: nat, data: Bytes, i: nat)
    requires size > 0 && i < |Split(size, data)|
    ensures LeafBytes(size, i) <= |data| && Split(size, data)[i] == Block(data, LeafBytes(size, i), 2 * size)
  {
    if |data| > 2 * size && i > 0 {
      var rest := data[2 * size..];
      SplitAt(size, rest, i - 1);
      BlockShift(data, 2 * size, LeafBytes(size, i - 1), 2 * size);
    }
  }

  lemma BlockShift(data: Bytes, n: nat, a: nat, w: nat)
    requires n + a <= |data|
    ensures Block(data[n..], a, w) == Block(data, a + n, w)
  {
    var e := End(data[n..], a, w);
    assert End(data, a + n, w) == e + n;
    assert data[n..][a..e] == data[a + n..e + n];
  }

  /** The w bytes from offset a on, as far as they exist. */
  function Block(data: Bytes, a: nat, w: nat): Bytes
    requires a <= |data|
  {
    data[a..End(data, a, w)]
  }

  /** Bytes that still fit into the open last segment extend it. */
  lemma {:induction false} SplitExtend(size: nat, data: Bytes, more: Bytes)
    requires size > 0
    requires var segs := Split(size, data); |segs[|segs| - 1]| + |more| <= 2 * size
    ensures var segs := Split(size, data); var n := |segs| - 1;
      Split(size, data + more) == segs[..n] + [segs[n] + more]
  {
    if |data| <= 2 * size {
    } else {
      var rest := data[2 * size..];
      SplitExtend(size, rest, more);
      assert (data + more)[2 * size..] == rest + more;
      assert (data + more)[..2 * size] == data[..2 * size];
      var segs, tail := Split(size, data), Split(size, rest);
      assert segs == [data[..2 * size]] + tail;
      assert segs[..|segs| - 1] == [data[..2 * size]] + tail[..|tail| - 1];
    }
  }

  /** Once the last segment is full, the next bytes open a new one. */
  lemma {:induction false} SplitAppend(size: nat, data: Bytes, more: Bytes)
    requires size > 0 && 0 < |more| <= 2 * size
    requires var segs := Split(size, data); |segs[|segs| - 1]| == 2 * size
    ensures Split(size, data + more) == Split(size, data) + [more]
  {
    assert (data + more)[2 * size..] == data[2 * size..] + more;
    assert (data + more)[..2 * size] == data[..2 * size];
    if |data| == 2 * size {
      assert data[2 * size..] + more == more;
      assert data[..2 * size] == data;
    } else {
      SplitAppend(size, data[2 * size..], more);
    }
  }

  // ------------------------------------------------------------------------ Write

  function Min(a: int, b: int): int { if a < b then a else b }

  function Leaves(count: nat): nat { (count + 1) / 2 }

  /** How many of l offered bytes one Write takes, with cur leaves launched and open bytes pending. */
  function Taken(size: nat, count: nat, cur: nat, open: nat, l: nat): int {
    var room := size * count - 2 * size * cur;
    if cur + 1 == Leaves(count) then Min(l, room - open)
    else Min(Min(l, room), LeafBytes(size, Leaves(count) - cur) - open)
  }

  /** Hasher, as far as Write is concerned; launched are the segments handed to goroutines so far. */
  class Hasher {
    const size: nat
    const count: nat
    var cur: nat
    var segment: Bytes
    var launched: seq<Bytes>
    ghost var data: Bytes

    ghost predicate Valid()
      reads this
    {
      && size > 0 && count > 0
      && cur == |launched| < Leaves(count)
      && launched + [segment] == Split(size, data)
    }

    constructor (size: nat, count: nat)
      requires size > 0 && count > 0
      ensures Valid() && data == [] && this.size == size && this.count == count
    {
      this.size, this.count := size, count;
      cur, segment, launched, data := 0, [], [], [];
    }

    /** Earlier Writes have taken more than the chunk can hold. */
    ghost predicate Overrun()
      reads this
    {
      |data| > size * count
    }

    /**
     Write takes bytes off the front of b and keeps the segments those of all the data taken so far. If
     there are bytes to take after an overrun, it slices with a negative bound and panics.
     */
    method Write(b: Bytes) returns (panics: bool)
      requires Valid()
      modifies this
      ensures Valid()
      ensures panics <==> old(Overrun()) && b != []
      ensures panics || b == [] ==>
        data == old(data) && cur == old(cur) && segment == old(segment) && launched == old(launched)
      ensures !old(Overrun()) ==>
        && 0 <= Taken(size, count, old(cur), |old(segment)|, |b|) <= |b|
        && data == old(data) + b[..Taken(size, count, old(cur), |old(segment)|, |b|)]
    {
      hide Split;
      hide Cursor;
      hide LeafBytes;
      var l := |b|;
      if l <= 0 {
        if |data| <= size * count { WriteNothing(size, count, launched, segment, data); }
        assert data + b[..0] == data;
        return false;
      }
      var leaves := (count + 1) / 2;
      var need := count * size - cur * 2 * size;
      var sz := size;
      if need > sz { sz := sz * 2; }
      if l < need { need := l; }
      // the bytes that complete the open segment
      var rest := sz - |segment|;
      if need < rest { rest := need; }
      RestIsNegative(size, count, launched, segment, data, l, sz, need, rest);
      if rest < 0 { return true; }
      panics := false;
      ghost var taken, full := BeginFill(size, count, launched, segment, data, b, sz, need, rest);
      var out, s := CutLeaves(size, leaves, b, launched, segment + b[..rest], rest, need - rest,
                              data + b[..rest], need, full, taken);
      TakeMore(data, b, rest, taken - rest);
      data := data + b[..taken];
      launched, segment, cur := out, s, |out|;
    }
  }

  /** The slice bound is negative just after an overrun. */
  lemma RestIsNegative(size: nat, count: nat, launched: seq<Bytes>, segment: Bytes, data: Bytes, l: nat, sz: nat,
                       need: int, rest: int)
    requires size > 0 && count > 0 && |launched| < Leaves(count) && launched + [segment] == Split(size, data) && l > 0
    requires var room := count * size - |launched| * 2 * size;
      need == Min(l, room) && sz == (if room > size then size * 2 else size) && rest == Min(need, sz - |segment|)
    ensures rest < 0 <==> |data| > size * count
  {
    SliceBound(size, count, launched, segment, data);
    RestSign(count * size - |launched| * 2 * size, size, |segment|, l, sz, need, rest);
  }

  lemma RestSign(room: int, size: nat, open: nat, l: nat, sz: nat, need: int, rest: int)
    requires 0 < size <= room && open <= 2 * size && l > 0
    requires need == Min(l, room) && sz == (if room > size then size * 2 else size) && rest == Min(need, sz - open)
    ensures rest < 0 <==> room == size && open > size
  {
  }

  /** Of an odd number of segments the last leaf has room for one, and an overrun is just that it holds more. */
  lemma SliceBound(size: nat, count: nat, launched: seq<Bytes>, segment: Bytes, data: Bytes)
    requires size > 0 && count > 0 && |launched| < Leaves(count) && launched + [segment] == Split(size, data)
    ensures var room := count * size - |launched| * 2 * size;
      && room >= size && |segment| <= 2 * size
      && (|data| > size * count <==> room == size && |segment| > size)
      && (|data| > size * count ==> count % 2 == 1 && |launched| + 1 == Leaves(count))
  {
    var n := |launched|;
    SplitShape(size, data);
    LeafBytesIs(size, n);
    RoomArith(size, count, n);
    assert |Split(size, data)| - 1 == n && segment == Split(size, data)[n];
    assert LeafBytes(size, n + 1) == LeafBytes(size, n) + 2 * size;
    LeafBytesIs(size, Leaves(count) - n);
  }

  /** The first bytes of a Write complete the open segment or use up what is offered. */
  lemma FirstFill(size: nat, count: nat, cur: nat, open: nat, l: nat, sz: nat, need: int, rest: int)
    returns (taken: int, full: int)
    requires size > 0 && count > 0 && cur < Leaves(count)
    requires open <= 2 * size && open <= size * count - 2 * size * cur
    requires var room := size * count - 2 * size * cur;
      need == Min(l, room) && sz == (if room > size then 2 * size else size) && rest == Min(need, sz - open)
    ensures taken == Taken(size, count, cur, open, l) && 0 <= rest <= l && open + rest <= 2 * size
    ensures Cursor(size, Leaves(count) - 1 - cur, need - rest, rest, need, full, taken)
    ensures need - rest > 0 && cur < Leaves(count) - 1 ==> open + rest == 2 * size
  {
    RoomArith(size, count, cur);
    taken, full := Taken(size, count, cur, open, l), LeafBytes(size, Leaves(count) - cur) - open;
  }

  lemma WriteNothing(size: nat, count: nat, launched: seq<Bytes>, segment: Bytes, data: Bytes)
    requires size > 0 && count > 0 && |launched| < Leaves(count)
    requires launched + [segment] == Split(size, data) && |data| <= size * count
    ensures Taken(size, count, |launched|, |segment|, 0) == 0
  {
    Room(size, count, launched, segment, data);
    TakenNothing(size, count, |launched|, |segment|);
  }

  /** After the open segment has been filled the loop of Write can start. */
  lemma BeginFill(size: nat, count: nat, launched: seq<Bytes>, segment: Bytes, data: Bytes, b: Bytes,
                  sz: nat, need: int, rest: int)
    returns (taken: int, full: int)
    requires size > 0 && count > 0 && |launched| < Leaves(count)
    requires launched + [segment] == Split(size, data) && |data| <= size * count
    requires var room := count * size - |launched| * 2 * size;
      need == Min(|b|, room) && sz == (if room > size then 2 * size else size) && rest == Min(need, sz - |segment|)
    ensures taken == Taken(size, count, |launched|, |segment|, |b|) && 0 <= rest <= |b|
    ensures Cursor(size, Leaves(count) - 1 - |launched|, need - rest, rest, need, full, taken) && need <= |b|
    ensures need - rest > 0 && |launched| < Leaves(count) - 1 ==> |segment| + rest == 2 * size
    ensures launched + [segment + b[..rest]] == Split(size, data + b[..rest])
  {
    hide Split;
    hide Cursor;
    Room(size, count, launched, segment, data);
    taken, full := FirstFill(size, count, |launched|, |segment|, |b|, sz, need, rest);
    assert Split(size, data)[..|launched|] == launched;
    SplitExtend(size, data, b[..rest]);
  }

  /** The loop of Write: launch the finished segment and cut the next one, until the bytes or the leaves run out. */
  method CutLeaves(size: nat, leaves: nat, b: Bytes, launched: seq<Bytes>, segment: Bytes, start: nat, wants: int,
                   ghost before: Bytes, ghost wanted: int, ghost full: int, ghost taken: int)
    returns (out: seq<Bytes>, s: Bytes)
    requires size > 0 && |launched| < leaves && start <= |b| && wanted <= |b|
    requires launched + [segment] == Split(size, before)
    requires Cursor(size, leaves - 1 - |launched|, wants, start, wanted, full, taken)
    requires wants > 0 && |launched| < leaves - 1 ==> |segment| == 2 * size
    ensures start <= taken <= |b| && |out| < leaves
    ensures out + [s] == Split(size, before + b[start..taken])
  {
    out, s := launched, segment;
    var i, rest, need, sz := |launched|, start, wants, 2 * size;
    assert before + b[start..start] == before;
    while need > 0 && i < leaves - 1
      invariant start <= rest <= |b| && i == |out| < leaves
      invariant out + [s] == Split(size, before + b[start..rest])
      invariant Cursor(size, leaves - 1 - i, need, rest, wanted, full, taken)
      invariant need > 0 && i < leaves - 1 ==> |s| == sz == 2 * size
      decreases need
    {
      CursorStep(size, leaves - 1 - i, need, rest, wanted, full, taken);
      out := out + [s];
      need := need - sz;
      if need < 0 { sz := sz + need; }
      s := b[rest..rest + sz];
      CutNext(size, before, b, start, rest, sz, out);
      rest := rest + sz;
      i := i + 1;
    }
  }

  lemma CutNext(size: nat, before: Bytes, b: Bytes, start: nat, rest: nat, n: nat, segs: seq<Bytes>)
    requires size > 0 && start <= rest && rest + n <= |b| && 0 < n <= 2 * size
    requires |segs| > 0 && |segs[|segs| - 1]| == 2 * size && segs == Split(size, before + b[start..rest])
    ensures segs + [b[rest..rest + n]] == Split(size, before + b[start..rest + n])
  {
    SplitAppend(size, before + b[start..rest], b[rest..rest + n]);
    assert before + b[start..rest] + b[rest..rest + n] == before + b[start..rest + n];
  }

  /** How far Write has come: after more leaves follow, need bytes are wanted and rest are taken. */
  ghost predicate Cursor(size: nat, after: int, need: int, rest: int, wanted: int, full: int, taken: int) {
    && (after > 0 ==> taken == Min(wanted, full))
    && (after > 0 ==> (if need < 0 then rest else rest + need) == wanted)
    && (after > 0 && need > 0 ==> rest == full - LeafBytes(size, after))
    && (after == 0 || need <= 0 ==> rest == taken)
  }

  lemma CursorStep(size: nat, after: int, need: int, rest: int, wanted: int, full: int, taken: int)
    requires size > 0 && after > 0 && need > 0 && Cursor(size, after, need, rest, wanted, full, taken)
    ensures var n := Min(need, 2 * size); Cursor(size, after - 1, need - 2 * size, rest + n, wanted, full, taken)
  {
    assert LeafBytes(size, after) == LeafBytes(size, after - 1) + 2 * size;
  }

  lemma TakeMore(before: Bytes, b: Bytes, rest: nat, n: nat)
    requires rest + n <= |b|
    ensures before + b[..rest] + b[rest..rest + n] == before + b[..rest + n]
  {
  }

  lemma Widths(size: nat, a: int, b: int)
    requires a <= b
    ensures 2 * size * a <= 2 * size * b
  {
  }

  /** The open segment never exceeds the room that is left. */
  lemma Room(size: nat, count: nat, launched: seq<Bytes>, segment: Bytes, data: Bytes)
    requires size > 0 && count > 0 && |launched| < Leaves(count)
    requires launched + [segment] == Split(size, data) && |data| <= size * count
    ensures |segment| <= 2 * size && |segment| <= size * count - 2 * size * |launched|
    ensures count * size - |launched| * 2 * size == size * count - 2 * size * |launched|
  {
    var n := |launched|;
    SplitShape(size, data);
    LeafBytesIs(size, n);
    assert |Split(size, data)| - 1 == n && segment == Split(size, data)[n];
    Distribute(size, n, 0, 0);
  }

  lemma TakenNothing(size: nat, count: nat, cur: nat, open: nat)
    requires size > 0 && count > 0 && cur < Leaves(count) && open <= 2 * size && open <= size * count - 2 * size * cur
    ensures Taken(size, count, cur, open, 0) == 0
  {
    RoomArith(size, count, cur);
  }

  lemma RoomArith(size: nat, count: nat, n: nat)
    requires size > 0 && count > 0 && n < Leaves(count)
    ensures var room := count * size - n * 2 * size; var left := Leaves(count) - n;
      && room == size * count - 2 * size * n
      && room == LeafBytes(size, left) - (if count % 2 == 0 then 0 else size)
      && (left == 1 ==> room == if count % 2 == 0 then 2 * size else size)
      && (left > 1 ==> room > 2 * size)
  {
    var left := Leaves(count) - n;
    LeafBytesIs(size, left);
    if count % 2 == 0 {
      assert count == 2 * (n + left);
      Distribute(size, n, left, 0);
    } else {
      assert count == 2 * (n + left) - 1;
      Distribute(size, n, left, 1);
    }
    if left > 1 { Widths(size, 2, left); }
  }

  lemma Distribute(size: nat, n: nat, left: nat, odd: nat)
    ensures size * (2 * (n + left) - odd) == 2 * size * n + 2 * size * left - size * odd
    ensures n * 2 * size == 2 * size * n
  {
  }

  /**
   A Write that stays within the capacity takes everything. One that does not takes exactly what
   fits, unless the count is odd and the bytes run from an open segment into the last leaf: then it
   takes more than the chunk can hold.
   */
  lemma TakenIsExact(size: nat, count: nat, cur: nat, open: nat, l: nat)
    requires size > 0 && count > 0 && cur < Leaves(count)
    requires open <= 2 * size && open <= size * count - 2 * size * cur
    ensures var fits := size * count - 2 * size * cur - open;
      Taken(size, count, cur, open, l) == Min(l, fits) <==>
        !(count % 2 == 1 && cur + 1 < Leaves(count) && open > 0 && l > fits)
  {
    RoomArith(size, count, cur);
  }

  // ------------------------------------------- the tree's value is the reference

  function JobFor(h: Hash, size: nat, depth: nat, data: Bytes): Job
    requires size > 0
  {
    Job(h, size, depth, Split(size, data))
  }

  lemma JobIsValid(h: Hash, size: nat, count: nat, depth: nat, data: Bytes)
    requires size > 0 && count > 0 && DepthFits(count, depth) && |data| <= size * count
    ensures JobFor(h, size, depth, data).Valid()
    ensures |data| <= Width(size, depth)
  {
    SplitShape(size, data);
    Capacity(size, count, depth);
    var n, w := |Split(size, data)|, Pow2(depth);
    if n > w { LeafBytesMonotone(size, w, n - 1); }
  }

  lemma Capacity(size: nat, count: nat, depth: nat)
    requires DepthFits(count, depth)
    ensures size * count <= LeafBytes(size, Pow2(depth)) == Width(size, depth)
  {
    WidthIsPower(size, depth);
    LeafBytesIs(size, Pow2(depth));
    Scale(size, count, 2 * Pow2(depth));
    assert size * (2 * Pow2(depth)) == 2 * size * Pow2(depth);
  }

  lemma Scale(a: nat, b: int, c: int)
    requires b <= c
    ensures a * b <= a * c
  {
  }

  /** The value of a block of at most Width(k) bytes, by halving at fixed widths. */
  function BlockValue(h: Hash, size: nat, k: nat, d: Bytes): Bytes {
    if k == 0 then
      if |d| > size then h(d) else d
    else
      var w := Width(size, k - 1);
      if |d| <= w then BlockValue(h, size, k - 1, d)
      else h(BlockValue(h, size, k - 1, d[..w]) + BlockValue(h, size, k - 1, d[w..]))
  }

  lemma {:induction false} BlockDrop(h: Hash, size: nat, j: nat, k: nat, d: Bytes)
    requires j <= k && |d| <= Width(size, j)
    ensures BlockValue(h, size, k, d) == BlockValue(h, size, j, d)
  {
    if j < k {
      WidthMonotone(size, j, k - 1);
      BlockDrop(h, size, j, k - 1, d);
    }
  }

  /** RefHasher.hash, from any span that reaches half of the data, gives the block's value. */
  lemma {:induction false} RefIsBlock(h: Hash, size: nat, k: nat, d: Bytes, m: nat)
    requires size > 0 && size < |d| <= Width(size, k) && (|d| <= 2 * size || |d| <= Width(size, m + 1))
    ensures IsSpan(size, Width(size, m)) && RefHash(h, size, d, Width(size, m)) == BlockValue(h, size, k, d)
    decreases |d|
  {
    if |d| <= 2 * size {
      BlockDrop(h, size, 0, k, d);
    } else {
      var m' := HalveWidth(size, m, |d|);
      var w := Width(size, m');
      if k <= m' { WidthMonotone(size, k, m'); }
      BlockDrop(h, size, m' + 1, k, d);
      var left, right := d[..w], d[w..];
      RefIsBlock(h, size, m', left, m');
      if |right| > size {
        RefIsBlock(h, size, m', right, m');
      } else {
        BlockDrop(h, size, 0, m', right);
      }
    }
  }

  /** The offset of the first byte below a position. */
  function Offset(size: nat, k: nat, x: nat): nat {
    if k == 0 then LeafBytes(size, x) else Offset(size, k - 1, 2 * x)
  }

  lemma {:induction false} OffsetNext(size: nat, k: nat, x: nat)
    ensures Offset(size, k, x + 1) == Offset(size, k, x) + Width(size, k)
  {
    if k > 0 {
      OffsetNext(size, k - 1, 2 * x);
      OffsetNext(size, k - 1, 2 * x + 1);
      assert 2 * (x + 1) == 2 * x + 1 + 1;
    }
  }

  lemma {:induction false} OffsetZero(size: nat, k: nat)
    ensures Offset(size, k, 0) == 0
  {
    if k > 0 { OffsetZero(size, k - 1); }
  }

  lemma {:induction false} LeafBytesMonotone(size: nat, a: nat, b: nat)
    requires a <= b
    ensures LeafBytes(size, a) <= LeafBytes(size, b)
  {
    if a < b { LeafBytesMonotone(size, a, b - 1); }
  }

  /** A position has data below it exactly when its first byte exists. */
  lemma {:induction false} ActiveOffset(size: nat, length: nat, last: nat, k: nat, x: nat)
    requires LeafBytes(size, last) < length <= LeafBytes(size, last + 1)
    ensures x <= Anc(last, k) <==> Offset(size, k, x) < length
  {
    if k == 0 {
      if x <= last { LeafBytesMonotone(size, x, last); } else { LeafBytesMonotone(size, last + 1, x); }
    } else {
      ActiveOffset(size, length, last, k - 1, 2 * x);
    }
  }

  /** The segments are the consecutive double segments of the data. */
  ghost predicate Cuts(job: Job, data: Bytes) {
    && job.size > 0 && |job.segs| > 1
    && LeafBytes(job.size, job.Last()) < |data| <= LeafBytes(job.size, job.Last() + 1)
    && forall i {:trigger job.segs[i]} ::
         0 <= i < |job.segs| ==>
           LeafBytes(job.size, i) <= |data| && job.segs[i] == Block(data, LeafBytes(job.size, i), 2 * job.size)
  }

  lemma SplitCuts(h: Hash, size: nat, depth: nat, data: Bytes)
    requires size > 0 && |data| > 2 * size
    ensures Cuts(JobFor(h, size, depth, data), data)
  {
    SplitShape(size, data);
    forall i | 0 <= i < |Split(size, data)|
      ensures LeafBytes(size, i) <= |data| && Split(size, data)[i] == Block(data, LeafBytes(size, i), 2 * size)
    {
      SplitAt(size, data, i);
    }
  }

  lemma BlockHalves(data: Bytes, a: nat, w: nat)
    requires a < |data| && w > 0
    ensures a + w < |data| ==> |Block(data, a, 2 * w)| > w
    ensures a + w < |data| ==> Block(data, a, 2 * w)[..w] == Block(data, a, w)
    ensures a + w < |data| ==> Block(data, a, 2 * w)[w..] == Block(data, a + w, w)
    ensures a + w >= |data| ==> |Block(data, a, 2 * w)| <= w && Block(data, a, 2 * w) == Block(data, a, w)
  {
    if a + w < |data| {
      var e := End(data, a, 2 * w);
      assert End(data, a + w, w) == e;
      assert data[a..e][..w] == data[a..a + w];
      assert data[a..e][w..] == data[a + w..e];
    }
  }

  /** The value of the Width(k) bytes from offset a on, by offsets instead of slices. */
  function SpanValue(h: Hash, size: nat, data: Bytes, k: nat, a: nat): Bytes
    requires a <= |data|
    decreases k
  {
    if k == 0 then
      var d := Block(data, a, 2 * size);
      if |d| > size then h(d) else d
    else if a + Width(size, k - 1) >= |data| then
      SpanValue(h, size, data, k - 1, a)
    else
      h(SpanValue(h, size, data, k - 1, a) + SpanValue(h, size, data, k - 1, a + Width(size, k - 1)))
  }

  lemma SpanHalves(h: Hash, size: nat, data: Bytes, k: nat, a: nat)
    requires k > 0 && a < |data|
    ensures var w := Width(size, k - 1);
      SpanValue(h, size, data, k, a) ==
        if a + w >= |data| then SpanValue(h, size, data, k - 1, a)
        else h(SpanValue(h, size, data, k - 1, a) + SpanValue(h, size, data, k - 1, a + w))
  {
    hide Width;
    hide Block;
  }

  lemma HalvesValue(h: Hash, size: nat, k: nat, d: Bytes)
    requires k > 0
    ensures var w := Width(size, k - 1);
      BlockValue(h, size, k, d) ==
        if |d| <= w then BlockValue(h, size, k - 1, d)
          else h(BlockValue(h, size, k - 1, d[..w]) + BlockValue(h, size, k - 1, d[w..]))
  {
    hide Width;
  }

  lemma SpanLeaf(h: Hash, size: nat, data: Bytes, a: nat)
    requires a < |data|
    ensures SpanValue(h, size, data, 0, a) == BlockValue(h, size, 0, Block(data, a, Width(size, 0)))
  {
  }

  lemma {:induction false} SpanIsBlock(h: Hash, size: nat, data: Bytes, k: nat, a: nat)
    requires size > 0 && a < |data|
    ensures SpanValue(h, size, data, k, a) == BlockValue(h, size, k, Block(data, a, Width(size, k)))
    decreases k
  {
    hide SpanValue;
    hide BlockValue;
    hide Block;
    if k == 0 {
      SpanLeaf(h, size, data, a);
    } else {
      var w := Width(size, k - 1);
      assert Width(size, k) == 2 * w;
      BlockHalves(data, a, w);
      SpanHalves(h, size, data, k, a);
      HalvesValue(h, size, k, Block(data, a, 2 * w));
      SpanIsBlock(h, size, data, k - 1, a);
      if a + w < |data| { SpanIsBlock(h, size, data, k - 1, a + w); }
    }
  }

  lemma LeafValue(job: Job, data: Bytes, x: nat)
    requires Cuts(job, data) && x < |job.segs|
    ensures LeafBytes(job.size, x) <= |data|
    ensures job.Val(Pos(0, x)) == SpanValue(job.h, job.size, data, 0, LeafBytes(job.size, x))
  {
    var s := job.segs[x];
  }

  lemma InnerValue(job: Job, data: Bytes, k: nat, x: nat, a: nat, b: nat)
    requires |job.segs| > 0 && k > 0 && x <= Anc(job.Last(), k) && 2 * x <= Anc(job.Last(), k - 1)
    requires a < |data| && b == a + Width(job.size, k - 1) && (2 * x + 1 <= Anc(job.Last(), k - 1) <==> b < |data|)
    requires job.Val(Pos(k - 1, 2 * x)) == SpanValue(job.h, job.size, data, k - 1, a)
    requires b < |data| ==> job.Val(Pos(k - 1, 2 * x + 1)) == SpanValue(job.h, job.size, data, k - 1, b)
    ensures job.Val(Pos(k, x)) == SpanValue(job.h, job.size, data, k, a)
  {
  }

  /** What a node holds is the value of the bytes below it. */
  ghost predicate HoldsSpan(job: Job, data: Bytes, k: nat, x: nat)
    requires Cuts(job, data) && Offset(job.size, k, x) < |data|
  {
    x <= Anc(job.Last(), k) && job.Val(Pos(k, x)) == SpanValue(job.h, job.size, data, k, Offset(job.size, k, x))
  }

  lemma NodeJoins(job: Job, data: Bytes, k: nat, x: nat)
    requires Cuts(job, data) && Offset(job.size, k, x) < |data| && k > 0
    requires Offset(job.size, k - 1, 2 * x) < |data| && HoldsSpan(job, data, k - 1, 2 * x)
    requires Offset(job.size, k - 1, 2 * x + 1) < |data| ==> HoldsSpan(job, data, k - 1, 2 * x + 1)
    ensures HoldsSpan(job, data, k, x)
  {
    var a, b := Offset(job.size, k - 1, 2 * x), Offset(job.size, k - 1, 2 * x + 1);
    ActiveOffset(job.size, |data|, job.Last(), k, x);
    ActiveOffset(job.size, |data|, job.Last(), k - 1, 2 * x + 1);
    OffsetNext(job.size, k - 1, 2 * x);
    hide LeafBytes;
    hide Width;
    InnerValue(job, data, k, x, a, b);
  }

  lemma {:induction false} NodeIsSpan(job: Job, data: Bytes, k: nat, x: nat)
    requires Cuts(job, data) && Offset(job.size, k, x) < |data|
    ensures HoldsSpan(job, data, k, x)
    decreases k
  {
    if k == 0 {
      ActiveOffset(job.size, |data|, job.Last(), k, x);
      LeafValue(job, data, x);
    } else {
      hide HoldsSpan;
      NodeIsSpan(job, data, k - 1, 2 * x);
      if Offset(job.size, k - 1, 2 * x + 1) < |data| { NodeIsSpan(job, data, k - 1, 2 * x + 1); }
      NodeJoins(job, data, k, x);
    }
  }

  lemma TopWidth(job: Job, data: Bytes)
    requires Cuts(job, data)
    ensures Anc(job.Last(), job.Top()) == 0
    ensures 0 < |data| <= Width(job.size, job.Top())
  {
    var k := job.Top();
    HeightIsFirstZero(job.Last(), k);
    OffsetZero(job.size, k);
    OffsetNext(job.size, k, 0);
    ActiveOffset(job.size, |data|, job.Last(), k, 1);
  }

  lemma TopIsBlock(job: Job, data: Bytes)
    requires Cuts(job, data)
    ensures |data| <= Width(job.size, job.Top())
    ensures ChunkValue(job) == BlockValue(job.h, job.size, job.Top(), data)
  {
    TopWidth(job, data);
    OffsetZero(job.size, job.Top());
    NodeIsSpan(job, data, job.Top(), 0);
    SpanIsBlock(job.h, job.size, data, job.Top(), 0);
    assert Block(data, 0, Width(job.size, job.Top())) == data;
  }

  /** The value of the concurrent tree is the reference hash of the data. */
  lemma ChunkIsReference(h: Hash, size: nat, count: nat, depth: nat, data: Bytes)
    requires size > 0 && count > 0 && DepthFits(count, depth) && |data| <= size * count
    ensures var m := if depth == 0 then 0 else depth - 1;
      IsSpan(size, Width(size, m)) && ChunkValue(JobFor(h, size, depth, data)) == RefHash(h, size, data, Width(size, m))
  {
    var m := if depth == 0 then 0 else depth - 1;
    assert IsSpan(size, Width(size, m));
    JobIsValid(h, size, count, depth, data);
    if |data| > 2 * size {
      var job := JobFor(h, size, depth, data);
      SplitCuts(h, size, depth, data);
      TopIsBlock(job, data);
      RefIsBlock(h, size, job.Top(), data, m);
    }
  }

  /**
   Main result. On any usable tree, for any data within the capacity and under any schedule of the
   goroutines, Sum can only receive the reference hash, and no goroutine is left when it does.
   */
  lemma SumEqualsReference(h: Hash, size: nat, count: nat, depth: nat, data: Bytes, st: State, schedule: seq<Who>)
    requires size > 0 && count > 0 && DepthFits(count, depth) && |data| <= size * count
    requires var job := JobFor(h, size, depth, data); Init(job, st) && Runs(job, st, schedule)
    ensures var last := Exec(JobFor(h, size, depth, data), st, schedule);
      var span := Width(size, if depth == 0 then 0 else depth - 1);
      last.caller.Received? || last.caller.Released? ==>
        && IsSpan(size, span)
        && last.caller.c == RefHashCapped(h, size, count, span, data)
        && last.tasks == map[]
  {
    JobIsValid(h, size, count, depth, data);
    EveryScheduleDelivers(JobFor(h, size, depth, data), st, schedule);
    ChunkIsReference(h, size, count, depth, data);
  }

  lemma TakesAll(size: nat, count: nat, launched: seq<Bytes>, segment: Bytes, data: Bytes, l: nat)
    requires size > 0 && count > 0 && |launched| < Leaves(count)
    requires launched + [segment] == Split(size, data) && |data| + l <= size * count
    ensures Taken(size, count, |launched|, |segment|, l) == l
  {
    var n := |launched|;
    SplitShape(size, data);
    LeafBytesIs(size, n);
    assert |Split(size, data)| - 1 == n && segment == Split(size, data)[n];
    TakenIsExact(size, count, n, |segment|, l);
  }

  // ------------------------------------------------------------- after an overrun

  lemma OneMore(count: nat, depth: nat)
    requires count % 2 == 1 && DepthFits(count, depth)
    ensures DepthFits(count + 1, depth)
  {
  }

  /**
   After an overrun Sum can only receive the hash of all the data taken, which is the reference hash
   for one more segment and not the capped one.
   */
  lemma SumAfterOverrun(h: Hash, size: nat, count: nat, depth: nat, data: Bytes, st: State, schedule: seq<Who>)
    requires size > 0 && count % 2 == 1 && DepthFits(count, depth) && size * count < |data| <= size * (count + 1)
    requires var job := JobFor(h, size, depth, data); Init(job, st) && Runs(job, st, schedule)
    ensures var last := Exec(JobFor(h, size, depth, data), st, schedule);
      var span := Width(size, if depth == 0 then 0 else depth - 1);
      last.caller.Received? || last.caller.Released? ==>
        IsSpan(size, span) && last.caller.c == RefHash(h, size, data, span) && last.tasks == map[]
  {
    OneMore(count, depth);
    SumEqualsReference(h, size, count + 1, depth, data, st, schedule);
  }

  /**
   A hasher for three one-byte segments takes four bytes; with a base hash that returns its input the two hashes
   differ.
   */
  lemma OverrunDiffers()
    ensures Taken(1, 3, 0, 1, 3) == 3 && DepthFits(3, 1) && IsSpan(1, 2)
    ensures var h, d: Bytes := (b: Bytes) => b, [1, 2, 3, 4];
      RefHash(h, 1, d, 2) == d && RefHashCapped(h, 1, 3, 2, d) == [1, 2, 3]
  {
    var h, d: Bytes := (b: Bytes) => b, [1, 2, 3, 4];
    assert Pow2(1) == 2 && LeafBytes(1, 1) == 2 && LeafBytes(1, 2) == 4;
    assert Width(1, 0) == 2;
    assert Halve(2, 4) == 2 && Halve(2, 3) == 2;
    assert d[..2] == [1, 2] && d[2..] == [3, 4] && d[..3] == [1, 2, 3];
    assert d[..3][..2] == [1, 2] && d[..3][2..] == [3];
    assert RefHash(h, 1, d[..2], 2) == [1, 2] && RefHash(h, 1, d[2..], 2) == [3, 4];
    assert RefHash(h, 1, d[..3], 2) == [1, 2] + [3];
  }

  /** Two Writes that overrun, and a third one that panics. */
  method OverrunPanics() returns (hasher: Hasher, panics: bool)
    ensures hasher.Valid() && hasher.Overrun() && panics
  {
    hasher := new Hasher(1, 3);
    assert LeafBytes(1, 1) == 2 && LeafBytes(1, 2) == 4;
    var one: Bytes, more: Bytes := [1], [2, 3, 4];
    SplitShort(1, hasher.data, hasher.launched, hasher.segment);
    var first := hasher.Write(one);
    assert Taken(1, 3, 0, 0, 1) == 1 && one[..1] == one;
    assert hasher.data == one;
    SplitShort(1, hasher.data, hasher.launched, hasher.segment);
    var second := hasher.Write(more);
    OverrunDiffers();
    assert hasher.data == one + more[..3] && |hasher.data| == 4;
    panics := hasher.Write([5]);
  }

  lemma SplitShort(size: nat, data: Bytes, launched: seq<Bytes>, segment: Bytes)
    requires size > 0 && |data| <= 2 * size && launched + [segment] == Split(size, data)
    ensures launched == [] && segment == data
  {
    assert |launched + [segment]| == 1 && (launched + [segment])[0] == segment;
  }

  /** Hashing after any sequence of Writes that stays within the capacity: the segments are those of the joined data. */
  method WriteAll(hasher: Hasher, writes: seq<Bytes>)
    requires hasher.Valid() && hasher.data == []
    requires |Joined(writes)| <= hasher.size * hasher.count
    modifies hasher
    ensures hasher.Valid() && hasher.data == Joined(writes)
    ensures hasher.launched + [hasher.segment] == Split(hasher.size, Joined(writes))
  {
    var i := 0;
    while i < |writes|
      invariant 0 <= i <= |writes| && hasher.Valid() && hasher.data == Joined(writes[..i])
    {
      JoinedStep(writes, i);
      assert writes[..i + 1][..i] == writes[..i];
      TakesAll(hasher.size, hasher.count, hasher.launched, hasher.segment, hasher.data, |writes[i]|);
      var panics := hasher.Write(writes[i]);
      assert writes[i][..|writes[i]|] == writes[i];
      i := i + 1;
    }
    assert writes[..|writes|] == writes;
  }

  function Joined(writes: seq<Bytes>): Bytes {
    if writes == [] then [] else Joined(writes[..|writes| - 1]) + writes[|writes| - 1]
  }

  lemma {:induction false} JoinedStep(writes: seq<Bytes>, i: nat)
    requires i < |writes|
    ensures Joined(writes[..i + 1]) == Joined(writes[..i]) + writes[i]
    ensures |Joined(writes[..i])| + |writes[i]| <= |Joined(writes)|
    decreases |writes|
  {
    assert writes[..i + 1][..i] == writes[..i];
    var n := |writes| - 1;
    if i < n {
      JoinedStep(writes[..n], i);
      assert writes[..n][..i] == writes[..i] && writes[..n][..i + 1] == writes[..i + 1];
    }
  }
}
