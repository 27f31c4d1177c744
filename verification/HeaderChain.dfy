/**
 headerchain.go: writing headers and rewinding. The caches are transparent and left
 away; the canonical index, the total difficulties and the head are updated in place.
 */
module HeaderChain {
  import opened ChainTree

  datatype Status = NonStat | Canon | Side

  /** Every stored header has its total difficulty. */
  ghost predicate Weighed(tds: map<Hash, nat>, hs: Headers) {
    tds.Keys == hs.Keys && forall h :: h in tds ==> tds[h] == TdSum(hs, h)
  }

  ghost predicate Heaviest(tds: map<Hash, nat>, head: Hash) {
    head in tds && forall h :: h in tds ==> tds[h] <= tds[head]
  }

  class HeaderChain {
    const genesis: Header
    var headers: Headers
    var tds: map<Hash, nat>
    var canon: map<nat, Hash>
    var head: Header
    var headHash: Hash

    /** The index is linked from genesis to the head: all that a rewind keeps. */
    ghost predicate Sane()
      reads this
    {
      Linked(canon, headers, genesis, head) && headHash == head.hash
    }

    /**
     The stored headers are a tree with their total difficulties; the index is the path of the head, which is
     heaviest.
     */
    ghost predicate Valid()
      reads this
    {
      && Tree(headers, genesis) && head.hash in headers && headers[head.hash] == head && headHash == head.hash
      && ExactPath(canon, headers, head)
      && Weighed(tds, headers) && Heaviest(tds, head.hash)
    }

    constructor (genesis: Header)
      requires genesis.hash != 0 && genesis.parent == 0 && genesis.number == 0
      ensures Valid() && this.genesis == genesis && head == genesis
    {
      this.genesis, head, headHash := genesis, genesis, genesis.hash;
      headers, tds, canon := map[genesis.hash := genesis], map[genesis.hash := genesis.difficulty],
        map[0 := genesis.hash];
    }

    /** WriteHeader; coin is the flip that settles a tie. */
    method WriteHeader(header: Header, coin: bool) returns (status: Status)
      requires Valid() && Fits(headers, header)
      modifies this
      ensures Valid()
      ensures header.parent !in old(headers) ==>
        status == NonStat && headers == old(headers) && head == old(head) && canon == old(canon)
      ensures header.parent in old(headers) ==> headers == old(headers)[header.hash := header]
      ensures header.parent in old(headers) ==>
        var local, extern := TdSum(old(headers), old(head).hash),
            header.difficulty + TdSum(old(headers), header.parent);
        && status == (if extern > local || (extern == local && coin) then Canon else Side)
        && head == if status == Canon then header else old(head)
      ensures tds == if header.parent in old(headers)
        then old(tds)[header.hash := header.difficulty + old(tds)[header.parent]] else old(tds)
      ensures tds[head.hash] >= old(tds[head.hash])
    {
      hide Tree;
      hide Stale;
      hide ExactPath;
      hide TdSum;
      if header.parent !in tds { return NonStat; }
      TreeGrows(headers, genesis, header);
      ghost var before, was := headers, head;
      NotGenesis(before, genesis, header);
      var local, extern := tds[headHash], header.difficulty + tds[header.parent];
      tds := tds[header.hash := extern];
      headers := headers[header.hash := header];
      StoredWeighs(old(tds), before, genesis, header);
      PathGrows(canon, before, genesis, header, was);
      if extern > local || (extern == local && coin) {
        ghost var full := canon;
        PathKeys(full, headers, was);
        ClearAbove(header.number, full, was.number);
        ClearedIsStale(full, canon, headers, header, was);
        Reroute(header, was);
        headHash := header.hash;
        head := header;
        status := Canon;
      } else {
        status := Side;
      }
    }

    /** Delete canonical numbers above the new head, up to the first that is not there. */
    method ClearAbove(number: nat, ghost full: map<nat, Hash>, ghost top: nat)
      requires canon == full && forall n: nat :: n in full <==> n <= top
      modifies this`canon
      ensures canon == map n | n in full && n <= number :: full[n]
    {
      var i := number + 1;
      while i in canon
        invariant i > number && canon == map n | n in full && (n <= number || n >= i) :: full[n]
        decreases top + 1 - i
      {
        canon := canon - {i};
        i := i + 1;
      }
    }

    /** Overwrite stale canonical numbers from the new head down to the first that agrees. */
    method Reroute(header: Header, ghost was: Header)
      requires Tree(headers, genesis) && header.hash in headers && headers[header.hash] == header && header != genesis
      requires Stale(canon, headers, header, was)
      modifies this`canon
      ensures ExactPath(canon, headers, header)
    {
      hide Tree;
      hide Stale;
      hide Rerouting;
      hide ExactPath;
      ghost var start := canon;
      RerouteStart(start, headers, genesis, header, was);
      var h, n: nat := header.parent, header.number - 1;
      var hd := headers[h];
      while n !in canon || canon[n] != h
        invariant Rerouting(start, canon, headers, header, h, n) && h in headers && hd == headers[h] && hd.number == n
        decreases n
      {
        RerouteStep(start, canon, headers, genesis, header, was, h, n);
        canon := canon[n := h];
        h := hd.parent;
        n := hd.number - 1;
        hd := headers[h];
      }
      RerouteEnd(start, canon, headers, genesis, header, was, h, n);
      canon := canon[header.number := header.hash];
    }

    /**
     InsertHeaderChain: store the headers that are not known yet, stopping at one without a parent; heads are the
     heads before the batch and after each of its headers.
     */
    method InsertHeaderChain(chain: seq<Header>, coins: seq<bool>, ghost all: Headers)
      returns (stop: nat, ghost heads: seq<Header>)
      requires Valid() && Universe(all) && Within(headers, all) && |coins| == |chain|
      requires forall header :: header in chain ==> header.hash in all && all[header.hash] == header
      modifies this
      ensures Valid() && Within(headers, all) && Within(old(headers), headers)
      ensures tds[head.hash] >= old(tds[head.hash])
      ensures stop <= |chain| && AllStored(old(headers), headers, chain, stop)
      ensures Led(old(headers), chain, coins, tds, heads, stop)
      ensures |heads| == stop + 1 && heads[0] == old(head) && heads[stop] == head
      ensures forall h :: h in old(tds) ==> h in tds && tds[h] == old(tds[h])
      ensures stop < |chain| ==> chain[stop].parent !in headers && chain[stop].hash !in headers
    {
      hide Tree;
      hide ExactPath;
      hide Weighed;
      hide Fits;
      hide TdSum;
      hide Within;
      hide Universe;
      hide Led;
      hide AllStored;
      stop, heads := 0, [head];
      assert tds.Keys == headers.Keys && head.hash in tds by { WeighedKeys(tds, headers); }
      WithinSelf(headers);
      LedStart(headers, chain, coins, tds, head);
      while stop < |chain|
        invariant stop <= |chain| && Valid() && Within(headers, all) && Within(old(headers), headers)
        invariant tds[head.hash] >= old(tds[head.hash])
        invariant AllStored(old(headers), headers, chain, stop)
        invariant Led(old(headers), chain, coins, tds, heads, stop)
        invariant |heads| == stop + 1 && heads[0] == old(head) && heads[stop] == head
        invariant forall h :: h in old(tds) ==> h in tds && tds[h] == old(tds[h])
        invariant tds.Keys == headers.Keys
      {
        ghost var before, weights := headers, tds;
        if chain[stop].hash !in headers {
          WithinFits(before, all, chain[stop]);
          WeighedKeys(weights, before);
          var status := WriteHeader(chain[stop], coins[stop]);
          if status == NonStat { return; }
          WithinGrows(old(headers), before, all, chain[stop]);
        }
        WeighedKeys(tds, headers);
        LedNext(old(headers), before, headers, chain, coins, weights, tds, heads, stop, head);
        heads := heads + [head];
        stop := stop + 1;
      }
    }

    /** SetHead: every canonical header above the number is deleted, and the index ends at the new head. */
    method SetHead(number: nat)
      requires Sane()
      modifies this
      ensures Sane() && head.number == if old(head).number < number then old(head).number else number
      ensures canon == CutAt(old(canon), number)
      ensures headers == Rewound(old(headers), old(canon), number)
        && tds == old(tds) - Dropped(old(headers), old(canon), number)
    {
      hide CutAt;
      hide Linked;
      var height := head.number;
      ghost var hs, full, was := headers, canon, head;
      RewindStart(hs, full, genesis, head);
      while head.number > number
        invariant head.number <= was.number && (head.number >= number || head == was) && canon == full
        invariant Linked(CutAt(full, head.number), headers, genesis, head)
        invariant headers == Rewound(hs, full, head.number) && tds == old(tds) - Dropped(hs, full, head.number)
        decreases head.number
      {
        RewindStep(hs, headers, full, genesis, head, was);
        headers := headers - {head.hash};
        tds := tds - {head.hash};
        head := headers[head.parent];
      }
      var i := height;
      CutAll(full, height, number);
      while i > number
        modifies this`canon
        invariant canon == CutAt(full, if i > number then i else number)
      {
        CutStep(full, i);
        canon := canon - {i};
        i := i - 1;
      }
      headHash := head.hash;
      RewindEnd(hs, headers, full, genesis, was, head, number);
    }
  }

  // -------------------------------------------------------------------- runs

  ghost predicate Within(hs: Headers, all: Headers) { forall h :: h in hs ==> h in all && all[h] == hs[h] }

  /** All the headers there are: the hash determines the header, and headers are numbered after their parents. */
  ghost predicate Universe(all: Headers) {
    0 !in all && forall h :: h in all ==> all[h].hash == h && Fits(all, all[h])
  }

  lemma WeighedKeys(tds: map<Hash, nat>, hs: Headers)
    requires Weighed(tds, hs)
    ensures tds.Keys == hs.Keys && forall h :: h in tds ==> tds[h] == TdSum(hs, h)
  {
  }

  /** The i-th header of the batch had been there before, or came earlier in the batch. */
  ghost predicate Known(was: Headers, chain: seq<Header>, i: nat)
    requires i < |chain|
  {
    chain[i].hash in was || exists j :: 0 <= j < i && chain[j].hash == chain[i].hash
  }

  /** What was stored and the first n headers of the batch, and nothing else. */
  ghost predicate AllStored(was: Headers, hs: Headers, chain: seq<Header>, n: nat) {
    n <= |chain| && forall h :: h in hs <==> h in was || exists j :: 0 <= j < n && chain[j].hash == h
  }

  /** The head after a header: a new one takes over if it is heavier, or as heavy and the coin says so. */
  ghost predicate Leads(was: Headers, chain: seq<Header>, coins: seq<bool>, tds: map<Hash, nat>, head: Header,
                        head': Header, i: nat)
    requires i < |chain| == |coins|
  {
    && head.hash in tds && chain[i].hash in tds
    && var local, extern := tds[head.hash], tds[chain[i].hash];
       head' == if !Known(was, chain, i) && (extern > local || (extern == local && coins[i])) then chain[i] else head
  }

  ghost predicate Led(was: Headers, chain: seq<Header>, coins: seq<bool>, tds: map<Hash, nat>, heads: seq<Header>,
                      n: nat) {
    && |heads| == n + 1 && n <= |chain| == |coins| && (forall i :: 0 <= i <= n ==> heads[i].hash in tds)
    && forall i :: 0 <= i < n ==> Leads(was, chain, coins, tds, heads[i], heads[i + 1], i)
  }

  lemma LedStart(hs: Headers, chain: seq<Header>, coins: seq<bool>, tds: map<Hash, nat>, head: Header)
    requires |coins| == |chain| && head.hash in tds
    ensures Led(hs, chain, coins, tds, [head], 0) && AllStored(hs, hs, chain, 0)
  {
  }

  lemma LedNext(was: Headers, hs: Headers, hs': Headers, chain: seq<Header>, coins: seq<bool>, tds: map<Hash, nat>,
                tds': map<Hash, nat>, heads: seq<Header>, n: nat, head': Header)
    requires Led(was, chain, coins, tds, heads, n) && n < |chain| && AllStored(was, hs, chain, n)
    requires forall h :: h in tds <==> h in hs
    requires if chain[n].hash in hs then hs' == hs && tds' == tds && head' == heads[n]
      else
        && hs' == hs[chain[n].hash := chain[n]] && chain[n].hash in tds'
        && tds' == tds[chain[n].hash := tds'[chain[n].hash]]
        && var local, extern := tds'[heads[n].hash], tds'[chain[n].hash];
           head' == if extern > local || (extern == local && coins[n]) then chain[n] else heads[n]
    ensures Led(was, chain, coins, tds', heads + [head'], n + 1) && AllStored(was, hs', chain, n + 1)
  {
    assert Known(was, chain, n) <==> chain[n].hash in hs;
    var more := heads + [head'];
    forall i | 0 <= i < n + 1 ensures Leads(was, chain, coins, tds', more[i], more[i + 1], i) {
      if i < n { assert Leads(was, chain, coins, tds, heads[i], heads[i + 1], i); }
    }
  }

  lemma WithinSelf(hs: Headers)
    ensures Within(hs, hs)
  {
  }

  lemma WithinFits(hs: Headers, all: Headers, header: Header)
    requires Within(hs, all) && Universe(all) && header.hash in all && all[header.hash] == header
    ensures Fits(hs, header)
  {
  }

  lemma WithinGrows(start: Headers, hs: Headers, all: Headers, header: Header)
    requires Within(start, hs) && Within(hs, all) && header.hash !in hs && header.hash in all
      && all[header.hash] == header
    ensures Within(start, hs[header.hash := header]) && Within(hs[header.hash := header], all)
    ensures forall h :: h in hs ==> h in hs[header.hash := header]
  {
  }

  // ----------------------------------------------------------------- rewinding

  lemma CutStep(canon: map<nat, Hash>, n: nat)
    requires n > 0
    ensures CutAt(canon, n) - {n} == CutAt(canon, n - 1)
  {
  }

  lemma CutAll(canon: map<nat, Hash>, n: nat, m: nat)
    requires CutAt(canon, n) == canon
    ensures m >= n ==> CutAt(canon, m) == canon
  {
    forall k | k in canon ensures k <= n { assert k in CutAt(canon, n); }
  }

  function CutAt(canon: map<nat, Hash>, n: nat): map<nat, Hash> { map k | k in canon && k <= n :: canon[k] }

  /** The canonical headers above the number. */
  ghost function Dropped(hs: Headers, canon: map<nat, Hash>, number: nat): set<Hash> {
    set h | h in hs && hs[h].number > number && hs[h].number in canon && canon[hs[h].number] == h
  }

  ghost function Rewound(hs: Headers, canon: map<nat, Hash>, number: nat): Headers { hs - Dropped(hs, canon, number) }

  lemma RewindStart(hs: Headers, full: map<nat, Hash>, genesis: Header, head: Header)
    requires Linked(full, hs, genesis, head)
    ensures CutAt(full, head.number) == full && Dropped(hs, full, head.number) == {} && hs - {} == hs
  {
  }

  lemma RewindStep(hs: Headers, cur: Headers, full: map<nat, Hash>, genesis: Header, head: Header, was: Header)
    requires Linked(full, hs, genesis, was) && head.number <= was.number && head.number > 0
    requires Linked(CutAt(full, head.number), cur, genesis, head) && cur == Rewound(hs, full, head.number)
    ensures var cur' := cur - {head.hash};
      && head.parent in cur' && cur'[head.parent].number == head.number - 1
      && Linked(CutAt(full, head.number - 1), cur', genesis, cur'[head.parent])
      && cur' == Rewound(hs, full, head.number - 1)
      && Dropped(hs, full, head.number - 1) == Dropped(hs, full, head.number) + {head.hash}
  {
    var canon := CutAt(full, head.number);
    assert canon[head.number] == head.hash && canon[head.number - 1] == head.parent;
    assert full[head.number] == head.hash && hs[head.hash] == head;
    RewindMore(hs, full, head);
    LinkedLess(canon, cur, genesis, head);
    assert CutAt(full, head.number - 1) == CutAt(canon, head.number - 1);
  }

  lemma RewindMore(hs: Headers, full: map<nat, Hash>, head: Header)
    requires head.number > 0 && head.number in full && full[head.number] == head.hash && head.hash in hs
      && hs[head.hash] == head
    ensures Dropped(hs, full, head.number - 1) == Dropped(hs, full, head.number) + {head.hash}
    ensures Rewound(hs, full, head.number) - {head.hash} == Rewound(hs, full, head.number - 1)
  {
  }

  lemma LinkedLess(canon: map<nat, Hash>, cur: Headers, genesis: Header, head: Header)
    requires Linked(canon, cur, genesis, head) && head.number > 0
    ensures var cur' := cur - {head.hash};
      && head.parent in cur' && cur'[head.parent].number == head.number - 1
      && Linked(CutAt(canon, head.number - 1), cur', genesis, cur'[head.parent])
  {
    assert canon[head.number] == head.hash && canon[head.number - 1] == head.parent;
    forall n: nat | n < head.number ensures canon[n] in cur && canon[n] != head.hash {
      assert cur[canon[n]].number == n;
    }
  }

  lemma RewindEnd(hs: Headers, cur: Headers, full: map<nat, Hash>, genesis: Header, was: Header, head: Header,
                  number: nat)
    requires Linked(full, hs, genesis, was) && Linked(CutAt(full, head.number), cur, genesis, head)
    requires cur == Rewound(hs, full, head.number) && head.number <= was.number
      && (head.number == number || (head == was && head.number <= number))
    ensures CutAt(full, number) == CutAt(full, head.number)
      && Dropped(hs, full, number) == Dropped(hs, full, head.number)
  {
    forall h | h in hs && hs[h].number > head.number ensures hs[h].number !in full || head.number == number { }
  }

  /**
   After a rewind the stored headers are still a tree exactly when no stored side branch leaves the path above
   the new head.
   */
  lemma RewindKeepsTree(hs: Headers, canon: map<nat, Hash>, genesis: Header, head: Header, number: nat)
    requires Tree(hs, genesis) && head.hash in hs && hs[head.hash] == head && ExactPath(canon, hs, head)
      && number < head.number
    ensures Tree(Rewound(hs, canon, number), genesis) <==>
      forall h :: h in hs && hs[h].number > number && h in Rewound(hs, canon, number) ==>
        Anc(hs, h, number + 1) != canon[number + 1]
  {
    var cur := Rewound(hs, canon, number);
    if Tree(cur, genesis) {
      forall h | h in hs && hs[h].number > number && h in cur ensures Anc(hs, h, number + 1) != canon[number + 1] {
        AncIn(cur, genesis, h, number + 1);
        AncWithin(cur, hs, genesis, h, number + 1);
      }
    } else {
      RewindOrphan(hs, canon, genesis, head, number);
    }
  }

  /**
   Genesis, a header on it, a side branch of two from genesis's child: a rewind to genesis leaves the branch
   without a root.
   */
  lemma RewindOrphans()
    ensures exists hs: Headers, canon: map<nat, Hash>, genesis: Header, head: Header ::
      && Tree(hs, genesis) && head.hash in hs && hs[head.hash] == head && ExactPath(canon, hs, head) && 0 < head.number
      && !Tree(Rewound(hs, canon, 0), genesis)
  {
    OrphanTree();
    OrphanPath();
    OrphanLeft();
    assert OrphanHeaders()[3] == Header(3, 2, 2, 2);
    var hs, canon, genesis, head := OrphanHeaders(), OrphanIndex(), Header(1, 0, 0, 1), Header(3, 2, 2, 2);
    hide OrphanHeaders;
    hide OrphanIndex;
    hide Tree;
    hide ExactPath;
    hide Rewound;
    assert Tree(hs, genesis) && ExactPath(canon, hs, head) && !Tree(Rewound(hs, canon, 0), genesis);
  }

  /** Two headers on top of the first one after the genesis; the index leads to the heavier of them. */
  function OrphanHeaders(): Headers {
    map[1 := Header(1, 0, 0, 1), 2 := Header(2, 1, 1, 1), 3 := Header(3, 2, 2, 2), 4 := Header(4, 2, 2, 1)]
  }

  function OrphanIndex(): map<nat, Hash> { map[0 := 1, 1 := 2, 2 := 3] }

  lemma OrphanTree()
    ensures Tree(OrphanHeaders(), Header(1, 0, 0, 1))
  {
  }

  lemma OrphanPath()
    ensures ExactPath(OrphanIndex(), OrphanHeaders(), Header(3, 2, 2, 2))
  {
    var hs := OrphanHeaders();
    assert Anc(hs, 3, 2) == 3 && Anc(hs, 3, 1) == Anc(hs, 2, 1) == 2;
    assert Anc(hs, 3, 0) == Anc(hs, 2, 0) == Anc(hs, 1, 0) == 1;
  }

  lemma OrphanLeft()
    ensures !Tree(Rewound(OrphanHeaders(), OrphanIndex(), 0), Header(1, 0, 0, 1))
  {
    var cur := Rewound(OrphanHeaders(), OrphanIndex(), 0);
    assert 4 in cur && 2 !in cur && !Rooted(cur, Header(1, 0, 0, 1), cur[4]);
  }

  lemma {:induction false} AncWithin(cur: Headers, hs: Headers, genesis: Header, h: Hash, n: nat)
    requires Tree(cur, genesis) && Tree(hs, genesis) && Within(cur, hs) && h in cur
    ensures Anc(cur, h, n) == Anc(hs, h, n)
    decreases hs[h].number
  {
    assert Rooted(cur, genesis, cur[h]) && Rooted(hs, genesis, hs[h]);
    if hs[h] != genesis { AncWithin(cur, hs, genesis, hs[h].parent, n); }
  }

  /** If the tree is broken, some kept header hangs off a deleted one. */
  lemma RewindOrphan(hs: Headers, canon: map<nat, Hash>, genesis: Header, head: Header, number: nat)
    requires Tree(hs, genesis) && head.hash in hs && hs[head.hash] == head && ExactPath(canon, hs, head)
      && number < head.number
    requires !Tree(Rewound(hs, canon, number), genesis)
    ensures exists h ::
      h in hs && hs[h].number > number && h in Rewound(hs, canon, number) && Anc(hs, h, number + 1) == canon[number + 1]
  {
    var cur := Rewound(hs, canon, number);
    AncRoot(hs, genesis, head.hash);
    var h :| h in cur && !Rooted(cur, genesis, cur[h]);
    assert Rooted(hs, genesis, hs[h]);
    OrphanLeaves(hs, canon, genesis, head, number, h);
  }

  lemma OrphanLeaves(hs: Headers, canon: map<nat, Hash>, genesis: Header, head: Header, number: nat, h: Hash)
    requires Tree(hs, genesis) && head.hash in hs && hs[head.hash] == head && ExactPath(canon, hs, head)
      && number < head.number
    requires h in Rewound(hs, canon, number) && hs[h].parent in hs && hs[h].parent !in Rewound(hs, canon, number)
    requires hs[h].number == hs[hs[h].parent].number + 1
    ensures hs[h].number > number && Anc(hs, h, number + 1) == canon[number + 1]
  {
    var p := hs[h].parent;
    assert hs[p].number > number && canon[hs[p].number] == p;
    assert Anc(hs, h, number + 1) == Anc(hs, p, number + 1);
    AncOfAnc(hs, genesis, head.hash, number + 1, hs[p].number);
  }

  // ----------------------------------------------------------------- rerouting

  /** The old index, already cut off above the new head. */
  ghost predicate Stale(canon: map<nat, Hash>, hs: Headers, header: Header, was: Header) {
    && was.hash in hs && hs[was.hash] == was
    && (forall n: nat :: n in canon <==> n <= was.number && n <= header.number)
    && forall n: nat :: n in canon ==> canon[n] == Anc(hs, was.hash, n)
  }

  /** h is the ancestor with number n; above it the index is right, from there down it is still the old one. */
  ghost predicate Rerouting(start: map<nat, Hash>, canon: map<nat, Hash>, hs: Headers, header: Header, h: Hash,
                            n: nat) {
    && n < header.number && h == Anc(hs, header.hash, n)
    && (forall m: nat :: m <= n ==> (m in canon <==> m in start) && (m in canon ==> canon[m] == start[m]))
    && (forall m: nat :: n < m < header.number ==> m in canon && canon[m] == Anc(hs, header.hash, m))
    && forall m: nat :: m in canon ==> m <= header.number
  }

  lemma RerouteStart(start: map<nat, Hash>, hs: Headers, genesis: Header, header: Header, was: Header)
    requires Tree(hs, genesis) && header.hash in hs && hs[header.hash] == header && header != genesis
      && Stale(start, hs, header, was)
    ensures header.number > 0 && header.parent in hs && hs[header.parent].number == header.number - 1
    ensures Rerouting(start, start, hs, header, header.parent, header.number - 1)
  {
    assert Rooted(hs, genesis, header);
    AncStep(hs, genesis, header.hash, header.number - 1);
  }

  lemma RerouteStep(start: map<nat, Hash>, canon: map<nat, Hash>, hs: Headers, genesis: Header, header: Header,
                    was: Header, h: Hash, n: nat)
    requires Tree(hs, genesis) && header.hash in hs && hs[header.hash] == header && Stale(start, hs, header, was)
    requires Rerouting(start, canon, hs, header, h, n) && h in hs && hs[h].number == n && (n in canon ==> canon[n] != h)
    ensures n > 0 && hs[h].parent in hs && hs[hs[h].parent].number == n - 1
    ensures Rerouting(start, canon[n := h], hs, header, hs[h].parent, n - 1)
  {
    NotAtRoot(start, canon, hs, genesis, header, was, h, n);
    ParentBelow(hs, genesis, header, h, n);
    hide Tree;
    hide Stale;
  }

  lemma ParentBelow(hs: Headers, genesis: Header, header: Header, h: Hash, n: nat)
    requires Tree(hs, genesis) && header.hash in hs && hs[header.hash] == header && n > 0
    requires h in hs && hs[h].number == n && h == Anc(hs, header.hash, n) && n <= header.number
    ensures hs[h].parent in hs && hs[hs[h].parent].number == n - 1 && hs[h].parent == Anc(hs, header.hash, n - 1)
  {
    AncStep(hs, genesis, header.hash, n - 1);
    assert Rooted(hs, genesis, hs[h]);
  }

  /** At genesis the old index and the new path agree. */
  lemma NotAtRoot(start: map<nat, Hash>, canon: map<nat, Hash>, hs: Headers, genesis: Header, header: Header,
                  was: Header, h: Hash, n: nat)
    requires Tree(hs, genesis) && header.hash in hs && hs[header.hash] == header && Stale(start, hs, header, was)
    requires Rerouting(start, canon, hs, header, h, n) && h in hs && hs[h].number == n && (n in canon ==> canon[n] != h)
    ensures n > 0
  {
    AncRoot(hs, genesis, header.hash);
    AncRoot(hs, genesis, was.hash);
  }

  lemma RerouteEnd(start: map<nat, Hash>, canon: map<nat, Hash>, hs: Headers, genesis: Header, header: Header,
                   was: Header, h: Hash, n: nat)
    requires Tree(hs, genesis) && header.hash in hs && hs[header.hash] == header && Stale(start, hs, header, was)
    requires Rerouting(start, canon, hs, header, h, n) && n in canon && canon[n] == h
    ensures ExactPath(canon[header.number := header.hash], hs, header)
  {
    hide Tree;
    forall m: nat | m <= n ensures m in canon && canon[m] == Anc(hs, header.hash, m) {
      AncOfAnc(hs, genesis, header.hash, m, n);
      AncOfAnc(hs, genesis, was.hash, m, n);
    }
  }

  /** The new total difficulty is the right one, and those of stored headers stay right. */
  lemma StoredWeighs(tds: map<Hash, nat>, hs: Headers, genesis: Header, header: Header)
    requires Tree(hs, genesis) && Fits(hs, header) && header.parent in hs && Weighed(tds, hs)
    ensures Weighed(tds[header.hash := header.difficulty + tds[header.parent]], hs[header.hash := header])
    ensures forall h :: h in hs ==>
      TdSum(hs[header.hash := header], h) == TdSum(hs, h)
      && tds[header.hash := header.difficulty + tds[header.parent]][h] == tds[h]
  {
    hide Tree;
    forall h | h in hs ensures TdSum(hs[header.hash := header], h) == TdSum(hs, h) {
      AncGrows(hs, genesis, header, h, 0);
    }
    TreeGrows(hs, genesis, header);
    assert header.hash != header.parent;
  }

  lemma PathKeys(canon: map<nat, Hash>, hs: Headers, head: Header)
    requires ExactPath(canon, hs, head)
    ensures forall n: nat :: n in canon <==> n <= head.number
  {
  }

  lemma NotGenesis(hs: Headers, genesis: Header, header: Header)
    requires Tree(hs, genesis) && header.parent in hs
    ensures header != genesis
  {
  }

  lemma PathGrows(canon: map<nat, Hash>, hs: Headers, genesis: Header, header: Header, was: Header)
    requires Tree(hs, genesis) && Fits(hs, header) && header.parent in hs && was.hash in hs && ExactPath(canon, hs, was)
    ensures ExactPath(canon, hs[header.hash := header], was)
  {
    forall n: nat ensures Anc(hs[header.hash := header], was.hash, n) == Anc(hs, was.hash, n) {
      AncGrows(hs, genesis, header, was.hash, n);
    }
  }

  lemma ClearedIsStale(full: map<nat, Hash>, canon: map<nat, Hash>, hs: Headers, header: Header, was: Header)
    requires was.hash in hs && hs[was.hash] == was && ExactPath(full, hs, was)
    requires canon == map n | n in full && n <= header.number :: full[n]
    ensures Stale(canon, hs, header, was)
  {
  }
}
