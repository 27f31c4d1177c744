/**
 blockchain.go: which block is the head, the canonical index below it, and the index
 from transactions to their place on the canonical chain. State, receipts, logs and
 events are left away.
 */
module BlockChain {
  import opened ChainTree
  import opened HeaderChain

  type TxId = nat

  datatype Block = Block(header: Header, txs: seq<TxId>)

  type Blocks = map<Hash, Block>

  /** Where a transaction is found. */
  datatype Entry = Entry(block: Hash, number: nat, index: nat)

  type Lookups = map<TxId, Entry>

  function HeadersOf(bs: Blocks): Headers { map h | h in bs :: bs[h].header }

  // ---------------------------------------------------------------- lookups

  /** The place a transaction is written to last. */
  function LastIndex(txs: seq<TxId>, t: TxId): nat
    requires t in txs
  {
    if txs[|txs| - 1] == t then |txs| - 1 else LastIndex(txs[..|txs| - 1], t)
  }

  function Entries(b: Block): Lookups {
    map t | t in b.txs :: Entry(b.header.hash, b.header.number, LastIndex(b.txs, t))
  }

  /** A scan of the chain that ends at h. */
  ghost function Scan(bs: Blocks, h: Hash): Lookups
    decreases if h in bs then bs[h].header.number else 0
  {
    if h !in bs then map[]
    else if bs[h].header.parent in bs && bs[bs[h].header.parent].header.number < bs[h].header.number
    then Scan(bs, bs[h].header.parent) + Entries(bs[h]) else Entries(bs[h])
  }

  lemma {:induction false} LastIndexIs(txs: seq<TxId>, t: TxId)
    requires t in txs
    ensures var i := LastIndex(txs, t); i < |txs| && txs[i] == t
  {
    if txs[|txs| - 1] != t { LastIndexIs(txs[..|txs| - 1], t); }
  }

  /** What a scan finds is where it says, on the path to h. */
  lemma {:induction false} ScanFinds(bs: Blocks, genesis: Header, h: Hash, t: TxId)
    requires Tree(HeadersOf(bs), genesis) && h in bs && t in Scan(bs, h)
    ensures var e := Scan(bs, h)[t];
      && e.number <= bs[h].header.number && e.block == Anc(HeadersOf(bs), h, e.number) && Occurs(bs, e.block, t)
      && e.index < |bs[e.block].txs| && bs[e.block].txs[e.index] == t
    decreases bs[h].header.number
  {
    var hs, top := HeadersOf(bs), bs[h].header.number;
    assert h in hs && Rooted(hs, genesis, hs[h]) && hs[h].hash == h;
    if t in bs[h].txs {
      LastIndexIs(bs[h].txs, t);
      assert Anc(hs, h, top) == h;
    } else {
      ScanFinds(bs, genesis, hs[h].parent, t);
    }
  }

  /** ... and it finds every transaction of the path. */
  lemma {:induction false} ScanHas(bs: Blocks, genesis: Header, h: Hash, n: nat, t: TxId)
    requires Tree(HeadersOf(bs), genesis) && h in bs && n <= bs[h].header.number
      && Occurs(bs, Anc(HeadersOf(bs), h, n), t)
    ensures t in Scan(bs, h)
    decreases bs[h].header.number
  {
    var hs := HeadersOf(bs);
    assert h in hs && Rooted(hs, genesis, hs[h]);
    if n < bs[h].header.number { ScanHas(bs, genesis, hs[h].parent, n, t); }
  }

  predicate Occurs(bs: Blocks, h: Hash, t: TxId) { h in bs && t in bs[h].txs }

  /** No transaction occurs twice along a chain. */
  ghost predicate NoRepeat(bs: Blocks) {
    forall h :: h in bs && bs[h].header.parent in bs ==> bs[h].header.hash == h && Fresh(bs, bs[h])
  }

  ghost predicate Fresh(bs: Blocks, b: Block) { forall t :: t in b.txs ==> t !in Scan(bs, b.header.parent) }

  /** A block that may be stored. */
  ghost predicate FitsBlock(bs: Blocks, b: Block) {
    && Fits(HeadersOf(bs), b.header) && (b.header.hash in bs ==> bs[b.header.hash] == b)
    && (b.header.parent in bs ==> Fresh(bs, b))
  }

  lemma {:induction false} ScanGrows(bs: Blocks, genesis: Header, b: Block, h: Hash)
    requires Tree(HeadersOf(bs), genesis) && FitsBlock(bs, b) && h in bs
    ensures Scan(bs[b.header.hash := b], h) == Scan(bs, h)
    decreases bs[h].header.number
  {
    var hs := HeadersOf(bs);
    assert h in hs && Rooted(hs, genesis, hs[h]);
    if hs[h] != genesis { ScanGrows(bs, genesis, b, hs[h].parent); }
  }

  lemma BlocksGrow(bs: Blocks, genesis: Header, b: Block)
    requires Tree(HeadersOf(bs), genesis) && NoRepeat(bs) && FitsBlock(bs, b) && b.header.parent in bs
    ensures var all := bs[b.header.hash := b];
      && HeadersOf(all) == HeadersOf(bs)[b.header.hash := b.header] && Tree(HeadersOf(all), genesis) && NoRepeat(all)
      && Scan(all, b.header.hash) == Scan(bs, b.header.parent) + Entries(b)
  {
    var all := bs[b.header.hash := b];
    assert HeadersOf(all) == HeadersOf(bs)[b.header.hash := b.header];
    TreeGrows(HeadersOf(bs), genesis, b.header);
    ScanGrows(bs, genesis, b, b.header.parent);
    forall h | h in all && all[h].header.parent in all ensures all[h].header.hash == h && Fresh(all, all[h]) {
      if h in bs {
        assert h in HeadersOf(bs) && Rooted(HeadersOf(bs), genesis, HeadersOf(bs)[h]);
        if bs[h].header != genesis { ScanGrows(bs, genesis, b, bs[h].header.parent); }
      }
    }
  }

  // ------------------------------------------------------------------- paths

  /** The blocks from the first one down to just above the last. */
  ghost predicate IsPath(bs: Blocks, chain: seq<Block>, from: Block, to: Block) {
    && Stored(bs, from) && Stored(bs, to) && to.header.number <= from.header.number
    && |chain| == from.header.number - to.header.number
    && to.header.hash == Anc(HeadersOf(bs), from.header.hash, to.header.number)
    && forall i :: 0 <= i < |chain| ==>
         Stored(bs, chain[i]) && chain[i].header.hash == Anc(HeadersOf(bs), from.header.hash, from.header.number - i)
  }

  ghost predicate Stored(bs: Blocks, b: Block) { b.header.hash in bs && bs[b.header.hash] == b }

  lemma PathNone(bs: Blocks, genesis: Header, b: Block)
    requires Tree(HeadersOf(bs), genesis) && Stored(bs, b)
    ensures IsPath(bs, [], b, b)
  {
  }

  /** One more block down. */
  lemma PathDown(bs: Blocks, genesis: Header, chain: seq<Block>, from: Block, to: Block)
    requires Tree(HeadersOf(bs), genesis) && IsPath(bs, chain, from, to) && to.header.number > 0
    ensures to.header.parent in bs && bs[to.header.parent].header.number == to.header.number - 1
    ensures IsPath(bs, chain + [to], from, bs[to.header.parent])
  {
    var hs := HeadersOf(bs);
    AncStep(hs, genesis, from.header.hash, to.header.number - 1);
    assert hs[to.header.hash] == to.header && Rooted(hs, genesis, to.header);
    var p := to.header.parent;
    assert p in hs && hs[p].hash == p;
  }

  lemma PathTail(bs: Blocks, genesis: Header, chain: seq<Block>, from: Block, to: Block)
    requires Tree(HeadersOf(bs), genesis) && IsPath(bs, chain, from, to) && chain != []
    ensures chain[0] == from && from.header.parent in bs
      && bs[from.header.parent].header.number == from.header.number - 1
    ensures IsPath(bs, chain[1..], bs[from.header.parent], to)
  {
    hide Scan;
    var hs := HeadersOf(bs);
    assert hs[from.header.hash] == from.header && Rooted(hs, genesis, from.header);
    var p := from.header.parent;
    assert p in hs && hs[p].hash == p;
  }

  /** What a chain of blocks, the highest first, adds to the lookups. */
  function ChainEntries(chain: seq<Block>): Lookups {
    if chain == [] then map[] else ChainEntries(chain[1..]) + Entries(chain[0])
  }

  function TxsOf(chain: seq<Block>): set<TxId> { set b, t | b in chain && t in b.txs :: t }

  lemma {:induction false} ChainKeys(chain: seq<Block>)
    ensures ChainEntries(chain).Keys == TxsOf(chain)
  {
    if chain != [] {
      ChainKeys(chain[1..]);
      assert TxsOf(chain) == TxsOf(chain[1..]) + set t | t in chain[0].txs;
    }
  }

  /** A scan splits at every block of the path, and no transaction is on both sides. */
  lemma {:induction false} PathScan(bs: Blocks, genesis: Header, chain: seq<Block>, from: Block, to: Block)
    requires Tree(HeadersOf(bs), genesis) && NoRepeat(bs) && IsPath(bs, chain, from, to)
    ensures Scan(bs, from.header.hash) == Scan(bs, to.header.hash) + ChainEntries(chain)
    ensures Scan(bs, to.header.hash).Keys !! ChainEntries(chain).Keys
    decreases |chain|
  {
    if chain == [] {
      assert from.header.hash == to.header.hash;
    } else {
      PathTail(bs, genesis, chain, from, to);
      PathScan(bs, genesis, chain[1..], bs[from.header.parent], to);
      assert Stored(bs, from) && Fresh(bs, from);
      hide IsPath;
      hide Tree;
      hide NoRepeat;
      ScanStep(bs, from, Scan(bs, to.header.hash), ChainEntries(chain[1..]));
    }
  }

  /** A block adds its entries to a scan that has none of them. */
  lemma ScanStep(bs: Blocks, b: Block, base: Lookups, rest: Lookups)
    requires Stored(bs, b) && b.header.parent in bs && bs[b.header.parent].header.number < b.header.number
      && Fresh(bs, b)
    requires Scan(bs, b.header.parent) == base + rest && base.Keys !! rest.Keys
    ensures Scan(bs, b.header.hash) == base + (rest + Entries(b)) && base.Keys !! (rest + Entries(b)).Keys
  {
    ScanOn(bs, b);
    MapsJoin(base, rest, Entries(b));
    assert forall t :: t in Entries(b) ==> t !in Scan(bs, b.header.parent);
    hide Scan;
    hide Entries;
  }

  lemma MapsJoin(base: Lookups, rest: Lookups, more: Lookups)
    ensures base + (rest + more) == base + rest + more
  {
  }

  lemma ScanOn(bs: Blocks, b: Block)
    requires Stored(bs, b) && b.header.parent in bs && bs[b.header.parent].header.number < b.header.number
    ensures Scan(bs, b.header.hash) == Scan(bs, b.header.parent) + Entries(b)
    ensures Entries(b).Keys == set t | t in b.txs
  {
  }

  /** Entering the new chain and deleting what only the old one has turns one scan into the other. */
  lemma ScansSwap(bs: Blocks, genesis: Header, oldChain: seq<Block>, newChain: seq<Block>, was: Block, new': Block,
                  common: Block)
    requires Tree(HeadersOf(bs), genesis) && NoRepeat(bs)
    requires IsPath(bs, oldChain, was, common) && IsPath(bs, newChain, new', common)
    ensures Scan(bs, was.header.hash) + ChainEntries(newChain) - (TxsOf(oldChain) - TxsOf(newChain))
      == Scan(bs, new'.header.hash)
  {
    PathScan(bs, genesis, oldChain, was, common);
    PathScan(bs, genesis, newChain, new', common);
    ChainKeys(oldChain);
    ChainKeys(newChain);
    hide IsPath;
    hide Tree;
    hide NoRepeat;
    hide TxsOf;
    var base, a, b := Scan(bs, common.header.hash), ChainEntries(oldChain), ChainEntries(newChain);
    MapsSwap(base, a, b, TxsOf(oldChain), TxsOf(newChain));
  }

  lemma MapsSwap(base: Lookups, a: Lookups, b: Lookups, ka: set<TxId>, kb: set<TxId>)
    requires ka == a.Keys && kb == b.Keys && base.Keys !! ka
    ensures base + a + b - (ka - kb) == base + b
  {
  }

  /** Two paths that meet for the first time meet at the last common ancestor. */
  lemma MeetsAtLast(bs: Blocks, genesis: Header, oldChain: seq<Block>, newChain: seq<Block>, was: Block, new': Block,
                    common: Block)
    requires Tree(HeadersOf(bs), genesis)
    requires IsPath(bs, oldChain, was, common) && IsPath(bs, newChain, new', common)
    requires forall n: nat :: common.header.number < n <= was.header.number && n <= new'.header.number ==>
      Anc(HeadersOf(bs), was.header.hash, n) != Anc(HeadersOf(bs), new'.header.hash, n)
    ensures LastCommon(HeadersOf(bs), was.header.hash, new'.header.hash, common.header)
  {
  }

  // ------------------------------------------------------------ the block chain

  class BlockChain {
    const genesis: Block
    var blocks: Blocks
    var tds: map<Hash, nat>
    var canon: map<nat, Hash>
    var current: Block
    var headHeader: Hash
    var lookups: Lookups
    var withState: set<Hash>

    /**
     The index up to the head and the lookups describe the chain of the head, which is a heaviest block and the
     lowest one of these.
     */
    ghost predicate Valid()
      reads this
    {
      && Tree(HeadersOf(blocks), genesis.header) && NoRepeat(blocks) && Stored(blocks, current)
      && Stored(blocks, genesis)
      && PathUpTo(canon, HeadersOf(blocks), current.header.hash, current.header.number) && Numbered(canon, blocks)
      && Weighed(tds, HeadersOf(blocks)) && tds.Keys == blocks.Keys
      && current.header.hash in tds && Heaviest(tds, current.header.hash) && Lowest(tds, blocks, current)
      && lookups == Scan(blocks, current.header.hash)
    }

    constructor (genesis: Block)
      requires genesis.header.hash != 0 && genesis.header.parent == 0 && genesis.header.number == 0 && genesis.txs == []
      ensures Valid() && this.genesis == genesis && current == genesis && headHeader == genesis.header.hash
      ensures withState == {genesis.header.hash}
    {
      this.genesis, current, headHeader, withState := genesis, genesis, genesis.header.hash, {genesis.header.hash};
      blocks, tds := map[genesis.header.hash := genesis], map[genesis.header.hash := genesis.header.difficulty];
      canon, lookups := map[0 := genesis.header.hash], map[];
    }

    /** insert: the block becomes the head; the head header follows if the number was assigned differently. */
    method Insert(b: Block)
      modifies this`canon, this`current, this`headHeader
      ensures canon == old(canon)[b.header.number := b.header.hash] && current == b
      ensures headHeader == if b.header.number in old(canon) && old(canon)[b.header.number] == b.header.hash
        then old(headHeader) else b.header.hash
    {
      var updateHeads := !(b.header.number in canon && canon[b.header.number] == b.header.hash);
      canon := canon[b.header.number := b.header.hash];
      current := b;
      if updateHeads { headHeader := b.header.hash; }
    }

    /** WriteTxLookupEntries. */
    method WriteLookups(b: Block)
      modifies this`lookups
      ensures lookups == old(lookups) + Entries(b)
    {
      var i := 0;
      assert Entries(b.(txs := b.txs[..0])) == map[];
      while i < |b.txs|
        invariant 0 <= i <= |b.txs| && lookups == old(lookups) + Entries(b.(txs := b.txs[..i]))
      {
        EntriesNext(b, i);
        lookups := lookups[b.txs[i] := Entry(b.header.hash, b.header.number, i)];
        i := i + 1;
      }
      assert b.txs[..|b.txs|] == b.txs;
    }

    /** The first half of reorg: walk down from both blocks to the last common one. */
    method FindCommon(was: Block, block: Block, ghost all: Blocks)
      returns (oldChain: seq<Block>, newChain: seq<Block>, common: Block, deleted: set<TxId>)
      requires Tree(HeadersOf(blocks), genesis.header) && Tree(HeadersOf(all), genesis.header)
      requires all == blocks[block.header.hash := block] && block.header.parent in blocks && Stored(blocks, was)
      requires block.header.hash in blocks ==> blocks[block.header.hash] == block
      ensures IsPath(all, oldChain, was, common) && IsPath(all, newChain, block, common) && deleted == TxsOf(oldChain)
      ensures LastCommon(HeadersOf(all), was.header.hash, block.header.hash, common.header)
    {
      hide Tree;
      hide IsPath;
      hide TxsOf;
      var o, w := was, block;
      oldChain, newChain, deleted := [], [], {};
      PathStart(blocks, all, genesis.header, was, block);
      while o.header.number > block.header.number
        invariant Walking(blocks, all, was, o, oldChain) && deleted == TxsOf(oldChain)
        invariant o == was || o.header.number >= block.header.number
        decreases o.header.number
      {
        WalkDown(blocks, all, genesis.header, was, o, oldChain, block);
        oldChain := oldChain + [o];
        deleted := deleted + set t | t in o.txs;
        o := blocks[o.header.parent];
      }
      while w.header.number > o.header.number
        invariant Walking(blocks, all, block, w, newChain)
        invariant w == block || w.header.number >= o.header.number
        decreases w.header.number
      {
        WalkDown(blocks, all, genesis.header, block, w, newChain, block);
        newChain := newChain + [w];
        w := blocks[w.header.parent];
      }
      WalkLevels(blocks, all, was, o, oldChain, block, w, newChain);
      while o.header.hash != w.header.hash
        invariant Walking(blocks, all, was, o, oldChain) && Walking(blocks, all, block, w, newChain)
          && deleted == TxsOf(oldChain)
        invariant o.header.number == w.header.number && Apart(HeadersOf(all), was, block, o.header.number)
        decreases o.header.number
      {
        ApartBelow(all, genesis.header, was, o, oldChain, block, w, newChain, blocks);
        WalkDown(blocks, all, genesis.header, was, o, oldChain, block);
        WalkDown(blocks, all, genesis.header, block, w, newChain, block);
        oldChain := oldChain + [o];
        newChain := newChain + [w];
        deleted := deleted + set t | t in o.txs;
        o, w := blocks[o.header.parent], blocks[w.header.parent];
      }
      SameBlock(blocks, all, was, o, oldChain, block, w, newChain);
      common := o;
      MeetsAtLast(all, genesis.header, oldChain, newChain, was, block, common);
    }

    /** The second half of reorg: insert the new chain, lowest block first, with its lookups. */
    method InsertAll(chain: seq<Block>, ghost all: Blocks, ghost from: Block, ghost to: Block)
      returns (added: set<TxId>)
      requires Tree(HeadersOf(all), genesis.header) && IsPath(all, chain, from, to)
      modifies this`canon, this`current, this`headHeader, this`lookups
      ensures canon == old(canon) + ChainCanon(chain) && lookups == old(lookups) + ChainEntries(chain)
        && added == TxsOf(chain)
      ensures current == if chain == [] then old(current) else chain[0]
      ensures chain == [] ==> headHeader == old(headHeader)
      ensures var n, h := from.header.number, from.header.hash;
        chain != [] && !(n in old(canon) && old(canon)[n] == h) ==> headHeader == h
    {
      hide Tree;
      hide IsPath;
      hide Entries;
      hide TxsOf;
      hide ChainCanon;
      hide ChainEntries;
      var i := |chain|;
      added := {};
      TxsOfNone();
      InsertedNone(canon, lookups);
      assert chain[i..] == [];
      while i > 0
        invariant 0 <= i <= |chain| && added == TxsOf(chain[i..])
        invariant canon == old(canon) + ChainCanon(chain[i..]) && lookups == old(lookups) + ChainEntries(chain[i..])
        invariant current == if i == |chain| then old(current) else chain[i]
        invariant i == |chain| ==> headHeader == old(headHeader)
        invariant var n, h := from.header.number, from.header.hash;
          i == 0 && chain != [] && !(n in old(canon) && old(canon)[n] == h) ==> headHeader == h
      {
        i := i - 1;
        assert chain[i..] == [chain[i]] + chain[i + 1..];
        TxsOfNext(chain[i], chain[i + 1..]);
        InsertedNext(old(canon), old(lookups), chain[i], chain[i + 1..]);
        if i == 0 { TopIsFrom(all, genesis.header, chain, from, to); }
        Insert(chain[i]);
        WriteLookups(chain[i]);
        added := added + set t | t in chain[i].txs;
      }
      assert chain[0..] == chain;
    }

    /** reorg: from the chain of the old head to the chain of the new block. */
    method Reorg(was: Block, block: Block, ghost all: Blocks) returns (common: Block)
      requires Tree(HeadersOf(blocks), genesis.header) && Tree(HeadersOf(all), genesis.header) && NoRepeat(all)
      requires all == blocks[block.header.hash := block] && block.header.parent in blocks && Stored(blocks, was)
      requires block.header.hash in blocks ==> blocks[block.header.hash] == block
      requires PathUpTo(canon, HeadersOf(all), was.header.hash, was.header.number) && Numbered(canon, all)
      requires lookups == Scan(all, was.header.hash) && current == was
      modifies this`canon, this`current, this`headHeader, this`lookups
      ensures LastCommon(HeadersOf(all), was.header.hash, block.header.hash, common.header) && Stored(all, common)
      ensures PathUpTo(canon, HeadersOf(all), block.header.hash, block.header.number) && Numbered(canon, all)
      ensures lookups == Scan(all, block.header.hash)
      ensures common == block ==> headHeader == old(headHeader) && canon == old(canon)
      ensures var n, h := block.header.number, block.header.hash;
        common != block && !(n in old(canon) && old(canon)[n] == h) ==> headHeader == h
    {
      hide Tree;
      hide NoRepeat;
      hide IsPath;
      hide TxsOf;
      hide PathUpTo;
      hide Numbered;
      hide LastCommon;
      var oldChain, newChain, deleted;
      oldChain, newChain, common, deleted := FindCommon(was, block, all);
      ghost var start := canon;
      var added := InsertAll(newChain, all, block, common);
      lookups := lookups - (deleted - added);
      ScansSwap(all, genesis.header, oldChain, newChain, was, block, common);
      EndsStored(all, newChain, block, common);
      Rerouted(start, all, genesis.header, oldChain, newChain, was, block, common);
    }

    /** The part of WriteBlockWithState for a block that takes over. */
    method TakeOver(block: Block, ghost all: Blocks)
      requires Tree(HeadersOf(blocks), genesis.header) && Tree(HeadersOf(all), genesis.header) && NoRepeat(all)
      requires all == blocks[block.header.hash := block] && block.header.parent in blocks && Stored(blocks, current)
      requires block.header.hash in blocks ==> blocks[block.header.hash] == block
      requires PathUpTo(canon, HeadersOf(all), current.header.hash, current.header.number) && Numbered(canon, all)
      requires lookups == Scan(all, current.header.hash)
      requires Scan(all, block.header.hash) == Scan(blocks, block.header.parent) + Entries(block)
      requires Scan(all, current.header.hash) == Scan(blocks, current.header.hash)
      modifies this`canon, this`current, this`headHeader, this`lookups, this`blocks
      ensures blocks == all && current == block && lookups == Scan(all, block.header.hash)
      ensures PathUpTo(canon, HeadersOf(all), block.header.hash, block.header.number) && Numbered(canon, all)
      ensures var n, h := block.header.number, block.header.hash;
        old(headHeader == current.header.hash && (block == current || !(n in canon && canon[n] == h))) ==>
          headHeader == h
    {
      hide Tree;
      hide NoRepeat;
      hide PathUpTo;
      hide Numbered;
      hide LastCommon;
      hide Scan;
      hide Entries;
      ghost var bs, start, was := blocks, canon, current;
      if block.header.parent != current.header.hash {
        var common := Reorg(current, block, all);
        CommonListed(start, all, was, common);
        CommonSelf(all, was, block, common);
        TopListed(canon, all, block);
      } else {
        NotGenesis(HeadersOf(bs), genesis.header, block.header);
        ExtendPath(canon, all, genesis.header, was, block);
      }
      blocks := blocks[block.header.hash := block];
      ScanAgain(all, bs, block);
      WriteLookups(block);
      Insert(block);
    }

    /** WriteBlockWithState, as far as the chain is concerned; coin is the flip that settles a full tie. */
    method WriteBlockWithState(block: Block, coin: bool) returns (status: Status)
      requires Valid() && FitsBlock(blocks, block)
      modifies this
      ensures Valid()
      ensures block.header.parent !in old(tds) ==>
        && status == NonStat && blocks == old(blocks) && tds == old(tds) && current == old(current)
        && canon == old(canon) && lookups == old(lookups) && headHeader == old(headHeader)
        && withState == old(withState)
      ensures block.header.parent in old(tds) ==>
        && var h, td := block.header.hash, block.header.difficulty + old(tds)[block.header.parent];
           blocks == old(blocks)[h := block] && tds == old(tds)[h := td] && withState == old(withState) + {h}
           && old(current.header.hash in tds)
           && status == if Wins(old(tds[current.header.hash]), td, old(current), block, coin) then Canon else Side
      ensures current == if status == Canon then block else old(current)
      ensures forall h :: h in old(tds) ==> tds[h] == old(tds)[h]
      ensures tds[current.header.hash] >= old(tds[current.header.hash])
      ensures old(headHeader == current.header.hash) && Positive(blocks, genesis) ==> headHeader == current.header.hash
    {
      hide HeadersOf;
      hide Tree;
      hide NoRepeat;
      hide PathUpTo;
      hide Numbered;
      hide TdSum;
      hide Scan;
      hide Entries;
      hide Positive;
      hide Weighed;
      hide Heaviest;
      hide Lowest;
      HeadersKeys(blocks, tds);
      if block.header.parent !in tds { return NonStat; }
      ghost var bs, all := blocks, blocks[block.header.hash := block];
      ghost var was := current;
      BlocksGrow(bs, genesis.header, block);
      Unmoved(bs, genesis.header, block, canon, was);
      var local, extern := tds[current.header.hash], block.header.difficulty + tds[block.header.parent];
      StoredWeighs(tds, HeadersOf(bs), genesis.header, block.header);
      var reorg := extern > local;
      if !reorg && extern == local {
        reorg := block.header.number < current.header.number || (block.header.number == current.header.number && coin);
      }
      if reorg && Positive(all, genesis) {
        PositivePart(bs, genesis, block);
        NotListed(bs, tds, canon, genesis, was, block);
      }
      SettledLowest(tds, bs, was, block, extern, reorg);
      tds := tds[block.header.hash := extern];
      withState := withState + {block.header.hash};
      if reorg {
        TakeOver(block, all);
        status := Canon;
      } else {
        blocks := blocks[block.header.hash := block];
        status := Side;
      }
    }

    /** WriteBlockWithoutState, for a block that does not beat the head. */
    method WriteBlockWithoutState(block: Block, td: nat)
      requires Valid() && FitsBlock(blocks, block) && block.header.parent in tds
      requires td == block.header.difficulty + tds[block.header.parent]
      requires td < tds[current.header.hash]
        || (td == tds[current.header.hash] && current.header.number <= block.header.number)
      modifies this`blocks, this`tds
      ensures Valid() && blocks == old(blocks)[block.header.hash := block] && tds == old(tds)[block.header.hash := td]
      ensures forall h :: h in old(tds) ==> tds[h] == old(tds)[h]
    {
      hide Tree;
      hide NoRepeat;
      hide PathUpTo;
      hide Numbered;
      hide TdSum;
      hide Scan;
      hide Weighed;
      HeadersKeys(blocks, tds);
      ghost var bs := blocks;
      BlocksGrow(bs, genesis.header, block);
      Unmoved(bs, genesis.header, block, canon, current);
      StoredWeighs(tds, HeadersOf(bs), genesis.header, block.header);
      SettledLowest(tds, bs, current, block, td, false);
      tds := tds[block.header.hash := td];
      blocks := blocks[block.header.hash := block];
    }

    /** What InsertChain does with a block that it does not know and whose parent it has. */
    method InsertBlock(b: Block, pruned: bool, coin: bool, ghost all: Blocks)
      requires Valid() && AllBlocks(all, genesis) && Among(blocks, all) && Stored(all, b) && b.header.parent in tds
      modifies this
      ensures Valid() && Among(blocks, all) && Among(old(blocks), blocks)
      ensures blocks == old(blocks)[b.header.hash := b]
      ensures
        var h, td := b.header.hash, b.header.difficulty + old(tds)[b.header.parent];
        && tds == old(tds)[h := td] && old(current.header.hash in tds)
        && var local := old(tds[current.header.hash]);
           current == (if Wins(local, td, old(current), b, coin) then b else old(current))
           && withState == if pruned && td < local then old(withState) else old(withState) + {h}
      ensures forall h :: h in old(tds) ==> tds[h] == old(tds)[h]
      ensures tds[current.header.hash] >= old(tds[current.header.hash])
      ensures old(headHeader == current.header.hash) && Positive(all, genesis) ==> headHeader == current.header.hash
    {
      hide Tree;
      hide NoRepeat;
      hide PathUpTo;
      hide Numbered;
      hide Scan;
      hide Weighed;
      hide TdSum;
      hide FitsBlock;
      hide AllBlocks;
      hide Positive;
      hide Among;
      hide Lowest;
      HeadersKeys(blocks, tds);
      ghost var before := blocks;
      AmongSelf(before);
      AmongFits(before, all, genesis, b);
      var td := b.header.difficulty + tds[b.header.parent];
      if pruned && tds[current.header.hash] > td {
        TdStays(before, tds, current, b, td);
        WriteBlockWithoutState(b, td);
      } else {
        var status := WriteBlockWithState(b, coin);
      }
      AmongMore(before, before, all, genesis, b);
    }

    /**
     The writes of insertChain: a block that competes from before the kept states is stored without state
     as long as it is lighter than the head, any other is written with its state. A block that is stored
     with its state and not above the head is skipped. A run stops at a block without a parent.
     heads are the head before the batch and after each of its blocks.
     */
    method InsertChain(chain: seq<Block>, pruned: set<Hash>, hasState: seq<bool>, coins: seq<bool>, ghost all: Blocks)
      returns (stop: nat, ghost heads: seq<Block>)
      requires Valid() && AllBlocks(all, genesis) && Among(blocks, all) && |coins| == |chain| == |hasState|
      requires forall b :: b in chain ==> Stored(all, b)
      modifies this
      ensures Valid() && Among(blocks, all) && Among(old(blocks), blocks) && stop <= |chain|
      ensures tds[current.header.hash] >= old(tds[current.header.hash])
      ensures Batched(old(blocks), blocks, old(withState), withState, chain, pruned, hasState, coins, heads, tds, stop)
      ensures heads[0] == old(current) && heads[stop] == current
      ensures stop < |chain| ==>
        chain[stop].header.parent !in blocks && !Skipped(old(blocks), chain, hasState, heads, stop)
      ensures forall i :: 0 <= i < stop ==>
        var h, top := chain[i].header.hash, current.header;
        h in tds && (tds[h] < tds[top.hash] || (tds[h] == tds[top.hash] && top.number <= chain[i].header.number))
      ensures old(headHeader == current.header.hash) && Positive(all, genesis) ==> headHeader == current.header.hash
    {
      hide Tree;
      hide NoRepeat;
      hide PathUpTo;
      hide Numbered;
      hide Scan;
      hide Weighed;
      hide TdSum;
      hide FitsBlock;
      hide AllBlocks;
      hide Positive;
      hide Among;
      hide Lowest;
      hide Heaviest;
      hide Batched;
      hide Skipped;
      stop, heads := 0, [current];
      AmongSelf(blocks);
      NothingBatched(blocks, withState, chain, pruned, hasState, coins, current, tds);
      while stop < |chain|
        invariant stop <= |chain| && Valid() && Among(blocks, all) && Among(old(blocks), blocks)
        invariant Batched(old(blocks), blocks, old(withState), withState, chain, pruned, hasState, coins, heads, tds,
          stop)
        invariant |heads| == stop + 1 && heads[0] == old(current) && heads[stop] == current
        invariant tds[current.header.hash] >= old(tds[current.header.hash])
        invariant old(headHeader == current.header.hash) && Positive(all, genesis) ==> headHeader == current.header.hash
      {
        ghost var before, tds0, states := blocks, tds, withState;
        var skip, ok := ImportNext(chain[stop], hasState[stop], chain[stop].header.hash in pruned, coins[stop], all);
        if !ok {
          NotBatched(old(blocks), blocks, old(withState), withState, chain, pruned, hasState, coins, heads, tds, stop);
          NoneBeats(old(blocks), blocks, old(withState), withState, chain, pruned, hasState, coins, heads, tds, stop,
            all, current);
          return;
        }
        AmongAgain(old(blocks), before, blocks);
        BatchedNext(old(blocks), before, blocks, old(withState), states, withState, chain, pruned, hasState, coins,
          heads, tds0, tds, stop, current, skip);
        heads := heads + [current];
        stop := stop + 1;
      }
      NoneBeats(old(blocks), blocks, old(withState), withState, chain, pruned, hasState, coins, heads, tds, stop, all,
        current);
    }

    /** One block of the batch; ok is whether it was skipped or its parent is there. */
    method ImportNext(b: Block, hasState: bool, pruned: bool, coin: bool, ghost all: Blocks)
      returns (skip: bool, ok: bool)
      requires Valid() && AllBlocks(all, genesis) && Among(blocks, all) && Stored(all, b)
      modifies this
      ensures Valid() && Among(blocks, all) && Among(old(blocks), blocks)
      ensures skip == (b.header.hash in old(blocks) && hasState && old(current).header.number >= b.header.number)
      ensures ok == (skip || b.header.parent in old(blocks))
      ensures !ok || skip ==>
        && blocks == old(blocks) && tds == old(tds) && current == old(current) && withState == old(withState)
        && canon == old(canon) && lookups == old(lookups) && headHeader == old(headHeader)
      ensures ok ==>
        && old(current.header.hash in tds) && b.header.hash in tds
        && var h, local := b.header.hash, old(tds[current.header.hash]);
           current == (if !skip && Wins(local, tds[h], old(current), b, coin) then b else old(current))
           && withState == if !skip && !(pruned && tds[h] < local) then old(withState) + {h} else old(withState)
      ensures ok ==> forall h :: h in blocks <==> h in old(blocks) || h == b.header.hash
      ensures forall h :: h in old(tds) ==> h in tds && tds[h] == old(tds)[h]
      ensures tds[current.header.hash] >= old(tds[current.header.hash])
      ensures old(headHeader == current.header.hash) && Positive(all, genesis) ==> headHeader == current.header.hash
    {
      hide Tree;
      hide NoRepeat;
      hide PathUpTo;
      hide Numbered;
      hide Scan;
      hide Weighed;
      hide TdSum;
      hide AllBlocks;
      hide Positive;
      hide Among;
      hide Lowest;
      hide Heaviest;
      hide Wins;
      skip := b.header.hash in blocks && hasState && current.header.number >= b.header.number;
      AmongSelf(blocks);
      if skip { return true, true; }
      if b.header.parent !in tds { return false, false; }
      InsertBlock(b, pruned, coin, all);
      ok := true;
    }
  }

  // -------------------------------------------------------------------- runs

  /** One of the blocks has the hash. */
  ghost predicate Offered(chain: seq<Block>, h: Hash) { exists i :: 0 <= i < |chain| && chain[i].header.hash == h }

  /** The block was stored already, with its state, and the head was not below it. */
  ghost predicate Skipped(start: Blocks, chain: seq<Block>, hasState: seq<bool>, heads: seq<Block>, i: nat)
    requires i < |chain| == |hasState| && i < |heads|
  {
    && hasState[i] && heads[i].header.number >= chain[i].header.number
    && (chain[i].header.hash in start || Offered(chain[..i], chain[i].header.hash))
  }

  /** The head after block i: the block, if it was written and beats the head before, else that head. */
  ghost predicate HeadAfter(start: Blocks, chain: seq<Block>, hasState: seq<bool>, coins: seq<bool>, heads: seq<Block>,
                            tds: map<Hash, nat>, i: nat)
    requires i < |chain| == |hasState| == |coins| && i + 1 < |heads|
  {
    var was, b := heads[i], chain[i];
    && was.header.hash in tds && b.header.hash in tds
    && var wins := Wins(tds[was.header.hash], tds[b.header.hash], was, b, coins[i]);
       heads[i + 1] == if !Skipped(start, chain, hasState, heads, i) && wins then b else was
  }

  /** One of the first blocks has the hash and was written with its state. */
  ghost predicate StateKept(start: Blocks, chain: seq<Block>, pruned: set<Hash>, hasState: seq<bool>,
                            heads: seq<Block>, tds: map<Hash, nat>, stop: nat, h: Hash)
    requires stop <= |chain| == |hasState| && stop <= |heads|
  {
    exists i ::
      0 <= i < stop && chain[i].header.hash == h && StateWritten(start, chain, pruned, hasState, heads, tds, i)
  }

  /** Block i was written, and not because it is pruned and lighter than the head without its state. */
  ghost predicate StateWritten(start: Blocks, chain: seq<Block>, pruned: set<Hash>, hasState: seq<bool>,
                               heads: seq<Block>, tds: map<Hash, nat>, i: nat)
    requires i < |chain| == |hasState| && i < |heads|
  {
    var h, head := chain[i].header.hash, heads[i].header.hash;
    && !Skipped(start, chain, hasState, heads, i) && h in tds && head in tds
    && !(h in pruned && tds[h] < tds[head])
  }

  /**
   The first stop blocks of the batch from start and states: the heads after each of them, and exactly which
   blocks and which states are stored.
   */
  ghost predicate Batched(start: Blocks, bs: Blocks, startStates: set<Hash>, states: set<Hash>, chain: seq<Block>,
                          pruned: set<Hash>, hasState: seq<bool>, coins: seq<bool>, heads: seq<Block>,
                          tds: map<Hash, nat>, stop: nat) {
    && stop <= |chain| == |hasState| == |coins| && |heads| == stop + 1
    && (forall i :: 0 <= i < stop ==> HeadAfter(start, chain, hasState, coins, heads, tds, i))
    && (forall h :: h in bs <==> h in start || Offered(chain[..stop], h))
    && forall h :: h in states <==>
         h in startStates || StateKept(start, chain, pruned, hasState, heads, tds, stop, h)
  }

  lemma NothingBatched(start: Blocks, states: set<Hash>, chain: seq<Block>, pruned: set<Hash>, hasState: seq<bool>,
                       coins: seq<bool>, head: Block, tds: map<Hash, nat>)
    requires |chain| == |hasState| == |coins|
    ensures Batched(start, start, states, states, chain, pruned, hasState, coins, [head], tds, 0)
  {
  }

  lemma NotBatched(start: Blocks, bs: Blocks, startStates: set<Hash>, states: set<Hash>, chain: seq<Block>,
                   pruned: set<Hash>, hasState: seq<bool>, coins: seq<bool>, heads: seq<Block>, tds: map<Hash, nat>,
                   stop: nat)
    requires Batched(start, bs, startStates, states, chain, pruned, hasState, coins, heads, tds, stop)
    requires stop < |chain| && var b := chain[stop];
      !(b.header.hash in bs && hasState[stop] && heads[stop].header.number >= b.header.number)
    ensures !Skipped(start, chain, hasState, heads, stop)
  {
  }

  lemma BatchedNext(start: Blocks, before: Blocks, bs: Blocks, startStates: set<Hash>, states0: set<Hash>,
                    states: set<Hash>, chain: seq<Block>, pruned: set<Hash>, hasState: seq<bool>, coins: seq<bool>,
                    heads: seq<Block>, tds: map<Hash, nat>, tds': map<Hash, nat>, i: nat, head: Block, skip: bool)
    requires Batched(start, before, startStates, states0, chain, pruned, hasState, coins, heads, tds, i) && i < |chain|
    requires forall h :: h in tds ==> h in tds' && tds'[h] == tds[h]
    requires forall x :: x in bs <==> x in before || x == chain[i].header.hash
    requires var was, b := heads[i], chain[i];
      && was.header.hash in tds && b.header.hash in tds'
      && skip == (b.header.hash in before && hasState[i] && was.header.number >= b.header.number)
      && head == (if !skip && Wins(tds[was.header.hash], tds'[b.header.hash], was, b, coins[i]) then b else was)
      && var late := b.header.hash in pruned && tds'[b.header.hash] < tds[was.header.hash];
         states == if !skip && !late then states0 + {b.header.hash} else states0
    ensures Batched(start, bs, startStates, states, chain, pruned, hasState, coins, heads + [head], tds', i + 1)
  {
    hide Wins;
    hide Offered;
    hide HeadAfter;
    hide StateKept;
    hide StateWritten;
    hide Skipped;
    OfferedNext(chain, i);
    HeadLast(start, before, chain, pruned, hasState, coins, heads, tds, tds', head, skip);
    HeadsNext(start, chain, pruned, hasState, coins, heads, tds, tds', head);
  }

  lemma OfferedNext(chain: seq<Block>, i: nat)
    requires i < |chain|
    ensures forall h :: Offered(chain[..i + 1], h) <==> Offered(chain[..i], h) || chain[i].header.hash == h
  {
    forall h | Offered(chain[..i], h) ensures Offered(chain[..i + 1], h) {
      var j :| 0 <= j < i && chain[..i][j].header.hash == h;
      assert chain[..i + 1][j].header.hash == h;
    }
    assert chain[..i + 1][i] == chain[i];
  }

  /** The next head and whether the next state is kept, by what was done with the block. */
  lemma HeadLast(start: Blocks, before: Blocks, chain: seq<Block>, pruned: set<Hash>, hasState: seq<bool>,
                 coins: seq<bool>, heads: seq<Block>, tds: map<Hash, nat>, tds': map<Hash, nat>, head: Block,
                 skip: bool)
    requires 0 < |heads| <= |chain| == |hasState| == |coins| && forall h :: h in tds ==> h in tds' && tds'[h] == tds[h]
    requires forall h :: h in before <==> h in start || Offered(chain[..|heads| - 1], h)
    requires var was, b := heads[|heads| - 1], chain[|heads| - 1];
      && was.header.hash in tds && b.header.hash in tds'
      && skip == (b.header.hash in before && hasState[|heads| - 1] && was.header.number >= b.header.number)
      && var wins := Wins(tds[was.header.hash], tds'[b.header.hash], was, b, coins[|heads| - 1]);
         head == if !skip && wins then b else was
    ensures HeadAfter(start, chain, hasState, coins, heads + [head], tds', |heads| - 1)
    ensures var h, was := chain[|heads| - 1].header.hash, heads[|heads| - 1].header.hash;
      StateWritten(start, chain, pruned, hasState, heads + [head], tds', |heads| - 1) <==>
        !skip && !(h in pruned && tds'[h] < tds[was])
  {
    hide Wins;
    hide Offered;
  }

  /** What is known of the heads and of the states kept so far stays true with the next head. */
  lemma HeadsNext(start: Blocks, chain: seq<Block>, pruned: set<Hash>, hasState: seq<bool>, coins: seq<bool>,
                  heads: seq<Block>, tds: map<Hash, nat>, tds': map<Hash, nat>, head: Block)
    requires 0 < |heads| <= |chain| == |hasState| == |coins| && forall h :: h in tds ==> h in tds' && tds'[h] == tds[h]
    requires forall i :: 0 <= i < |heads| - 1 ==> HeadAfter(start, chain, hasState, coins, heads, tds, i)
    ensures forall i :: 0 <= i < |heads| - 1 ==> HeadAfter(start, chain, hasState, coins, heads + [head], tds', i)
    ensures forall h :: StateKept(start, chain, pruned, hasState, heads + [head], tds', |heads|, h) <==>
      StateKept(start, chain, pruned, hasState, heads, tds, |heads| - 1, h)
        || (chain[|heads| - 1].header.hash == h
            && StateWritten(start, chain, pruned, hasState, heads + [head], tds', |heads| - 1))
  {
    hide Wins;
    hide Offered;
    var more := heads + [head];
    forall i | 0 <= i < |heads| - 1
      ensures HeadAfter(start, chain, hasState, coins, more, tds', i)
      ensures StateWritten(start, chain, pruned, hasState, more, tds', i)
        <==> StateWritten(start, chain, pruned, hasState, heads, tds, i)
    {
      assert HeadAfter(start, chain, hasState, coins, heads, tds, i);
    }
    hide HeadAfter;
    hide StateWritten;
  }

  ghost predicate Among(bs: Blocks, all: Blocks) { forall h :: h in bs ==> h in all && all[h] == bs[h] }

  /** All the blocks there are. */
  ghost predicate AllBlocks(all: Blocks, genesis: Block) {
    Tree(HeadersOf(all), genesis.header) && NoRepeat(all) && Stored(all, genesis)
  }

  lemma AmongSelf(bs: Blocks)
    ensures Among(bs, bs)
  {
  }

  lemma {:induction false} ScanAmong(bs: Blocks, all: Blocks, genesis: Header, h: Hash)
    requires Tree(HeadersOf(bs), genesis) && Tree(HeadersOf(all), genesis) && Among(bs, all) && h in bs
    ensures Scan(all, h) == Scan(bs, h)
    decreases bs[h].header.number
  {
    var hs := HeadersOf(bs);
    assert h in hs && Rooted(hs, genesis, hs[h]);
    if hs[h] != genesis {
      ScanAmong(bs, all, genesis, hs[h].parent);
    } else {
      assert 0 !in HeadersOf(all) && 0 !in hs;
    }
  }

  lemma AmongFits(bs: Blocks, all: Blocks, genesis: Block, b: Block)
    requires Tree(HeadersOf(bs), genesis.header) && AllBlocks(all, genesis) && Among(bs, all) && Stored(all, b)
      && b.header.parent in bs
    ensures FitsBlock(bs, b)
  {
    var hs := HeadersOf(all);
    assert hs[b.header.hash] == b.header && Rooted(hs, genesis.header, b.header);
    ScanAmong(bs, all, genesis.header, b.header.parent);
    assert Fresh(all, b);
    assert b.header.hash in HeadersOf(bs) ==> b.header.hash in bs;
    assert b.header.parent in HeadersOf(bs);
    assert genesis.header.parent !in hs;
  }

  lemma AmongMore(start: Blocks, bs: Blocks, all: Blocks, genesis: Block, b: Block)
    requires Among(start, bs) && Among(bs, all) && Stored(all, b)
    ensures var bs' := bs[b.header.hash := b];
      && Among(start, bs') && Among(bs', all) && (forall h :: h in bs ==> h in bs') && b.header.hash in bs'
      && (Positive(all, genesis) ==> Positive(bs', genesis))
  {
    var bs' := bs[b.header.hash := b];
    forall h | h in bs' ensures h in all && all[h] == bs'[h] { if h != b.header.hash { assert h in bs; } }
  }

  lemma AmongAgain(start: Blocks, bs: Blocks, bs': Blocks)
    requires Among(start, bs) && Among(bs, bs')
    ensures Among(start, bs') && forall h :: h in bs ==> h in bs'
  {
  }

  /** No block of the batch beats the head. */
  lemma NoneBeats(start: Blocks, bs: Blocks, startStates: set<Hash>, states: set<Hash>, chain: seq<Block>,
                  pruned: set<Hash>, hasState: seq<bool>, coins: seq<bool>, heads: seq<Block>, tds: map<Hash, nat>,
                  stop: nat, all: Blocks, head: Block)
    requires Batched(start, bs, startStates, states, chain, pruned, hasState, coins, heads, tds, stop)
    requires Heaviest(tds, head.header.hash) && Lowest(tds, bs, head) && Among(bs, all) && tds.Keys == bs.Keys
    requires forall b :: b in chain ==> Stored(all, b)
    ensures forall i :: 0 <= i < stop ==>
      var h, top := chain[i].header.hash, head.header;
      h in tds && (tds[h] < tds[top.hash] || (tds[h] == tds[top.hash] && top.number <= chain[i].header.number))
  {
    forall i | 0 <= i < stop ensures chain[i].header.hash in bs && bs[chain[i].header.hash] == chain[i] {
      assert chain[..stop][i] == chain[i];
      assert Offered(chain[..stop], chain[i].header.hash);
      assert Stored(all, chain[i]);
    }
  }

  /** After the better of head and block has won, no block as heavy as the winner is lower. */
  lemma SettledLowest(tds: map<Hash, nat>, bs: Blocks, was: Block, block: Block, extern: nat, wins: bool)
    requires Weighed(tds, HeadersOf(bs)) && Heaviest(tds, was.header.hash) && Lowest(tds, bs, was)
    requires Stored(bs, was) && FitsBlock(bs, block) && block.header.parent in tds
    requires extern == block.header.difficulty + tds[block.header.parent]
    requires var local, n, m := tds[was.header.hash], block.header.number, was.header.number;
      if wins then extern > local || (extern == local && n <= m) else extern < local || (extern == local && m <= n)
    ensures var h, head := block.header.hash, if wins then block else was;
      Heaviest(tds[h := extern], head.header.hash) && Lowest(tds[h := extern], bs[h := block], head)
  {
    var h := block.header.hash;
    if h in bs {
      var hs := HeadersOf(bs);
      assert hs[h] == block.header && block.header.parent in hs;
      assert tds[h] == TdSum(hs, h) && tds[block.header.parent] == TdSum(hs, block.header.parent);
    }
  }

  /** Writing a lighter block leaves the head's total difficulty. */
  lemma TdStays(bs: Blocks, tds: map<Hash, nat>, current: Block, b: Block, td: nat)
    requires Weighed(tds, HeadersOf(bs)) && current.header.hash in tds && FitsBlock(bs, b) && b.header.parent in tds
    requires td == b.header.difficulty + tds[b.header.parent] < tds[current.header.hash] && Stored(bs, current)
    ensures b.header.hash != current.header.hash
  {
    var hs := HeadersOf(bs);
    assert hs[current.header.hash] == current.header && b.header.parent in hs;
    assert b.header.hash == current.header.hash ==> b == current;
  }

  lemma HeadersKeys(bs: Blocks, tds: map<Hash, nat>)
    requires Weighed(tds, HeadersOf(bs))
    ensures tds.Keys == bs.Keys == HeadersOf(bs).Keys
  {
  }

  /** A block beats the head if it is heavier, or as heavy and lower, or as high too and the coin says so. */
  ghost predicate Wins(local: nat, extern: nat, was: Block, block: Block, coin: bool) {
    || extern > local
    || (extern == local && block.header.number < was.header.number)
    || (extern == local && block.header.number == was.header.number && coin)
  }

  /** No block that is as heavy as the head is lower. */
  ghost predicate Lowest(tds: map<Hash, nat>, bs: Blocks, head: Block) {
    forall h :: h in bs && h in tds && head.header.hash in tds && tds[h] == tds[head.header.hash] ==>
      head.header.number <= bs[h].header.number
  }

  ghost predicate Positive(bs: Blocks, genesis: Block) {
    forall h :: h in bs && bs[h] != genesis ==> bs[h].header.difficulty > 0
  }

  lemma PositivePart(bs: Blocks, genesis: Block, block: Block)
    requires Positive(bs[block.header.hash := block], genesis)
      && (block.header.hash in bs ==> bs[block.header.hash] == block)
    ensures Positive(bs, genesis)
  {
    var all := bs[block.header.hash := block];
    forall h | h in bs && bs[h] != genesis ensures bs[h].header.difficulty > 0 { assert h in all && all[h] == bs[h]; }
  }

  /** Writing the entries of the last block once more changes nothing. */
  lemma ScanAgain(all: Blocks, bs: Blocks, block: Block)
    requires Scan(all, block.header.hash) == Scan(bs, block.header.parent) + Entries(block)
    ensures Scan(all, block.header.hash) + Entries(block) == Scan(all, block.header.hash)
  {
  }

  // --------------------------------------------------------- the walk of reorg

  /** The walk down from a block has got to cur; the blocks on it are stored, but for the new one. */
  ghost predicate Walking(bs: Blocks, all: Blocks, from: Block, cur: Block, chain: seq<Block>) {
    IsPath(all, chain, from, cur) && (Stored(bs, cur) || (cur == from && cur.header.parent in bs))
      && cur.header.number <= from.header.number
  }

  /** The two blocks have different ancestors above the number. */
  ghost predicate Apart(hs: Headers, was: Block, block: Block, number: nat) {
    forall n: nat :: number < n <= was.header.number && n <= block.header.number ==>
      Anc(hs, was.header.hash, n) != Anc(hs, block.header.hash, n)
  }

  lemma PathStart(bs: Blocks, all: Blocks, genesis: Header, was: Block, block: Block)
    requires Tree(HeadersOf(all), genesis) && all == bs[block.header.hash := block] && block.header.parent in bs
      && Stored(bs, was)
    requires block.header.hash in bs ==> bs[block.header.hash] == block
    ensures Walking(bs, all, was, was, []) && Walking(bs, all, block, block, []) && TxsOf([]) == {}
  {
    PathNone(all, genesis, was);
    PathNone(all, genesis, block);
  }

  lemma WalkDown(bs: Blocks, all: Blocks, genesis: Header, from: Block, cur: Block, chain: seq<Block>, block: Block)
    requires Tree(HeadersOf(bs), genesis) && Tree(HeadersOf(all), genesis) && Walking(bs, all, from, cur, chain)
      && cur.header.number > 0
    requires all == bs[block.header.hash := block] && (block.header.hash in bs ==> bs[block.header.hash] == block)
    ensures cur.header.parent in bs && bs[cur.header.parent].header.number == cur.header.number - 1
    ensures Walking(bs, all, from, bs[cur.header.parent], chain + [cur])
    ensures TxsOf(chain + [cur]) == TxsOf(chain) + set t | t in cur.txs
  {
    PathDown(all, genesis, chain, from, cur);
    if Stored(bs, cur) {
      var hs := HeadersOf(bs);
      assert hs[cur.header.hash] == cur.header && Rooted(hs, genesis, cur.header);
      assert cur.header != genesis;
    }
    ParentStored(bs, genesis, cur.header.parent);
  }

  lemma ParentStored(bs: Blocks, genesis: Header, h: Hash)
    requires Tree(HeadersOf(bs), genesis) && h in bs
    ensures Stored(bs, bs[h])
  {
    assert h in HeadersOf(bs);
  }

  lemma WalkLevels(bs: Blocks, all: Blocks, was: Block, o: Block, oldChain: seq<Block>, block: Block, w: Block,
                   newChain: seq<Block>)
    requires Walking(bs, all, was, o, oldChain) && Walking(bs, all, block, w, newChain)
    requires o.header.number <= block.header.number && (o == was || o.header.number >= block.header.number)
    requires w.header.number <= o.header.number && (w == block || w.header.number >= o.header.number)
    ensures o.header.number == w.header.number && Apart(HeadersOf(all), was, block, o.header.number)
  {
  }

  lemma ApartBelow(all: Blocks, genesis: Header, was: Block, o: Block, oldChain: seq<Block>, block: Block, w: Block,
                   newChain: seq<Block>, bs: Blocks)
    requires Tree(HeadersOf(all), genesis) && Walking(bs, all, was, o, oldChain) && Walking(bs, all, block, w, newChain)
    requires o.header.number == w.header.number && Apart(HeadersOf(all), was, block, o.header.number)
      && o.header.hash != w.header.hash
    ensures o.header.number > 0 && Apart(HeadersOf(all), was, block, o.header.number - 1)
  {
    AncRoot(HeadersOf(all), genesis, was.header.hash);
    AncRoot(HeadersOf(all), genesis, block.header.hash);
  }

  lemma SameBlock(bs: Blocks, all: Blocks, was: Block, o: Block, oldChain: seq<Block>, block: Block, w: Block,
                  newChain: seq<Block>)
    requires Walking(bs, all, was, o, oldChain) && Walking(bs, all, block, w, newChain)
      && o.header.hash == w.header.hash
    ensures o == w && IsPath(all, oldChain, was, o) && IsPath(all, newChain, block, o)
  {
  }

  lemma EntriesNext(b: Block, i: nat)
    requires i < |b.txs|
    ensures Entries(b.(txs := b.txs[..i + 1]))
      == Entries(b.(txs := b.txs[..i]))[b.txs[i] := Entry(b.header.hash, b.header.number, i)]
  {
    var prefix := b.txs[..i + 1];
    assert prefix[..i] == b.txs[..i] && prefix == b.txs[..i] + [b.txs[i]];
    forall t | t in prefix ensures t == b.txs[i] || t in b.txs[..i] { }
  }

  /** Every entry of the index is a stored block with that number. */
  ghost predicate Numbered(canon: map<nat, Hash>, bs: Blocks) {
    forall n: nat :: n in canon ==> canon[n] in bs && bs[canon[n]].header.number == n
  }

  // ------------------------------------------------------ the new index of reorg

  /** The numbers a chain of blocks, the highest first, is assigned to. */
  function ChainCanon(chain: seq<Block>): map<nat, Hash> {
    if chain == [] then map[] else ChainCanon(chain[1..])[chain[0].header.number := chain[0].header.hash]
  }

  lemma InsertedNone(canon: map<nat, Hash>, lookups: Lookups)
    ensures canon + ChainCanon([]) == canon && lookups + ChainEntries([]) == lookups
  {
  }

  lemma InsertedNext(canon: map<nat, Hash>, lookups: Lookups, b: Block, rest: seq<Block>)
    ensures canon + ChainCanon([b] + rest) == (canon + ChainCanon(rest))[b.header.number := b.header.hash]
    ensures lookups + ChainEntries([b] + rest) == lookups + ChainEntries(rest) + Entries(b)
  {
    assert ([b] + rest)[1..] == rest;
    MapsJoin(lookups, ChainEntries(rest), Entries(b));
    hide ChainCanon;
    hide Entries;
  }

  lemma TxsOfNone()
    ensures TxsOf([]) == {}
  {
  }

  lemma TxsOfNext(b: Block, rest: seq<Block>)
    ensures TxsOf([b] + rest) == TxsOf(rest) + set t | t in b.txs
  {
  }

  lemma TopIsFrom(bs: Blocks, genesis: Header, chain: seq<Block>, from: Block, to: Block)
    requires Tree(HeadersOf(bs), genesis) && IsPath(bs, chain, from, to) && chain != []
    ensures chain[0] == from && from.header.number !in ChainCanon(chain[1..])
  {
    PathTail(bs, genesis, chain, from, to);
    PathCanon(bs, genesis, chain[1..], bs[from.header.parent], to);
  }

  lemma {:induction false} PathCanon(bs: Blocks, genesis: Header, chain: seq<Block>, from: Block, to: Block)
    requires Tree(HeadersOf(bs), genesis) && IsPath(bs, chain, from, to)
    ensures forall n: nat :: n in ChainCanon(chain) <==> to.header.number < n <= from.header.number
    ensures forall n: nat :: n in ChainCanon(chain) ==> ChainCanon(chain)[n] == Anc(HeadersOf(bs), from.header.hash, n)
    decreases |chain|
  {
    if chain != [] {
      PathTail(bs, genesis, chain, from, to);
      PathCanon(bs, genesis, chain[1..], bs[from.header.parent], to);
      forall n: nat | n < from.header.number
        ensures Anc(HeadersOf(bs), from.header.hash, n) == Anc(HeadersOf(bs), from.header.parent, n)
      {
      }
    }
  }

  lemma Rerouted(start: map<nat, Hash>, all: Blocks, genesis: Header, oldChain: seq<Block>, newChain: seq<Block>,
                 was: Block, block: Block, common: Block)
    requires Tree(HeadersOf(all), genesis) && IsPath(all, oldChain, was, common) && IsPath(all, newChain, block, common)
    requires PathUpTo(start, HeadersOf(all), was.header.hash, was.header.number) && Numbered(start, all)
    ensures PathUpTo(start + ChainCanon(newChain), HeadersOf(all), block.header.hash, block.header.number)
      && Numbered(start + ChainCanon(newChain), all)
    ensures newChain == [] <==> common == block
  {
    var hs, canon := HeadersOf(all), start + ChainCanon(newChain);
    PathCanon(all, genesis, newChain, block, common);
    forall n: nat | n <= block.header.number ensures n in canon && canon[n] == Anc(hs, block.header.hash, n) {
      if n <= common.header.number {
        AncOfAnc(hs, genesis, block.header.hash, n, common.header.number);
        AncOfAnc(hs, genesis, was.header.hash, n, common.header.number);
      }
    }
    forall n: nat | n in ChainCanon(newChain) ensures canon[n] in all && all[canon[n]].header.number == n {
      AncIn(hs, genesis, block.header.hash, n);
    }
  }

  /** The index and the lookups of the old head mean the same when the new block is stored. */
  lemma Unmoved(bs: Blocks, genesis: Header, block: Block, canon: map<nat, Hash>, was: Block)
    requires Tree(HeadersOf(bs), genesis) && FitsBlock(bs, block) && block.header.parent in bs && Stored(bs, was)
    requires PathUpTo(canon, HeadersOf(bs), was.header.hash, was.header.number) && Numbered(canon, bs)
    ensures var all := bs[block.header.hash := block];
      && PathUpTo(canon, HeadersOf(all), was.header.hash, was.header.number) && Numbered(canon, all)
      && Scan(all, was.header.hash) == Scan(bs, was.header.hash) && Stored(all, was)
  {
    var all := bs[block.header.hash := block];
    assert HeadersOf(all) == HeadersOf(bs)[block.header.hash := block.header];
    ScanGrows(bs, genesis, block, was.header.hash);
    forall n: nat ensures Anc(HeadersOf(all), was.header.hash, n) == Anc(HeadersOf(bs), was.header.hash, n) {
      AncGrows(HeadersOf(bs), genesis, block.header, was.header.hash, n);
    }
  }

  lemma ExtendPath(canon: map<nat, Hash>, all: Blocks, genesis: Header, was: Block, block: Block)
    requires Tree(HeadersOf(all), genesis) && Stored(all, was) && Stored(all, block)
      && block.header.parent == was.header.hash
    requires PathUpTo(canon, HeadersOf(all), was.header.hash, was.header.number) && Numbered(canon, all)
      && block.header != genesis
    ensures PathUpTo(canon[block.header.number := block.header.hash], HeadersOf(all), block.header.hash,
      block.header.number)
    ensures Numbered(canon[block.header.number := block.header.hash], all) && block != was
  {
    var hs := HeadersOf(all);
    assert hs[block.header.hash] == block.header && Rooted(hs, genesis, block.header);
    forall n: nat | n < block.header.number ensures Anc(hs, block.header.hash, n) == Anc(hs, was.header.hash, n) { }
  }

  lemma TopListed(canon: map<nat, Hash>, all: Blocks, block: Block)
    requires Stored(all, block) && PathUpTo(canon, HeadersOf(all), block.header.hash, block.header.number)
    ensures block.header.number in canon && canon[block.header.number] == block.header.hash
      && canon[block.header.number := block.header.hash] == canon
  {
    assert Anc(HeadersOf(all), block.header.hash, block.header.number) == block.header.hash;
  }

  lemma EndsStored(bs: Blocks, chain: seq<Block>, from: Block, to: Block)
    requires IsPath(bs, chain, from, to)
    ensures Stored(bs, to)
  {
  }

  lemma CommonSelf(all: Blocks, was: Block, block: Block, common: Block)
    requires Stored(all, common) && Stored(all, block)
      && LastCommon(HeadersOf(all), was.header.hash, block.header.hash, common.header)
    ensures was == block ==> common == block
  {
    if was == block {
      assert HeadersOf(all)[block.header.hash] == block.header;
      assert Anc(HeadersOf(all), block.header.hash, block.header.number) == block.header.hash;
    }
  }

  lemma CommonListed(canon: map<nat, Hash>, all: Blocks, was: Block, common: Block)
    requires Stored(all, was) && PathUpTo(canon, HeadersOf(all), was.header.hash, was.header.number)
    requires exists h :: LastCommon(HeadersOf(all), was.header.hash, h, common.header)
    ensures common.header.number in canon && canon[common.header.number] == common.header.hash
  {
  }

  lemma {:induction false} TdGrows(bs: Blocks, genesis: Block, h: Hash, n: nat)
    requires Tree(HeadersOf(bs), genesis.header) && Stored(bs, genesis) && Positive(bs, genesis) && h in bs
      && n < bs[h].header.number
    ensures TdSum(HeadersOf(bs), Anc(HeadersOf(bs), h, n)) < TdSum(HeadersOf(bs), h)
    decreases bs[h].header.number
  {
    var hs := HeadersOf(bs);
    assert h in hs && Rooted(hs, genesis.header, hs[h]);
    var p := hs[h].parent;
    if n < hs[p].number { TdGrows(bs, genesis, p, n); } else { assert Anc(hs, h, n) == p; }
  }

  /** With positive difficulties, a block that takes over was not on the index yet, unless it was the head. */
  lemma NotListed(bs: Blocks, tds: map<Hash, nat>, canon: map<nat, Hash>, genesis: Block, was: Block, block: Block)
    requires Tree(HeadersOf(bs), genesis.header) && Stored(bs, genesis) && Stored(bs, was) && Positive(bs, genesis)
    requires PathUpTo(canon, HeadersOf(bs), was.header.hash, was.header.number) && Numbered(canon, bs)
    requires Weighed(tds, HeadersOf(bs)) && Heaviest(tds, was.header.hash) && FitsBlock(bs, block)
      && block.header.parent in bs
    requires var extern := block.header.difficulty + tds[block.header.parent];
      extern > tds[was.header.hash] || (extern == tds[was.header.hash] && block.header.number <= was.header.number)
    ensures block == was || !(block.header.number in canon && canon[block.header.number] == block.header.hash)
  {
    var n := block.header.number;
    if n in canon && canon[n] == block.header.hash {
      assert Stored(bs, block);
      var hs := HeadersOf(bs);
      assert hs[block.header.hash] == block.header && block.header.parent in hs;
      assert tds[block.header.hash] == TdSum(hs, block.header.hash)
          && tds[block.header.parent] == TdSum(hs, block.header.parent);
      assert Anc(hs, was.header.hash, n) == block.header.hash;
      if n < was.header.number { TdGrows(bs, genesis, was.header.hash, n); }
    }
  }
}
