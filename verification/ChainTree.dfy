/**
 Headers as a tree: ancestors, total difficulty, and what a canonical index over
 block numbers has to say about a head. Hashes are numbers; 0 is the empty hash.
 */
module ChainTree {
  type Hash = nat

  datatype Header = Header(hash: Hash, parent: Hash, number: nat, difficulty: nat)

  type Headers = map<Hash, Header>

  /** Stored headers form a tree below genesis: every parent is stored, one number lower. */
  ghost predicate Tree(hs: Headers, genesis: Header) {
    && genesis.hash in hs && hs[genesis.hash] == genesis && genesis.number == 0
    && 0 !in hs && genesis.parent == 0
    && forall h :: h in hs ==> hs[h].hash == h && Rooted(hs, genesis, hs[h])
  }

  ghost predicate Rooted(hs: Headers, genesis: Header, header: Header) {
    header == genesis || (header.parent in hs && header.number == hs[header.parent].number + 1)
  }

  /** A header that may be stored: the hash determines it, and it is numbered after its parent. */
  ghost predicate Fits(hs: Headers, header: Header) {
    && header.hash != 0 && (header.hash in hs ==> hs[header.hash] == header)
    && (header.parent in hs ==> header.number == hs[header.parent].number + 1)
  }

  /** The ancestor of h with the given number, or h itself if it is not higher. */
  ghost function Anc(hs: Headers, h: Hash, n: nat): Hash
    decreases if h in hs then hs[h].number else 0
  {
    if h in hs && hs[h].number > n && hs[h].parent in hs && hs[hs[h].parent].number < hs[h].number
    then Anc(hs, hs[h].parent, n) else h
  }

  /** The sum of difficulties from genesis to h. */
  ghost function TdSum(hs: Headers, h: Hash): nat
    decreases if h in hs then hs[h].number else 0
  {
    if h !in hs then 0
    else hs[h].difficulty + if hs[h].parent in hs && hs[hs[h].parent].number < hs[h].number then TdSum(hs, hs[h].parent)
      else 0
  }

  lemma {:induction false} AncIn(hs: Headers, genesis: Header, h: Hash, n: nat)
    requires Tree(hs, genesis) && h in hs && n <= hs[h].number
    ensures Anc(hs, h, n) in hs && hs[Anc(hs, h, n)].number == n
    decreases hs[h].number
  {
    if hs[h].number > n {
      assert Rooted(hs, genesis, hs[h]);
      AncIn(hs, genesis, hs[h].parent, n);
    }
  }

  /** Agreement at one number is agreement at all lower numbers. */
  lemma {:induction false} AncOfAnc(hs: Headers, genesis: Header, h: Hash, m: nat, n: nat)
    requires Tree(hs, genesis) && h in hs && m <= n <= hs[h].number
    ensures Anc(hs, Anc(hs, h, n), m) == Anc(hs, h, m)
    decreases hs[h].number
  {
    if hs[h].number > n {
      assert Rooted(hs, genesis, hs[h]);
      AncOfAnc(hs, genesis, hs[h].parent, m, n);
    }
  }

  lemma AncStep(hs: Headers, genesis: Header, h: Hash, n: nat)
    requires Tree(hs, genesis) && h in hs && n < hs[h].number
    ensures var a := Anc(hs, h, n + 1);
      a in hs && hs[a].number == n + 1 && hs[a].parent in hs && Anc(hs, h, n) == hs[a].parent
  {
    AncIn(hs, genesis, h, n + 1);
    AncOfAnc(hs, genesis, h, n, n + 1);
    assert Rooted(hs, genesis, hs[Anc(hs, h, n + 1)]);
  }

  lemma AncRoot(hs: Headers, genesis: Header, h: Hash)
    requires Tree(hs, genesis) && h in hs
    ensures Anc(hs, h, 0) == genesis.hash
  {
    AncIn(hs, genesis, h, 0);
    assert Rooted(hs, genesis, hs[Anc(hs, h, 0)]);
  }

  lemma TreeGrows(hs: Headers, genesis: Header, header: Header)
    requires Tree(hs, genesis) && Fits(hs, header) && header.parent in hs
    ensures Tree(hs[header.hash := header], genesis)
  {
    var hs' := hs[header.hash := header];
    forall h | h in hs' ensures hs'[h].hash == h && Rooted(hs', genesis, hs'[h]) {
      if h in hs { assert Rooted(hs, genesis, hs[h]); }
    }
  }

  /** What is stored later does not change the ancestry of what is there. */
  lemma {:induction false} AncGrows(hs: Headers, genesis: Header, header: Header, h: Hash, n: nat)
    requires Tree(hs, genesis) && Fits(hs, header) && h in hs
    ensures Anc(hs[header.hash := header], h, n) == Anc(hs, h, n)
    ensures TdSum(hs[header.hash := header], h) == TdSum(hs, h)
    decreases hs[h].number
  {
    assert Rooted(hs, genesis, hs[h]);
    if hs[h] != genesis { AncGrows(hs, genesis, header, hs[h].parent, n); }
  }

  /** The index maps the numbers up to the head to the ancestors of the head. */
  ghost predicate PathUpTo(canon: map<nat, Hash>, hs: Headers, head: Hash, top: nat) {
    forall n: nat :: n <= top ==> n in canon && canon[n] == Anc(hs, head, n)
  }

  /** ... and nothing above the head. */
  ghost predicate ExactPath(canon: map<nat, Hash>, hs: Headers, head: Header) {
    PathUpTo(canon, hs, head.hash, head.number) && forall n: nat :: n in canon ==> n <= head.number
  }

  /** The same without the tree: entries link up from genesis to the head. */
  ghost predicate Linked(canon: map<nat, Hash>, hs: Headers, genesis: Header, head: Header) {
    && (forall n: nat :: n in canon <==> n <= head.number)
    && canon[0] == genesis.hash && canon[head.number] == head.hash && head.hash in hs && hs[head.hash] == head
    && (forall n: nat :: n in canon ==> canon[n] in hs && hs[canon[n]].hash == canon[n] && hs[canon[n]].number == n)
    && forall n: nat :: n in canon && n > 0 ==> hs[canon[n]].parent == canon[n - 1]
  }

  /** On a tree the two descriptions agree. */
  lemma ExactIsLinked(canon: map<nat, Hash>, hs: Headers, genesis: Header, head: Header)
    requires Tree(hs, genesis) && head.hash in hs && hs[head.hash] == head
    ensures ExactPath(canon, hs, head) <==> Linked(canon, hs, genesis, head)
  {
    if ExactPath(canon, hs, head) { ExactLinks(canon, hs, genesis, head); }
    if Linked(canon, hs, genesis, head) {
      forall n: nat | n <= head.number ensures n in canon && canon[n] == Anc(hs, head.hash, n) {
        LinkedIsAnc(canon, hs, genesis, head, n);
      }
    }
  }

  lemma ExactLinks(canon: map<nat, Hash>, hs: Headers, genesis: Header, head: Header)
    requires Tree(hs, genesis) && head.hash in hs && hs[head.hash] == head && ExactPath(canon, hs, head)
    ensures Linked(canon, hs, genesis, head)
  {
    AncRoot(hs, genesis, head.hash);
    forall n: nat | n in canon
      ensures canon[n] in hs && hs[canon[n]].hash == canon[n] && hs[canon[n]].number == n
    {
      AncIn(hs, genesis, head.hash, n);
    }
    forall n: nat | n in canon && n > 0 ensures hs[canon[n]].parent == canon[n - 1] {
      AncStep(hs, genesis, head.hash, n - 1);
    }
  }

  lemma {:induction false} LinkedIsAnc(canon: map<nat, Hash>, hs: Headers, genesis: Header, head: Header, n: nat)
    requires Tree(hs, genesis) && Linked(canon, hs, genesis, head) && n <= head.number
    ensures n in canon && canon[n] == Anc(hs, head.hash, n)
    decreases head.number - n
  {
    if n < head.number {
      LinkedIsAnc(canon, hs, genesis, head, n + 1);
      AncStep(hs, genesis, head.hash, n);
    }
  }

  /** The highest number at which two headers have the same ancestor. */
  ghost predicate LastCommon(hs: Headers, a: Hash, b: Hash, common: Header) {
    && a in hs && b in hs && common.number <= hs[a].number && common.number <= hs[b].number
    && Anc(hs, a, common.number) == common.hash == Anc(hs, b, common.number)
    && forall n: nat :: n <= hs[a].number && n <= hs[b].number && Anc(hs, a, n) == Anc(hs, b, n) ==> n <= common.number
  }
}
