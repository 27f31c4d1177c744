/**
 The tree of randselect.go: nodes of eight branches with stored weight sums and item
 counts. A node stands for a flat array of cells; every operation on the tree is the
 corresponding operation on the array.
 */
module RandTree {
  type Item = nat

  const BRANCHES: nat := 8

  /** What a branch holds: nothing, an item (on the lowest level), or a node. */
  datatype Kid = Nil | ItemKid(item: Item) | NodeKid(node: Node)

  datatype Node = Node(kids: seq<Kid>, weights: seq<nat>, sumWeight: nat, level: nat, itemCnt: nat, maxItems: nat)

  datatype Cell = Free | Taken(item: Item, weight: nat)

  function Pow8(level: nat): nat { if level == 0 then 1 else 8 * Pow8(level - 1) }

  // ---------------------------------------------------------------- flat arrays

  function Frees(n: nat): seq<Cell> { seq(n, i => Free) }

  /** The cells below one branch of a node on the given level. */
  function FlatKid(kid: Kid, weight: nat, level: nat): seq<Cell>
    decreases level, 0
  {
    match kid
    case Nil => Frees(Pow8(level))
    case ItemKid(item) => [Taken(item, weight)]
    case NodeKid(node) => if level == 0 then [] else FlatKids(node.kids, node.weights, level - 1)
  }

  function FlatKids(kids: seq<Kid>, weights: seq<nat>, level: nat): seq<Cell>
    decreases level, 1, |kids|
  {
    if kids == [] || weights == [] then []
      else FlatKid(kids[0], weights[0], level) + FlatKids(kids[1..], weights[1..], level)
  }

  function Flat(n: Node): seq<Cell> { FlatKids(n.kids, n.weights, n.level) }

  function WeightOf(c: Cell): nat { if c.Taken? then c.weight else 0 }

  /** The weight of an array of cells. */
  function Weigh(cells: seq<Cell>): nat { if cells == [] then 0 else WeightOf(cells[0]) + Weigh(cells[1..]) }

  /** The number of items in an array of cells. */
  function Count(cells: seq<Cell>): nat {
    if cells == [] then 0 else (if cells[0].Taken? then 1 else 0) + Count(cells[1..])
  }

  function Sum(ws: seq<nat>): nat { if ws == [] then 0 else ws[0] + Sum(ws[1..]) }

  // -------------------------------------------------------------- well-formed trees

  ghost predicate ValidKid(kid: Kid, weight: nat, level: nat)
    decreases level, 0
  {
    match kid
    case Nil => weight == 0
    case ItemKid(item) => level == 0 && weight > 0
    case NodeKid(node) => level > 0 && ValidNode(node, level - 1) && node.sumWeight == weight
  }

  /** A node whose sums and counts are exact, all the way down. */
  ghost predicate ValidNode(n: Node, level: nat)
    decreases level, 1
  {
    && n.level == level && |n.kids| == |n.weights| == BRANCHES && n.maxItems == Pow8(level + 1)
    && (forall i :: 0 <= i < BRANCHES ==> ValidKid(n.kids[i], n.weights[i], level))
    && n.sumWeight == Sum(n.weights) && n.itemCnt == Count(FlatKids(n.kids, n.weights, level))
  }

  // ------------------------------------------------------- sums over concatenation

  lemma {:induction false} WeighConcat(a: seq<Cell>, b: seq<Cell>)
    ensures Weigh(a + b) == Weigh(a) + Weigh(b) && Count(a + b) == Count(a) + Count(b)
  {
    if a == [] {
      assert a + b == b;
    } else {
      assert (a + b)[1..] == a[1..] + b;
      WeighConcat(a[1..], b);
    }
  }

  lemma {:induction false} WeighFrees(n: nat)
    ensures Weigh(Frees(n)) == 0 && Count(Frees(n)) == 0
  {
    if n > 0 {
      assert Frees(n)[1..] == Frees(n - 1);
      WeighFrees(n - 1);
    }
  }

  /** Replacing one cell changes the sums by the difference. */
  lemma WeighUpdate(cells: seq<Cell>, i: nat, c: Cell)
    requires i < |cells|
    ensures Weigh(cells[i := c]) == Weigh(cells) - WeightOf(cells[i]) + WeightOf(c)
    ensures Count(cells[i := c]) == Count(cells) - (if cells[i].Taken? then 1 else 0) + if c.Taken? then 1 else 0
  {
    assert cells == cells[..i] + ([cells[i]] + cells[i + 1..]) && cells[i := c] == cells[..i] + ([c] + cells[i + 1..]);
    WeighConcat(cells[..i], [cells[i]] + cells[i + 1..]);
    WeighConcat(cells[..i], [c] + cells[i + 1..]);
    assert ([c] + cells[i + 1..])[1..] == cells[i + 1..] == ([cells[i]] + cells[i + 1..])[1..];
  }

  lemma {:induction false} CountBound(cells: seq<Cell>)
    ensures Count(cells) <= |cells| && (Count(cells) == |cells| ==> forall i :: 0 <= i < |cells| ==> cells[i].Taken?)
  {
    if cells != [] { CountBound(cells[1..]); }
  }

  lemma {:induction false} SumUpdate(ws: seq<nat>, i: nat, w: nat)
    requires i < |ws|
    ensures Sum(ws[i := w]) == Sum(ws) - ws[i] + w
  {
    if i == 0 {
      assert ws[0 := w][1..] == ws[1..];
    } else {
      assert ws[i := w][1..] == ws[1..][i - 1 := w];
      SumUpdate(ws[1..], i - 1, w);
    }
  }

  // ------------------------------------------------------------ cells of branches

  ghost predicate ValidKids(kids: seq<Kid>, weights: seq<nat>, level: nat) {
    |kids| == |weights| && forall i :: 0 <= i < |kids| ==> ValidKid(kids[i], weights[i], level)
  }

  /** A branch on a level stands for as many cells as the level says, and its stored weight is theirs. */
  lemma {:induction false} KidCells(kid: Kid, weight: nat, level: nat)
    requires ValidKid(kid, weight, level)
    ensures |FlatKid(kid, weight, level)| == Pow8(level) && Weigh(FlatKid(kid, weight, level)) == weight
    ensures kid.NodeKid? ==> kid.node.itemCnt == Count(FlatKid(kid, weight, level)) && kid.node.maxItems == Pow8(level)
    decreases level, 0
  {
    match kid
    case Nil => WeighFrees(Pow8(level));
    case ItemKid(item) =>
    case NodeKid(node) => KidsCells(node.kids, node.weights, level - 1);
  }

  lemma {:induction false} KidsCells(kids: seq<Kid>, weights: seq<nat>, level: nat)
    requires ValidKids(kids, weights, level)
    ensures |FlatKids(kids, weights, level)| == |kids| * Pow8(level)
      && Weigh(FlatKids(kids, weights, level)) == Sum(weights)
    decreases level, 1, |kids|
  {
    if kids != [] {
      KidCells(kids[0], weights[0], level);
      KidsCells(kids[1..], weights[1..], level);
      WeighConcat(FlatKid(kids[0], weights[0], level), FlatKids(kids[1..], weights[1..], level));
      Distribute(|kids|, Pow8(level));
    }
  }

  lemma Distribute(n: nat, p: nat)
    requires n > 0
    ensures n * p == p + (n - 1) * p
  {
  }

  lemma FlatLength(n: Node)
    requires ValidNode(n, n.level)
    ensures |Flat(n)| == n.maxItems && Weigh(Flat(n)) == n.sumWeight && Count(Flat(n)) == n.itemCnt
  {
    KidsCells(n.kids, n.weights, n.level);
  }

  /** The cells of a node split at a branch. */
  lemma FlatSplit(kids: seq<Kid>, weights: seq<nat>, level: nat, b: nat)
    requires ValidKids(kids, weights, level) && b < |kids|
    ensures FlatKids(kids, weights, level) ==
      FlatKids(kids[..b], weights[..b], level) + FlatKid(kids[b], weights[b], level)
        + FlatKids(kids[b + 1..], weights[b + 1..], level)
    ensures |FlatKids(kids[..b], weights[..b], level)| == b * Pow8(level)
      && Weigh(FlatKids(kids[..b], weights[..b], level)) == Sum(weights[..b])
  {
    KidsCells(kids[..b], weights[..b], level);
    FlatSplits(kids, weights, level, b);
  }

  lemma {:induction false} FlatSplits(kids: seq<Kid>, weights: seq<nat>, level: nat, b: nat)
    requires |kids| == |weights| && b < |kids|
    ensures FlatKids(kids, weights, level) ==
      FlatKids(kids[..b], weights[..b], level) + FlatKid(kids[b], weights[b], level)
        + FlatKids(kids[b + 1..], weights[b + 1..], level)
  {
    hide FlatKid;
    if b > 0 {
      FlatSplits(kids[1..], weights[1..], level, b - 1);
      assert kids[..b][1..] == kids[1..][..b - 1] && weights[..b][1..] == weights[1..][..b - 1];
      assert kids[1..][b..] == kids[b + 1..] && weights[1..][b..] == weights[b + 1..];
    }
  }

  /** Changing one cell of a branch changes that cell of the node. */
  lemma FlatUpdate(kids: seq<Kid>, weights: seq<nat>, level: nat, b: nat, kid: Kid, weight: nat, sub: nat, c: Cell)
    requires ValidKids(kids, weights, level) && b < |kids| && ValidKid(kid, weight, level) && sub < Pow8(level)
    requires |FlatKid(kids[b], weights[b], level)| == Pow8(level)
    requires FlatKid(kid, weight, level) == FlatKid(kids[b], weights[b], level)[sub := c]
    ensures var cells := FlatKids(kids, weights, level); var i := b * Pow8(level) + sub;
      && i < |cells| && cells[i] == FlatKid(kids[b], weights[b], level)[sub]
      && FlatKids(kids[b := kid], weights[b := weight], level) == cells[i := c]
  {
    hide FlatKids;
    hide FlatKid;
    var kids', weights' := kids[b := kid], weights[b := weight];
    FlatSplit(kids, weights, level, b);
    FlatSplit(kids', weights', level, b);
    assert kids'[..b] == kids[..b] && weights'[..b] == weights[..b] && kids'[b + 1..] == kids[b + 1..]
        && weights'[b + 1..] == weights[b + 1..];
    var left, mid, right := FlatKids(kids[..b], weights[..b], level), FlatKid(kids[b], weights[b], level),
        FlatKids(kids[b + 1..], weights[b + 1..], level);
    ConcatUpdate(left, mid, right, sub, c);
  }

  lemma ConcatUpdate(left: seq<Cell>, mid: seq<Cell>, right: seq<Cell>, sub: nat, c: Cell)
    requires sub < |mid|
    ensures (left + mid + right)[|left| + sub] == mid[sub]
      && left + mid[sub := c] + right == (left + mid + right)[|left| + sub := c]
  {
  }

  // --------------------------------------------------------------------- insert

  /** A branch that insert passes over: an item, or a full node. */
  predicate Passed(kid: Kid, level: nat) {
    kid != Nil && (level == 0 || (kid.NodeKid? && kid.node.itemCnt == kid.node.maxItems))
  }

  /** If insert passes over every branch, the node is full: it never panics on a node with room. */
  lemma AllPassedIsFull(n: Node)
    requires ValidNode(n, n.level) && forall i :: 0 <= i < BRANCHES ==> Passed(n.kids[i], n.level)
    ensures n.itemCnt == n.maxItems
  {
    FullKids(n.kids, n.weights, n.level);
    KidsCells(n.kids, n.weights, n.level);
  }

  lemma {:induction false} FullKids(kids: seq<Kid>, weights: seq<nat>, level: nat)
    requires ValidKids(kids, weights, level) && forall i :: 0 <= i < |kids| ==> Passed(kids[i], level)
    ensures Count(FlatKids(kids, weights, level)) == |kids| * Pow8(level)
  {
    if kids != [] {
      KidCells(kids[0], weights[0], level);
      FullKids(kids[1..], weights[1..], level);
      WeighConcat(FlatKid(kids[0], weights[0], level), FlatKids(kids[1..], weights[1..], level));
      Distribute(|kids|, Pow8(level));
    }
  }

  function EmptyNode(level: nat): Node {
    Node(seq(BRANCHES, i => Nil), seq(BRANCHES, i => 0), 0, level, 0, Pow8(level + 1))
  }

  lemma {:induction false} NilCells(kids: seq<Kid>, weights: seq<nat>, level: nat)
    requires |kids| == |weights| && forall i :: 0 <= i < |kids| ==> kids[i] == Nil && weights[i] == 0
    ensures FlatKids(kids, weights, level) == Frees(|kids| * Pow8(level)) && Sum(weights) == 0
  {
    if kids != [] {
      NilCells(kids[1..], weights[1..], level);
      Distribute(|kids|, Pow8(level));
      FreesJoin(Pow8(level), (|kids| - 1) * Pow8(level));
      hide Pow8;
      hide Frees;
      assert FlatKid(kids[0], weights[0], level) == Frees(Pow8(level));
    }
  }

  lemma FreesJoin(a: nat, b: nat)
    ensures Frees(a) + Frees(b) == Frees(a + b)
  {
  }

  /** The node below a branch, made if it is not there. */
  function SubOf(kid: Kid, level: nat): Node {
    match kid
    case NodeKid(node) => node
    case _ => EmptyNode(level)
  }

  lemma KidNode(n: Node, b: nat)
    requires ValidNode(n, n.level) && n.level > 0 && b < BRANCHES
    ensures !n.kids[b].ItemKid? && (n.kids[b] == Nil ==> n.weights[b] == 0)
    ensures n.kids[b].NodeKid? ==> var node := n.kids[b].node;
      && ValidNode(node, node.level) && node.level == n.level - 1 && node.sumWeight == n.weights[b]
      && Flat(node) == FlatKid(n.kids[b], n.weights[b], n.level) && |Flat(node)| == Pow8(n.level) == node.maxItems
    ensures |FlatKid(n.kids[b], n.weights[b], n.level)| == Pow8(n.level)
      && Weigh(FlatKid(n.kids[b], n.weights[b], n.level)) == n.weights[b]
  {
    var kid, level := n.kids[b], n.level;
    assert ValidKid(kid, n.weights[b], level);
    KidCells(kid, n.weights[b], level);
    if kid.NodeKid? {
      assert ValidNode(kid.node, level - 1);
      assert kid.node.level == level - 1;
    }
  }

  lemma EmptyIsValid(level: nat)
    ensures ValidNode(EmptyNode(level), level) && Flat(EmptyNode(level)) == Frees(Pow8(level + 1))
  {
    var n := EmptyNode(level);
    NilCells(n.kids, n.weights, level);
    WeighFrees(Pow8(level + 1));
  }

  /** What a change of one branch makes of a node. */
  function WithKid(n: Node, b: nat, kid: Kid, weight: nat, sumWeight: nat, itemCnt: nat): Node
    requires b < |n.kids| == |n.weights|
  {
    n.(kids := n.kids[b := kid], weights := n.weights[b := weight], sumWeight := sumWeight, itemCnt := itemCnt)
  }

  /** The cells and the sums of the branches after one cell of one branch has changed. */
  lemma CellMoved(n: Node, b: nat, kid: Kid, weight: nat, sub: nat, c: Cell, i: nat)
    requires ValidNode(n, n.level) && b < BRANCHES && ValidKid(kid, weight, n.level) && sub < Pow8(n.level)
      && i == b * Pow8(n.level) + sub
    requires |FlatKid(n.kids[b], n.weights[b], n.level)| == Pow8(n.level)
    requires FlatKid(kid, weight, n.level) == FlatKid(n.kids[b], n.weights[b], n.level)[sub := c]
    ensures i < |Flat(n)| && Flat(n)[i] == FlatKid(n.kids[b], n.weights[b], n.level)[sub]
    ensures weight == n.weights[b] - WeightOf(Flat(n)[i]) + WeightOf(c)
    ensures FlatKids(n.kids[b := kid], n.weights[b := weight], n.level) == Flat(n)[i := c]
  {
    hide FlatKids;
    hide FlatKid;
    hide Weigh;
    hide Count;
    hide Sum;
    hide ValidKid;
    hide Pow8;
    FlatUpdate(n.kids, n.weights, n.level, b, kid, weight, sub, c);
    KidCells(n.kids[b], n.weights[b], n.level);
    KidCells(kid, weight, n.level);
    WeighUpdate(FlatKid(n.kids[b], n.weights[b], n.level), sub, c);
  }

  /** The node after one of its cells has changed, and with it one of its branches. */
  lemma CellChanged(n: Node, b: nat, kid: Kid, weight: nat, sub: nat, c: Cell, i: nat)
    requires ValidNode(n, n.level) && b < BRANCHES && ValidKid(kid, weight, n.level) && sub < Pow8(n.level)
      && i == b * Pow8(n.level) + sub
    requires |FlatKid(n.kids[b], n.weights[b], n.level)| == Pow8(n.level)
    requires FlatKid(kid, weight, n.level) == FlatKid(n.kids[b], n.weights[b], n.level)[sub := c]
    ensures i < |Flat(n)| && Flat(n)[i] == FlatKid(n.kids[b], n.weights[b], n.level)[sub]
    ensures weight == n.weights[b] - WeightOf(Flat(n)[i]) + WeightOf(c)
    ensures
      var sumWeight: int := n.sumWeight - WeightOf(Flat(n)[i]) + WeightOf(c);
      var itemCnt: int := n.itemCnt - (if Flat(n)[i].Taken? then 1 else 0) + if c.Taken? then 1 else 0;
      && sumWeight >= 0 && itemCnt >= 0
      && ValidNode(WithKid(n, b, kid, weight, sumWeight, itemCnt), n.level)
      && Flat(WithKid(n, b, kid, weight, sumWeight, itemCnt)) == Flat(n)[i := c]
  {
    CellMoved(n, b, kid, weight, sub, c, i);
    CellSums(n, b, weight, i, c);
    Assembled(n, b, kid, weight);
    hide FlatKids;
    hide FlatKid;
    hide Count;
    hide Sum;
    hide ValidKid;
    hide Pow8;
    hide ValidNode;
  }

  lemma CellSums(n: Node, b: nat, weight: nat, i: nat, c: Cell)
    requires ValidNode(n, n.level) && b < BRANCHES && i < |Flat(n)|
    requires weight == n.weights[b] - WeightOf(Flat(n)[i]) + WeightOf(c)
    ensures Sum(n.weights[b := weight]) == n.sumWeight - WeightOf(Flat(n)[i]) + WeightOf(c)
    ensures Count(Flat(n)[i := c])
         == n.itemCnt - (if Flat(n)[i].Taken? then 1 else 0) + if c.Taken? then 1 else 0
  {
    hide FlatKids;
    FlatLength(n);
    WeighUpdate(Flat(n), i, c);
    SumIsWeight(n);
    SumUpdate(n.weights, b, weight);
  }

  lemma Assembled(n: Node, b: nat, kid: Kid, weight: nat)
    requires ValidNode(n, n.level) && b < BRANCHES && ValidKid(kid, weight, n.level)
    ensures var kids, weights := n.kids[b := kid], n.weights[b := weight];
      ValidNode(WithKid(n, b, kid, weight, Sum(weights), Count(FlatKids(kids, weights, n.level))), n.level)
  {
    hide FlatKids;
    hide ValidKid;
    var n' := WithKid(n, b, kid, weight, Sum(n.weights[b := weight]),
        Count(FlatKids(n.kids[b := kid], n.weights[b := weight], n.level)));
    forall i | 0 <= i < BRANCHES ensures ValidKid(n'.kids[i], n'.weights[i], n.level) {
      assert ValidKid(n.kids[i], n.weights[i], n.level);
    }
  }

  /** Every cell before the i-th holds an item. */
  ghost predicate TakenBelow(cells: seq<Cell>, i: nat) { i <= |cells| && forall j :: 0 <= j < i ==> cells[j].Taken? }

  /** Before a branch that insert reaches, every cell is taken. */
  lemma TakenBefore(n: Node, b: nat, sub: nat)
    requires ValidNode(n, n.level) && b < BRANCHES && forall i :: 0 <= i < b ==> Passed(n.kids[i], n.level)
    requires TakenBelow(FlatKid(n.kids[b], n.weights[b], n.level), sub)
    ensures TakenBelow(Flat(n), Pow8(n.level) * b + sub)
  {
    var kids, weights, level := n.kids, n.weights, n.level;
    hide FlatKids;
    hide FlatKid;
    FlatSplit(kids, weights, level, b);
    FullKids(kids[..b], weights[..b], level);
    var left, mid := FlatKids(kids[..b], weights[..b], level), FlatKid(kids[b], weights[b], level);
    CountBound(left);
    Commutes(Pow8(level), b);
    hide ValidNode;
    hide ValidKids;
    forall j | 0 <= j < |left| + sub ensures Flat(n)[j].Taken? {
      if j >= |left| { assert Flat(n)[j] == mid[j - |left|]; }
    }
  }

  /** insert: the item takes the first free cell, the index of which is returned; nothing else changes. */
  method Insert(n: Node, item: Item, weight: nat) returns (n': Node, idx: nat)
    requires ValidNode(n, n.level) && n.itemCnt < n.maxItems && weight > 0
    ensures ValidNode(n', n.level) && n'.level == n.level
    ensures idx < |Flat(n)| && Flat(n)[idx] == Free && Flat(n') == Flat(n)[idx := Taken(item, weight)]
    ensures TakenBelow(Flat(n), idx)
    decreases n.level
  {
    hide ValidNode;
    hide ValidKid;
    hide FlatKids;
    var branch := FreeBranch(n);
    NodeShape(n);
    if n.level == 0 {
      LeafCell(n, branch, item, weight);
      TakenBefore(n, branch, 0);
      idx := branch;
      n' := WithKid(n, branch, ItemKid(item), n.weights[branch] + weight, n.sumWeight + weight, n.itemCnt + 1);
    } else {
      var subNode := SubOf(n.kids[branch], n.level - 1);
      SubNode(n, branch, subNode);
      var sub, subIdx := Insert(subNode, item, weight);
      InsertedBelow(n, branch, subNode, sub, subIdx, item, weight);
      TakenBefore(n, branch, subIdx);
      idx := Pow8(n.level) * branch + subIdx;
      n' := WithKid(n, branch, NodeKid(sub), n.weights[branch] + weight, n.sumWeight + weight, n.itemCnt + 1);
    }
  }

  /** The loop of insert: the first branch with room. */
  method FreeBranch(n: Node) returns (branch: nat)
    requires ValidNode(n, n.level) && n.itemCnt < n.maxItems
    ensures branch < BRANCHES && !Passed(n.kids[branch], n.level)
    ensures forall i :: 0 <= i < branch ==> Passed(n.kids[i], n.level)
  {
    branch := 0;
    while Passed(n.kids[branch], n.level)
      invariant branch < BRANCHES && forall i :: 0 <= i < branch ==> Passed(n.kids[i], n.level)
      decreases BRANCHES - branch
    {
      if branch + 1 == BRANCHES { AllPassedIsFull(n); }
      branch := branch + 1;
    }
  }

  lemma NodeShape(n: Node)
    requires ValidNode(n, n.level)
    ensures |n.kids| == |n.weights| == BRANCHES && n.maxItems == Pow8(n.level + 1) && |Flat(n)| == n.maxItems
    ensures forall i :: 0 <= i < BRANCHES ==> ValidKid(n.kids[i], n.weights[i], n.level)
  {
    FlatLength(n);
  }

  lemma LeafCell(n: Node, b: nat, item: Item, weight: nat)
    requires ValidNode(n, 0) && n.level == 0 && b < BRANCHES && n.kids[b] == Nil && weight > 0
    ensures n.weights[b] == 0
    ensures var n' := WithKid(n, b, ItemKid(item), weight, n.sumWeight + weight, n.itemCnt + 1);
      ValidNode(n', 0) && b < |Flat(n)| && Flat(n)[b] == Free && Flat(n') == Flat(n)[b := Taken(item, weight)]
  {
    assert ValidKid(n.kids[b], n.weights[b], 0);
    CellChanged(n, b, ItemKid(item), weight, 0, Taken(item, weight), b);
  }

  lemma SubNode(n: Node, b: nat, subNode: Node)
    requires ValidNode(n, n.level) && n.level > 0 && b < BRANCHES && !Passed(n.kids[b], n.level)
    requires subNode == SubOf(n.kids[b], n.level - 1)
    ensures ValidNode(subNode, n.level - 1) && subNode.level == n.level - 1 && subNode.itemCnt < subNode.maxItems
      && subNode.maxItems == Pow8(n.level)
    ensures Flat(subNode) == FlatKid(n.kids[b], n.weights[b], n.level) && subNode.sumWeight == n.weights[b]
  {
    KidNode(n, b);
    EmptyIsValid(n.level - 1);
    hide ValidKid;
    FlatLength(subNode);
    CountBound(Flat(subNode));
    PowPositive(n.level);
    assert n.kids[b] == Nil ==> EmptyNode(n.level - 1).itemCnt == 0;
  }

  lemma {:induction false} PowPositive(level: nat)
    ensures Pow8(level) > 0
  {
    if level > 0 { PowPositive(level - 1); }
  }

  lemma SubGrows(was: Node, sub: Node, subIdx: nat, item: Item, weight: nat)
    requires ValidNode(was, was.level) && ValidNode(sub, sub.level) && subIdx < |Flat(was)| && Flat(was)[subIdx] == Free
    requires Flat(sub) == Flat(was)[subIdx := Taken(item, weight)]
    ensures sub.sumWeight == was.sumWeight + weight
  {
    FlatLength(was);
    FlatLength(sub);
    WeighUpdate(Flat(was), subIdx, Taken(item, weight));
  }

  lemma InsertedBelow(n: Node, b: nat, subNode: Node, sub: Node, subIdx: nat, item: Item, weight: nat)
    requires ValidNode(n, n.level) && n.level > 0 && b < BRANCHES
      && Flat(subNode) == FlatKid(n.kids[b], n.weights[b], n.level)
    requires ValidNode(subNode, n.level - 1) && ValidNode(sub, n.level - 1) && subNode.sumWeight == n.weights[b]
    requires subIdx < |Flat(subNode)| && Flat(subNode)[subIdx] == Free
      && Flat(sub) == Flat(subNode)[subIdx := Taken(item, weight)]
    ensures var i := Pow8(n.level) * b + subIdx; i < |Flat(n)| && Flat(n)[i] == Free
    ensures var i := Pow8(n.level) * b + subIdx;
      var n' := WithKid(n, b, NodeKid(sub), n.weights[b] + weight, n.sumWeight + weight, n.itemCnt + 1);
      ValidNode(n', n.level) && Flat(n') == Flat(n)[i := Taken(item, weight)]
  {
    SubGrows(subNode, sub, subIdx, item, weight);
    assert ValidKid(NodeKid(sub), n.weights[b] + weight, n.level);
    assert FlatKid(NodeKid(sub), sub.sumWeight, n.level) == Flat(sub);
    KidNode(n, b);
    hide FlatKid;
    hide FlatKids;
    hide Weigh;
    hide Sum;
    Commutes(Pow8(n.level), b);
    CellChanged(n, b, NodeKid(sub), n.weights[b] + weight, subIdx, Taken(item, weight), b * Pow8(n.level) + subIdx);
  }

  lemma Commutes(a: nat, b: nat)
    ensures a * b == b * a
  {
  }

  // ------------------------------------------------------------------ setWeight

  function CellFor(item: Item, weight: nat): Cell { if weight == 0 then Free else Taken(item, weight) }

  /** setWeight: the cell gets the new weight, or becomes free; the change of weight is returned. */
  method SetWeight(n: Node, idx: nat, weight: nat) returns (n': Node, diff: int)
    requires ValidNode(n, n.level) && idx < |Flat(n)| && Flat(n)[idx].Taken?
    ensures ValidNode(n', n.level) && n'.level == n.level
    ensures Flat(n') == Flat(n)[idx := CellFor(Flat(n)[idx].item, weight)]
    ensures diff == weight - Flat(n)[idx].weight && n'.sumWeight == n.sumWeight + diff
    decreases n.level
  {
    hide ValidNode;
    hide ValidKid;
    hide FlatKids;
    NodeShape(n);
    if n.level == 0 {
      LeafAt(n, idx);
      LeafSet(n, idx, weight);
      var oldWeight := n.weights[idx];
      diff := weight - oldWeight;
      n' := WithKid(n, idx, if weight == 0 then Nil
        else n.kids[idx], weight, n.sumWeight + diff, if weight == 0 then n.itemCnt - 1 else n.itemCnt);
    } else {
      var branchItems := n.maxItems / BRANCHES;
      var branch := idx / branchItems;
      BranchOf(n, idx, branchItems, branch);
      var sub;
      sub, diff := SetWeight(n.kids[branch].node, idx - branch * branchItems, weight);
      SetBelow(n, branch, sub, idx - branch * branchItems, weight, diff);
      n' := WithKid(n, branch, NodeKid(sub), n.weights[branch] + diff, n.sumWeight + diff, if weight == 0
        then n.itemCnt - 1 else n.itemCnt);
    }
  }

  lemma LeafAt(n: Node, idx: nat)
    requires ValidNode(n, 0) && n.level == 0 && idx < |Flat(n)|
    ensures idx < BRANCHES && Flat(n)[idx] == FlatKid(n.kids[idx], n.weights[idx], 0)[0]
    ensures Flat(n)[idx].Taken? ==> n.kids[idx] == ItemKid(Flat(n)[idx].item) && n.weights[idx] == Flat(n)[idx].weight
  {
    FlatLength(n);
    FlatSplit(n.kids, n.weights, 0, idx);
    assert Pow8(0) == 1;
    assert ValidKid(n.kids[idx], n.weights[idx], 0);
    KidCells(n.kids[idx], n.weights[idx], 0);
  }

  lemma CountPositive(cells: seq<Cell>, i: nat)
    requires i < |cells| && cells[i].Taken?
    ensures Count(cells) > 0 && Weigh(cells) >= cells[i].weight
  {
    WeighUpdate(cells, i, Free);
  }

  lemma LeafSet(n: Node, idx: nat, weight: nat)
    requires ValidNode(n, 0) && n.level == 0 && idx < BRANCHES && idx < |Flat(n)| && Flat(n)[idx].Taken?
    requires n.kids[idx] == ItemKid(Flat(n)[idx].item) && n.weights[idx] == Flat(n)[idx].weight
    ensures n.itemCnt > 0 && n.sumWeight + weight - n.weights[idx] >= 0
    ensures var kid := if weight == 0 then Nil else n.kids[idx];
      var itemCnt := if weight == 0 then n.itemCnt - 1 else n.itemCnt;
      var n' := WithKid(n, idx, kid, weight, n.sumWeight + weight - n.weights[idx], itemCnt);
      ValidNode(n', 0) && Flat(n') == Flat(n)[idx := CellFor(Flat(n)[idx].item, weight)]
  {
    var kid := if weight == 0 then Nil else n.kids[idx];
    assert ValidKid(n.kids[idx], n.weights[idx], 0);
    FlatLength(n);
    CountPositive(Flat(n), idx);
    CellChanged(n, idx, kid, weight, 0, CellFor(Flat(n)[idx].item, weight), idx);
  }

  lemma BranchArith(n: Node, idx: nat, branchItems: nat, branch: nat)
    requires ValidNode(n, n.level) && idx < |Flat(n)|
    requires branchItems == n.maxItems / BRANCHES && branchItems > 0 && branch == idx / branchItems
    ensures branchItems == Pow8(n.level) && branch < BRANCHES
    ensures branch * Pow8(n.level) <= idx < branch * Pow8(n.level) + Pow8(n.level)
  {
    FlatLength(n);
    Division(idx, branchItems, branch);
  }

  lemma BranchOf(n: Node, idx: nat, branchItems: nat, branch: nat)
    requires ValidNode(n, n.level) && n.level > 0 && idx < |Flat(n)| && Flat(n)[idx].Taken?
    requires branchItems == n.maxItems / BRANCHES && branchItems > 0 && branch == idx / branchItems
    ensures branchItems == Pow8(n.level) && branch < BRANCHES && branch * branchItems <= idx
      && idx - branch * branchItems < Pow8(n.level)
    ensures n.kids[branch].NodeKid? && var sub := n.kids[branch].node;
      ValidNode(sub, n.level - 1) && sub.level == n.level - 1
    ensures var s: nat := idx - branch * branchItems;
      s < |Flat(n.kids[branch].node)| && Flat(n.kids[branch].node)[s] == Flat(n)[idx]
  {
    hide FlatKids;
    BranchArith(n, idx, branchItems, branch);
    FlatSplit(n.kids, n.weights, n.level, branch);
    KidNode(n, branch);
  }

  lemma Division(idx: nat, p: nat, b: nat)
    requires p > 0 && b == idx / p && idx < BRANCHES * p
    ensures b < BRANCHES && b * p <= idx < b * p + p
  {
  }

  lemma SubChange(was: Node, sub: Node, subIdx: nat, weight: nat)
    requires ValidNode(was, was.level) && ValidNode(sub, sub.level) && subIdx < |Flat(was)| && Flat(was)[subIdx].Taken?
    requires Flat(sub) == Flat(was)[subIdx := CellFor(Flat(was)[subIdx].item, weight)]
    ensures sub.sumWeight == was.sumWeight - Flat(was)[subIdx].weight + weight
  {
    FlatLength(was);
    FlatLength(sub);
    WeighUpdate(Flat(was), subIdx, CellFor(Flat(was)[subIdx].item, weight));
  }

  lemma SetBelow(n: Node, b: nat, sub: Node, subIdx: nat, weight: nat, diff: int)
    requires ValidNode(n, n.level) && n.level > 0 && b < BRANCHES && n.kids[b].NodeKid? && ValidNode(sub, n.level - 1)
    requires var was := n.kids[b].node;
      && subIdx < |Flat(was)| && Flat(was)[subIdx].Taken?
      && Flat(sub) == Flat(was)[subIdx := CellFor(Flat(was)[subIdx].item, weight)]
      && diff == weight - Flat(was)[subIdx].weight
    ensures n.weights[b] + diff >= 0 && n.sumWeight + diff >= 0 && n.itemCnt > 0
    ensures var i := b * Pow8(n.level) + subIdx; i < |Flat(n)| && Flat(n)[i] == Flat(n.kids[b].node)[subIdx]
    ensures var i := b * Pow8(n.level) + subIdx; var itemCnt := if weight == 0 then n.itemCnt - 1 else n.itemCnt;
      var n' := WithKid(n, b, NodeKid(sub), n.weights[b] + diff, n.sumWeight + diff, itemCnt);
      ValidNode(n', n.level) && Flat(n') == Flat(n)[i := CellFor(Flat(n)[i].item, weight)]
  {
    var was := n.kids[b].node;
    KidNode(n, b);
    assert FlatKid(NodeKid(sub), sub.sumWeight, n.level) == Flat(sub);
    assert ValidKid(NodeKid(sub), sub.sumWeight, n.level);
    SubChange(was, sub, subIdx, weight);
    KidSet(n, b, NodeKid(sub), sub.sumWeight, subIdx, Flat(was)[subIdx], weight, b * Pow8(n.level) + subIdx);
  }

  /** Changing the weight of an item below a branch, or taking it out, keeps every sum exact. */
  lemma KidSet(n: Node, b: nat, kid: Kid, sum: nat, sub: nat, was: Cell, weight: nat, i: nat)
    requires ValidNode(n, n.level) && b < BRANCHES && ValidKid(kid, sum, n.level)
    requires sub < Pow8(n.level) && i == b * Pow8(n.level) + sub && was.Taken?
    requires var cells := FlatKid(n.kids[b], n.weights[b], n.level);
      |cells| == Pow8(n.level) && cells[sub] == was
        && FlatKid(kid, sum, n.level) == cells[sub := CellFor(was.item, weight)]
    ensures sum == n.weights[b] + weight - was.weight && n.sumWeight + weight - was.weight >= 0 && n.itemCnt > 0
    ensures i < |Flat(n)| && Flat(n)[i] == was
    ensures var itemCnt := if weight == 0 then n.itemCnt - 1 else n.itemCnt;
      var n' := WithKid(n, b, kid, sum, n.sumWeight + weight - was.weight, itemCnt);
      ValidNode(n', n.level) && Flat(n') == Flat(n)[i := CellFor(was.item, weight)]
  {
    hide FlatKids;
    hide FlatKid;
    hide Weigh;
    hide Count;
    hide Sum;
    hide Pow8;
    hide ValidKid;
    CellChanged(n, b, kid, sum, sub, CellFor(was.item, weight), i);
    FlatLength(n);
    CountPositive(Flat(n), i);
    hide ValidNode;
    hide Flat;
  }

  // --------------------------------------------------------------------- choose

  /** The cell whose interval of prefix sums holds the value. */
  ghost predicate Hits(cells: seq<Cell>, i: nat, val: nat) {
    i < |cells| && cells[i].Taken? && Weigh(cells[..i]) <= val < Weigh(cells[..i]) + cells[i].weight
  }

  /** choose: the item of the cell that the value hits. */
  method Choose(n: Node, val: nat) returns (item: Item, weight: nat, ghost idx: nat)
    requires ValidNode(n, n.level) && val < n.sumWeight
    ensures Hits(Flat(n), idx, val) && Flat(n)[idx] == Taken(item, weight)
    ensures exists i: nat :: Hits(Flat(n), i, val) && Flat(n)[i] == Taken(item, weight)
    decreases n.level
  {
    hide ValidNode;
    hide ValidKid;
    hide FlatKids;
    NodeShape(n);
    var i, left: nat := 0, val;
    SumIsWeight(n);
    assert n.weights[0..] == n.weights;
    while left >= n.weights[i]
      invariant i < BRANCHES && Sum(n.weights[..i]) + left == val && left < Sum(n.weights[i..])
      decreases BRANCHES - i
    {
      SumStep(n.weights, i);
      left := left - n.weights[i];
      i := i + 1;
    }
    if n.level == 0 {
      LeafHit(n, i, left, val);
      return n.kids[i].item, n.weights[i], i;
    }
    BranchHit(n, i, left);
    ghost var sub;
    item, weight, sub := Choose(n.kids[i].node, left);
    HitBelow(n, i, left, val, sub);
    idx := i * Pow8(n.level) + sub;
  }

  lemma SumIsWeight(n: Node)
    requires ValidNode(n, n.level)
    ensures n.sumWeight == Sum(n.weights)
  {
  }

  lemma {:induction false} SumStep(ws: seq<nat>, i: nat)
    requires i < |ws|
    ensures Sum(ws[..i + 1]) == Sum(ws[..i]) + ws[i] && Sum(ws[i..]) == ws[i] + Sum(ws[i + 1..])
  {
    if i > 0 {
      SumStep(ws[1..], i - 1);
      assert ws[..i + 1][1..] == ws[1..][..i] && ws[..i][1..] == ws[1..][..i - 1];
      assert ws[1..][i - 1..] == ws[i..] && ws[1..][i..] == ws[i + 1..];
    }
  }

  /** A value that falls into a branch hits a cell of the branch. */
  lemma HitsBranch(n: Node, b: nat, left: nat, val: nat, sub: nat)
    requires ValidNode(n, n.level) && b < BRANCHES && Sum(n.weights[..b]) + left == val
    requires Hits(FlatKid(n.kids[b], n.weights[b], n.level), sub, left)
    ensures var i := b * Pow8(n.level) + sub;
      Hits(Flat(n), i, val) && Flat(n)[i] == FlatKid(n.kids[b], n.weights[b], n.level)[sub]
  {
    hide FlatKid;
    FlatSplit(n.kids, n.weights, n.level, b);
    var before, mid := FlatKids(n.kids[..b], n.weights[..b], n.level), FlatKid(n.kids[b], n.weights[b], n.level);
    assert Flat(n)[..|before| + sub] == before + mid[..sub];
    WeighConcat(before, mid[..sub]);
  }

  lemma LeafHit(n: Node, b: nat, left: nat, val: nat)
    requires ValidNode(n, n.level) && n.level == 0 && b < BRANCHES && Sum(n.weights[..b]) + left == val
      && left < n.weights[b]
    ensures n.kids[b].ItemKid? && Hits(Flat(n), b, val) && Flat(n)[b] == Taken(n.kids[b].item, n.weights[b])
  {
    assert ValidKid(n.kids[b], n.weights[b], 0);
    HitsBranch(n, b, left, val, 0);
  }

  lemma BranchHit(n: Node, b: nat, left: nat)
    requires ValidNode(n, n.level) && n.level > 0 && b < BRANCHES && left < n.weights[b]
    ensures n.kids[b].NodeKid? && var sub := n.kids[b].node;
      ValidNode(sub, sub.level) && sub.level == n.level - 1 && left < sub.sumWeight
  {
    KidNode(n, b);
  }

  lemma HitBelow(n: Node, b: nat, left: nat, val: nat, sub: nat)
    requires ValidNode(n, n.level) && n.level > 0 && b < BRANCHES && Sum(n.weights[..b]) + left == val
      && n.kids[b].NodeKid?
    requires n.kids[b].node.level == n.level - 1 && Hits(Flat(n.kids[b].node), sub, left)
    ensures var i := b * Pow8(n.level) + sub; Hits(Flat(n), i, val) && Flat(n)[i] == Flat(n.kids[b].node)[sub]
  {
    HitsBranch(n, b, left, val, sub);
  }

  /** The values below a bound that hit cell i. */
  ghost function HitBy(cells: seq<Cell>, i: nat): set<nat> { set val: nat | val < Weigh(cells) && Hits(cells, i, val) }

  /** Of the values below the sum of weights as many hit a taken cell as its weight says. */
  lemma HitCount(cells: seq<Cell>, i: nat)
    requires i < |cells| && cells[i].Taken?
    ensures |HitBy(cells, i)| == cells[i].weight
  {
    var low, w := Weigh(cells[..i]), cells[i].weight;
    WeighPrefix(cells, i, |cells|);
    assert cells[..|cells|] == cells;
    RangeIs(low, w);
    assert HitBy(cells, i) == Range(low, w);
  }

  function Range(low: nat, w: nat): set<nat> { if w == 0 then {} else Range(low, w - 1) + {low + w - 1} }

  lemma {:induction false} RangeIs(low: nat, w: nat)
    ensures |Range(low, w)| == w && forall val :: val in Range(low, w) <==> low <= val < low + w
  {
    if w > 0 { RangeIs(low, w - 1); }
  }

  /** No value hits two cells. */
  lemma HitsOnce(cells: seq<Cell>, i: nat, j: nat, val: nat)
    requires Hits(cells, i, val) && Hits(cells, j, val)
    ensures i == j
  {
    if i < j { WeighPrefix(cells, i, j); }
    if j < i { WeighPrefix(cells, j, i); }
  }

  lemma WeighPrefix(cells: seq<Cell>, i: nat, j: nat)
    requires i < j <= |cells|
    ensures Weigh(cells[..i]) + WeightOf(cells[i]) <= Weigh(cells[..j])
  {
    assert cells[..j] == cells[..i] + ([cells[i]] + cells[i + 1..j]);
    WeighConcat(cells[..i], [cells[i]] + cells[i + 1..j]);
  }

  // ------------------------------------------------------------------ new levels

  /** A new root above the old one. */
  function Raised(n: Node): Node {
    Node(seq(BRANCHES, i => if i == 0 then NodeKid(n) else Nil), seq(BRANCHES, i => if i == 0 then n.sumWeight else 0),
         n.sumWeight, n.level + 1, n.itemCnt, n.maxItems * BRANCHES)
  }

  /** Adding a level keeps every cell at its index. */
  lemma RaisedKeeps(n: Node)
    requires ValidNode(n, n.level)
    ensures ValidNode(Raised(n), n.level + 1) && Flat(Raised(n)) == Flat(n) + Frees(7 * Pow8(n.level + 1))
    ensures n.itemCnt < Raised(n).maxItems
  {
    var r := Raised(n);
    FlatLength(n);
    CountBound(Flat(n));
    PowPositive(n.level + 1);
    NilCells(r.kids[1..], r.weights[1..], n.level + 1);
    assert Flat(r) == FlatKid(r.kids[0], r.weights[0], n.level + 1)
        + FlatKids(r.kids[1..], r.weights[1..], n.level + 1);
    WeighConcat(Flat(n), Frees(7 * Pow8(n.level + 1)));
    WeighFrees(7 * Pow8(n.level + 1));
    forall i | 0 <= i < BRANCHES ensures ValidKid(r.kids[i], r.weights[i], r.level) { }
  }
}
