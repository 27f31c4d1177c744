/**
 weightedRandomSelect of randselect.go: a set of items with weights, kept in the tree.
 Random draws and the items' own current weights are arbitrary.
 */
module RandSelect {
  import opened RandTree

  datatype Choice = None | Some(item: Item)

  /** The index knows exactly the taken cells, each item once. */
  ghost predicate Indexed(cells: seq<Cell>, idx: map<Item, nat>) {
    && (forall item :: item in idx ==> idx[item] < |cells| && cells[idx[item]].Taken? && cells[idx[item]].item == item)
    && forall i :: 0 <= i < |cells| && cells[i].Taken? ==> cells[i].item in idx && idx[cells[i].item] == i
  }

  /** The weights of the items. */
  ghost function WeightsOf(cells: seq<Cell>, idx: map<Item, nat>): map<Item, nat>
    requires Indexed(cells, idx)
  {
    map item | item in idx :: cells[idx[item]].weight
  }

  function Updated(m: map<Item, nat>, item: Item, weight: nat): map<Item, nat> {
    if weight == 0 then m - {item} else m[item := weight]
  }

  class WeightedRandomSelect {
    var root: Node
    var idx: map<Item, nat>

    ghost predicate Valid()
      reads this
    {
      ValidNode(root, root.level) && Indexed(Flat(root), idx)
    }

    /** The set as its users see it. */
    ghost function Weights(): map<Item, nat>
      requires Valid()
      reads this
    {
      WeightsOf(Flat(root), idx)
    }

    constructor ()
      ensures Valid() && Weights() == map[]
    {
      EmptyIsValid(0);
      root, idx := EmptyNode(0), map[];
    }

    /** setWeight: add the item, change its weight, or remove it if the weight is zero. */
    method SetWeight(item: Item, weight: nat)
      requires Valid()
      modifies this
      ensures Valid() && Weights() == Updated(old(Weights()), item, weight)
      ensures item in old(idx) ==> root.sumWeight == old(root.sumWeight) + weight - old(Weights()[item])
      ensures item !in old(idx) && weight != 0 ==> item in idx && TakenBelow(Flat(root), idx[item] + 1)
      ensures item in old(idx) ==> Flat(root) == old(Flat(root)[idx[item] := CellFor(item, weight)])
    {
      hide ValidNode;
      hide FlatKids;
      if item in idx {
        ghost var cells, i := Flat(root), idx[item];
        var n, diff := RandTree.SetWeight(root, idx[item], weight);
        CellSet(cells, idx, item, weight);
        root := n;
        if weight == 0 { idx := idx - {item}; }
      } else if weight != 0 {
        if root.itemCnt == root.maxItems {
          RaisedKeeps(root);
          RaisedIndexed(Flat(root), idx, 7 * Pow8(root.level + 1));
          root := Raised(root);
        } else {
          HasRoom(root);
        }
        ghost var cells := Flat(root);
        var n, i := Insert(root, item, weight);
        CellTaken(cells, idx, item, weight, i);
        root := n;
        idx := idx[item := i];
      }
    }

    /**
     choose: the item that a random value hits, if its weight has not fallen or a second draw allows it;
     otherwise its weight is updated and the choice repeated. Each repetition lowers the total weight.
     */
    method Choose(weightAt: (Item, nat) -> nat, vals: nat -> nat, draws: nat -> nat) returns (choice: Choice)
      requires Valid()
      modifies this
      ensures Valid() && Weights().Keys <= old(Weights()).Keys
      ensures Chosen(old(Flat(root)), 0, weightAt, vals, draws, choice, Flat(root))
      ensures choice == None <==> Weights() == map[]
      ensures choice.Some? ==>
        choice.item in Weights() && exists round: nat :: Weights()[choice.item] == weightAt(choice.item, round)
      ensures AllFetched(old(Weights()), Weights(), weightAt)
    {
      hide ValidNode;
      hide FlatKids;
      hide AllFetched;
      hide Chosen;
      FetchedNone(Weights(), weightAt);
      var round: nat := 0;
      while true
        invariant Valid() && Weights().Keys <= old(Weights()).Keys
        invariant AllFetched(old(Weights()), Weights(), weightAt)
        invariant forall c, cells :: Chosen(Flat(root), round, weightAt, vals, draws, c, cells) ==>
          Chosen(old(Flat(root)), 0, weightAt, vals, draws, c, cells)
        decreases root.sumWeight
      {
        ghost var cells := Flat(root);
        FlatLength(root);
        if root.sumWeight == 0 {
          NothingLeft(root, idx);
          ChosenNone(cells, round, weightAt, vals, draws);
          return None;
        }
        ghost var before := Weights();
        ghost var i;
        var item, lastWeight;
        item, lastWeight, i := RandTree.Choose(root, vals(round) % root.sumWeight);
        var weight := weightAt(item, round);
        assert before[item] == lastWeight && idx[item] == i;
        if weight != lastWeight { SetWeight(item, weight); }
        assert Flat(root) == cells[i := CellFor(item, weight)] by { SameCell(cells, i, item, lastWeight); }
        FetchedNext(old(Weights()), before, Weights(), item, weightAt, round);
        ChosenStep(cells, i, round, weightAt, vals, draws, Flat(root));
        if weight >= lastWeight || draws(round) % lastWeight < weight { return Some(item); }
        round := round + 1;
      }
    }
  }

  /**
   What choose does to the cells from a round on: it hits a cell, gives it the current weight of its item, and
   returns that unless the weight has fallen and the second draw is not below it.
   */
  ghost predicate Chosen(cells: seq<Cell>, round: nat, weightAt: (Item, nat) -> nat, vals: nat -> nat,
                         draws: nat -> nat, choice: Choice, cells': seq<Cell>)
    decreases Weigh(cells)
  {
    if Weigh(cells) == 0 then choice == None && cells' == cells
    else exists i: nat ::
      && Hits(cells, i, vals(round) % Weigh(cells))
      && var item, last := cells[i].item, cells[i].weight; var weight := weightAt(item, round);
         var next := cells[i := CellFor(item, weight)];
         if weight >= last || draws(round) % last < weight then choice == Some(item) && cells' == next
         else Weigh(next) < Weigh(cells) && Chosen(next, round + 1, weightAt, vals, draws, choice, cells')
  }

  lemma ChosenNone(cells: seq<Cell>, round: nat, weightAt: (Item, nat) -> nat, vals: nat -> nat, draws: nat -> nat)
    requires Weigh(cells) == 0
    ensures Chosen(cells, round, weightAt, vals, draws, None, cells)
  {
  }

  lemma ChosenStep(cells: seq<Cell>, i: nat, round: nat, weightAt: (Item, nat) -> nat, vals: nat -> nat,
                   draws: nat -> nat, next: seq<Cell>)
    requires Weigh(cells) > 0 && Hits(cells, i, vals(round) % Weigh(cells))
    requires next == cells[i := CellFor(cells[i].item, weightAt(cells[i].item, round))]
    ensures var item, last := cells[i].item, cells[i].weight; var weight := weightAt(item, round);
      if weight >= last || draws(round) % last < weight
      then Chosen(cells, round, weightAt, vals, draws, Some(item), next)
      else
        && Weigh(next) < Weigh(cells)
        && forall c, end :: Chosen(next, round + 1, weightAt, vals, draws, c, end) ==>
             Chosen(cells, round, weightAt, vals, draws, c, end)
  {
    WeighUpdate(cells, i, CellFor(cells[i].item, weightAt(cells[i].item, round)));
  }

  /** The draws decide: there is one outcome. */
  lemma {:induction false} ChosenOnce(cells: seq<Cell>, round: nat, weightAt: (Item, nat) -> nat, vals: nat -> nat,
                                      draws: nat -> nat, c: Choice, end: seq<Cell>, c': Choice, end': seq<Cell>)
    requires Chosen(cells, round, weightAt, vals, draws, c, end)
    requires Chosen(cells, round, weightAt, vals, draws, c', end')
    ensures c == c' && end == end'
    decreases Weigh(cells)
  {
    if Weigh(cells) > 0 {
      var val := vals(round) % Weigh(cells);
      forall i: nat, j: nat | Hits(cells, i, val) && Hits(cells, j, val) ensures i == j { HitsOnce(cells, i, j, val); }
      var i: nat :| Hits(cells, i, val);
      var item, last, weight := cells[i].item, cells[i].weight, weightAt(cells[i].item, round);
      if weight < last && draws(round) % last >= weight {
        ChosenOnce(cells[i := CellFor(item, weight)], round + 1, weightAt, vals, draws, c, end, c', end');
      }
    }
  }

  lemma SameCell(cells: seq<Cell>, i: nat, item: Item, weight: nat)
    requires i < |cells| && cells[i] == Taken(item, weight) && weight > 0
    ensures cells[i := CellFor(item, weight)] == cells
  {
  }

  /** The weight of an item is as it was, or has been fetched from the item; with weight zero it has left. */
  ghost predicate Fetched(was: map<Item, nat>, now: map<Item, nat>, item: Item, weightAt: (Item, nat) -> nat) {
    || (item in was && item in now && now[item] == was[item])
    || exists round: nat :: if item in now then now[item] == weightAt(item, round) else weightAt(item, round) == 0
  }

  ghost predicate AllFetched(was: map<Item, nat>, now: map<Item, nat>, weightAt: (Item, nat) -> nat) {
    forall item :: item in was ==> Fetched(was, now, item, weightAt)
  }

  lemma FetchedNone(was: map<Item, nat>, weightAt: (Item, nat) -> nat)
    ensures AllFetched(was, was, weightAt)
  {
  }

  lemma FetchedNext(was: map<Item, nat>, before: map<Item, nat>, now: map<Item, nat>, item: Item,
                    weightAt: (Item, nat) -> nat, round: nat)
    requires AllFetched(was, before, weightAt) && item in before
    requires now == before || now == Updated(before, item, weightAt(item, round))
    ensures AllFetched(was, now, weightAt)
  {
    forall x | x in was ensures Fetched(was, now, x, weightAt) {
      assert Fetched(was, before, x, weightAt);
      if x == item && now != before {
        assert if x in now then now[x] == weightAt(x, round) else weightAt(x, round) == 0;
      }
    }
  }

  // ---------------------------------------------------------------- on values

  lemma CellSet(cells: seq<Cell>, idx: map<Item, nat>, item: Item, weight: nat)
    requires Indexed(cells, idx) && item in idx
    ensures var i := idx[item]; var cells' := cells[i := CellFor(item, weight)];
      var idx' := if weight == 0 then idx - {item} else idx;
      Indexed(cells', idx') && WeightsOf(cells', idx') == Updated(WeightsOf(cells, idx), item, weight)
  {
    var i, cells' := idx[item], cells[idx[item] := CellFor(item, weight)];
    var idx' := if weight == 0 then idx - {item} else idx;
    forall other | other in idx'
      ensures idx'[other] < |cells'| && cells'[idx'[other]].Taken? && cells'[idx'[other]].item == other
    {
      if other != item { assert idx[other] != i; }
    }
    assert Indexed(cells', idx');
    forall other | other in idx' && other != item ensures cells'[idx'[other]] == cells[idx[other]] {
      assert idx[other] != i;
    }
    assert WeightsOf(cells', idx') == Updated(WeightsOf(cells, idx), item, weight);
  }

  lemma CellTaken(cells: seq<Cell>, idx: map<Item, nat>, item: Item, weight: nat, i: nat)
    requires Indexed(cells, idx) && item !in idx && i < |cells| && cells[i] == Free && weight > 0
    ensures var cells' := cells[i := Taken(item, weight)];
      Indexed(cells', idx[item := i])
        && WeightsOf(cells', idx[item := i]) == Updated(WeightsOf(cells, idx), item, weight)
  {
    var cells' := cells[i := Taken(item, weight)];
    assert Indexed(cells', idx[item := i]);
    assert WeightsOf(cells', idx[item := i]) == Updated(WeightsOf(cells, idx), item, weight);
  }

  lemma RaisedIndexed(cells: seq<Cell>, idx: map<Item, nat>, more: nat)
    requires Indexed(cells, idx)
    ensures Indexed(cells + Frees(more), idx) && WeightsOf(cells + Frees(more), idx) == WeightsOf(cells, idx)
  {
  }

  lemma HasRoom(n: Node)
    requires ValidNode(n, n.level) && n.itemCnt != n.maxItems
    ensures n.itemCnt < n.maxItems
  {
    FlatLength(n);
    CountBound(Flat(n));
  }

  /** Items have positive weights, so a total of zero means there are none. */
  lemma NothingLeft(n: Node, idx: map<Item, nat>)
    requires ValidNode(n, n.level) && Indexed(Flat(n), idx) && n.sumWeight == 0
    ensures WeightsOf(Flat(n), idx) == map[]
  {
    FlatLength(n);
    forall item | item in idx ensures false {
      CountPositive(Flat(n), idx[item]);
      PositiveCells(n, idx[item]);
    }
  }

  lemma PositiveCells(n: Node, i: nat)
    requires ValidNode(n, n.level) && i < |Flat(n)| && Flat(n)[i].Taken?
    ensures Flat(n)[i].weight > 0
  {
    PositiveKids(n.kids, n.weights, n.level, i);
  }

  lemma {:induction false} PositiveKids(kids: seq<Kid>, weights: seq<nat>, level: nat, i: nat)
    requires ValidKids(kids, weights, level) && i < |FlatKids(kids, weights, level)|
      && FlatKids(kids, weights, level)[i].Taken?
    ensures FlatKids(kids, weights, level)[i].weight > 0
    decreases level, |kids|
  {
    var first := FlatKid(kids[0], weights[0], level);
    if i >= |first| {
      PositiveKids(kids[1..], weights[1..], level, i - |first|);
    } else if kids[0].NodeKid? {
      assert ValidKid(kids[0], weights[0], level);
      var node := kids[0].node;
      assert ValidNode(node, level - 1);
      PositiveKids(node.kids, node.weights, level - 1, i);
    } else {
      assert ValidKid(kids[0], weights[0], level);
    }
  }
}
