/**
 The concurrent side of the binary Merkle tree hash (bmt.go): a reusable tree of
 nodes, one goroutine per double segment, and the caller that writes segments,
 marks the unbalanced path and waits for the result.

 Goroutines are tasks that take one atomic step at a time; a schedule says whose
 step is next. A node is named by its height above the leaves and its index.
 */
module BmtTree {
  import opened BmtRef

  // ---------------------------------------------------------------- positions

  datatype Pos = Pos(k: nat, x: nat) {
    function Parent(): Pos { Pos(k + 1, x / 2) }

    function Child(left: bool): Pos
      requires k > 0
    {
      Pos(k - 1, if left then 2 * x else 2 * x + 1)
    }
  }

  /** The index of the ancestor of leaf x that is k levels up. */
  function Anc(x: nat, k: nat): nat {
    if k == 0 then x else Anc(x, k - 1) / 2
  }

  lemma {:induction false} AncShift(x: nat, k: nat)
    ensures Anc(x, k + 1) == Anc(x / 2, k)
  {
    if k > 0 { AncShift(x, k - 1); }
  }

  /** The height of the lowest ancestor of leaf x that is first on its level. */
  function Height(x: nat): nat {
    if x == 0 then 0 else 1 + Height(x / 2)
  }

  lemma {:induction false} HeightIsFirstZero(x: nat, k: nat)
    ensures k >= Height(x) <==> Anc(x, k) == 0
  {
    if k > 0 {
      AncShift(x, k - 1);
      if x > 0 {
        HeightIsFirstZero(x / 2, k - 1);
      } else {
        HeightIsFirstZero(0, k - 1);
      }
    }
  }

  lemma {:induction false} HeightWithin(x: nat, d: nat)
    requires x < Pow2(d)
    ensures Height(x) <= d
  {
    if x > 0 { HeightWithin(x / 2, d - 1); }
  }

  lemma {:induction false} AncWithin(x: nat, k: nat, d: nat)
    requires x < Pow2(d) && k <= d
    ensures Anc(x, k) < Pow2(d - k)
  {
    if k > 0 { AncWithin(x, k - 1, d); }
  }

  // --------------------------------------------------------------------- jobs

  /** One chunk to hash: the double segments in the order in which they are written. */
  datatype Job = Job(h: Hash, size: nat, depth: nat, segs: seq<Bytes>) {
    ghost predicate Valid() {
      && size > 0
      && 0 < |segs| <= Pow2(depth)
      && forall i :: 0 <= i < |segs| - 1 ==> |segs[i]| > size
    }

    function Last(): nat
      requires |segs| > 0
    {
      |segs| - 1
    }

    /** The height of the node that is root for this chunk. */
    function Top(): nat
      requires |segs| > 0
    {
      Height(Last())
    }

    /** Whether the last segment enters the tree through its own leaf node. */
    predicate Short()
      requires |segs| > 0
    {
      |segs[Last()]| <= size || depth == 0
    }

    /** The height at which Sum starts to mark the path of the last segment. */
    function Start(): nat
      requires |segs| > 0
    {
      if |segs[Last()]| > size && Last() > 0 && depth > 0 then 1 else 0
    }

    predicate InTree(p: Pos) { p.k <= depth && p.x < Pow2(depth - p.k) }

    predicate Active(p: Pos)
      requires |segs| > 0
    {
      p.k <= Top() && p.x <= Anc(Last(), p.k)
    }

    predicate OnPath(p: Pos)
      requires |segs| > 0
    {
      p.x == Anc(Last(), p.k)
    }

    /** Whether an inner node has data below its right child. */
    predicate Balanced(p: Pos)
      requires |segs| > 0 && p.k > 0
    {
      2 * p.x + 1 <= Anc(Last(), p.k - 1)
    }

    /** What a node has to hand to its parent. */
    function Val(p: Pos): Bytes
      requires |segs| > 0 && p.x <= Anc(Last(), p.k)
      decreases p.k
    {
      if p.k == 0 then
        if Last() == 0 || |segs[p.x]| > size then h(segs[p.x]) else segs[p.x]
      else if Balanced(p) then
        h(Val(p.Child(true)) + Val(p.Child(false)))
      else
        Val(p.Child(true))
    }
  }

  // -------------------------------------------------------------------- state

  datatype Node = Node(root: bool, unbalanced: bool, state: int, left: Bytes, right: Bytes)

  /** Where a goroutine stands in writeSegment or in the loop of run. */
  datatype Pc =
    | HashLeaf // hash a full double segment
    | TestLeaf // is the leaf the root of this chunk?
    | Store    // write s into n.left or n.right
    | Check    // read n.unbalanced
    | Toggle   // bump the counter; the first to arrive leaves
    | Combine  // hash or append the two sides
    | Test     // is this node the root of this chunk?

  datatype Task = Task(pc: Pc, n: Pos, isLeft: bool, i: nat, d: nat, s: Bytes)

  /** Where the caller stands in Write, Sum, finalise and releaseTree. */
  datatype Caller =
    | Writing(next: nat)
    | Finalising(n: Pos, isLeft: bool, d: nat)
    | Launching(d: nat)
    | Waiting
    | Received(c: Bytes)
    | Released(c: Bytes)

  datatype State = State(nodes: map<Pos, Node>, tasks: map<nat, Task>, caller: Caller)

  const MAX_INT32: int := 0x7fff_ffff

  /** The 32-bit counter bump of Node.toggle, with Go's wrap-around. */
  function Bump(state: int): int {
    if state == MAX_INT32 then -MAX_INT32 - 1 else state + 1
  }

  /** Node.toggle's answer for the bumped counter; Go's % keeps the sign. */
  predicate Waits(bumped: int) { bumped >= 0 && bumped % 2 == 1 }

  datatype Who = TheCaller | TheTask(id: nat)

  // -------------------------------------------------------------------- steps

  /** writeSegment: the goroutine that is started for leaf i. */
  function Launch(job: Job, i: nat, s: Bytes, d: nat): Task {
    if |s| > job.size && job.depth > 0 then
      Task(HashLeaf, Pos(0, i), true, i, d, s)
    else
      Task(Store, Pos(0, i), true, 2 * i, d, s)
  }

  /** releaseTree: clear the flags on the whole path of the current leaf. */
  function Clear(job: Job, nodes: map<Pos, Node>, p: Pos): map<Pos, Node>
    decreases job.depth - p.k
  {
    if p !in nodes then nodes
    else
      var nodes' := nodes[p := nodes[p].(unbalanced := false,
                                         root := nodes[p].root && p.k >= job.depth)];
      if p.k < job.depth then Clear(job, nodes', p.Parent()) else nodes'
  }

  predicate CanStep(job: Job, st: State, who: Who)
    requires |job.segs| > 0
  {
    match who
    case TheCaller =>
      (match st.caller
       case Writing(next) => next <= job.Last()
       case Finalising(n, _, _) => n in st.nodes
       case Launching(_) => true
       case Waiting => false
       case Received(_) => true
       case Released(_) => false)
    case TheTask(id) =>
      && id in st.tasks
      && var t := st.tasks[id];
      && t.n in st.nodes
      && (t.pc.TestLeaf? || t.pc.Test? ==>
            // the result channel is unbuffered: a send needs a waiting receiver
            if st.nodes[t.n].root then st.caller.Waiting? else t.n.k < job.depth)
  }

  function CallerStep(job: Job, st: State): State
    requires |job.segs| > 0 && CanStep(job, st, TheCaller)
  {
    match st.caller
    case Writing(next) =>
      if next < job.Last() then
        st.(tasks := st.tasks[next := Launch(job, next, job.segs[next], job.depth)],
            caller := Writing(next + 1))
      else if |job.segs[next]| > job.size && next > 0 && job.depth > 0 then
        st.(caller := Finalising(Pos(0, next).Parent(), next % 2 == 0, 0))
      else
        st.(caller := Finalising(Pos(0, next), true, 0))
    case Finalising(n, isLeft, d) =>
      var node := st.nodes[n].(unbalanced := isLeft, right := []);
      if n.x == 0 then
        st.(nodes := st.nodes[n := node.(root := true)], caller := Launching(d))
      else
        st.(nodes := st.nodes[n := node], caller := Finalising(n.Parent(), n.x % 2 == 0, d + 1))
    case Launching(d) =>
      st.(tasks := st.tasks[job.Last() := Launch(job, job.Last(), job.segs[job.Last()], d)],
          caller := Waiting)
    case Received(c) =>
      st.(nodes := Clear(job, st.nodes, Pos(0, job.Last())), caller := Released(c))
    case _ => st
  }

  function Send(st: State, id: nat, s: Bytes): State {
    st.(tasks := st.tasks - {id}, caller := Received(s))
  }

  function TaskStep(job: Job, st: State, id: nat): State
    requires |job.segs| > 0 && CanStep(job, st, TheTask(id))
  {
    var t := st.tasks[id];
    var node := st.nodes[t.n];
    match t.pc
    case HashLeaf =>
      st.(tasks := st.tasks[id := t.(pc := TestLeaf, s := job.h(t.s))])
    case TestLeaf =>
      if node.root then Send(st, id, t.s)
      else st.(tasks := st.tasks[id := t.(pc := Store, n := t.n.Parent(), isLeft := t.i % 2 == 0)])
    case Store =>
      st.(nodes := st.nodes[t.n := if t.isLeft then node.(left := t.s) else node.(right := t.s)],
          tasks := st.tasks[id := t.(pc := Check)])
    case Check =>
      st.(tasks := st.tasks[id := t.(pc := if node.unbalanced then Combine else Toggle)])
    case Toggle =>
      var bumped := Bump(node.state);
      st.(nodes := st.nodes[t.n := node.(state := bumped)],
          tasks := if Waits(bumped) then st.tasks - {id} else st.tasks[id := t.(pc := Combine)])
    case Combine =>
      var both := node.left + node.right;
      st.(tasks := st.tasks[id := t.(pc := Test,
          s := if !node.unbalanced || !t.isLeft || (t.i == 0 && t.d == 0) then job.h(both) else both)])
    case Test =>
      if node.root then Send(st, id, t.s)
      else st.(tasks := st.tasks[id := t.(pc := Store, n := t.n.Parent(),
                                          isLeft := t.n.x % 2 == 0, i := t.i + 1)])
  }

  function Step(job: Job, st: State, who: Who): State
    requires |job.segs| > 0 && CanStep(job, st, who)
  {
    match who
    case TheCaller => CallerStep(job, st)
    case TheTask(id) => TaskStep(job, st, id)
  }

  /** A tree as NewTree builds it and as releaseTree must hand it back. */
  ghost predicate Clean(job: Job, nodes: map<Pos, Node>) {
    forall p :: (p in nodes <==> job.InTree(p)) &&
      (p in nodes ==> !nodes[p].unbalanced && nodes[p].root == (p.k == job.depth) && nodes[p].state % 2 == 0)
  }

  /** A clean tree none of whose 32-bit counters has wrapped. */
  ghost predicate Usable(job: Job, nodes: map<Pos, Node>) {
    && Clean(job, nodes)
    && forall p :: p in nodes ==> 0 <= nodes[p].state <= MAX_INT32
  }

  ghost predicate Init(job: Job, st: State) {
    Usable(job, st.nodes) && st.tasks == map[] && st.caller == Writing(0)
  }
}
