/**
 The invariant of the concurrent tree: every position that has data below it is
 idle, held by exactly one goroutine, or already joined into its parent.
 */
module BmtProof {
  import opened BmtRef
  import opened BmtTree

  /** The progress of a position; a busy one names the goroutine that carries it. */
  datatype Ph = Idle | At(stage: nat, id: nat) | Joined

  type Progress = map<Pos, Ph>

  /** The first height that finalise has not marked yet. */
  function Mark(job: Job, c: Caller): nat
    requires |job.segs| > 0
  {
    match c
    case Writing(_) => job.Start()
    case Finalising(n, _, _) => n.k
    case _ => job.Top() + 1
  }

  predicate Unbalanced(job: Job, mark: nat, p: Pos)
    requires |job.segs| > 0
  {
    job.OnPath(p) && job.Start() <= p.k < mark && (p.k > 0 ==> Anc(job.Last(), p.k - 1) % 2 == 0)
  }

  predicate Launched(job: Job, c: Caller, x: nat)
    requires |job.segs| > 0
  {
    match c
    case Writing(next) => x < next
    case Finalising(_, _, _) => x < job.Last()
    case Launching(_) => x < job.Last()
    case _ => x <= job.Last()
  }

  /** The position a goroutine is working for, and how far it has got. */
  function Place(t: Task): (Pos, nat) {
    match t.pc
    case HashLeaf => (t.n, 2)
    case TestLeaf => (t.n, 3)
    case Store => if t.n.k == 0 then (t.n, 0) else (t.n.Child(t.isLeft), 4)
    case Check => if t.n.k == 0 then (t.n, 1) else (t.n.Child(t.isLeft), 5)
    case Toggle => if t.n.k == 0 then (t.n, 1) else (t.n.Child(t.isLeft), 6)
    case Combine => (t.n, 2)
    case Test => (t.n, 3)
  }

  ghost predicate CallerGood(job: Job, c: Caller)
    requires |job.segs| > 0
  {
    match c
    case Writing(next) => next <= job.Last()
    case Finalising(n, isLeft, d) =>
      && job.Start() <= n.k <= job.Top() && job.OnPath(n) && d == n.k - job.Start()
      && (isLeft <==> (n.k > 0 ==> Anc(job.Last(), n.k - 1) % 2 == 0))
    case Launching(d) => d == job.Top() - job.Start()
    case Waiting => true
    case Received(c) => c == job.Val(Pos(job.Top(), 0))
    case Released(_) => false
  }

  ghost predicate TaskGood(job: Job, t: Task)
    requires |job.segs| > 0
  {
    && job.Active(t.n)
    && (t.n.k > 0 ==> (t.i != 0 || t.d != 0))
    && (t.n.k > 0 && !t.isLeft ==> job.Balanced(t.n) || t.pc.Test?)
    && match t.pc
       case HashLeaf =>
         t.n.k == 0 && t.s == job.segs[t.n.x] && |t.s| > job.size && t.i == t.n.x
           && (t.i != 0 || t.d != 0 || job.Last() == 0)
       case TestLeaf =>
         t.n.k == 0 && t.s == job.Val(t.n) && t.i == t.n.x && (t.i != 0 || t.d != 0 || job.Last() == 0)
       case Store =>
         if t.n.k == 0 then EntersLeaf(job, t) && t.s == job.segs[t.n.x]
         else t.s == job.Val(t.n.Child(t.isLeft))
       case Check => t.n.k == 0 ==> EntersLeaf(job, t)
       case Toggle => t.n.k > 0 && job.Balanced(t.n)
       case Combine => t.n.k == 0 ==> EntersLeaf(job, t)
       case Test => t.s == job.Val(t.n)
  }

  ghost predicate EntersLeaf(job: Job, t: Task)
    requires |job.segs| > 0
  {
    t.n == Pos(0, job.Last()) && t.isLeft && job.Short() && ((t.i == 0 && t.d == 0) <==> job.Last() == 0)
  }

  /** The flags are those of a clean tree plus what finalise has marked so far. */
  ghost predicate FlagsGood(job: Job, nodes: map<Pos, Node>, mark: nat)
    requires |job.segs| > 0
  {
    forall p :: (p in nodes <==> job.InTree(p)) &&
      (p in nodes ==>
        && nodes[p].unbalanced == Unbalanced(job, mark, p)
        && (nodes[p].unbalanced ==> nodes[p].right == [])
        && nodes[p].root == (p.k == job.depth || (mark > job.Top() && p == Pos(job.Top(), 0))))
  }

  /** Goroutines and busy positions correspond one to one. */
  ghost predicate TasksGood(job: Job, tasks: map<nat, Task>, ph: Progress)
    requires |job.segs| > 0
  {
    && (forall p :: p in ph <==> job.Active(p))
    && (forall p :: p in ph && ph[p].At? ==> ph[p].id in tasks && Place(tasks[ph[p].id]) == (p, ph[p].stage))
    && (forall id :: id in tasks ==>
          TaskGood(job, tasks[id]) && Place(tasks[id]).0 in ph && ph[Place(tasks[id]).0] == At(Place(tasks[id]).1, id))
  }

  /** Whether the value of position p has been written into its parent. */
  predicate KeptAt(job: Job, ph: Progress, p: Pos)
    requires |job.segs| > 0
  {
    p in ph && job.Active(p) && (ph[p].Joined? || (ph[p].At? && ph[p].stage >= 5))
  }

  predicate ChildrenJoined(job: Job, ph: Progress, p: Pos)
    requires |job.segs| > 0 && p.k > 0
  {
    && p.Child(true) in ph && ph[p.Child(true)].Joined?
    && (job.Balanced(p) ==> p.Child(false) in ph && ph[p.Child(false)].Joined?)
  }

  /** A position leaves Idle exactly when everything below it has been joined. */
  ghost predicate OrderGood(job: Job, c: Caller, ph: Progress)
    requires |job.segs| > 0
  {
    && (forall p {:trigger ChildrenJoined(job, ph, p)} ::
         p in ph && p.k > 0 ==> (ph[p] != Idle <==> ChildrenJoined(job, ph, p)))
    && (forall p :: p in ph && p.k == 0 ==> (ph[p] != Idle <==> Launched(job, c, p.x)))
    && (Pos(job.Top(), 0) in ph ==> (ph[Pos(job.Top(), 0)].Joined? <==> c.Received?))
  }

  function JoinedCount(job: Job, ph: Progress, p: Pos): nat
    requires |job.segs| > 0 && p.k > 0
  {
    (if p.Child(true) in ph && ph[p.Child(true)].Joined? then 1 else 0) +
    (if p.Child(false) in ph && ph[p.Child(false)].Joined? then 1 else 0)
  }

  /** The counter that a node shows after n of the two arrivals at it. */
  function After(base: int, n: nat): int {
    if n == 0 then base else if n == 1 then Bump(base) else Bump(Bump(base))
  }

  /** What is stored in a node, and how often its counter was bumped. */
  ghost predicate NodeGood(job: Job, node: Node, base: int, ph: Progress, p: Pos)
    requires |job.segs| > 0 && p in ph
  {
    if p.k == 0 then
      && (job.Short() && job.OnPath(p) && ph[p].At? && 1 <= ph[p].stage <= 2 ==> node.left == job.segs[p.x])
      && node.state == base
    else
      && (KeptAt(job, ph, p.Child(true)) ==> node.left == job.Val(p.Child(true)))
      && (KeptAt(job, ph, p.Child(false)) ==> node.right == job.Val(p.Child(false)))
      && node.state == (if job.Balanced(p) then After(base, JoinedCount(job, ph, p)) else base)
  }

  ghost predicate NodesGood(job: Job, nodes: map<Pos, Node>, base: map<Pos, Node>, ph: Progress)
    requires |job.segs| > 0
  {
    && (forall p :: p in ph ==> p in nodes && p in base)
    && (forall p {:trigger NodeGood(job, nodes[p], base[p].state, ph, p)} ::
          p in ph ==> NodeGood(job, nodes[p], base[p].state, ph, p))
    && (forall p :: p in nodes && p !in ph ==> p in base && nodes[p].state == base[p].state)
  }

  ghost predicate Inv(job: Job, base: map<Pos, Node>, st: State, ph: Progress) {
    match st
    case State(nodes, tasks, caller) =>
      && job.Valid()
      && Usable(job, base)
      && CallerGood(job, caller)
      && FlagsGood(job, nodes, Mark(job, caller))
      && TasksGood(job, tasks, ph)
      && OrderGood(job, caller, ph)
      && (forall id :: id in tasks ==> Launched(job, caller, id))
      && NodesGood(job, nodes, base, ph)
  }

  // ------------------------------------------------------------ facts about positions

  lemma ActiveShape(job: Job, p: Pos)
    requires job.Valid() && job.Active(p)
    ensures job.InTree(p)
    ensures p.k == job.Top() ==> p.x == 0
    ensures p.k > 0 ==> job.Active(p.Child(true)) && (job.Active(p.Child(false)) <==> job.Balanced(p))
    ensures p.k < job.Top() ==> job.Active(p.Parent()) && p.Parent().Child(p.x % 2 == 0) == p
    ensures p.k > 0 && !job.Balanced(p) ==> job.OnPath(p) && Anc(job.Last(), p.k - 1) % 2 == 0
    ensures p.k > 0 && job.OnPath(p) && Anc(job.Last(), p.k - 1) % 2 == 0 ==> !job.Balanced(p)
  {
    HeightWithin(job.Last(), job.depth);
    AncWithin(job.Last(), p.k, job.depth);
    HeightIsFirstZero(job.Last(), p.k);
  }

  /** Until the last segment is launched, its whole path is idle. */
  lemma {:induction false} PathIdle(job: Job, c: Caller, ph: Progress, k: nat)
    requires job.Valid() && OrderGood(job, c, ph)
    requires forall p :: p in ph <==> job.Active(p)
    requires k <= job.Top() && !Launched(job, c, job.Last())
    ensures Pos(k, Anc(job.Last(), k)) in ph && ph[Pos(k, Anc(job.Last(), k))] == Idle
  {
    var p := Pos(k, Anc(job.Last(), k));
    assert p in ph;
    if k > 0 {
      PathIdle(job, c, ph, k - 1);
      ActiveShape(job, p);
      var q := Pos(k - 1, Anc(job.Last(), k - 1));
      assert q == p.Child(q.x % 2 == 0);
      assert !ChildrenJoined(job, ph, p);
    }
  }

  /** Once the chunk's root has been joined, so has every position. */
  lemma {:induction false} AllJoined(job: Job, c: Caller, ph: Progress, p: Pos)
    requires job.Valid() && OrderGood(job, c, ph)
    requires forall q :: q in ph <==> job.Active(q)
    requires Pos(job.Top(), 0) in ph && ph[Pos(job.Top(), 0)].Joined?
    requires p in ph
    ensures ph[p].Joined?
    decreases job.Top() - p.k
  {
    ActiveShape(job, p);
    if p.k < job.Top() {
      AllJoined(job, c, ph, p.Parent());
      ActiveShape(job, p.Parent());
      assert ChildrenJoined(job, ph, p.Parent());
    }
  }

  /** A goroutine that arrives at a node reads the unbalanced flag that the shape calls for. */
  lemma FlagRight(job: Job, base: map<Pos, Node>, st: State, ph: Progress, child: Pos)
    requires Inv(job, base, st, ph) && child in ph && ph[child] != Idle && child.k < job.Top()
    ensures child.Parent() in ph && child.Parent() in st.nodes
    ensures st.nodes[child.Parent()].unbalanced == !job.Balanced(child.Parent())
  {
    ActiveShape(job, child);
    var n := child.Parent();
    ActiveShape(job, n);
    if job.OnPath(n) && Anc(job.Last(), child.k) % 2 == 0 {
      assert job.OnPath(child);
      if !Launched(job, st.caller, job.Last()) {
        PathIdle(job, st.caller, ph, child.k);
      }
      assert job.Start() <= 1;
    }
  }

  lemma RootSeesReceiver(job: Job, base: map<Pos, Node>, st: State, ph: Progress, p: Pos)
    requires Inv(job, base, st, ph) && p in ph && ph[p].At?
    ensures p in st.nodes
    ensures p == Pos(job.Top(), 0) ==> st.nodes[p].root && st.caller.Waiting?
    ensures p != Pos(job.Top(), 0) ==> !st.nodes[p].root && p.k < job.Top() <= job.depth
  {
    ActiveShape(job, p);
    HeightWithin(job.Last(), job.depth);
    if p == Pos(job.Top(), 0) {
      HeightIsFirstZero(job.Last(), job.Top());
      if !Launched(job, st.caller, job.Last()) {
        PathIdle(job, st.caller, ph, job.Top());
      }
    }
  }

  // ------------------------------------------------ how a step changes each part

  lemma OnlyParent(p: Pos, q: Pos, left: bool)
    requires p.k > 0 && p.Child(left) == q
    ensures p == q.Parent() && left == (q.x % 2 == 0)
  {
  }

  lemma TasksMove(job: Job, tasks: map<nat, Task>, ph: Progress, id: nat, t: Task)
    requires |job.segs| > 0 && TasksGood(job, tasks, ph) && id in tasks
    requires Place(t).0 == Place(tasks[id]).0 && TaskGood(job, t)
    ensures TasksGood(job, tasks[id := t], ph[Place(t).0 := At(Place(t).1, id)])
  {
  }

  lemma TasksClimb(job: Job, tasks: map<nat, Task>, ph: Progress, id: nat, t: Task)
    requires |job.segs| > 0 && TasksGood(job, tasks, ph) && id in tasks
    requires var n := Place(t).0; n in ph && ph[n].Idle? && TaskGood(job, t)
    ensures TasksGood(job, tasks[id := t], ph[Place(tasks[id]).0 := Joined][Place(t).0 := At(Place(t).1, id)])
  {
  }

  lemma TasksEnd(job: Job, tasks: map<nat, Task>, ph: Progress, id: nat)
    requires |job.segs| > 0 && TasksGood(job, tasks, ph) && id in tasks
    ensures TasksGood(job, tasks - {id}, ph[Place(tasks[id]).0 := Joined])
  {
  }

  lemma TasksSpawn(job: Job, tasks: map<nat, Task>, ph: Progress, id: nat, t: Task)
    requires |job.segs| > 0 && TasksGood(job, tasks, ph) && id !in tasks
    requires var n := Place(t).0; n in ph && ph[n].Idle? && TaskGood(job, t)
    ensures TasksGood(job, tasks[id := t], ph[Place(t).0 := At(Place(t).1, id)])
  {
  }

  /** Moving a goroutine between busy stages leaves the order as it is. */
  lemma OrderMove(job: Job, c: Caller, ph: Progress, q: Pos, f: Ph)
    requires |job.segs| > 0 && OrderGood(job, c, ph) && q in ph && ph[q].At? && f.At?
    ensures OrderGood(job, c, ph[q := f])
  {
    var ph' := ph[q := f];
    forall p | p in ph' && p.k > 0
      ensures ph'[p] != Idle <==> ChildrenJoined(job, ph', p)
    {
      assert ph[p] != Idle <==> ChildrenJoined(job, ph, p);
    }
  }

  /** The first of two arrivals: the parent stays idle. */
  lemma OrderWait(job: Job, c: Caller, ph: Progress, q: Pos)
    requires job.Valid() && OrderGood(job, c, ph) && q in ph && ph[q].At? && q.k < job.Top()
    requires !ChildrenJoined(job, ph[q := Joined], q.Parent())
    ensures OrderGood(job, c, ph[q := Joined])
  {
    var ph' := ph[q := Joined];
    forall p | p in ph' && p.k > 0
      ensures ph'[p] != Idle <==> ChildrenJoined(job, ph', p)
    {
      assert ph[p] != Idle <==> ChildrenJoined(job, ph, p);
      if p.Child(true) == q { OnlyParent(p, q, true); }
      if p.Child(false) == q { OnlyParent(p, q, false); }
    }
  }

  /** The last arrival: the parent becomes busy. */
  lemma OrderClimb(job: Job, c: Caller, ph: Progress, q: Pos, f: Ph)
    requires |job.segs| > 0 && OrderGood(job, c, ph) && q in ph && ph[q].At? && q != Pos(job.Top(), 0)
    requires q.Parent() in ph && f.At? && (q.x % 2 != 0 ==> job.Balanced(q.Parent()))
    requires ChildrenJoined(job, ph[q := Joined], q.Parent())
    ensures ph[q.Parent()].Idle?
    ensures OrderGood(job, c, ph[q := Joined][q.Parent() := f])
  {
    var n := q.Parent();
    NotYetJoined(job, ph, q);
    assert ph[n] != Idle <==> ChildrenJoined(job, ph, n);
    var ph1 := ph[q := Joined];
    var ph' := ph1[n := f];
    BusySame(job, ph1, n, f, n);
    hide ChildrenJoined;
    forall p: Pos | p in ph' && p.k > 0
      ensures ph'[p] != Idle <==> ChildrenJoined(job, ph', p)
    {
      assert ph[p] != Idle <==> ChildrenJoined(job, ph, p);
      if p != n {
        JoinElsewhere(job, ph, q, p);
        BusySame(job, ph1, n, f, p);
      }
    }
  }

  /** A child that has not been joined may get busy unnoticed. */
  lemma BusySame(job: Job, ph: Progress, n: Pos, f: Ph, p: Pos)
    requires |job.segs| > 0 && n in ph && !ph[n].Joined? && !f.Joined? && p.k > 0
    ensures ChildrenJoined(job, ph[n := f], p) <==> ChildrenJoined(job, ph, p)
  {
  }

  /** Joining a position changes only what its parent sees. */
  lemma JoinElsewhere(job: Job, ph: Progress, q: Pos, p: Pos)
    requires |job.segs| > 0 && q in ph && p.k > 0 && p != q.Parent()
    ensures ChildrenJoined(job, ph[q := Joined], p) <==> ChildrenJoined(job, ph, p)
  {
    NotChild(p, q, true);
    NotChild(p, q, false);
  }

  lemma NotChild(p: Pos, q: Pos, left: bool)
    requires p.k > 0 && p != q.Parent()
    ensures p.Child(left) != q
  {
  }

  lemma NotYetJoined(job: Job, ph: Progress, q: Pos)
    requires |job.segs| > 0 && q in ph && !ph[q].Joined? && (q.x % 2 != 0 ==> job.Balanced(q.Parent()))
    ensures !ChildrenJoined(job, ph, q.Parent())
  {
    assert q.Parent().Child(q.x % 2 == 0) == q;
  }

  /** Moving between busy stages, when nothing newly counts as stored. */
  lemma NodesMove(job: Job, nodes: map<Pos, Node>, base: map<Pos, Node>, ph: Progress, q: Pos, f: Ph)
    requires |job.segs| > 0 && NodesGood(job, nodes, base, ph) && q in ph && f.At?
    requires f.stage >= 5 ==> ph[q].At? && ph[q].stage >= 5
    requires ph[q] == Idle || (ph[q].At?
      && (q.k == 0 && 1 <= f.stage <= 2 && job.Short() && job.OnPath(q) ==> 1 <= ph[q].stage <= 2))
    requires ph[q] == Idle ==> q.k == 0 && (!job.Short() || !job.OnPath(q) || f.stage == 0)
    ensures NodesGood(job, nodes, base, ph[q := f])
  {
    var ph' := ph[q := f];
    forall p | p in ph'
      ensures NodeGood(job, nodes[p], base[p].state, ph', p)
    {
      assert NodeGood(job, nodes[p], base[p].state, ph, p);
    }
  }

  /** The side of a node that s is written to. */
  function Stored(node: Node, isLeft: bool, s: Bytes): Node {
    if isLeft then node.(left := s) else node.(right := s)
  }

  lemma NodesStore(job: Job, nodes: map<Pos, Node>, base: map<Pos, Node>, ph: Progress, q: Pos, f: Ph)
    requires |job.segs| > 0 && NodesGood(job, nodes, base, ph)
    requires q in ph && ph[q].At? && f.At? && job.Active(q) && q.Parent() in ph && q.Parent() in nodes
    requires f.stage >= 5
    ensures NodesGood(job, nodes[q.Parent() := Stored(nodes[q.Parent()], q.x % 2 == 0, job.Val(q))], base, ph[q := f])
  {
    var n := q.Parent();
    assert NodeGood(job, nodes[n], base[n].state, ph, n);
    NodeStored(job, nodes[n], base[n].state, ph, q, f);
    OthersSame(job, nodes, base, ph, q, f);
    hide NodeGood;
    hide Stored;
    NodesPut(job, nodes, base, ph, ph[q := f], n, Stored(nodes[n], q.x % 2 == 0, job.Val(q)));
  }

  lemma NodeStored(job: Job, node: Node, base: int, ph: Progress, q: Pos, f: Ph)
    requires |job.segs| > 0 && q in ph && job.Active(q) && q.Parent() in ph && NodeGood(job, node, base, ph, q.Parent())
    requires ph[q].At? && f.At?
    ensures NodeGood(job, Stored(node, q.x % 2 == 0, job.Val(q)), base, ph[q := f], q.Parent())
  {
    var n := q.Parent();
    assert n.Child(q.x % 2 == 0) == q && n.Child(q.x % 2 != 0) != q;
  }

  /** What happens to a position concerns its parent only, and its own leaf while it enters. */
  lemma NodeElsewhere(job: Job, node: Node, base: int, ph: Progress, q: Pos, f: Ph, p: Pos)
    requires |job.segs| > 0 && q in ph && p in ph && p != q.Parent() && NodeGood(job, node, base, ph, p)
    requires f.At? && 1 <= f.stage <= 2 ==> q.k > 0
    ensures NodeGood(job, node, base, ph[q := f], p)
  {
    if p.k > 0 {
      NotChild(p, q, true);
      NotChild(p, q, false);
    }
  }

  /** A position that gets busy has stored nothing yet. */
  lemma NodeBusy(job: Job, node: Node, base: int, ph: Progress, n: Pos, f: Ph, p: Pos)
    requires |job.segs| > 0 && n in ph && p in ph && NodeGood(job, node, base, ph, p)
    requires ph[n].Idle? && n.k > 0 && f.At? && f.stage < 5
    ensures NodeGood(job, node, base, ph[n := f], p)
  {
  }

  lemma NodesEnter(job: Job, nodes: map<Pos, Node>, base: map<Pos, Node>, ph: Progress, q: Pos, id: nat)
    requires |job.segs| > 0 && NodesGood(job, nodes, base, ph)
    requires q in ph && ph[q].At? && q == Pos(0, job.Last()) && q in nodes
    ensures NodesGood(job, nodes[q := nodes[q].(left := job.segs[job.Last()])], base, ph[q := At(1, id)])
  {
    var ph' := ph[q := At(1, id)];
    var nodes' := nodes[q := nodes[q].(left := job.segs[job.Last()])];
    forall p | p in ph'
      ensures NodeGood(job, nodes'[p], base[p].state, ph', p)
    {
      assert NodeGood(job, nodes[p], base[p].state, ph, p);
    }
  }

  function Bumped(nodes: map<Pos, Node>, n: Pos): map<Pos, Node>
    requires n in nodes
  {
    nodes[n := nodes[n].(state := Bump(nodes[n].state))]
  }

  /** Joining a child into its parent, whose counter is bumped if both sides have data. */
  lemma NodesJoin(job: Job, nodes: map<Pos, Node>, base: map<Pos, Node>, ph: Progress, q: Pos, id: nat,
                  nodes': map<Pos, Node>, ph': Progress)
    requires job.Valid() && NodesGood(job, nodes, base, ph)
    requires q in ph && ph[q].At? && ph[q].stage >= 5 && job.Active(q) && job.Active(q.Parent())
    requires q.Parent() in ph && q.Parent() in nodes
    requires nodes' == if job.Balanced(q.Parent()) then Bumped(nodes, q.Parent()) else nodes
    requires ph' == ph[q := Joined] || (ph[q.Parent()].Idle? && ph' == ph[q := Joined][q.Parent() := At(2, id)])
    ensures NodesGood(job, nodes', base, ph')
  {
    var n := q.Parent();
    ActiveShape(job, n);
    NodesJoined(job, nodes, base, ph, q);
    if ph' != ph[q := Joined] { NodesBusy(job, nodes', base, ph[q := Joined], n, ph'[n]); }
  }

  lemma NodesJoined(job: Job, nodes: map<Pos, Node>, base: map<Pos, Node>, ph: Progress, q: Pos)
    requires |job.segs| > 0 && NodesGood(job, nodes, base, ph)
    requires q in ph && ph[q].At? && ph[q].stage >= 5 && job.Active(q) && q.Parent() in ph && q.Parent() in nodes
    ensures NodesGood(job, if job.Balanced(q.Parent()) then Bumped(nodes, q.Parent()) else nodes, base, ph[q := Joined])
  {
    var n := q.Parent();
    assert NodeGood(job, nodes[n], base[n].state, ph, n);
    NodeJoined(job, nodes[n], base[n].state, ph, q);
    OthersSame(job, nodes, base, ph, q, Joined);
    var node' := if job.Balanced(n) then nodes[n].(state := Bump(nodes[n].state)) else nodes[n];
    hide NodeGood;
    NodesPut(job, nodes, base, ph, ph[q := Joined], n, node');
  }

  lemma OthersSame(job: Job, nodes: map<Pos, Node>, base: map<Pos, Node>, ph: Progress, q: Pos, f: Ph)
    requires |job.segs| > 0 && NodesGood(job, nodes, base, ph) && q in ph
    requires f.At? && 1 <= f.stage <= 2 ==> q.k > 0
    ensures forall p :: p in ph && p != q.Parent() ==> NodeGood(job, nodes[p], base[p].state, ph[q := f], p)
  {
    hide NodeGood;
    forall p: Pos | p in ph && p != q.Parent()
      ensures NodeGood(job, nodes[p], base[p].state, ph[q := f], p)
    {
      assert NodeGood(job, nodes[p], base[p].state, ph, p);
      NodeElsewhere(job, nodes[p], base[p].state, ph, q, f, p);
    }
  }

  lemma NodesPut(job: Job, nodes: map<Pos, Node>, base: map<Pos, Node>, ph: Progress, ph': Progress, n: Pos, node: Node)
    requires |job.segs| > 0 && NodesGood(job, nodes, base, ph) && ph'.Keys == ph.Keys && n in ph
    requires NodeGood(job, node, base[n].state, ph', n)
    requires forall p :: p in ph && p != n ==> NodeGood(job, nodes[p], base[p].state, ph', p)
    ensures NodesGood(job, nodes[n := node], base, ph')
  {
    hide NodeGood;
  }

  lemma NodesBusy(job: Job, nodes: map<Pos, Node>, base: map<Pos, Node>, ph: Progress, n: Pos, f: Ph)
    requires |job.segs| > 0 && NodesGood(job, nodes, base, ph)
    requires n in ph && ph[n].Idle? && n.k > 0 && f.At? && f.stage < 5
    ensures NodesGood(job, nodes, base, ph[n := f])
  {
    hide NodeGood;
    forall p: Pos | p in ph[n := f]
      ensures NodeGood(job, nodes[p], base[p].state, ph[n := f], p)
    {
      assert NodeGood(job, nodes[p], base[p].state, ph, p);
      NodeBusy(job, nodes[p], base[p].state, ph, n, f, p);
    }
  }

  lemma NodeJoined(job: Job, node: Node, base: int, ph: Progress, q: Pos)
    requires |job.segs| > 0 && q in ph && q.Parent() in ph && NodeGood(job, node, base, ph, q.Parent())
    requires ph[q].At? && ph[q].stage >= 5 && job.Active(q)
    ensures var node' := if job.Balanced(q.Parent()) then node.(state := Bump(node.state)) else node;
      NodeGood(job, node', base, ph[q := Joined], q.Parent())
  {
    var n := q.Parent();
    assert n.Child(q.x % 2 == 0) == q && n.Child(q.x % 2 != 0) != q;
    assert JoinedCount(job, ph[q := Joined], n) == JoinedCount(job, ph, n) + 1;
  }

  // ------------------------------------------------------- steps of a goroutine

  lemma TaskInPlace(job: Job, base: map<Pos, Node>, st: State, ph: Progress, id: nat)
    requires Inv(job, base, st, ph) && id in st.tasks
    ensures var t := st.tasks[id]; var q := Place(t).0;
      && q in ph && ph[q] == At(Place(t).1, id) && job.Active(q) && t.n in ph && t.n in st.nodes
      && (q != t.n ==> t.n.k > 0 && q.k < job.Top() && t.n == q.Parent() && t.isLeft == (q.x % 2 == 0))
      && job.Valid() && TaskGood(job, t) && job.Active(t.n)
  {
    var t := st.tasks[id];
    assert TaskGood(job, t);
    ActiveShape(job, t.n);
    if t.n.k > 0 && Place(t).0 != t.n { OnlyParent(t.n, Place(t).0, t.isLeft); }
  }

  lemma Parts(job: Job, base: map<Pos, Node>, st: State, ph: Progress)
    requires Inv(job, base, st, ph)
    ensures job.Valid() && Usable(job, base)
    ensures CallerGood(job, st.caller) && FlagsGood(job, st.nodes, Mark(job, st.caller))
    ensures TasksGood(job, st.tasks, ph) && OrderGood(job, st.caller, ph) && NodesGood(job, st.nodes, base, ph)
    ensures forall id :: id in st.tasks ==> Launched(job, st.caller, id)
  {
  }

  /** The invariant is kept when a goroutine only moves, and neither tree nor caller changes. */
  lemma Moved(job: Job, base: map<Pos, Node>, st: State, ph: Progress, id: nat, t: Task)
    requires Inv(job, base, st, ph) && id in st.tasks && TaskGood(job, t)
    requires var (q, a) := Place(st.tasks[id]); var (q', b) := Place(t);
      q == q' && (b >= 5 ==> a >= 5) && (q.k == 0 && 1 <= b <= 2 && job.Short() && job.OnPath(q) ==> 1 <= a <= 2)
    ensures Inv(job, base, st.(tasks := st.tasks[id := t]), ph[Place(t).0 := At(Place(t).1, id)])
  {
    var f := At(Place(t).1, id);
    TasksMove(job, st.tasks, ph, id, t);
    OrderMove(job, st.caller, ph, Place(t).0, f);
    NodesMove(job, st.nodes, base, ph, Place(t).0, f);
  }

  lemma HashLeafStep(job: Job, base: map<Pos, Node>, st: State, ph: Progress, id: nat) returns (ph': Progress)
    requires Inv(job, base, st, ph) && id in st.tasks && st.tasks[id].pc.HashLeaf?
    ensures CanStep(job, st, TheTask(id)) && Inv(job, base, TaskStep(job, st, id), ph')
  {
    TaskInPlace(job, base, st, ph, id);
    var t := st.tasks[id];
    Moved(job, base, st, ph, id, t.(pc := TestLeaf, s := job.h(t.s)));
    ph' := ph[t.n := At(3, id)];
  }

  /** A finished node that is not the chunk's root hands its value to its parent. */
  lemma HandUp(job: Job, t: Task)
    requires job.Valid() && TaskGood(job, t) && (t.pc.TestLeaf? || t.pc.Test?) && t.n.k < job.Top()
    ensures var i := if t.pc.TestLeaf? then t.i else t.i + 1;
      var t' := t.(pc := Store, n := t.n.Parent(), isLeft := t.n.x % 2 == 0, i := i);
      TaskGood(job, t') && Place(t') == (t.n, 4)
  {
    ActiveShape(job, t.n);
    ActiveShape(job, t.n.Parent());
    assert t.n.x == 0 && t.n.k == 0 ==> job.Last() > 0;
  }

  lemma TestStep(job: Job, base: map<Pos, Node>, st: State, ph: Progress, id: nat) returns (ph': Progress)
    requires Inv(job, base, st, ph) && id in st.tasks
    requires st.tasks[id].pc.TestLeaf? || st.tasks[id].pc.Test?
    requires st.tasks[id].n != Pos(job.Top(), 0)
    ensures CanStep(job, st, TheTask(id)) && Inv(job, base, TaskStep(job, st, id), ph')
  {
    TaskInPlace(job, base, st, ph, id);
    hide Inv;
    var t := st.tasks[id];
    RootSeesReceiver(job, base, st, ph, t.n);
    HandUp(job, t);
    var i := if t.pc.TestLeaf? then t.i else t.i + 1;
    Moved(job, base, st, ph, id, t.(pc := Store, n := t.n.Parent(), isLeft := t.n.x % 2 == 0, i := i));
    ph' := ph[t.n := At(4, id)];
    TestEffect(job, st, id);
  }

  lemma TestEffect(job: Job, st: State, id: nat)
    requires |job.segs| > 0 && id in st.tasks && (st.tasks[id].pc.TestLeaf? || st.tasks[id].pc.Test?)
    requires var t := st.tasks[id];
      t.n in st.nodes && !st.nodes[t.n].root && t.n.k < job.depth && (t.pc.TestLeaf? ==> t.i == t.n.x)
    ensures CanStep(job, st, TheTask(id))
    ensures var t := st.tasks[id]; var i := if t.pc.TestLeaf? then t.i else t.i + 1;
      TaskStep(job, st, id)
        == st.(tasks := st.tasks[id := t.(pc := Store, n := t.n.Parent(), isLeft := t.n.x % 2 == 0, i := i)])
  {
  }

  lemma FlagsStored(job: Job, nodes: map<Pos, Node>, mark: nat, n: Pos, isLeft: bool, s: Bytes)
    requires |job.segs| > 0 && FlagsGood(job, nodes, mark) && n in nodes
    requires !isLeft ==> !nodes[n].unbalanced
    ensures FlagsGood(job, nodes[n := Stored(nodes[n], isLeft, s)], mark)
  {
  }

  lemma StoreStep(job: Job, base: map<Pos, Node>, st: State, ph: Progress, id: nat) returns (ph': Progress)
    requires Inv(job, base, st, ph) && id in st.tasks && st.tasks[id].pc.Store?
    ensures CanStep(job, st, TheTask(id)) && Inv(job, base, TaskStep(job, st, id), ph')
  {
    TaskInPlace(job, base, st, ph, id);
    Parts(job, base, st, ph);
    hide Inv;
    hide FlagsGood;
    hide TasksGood;
    hide OrderGood;
    hide NodesGood;
    hide Usable;
    var t := st.tasks[id];
    var q := Place(t).0;
    var t' := t.(pc := Check);
    var f := At(Place(t').1, id);
    ph' := ph[q := f];
    TasksMove(job, st.tasks, ph, id, t');
    OrderMove(job, st.caller, ph, q, f);
    StoreNodes(job, base, st.nodes, ph, id, t);
    StoreFlags(job, base, st, ph, id);
    var nodes := st.nodes[t.n := Stored(st.nodes[t.n], t.isLeft, t.s)];
    Assemble(job, base, nodes, st.tasks[id := t'], st.caller, ph');
    StoreEffect(job, st, id);
  }

  lemma StoreEffect(job: Job, st: State, id: nat)
    requires |job.segs| > 0 && id in st.tasks && st.tasks[id].pc.Store? && st.tasks[id].n in st.nodes
    ensures CanStep(job, st, TheTask(id))
    ensures var t := st.tasks[id];
      TaskStep(job, st, id) == State(st.nodes[t.n := Stored(st.nodes[t.n], t.isLeft, t.s)],
        st.tasks[id := t.(pc := Check)], st.caller)
  {
  }

  lemma StoreFlags(job: Job, base: map<Pos, Node>, st: State, ph: Progress, id: nat)
    requires Inv(job, base, st, ph) && id in st.tasks && st.tasks[id].pc.Store? && st.tasks[id].n in st.nodes
    ensures var t := st.tasks[id];
      FlagsGood(job, st.nodes[t.n := Stored(st.nodes[t.n], t.isLeft, t.s)], Mark(job, st.caller))
  {
    TaskInPlace(job, base, st, ph, id);
    var t := st.tasks[id];
    Parts(job, base, st, ph);
    hide Inv;
    if t.n.k > 0 { FlagRight(job, base, st, ph, Place(t).0); }
    FlagsStored(job, st.nodes, Mark(job, st.caller), t.n, t.isLeft, t.s);
  }

  lemma StoreNodes(job: Job, base: map<Pos, Node>, nodes: map<Pos, Node>, ph: Progress, id: nat, t: Task)
    requires job.Valid() && NodesGood(job, nodes, base, ph) && TaskGood(job, t) && t.pc.Store?
    requires var q := Place(t).0; q in ph && ph[q].At? && job.Active(q) && t.n in ph && t.n in nodes
    requires t.n.k > 0 ==> t.n == Place(t).0.Parent() && t.isLeft == (Place(t).0.x % 2 == 0)
    ensures var f := At(if t.n.k == 0 then 1 else 5, id);
      NodesGood(job, nodes[t.n := Stored(nodes[t.n], t.isLeft, t.s)], base, ph[Place(t).0 := f])
  {
    hide NodesGood;
    if t.n.k == 0 {
      NodesEnter(job, nodes, base, ph, t.n, id);
    } else {
      NodesStore(job, nodes, base, ph, t.n.Child(t.isLeft), At(5, id));
    }
  }

  lemma CheckStep(job: Job, base: map<Pos, Node>, st: State, ph: Progress, id: nat) returns (ph': Progress)
    requires Inv(job, base, st, ph) && id in st.tasks && st.tasks[id].pc.Check?
    ensures CanStep(job, st, TheTask(id)) && Inv(job, base, TaskStep(job, st, id), ph')
  {
    TaskInPlace(job, base, st, ph, id);
    FlagSeen(job, base, st, ph, id);
    hide Inv;
    var t := st.tasks[id];
    var q := Place(t).0;
    CheckEffect(job, st, id);
    if t.n.k == 0 {
      Moved(job, base, st, ph, id, t.(pc := Combine));
      ph' := ph[q := At(2, id)];
    } else {
      if job.Balanced(t.n) {
        Moved(job, base, st, ph, id, t.(pc := Toggle));
        ph' := ph[q := At(6, id)];
      } else {
        ph' := ph[q := Joined][t.n := At(2, id)];
        CheckClimbs(job, base, st, ph, id);
      }
    }
  }

  /** The flag that a goroutine reads is set exactly where no one else will come up. */
  lemma FlagSeen(job: Job, base: map<Pos, Node>, st: State, ph: Progress, id: nat)
    requires Inv(job, base, st, ph) && id in st.tasks && st.tasks[id].pc.Check?
    ensures var t := st.tasks[id];
      t.n in st.nodes && st.nodes[t.n].unbalanced == (t.n.k > 0 ==> !job.Balanced(t.n))
  {
    TaskInPlace(job, base, st, ph, id);
    var t := st.tasks[id];
    if t.n.k == 0 {
      LeafMarked(job, st, t);
    } else {
      hide Inv;
      FlagRight(job, base, st, ph, Place(t).0);
    }
  }

  lemma LeafMarked(job: Job, st: State, t: Task)
    requires job.Valid() && TaskGood(job, t) && (t.pc.Check? || t.pc.Combine?) && t.n.k == 0 && t.n in st.nodes
    requires CallerGood(job, st.caller) && Launched(job, st.caller, job.Last())
      && FlagsGood(job, st.nodes, Mark(job, st.caller))
    ensures st.nodes[t.n].unbalanced
  {
  }

  lemma CheckEffect(job: Job, st: State, id: nat)
    requires |job.segs| > 0 && id in st.tasks && st.tasks[id].pc.Check? && st.tasks[id].n in st.nodes
    ensures CanStep(job, st, TheTask(id))
    ensures var t := st.tasks[id];
      TaskStep(job, st, id)
        == st.(tasks := st.tasks[id := t.(pc := if st.nodes[t.n].unbalanced then Combine else Toggle)])
  {
  }

  /** Nothing else will come up to an unbalanced node: the goroutine goes on at once. */
  lemma CheckClimbs(job: Job, base: map<Pos, Node>, st: State, ph: Progress, id: nat)
    requires Inv(job, base, st, ph) && id in st.tasks && st.tasks[id].pc.Check?
    requires st.tasks[id].n.k > 0 && !job.Balanced(st.tasks[id].n)
    ensures var t := st.tasks[id];
      Inv(job, base, st.(tasks := st.tasks[id := t.(pc := Combine)]), ph[Place(t).0 := Joined][t.n := At(2, id)])
  {
    TaskInPlace(job, base, st, ph, id);
    hide Inv;
    var t := st.tasks[id];
    CombineGood(job, t);
    hide TaskGood;
    hide Place;
    assert ChildrenJoined(job, ph[Place(t).0 := Joined], t.n);
    Climbs(job, base, st, ph, id);
  }

  /** A goroutine that goes on from a child to the node above it. */
  lemma CombineGood(job: Job, t: Task)
    requires job.Valid() && TaskGood(job, t) && t.n.k > 0
    requires t.pc.Toggle? || (t.pc.Check? && !job.Balanced(t.n))
    ensures TaskGood(job, t.(pc := Combine)) && Place(t).0 == t.n.Child(t.isLeft)
    ensures t.pc.Toggle? ==> job.Balanced(t.n)
    ensures t.pc.Check? ==> t.isLeft
  {
    ActiveShape(job, t.n);
  }

  /** The last arrival at a node goes on with it; the counter of a balanced node is bumped. */
  lemma Climbs(job: Job, base: map<Pos, Node>, st: State, ph: Progress, id: nat)
    requires Inv(job, base, st, ph) && id in st.tasks
    requires var t := st.tasks[id]; var q := Place(t).0;
      && (t.pc.Check? || t.pc.Toggle?) && t.n.k > 0 && TaskGood(job, t.(pc := Combine))
      && (q.x % 2 != 0 ==> job.Balanced(t.n)) && ChildrenJoined(job, ph[q := Joined], t.n)
    ensures st.tasks[id].n in st.nodes
    ensures var t := st.tasks[id];
      var nodes := if job.Balanced(t.n) then Bumped(st.nodes, t.n) else st.nodes;
      Inv(job, base, State(nodes, st.tasks[id := t.(pc := Combine)], st.caller),
        ph[Place(t).0 := Joined][t.n := At(2, id)])
  {
    TaskInPlace(job, base, st, ph, id);
    Parts(job, base, st, ph);
    hide Inv;
    var t := st.tasks[id];
    var q := Place(t).0;
    var nodes := if job.Balanced(t.n) then Bumped(st.nodes, t.n) else st.nodes;
    var ph' := ph[q := Joined][t.n := At(2, id)];
    hide ChildrenJoined;
    hide Usable;
    hide NodesGood;
    OrderClimb(job, st.caller, ph, q, At(2, id));
    hide OrderGood;
    TasksClimb(job, st.tasks, ph, id, t.(pc := Combine));
    hide TasksGood;
    FlagsBumped(job, st.nodes, Mark(job, st.caller), t.n);
    hide FlagsGood;
    NodesJoin(job, st.nodes, base, ph, q, id, nodes, ph');
    Assemble(job, base, nodes, st.tasks[id := t.(pc := Combine)], st.caller, ph');
  }

  /** The first of two arrivals ends; the other one will find its value. */
  lemma Leaves(job: Job, base: map<Pos, Node>, st: State, ph: Progress, id: nat)
    requires Inv(job, base, st, ph) && id in st.tasks
    requires var t := st.tasks[id];
      t.pc.Toggle? && !ChildrenJoined(job, ph[Place(t).0 := Joined], t.n)
    ensures st.tasks[id].n in st.nodes
    ensures var t := st.tasks[id];
      Inv(job, base, State(Bumped(st.nodes, t.n), st.tasks - {id}, st.caller), ph[Place(t).0 := Joined])
  {
    TaskInPlace(job, base, st, ph, id);
    Parts(job, base, st, ph);
    hide Inv;
    var t := st.tasks[id];
    var q := Place(t).0;
    hide ChildrenJoined;
    hide Usable;
    hide NodesGood;
    OrderWait(job, st.caller, ph, q);
    hide OrderGood;
    TasksEnd(job, st.tasks, ph, id);
    hide TasksGood;
    FlagsBumped(job, st.nodes, Mark(job, st.caller), t.n);
    hide FlagsGood;
    NodesJoin(job, st.nodes, base, ph, q, id, Bumped(st.nodes, t.n), ph[q := Joined]);
    Assemble(job, base, Bumped(st.nodes, t.n), st.tasks - {id}, st.caller, ph[q := Joined]);
  }

  /** Bumping the counter twice from a usable value: the first arrival waits, the second goes on. */
  lemma FirstWaitsSecondGoes(base: int)
    requires 0 <= base <= MAX_INT32 && base % 2 == 0
    ensures Waits(After(base, 1)) && !Waits(After(base, 2))
    ensures After(base, 2) % 2 == 0
  {
  }

  lemma FlagsBumped(job: Job, nodes: map<Pos, Node>, mark: nat, n: Pos)
    requires |job.segs| > 0 && FlagsGood(job, nodes, mark) && n in nodes
    ensures FlagsGood(job, Bumped(nodes, n), mark)
  {
  }

  /** The counter that the second arrival finds has been bumped once. */
  lemma CounterAt(job: Job, base: map<Pos, Node>, st: State, ph: Progress, q: Pos)
    requires Inv(job, base, st, ph) && q in ph && ph[q].At? && q.k < job.Top()
    requires q.Parent() in ph && job.Balanced(q.Parent())
    ensures q.Parent() in st.nodes && q.Parent() in base
    ensures var second := ChildrenJoined(job, ph[q := Joined], q.Parent());
      Waits(Bump(st.nodes[q.Parent()].state)) == !second
  {
    var n := q.Parent();
    ActiveShape(job, n);
    assert NodeGood(job, st.nodes[n], base[n].state, ph, n);
    CounterShows(job, st.nodes[n], base[n].state, ph, q);
  }

  lemma CounterShows(job: Job, node: Node, base: int, ph: Progress, q: Pos)
    requires |job.segs| > 0 && q in ph && ph[q].At? && q.Parent() in ph && job.Balanced(q.Parent())
    requires q.Parent().Child(true) in ph && q.Parent().Child(false) in ph
    requires NodeGood(job, node, base, ph, q.Parent()) && 0 <= base <= MAX_INT32 && base % 2 == 0
    ensures Waits(Bump(node.state)) == !ChildrenJoined(job, ph[q := Joined], q.Parent())
  {
    var n := q.Parent();
    assert n.Child(q.x % 2 == 0) == q && n.Child(q.x % 2 != 0) != q;
    FirstWaitsSecondGoes(base);
  }

  lemma ToggleStep(job: Job, base: map<Pos, Node>, st: State, ph: Progress, id: nat) returns (ph': Progress)
    requires Inv(job, base, st, ph) && id in st.tasks && st.tasks[id].pc.Toggle?
    ensures CanStep(job, st, TheTask(id)) && Inv(job, base, TaskStep(job, st, id), ph')
  {
    TaskInPlace(job, base, st, ph, id);
    hide Inv;
    var t := st.tasks[id];
    var q := Place(t).0;
    CombineGood(job, t);
    hide TaskGood;
    hide Place;
    CounterAt(job, base, st, ph, q);
    hide ChildrenJoined;
    if ChildrenJoined(job, ph[q := Joined], t.n) {
      ph' := ph[q := Joined][t.n := At(2, id)];
      Climbs(job, base, st, ph, id);
    } else {
      ph' := ph[q := Joined];
      Leaves(job, base, st, ph, id);
    }
    ToggleEffect(job, st, id);
  }

  /**
   Who stops and who goes on: the goroutine that finds the other side not yet joined stops, and the one
   that finds it joined goes on to combine, with the values of both children in the node.
   */
  lemma ToggleDecides(job: Job, base: map<Pos, Node>, st: State, ph: Progress, id: nat)
    requires Inv(job, base, st, ph) && id in st.tasks && st.tasks[id].pc.Toggle?
    ensures var t := st.tasks[id];
      CanStep(job, st, TheTask(id)) && t.n.k > 0 && t.n in TaskStep(job, st, id).nodes && t.n.Child(!t.isLeft) in ph
    ensures var t := st.tasks[id]; var st' := TaskStep(job, st, id); var second := ph[t.n.Child(!t.isLeft)].Joined?;
      && (id !in st'.tasks <==> !second)
      && (second ==> st'.tasks[id] == t.(pc := Combine) && HoldsBoth(job, st'.nodes[t.n], t.n))
  {
    TaskInPlace(job, base, st, ph, id);
    var t := st.tasks[id];
    var q, n := Place(t).0, t.n;
    CounterAt(job, base, st, ph, q);
    ToggleBetween(job, base, st, ph, id);
    hide Inv;
    hide ChildrenJoined;
    hide JoinedCount;
    BothKept(job, st.nodes[n], base[n].state, ph, n, t.isLeft);
    hide NodeGood;
    ToggleEffect(job, st, id);
  }

  /** The values of both children are in the node. */
  predicate HoldsBoth(job: Job, node: Node, n: Pos)
    requires |job.segs| > 0
  {
    && n.k > 0 && 2 * n.x + 1 <= Anc(job.Last(), n.k - 1)
    && node.left == job.Val(n.Child(true)) && node.right == job.Val(n.Child(false))
  }

  /** At a toggle both sides of the node have data, and the goroutine's own side is stored. */
  lemma ToggleBetween(job: Job, base: map<Pos, Node>, st: State, ph: Progress, id: nat)
    requires Inv(job, base, st, ph) && id in st.tasks && st.tasks[id].pc.Toggle?
    ensures var t := st.tasks[id]; var n := t.n;
      && n.k > 0 && job.Valid() && job.Active(n) && job.Balanced(n) && Place(t).0 == n.Child(t.isLeft)
      && n in ph && n in st.nodes && n in base && NodeGood(job, st.nodes[n], base[n].state, ph, n)
      && n.Child(true) in ph && n.Child(false) in ph && KeptAt(job, ph, n.Child(t.isLeft))
  {
    TaskInPlace(job, base, st, ph, id);
    var t := st.tasks[id];
    assert TaskGood(job, t);
    ActiveShape(job, t.n);
    assert NodeGood(job, st.nodes[t.n], base[t.n].state, ph, t.n);
  }

  lemma BothKept(job: Job, node: Node, base: int, ph: Progress, n: Pos, isLeft: bool)
    requires job.Valid() && n in ph && n.k > 0 && job.Active(n) && job.Balanced(n) && NodeGood(job, node, base, ph, n)
    requires n.Child(true) in ph && n.Child(false) in ph && KeptAt(job, ph, n.Child(isLeft))
    ensures ChildrenJoined(job, ph[n.Child(isLeft) := Joined], n) <==> ph[n.Child(!isLeft)].Joined?
    ensures ph[n.Child(!isLeft)].Joined? ==> HoldsBoth(job, node, n)
  {
    ActiveShape(job, n);
    if ph[n.Child(!isLeft)].Joined? { assert KeptAt(job, ph, n.Child(!isLeft)); }
  }

  lemma ToggleEffect(job: Job, st: State, id: nat)
    requires |job.segs| > 0 && id in st.tasks && st.tasks[id].pc.Toggle? && st.tasks[id].n in st.nodes
    ensures CanStep(job, st, TheTask(id))
    ensures var t := st.tasks[id]; var st' := TaskStep(job, st, id); var waits := Waits(Bump(st.nodes[t.n].state));
      && st'.nodes == Bumped(st.nodes, t.n)
      && st'.tasks == if waits then st.tasks - {id} else st.tasks[id := t.(pc := Combine)]
  {
  }

  function Combined(job: Job, node: Node, t: Task): Bytes {
    if !node.unbalanced || !t.isLeft || (t.i == 0 && t.d == 0) then job.h(node.left + node.right)
      else node.left + node.right
  }

  /** A busy node has both its sides in place, so combining them gives its value. */
  lemma CombineInner(job: Job, node: Node, base: int, ph: Progress, t: Task)
    requires job.Valid() && t.n in ph && t.n.k > 0 && TaskGood(job, t) && t.pc.Combine?
    requires NodeGood(job, node, base, ph, t.n) && ChildrenJoined(job, ph, t.n)
    requires node.unbalanced == !job.Balanced(t.n) && (node.unbalanced ==> node.right == [])
    ensures Combined(job, node, t) == job.Val(t.n)
  {
    ActiveShape(job, t.n);
    if node.unbalanced { assert node.left + node.right == node.left; }
  }

  lemma CombineLeaf(job: Job, node: Node, base: int, ph: Progress, t: Task)
    requires job.Valid() && t.n in ph && t.n.k == 0 && TaskGood(job, t) && t.pc.Combine?
    requires NodeGood(job, node, base, ph, t.n) && ph[t.n].At? && ph[t.n].stage == 2
    requires node.unbalanced && node.right == []
    ensures Combined(job, node, t) == job.Val(t.n)
  {
    assert node.left + node.right == node.left;
    assert job.depth == 0 ==> job.Last() == 0;
  }

  lemma CombineValue(job: Job, base: map<Pos, Node>, st: State, ph: Progress, id: nat)
    requires Inv(job, base, st, ph) && id in st.tasks && st.tasks[id].pc.Combine?
    ensures st.tasks[id].n in st.nodes
    ensures Combined(job, st.nodes[st.tasks[id].n], st.tasks[id]) == job.Val(st.tasks[id].n)
  {
    var t := st.tasks[id];
    TaskInPlace(job, base, st, ph, id);
    if t.n.k == 0 {
      LeafMarked(job, st, t);
      CombineLeaf(job, st.nodes[t.n], base[t.n].state, ph, t);
    } else {
      JoinedBelow(job, base, st, ph, t.n);
      hide Inv;
      hide NodeGood;
      FlagRight(job, base, st, ph, t.n.Child(true));
      CombineInner(job, st.nodes[t.n], base[t.n].state, ph, t);
    }
  }

  lemma JoinedBelow(job: Job, base: map<Pos, Node>, st: State, ph: Progress, n: Pos)
    requires Inv(job, base, st, ph) && n in ph && ph[n].At? && n.k > 0
    ensures job.Active(n) && ChildrenJoined(job, ph, n) && n.Child(true).Parent() == n && n.k <= job.Top()
    ensures n in st.nodes && n in base && NodeGood(job, st.nodes[n], base[n].state, ph, n)
    ensures st.nodes[n].unbalanced ==> st.nodes[n].right == []
  {
    assert NodeGood(job, st.nodes[n], base[n].state, ph, n);
    assert ChildrenJoined(job, ph, n);
  }

  lemma CombineStep(job: Job, base: map<Pos, Node>, st: State, ph: Progress, id: nat) returns (ph': Progress)
    requires Inv(job, base, st, ph) && id in st.tasks && st.tasks[id].pc.Combine?
    ensures CanStep(job, st, TheTask(id)) && Inv(job, base, TaskStep(job, st, id), ph')
  {
    TaskInPlace(job, base, st, ph, id);
    CombineValue(job, base, st, ph, id);
    var t := st.tasks[id];
    var t' := t.(pc := Test, s := job.Val(t.n));
    CombinedGood(job, t);
    Moved(job, base, st, ph, id, t');
    ph' := ph[t.n := At(3, id)];
    CombineEffect(job, st, id, job.Val(t.n));
  }

  lemma CombinedGood(job: Job, t: Task)
    requires job.Valid() && TaskGood(job, t) && t.pc.Combine?
    ensures TaskGood(job, t.(pc := Test, s := job.Val(t.n)))
  {
  }

  lemma CombineEffect(job: Job, st: State, id: nat, v: Bytes)
    requires |job.segs| > 0 && id in st.tasks && st.tasks[id].pc.Combine? && st.tasks[id].n in st.nodes
    requires Combined(job, st.nodes[st.tasks[id].n], st.tasks[id]) == v
    ensures CanStep(job, st, TheTask(id))
    ensures TaskStep(job, st, id) == st.(tasks := st.tasks[id := st.tasks[id].(pc := Test, s := v)])
  {
  }

  lemma SendEffect(job: Job, st: State, id: nat)
    requires |job.segs| > 0 && id in st.tasks && (st.tasks[id].pc.TestLeaf? || st.tasks[id].pc.Test?)
    requires st.tasks[id].n in st.nodes && st.nodes[st.tasks[id].n].root && st.caller.Waiting?
    ensures CanStep(job, st, TheTask(id))
    ensures TaskStep(job, st, id) == State(st.nodes, st.tasks - {id}, Received(st.tasks[id].s))
  {
  }

  /** The chunk's root finds the caller waiting and hands over the value of the whole chunk. */
  lemma SendStep(job: Job, base: map<Pos, Node>, st: State, ph: Progress, id: nat) returns (ph': Progress)
    requires Inv(job, base, st, ph) && id in st.tasks
    requires st.tasks[id].pc.TestLeaf? || st.tasks[id].pc.Test?
    requires st.tasks[id].n == Pos(job.Top(), 0)
    ensures CanStep(job, st, TheTask(id)) && Inv(job, base, TaskStep(job, st, id), ph')
  {
    TaskInPlace(job, base, st, ph, id);
    var q := st.tasks[id].n;
    RootSeesReceiver(job, base, st, ph, q);
    ph' := ph[q := Joined];
    TasksEnd(job, st.tasks, ph, id);
    OrderSent(job, st.caller, ph, q, st.tasks[id].s);
    NodesSent(job, st.nodes, base, ph, q);
    SendEffect(job, st, id);
    assert CallerGood(job, Received(st.tasks[id].s)) by { assert TaskGood(job, st.tasks[id]); }
    Assemble(job, base, st.nodes, st.tasks - {id}, Received(st.tasks[id].s), ph');
  }

  lemma OrderSent(job: Job, c: Caller, ph: Progress, q: Pos, s: Bytes)
    requires job.Valid() && OrderGood(job, c, ph) && q in ph && ph[q].At? && q == Pos(job.Top(), 0) && c.Waiting?
    requires forall p :: p in ph ==> job.Active(p)
    ensures OrderGood(job, Received(s), ph[q := Joined])
  {
    var ph' := ph[q := Joined];
    forall p | p in ph' && p.k > 0
      ensures ph'[p] != Idle <==> ChildrenJoined(job, ph', p)
    {
      assert ph[p] != Idle <==> ChildrenJoined(job, ph, p);
      assert p.k <= job.Top();
    }
  }

  lemma NodesSent(job: Job, nodes: map<Pos, Node>, base: map<Pos, Node>, ph: Progress, q: Pos)
    requires job.Valid() && NodesGood(job, nodes, base, ph) && q in ph && q == Pos(job.Top(), 0)
    requires forall p :: p in ph ==> job.Active(p)
    ensures NodesGood(job, nodes, base, ph[q := Joined])
  {
    var ph' := ph[q := Joined];
    forall p | p in ph'
      ensures NodeGood(job, nodes[p], base[p].state, ph', p)
    {
      assert NodeGood(job, nodes[p], base[p].state, ph, p);
      assert p.k <= job.Top();
      if p.k > 0 { assert p.Child(true) != q && p.Child(false) != q; }
    }
  }

  // --------------------------------------------------------- steps of the caller

  lemma LaunchGood(job: Job, c: Caller, ph: Progress, i: nat, d: nat)
    requires job.Valid() && i <= job.Last()
    requires i < job.Last() ==> d == job.depth
    requires i == job.Last() ==> d == job.Top() - job.Start()
    ensures var t := Launch(job, i, job.segs[i], d);
      && TaskGood(job, t) && Place(t).0 == Pos(0, i) && Place(t).1 in {0, 2}
      && (job.Short() && i == job.Last() ==> Place(t).1 == 0)
  {
    assert job.Active(Pos(0, i));
    assert job.Last() > 0 ==> job.depth > 0;
  }

  lemma LaunchStep(job: Job, base: map<Pos, Node>, st: State, ph: Progress) returns (ph': Progress)
    requires Inv(job, base, st, ph)
    requires (st.caller.Writing? && st.caller.next < job.Last()) || st.caller.Launching?
    ensures CanStep(job, st, TheCaller) && Inv(job, base, CallerStep(job, st), ph')
  {
    Parts(job, base, st, ph);
    hide Inv;
    hide FlagsGood;
    hide TasksGood;
    hide OrderGood;
    hide NodesGood;
    var i := if st.caller.Writing? then st.caller.next else job.Last();
    var d := if st.caller.Writing? then job.depth else st.caller.d;
    var c := if st.caller.Writing? then Writing(i + 1) else Waiting;
    var t := Launch(job, i, job.segs[i], d);
    LaunchGood(job, st.caller, ph, i, d);
    CallerLaunches(job, st.caller);
    LaunchEffect(job, st);
    hide TaskGood;
    hide Launch;
    hide CallerGood;
    hide Launched;
    hide Mark;
    hide CallerStep;
    Launches(job, base, st, ph, i, t, c);
    ph' := ph[Pos(0, i) := At(Place(t).1, i)];
  }

  lemma CallerLaunches(job: Job, c: Caller)
    requires job.Valid() && CallerGood(job, c) && ((c.Writing? && c.next < job.Last()) || c.Launching?)
    ensures var i := if c.Writing? then c.next else job.Last();
      var c' := if c.Writing? then Writing(i + 1) else Waiting;
      && !Launched(job, c, i) && CallerGood(job, c') && Mark(job, c') == Mark(job, c)
      && (forall x :: Launched(job, c', x) <==> Launched(job, c, x) || x == i)
  {
  }

  lemma LaunchEffect(job: Job, st: State)
    requires job.Valid() && ((st.caller.Writing? && st.caller.next < job.Last()) || st.caller.Launching?)
    ensures CanStep(job, st, TheCaller)
    ensures var i := if st.caller.Writing? then st.caller.next else job.Last();
      var d := if st.caller.Writing? then job.depth else st.caller.d;
      var c := if st.caller.Writing? then Writing(i + 1) else Waiting;
      CallerStep(job, st) == State(st.nodes, st.tasks[i := Launch(job, i, job.segs[i], d)], c)
  {
  }

  lemma Launches(job: Job, base: map<Pos, Node>, st: State, ph: Progress, i: nat, t: Task, c: Caller)
    requires Inv(job, base, st, ph) && i <= job.Last() && !Launched(job, st.caller, i)
    requires TaskGood(job, t) && Place(t).0 == Pos(0, i) && Place(t).1 in {0, 2}
    requires job.Short() && i == job.Last() ==> Place(t).1 == 0
    requires CallerGood(job, c) && Mark(job, c) == Mark(job, st.caller) && !c.Received? && !st.caller.Received?
    requires forall x :: Launched(job, c, x) <==> Launched(job, st.caller, x) || x == i
    ensures Inv(job, base, State(st.nodes, st.tasks[i := t], c), ph[Pos(0, i) := At(Place(t).1, i)])
  {
    var q := Pos(0, i);
    assert q in ph && ph[q] == Idle;
    Parts(job, base, st, ph);
    hide Inv;
    var f := At(Place(t).1, i);
    hide TaskGood;
    hide Usable;
    TasksSpawn(job, st.tasks, ph, i, t);
    hide TasksGood;
    OrderLaunch(job, st.caller, c, ph, q, f);
    hide OrderGood;
    NodesMove(job, st.nodes, base, ph, q, f);
    Assemble(job, base, st.nodes, st.tasks[i := t], c, ph[q := f]);
  }

  lemma OrderLaunch(job: Job, c: Caller, c': Caller, ph: Progress, q: Pos, f: Ph)
    requires job.Valid() && OrderGood(job, c, ph) && q in ph && q.k == 0 && ph[q] == Idle && f.At? && f.stage < 4
    requires forall x :: Launched(job, c', x) <==> Launched(job, c, x) || x == q.x
    requires !c.Received? && !c'.Received?
    ensures OrderGood(job, c', ph[q := f])
  {
    var ph' := ph[q := f];
    forall p | p in ph' && p.k > 0
      ensures ph'[p] != Idle <==> ChildrenJoined(job, ph', p)
    {
      assert ph[p] != Idle <==> ChildrenJoined(job, ph, p);
    }
  }

  lemma BeginSum(job: Job, base: map<Pos, Node>, st: State, ph: Progress)
    requires Inv(job, base, st, ph) && st.caller == Writing(job.Last())
    ensures CanStep(job, st, TheCaller) && Inv(job, base, CallerStep(job, st), ph)
  {
    HeightIsFirstZero(job.Last(), 0);
    var st' := CallerStep(job, st);
    assert Mark(job, st'.caller) == job.Start();
    OrderSame(job, st.caller, st'.caller, ph);
  }

  lemma OrderSame(job: Job, c: Caller, c': Caller, ph: Progress)
    requires job.Valid() && OrderGood(job, c, ph)
    requires forall x :: Launched(job, c', x) <==> Launched(job, c, x)
    requires c.Received? == c'.Received?
    ensures OrderGood(job, c', ph)
  {
  }

  lemma FlagsFinalised(job: Job, nodes: map<Pos, Node>, n: Pos, isLeft: bool)
    requires job.Valid() && n in nodes && job.Start() <= n.k <= job.Top() && job.OnPath(n)
    requires FlagsGood(job, nodes, n.k)
    requires isLeft <==> (n.k > 0 ==> Anc(job.Last(), n.k - 1) % 2 == 0)
    requires n.x == 0 <==> n.k == job.Top()
    ensures FlagsGood(job, nodes[n := nodes[n].(unbalanced := isLeft, right := [], root := nodes[n].root || n.x == 0)],
      n.k + 1)
  {
  }

  lemma FinaliseStep(job: Job, base: map<Pos, Node>, st: State, ph: Progress)
    requires Inv(job, base, st, ph) && st.caller.Finalising?
    ensures CanStep(job, st, TheCaller) && Inv(job, base, CallerStep(job, st), ph)
  {
    Parts(job, base, st, ph);
    var n := st.caller.n;
    assert n in ph && n in st.nodes by { assert job.Active(n); ActiveShape(job, n); }
    assert forall p :: p in ph <==> job.Active(p);
    hide Inv;
    hide TasksGood;
    hide Usable;
    HeightIsFirstZero(job.Last(), n.k);
    var node := st.nodes[n].(unbalanced := st.caller.isLeft, right := [], root := st.nodes[n].root || n.x == 0);
    var c := if n.x == 0 then Launching(st.caller.d) else Finalising(n.Parent(), n.x % 2 == 0, st.caller.d + 1);
    FlagsFinalised(job, st.nodes, n, st.caller.isLeft);
    hide FlagsGood;
    if n.k > 0 { PathRightIdle(job, st.caller, ph, n); }
    hide OrderGood;
    hide NodesGood;
    NodesFinalised(job, st.caller, st.nodes, base, ph, n, node);
    OrderSame(job, st.caller, c, ph);
    FinaliseEffect(job, st, node, c);
    Assemble(job, base, st.nodes[n := node], st.tasks, c, ph);
  }

  lemma FinaliseEffect(job: Job, st: State, node: Node, c: Caller)
    requires job.Valid() && st.caller.Finalising? && st.caller.n in st.nodes && CallerGood(job, st.caller)
    requires var n := st.caller.n;
      && node == st.nodes[n].(unbalanced := st.caller.isLeft, right := [], root := st.nodes[n].root || n.x == 0)
      && c == (if n.x == 0 then Launching(st.caller.d) else Finalising(n.Parent(), n.x % 2 == 0, st.caller.d + 1))
      && (n.x == 0 <==> n.k == job.Top())
    ensures CanStep(job, st, TheCaller) && CallerGood(job, c)
    ensures CallerStep(job, st) == State(st.nodes[st.caller.n := node], st.tasks, c)
  {
  }

  lemma Assemble(job: Job, base: map<Pos, Node>, nodes: map<Pos, Node>, tasks: map<nat, Task>, c: Caller, ph: Progress)
    requires job.Valid() && Usable(job, base)
    requires CallerGood(job, c) && FlagsGood(job, nodes, Mark(job, c))
    requires TasksGood(job, tasks, ph) && OrderGood(job, c, ph)
    requires forall id :: id in tasks ==> Launched(job, c, id)
    requires NodesGood(job, nodes, base, ph)
    ensures Inv(job, base, State(nodes, tasks, c), ph)
  {
  }

  /** Clearing the right side of a node on the last path destroys nothing: no one has written it. */
  lemma NodesFinalised(job: Job, c: Caller, nodes: map<Pos, Node>, base: map<Pos, Node>, ph: Progress, n: Pos,
                       node: Node)
    requires job.Valid() && NodesGood(job, nodes, base, ph) && n in nodes && n in ph && job.OnPath(n)
    requires n.k > 0 ==> RightIdle(job, ph, n)
    requires node.left == nodes[n].left && node.state == nodes[n].state
    ensures NodesGood(job, nodes[n := node], base, ph)
  {
    var nodes' := nodes[n := node];
    forall p | p in ph
      ensures NodeGood(job, nodes'[p], base[p].state, ph, p)
    {
      assert NodeGood(job, nodes[p], base[p].state, ph, p);
    }
  }

  ghost predicate RightIdle(job: Job, ph: Progress, n: Pos)
    requires |job.segs| > 0 && n.k > 0
  {
    !KeptAt(job, ph, n.Child(false))
  }

  lemma PathRightIdle(job: Job, c: Caller, ph: Progress, n: Pos)
    requires job.Valid() && OrderGood(job, c, ph) && !Launched(job, c, job.Last())
    requires forall p :: p in ph <==> job.Active(p)
    requires n.k > 0 && n in ph && job.OnPath(n)
    ensures RightIdle(job, ph, n)
  {
    PathIdle(job, c, ph, n.k - 1);
    var q := Pos(n.k - 1, Anc(job.Last(), n.k - 1));
    assert q.x % 2 == 0 ==> !job.Active(n.Child(false));
    assert q.x % 2 != 0 ==> n.Child(false) == q;
  }
}
