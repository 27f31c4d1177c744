/**
 What the concurrent hasher delivers under every schedule: it never gets stuck,
 it stops, the caller receives the chunk's value when no goroutine is left, and
 the tree handed back is clean.
 */
module BmtTheorem {
  import opened BmtRef
  import opened BmtTree
  import opened BmtProof

  lemma InitInv(job: Job, st: State) returns (ph: Progress)
    requires job.Valid() && Init(job, st)
    ensures Inv(job, st.nodes, st, ph)
  {
    ph := map p | p in st.nodes && job.Active(p) :: Idle;
    forall p | job.Active(p) ensures p in ph { ActiveShape(job, p); }
    forall p | p in ph && p.k > 0 ensures !ChildrenJoined(job, ph, p) { }
    forall p | p in ph ensures NodeGood(job, st.nodes[p], st.nodes[p].state, ph, p) { }
    HeightWithin(job.Last(), job.depth);
    assert FlagsGood(job, st.nodes, job.Start());
    Assemble(job, st.nodes, st.nodes, st.tasks, st.caller, ph);
  }

  /** Every goroutine can always take its next step, and keeps the invariant. */
  lemma TaskKeeps(job: Job, base: map<Pos, Node>, st: State, ph: Progress, id: nat) returns (ph': Progress)
    requires Inv(job, base, st, ph) && id in st.tasks
    ensures CanStep(job, st, TheTask(id)) && Inv(job, base, TaskStep(job, st, id), ph')
  {
    var t := st.tasks[id];
    match t.pc
    case HashLeaf => ph' := HashLeafStep(job, base, st, ph, id);
    case Store => ph' := StoreStep(job, base, st, ph, id);
    case Check => ph' := CheckStep(job, base, st, ph, id);
    case Toggle => ph' := ToggleStep(job, base, st, ph, id);
    case Combine => ph' := CombineStep(job, base, st, ph, id);
    case _ =>
      if t.n == Pos(job.Top(), 0) {
        ph' := SendStep(job, base, st, ph, id);
      } else {
        ph' := TestStep(job, base, st, ph, id);
      }
  }

  lemma CallerKeeps(job: Job, base: map<Pos, Node>, st: State, ph: Progress) returns (ph': Progress)
    requires Inv(job, base, st, ph) && !st.caller.Received? && CanStep(job, st, TheCaller)
    ensures Inv(job, base, CallerStep(job, st), ph')
  {
    if st.caller.Finalising? {
      FinaliseStep(job, base, st, ph);
      ph' := ph;
    } else if st.caller.Launching? || st.caller.next < job.Last() {
      ph' := LaunchStep(job, base, st, ph);
    } else {
      BeginSum(job, base, st, ph);
      ph' := ph;
    }
  }

  /** When the caller has its result, no goroutine is left and every position was joined. */
  lemma ReceivedIsLast(job: Job, base: map<Pos, Node>, st: State, ph: Progress)
    requires Inv(job, base, st, ph) && st.caller.Received?
    ensures st.tasks == map[]
    ensures forall p :: p in ph ==> ph[p].Joined?
  {
    HeightIsFirstZero(job.Last(), job.Top());
    assert job.Active(Pos(job.Top(), 0));
    forall p | p in ph ensures ph[p].Joined? { AllJoined(job, st.caller, ph, p); }
    forall id | id in st.tasks ensures false { TaskInPlace(job, base, st, ph, id); }
  }

  // -------------------------------------------------------------------- release

  function Cleared(job: Job, node: Node, p: Pos): Node {
    node.(unbalanced := false, root := node.root && p.k >= job.depth)
  }

  lemma {:induction false} ClearEffect(job: Job, nodes: map<Pos, Node>, k: nat)
    requires job.Valid() && k <= job.depth && forall p :: p in nodes <==> job.InTree(p)
    ensures var nodes' := Clear(job, nodes, Pos(k, Anc(job.Last(), k)));
      forall p :: (p in nodes' <==> p in nodes) && (p in nodes ==>
        nodes'[p] == if p.k >= k && job.OnPath(p) then Cleared(job, nodes[p], p) else nodes[p])
    decreases job.depth - k
  {
    var p := Pos(k, Anc(job.Last(), k));
    AncWithin(job.Last(), k, job.depth);
    var nodes' := nodes[p := Cleared(job, nodes[p], p)];
    if k < job.depth {
      ClearEffect(job, nodes', k + 1);
      assert p.Parent() == Pos(k + 1, Anc(job.Last(), k + 1));
      assert Clear(job, nodes, p) == Clear(job, nodes', p.Parent());
      hide Clear;
    }
  }

  /** A node whose counter one use of the tree bumps. */
  ghost predicate Used(job: Job, p: Pos)
    requires |job.segs| > 0
  {
    job.Active(p) && p.k > 0 && job.Balanced(p)
  }

  lemma ReleaseClean(job: Job, base: map<Pos, Node>, st: State, ph: Progress)
    requires Inv(job, base, st, ph) && st.caller.Received?
    ensures var st' := CallerStep(job, st);
      Clean(job, st'.nodes) && CountersMoved(job, base, st'.nodes)
  {
    hide Inv;
    hide Clean;
    hide CountersMoved;
    hide FlagsGood;
    CountersDone(job, base, st, ph);
    CleanAgain(job, base, st.nodes);
    assert CallerStep(job, st).nodes == Clear(job, st.nodes, Pos(0, job.Last()));
  }

  lemma CleanAgain(job: Job, base: map<Pos, Node>, nodes: map<Pos, Node>)
    requires job.Valid() && FlagsGood(job, nodes, job.Top() + 1) && forall p :: p in base <==> p in nodes
    requires CountersMoved(job, base, nodes) && forall p :: p in nodes ==> nodes[p].state % 2 == 0
    ensures var nodes' := Clear(job, nodes, Pos(0, job.Last()));
      Clean(job, nodes') && CountersMoved(job, base, nodes')
  {
    FlagsCleared(job, nodes);
    var nodes' := Clear(job, nodes, Pos(0, job.Last()));
    hide FlagsGood;
    hide Used;
    hide After;
    forall p | p in base ensures p in nodes' && nodes'[p].state == nodes[p].state {
      assert p in nodes && job.InTree(p);
    }
    forall p ensures p in nodes' ==> nodes'[p].state % 2 == 0 { }
  }

  lemma CountersDone(job: Job, base: map<Pos, Node>, st: State, ph: Progress)
    requires Inv(job, base, st, ph) && st.caller.Received?
    ensures CountersMoved(job, base, st.nodes) && forall p :: p in st.nodes ==> st.nodes[p].state % 2 == 0
    ensures job.Valid() && FlagsGood(job, st.nodes, job.Top() + 1) && forall p :: p in base <==> p in st.nodes
  {
    ReceivedIsLast(job, base, st, ph);
    forall p | p in base
      ensures p in st.nodes && st.nodes[p].state == if Used(job, p) then After(base[p].state, 2) else base[p].state
      ensures st.nodes[p].state % 2 == 0
    {
      CounterDone(job, base, st, ph, p);
      FirstWaitsSecondGoes(base[p].state);
    }
    assert forall p :: p in base <==> p in st.nodes;
  }

  /** releaseTree takes away every mark that finalise has made, and touches no counter. */
  lemma FlagsCleared(job: Job, nodes: map<Pos, Node>)
    requires job.Valid() && FlagsGood(job, nodes, job.Top() + 1)
    ensures var nodes' := Clear(job, nodes, Pos(0, job.Last()));
      forall p :: (p in nodes' <==> job.InTree(p)) && (p in nodes' ==>
        p in nodes && nodes'[p].state == nodes[p].state && !nodes'[p].unbalanced
          && nodes'[p].root == (p.k == job.depth))
  {
    ClearEffect(job, nodes, 0);
    HeightIsFirstZero(job.Last(), job.Top());
  }

  lemma CounterDone(job: Job, base: map<Pos, Node>, st: State, ph: Progress, p: Pos)
    requires Inv(job, base, st, ph) && p in base && forall q :: q in ph ==> ph[q].Joined?
    ensures p in st.nodes && st.nodes[p].state == if Used(job, p) then After(base[p].state, 2) else base[p].state
  {
    if p in ph {
      ActiveShape(job, p);
      assert NodeGood(job, st.nodes[p], base[p].state, ph, p);
    }
  }

  // ------------------------------------------------------------------ schedules

  /** Every step of the schedule can be taken when its turn comes. */
  ghost predicate Runs(job: Job, st: State, schedule: seq<Who>)
    requires |job.segs| > 0
    decreases |schedule|
  {
    schedule == [] || (CanStep(job, st, schedule[0]) && Runs(job, Step(job, st, schedule[0]), schedule[1..]))
  }

  ghost function Exec(job: Job, st: State, schedule: seq<Who>): State
    requires |job.segs| > 0 && Runs(job, st, schedule)
    decreases |schedule|
  {
    if schedule == [] then st else Exec(job, Step(job, st, schedule[0]), schedule[1..])
  }

  /** The value of the whole chunk. */
  function ChunkValue(job: Job): Bytes
    requires |job.segs| > 0
  {
    HeightIsFirstZero(job.Last(), job.Top());
    job.Val(Pos(job.Top(), 0))
  }

  /** One use of the tree bumps the counters of the balanced inner nodes twice and no other. */
  ghost predicate CountersMoved(job: Job, base: map<Pos, Node>, nodes: map<Pos, Node>)
    requires |job.segs| > 0
  {
    forall p :: p in base ==>
      p in nodes && nodes[p].state == if Used(job, p) then After(base[p].state, 2) else base[p].state
  }

  /** What is promised of every state that some schedule reaches. */
  ghost predicate Delivered(job: Job, base: map<Pos, Node>, st: State)
    requires |job.segs| > 0
  {
    && (st.caller.Received? || st.caller.Released? ==> st.caller.c == ChunkValue(job) && st.tasks == map[])
    && (st.caller.Released? ==> Clean(job, st.nodes) && CountersMoved(job, base, st.nodes))
  }

  /** The invariant holds, or the tree has been released and nothing more can happen. */
  ghost predicate Good(job: Job, base: map<Pos, Node>, st: State) {
    && job.Valid()
    && Delivered(job, base, st)
    && (st.caller.Released? || exists ph :: Inv(job, base, st, ph))
  }

  lemma InvGood(job: Job, base: map<Pos, Node>, st: State, ph: Progress)
    requires Inv(job, base, st, ph)
    ensures Good(job, base, st)
  {
    if st.caller.Received? { ReceivedIsLast(job, base, st, ph); }
  }

  lemma StepGood(job: Job, base: map<Pos, Node>, st: State, who: Who)
    requires Good(job, base, st) && CanStep(job, st, who)
    ensures Good(job, base, Step(job, st, who))
  {
    if !st.caller.Released? {
      var ph :| Inv(job, base, st, ph);
      if who.TheTask? {
        var ph' := TaskKeeps(job, base, st, ph, who.id);
        InvGood(job, base, Step(job, st, who), ph');
      } else if !st.caller.Received? {
        var ph' := CallerKeeps(job, base, st, ph);
        InvGood(job, base, Step(job, st, who), ph');
      } else {
        ReceivedIsLast(job, base, st, ph);
        ReleaseClean(job, base, st, ph);
      }
    }
  }

  lemma {:induction false} ScheduleGood(job: Job, base: map<Pos, Node>, st: State, schedule: seq<Who>)
    requires Good(job, base, st) && Runs(job, st, schedule)
    ensures Good(job, base, Exec(job, st, schedule))
    decreases |schedule|
  {
    if schedule != [] {
      StepGood(job, base, st, schedule[0]);
      ScheduleGood(job, base, Step(job, st, schedule[0]), schedule[1..]);
    }
  }

  lemma InitGood(job: Job, st: State)
    requires job.Valid() && Init(job, st)
    ensures Good(job, st.nodes, st)
  {
    var ph := InitInv(job, st);
    InvGood(job, st.nodes, st, ph);
  }

  /** Main theorem, safety: whatever the schedule, only the chunk's value is ever received, and cleanly. */
  lemma EveryScheduleDelivers(job: Job, st: State, schedule: seq<Who>)
    requires job.Valid() && Init(job, st) && Runs(job, st, schedule)
    ensures Delivered(job, st.nodes, Exec(job, st, schedule))
  {
    InitGood(job, st);
    ScheduleGood(job, st.nodes, st, schedule);
  }

  /** Main theorem, progress: until the tree is released, someone can step. */
  lemma NeverStuck(job: Job, st: State, schedule: seq<Who>) returns (who: Who)
    requires job.Valid() && Init(job, st) && Runs(job, st, schedule)
    requires !Exec(job, st, schedule).caller.Released?
    ensures CanStep(job, Exec(job, st, schedule), who)
  {
    InitGood(job, st);
    ScheduleGood(job, st.nodes, st, schedule);
    var last := Exec(job, st, schedule);
    var ph :| Inv(job, st.nodes, last, ph);
    who := Ready(job, st.nodes, last, ph);
  }

  lemma Ready(job: Job, base: map<Pos, Node>, st: State, ph: Progress) returns (who: Who)
    requires Inv(job, base, st, ph)
    ensures CanStep(job, st, who)
  {
    who := TheCaller;
    if st.caller.Waiting? {
      HeightIsFirstZero(job.Last(), job.Top());
      var id := WaitingHasTask(job, base, st, ph, Pos(job.Top(), 0));
      var ph' := TaskKeeps(job, base, st, ph, id);
      who := TheTask(id);
    } else if st.caller.Finalising? {
      ActiveShape(job, st.caller.n);
    }
  }

  /** Below an unfinished position some goroutine is at work, once all segments are launched. */
  lemma {:induction false} WaitingHasTask(job: Job, base: map<Pos, Node>, st: State, ph: Progress, p: Pos)
    returns (id: nat)
    requires Inv(job, base, st, ph) && st.caller.Waiting? && job.Active(p) && p in ph && !ph[p].Joined?
    ensures id in st.tasks
    decreases p.k
  {
    assert p in ph;
    if ph[p].At? {
      id := ph[p].id;
    } else {
      ActiveShape(job, p);
      assert p.k == 0 || !ChildrenJoined(job, ph, p);
      var left := !ph[p.Child(true)].Joined?;
      id := WaitingHasTask(job, base, st, ph, p.Child(left));
    }
  }

  // ---------------------------------------------------------------- termination

  /** An upper bound on the steps that one goroutine can still take. */
  function TaskLoad(job: Job, t: Task): nat
    requires |job.segs| > 0 && t.n.k <= job.Top()
  {
    5 * (job.Top() - t.n.k) +
    match t.pc
    case HashLeaf => 2
    case TestLeaf => 1
    case Store => 5
    case Check => 4
    case Toggle => 3
    case Combine => 2
    case Test => 1
  }

  function LaunchLoad(job: Job): nat
    requires |job.segs| > 0
  {
    5 * job.Top() + 6
  }

  function LaunchesLoad(job: Job, n: nat): nat
    requires |job.segs| > 0
  {
    if n == 0 then 0 else LaunchesLoad(job, n - 1) + LaunchLoad(job)
  }

  lemma {:induction false} LaunchesLoadIs(job: Job, n: nat)
    requires |job.segs| > 0
    ensures LaunchesLoad(job, n) == n * LaunchLoad(job)
  {
    if n > 0 {
      LaunchesLoadIs(job, n - 1);
      var b := LaunchLoad(job);
      assert n * b == (n - 1) * b + b;
    }
  }

  function CallerLoad(job: Job, c: Caller): nat
    requires |job.segs| > 0
    requires c.Writing? ==> c.next <= job.Last()
    requires c.Finalising? ==> c.n.k <= job.Top()
  {
    match c
    case Writing(next) => LaunchesLoad(job, job.Last() - next) + job.Top() + 5 + LaunchLoad(job)
    case Finalising(n, _, _) => job.Top() - n.k + 4 + LaunchLoad(job)
    case Launching(_) => 3 + LaunchLoad(job)
    case Waiting => 3
    case Received(_) => 1
    case Released(_) => 0
  }

  /** The load of the goroutines numbered below n. */
  function TasksLoad(job: Job, tasks: map<nat, Task>, n: nat): nat
    requires |job.segs| > 0 && forall id :: id in tasks ==> tasks[id].n.k <= job.Top()
  {
    if n == 0 then 0
    else TasksLoad(job, tasks, n - 1) + if n - 1 in tasks then TaskLoad(job, tasks[n - 1]) else 0
  }

  /** The state is one whose load is defined. */
  ghost predicate Bounded(job: Job, st: State) {
    && |job.segs| > 0
    && (st.caller.Writing? ==> st.caller.next <= job.Last())
    && (st.caller.Finalising? ==> st.caller.n.k <= job.Top())
    && (forall id :: id in st.tasks ==> id <= job.Last() && st.tasks[id].n.k <= job.Top())
  }

  ghost function Load(job: Job, st: State): nat
    requires Bounded(job, st)
  {
    CallerLoad(job, st.caller) + TasksLoad(job, st.tasks, job.Last() + 1)
  }

  lemma {:induction false} LoadChange(job: Job, tasks: map<nat, Task>, tasks': map<nat, Task>, id: nat, n: nat)
    requires |job.segs| > 0
    requires forall i :: i in tasks ==> tasks[i].n.k <= job.Top()
    requires forall i :: i in tasks' ==> tasks'[i].n.k <= job.Top()
    requires forall i: nat :: i != id ==> (i in tasks <==> i in tasks') && (i in tasks ==> tasks[i] == tasks'[i])
    ensures TasksLoad(job, tasks', n) - TasksLoad(job, tasks, n) ==
      if id < n then (if id in tasks' then TaskLoad(job, tasks'[id])
        else 0) - (if id in tasks then TaskLoad(job, tasks[id]) else 0) else 0
  {
    if n > 0 { LoadChange(job, tasks, tasks', id, n - 1); }
  }

  lemma InvBounded(job: Job, base: map<Pos, Node>, st: State, ph: Progress)
    requires Inv(job, base, st, ph)
    ensures Bounded(job, st)
  {
  }

  lemma LaunchLowers(job: Job, st: State, i: nat, d: nat, c: Caller)
    requires job.Valid() && Bounded(job, st) && i !in st.tasks
    requires (i < job.Last() && st.caller == Writing(i) && c == Writing(i + 1))
      || (i == job.Last() && st.caller.Launching? && c == Waiting)
    ensures var st' := State(st.nodes, st.tasks[i := Launch(job, i, job.segs[i], d)], c);
      Bounded(job, st') && Load(job, st') < Load(job, st)
  {
    LoadChange(job, st.tasks, st.tasks[i := Launch(job, i, job.segs[i], d)], i, job.Last() + 1);
    if st.caller.Writing? {
      assert LaunchesLoad(job, job.Last() - i) == LaunchesLoad(job, job.Last() - i - 1) + LaunchLoad(job);
    }
  }

  lemma TaskLowers(job: Job, st: State, id: nat)
    requires Bounded(job, st) && CanStep(job, st, TheTask(id)) && Bounded(job, TaskStep(job, st, id))
    ensures Load(job, TaskStep(job, st, id)) < Load(job, st)
  {
    TaskLighter(job, st, id);
    var st' := TaskStep(job, st, id);
    hide TaskStep;
    hide CanStep;
    LoadChange(job, st.tasks, st'.tasks, id, job.Last() + 1);
    hide TaskLoad;
  }

  /** A step touches one goroutine only, and leaves it less to do. */
  lemma TaskLighter(job: Job, st: State, id: nat)
    requires Bounded(job, st) && CanStep(job, st, TheTask(id)) && Bounded(job, TaskStep(job, st, id))
    ensures var st' := TaskStep(job, st, id);
      && CallerLoad(job, st'.caller) <= CallerLoad(job, st.caller)
      && (forall i: nat :: i != id ==>
           (i in st.tasks <==> i in st'.tasks) && (i in st.tasks ==> st.tasks[i] == st'.tasks[i]))
      && (id in st'.tasks ==> TaskLoad(job, st'.tasks[id]) < TaskLoad(job, st.tasks[id]))
    ensures TaskLoad(job, st.tasks[id]) > 0
  {
  }

  /** Steps of the caller that launch nothing. */
  lemma CallerLowers(job: Job, st: State)
    requires Bounded(job, st) && CanStep(job, st, TheCaller) && Bounded(job, CallerStep(job, st))
    requires st.caller.Finalising? || st.caller == Writing(job.Last()) || st.caller.Received?
    ensures Load(job, CallerStep(job, st)) < Load(job, st)
  {
  }

  /** Every step of every run lowers the load. */
  lemma StepLowers(job: Job, base: map<Pos, Node>, st: State, ph: Progress, who: Who)
    requires Inv(job, base, st, ph) && CanStep(job, st, who)
    ensures Bounded(job, st) && Bounded(job, Step(job, st, who))
    ensures Load(job, Step(job, st, who)) < Load(job, st)
  {
    InvBounded(job, base, st, ph);
    if who.TheTask? {
      var ph' := TaskKeeps(job, base, st, ph, who.id);
      InvBounded(job, base, TaskStep(job, st, who.id), ph');
      TaskLowers(job, st, who.id);
    } else if st.caller.Launching? || (st.caller.Writing? && st.caller.next < job.Last()) {
      LaunchStepLowers(job, base, st, ph);
    } else if st.caller.Received? {
      CallerLowers(job, st);
    } else {
      var ph' := CallerKeeps(job, base, st, ph);
      InvBounded(job, base, CallerStep(job, st), ph');
      CallerLowers(job, st);
    }
  }

  lemma LaunchStepLowers(job: Job, base: map<Pos, Node>, st: State, ph: Progress)
    requires Inv(job, base, st, ph) && Bounded(job, st)
    requires st.caller.Launching? || (st.caller.Writing? && st.caller.next < job.Last())
    ensures Bounded(job, CallerStep(job, st)) && Load(job, CallerStep(job, st)) < Load(job, st)
  {
    assert job.Valid();
    var next := if st.caller.Writing? then st.caller.next else job.Last();
    assert next !in st.tasks by { assert !Launched(job, st.caller, next); }
    hide Inv;
    LaunchEffect(job, st);
    hide Launched;
    hide CallerStep;
    var d := if st.caller.Writing? then job.depth else st.caller.d;
    LaunchLowers(job, st, next, d, if st.caller.Writing? then Writing(next + 1) else Waiting);
  }

  lemma {:induction false} RunIsShort(job: Job, base: map<Pos, Node>, st: State, schedule: seq<Who>)
    requires Good(job, base, st) && Runs(job, st, schedule) && Bounded(job, st)
    ensures |schedule| <= Load(job, st)
    decreases |schedule|
  {
    if schedule != [] {
      assert !st.caller.Released?;
      var ph :| Inv(job, base, st, ph);
      StepLowers(job, base, st, ph, schedule[0]);
      StepGood(job, base, st, schedule[0]);
      RunIsShort(job, base, Step(job, st, schedule[0]), schedule[1..]);
    }
  }

  /** Main theorem, termination: no schedule is longer than this bound. */
  lemma EveryScheduleStops(job: Job, st: State, schedule: seq<Who>)
    requires job.Valid() && Init(job, st) && Runs(job, st, schedule)
    ensures |schedule| <= |job.segs| * LaunchLoad(job) + job.Top() + 5
  {
    InitGood(job, st);
    RunIsShort(job, st.nodes, st, schedule);
    InitLoad(job, st);
  }

  lemma InitLoad(job: Job, st: State)
    requires |job.segs| > 0 && st.tasks == map[] && st.caller == Writing(0)
    ensures Load(job, st) == |job.segs| * LaunchLoad(job) + job.Top() + 5
  {
    NoTasks(job, job.Last() + 1);
    LaunchesLoadIs(job, job.Last());
    var a, b := job.Last(), LaunchLoad(job);
    assert (a + 1) * b == a * b + b;
  }

  lemma {:induction false} NoTasks(job: Job, n: nat)
    requires |job.segs| > 0
    ensures TasksLoad(job, map[], n) == 0
  {
    if n > 0 { NoTasks(job, n - 1); }
  }

  // ------------------------------------------------------ how long a tree lasts

  /** The 32-bit counter separates the two arrivals at a node exactly while it has not wrapped. */
  lemma ToggleAlternates(base: int)
    requires -MAX_INT32 - 1 <= base <= MAX_INT32 && base % 2 == 0
    ensures Waits(After(base, 1)) && !Waits(After(base, 2)) <==> base >= 0
  {
  }

  /** A released tree can be used again exactly when no counter it bumped was at its last positive value. */
  lemma UsableAgain(job: Job, st: State, schedule: seq<Who>)
    requires job.Valid() && Init(job, st) && Runs(job, st, schedule)
    requires Exec(job, st, schedule).caller.Released?
    ensures Usable(job, Exec(job, st, schedule).nodes) <==>
            forall p :: p in st.nodes && Used(job, p) ==> st.nodes[p].state < MAX_INT32 - 1
  {
    EveryScheduleDelivers(job, st, schedule);
    var nodes := Exec(job, st, schedule).nodes;
    forall p | p in st.nodes
      ensures p in nodes
      ensures 0 <= nodes[p].state <= MAX_INT32 <==> (Used(job, p) ==> st.nodes[p].state < MAX_INT32 - 1)
    {
      assert st.nodes[p].state % 2 == 0;
    }
  }

  /** A chunk of two double segments, and a clean tree whose inner counter is at its last positive even value. */
  function WornJob(): Job { Job((b: Bytes) => b, 1, 1, [[0, 0], [0, 0]]) }

  function WornState(): State {
    State(map[Pos(0, 0) := Node(false, false, 0, [], []), Pos(0, 1) := Node(false, false, 0, [], []),
              Pos(1, 0) := Node(true, false, MAX_INT32 - 1, [], [])], map[], Writing(0))
  }

  /** That tree is usable once more and never again: afterwards neither goroutine would wait at the node. */
  lemma WornOut(schedule: seq<Who>)
    ensures WornJob().Valid() && Init(WornJob(), WornState())
    ensures Runs(WornJob(), WornState(), schedule) && Exec(WornJob(), WornState(), schedule).caller.Released? ==>
      !Usable(WornJob(), Exec(WornJob(), WornState(), schedule).nodes)
    ensures !Waits(Bump(After(MAX_INT32 - 1, 2)))
  {
    WornUsable();
    var job, st, n := WornJob(), WornState(), Pos(1, 0);
    hide Init;
    if Runs(job, st, schedule) && Exec(job, st, schedule).caller.Released? { UsableAgain(job, st, schedule); }
  }

  lemma WornUsable()
    ensures WornJob().Valid() && Init(WornJob(), WornState()) && Used(WornJob(), Pos(1, 0))
  {
    assert WornState().tasks == map[] && WornState().caller == Writing(0);
    forall p ensures WornAt(p) { WornPlaces(p); }
    WornShape();
    assert WornJob().Valid() by { assert Pow2(0) == 1 && Pow2(1) == 2; }
    hide WornState;
    hide Used;
  }

  /** What Init asks of one place of the tree. */
  ghost predicate WornAt(p: Pos) {
    var nodes := WornState().nodes;
    && (p in nodes <==> WornJob().InTree(p))
    && (p in nodes ==> var node := nodes[p];
         && !node.unbalanced && node.root == (p.k == WornJob().depth)
         && node.state % 2 == 0 && 0 <= node.state <= MAX_INT32)
  }

  lemma WornPlaces(p: Pos)
    ensures WornAt(p)
  {
    assert Pow2(0) == 1 && Pow2(1) == 2;
    if p.k <= 1 { assert p in WornState().nodes <==> (if p.k == 0 then p.x < 2 else p.x < 1); }
  }

  lemma WornShape()
    ensures WornJob().Top() == 1 && Used(WornJob(), Pos(1, 0))
  {
    assert Height(1) == 1 + Height(0);
    assert Anc(1, 1) == Anc(1, 0) / 2;
  }
}
