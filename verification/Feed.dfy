/**
 The subscription feed of feed.go as a protocol of atomic steps: what happens under the
 mutex or the send lock is one step, and steps of subscribers, unsubscribers and senders
 interleave in any order. No channel is subscribed while it is subscribed already; it may
 be subscribed again after its removal. Values are told apart by the number of their Send.
 */
module Feed {
  type Chan = nat

  /** An entry of a caseList: the receive case at the front, or a subscriber's send case. */
  datatype Case = RemoveSub | Sub(ch: Chan)

  const FIRST: nat := 1

  /** How far a subscription has got: subscribed, unsubscribing past the check of the inbox, or removed. */
  datatype Status = Live | Removing | Gone

  /** Who has the send lock; a sender first takes it, then merges the inbox, then delivers. */
  datatype Lock = Open | Taken | Sending | Deleting(ch: Chan)

  /**
   cases is the length of the prefix of sendCases that has not been chosen yet: both are slices of one
   array. results are what the Sends have returned so far. log records the deliveries with the number of their
   Send; only proofs look at it.
   */
  datatype State = State(
    inbox: seq<Case>, sendCases: seq<Case>, cases: nat, lock: Lock, subs: map<Chan, Status>, nsent: nat,
    results: seq<nat>, log: seq<(nat, Chan)>)

  datatype Step =
    | Subscribe(ch: Chan)
    | CheckInbox(ch: Chan)      // remove, under the mutex
    | TakeLock                  // Send
    | Merge                     // Send, under the mutex
    | Deliver(index: nat)       // a send case is chosen, with or without blocking
    | HandOver(ch: Chan)        // remove gives its channel to a Send in progress
    | LockForRemove(ch: Chan)   // remove finds no Send in progress
    | RemoveLocked
    | Finish                    // Send

  // -------------------------------------------------------------- case lists

  /** caseList.find; |cs| stands for -1. */
  function Find(cs: seq<Case>, ch: Chan): (i: nat)
    ensures i <= |cs|
  {
    if cs == [] then 0 else if cs[0] == Sub(ch) then 0 else 1 + Find(cs[1..], ch)
  }

  lemma {:induction false} FindFirst(cs: seq<Case>, ch: Chan)
    ensures var i := Find(cs, ch); if i < |cs| then cs[i] == Sub(ch) && Sub(ch) !in cs[..i] else Sub(ch) !in cs
  {
    if cs != [] && cs[0] != Sub(ch) { FindFirst(cs[1..], ch); }
  }

  function Delete(cs: seq<Case>, i: nat): seq<Case>
    requires i < |cs|
  {
    cs[..i] + cs[i + 1..]
  }

  /** caseList.deactivate on the first k cases. */
  function Deactivate(cs: seq<Case>, k: nat, i: nat): seq<Case>
    requires i < k <= |cs|
  {
    cs[i := cs[k - 1]][k - 1 := cs[i]]
  }

  // The same in place: sendCases and cases are the first len and the first k elements of one array.

  method FindIn(a: array<Case>, len: nat, ch: Chan) returns (index: int)
    requires len <= a.Length
    ensures index == if Find(a[..len], ch) == len then -1 else Find(a[..len], ch)
  {
    index := 0;
    while index < len
      invariant 0 <= index <= len && Sub(ch) !in a[..index]
    {
      if a[index] == Sub(ch) {
        FindIs(a[..len], ch, index);
        return;
      }
      index := index + 1;
    }
    FindFirst(a[..len], ch);
    return -1;
  }

  lemma FindIs(cs: seq<Case>, ch: Chan, i: nat)
    requires i < |cs| && cs[i] == Sub(ch) && Sub(ch) !in cs[..i]
    ensures Find(cs, ch) == i
  {
    FindFirst(cs, ch);
    var k := Find(cs, ch);
    assert forall j :: 0 <= j < i ==> cs[j] in cs[..i];
    assert forall j :: 0 <= j < k ==> cs[j] in cs[..k];
  }

  /** append(cs[:index], cs[index+1:]...) moves the rest of the array down. */
  method DeleteIn(a: array<Case>, len: nat, index: nat)
    requires index < len <= a.Length
    modifies a
    ensures a[..len - 1] == Delete(old(a[..len]), index) && a[len..] == old(a[len..])
  {
    var i := index;
    while i + 1 < len
      invariant index <= i < len
      invariant forall j :: 0 <= j < a.Length ==> a[j] == if index <= j < i then old(a[j + 1]) else old(a[j])
    {
      a[i] := a[i + 1];
      i := i + 1;
    }
  }

  method DeactivateIn(a: array<Case>, len: nat, k: nat, index: nat)
    requires index < k <= len <= a.Length
    modifies a
    ensures a[..len] == Deactivate(old(a[..len]), k, index) && a[len..] == old(a[len..])
  {
    a[index], a[k - 1] := a[k - 1], a[index];
  }

  function Chans(cs: seq<Case>): set<Chan> { set c | c in cs && c.Sub? :: c.ch }

  // ------------------------------------------------------------------- steps

  ghost predicate Enabled(s: State, step: Step) {
    match step
    case Subscribe(ch) => ch in s.subs ==> s.subs[ch] == Gone
    case CheckInbox(ch) => ch in s.subs && s.subs[ch] == Live
    case TakeLock => s.lock == Open
    case Merge => s.lock == Taken
    case Deliver(i) => s.lock == Sending && FIRST <= i < s.cases
    case HandOver(ch) => s.lock == Sending && s.cases > FIRST && ch in s.subs && s.subs[ch] == Removing
    case LockForRemove(ch) => s.lock == Open && ch in s.subs && s.subs[ch] == Removing
    case RemoveLocked => s.lock.Deleting?
    case Finish => s.lock == Sending && s.cases == FIRST
  }

  /** The step, unless find fails or an index is out of range. */
  datatype Outcome = Panics | Next(s: State)

  function Do(s: State, step: Step): Outcome {
    match step
    case Subscribe(ch) => Next(s.(inbox := s.inbox + [Sub(ch)], subs := s.subs[ch := Live]))
    case CheckInbox(ch) =>
      var i := Find(s.inbox, ch);
      if i < |s.inbox| then Next(Removed(s.(inbox := Delete(s.inbox, i)), ch))
        else Next(s.(subs := s.subs[ch := Removing]))
    case TakeLock => Next(s.(lock := Taken))
    case Merge =>
      Next(s.(sendCases := s.sendCases + s.inbox, inbox := [], cases := |s.sendCases + s.inbox|, lock := Sending,
              nsent := 0))
    case Deliver(i) =>
      if i < s.cases <= |s.sendCases| && s.sendCases[i].Sub? then
        Next(s.(sendCases := Deactivate(s.sendCases, s.cases, i), cases := s.cases - 1, nsent := s.nsent + 1,
                log := s.log + [(|s.results|, s.sendCases[i].ch)]))
      else Panics
    case HandOver(ch) =>
      var i := Find(s.sendCases, ch);
      if i == |s.sendCases| then Panics
      else Next(Removed(s.(sendCases := Delete(s.sendCases, i), cases := if i < s.cases then s.cases - 1 else s.cases),
                        ch))
    case LockForRemove(ch) => Next(s.(lock := Deleting(ch)))
    case RemoveLocked =>
      if !s.lock.Deleting? then Panics else
      var i := Find(s.sendCases, s.lock.ch);
      if i == |s.sendCases| then Panics
      else Next(Removed(s.(sendCases := Delete(s.sendCases, i), lock := Open), s.lock.ch))
    case Finish => Next(s.(lock := Open, results := s.results + [s.nsent]))
  }

  function Removed(s: State, ch: Chan): State { s.(subs := s.subs[ch := Gone]) }

  function Start(): State { State([], [RemoveSub], 0, Open, map[], 0, [], []) }

  // --------------------------------------------------------------- invariants

  ghost predicate Distinct(cs: seq<Case>) { forall i, j :: 0 <= i < j < |cs| ==> cs[i] != cs[j] }

  /**
   Every subscription that is not gone is in exactly one of the two lists, once; one past the check is in
   sendCases.
   */
  ghost predicate Listed(s: State) {
    && Distinct(s.inbox) && Distinct(s.sendCases) && Chans(s.inbox) !! Chans(s.sendCases)
    && RemoveSub !in s.inbox && |s.sendCases| >= FIRST && s.sendCases[0] == RemoveSub
    && (forall ch :: ch in Chans(s.inbox) || ch in Chans(s.sendCases) <==> ch in s.subs && s.subs[ch] != Gone)
    && (forall ch :: ch in s.subs && s.subs[ch] == Removing ==> ch in Chans(s.sendCases))
    && (s.lock.Deleting? ==> s.lock.ch in s.subs && s.subs[s.lock.ch] == Removing)
  }

  /** How often the Send with number r delivered to ch. */
  function Deliveries(log: seq<(nat, Chan)>, r: nat, ch: Chan): nat {
    if log == [] then 0 else Deliveries(log[..|log| - 1], r, ch) + if log[|log| - 1] == (r, ch) then 1 else 0
  }

  /** How many deliveries the Send with number r made. */
  function Sent(log: seq<(nat, Chan)>, r: nat): nat {
    if log == [] then 0 else Sent(log[..|log| - 1], r) + if log[|log| - 1].0 == r then 1 else 0
  }

  /** What the Send in progress has done so far. */
  ghost predicate RoundOpen(s: State) {
    s.cases <= |s.sendCases| &&
    var r, active := |s.results|, Chans(s.sendCases[..s.cases]);
    && FIRST <= s.cases && s.nsent == Sent(s.log, r)
    && forall ch: Chan ::
      && Deliveries(s.log, r, ch) <= 1
      && (ch in active ==> Deliveries(s.log, r, ch) == 0)
      && (ch in Chans(s.sendCases) && ch !in active ==> Deliveries(s.log, r, ch) == 1)
  }

  ghost predicate Inv(s: State) {
    && Listed(s) && s.cases <= (if s.lock == Sending then |s.sendCases| else FIRST)
    && (s.lock == Sending ==> RoundOpen(s))
    && forall e :: e in s.log ==> e.0 < |s.results| || (e.0 == |s.results| && s.lock == Sending)
  }

  // ------------------------------------------------- what the list operations do

  lemma ChansOf(cs: seq<Case>)
    ensures forall ch :: ch in Chans(cs) <==> Sub(ch) in cs
  {
  }

  lemma DeleteIs(cs: seq<Case>, i: nat)
    requires Distinct(cs) && i < |cs|
    ensures Distinct(Delete(cs, i)) && forall c :: c in Delete(cs, i) <==> c in cs && c != cs[i]
  {
    var cut := Delete(cs, i);
    forall c | c in cs && c != cs[i] ensures c in cut {
      var k :| 0 <= k < |cs| && cs[k] == c;
      assert if k < i then cut[k] == c else cut[k - 1] == c;
    }
  }

  /** Deleting at i leaves the prefix of length k, one shorter if i was in it. */
  lemma DeletePrefix(cs: seq<Case>, i: nat, k: nat)
    requires Distinct(cs) && i < |cs| && k <= |cs|
    ensures var k' := if i < k then k - 1 else k;
      k' <= |Delete(cs, i)| && Delete(cs, i)[..k'] == if i < k then Delete(cs[..k], i) else cs[..k]
  {
  }

  lemma DeactivateIs(cs: seq<Case>, k: nat, i: nat)
    requires Distinct(cs) && i < k <= |cs|
    ensures var cs' := Deactivate(cs, k, i);
      && Distinct(cs') && |cs'| == |cs| && (forall c :: c in cs' <==> c in cs) && (i > 0 ==> cs'[0] == cs[0])
      && forall c :: c in cs'[..k - 1] <==> c in cs[..k] && c != cs[i]
  {
    var cs' := Deactivate(cs, k, i);
    forall c | c in cs ensures c in cs' {
      var m :| 0 <= m < |cs| && cs[m] == c;
      assert if m == i then cs'[k - 1] == c else if m == k - 1 then cs'[i] == c else cs'[m] == c;
    }
    forall c | c in cs[..k] && c != cs[i] ensures c in cs'[..k - 1] {
      var m :| 0 <= m < k && cs[m] == c;
      assert if m == k - 1 then cs'[i] == c else cs'[m] == c;
    }
    forall c | c in cs'[..k - 1] ensures c in cs[..k] && c != cs[i] {
      var m :| 0 <= m < k - 1 && cs'[m] == c;
      assert if m == i then c == cs[k - 1] else c == cs[m];
    }
  }

  lemma LogNext(log: seq<(nat, Chan)>, r: nat, ch: Chan, e: (nat, Chan))
    ensures Deliveries(log + [e], r, ch) == Deliveries(log, r, ch) + if e == (r, ch) then 1 else 0
    ensures Sent(log + [e], r) == Sent(log, r) + if e.0 == r then 1 else 0
  {
    assert (log + [e])[..|log|] == log;
  }

  /** No delivery has been made by a Send that has not started. */
  lemma {:induction false} NotYet(log: seq<(nat, Chan)>, r: nat)
    requires forall e :: e in log ==> e.0 < r
    ensures Sent(log, r) == 0 && forall ch :: Deliveries(log, r, ch) == 0
  {
    if log != [] { NotYet(log[..|log| - 1], r); }
  }

  // ---------------------------------------------------------------- preservation

  lemma StartInv()
    ensures Inv(Start())
  {
  }

  lemma StepSubscribe(s: State, ch: Chan)
    requires Inv(s) && Enabled(s, Subscribe(ch))
    ensures Do(s, Subscribe(ch)).Next? && Inv(Do(s, Subscribe(ch)).s)
  {
    var s' := Do(s, Subscribe(ch)).s;
    ChansOf(s.inbox);
    ChansOf(s.sendCases);
    ChansOf(s'.inbox);
    assert Listed(s');
    KeepRounds(s, s');
  }

  /** A step that leaves the send cases and the deliveries alone keeps what the Send in progress has done. */
  lemma KeepRounds(s: State, s': State)
    requires Inv(s) && Listed(s')
    requires s'.log == s.log && s'.results == s.results
    requires s'.sendCases == s.sendCases && s'.cases == s.cases && s'.nsent == s.nsent
      && (s'.lock == Sending <==> s.lock == Sending)
    ensures Inv(s')
  {
  }

  lemma StepCheckInbox(s: State, ch: Chan)
    requires Inv(s) && Enabled(s, CheckInbox(ch))
    ensures Do(s, CheckInbox(ch)).Next? && Inv(Do(s, CheckInbox(ch)).s)
  {
    var s' := Do(s, CheckInbox(ch)).s;
    var i := Find(s.inbox, ch);
    FindFirst(s.inbox, ch);
    ChansOf(s.inbox);
    ChansOf(s.sendCases);
    ChansOf(s'.inbox);
    if i < |s.inbox| {
      DeleteIs(s.inbox, i);
      assert Listed(s');
      KeepRemoved(s, s', ch);
    } else {
      assert Listed(s');
      KeepRounds(s, s');
    }
  }

  /** The same when a subscription goes, if the send cases in use lose at most that one. */
  lemma KeepRemoved(s: State, s': State, ch: Chan)
    requires Inv(s) && Listed(s') && ch in s.subs && s.subs[ch] != Gone
    requires s'.log == s.log && s'.results == s.results && s'.nsent == s.nsent
    requires s'.cases <= (if s.lock == Sending then |s'.sendCases| else FIRST)
      && (s'.lock == Sending <==> s.lock == Sending)
    requires s.lock == Sending ==> FIRST <= s'.cases
    requires s.lock == Sending ==> forall c :: c in Chans(s'.sendCases) <==> c in Chans(s.sendCases) && c != ch
    requires s.lock == Sending ==> forall c :: c in Chans(s'.sendCases[..s'.cases]) <==>
      c in Chans(s.sendCases[..s.cases]) && c != ch
    ensures Inv(s')
  {
  }

  lemma StepTakeLock(s: State)
    requires Inv(s) && Enabled(s, TakeLock)
    ensures Do(s, TakeLock).Next? && Inv(Do(s, TakeLock).s)
  {
    KeepRounds(s, Do(s, TakeLock).s);
  }

  lemma StepLockForRemove(s: State, ch: Chan)
    requires Inv(s) && Enabled(s, LockForRemove(ch))
    ensures Do(s, LockForRemove(ch)).Next? && Inv(Do(s, LockForRemove(ch)).s)
  {
    KeepRounds(s, Do(s, LockForRemove(ch)).s);
  }

  lemma StepMerge(s: State)
    requires Inv(s) && Enabled(s, Merge)
    ensures Do(s, Merge).Next? && Inv(Do(s, Merge).s)
  {
    var s' := Do(s, Merge).s;
    var all := s.sendCases + s.inbox;
    ChansOf(s.inbox);
    ChansOf(s.sendCases);
    ChansOf(all);
    assert Listed(s');
    assert all[..|all|] == all;
    NotYet(s.log, |s.results|);
    assert RoundOpen(s');
  }

  lemma StepDeliver(s: State, i: nat)
    requires Inv(s) && Enabled(s, Deliver(i))
    ensures Do(s, Deliver(i)).Next? && Inv(Do(s, Deliver(i)).s)
  {
    assert s.sendCases[i] != s.sendCases[0];
    var ch := s.sendCases[i].ch;
    var s' := Do(s, Deliver(i)).s;
    DeactivateIs(s.sendCases, s.cases, i);
    ChansOf(s.sendCases);
    ChansOf(s'.sendCases);
    assert Listed(s');
    DeliverRound(s, s', i, ch);
  }

  lemma DeliverRound(s: State, s': State, i: nat, ch: Chan)
    requires RoundOpen(s) && FIRST <= i < s.cases && s.sendCases[i] == Sub(ch)
      && s'.cases == s.cases - 1 <= |s'.sendCases|
    requires s'.results == s.results
    requires s'.nsent == s.nsent + 1 && s'.log == s.log + [(|s.results|, ch)]
    requires forall c :: c in s'.sendCases <==> c in s.sendCases
    requires forall c :: c in s'.sendCases[..s'.cases] <==> c in s.sendCases[..s.cases] && c != s.sendCases[i]
    ensures RoundOpen(s')
  {
    var r, active := |s.results|, s.sendCases[..s.cases];
    assert active[i] == Sub(ch);
    ChansOf(s.sendCases);
    ChansOf(s'.sendCases);
    ChansOf(active);
    ChansOf(s'.sendCases[..s'.cases]);
    hide Chans;
    forall c
      ensures Deliveries(s'.log, r, c) == Deliveries(s.log, r, c) + (if c == ch then 1 else 0)
        && Sent(s'.log, r) == Sent(s.log, r) + 1
    {
      LogNext(s.log, r, c, (r, ch));
    }
    hide Deliveries;
    hide Sent;
    assert ch in Chans(active) && Deliveries(s.log, r, ch) == 0;
  }

  /** find succeeds for a channel that is being removed: it is in sendCases. */
  lemma RemovingFound(s: State, ch: Chan)
    requires Listed(s) && ch in s.subs && s.subs[ch] == Removing
    ensures var i := Find(s.sendCases, ch); FIRST <= i < |s.sendCases| && s.sendCases[i] == Sub(ch)
  {
    FindFirst(s.sendCases, ch);
    ChansOf(s.sendCases);
  }

  /** The lists after a channel has been deleted from sendCases. */
  lemma DeletedListed(s: State, s': State, ch: Chan)
    requires Listed(s) && ch in s.subs && s.subs[ch] == Removing
    requires s'.inbox == s.inbox && s'.subs == s.subs[ch := Gone] && s'.lock != Deleting(ch)
      && (s'.lock.Deleting? ==> s'.lock == s.lock)
    requires Find(s.sendCases, ch) < |s.sendCases| && s'.sendCases == Delete(s.sendCases, Find(s.sendCases, ch))
    ensures Listed(s') && forall c :: c in Chans(s'.sendCases) <==> c in Chans(s.sendCases) && c != ch
  {
    RemovingFound(s, ch);
    DeleteIs(s.sendCases, Find(s.sendCases, ch));
    ChansOf(s.sendCases);
    ChansOf(s'.sendCases);
    ChansOf(s.inbox);
  }

  /** The prefix loses just that channel, whether or not it was in it. */
  lemma HandedPrefix(s: State, ch: Chan, cases: nat)
    requires Inv(s) && ch in s.subs && s.subs[ch] == Removing
    requires var i := Find(s.sendCases, ch); i < |s.sendCases| && cases == if i < s.cases then s.cases - 1 else s.cases
    ensures var cs := Delete(s.sendCases, Find(s.sendCases, ch));
      cases <= |cs| && forall c :: c in Chans(cs[..cases]) <==> c in Chans(s.sendCases[..s.cases]) && c != ch
  {
    RemovingFound(s, ch);
    var i := Find(s.sendCases, ch);
    DeletePrefix(s.sendCases, i, s.cases);
    var prefix := s.sendCases[..s.cases];
    assert Distinct(prefix);
    if i < s.cases { DeleteIs(prefix, i); } else { assert Sub(ch) !in prefix; }
    ChansOf(prefix);
    ChansOf(Delete(s.sendCases, i)[..cases]);
    hide Chans;
  }

  lemma StepHandOver(s: State, ch: Chan)
    requires Inv(s) && Enabled(s, HandOver(ch))
    ensures Do(s, HandOver(ch)).Next? && Inv(Do(s, HandOver(ch)).s)
  {
    hide Chans;
    RemovingFound(s, ch);
    var s' := Do(s, HandOver(ch)).s;
    DeletedListed(s, s', ch);
    HandedPrefix(s, ch, s'.cases);
    KeepRemoved(s, s', ch);
  }

  lemma StepRemoveLocked(s: State)
    requires Inv(s) && Enabled(s, RemoveLocked)
    ensures Do(s, RemoveLocked).Next? && Inv(Do(s, RemoveLocked).s)
  {
    var ch := s.lock.ch;
    RemovingFound(s, ch);
    var s' := Do(s, RemoveLocked).s;
    DeletedListed(s, s', ch);
    KeepRemoved(s, s', ch);
  }

  lemma StepFinish(s: State)
    requires Inv(s) && Enabled(s, Finish)
    ensures Do(s, Finish).Next? && Inv(Do(s, Finish).s)
  {
  }

  lemma StepKeeps(s: State, step: Step)
    requires Inv(s) && Enabled(s, step)
    ensures Do(s, step).Next? && Inv(Do(s, step).s)
  {
    hide Inv;
    match step
    case Subscribe(ch) => StepSubscribe(s, ch);
    case CheckInbox(ch) => StepCheckInbox(s, ch);
    case TakeLock => StepTakeLock(s);
    case Merge => StepMerge(s);
    case Deliver(i) => StepDeliver(s, i);
    case HandOver(ch) => StepHandOver(s, ch);
    case LockForRemove(ch) => StepLockForRemove(s, ch);
    case RemoveLocked => StepRemoveLocked(s);
    case Finish => StepFinish(s);
  }

  // -------------------------------------------------------------------- runs

  /** Every step of the run is enabled when it is taken. */
  ghost predicate Possible(s: State, steps: seq<Step>)
    decreases |steps|
  {
    steps == [] || (Enabled(s, steps[0]) && (Do(s, steps[0]).Next? ==> Possible(Do(s, steps[0]).s, steps[1..])))
  }

  function Run(s: State, steps: seq<Step>): Outcome
    decreases |steps|
  {
    if steps == [] then Next(s) else
    var o := Do(s, steps[0]);
    if o.Panics? then Panics else Run(o.s, steps[1..])
  }

  lemma {:induction false} RunKeeps(s: State, steps: seq<Step>)
    requires Inv(s) && Possible(s, steps)
    ensures Run(s, steps).Next? && Inv(Run(s, steps).s)
    decreases |steps|
  {
    hide Inv;
    if steps != [] {
      StepKeeps(s, steps[0]);
      RunKeeps(Do(s, steps[0]).s, steps[1..]);
    }
  }

  /** No run panics or fails to find a channel, and every subscription that is not removed is in exactly one list. */
  lemma NeverPanics(steps: seq<Step>)
    requires Possible(Start(), steps)
    ensures Run(Start(), steps).Next? && Listed(Run(Start(), steps).s)
  {
    StartInv();
    RunKeeps(Start(), steps);
  }

  ghost predicate Subscribed(s: State, ch: Chan) { ch in s.subs && s.subs[ch] != Gone }

  /** The step gives the value to the channel. */
  ghost predicate Reaches(s: State, step: Step, ch: Chan) {
    step.Deliver? && step.index < |s.sendCases| && s.sendCases[step.index] == Sub(ch)
  }

  /** How often the channel gets the value on the way, counted on the steps themselves. */
  ghost function Hits(s: State, steps: seq<Step>, ch: Chan): nat
    decreases |steps|
  {
    if steps == [] then 0 else
    var rest := if Do(s, steps[0]).Next? then Hits(Do(s, steps[0]).s, steps[1..], ch) else 0;
    if Reaches(s, steps[0], ch) then rest + 1 else rest
  }

  /** The number of steps that deliver. */
  function DeliverSteps(steps: seq<Step>): nat {
    if steps == [] then 0 else (if steps[0].Deliver? then 1 else 0) + DeliverSteps(steps[1..])
  }

  /** The channel stays subscribed all the way. */
  ghost predicate Stays(s: State, steps: seq<Step>, ch: Chan)
    decreases |steps|
  {
    Subscribed(s, ch) && (steps != [] && Do(s, steps[0]).Next? ==> Stays(Do(s, steps[0]).s, steps[1..], ch))
  }

  /** Stays is what it says in every state on the way. */
  lemma {:induction false} StaysMeans(s: State, steps: seq<Step>, ch: Chan)
    requires Inv(s) && Possible(s, steps)
    ensures Stays(s, steps, ch) <==>
      forall k :: 0 <= k <= |steps| ==> Run(s, steps[..k]).Next? && Subscribed(Run(s, steps[..k]).s, ch)
    decreases |steps|
  {
    hide Inv;
    assert steps[..0] == [];
    if steps != [] {
      StepKeeps(s, steps[0]);
      var s' := Do(s, steps[0]).s;
      StaysMeans(s', steps[1..], ch);
      forall k | 0 < k <= |steps| ensures Run(s, steps[..k]) == Run(s', steps[1..][..k - 1]) {
        assert steps[..k][1..] == steps[1..][..k - 1];
      }
      forall k | 0 <= k <= |steps[1..]| ensures Run(s', steps[1..][..k]) == Run(s, steps[..k + 1]) {
        assert steps[..k + 1][1..] == steps[1..][..k];
      }
    }
  }

  /** A step of a Send in progress other than its end. */
  lemma SendingStep(s: State, step: Step, ch: Chan)
    requires Inv(s) && s.lock == Sending && Enabled(s, step) && step != Finish
    ensures Do(s, step).Next? && var s' := Do(s, step).s;
      && Inv(s') && s'.lock == Sending && s'.results == s.results
      && Deliveries(s'.log, |s.results|, ch) ==
         Deliveries(s.log, |s.results|, ch) + (if Reaches(s, step, ch) then 1 else 0)
      && s'.nsent == s.nsent + (if step.Deliver? then 1 else 0)
      && (ch in Chans(s'.sendCases) ==> ch in Chans(s.sendCases))
      && (ch in Chans(s.sendCases) && Subscribed(s', ch) ==> ch in Chans(s'.sendCases))
      && (Reaches(s, step, ch) ==> ch in Chans(s.sendCases))
  {
    StepKeeps(s, step);
    ChansOf(s.sendCases);
    ChansOf(Do(s, step).s.sendCases);
    hide Chans;
    if step.Deliver? {
      DeactivateIs(s.sendCases, s.cases, step.index);
      LogNext(s.log, |s.results|, ch, (|s.results|, s.sendCases[step.index].ch));
    } else if step.HandOver? {
      RemovingFound(s, step.ch);
      DeleteIs(s.sendCases, Find(s.sendCases, step.ch));
    }
  }

  /** What the steps of a Send in progress do for a channel. */
  lemma {:induction false} SendingRun(s: State, steps: seq<Step>, ch: Chan)
    requires Inv(s) && s.lock == Sending && Possible(s, steps) && Finish !in steps
    ensures Run(s, steps).Next? && var s' := Run(s, steps).s;
      && Inv(s') && s'.lock == Sending && s'.results == s.results
      && Deliveries(s'.log, |s.results|, ch) == Deliveries(s.log, |s.results|, ch) + Hits(s, steps, ch)
      && s'.nsent == s.nsent + DeliverSteps(steps)
      && (ch !in Chans(s.sendCases) ==> Hits(s, steps, ch) == 0)
      && (ch in Chans(s.sendCases) && Stays(s, steps, ch) ==> ch in Chans(s'.sendCases))
    decreases |steps|
  {
    hide Inv;
    hide Chans;
    hide Deliveries;
    if steps != [] {
      SendingStep(s, steps[0], ch);
      SendingRun(Do(s, steps[0]).s, steps[1..], ch);
      assert Stays(s, steps, ch) ==> Stays(Do(s, steps[0]).s, steps[1..], ch) && Subscribed(Do(s, steps[0]).s, ch);
    }
  }

  lemma {:induction false} RunOn(s: State, steps: seq<Step>, more: seq<Step>)
    requires Inv(s) && Possible(s, steps + more)
    ensures Possible(s, steps) && Run(s, steps).Next? && Inv(Run(s, steps).s)
    ensures Possible(Run(s, steps).s, more) && Run(s, steps + more) == Run(Run(s, steps).s, more)
    decreases |steps|
  {
    hide Inv;
    if steps == [] {
      assert steps + more == more;
    } else {
      assert (steps + more)[0] == steps[0] && (steps + more)[1..] == steps[1..] + more;
      StepKeeps(s, steps[0]);
      RunOn(Do(s, steps[0]).s, steps[1..], more);
    }
  }

  /** Merge takes the whole inbox, so that every channel that is subscribed then can be chosen. */
  lemma MergeTakesAll(s: State)
    requires Inv(s) && Enabled(s, Merge)
    ensures var s' := Do(s, Merge).s;
      && s'.inbox == [] && s'.cases == |s'.sendCases| && s'.results == s.results && s'.subs == s.subs
      && forall ch :: Subscribed(s, ch) <==> ch in Chans(s'.sendCases)
    ensures Do(s, Merge).Next? && Inv(Do(s, Merge).s) && forall ch ::
      Deliveries(Do(s, Merge).s.log, |s.results|, ch) == 0
  {
    StepMerge(s);
    NotYet(s.log, |s.results|);
    ChansOf(s.inbox);
    ChansOf(s.sendCases);
    ChansOf(s.sendCases + s.inbox);
  }

  /**
   From the Merge of a Send to its end: a channel that is subscribed at the Merge and stays so gets the value
   exactly once, any other at most once, one that is not subscribed at the Merge never; and the Send returns the
   number of deliveries. What happened before and who else comes and goes does not matter.
   */
  lemma ExactlyOnce(before: seq<Step>, s: State, during: seq<Step>, ch: Chan)
    requires Possible(Start(), before) && Run(Start(), before) == Next(s)
    requires Possible(s, [Merge] + during + [Finish]) && Finish !in during
    ensures Hits(s, [Merge] + during, ch) <= (if Subscribed(s, ch) then 1 else 0)
    ensures Stays(s, [Merge] + during, ch) ==> Hits(s, [Merge] + during, ch) == 1
    ensures Run(s, [Merge] + during + [Finish]).Next?
    ensures var s' := Run(s, [Merge] + during + [Finish]).s;
      s'.lock == Open && s'.results == s.results + [DeliverSteps(during)]
  {
    StartInv();
    RunKeeps(Start(), before);
    var steps := [Merge] + during;
    RunOn(s, steps, [Finish]);
    assert steps[0] == Merge && steps[1..] == during;
    MergeTakesAll(s);
    SendingRun(Do(s, Merge).s, during, ch);
    AllServed(Run(s, steps).s, ch);
    var end := Run(s, steps).s;
    assert Run(end, [Finish]) == Do(end, Finish) by {
      assert [Finish][0] == Finish && [Finish][1..] == [];
    }
  }

  /** When a Send can end, every channel that is still in its cases has got the value. */
  lemma AllServed(s: State, ch: Chan)
    requires Inv(s) && Enabled(s, Finish)
    ensures Deliveries(s.log, |s.results|, ch) <= 1
    ensures ch in Chans(s.sendCases) ==> Deliveries(s.log, |s.results|, ch) == 1
  {
    assert s.sendCases[..1] == [RemoveSub];
    ChansOf(s.sendCases[..s.cases]);
  }

  lemma GoneStays(s: State, step: Step, ch: Chan)
    requires Inv(s) && Enabled(s, step) && !Subscribed(s, ch) && step != Subscribe(ch)
    ensures Do(s, step).Next? && Inv(Do(s, step).s) && !Subscribed(Do(s, step).s, ch) && !Reaches(s, step, ch)
  {
    StepKeeps(s, step);
    ChansOf(s.sendCases);
    hide RoundOpen;
    hide Find;
    hide Delete;
    hide Deactivate;
  }

  /** Once it is removed a channel gets nothing any more, unless it is subscribed again. */
  lemma {:induction false} QuietOnceGone(s: State, steps: seq<Step>, ch: Chan)
    requires Inv(s) && Possible(s, steps) && !Subscribed(s, ch) && Subscribe(ch) !in steps
    ensures Hits(s, steps, ch) == 0 && Run(s, steps).Next? && !Subscribed(Run(s, steps).s, ch)
    decreases |steps|
  {
    hide Inv;
    hide Reaches;
    hide Subscribed;
    if steps != [] {
      GoneStays(s, steps[0], ch);
      QuietOnceGone(Do(s, steps[0]).s, steps[1..], ch);
    }
  }

  /**
   A Send waits only for channels that have not got the value: it can deliver to each of them, and when none is
   left it can end.
   */
  lemma SendProgress(s: State, ch: Chan)
    requires Inv(s) && s.lock == Sending
    ensures ch in Chans(s.sendCases) && Deliveries(s.log, |s.results|, ch) == 0 ==>
      exists i: nat :: i < |s.sendCases| && s.sendCases[i] == Sub(ch) && Enabled(s, Deliver(i))
    ensures Enabled(s, Finish) || exists c :: c in Chans(s.sendCases) && Deliveries(s.log, |s.results|, c) == 0
  {
    hide Listed;
    var active := s.sendCases[..s.cases];
    ChansOf(active);
    ChansOf(s.sendCases);
    if ch in Chans(s.sendCases) && Deliveries(s.log, |s.results|, ch) == 0 {
      assert Sub(ch) in active;
      var i :| 0 <= i < s.cases && active[i] == Sub(ch);
      FrontIsNoChannel(s, i);
      assert Enabled(s, Deliver(i)) && s.sendCases[i] == Sub(ch);
    }
    if s.cases != FIRST {
      assert active[FIRST] == s.sendCases[FIRST];
      FrontIsNoChannel(s, FIRST);
      assert s.sendCases[FIRST].ch in Chans(active);
    }
  }

  lemma FrontIsNoChannel(s: State, i: nat)
    requires Listed(s) && i < |s.sendCases|
    ensures s.sendCases[i].Sub? <==> FIRST <= i
  {
  }

  /** Whoever has the lock can go on, and a subscriber can unsubscribe when it is free or a Send waits. */
  lemma OthersProgress(s: State, ch: Chan)
    requires Inv(s)
    ensures match s.lock
      case Open => Enabled(s, TakeLock)
      case Taken => Enabled(s, Merge)
      case Sending => Enabled(s, Finish) || s.cases > FIRST
      case Deleting(_) => Enabled(s, RemoveLocked)
    ensures !Subscribed(s, ch) ==> Enabled(s, Subscribe(ch))
    ensures Subscribed(s, ch) && !Enabled(s, CheckInbox(ch)) ==>
      && (s.lock == Open ==> Enabled(s, LockForRemove(ch)))
      && (s.lock == Sending && s.cases > FIRST ==> Enabled(s, HandOver(ch)))
  {
  }
}
