/** The async mutex as a machine whose steps are its atomic accesses, taken by any
    number of threads in any order. The waker list is edited under a spin lock of
    its own; the edit itself is the pointer surgery of module WakerList.
 */
module AsyncMutex {
  import opened Common
  import W = WakerList

  datatype Pc =
    | Idle
    | Guard                              // holds a live guard
    | WantInsert | Inserting | Inserted  // a poll that found the mutex locked
    | WantPop | Popping | Popped         // a guard being dropped, after the unlock

  /** `registered[t]` says that the current lock future of `t` has a node. The list
      `queue` is newest first; `joined` and `woken` record all arrivals and all
      wake-ups. */
  datatype State = State(
    pcs: seq<Pc>, registered: seq<bool>, locked: bool, listLocked: bool,
    queue: seq<nat>, joined: seq<nat>, woken: seq<nat>)

  datatype Action = TryLock | Poll | EnterList | Edit | LeaveList | Drop

  function Init(n: nat): State {
    State(seq(n, i => Idle), seq(n, i => false), false, false, [], [], [])
  }

  predicate Shaped(s: State) {
    |s.pcs| == |s.registered|
  }

  function Goto(s: State, t: nat, pc: Pc): State
    requires t < |s.pcs|
  {
    s.(pcs := s.pcs[t := pc])
  }

  /** One step of thread `t`; a step that does not apply changes nothing, like a turn
      of a spin loop. */
  function Step(s: State, t: nat, a: Action): State
    requires Shaped(s) && t < |s.pcs|
  {
    match (a, s.pcs[t])
    case (TryLock, Idle) => if s.locked then s else Goto(s, t, Guard).(locked := true)
    case (Poll, Idle) =>
      if s.locked then Goto(s, t, WantInsert)
      else Goto(s, t, Guard).(locked := true, registered := s.registered[t := false])
    case (EnterList, WantInsert) => if s.listLocked then s else Goto(s, t, Inserting).(listLocked := true)
    case (EnterList, WantPop) => if s.listLocked then s else Goto(s, t, Popping).(listLocked := true)
    case (Edit, Inserting) =>
      if s.registered[t] then Goto(s, t, Inserted)
      else Goto(s, t, Inserted).(registered := s.registered[t := true], queue := [t] + s.queue,
                                 joined := s.joined + [t])
    case (Edit, Popping) =>
      if s.queue == [] then Goto(s, t, Popped)
      else Goto(s, t, Popped).(queue := s.queue[..|s.queue| - 1], woken := s.woken + [s.queue[|s.queue| - 1]])
    case (LeaveList, Inserted) => Goto(s, t, Idle).(listLocked := false)
    case (LeaveList, Popped) => Goto(s, t, Idle).(listLocked := false)
    case (Drop, Guard) => Goto(s, t, WantPop).(locked := false)
    case _ => s
  }

  predicate RunOk(n: nat, run: Run) {
    forall i :: 0 <= i < |run| ==> run[i].0 < n
  }

  type Run = seq<(nat, Action)>

  function RunFrom(s: State, run: Run): (e: State)
    requires Shaped(s) && RunOk(|s.pcs|, run)
    ensures Shaped(e) && |e.pcs| == |s.pcs|
  {
    if run == [] then s
    else Step(RunFrom(s, run[..|run| - 1]), run[|run| - 1].0, run[|run| - 1].1)
  }

  function Exec(n: nat, run: Run): (s: State)
    requires RunOk(n, run)
    ensures Shaped(s) && |s.pcs| == n
  {
    RunFrom(Init(n), run)
  }

  predicate InSection(pc: Pc) {
    pc == Inserting || pc == Inserted || pc == Popping || pc == Popped
  }

  /** At most one live guard, and the state is Locked exactly when there is one. */
  ghost predicate OneGuard(s: State) {
    && (forall t, u :: 0 <= t < u < |s.pcs| ==> s.pcs[t] != Guard || s.pcs[u] != Guard)
    && (s.locked <==> exists t :: 0 <= t < |s.pcs| && s.pcs[t] == Guard)
  }

  /** At most one thread edits the list, and the list lock is held exactly then. */
  ghost predicate OneEditor(s: State) {
    && (forall t, u :: 0 <= t < u < |s.pcs| ==> !InSection(s.pcs[t]) || !InSection(s.pcs[u]))
    && (s.listLocked <==> exists t :: 0 <= t < |s.pcs| && InSection(s.pcs[t]))
  }

  /** Wakers fire in the order in which they joined; those left are the youngest. */
  ghost predicate InOrder(s: State) {
    s.joined == s.woken + Reverse(s.queue)
  }

  lemma LastFirst(q: seq<nat>, front: seq<nat>, x: nat)
    requires q == front + [x]
    ensures Reverse(q) == [x] + Reverse(front)
  {
    ReverseSnoc(front, x);
  }

  lemma StepOthers(s: State, t: nat, a: Action)
    requires Shaped(s) && t < |s.pcs|
    ensures var e := Step(s, t, a);
            |e.pcs| == |s.pcs| && forall u :: 0 <= u < |s.pcs| && u != t ==> e.pcs[u] == s.pcs[u]
  {
  }

  lemma StepOneGuard(s: State, t: nat, a: Action)
    requires Shaped(s) && t < |s.pcs| && OneGuard(s)
    ensures OneGuard(Step(s, t, a))
  {
    var s' := Step(s, t, a);
    StepOthers(s, t, a);
    if s'.locked && s'.pcs[t] != Guard {
      var g :| 0 <= g < |s.pcs| && s.pcs[g] == Guard;
      assert s'.pcs[g] == Guard;
    }
  }

  lemma StepOneEditor(s: State, t: nat, a: Action)
    requires Shaped(s) && t < |s.pcs| && OneEditor(s)
    ensures OneEditor(Step(s, t, a))
  {
    var s' := Step(s, t, a);
    StepOthers(s, t, a);
    if s'.listLocked && !InSection(s'.pcs[t]) {
      var g :| 0 <= g < |s.pcs| && InSection(s.pcs[g]);
      assert InSection(s'.pcs[g]);
    }
  }

  lemma StepInOrder(s: State, t: nat, a: Action)
    requires Shaped(s) && t < |s.pcs| && InOrder(s)
    ensures InOrder(Step(s, t, a))
  {
    var q, last := s.queue, |s.queue| - 1;
    if a == Edit && s.pcs[t] == Inserting {
      assert ([t] + q)[1..] == q;
    } else if a == Edit && s.pcs[t] == Popping && q != [] {
      LastFirst(q, q[..last], q[last]);
      assert s.woken + ([q[last]] + Reverse(q[..last])) == (s.woken + [q[last]]) + Reverse(q[..last]);
    }
  }

  /** Every reachable state, for every number of threads and every interleaving. */
  lemma {:induction false} Reachable(n: nat, run: Run)
    requires RunOk(n, run)
    ensures OneGuard(Exec(n, run)) && OneEditor(Exec(n, run)) && InOrder(Exec(n, run))
  {
    if run != [] {
      var last := |run| - 1;
      Reachable(n, run[..last]);
      var s := Exec(n, run[..last]);
      StepOneGuard(s, run[last].0, run[last].1);
      StepOneEditor(s, run[last].0, run[last].1);
      StepInOrder(s, run[last].0, run[last].1);
    }
  }

  /** A guard dropped while someone waits wakes the one who joined first of those not
      yet woken. */
  lemma WakesOldest(n: nat, run: Run, t: nat)
    requires RunOk(n, run) && t < n && Exec(n, run).pcs[t] == Popping && Exec(n, run).queue != []
    ensures var s := Exec(n, run);
            && |s.woken| < |s.joined|
            && Step(s, t, Edit).woken == s.woken + [s.joined[|s.woken|]]
  {
    Reachable(n, run);
    var q := Exec(n, run).queue;
    LastFirst(q, q[..|q| - 1], q[|q| - 1]);
  }

  ghost predicate CanReach(s: State) {
    exists run :: RunOk(|s.pcs|, run) && Exec(|s.pcs|, run) == s
  }

  lemma GoOn(s: State, t: nat, a: Action, next: State)
    requires CanReach(s) && Shaped(s) && t < |s.pcs| && next == Step(s, t, a)
    ensures CanReach(next)
  {
    var n := |s.pcs|;
    var run :| RunOk(n, run) && Exec(n, run) == s;
    assert (run + [(t, a)])[..|run|] == run;
    assert Exec(n, run + [(t, a)]) == next;
  }

  // ----- who gets the mutex -----

  ghost predicate NoGuard(s: State) {
    forall u :: 0 <= u < |s.pcs| ==> s.pcs[u] != Guard
  }

  /** Over every run an idle thread that tries for the mutex, or polls its future, gets the
      guard exactly when no thread has it. Nothing of the others changes, nor the list;
      only a poll in vain goes on to the list, and only a poll that succeeds ends the future. */
  lemma TakesIff(n: nat, run: Run, t: nat, a: Action)
    requires RunOk(n, run) && t < n && Exec(n, run).pcs[t] == Idle && (a == TryLock || a == Poll)
    ensures var s := Exec(n, run);
            var e := Step(s, t, a);
            && (e.pcs[t] == Guard <==> NoGuard(s)) && (e.pcs[t] == Guard <==> !s.locked) && e.locked
            && (e.pcs[t] == WantInsert <==> a == Poll && s.locked)
            && e == s.(pcs := s.pcs[t := e.pcs[t]], locked := true, registered := e.registered)
            && e.registered == if a == Poll && !s.locked then s.registered[t := false] else s.registered
  {
    Reachable(n, run);
  }

  lemma {:induction false} RunOn(s: State, a: Run, b: Run)
    requires Shaped(s) && RunOk(|s.pcs|, a) && RunOk(|s.pcs|, b)
    ensures RunOk(|s.pcs|, a + b) && RunFrom(s, a + b) == RunFrom(RunFrom(s, a), b)
    decreases |b|
  {
    if b == [] {
      assert a + b == a;
    } else {
      var last := |b| - 1;
      RunOn(s, a, b[..last]);
      assert (a + b)[..|a + b| - 1] == a + b[..last];
    }
  }

  /** The run leads from `s` to `e`. */
  ghost predicate Leads(s: State, run: Run, e: State) {
    Shaped(s) && RunOk(|s.pcs|, run) && RunFrom(s, run) == e
  }

  lemma LeadsNext(s: State, run: Run, e: State, t: nat, a: Action)
    requires Leads(s, run, e) && t < |s.pcs|
    ensures Shaped(e) && |e.pcs| == |s.pcs| && Leads(s, run + [(t, a)], Step(e, t, a))
  {
    assert (run + [(t, a)])[..|run|] == run;
  }

  lemma LeadsNowhere(s: State)
    requires Shaped(s)
    ensures Leads(s, [], s)
  {
  }

  lemma LeadsOn(s: State, a: Run, m: State, b: Run, e: State)
    requires Leads(s, a, m) && Leads(m, b, e)
    ensures Leads(s, a + b, e)
  {
    RunOn(s, a, b);
  }

  /** `u` drops its guard and wakes a waiter. */
  function DropRun(u: nat): Run {
    [] + [(u, Drop)] + [(u, EnterList)] + [(u, Edit)] + [(u, LeaveList)]
  }

  /** Then `t` polls. */
  function HandOverRun(u: nat, t: nat): Run {
    DropRun(u) + [(t, Poll)]
  }

  lemma Dropped(s: State, u: nat) returns (e: State)
    requires Shaped(s) && u < |s.pcs| && s.pcs[u] == Guard && !s.listLocked && s.queue != []
    ensures Leads(s, DropRun(u), e)
    ensures e == State(s.pcs[u := Idle], s.registered, false, false, s.queue[..|s.queue| - 1], s.joined,
                       s.woken + [s.queue[|s.queue| - 1]])
  {
    LeadsNowhere(s);
    LeadsNext(s, [], s, u, Drop);
    e := Step(s, u, Drop);
    LeadsNext(s, [] + [(u, Drop)], e, u, EnterList);
    e := Step(e, u, EnterList);
    LeadsNext(s, [] + [(u, Drop)] + [(u, EnterList)], e, u, Edit);
    e := Step(e, u, Edit);
    LeadsNext(s, [] + [(u, Drop)] + [(u, EnterList)] + [(u, Edit)], e, u, LeaveList);
    e := Step(e, u, LeaveList);
    assert e.pcs == s.pcs[u := Idle];
  }

  /** The guard goes from `u` to the thread that has waited longest, if that one is not in
      the middle of something. */
  lemma HandOver(s: State, u: nat, t: nat) returns (e: State)
    requires Shaped(s) && u < |s.pcs| && t < |s.pcs| && s.pcs[u] == Guard && !s.listLocked
    requires s.queue != [] && s.queue[|s.queue| - 1] == t && (t == u || s.pcs[t] == Idle)
    ensures Leads(s, HandOverRun(u, t), e)
    ensures e == State(s.pcs[u := Idle][t := Guard], s.registered[t := false], true, false,
                       s.queue[..|s.queue| - 1], s.joined, s.woken + [t])
  {
    var m := Dropped(s, u);
    LeadsNext(s, DropRun(u), m, t, Poll);
    e := Step(m, t, Poll);
  }

  /** A poll of the locked mutex from its first access to its last. */
  function WaitRun(t: nat): Run {
    [] + [(t, Poll)] + [(t, EnterList)] + [(t, Edit)] + [(t, LeaveList)]
  }

  /** It puts the thread into the list as the newest, once: if its future has no node yet.
      Nothing else changes. */
  lemma PollWaits(s: State, t: nat) returns (e: State)
    requires Shaped(s) && t < |s.pcs| && s.pcs[t] == Idle && s.locked && !s.listLocked
    ensures Leads(s, WaitRun(t), e)
    ensures e == if s.registered[t] then s
                 else s.(registered := s.registered[t := true], queue := [t] + s.queue, joined := s.joined + [t])
  {
    LeadsNowhere(s);
    LeadsNext(s, [], s, t, Poll);
    e := Step(s, t, Poll);
    LeadsNext(s, [] + [(t, Poll)], e, t, EnterList);
    e := Step(e, t, EnterList);
    LeadsNext(s, [] + [(t, Poll)] + [(t, EnterList)], e, t, Edit);
    e := Step(e, t, Edit);
    LeadsNext(s, [] + [(t, Poll)] + [(t, EnterList)] + [(t, Edit)], e, t, LeaveList);
    e := Step(e, t, LeaveList);
    assert e.pcs == s.pcs;
  }

  /** Hand-overs from `u` along `order`. */
  function ServeRun(u: nat, order: seq<nat>): Run
    decreases |order|
  {
    if order == [] then [] else HandOverRun(u, order[0]) + ServeRun(order[0], order[1..])
  }

  /** The last of `[u] + order`. */
  function LastOf(u: nat, order: seq<nat>): nat {
    if order == [] then u else order[|order| - 1]
  }

  /** All in the list wait for their turn; `u` may be among them. */
  ghost predicate AllWait(s: State, u: nat) {
    forall t :: t in s.queue ==> t < |s.pcs| && (t == u || s.pcs[t] == Idle)
  }

  lemma ServedFirst(s: State, u: nat, order: seq<nat>, m: State, e: State)
    requires order != [] && Leads(s, HandOverRun(u, order[0]), m) && Leads(m, ServeRun(order[0], order[1..]), e)
    requires m.woken == s.woken + order[..1] && e.woken == m.woken + order[1..]
    ensures Leads(s, ServeRun(u, order), e) && LastOf(u, order) == LastOf(order[0], order[1..])
    ensures e.woken == s.woken + order
  {
    var first, rest := HandOverRun(u, order[0]), ServeRun(order[0], order[1..]);
    assert ServeRun(u, order) == first + rest;
    LeadsOn(s, first, m, rest, e);
    WokenParts(s.woken, order);
  }

  lemma WokenParts(woken: seq<nat>, order: seq<nat>)
    requires order != []
    ensures woken + order[..1] + order[1..] == woken + order
  {
  }

  /** From any state in which `u` holds the guard and all in the list sleep, the guard goes
      through the list in the order in which they joined, one after the other; at every
      point it is with the one just woken. */
  lemma {:induction false} ServedInOrder(s: State, u: nat, k: nat) returns (e: State)
    requires Shaped(s) && u < |s.pcs| && s.pcs[u] == Guard && !s.listLocked && AllWait(s, u) && k <= |s.queue|
    ensures var order := Reverse(s.queue)[..k];
            && Leads(s, ServeRun(u, order), e) && Shaped(e) && |e.pcs| == |s.pcs|
            && LastOf(u, order) < |e.pcs| && e.pcs[LastOf(u, order)] == Guard && !e.listLocked
            && e.woken == s.woken + order && e.queue == s.queue[..|s.queue| - k]
    decreases k
  {
    var order := Reverse(s.queue)[..k];
    if k == 0 {
      LeadsNowhere(s);
      e := s;
    } else {
      var front, t := s.queue[..|s.queue| - 1], s.queue[|s.queue| - 1];
      assert t in s.queue;
      var m := HandOverOnce(s, u, t);
      e := ServedInOrder(m, t, k - 1);
      LastFirst(s.queue, front, t);
      FirstOf(Reverse(front), t, Reverse(s.queue), k);
      ServedFirst(s, u, order, m, e);
    }
  }

  lemma HandOverOnce(s: State, u: nat, t: nat) returns (m: State)
    requires Shaped(s) && u < |s.pcs| && t < |s.pcs| && s.pcs[u] == Guard && !s.listLocked && AllWait(s, u)
    requires s.queue != [] && s.queue[|s.queue| - 1] == t && (t == u || s.pcs[t] == Idle)
    ensures Leads(s, HandOverRun(u, t), m) && Shaped(m) && |m.pcs| == |s.pcs| && m.pcs[t] == Guard && !m.listLocked
    ensures AllWait(m, t) && m.queue == s.queue[..|s.queue| - 1] && m.woken == s.woken + [t]
  {
    m := HandOver(s, u, t);
    StillWait(s, u, t, m);
  }

  lemma StillWait(s: State, u: nat, t: nat, m: State)
    requires AllWait(s, u) && u < |s.pcs| && t < |s.pcs| && s.queue != []
    requires m.pcs == s.pcs[u := Idle][t := Guard] && m.queue == s.queue[..|s.queue| - 1]
    ensures AllWait(m, t)
  {
    assert forall v :: v in m.queue ==> v in s.queue;
  }

  lemma FirstOf(r: seq<nat>, x: nat, all: seq<nat>, k: nat)
    requires all == [x] + r && 0 < k <= |all|
    ensures all[..k][0] == x && all[..k][1..] == r[..k - 1]
  {
  }

  // ----- who can still be woken -----

  /** Somebody is on the way to the list, to wake whoever waits there. */
  ghost predicate Waking(s: State) {
    s.locked || exists u :: 0 <= u < |s.pcs| && (s.pcs[u] == WantPop || s.pcs[u] == Popping)
  }

  /** What every reachable state satisfies. */
  ghost predicate Sound(s: State) {
    Shaped(s) && OneGuard(s) && OneEditor(s) && InOrder(s)
  }

  lemma StepSound(s: State, t: nat, a: Action)
    requires Sound(s) && t < |s.pcs|
    ensures Sound(Step(s, t, a))
  {
    StepOneGuard(s, t, a);
    StepOneEditor(s, t, a);
    StepInOrder(s, t, a);
  }

  /** Registering does not look at the state again: afterwards somebody will come to
      the list exactly when the mutex is locked, or was unlocked by a thread that
      has not reached the list yet. */
  lemma RegisteredInTimeIff(s: State, t: nat)
    requires Sound(s) && t < |s.pcs| && s.pcs[t] == Inserting
    ensures Waking(Step(s, t, Edit)) <==> s.locked || exists u :: 0 <= u < |s.pcs| && s.pcs[u] == WantPop
  {
    StepOthers(s, t, Edit);
    var e := Step(s, t, Edit);
    if u :| 0 <= u < |s.pcs| && s.pcs[u] == WantPop {
      assert e.pcs[u] == WantPop;
    }
  }

  /** The last place at which `t` joined. */
  function LastJoin(joined: seq<nat>, t: nat): (j: nat)
    requires t in joined
    ensures j < |joined| && joined[j] == t && forall i :: j < i < |joined| ==> joined[i] != t
  {
    if joined[|joined| - 1] == t then |joined| - 1 else LastJoin(joined[..|joined| - 1], t)
  }

  ghost predicate HaveJoined(s: State) {
    Shaped(s) && forall t :: 0 <= t < |s.pcs| && s.registered[t] ==> t in s.joined
  }

  lemma StepJoined(s: State, t: nat, a: Action)
    requires HaveJoined(s) && t < |s.pcs|
    ensures HaveJoined(Step(s, t, a))
  {
    var e := Step(s, t, a);
    assert e.joined == s.joined || e.joined == s.joined + [t];
  }

  lemma {:induction false} ReachableJoined(n: nat, run: Run)
    requires RunOk(n, run)
    ensures HaveJoined(Exec(n, run))
  {
    if run != [] {
      ReachableJoined(n, run[..|run| - 1]);
      StepJoined(Exec(n, run[..|run| - 1]), run[|run| - 1].0, run[|run| - 1].1);
    }
  }

  lemma {:induction false} SameMembers(q: seq<nat>, t: nat)
    ensures t in Reverse(q) <==> t in q
  {
    if q != [] {
      SameMembers(q[1..], t);
      assert q == [q[0]] + q[1..];
    }
  }

  /** A future with a node is in the list exactly until the wake-ups have reached the
      place at which it joined, and that wake-up was its own. */
  lemma InListIff(n: nat, run: Run, t: nat)
    requires RunOk(n, run) && t < n && Exec(n, run).registered[t]
    ensures var s := Exec(n, run);
            && t in s.joined
            && (t in s.queue <==> |s.woken| <= LastJoin(s.joined, t))
            && (t !in s.queue ==> s.woken[LastJoin(s.joined, t)] == t)
  {
    var s := Exec(n, run);
    Reachable(n, run);
    ReachableJoined(n, run);
    var j := LastJoin(s.joined, t);
    SameMembers(s.queue, t);
    assert forall i :: |s.woken| <= i < |s.joined| ==> s.joined[i] == Reverse(s.queue)[i - |s.woken|];
    if t in Reverse(s.queue) {
      var i :| 0 <= i < |s.queue| && Reverse(s.queue)[i] == t;
      assert s.joined[|s.woken| + i] == t;
    }
  }

  /** So over every run: a poll that finds the mutex locked ends with its thread in the list
      exactly when the future had no node, or the wake-ups have not reached the place at
      which it last joined. */
  lemma AsleepInListIff(n: nat, run: Run, t: nat)
    requires RunOk(n, run) && t < n && Exec(n, run).pcs[t] == Inserting
    ensures var s := Exec(n, run);
            && (s.registered[t] ==> t in s.joined)
            && (t in Step(s, t, Edit).queue <==> (s.registered[t] ==> |s.woken| <= LastJoin(s.joined, t)))
  {
    if Exec(n, run).registered[t] {
      InListIff(n, run, t);
    }
  }

  predicate Locks(a: Action) {
    a == TryLock || a == Poll
  }

  /** `e` is reached from `s` by steps of threads other than `t`; if `quiet`, by steps
      that end what is under way and try for no new lock. */
  ghost predicate Reaches(s: State, e: State, t: nat, quiet: bool) {
    Shaped(s) && exists run :: RunOk(|s.pcs|, run) && Apart(run, t, quiet) && RunFrom(s, run) == e
  }

  ghost predicate Apart(run: Run, t: nat, quiet: bool) {
    forall i :: 0 <= i < |run| ==> run[i].0 != t && (quiet ==> !Locks(run[i].1))
  }

  lemma ReachesSelf(s: State, t: nat, quiet: bool)
    requires Shaped(s)
    ensures Reaches(s, s, t, quiet)
  {
    assert RunFrom(s, []) == s && Apart([], t, quiet) && RunOk(|s.pcs|, []);
  }

  lemma ReachesNext(s: State, e: State, t: nat, quiet: bool, u: nat, a: Action)
    requires Reaches(s, e, t, quiet) && u < |s.pcs| && u != t && (quiet ==> !Locks(a))
    ensures Shaped(e) && u < |e.pcs| && Reaches(s, Step(e, u, a), t, quiet)
  {
    var run :| RunOk(|s.pcs|, run) && Apart(run, t, quiet) && RunFrom(s, run) == e;
    var more := run + [(u, a)];
    assert more[..|run|] == run;
    assert RunOk(|s.pcs|, more) && Apart(more, t, quiet) && RunFrom(s, more) == Step(e, u, a);
  }

  lemma {:induction false} RunSound(s: State, run: Run)
    requires Sound(s) && RunOk(|s.pcs|, run)
    ensures Sound(RunFrom(s, run))
  {
    if run != [] {
      RunSound(s, run[..|run| - 1]);
      StepSound(RunFrom(s, run[..|run| - 1]), run[|run| - 1].0, run[|run| - 1].1);
    }
  }

  lemma ReachesSound(s: State, e: State, t: nat, quiet: bool)
    requires Sound(s) && Reaches(s, e, t, quiet)
    ensures Sound(e)
  {
    var run :| RunOk(|s.pcs|, run) && Apart(run, t, quiet) && RunFrom(s, run) == e;
    RunSound(s, run);
  }

  /** Thread `t` sleeps in `e`, a state reached from `s` without it. */
  ghost predicate Sleeps(s: State, e: State, t: nat, quiet: bool) {
    Reaches(s, e, t, quiet) && Shaped(e) && |e.pcs| == |s.pcs| && t < |e.pcs| && e.pcs[t] == Idle
  }

  lemma SleepsOn(s: State, e: State, t: nat, quiet: bool, u: nat, a: Action) returns (e': State)
    requires Sleeps(s, e, t, quiet) && u < |s.pcs| && u != t && (quiet ==> !Locks(a))
    ensures e' == Step(e, u, a) && Sleeps(s, e', t, quiet)
    ensures forall v :: 0 <= v < |e.pcs| && v != u ==> e'.pcs[v] == e.pcs[v]
  {
    e' := Step(e, u, a);
    ReachesNext(s, e, t, quiet, u, a);
    StepOthers(e, u, a);
  }

  /** Thread `h`, which edits the list and wakes nobody, lets go of it. */
  lemma LetsGo(s: State, e: State, t: nat, quiet: bool, h: nat) returns (e': State, p: seq<nat>)
    requires Sleeps(s, e, t, quiet) && h < |e.pcs| && InSection(e.pcs[h]) && e.pcs[h] != Popping
    ensures Sleeps(s, e', t, quiet) && !e'.listLocked && e'.woken == e.woken && e'.queue == p + e.queue
    ensures e'.locked == e.locked && forall u :: 0 <= u < |e.pcs| && e.pcs[u] == WantPop ==> e'.pcs[u] == WantPop
  {
    if e.pcs[h] == Inserting {
      var e1 := SleepsOn(s, e, t, quiet, h, Edit);
      p := if e.registered[h] then [] else [h];
      e' := Leaves(s, e1, t, quiet, h);
    } else {
      p := [];
      e' := Leaves(s, e, t, quiet, h);
    }
  }

  lemma Leaves(s: State, e: State, t: nat, quiet: bool, h: nat) returns (e': State)
    requires Sleeps(s, e, t, quiet) && h < |e.pcs| && (e.pcs[h] == Inserted || e.pcs[h] == Popped)
    ensures Sleeps(s, e', t, quiet) && e'.pcs[h] == Idle && !e'.listLocked
    ensures e'.woken == e.woken && e'.queue == e.queue && e'.locked == e.locked
    ensures forall u :: 0 <= u < |e.pcs| && u != h ==> e'.pcs[u] == e.pcs[u]
  {
    e' := SleepsOn(s, e, t, quiet, h, LeaveList);
  }

  lemma FreeTheList(s: State, e: State, t: nat, quiet: bool) returns (e': State, p: seq<nat>)
    requires Sound(s) && Sleeps(s, e, t, quiet) && forall u :: 0 <= u < |e.pcs| ==> e.pcs[u] != Popping
    ensures Sleeps(s, e', t, quiet) && !e'.listLocked && e'.woken == e.woken && e'.queue == p + e.queue
    ensures Waking(e) ==> Waking(e')
  {
    e', p := e, [];
    ReachesSound(s, e, t, quiet);
    if e.listLocked {
      var h :| 0 <= h < |e.pcs| && InSection(e.pcs[h]);
      e', p := LetsGo(s, e, t, quiet, h);
      if Waking(e) && !e.locked {
        var u :| 0 <= u < |e.pcs| && e.pcs[u] == WantPop;
        assert e'.pcs[u] == WantPop;
      }
    }
  }

  /** Thread `u` wakes the one who has waited longest. */
  lemma PopsInside(s: State, e: State, t: nat, quiet: bool, u: nat) returns (e': State)
    requires Sleeps(s, e, t, quiet) && e.queue != [] && u < |e.pcs| && e.pcs[u] == Popping
    ensures Sleeps(s, e', t, quiet) && Woke(e, e', [])
  {
    e' := SleepsOn(s, e, t, quiet, u, Edit);
  }

  lemma PopsOutside(s: State, e: State, t: nat, quiet: bool, u: nat) returns (e': State)
    requires Sleeps(s, e, t, quiet) && e.queue != [] && u < |e.pcs| && !e.listLocked && e.pcs[u] == WantPop
    ensures Sleeps(s, e', t, quiet) && Woke(e, e', [])
  {
    var e1 := SleepsOn(s, e, t, quiet, u, EnterList);
    e' := PopsInside(s, e1, t, quiet, u);
  }

  lemma Pops(s: State, e: State, t: nat, quiet: bool, u: nat) returns (e': State)
    requires Sleeps(s, e, t, quiet) && e.queue != [] && u < |e.pcs| && !e.listLocked
    requires e.pcs[u] == WantPop || e.pcs[u] == Guard
    ensures Sleeps(s, e', t, quiet) && Woke(e, e', [])
  {
    if e.pcs[u] == WantPop {
      e' := PopsOutside(s, e, t, quiet, u);
    } else {
      var e1 := SleepsOn(s, e, t, quiet, u, Drop);
      e' := PopsOutside(s, e1, t, quiet, u);
    }
  }

  /** One waker fired, the oldest; `p` joined. */
  ghost predicate Woke(e: State, e': State, p: seq<nat>) {
    && e.queue != []
    && e'.woken == e.woken + [e.queue[|e.queue| - 1]]
    && e'.queue == p + e.queue[..|e.queue| - 1]
  }

  /** Another thread takes the free mutex. */
  lemma TakesLock(s: State, e: State, t: nat, u: nat) returns (e': State, p: seq<nat>)
    requires Sleeps(s, e, t, false) && u < |e.pcs| && u != t && !e.listLocked && !e.locked
    requires e.pcs[u] == Idle || e.pcs[u] == WantInsert
    ensures Sleeps(s, e', t, false) && e'.pcs[u] == Guard && !e'.listLocked
    ensures e'.woken == e.woken && e'.queue == p + e.queue
  {
    e', p := e, [];
    if e.pcs[u] == WantInsert {
      e' := SleepsOn(s, e', t, false, u, EnterList);
      p := if e'.registered[u] then [] else [u];
      e' := SleepsOn(s, e', t, false, u, Edit);
      e' := Leaves(s, e', t, false, u);
    }
    e' := SleepsOn(s, e', t, false, u, TryLock);
  }

  /** With the list free and nobody on the way to it, threads are idle or about to
      register; otherwise some thread can go there. */
  lemma Somebody(e: State, t: nat) returns (u: nat)
    requires Sound(e) && !e.listLocked && t < |e.pcs| && e.pcs[t] == Idle && (Waking(e) || |e.pcs| > 1)
    ensures u < |e.pcs| && u != t
    ensures if Waking(e) then e.pcs[u] == WantPop || e.pcs[u] == Guard
            else !e.locked && (e.pcs[u] == Idle || e.pcs[u] == WantInsert)
  {
    if Waking(e) {
      u :| 0 <= u < |e.pcs| && (e.pcs[u] == WantPop || e.pcs[u] == Guard);
    } else {
      u := if t == 0 then 1 else 0;
      assert !InSection(e.pcs[u]);
    }
  }

  /** With the list free, the longest waiting thread can be woken. */
  lemma WakeFreely(s: State, e: State, t: nat, quiet: bool) returns (e': State, p: seq<nat>)
    requires Sound(s) && Sleeps(s, e, t, quiet) && !e.listLocked && e.queue != []
    requires if quiet then Waking(e) else |e.pcs| > 1
    ensures Sleeps(s, e', t, quiet) && Woke(e, e', p)
  {
    ReachesSound(s, e, t, quiet);
    var u := Somebody(e, t);
    e', p := e, [];
    if !Waking(e) {
      e', p := TakesLock(s, e, t, u);
    }
    e' := Pops(s, e', t, quiet, u);
  }

  /** The longest waiting thread can be woken without a step of `t`: by those under
      way if there are any, otherwise by any other thread. */
  lemma WakeOne(s: State, e: State, t: nat, quiet: bool) returns (e': State, p: seq<nat>)
    requires Sound(s) && Sleeps(s, e, t, quiet) && e.queue != [] && (if quiet then Waking(e) else |e.pcs| > 1)
    ensures Sleeps(s, e', t, quiet) && Woke(e, e', p)
  {
    p := [];
    if u :| 0 <= u < |e.pcs| && e.pcs[u] == Popping {
      e' := PopsInside(s, e, t, quiet, u);
    } else {
      var e1, p1 := FreeTheList(s, e, t, quiet);
      e', p := WakeFreely(s, e1, t, quiet);
      p := p + p1;
    }
  }

  /** Its turn comes after `k` others. */
  lemma {:induction false} TurnComes(s: State, e: State, t: nat, k: nat) returns (e': State)
    requires Sound(s) && Sleeps(s, e, t, false) && |e.pcs| > 1
    requires k < |e.queue| && e.queue[|e.queue| - 1 - k] == t && |s.woken| <= |e.woken|
    ensures Reaches(s, e', t, false) && |s.woken| <= |e'.woken| && t in e'.woken[|s.woken|..]
    decreases k
  {
    var p;
    e', p := WakeOne(s, e, t, false);
    if k > 0 {
      e' := TurnComes(s, e', t, k - 1);
    } else {
      assert e'.woken[|e.woken|] == t;
    }
  }

  ghost predicate Wakes(s: State, e: State, t: nat) {
    |s.woken| <= |e.woken| && t in e.woken[|s.woken|..]
  }

  lemma StepNeverWakes(s: State, u: nat, a: Action, t: nat)
    requires Shaped(s) && u < |s.pcs| && u != t && t !in s.queue
    ensures var e := Step(s, u, a);
            t !in e.queue && (e.woken == s.woken || exists x :: x != t && e.woken == s.woken + [x])
  {
    var e := Step(s, u, a);
    if e.woken != s.woken {
      assert e.woken == s.woken + [s.queue[|s.queue| - 1]];
    }
  }

  lemma {:induction false} NeverWoken(s: State, t: nat, run: Run)
    requires Shaped(s) && RunOk(|s.pcs|, run) && Apart(run, t, false) && t !in s.queue
    ensures t !in RunFrom(s, run).queue && !Wakes(s, RunFrom(s, run), t) && |s.woken| <= |RunFrom(s, run).woken|
  {
    if run != [] {
      NeverWoken(s, t, run[..|run| - 1]);
      StepNeverWakes(RunFrom(s, run[..|run| - 1]), run[|run| - 1].0, run[|run| - 1].1, t);
    }
  }

  lemma NotAlone(n: nat, run: Run, t: nat)
    requires RunOk(n, run) && t < n && Apart(run, t, false) && run != []
    ensures n > 1
  {
    assert run[0].0 != t;
  }

  /** A sleeping thread can be woken by the others exactly when it is in the list and
      there are others. */
  lemma WakeableIff(s: State, t: nat)
    requires Sound(s) && t < |s.pcs| && s.pcs[t] == Idle
    ensures (exists e :: Reaches(s, e, t, false) && Wakes(s, e, t)) <==> t in s.queue && |s.pcs| > 1
  {
    if t in s.queue && |s.pcs| > 1 {
      ReachesSelf(s, t, false);
      var i :| 0 <= i < |s.queue| && s.queue[i] == t;
      var e := TurnComes(s, s, t, |s.queue| - 1 - i);
    }
    if e :| Reaches(s, e, t, false) && Wakes(s, e, t) {
      var run: Run :| RunOk(|s.pcs|, run) && Apart(run, t, false) && RunFrom(s, run) == e;
      if t !in s.queue {
        NeverWoken(s, t, run);
      }
      if run != [] {
        NotAlone(|s.pcs|, run, t);
      }
    }
  }

  lemma StepWakesNobody(s: State, u: nat, a: Action)
    requires Shaped(s) && u < |s.pcs| && !Waking(s) && !Locks(a)
    requires forall v :: 0 <= v < |s.pcs| ==> s.pcs[v] != Guard
    ensures var e := Step(s, u, a);
            e.woken == s.woken && !Waking(e) && forall v :: 0 <= v < |e.pcs| ==> e.pcs[v] != Guard
  {
    StepOthers(s, u, a);
    var e := Step(s, u, a);
    assert e.pcs[u] != Guard && e.pcs[u] != WantPop && e.pcs[u] != Popping;
  }

  lemma {:induction false} WakesNobody(s: State, t: nat, run: Run)
    requires Shaped(s) && RunOk(|s.pcs|, run) && Apart(run, t, true) && !Waking(s)
    requires forall v :: 0 <= v < |s.pcs| ==> s.pcs[v] != Guard
    ensures var e := RunFrom(s, run);
            e.woken == s.woken && !Waking(e) && forall v :: 0 <= v < |e.pcs| ==> e.pcs[v] != Guard
  {
    if run != [] {
      WakesNobody(s, t, run[..|run| - 1]);
      StepWakesNobody(RunFrom(s, run[..|run| - 1]), run[|run| - 1].0, run[|run| - 1].1);
    }
  }

  /** While somebody waits, ending what is under way wakes somebody exactly when the
      mutex is locked or a thread that unlocked it is still on its way to the list:
      otherwise all in the list sleep until a new thread takes the free mutex. */
  lemma StillComingIff(s: State, t: nat)
    requires Sound(s) && t < |s.pcs| && s.pcs[t] == Idle && s.queue != []
    ensures (exists e :: Reaches(s, e, t, true) && |e.woken| > |s.woken|) <==> Waking(s)
  {
    if Waking(s) {
      ReachesSelf(s, t, true);
      var e, p := WakeOne(s, s, t, true);
    } else if e :| Reaches(s, e, t, true) && |e.woken| > |s.woken| {
      var run :| RunOk(|s.pcs|, run) && Apart(run, t, true) && RunFrom(s, run) == e;
      WakesNobody(s, t, run);
    }
  }

  /** A state of two threads in which only the second ever registers. */
  function Two(p: Pc, q: Pc, locked: bool, listLocked: bool, queue: seq<nat>): State {
    State([p, q], [false, queue == [1]], locked, listLocked, queue, queue, [])
  }

  lemma Contended()
    ensures CanReach(Two(Guard, WantInsert, true, false, []))
  {
    var s := Two(Idle, Idle, false, false, []);
    assert s == Init(2) == Exec(2, []);
    GoOn(s, 0, Poll, Two(Guard, Idle, true, false, []));
    GoOn(Two(Guard, Idle, true, false, []), 1, Poll, Two(Guard, WantInsert, true, false, []));
  }

  lemma Overlap()
    ensures CanReach(Two(WantPop, WantInsert, false, false, []))
  {
    Contended();
    GoOn(Two(Guard, WantInsert, true, false, []), 0, Drop, Two(WantPop, WantInsert, false, false, []));
  }

  lemma NobodyToWake()
    ensures CanReach(Two(Idle, WantInsert, false, false, []))
  {
    Overlap();
    GoOn(Two(WantPop, WantInsert, false, false, []), 0, EnterList, Two(Popping, WantInsert, false, true, []));
    GoOn(Two(Popping, WantInsert, false, true, []), 0, Edit, Two(Popped, WantInsert, false, true, []));
    GoOn(Two(Popped, WantInsert, false, true, []), 0, LeaveList, Two(Idle, WantInsert, false, false, []));
  }

  /** A thread can go to sleep on a free mutex with nobody on the way to wake it. */
  lemma SleepsOnFreeMutex()
    ensures CanReach(Two(Idle, Idle, false, false, [1])) && !Waking(Two(Idle, Idle, false, false, [1]))
  {
    NobodyToWake();
    GoOn(Two(Idle, WantInsert, false, false, []), 1, EnterList, Two(Idle, Inserting, false, true, []));
    GoOn(Two(Idle, Inserting, false, true, []), 1, Edit, Two(Idle, Inserted, false, true, [1]));
    GoOn(Two(Idle, Inserted, false, true, [1]), 1, LeaveList, Two(Idle, Idle, false, false, [1]));
  }

  lemma InTime()
    ensures CanReach(Two(Guard, Inserted, true, true, [1]))
  {
    Contended();
    GoOn(Two(Guard, WantInsert, true, false, []), 1, EnterList, Two(Guard, Inserting, true, true, []));
    GoOn(Two(Guard, Inserting, true, true, []), 1, Edit, Two(Guard, Inserted, true, true, [1]));
  }

  lemma Unlocking()
    ensures CanReach(Two(Popping, Idle, false, true, [1]))
  {
    InTime();
    GoOn(Two(Guard, Inserted, true, true, [1]), 1, LeaveList, Two(Guard, Idle, true, false, [1]));
    GoOn(Two(Guard, Idle, true, false, [1]), 0, Drop, Two(WantPop, Idle, false, false, [1]));
    GoOn(Two(WantPop, Idle, false, false, [1]), 0, EnterList, Two(Popping, Idle, false, true, [1]));
  }

  /** The same two threads after the second has been woken. */
  function Woken(p: Pc, q: Pc, locked: bool, listLocked: bool): State {
    State([p, q], [false, true], locked, listLocked, [], [1], [1])
  }

  lemma LockedAgain()
    ensures CanReach(Woken(Guard, Idle, true, false))
  {
    Unlocking();
    assert [1][..0] == [];
    GoOn(Two(Popping, Idle, false, true, [1]), 0, Edit, Woken(Popped, Idle, false, true));
    GoOn(Woken(Popped, Idle, false, true), 0, LeaveList, Woken(Idle, Idle, false, false));
    GoOn(Woken(Idle, Idle, false, false), 0, TryLock, Woken(Guard, Idle, true, false));
  }

  lemma PolledInVain()
    ensures CanReach(Woken(Guard, Inserting, true, true))
  {
    LockedAgain();
    GoOn(Woken(Guard, Idle, true, false), 1, Poll, Woken(Guard, WantInsert, true, false));
    GoOn(Woken(Guard, WantInsert, true, false), 1, EnterList, Woken(Guard, Inserting, true, true));
  }

  lemma EndsUnlisted()
    ensures var s := Woken(Guard, Inserting, true, true);
            Step(Step(s, 1, Edit), 1, LeaveList) == Woken(Guard, Idle, true, false)
  {
  }

  /** A woken thread that finds the mutex locked again keeps its node, which is no
      longer in the list: its poll ends with the mutex held and nobody able to wake it. */
  lemma SleepsUnlisted()
    ensures var s := Woken(Guard, Inserting, true, true);
            CanReach(s) && NoWakeFor(Step(Step(s, 1, Edit), 1, LeaveList), 1)
  {
    PolledInVain();
    EndsUnlisted();
    LockedAgain();
    var s := Woken(Guard, Idle, true, false);
    SoundOf(s);
    WakeableIff(s, 1);
  }

  ghost predicate NoWakeFor(s: State, t: nat) {
    t < |s.pcs| && s.pcs[t] == Idle && forall e :: Reaches(s, e, t, false) ==> !Wakes(s, e, t)
  }

  lemma SoundOf(s: State)
    requires CanReach(s)
    ensures Sound(s)
  {
    var run :| RunOk(|s.pcs|, run) && Exec(|s.pcs|, run) == s;
    Reachable(|s.pcs|, run);
  }

  /** The machine with its waker list in memory: after any run the linked list is a
      proper circle and holds the wakers of the model's queue. */
  method Drive(n: nat, run: Run) returns (s: State, list: W.List)
    requires RunOk(n, run)
    ensures s == Exec(n, run)
    ensures OneGuard(s) && OneEditor(s) && InOrder(s)
    ensures list.Valid() && W.Wakers(list.nodes) == s.queue
  {
    s := Init(n);
    list := new W.List();
    var i := 0;
    while i < |run|
      invariant 0 <= i <= |run| && s == Exec(n, run[..i])
      invariant fresh(list) && fresh(list.nodes) && list.Valid() && W.Wakers(list.nodes) == s.queue
    {
      Access(s, run[i].0, run[i].1, list);
      s := Step(s, run[i].0, run[i].1);
      assert run[..i + 1][..i] == run[..i];
      i := i + 1;
    }
    assert run[..i] == run;
    Reachable(n, run);
  }

  /** The pointer surgery behind a step, if it edits the list. */
  method Access(s: State, t: nat, a: Action, list: W.List)
    requires Shaped(s) && t < |s.pcs| && list.Valid() && W.Wakers(list.nodes) == s.queue
    modifies list, list.nodes
    ensures list.Valid() && W.Wakers(list.nodes) == Step(s, t, a).queue
    ensures fresh(set node | node in list.nodes && node !in old(list.nodes))
  {
    if a == Edit && s.pcs[t] == Inserting && !s.registered[t] {
      var node := new W.WakerNode(t);
      list.Insert(node);
    } else if a == Edit && s.pcs[t] == Popping {
      var woken := list.Remove();
      assert s.queue != [] ==> W.Wakers(list.nodes) == s.queue[..|s.queue| - 1];
    }
  }
}
