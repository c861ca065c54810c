/** Tasks, wakers and the two ways to wait: the unbounded channel and the one-shot
    cell, on one executor. The executor is a machine; its steps are the critical
    sections of the channel, the cell and the run queue. Senders, setters and wakers
    may act between any two steps, from an interrupt or another core.
 */
module TaskWake {

  import opened Common

  /** What a waiting task is doing. A task woken from its wait is `Resumed` and polls
      the same future again; a `Running` one is free to do anything. */
  datatype Phase =
    | Parked    // not being polled, waiting for something else or not started
    | Running | Resumed
    | Pended    // its poll has seen Pending and has not returned yet
    | Asleep    // its last poll was Pending
    | Done

  datatype Chan = Chan(buffer: seq<int>, wakers: seq<nat>, senders: nat)
  datatype Cell = Cell(inner: Option<int>, waker: Option<nat>)

  /** `queue` holds the ids to run, `tasks` the unfinished tasks, `current` the one
      being polled. The last five fields record what went in and came out; `ends` counts
      the polls that reported the end of the stream. */
  datatype State = State(
    queue: seq<nat>, tasks: set<nat>, current: Option<nat>,
    chan: Chan, consumer: Phase, cell: Cell, getter: Phase,
    sent: seq<int>, received: seq<int>, ends: nat, put: Option<int>, got: Option<int>)

  datatype Action =
    | Send(msg: int) | CloneSender | DropSender | Put(value: int)
    | Wake(id: nat) | Spawn(id: nat)
    | Pop | RecvPoll | GetPoll | ReturnPending | ReturnReady

  /** The consumer of the channel and the getter of the cell. */
  datatype Roles = Roles(c: nat, g: nat)

  // ----- the channel and the cell -----

  /** The channel after a send, and whom it wakes. */
  function SendTo(ch: Chan, msg: int): (Chan, Option<nat>) {
    if ch.wakers == [] then (ch.(buffer := ch.buffer + [msg]), None)
    else (ch.(buffer := ch.buffer + [msg], wakers := ch.wakers[1..]), Some(ch.wakers[0]))
  }

  datatype Polled = Ready(msg: Option<int>) | Pending

  function PollRecv(ch: Chan, id: nat): (Chan, Polled) {
    if ch.buffer != [] then (ch.(buffer := ch.buffer[1..]), Ready(Some(ch.buffer[0])))
    else if ch.senders == 0 then (ch, Ready(None))
    else (ch.(wakers := ch.wakers + [id]), Pending)
  }

  function PollGet(cell: Cell, id: nat): (Cell, Polled) {
    if cell.inner.Some? then (cell.(inner := None), Ready(cell.inner)) else (cell.(waker := Some(id)), Pending)
  }

  /** Some sends, and the tasks that they wake, in order. */
  function SendAll(ch: Chan, msgs: seq<int>): (Chan, seq<nat>) {
    if msgs == [] then (ch, []) else
      var (ch', woken) := SendAll(ch, msgs[..|msgs| - 1]);
      (SendTo(ch', msgs[|msgs| - 1]).0, Push(woken, SendTo(ch', msgs[|msgs| - 1]).1))
  }

  /** `n` polls, and the messages that they return, in order. */
  function RecvAll(ch: Chan, id: nat, n: nat): (Chan, seq<int>) {
    if n == 0 then (ch, []) else
      var (ch', msgs) := RecvAll(ch, id, n - 1);
      var (ch'', r) := PollRecv(ch', id);
      (ch'', if r.Ready? && r.msg.Some? then msgs + [r.msg.value] else msgs)
  }

  function Min(a: nat, b: nat): nat {
    if a < b then a else b
  }

  /** Each send wakes one waiting task, those that have waited longest first, until
      none is left. */
  lemma {:induction false} WokenInTurn(ch: Chan, msgs: seq<int>)
    ensures var n := Min(|msgs|, |ch.wakers|);
            SendAll(ch, msgs) == (Chan(ch.buffer + msgs, ch.wakers[n..], ch.senders), ch.wakers[..n])
  {
    if msgs == [] {
      assert ch.buffer + msgs == ch.buffer;
    } else {
      var last := |msgs| - 1;
      WokenInTurn(ch, msgs[..last]);
      assert ch.buffer + msgs == (ch.buffer + msgs[..last]) + [msgs[last]];
      var w, n := ch.wakers, Min(last, |ch.wakers|);
      if n < |w| {
        OneFurther(w, n);
      }
    }
  }

  lemma OneFurther<T>(s: seq<T>, n: nat)
    requires n < |s|
    ensures s[n..][0] == s[n] && s[n..][1..] == s[n + 1..] && s[..n] + [s[n]] == s[..n + 1]
  {
  }

  lemma {:induction false} TakenInTurn(ch: Chan, id: nat, n: nat)
    requires n <= |ch.buffer|
    ensures RecvAll(ch, id, n) == (ch.(buffer := ch.buffer[n..]), ch.buffer[..n])
  {
    if n > 0 {
      TakenInTurn(ch, id, n - 1);
      OneFurther(ch.buffer, n - 1);
    }
  }

  /** What was sent comes out behind what was there, in order and once each. */
  lemma SentComesOut(ch: Chan, msgs: seq<int>, id: nat)
    ensures var (ch', got) := RecvAll(SendAll(ch, msgs).0, id, |ch.buffer| + |msgs|);
            got == ch.buffer + msgs && ch'.buffer == []
  {
    WokenInTurn(ch, msgs);
    var sent := SendAll(ch, msgs).0;
    TakenInTurn(sent, id, |sent.buffer|);
    assert sent.buffer[..|sent.buffer|] == sent.buffer;
  }

  /** A poll of an empty, open channel waits, and one send more than tasks have waited
      longer wakes the one who polled. */
  lemma PendingIsWoken(ch: Chan, id: nat, msgs: seq<int>)
    requires ch.buffer == [] && ch.senders > 0 && |msgs| == |ch.wakers| + 1
    ensures PollRecv(ch, id).1 == Pending && SendAll(PollRecv(ch, id).0, msgs).1 == ch.wakers + [id]
  {
    WokenInTurn(PollRecv(ch, id).0, msgs);
  }

  /** What the polls by `ids` return, in order. */
  function PollAll(ch: Chan, ids: seq<nat>): (Chan, seq<Polled>) {
    if ids == [] then (ch, []) else
      var (ch', rs) := PollAll(ch, ids[..|ids| - 1]);
      var (ch'', r) := PollRecv(ch', ids[|ids| - 1]);
      (ch'', rs + [r])
  }

  /** What poll `k` of a series returns: the messages in order, then that there is nothing
      yet or, without a sender, that there is nothing more. */
  function Answer(ch: Chan, k: nat): Polled {
    if k < |ch.buffer| then Ready(Some(ch.buffer[k])) else if ch.senders == 0 then Ready(None) else Pending
  }

  /** Without a sender the messages left come out in order, every later poll ends the
      stream, and no waker is registered; with one the later polls all wait. */
  lemma {:induction false} PolledToTheEnd(ch: Chan, ids: seq<nat>)
    ensures var n := Min(|ids|, |ch.buffer|);
            && |PollAll(ch, ids).1| == |ids|
            && (forall k :: 0 <= k < |ids| ==> PollAll(ch, ids).1[k] == Answer(ch, k))
            && PollAll(ch, ids).0
               == Chan(ch.buffer[n..], if ch.senders == 0 then ch.wakers else ch.wakers + ids[n..], ch.senders)
  {
    if ids == [] {
      assert ch.wakers + ids == ch.wakers;
    } else {
      var last := |ids| - 1;
      PolledToTheEnd(ch, ids[..last]);
      if last < |ch.buffer| {
        OneFurther(ch.buffer, last);
      } else {
        var n := |ch.buffer|;
        assert ids[n..] == ids[..last][n..] + [ids[last]];
        assert ch.wakers + ids[n..] == ch.wakers + ids[..last][n..] + [ids[last]];
      }
    }
  }

  /** The cell after polls by `ids`, none of which finds a value. */
  function GetAll(cell: Cell, ids: seq<nat>): Cell {
    if ids == [] then cell else PollGet(GetAll(cell, ids[..|ids| - 1]), ids[|ids| - 1]).0
  }

  /** The cell after a set, and whom it wakes. */
  function SetTo(cell: Cell, value: int): (Cell, Option<nat>) {
    (cell.(inner := Some(value)), cell.waker)
  }

  /** However often an empty cell is polled before it is set, setting it wakes the last
      who polled; the next poll takes the value, and the one after that waits. */
  lemma {:induction false} PutIsGotOnce(cell: Cell, ids: seq<nat>, value: int, id: nat)
    requires cell.inner == None
    ensures GetAll(cell, ids).inner == None
    ensures ids != [] ==> SetTo(GetAll(cell, ids), value).1 == Some(ids[|ids| - 1])
    ensures var (after, r) := PollGet(SetTo(GetAll(cell, ids), value).0, id);
            r == Ready(Some(value)) && PollGet(after, id).1 == Pending
  {
    if ids != [] {
      PutIsGotOnce(cell, ids[..|ids| - 1], value, id);
    }
  }

  // ----- the machine -----

  function Push(queue: seq<nat>, id: Option<nat>): seq<nat> {
    if id.Some? then queue + [id.value] else queue
  }

  function Started(p: Phase): Phase {
    if p == Asleep then Resumed else Running
  }

  function Poll(s: State, k: Roles, id: nat): State {
    s.(current := Some(id),
       consumer := if id == k.c then Started(s.consumer) else s.consumer,
       getter := if id == k.g then Started(s.getter) else s.getter)
  }

  function Step(s: State, k: Roles, a: Action): State {
    match a
    case Send(m) =>
      if s.chan.senders == 0 then s else
        var (ch, w) := SendTo(s.chan, m);
        s.(chan := ch, queue := Push(s.queue, w), sent := s.sent + [m])
    case CloneSender =>
      if s.chan.senders == 0 then s else s.(chan := s.chan.(senders := s.chan.senders + 1))
    case DropSender =>
      if s.chan.senders == 0 then s else s.(chan := s.chan.(senders := s.chan.senders - 1))
    case Put(v) =>
      if s.put.Some? then s else
        var (cell, w) := SetTo(s.cell, v);
        s.(cell := cell, queue := Push(s.queue, w), put := Some(v))
    case Wake(id) => s.(queue := s.queue + [id])
    case Spawn(id) =>
      if id in s.tasks || id == k.c || id == k.g then s else s.(queue := s.queue + [id], tasks := s.tasks + {id})
    case Pop =>
      if s.current.Some? || s.queue == [] then s
      else if s.queue[0] !in s.tasks then s.(queue := s.queue[1..])
      else Poll(s.(queue := s.queue[1..]), k, s.queue[0])
    case RecvPoll =>
      if s.current != Some(k.c) || s.consumer == Pended then s else
        var (ch, r) := PollRecv(s.chan, k.c);
        if r.Pending? then s.(chan := ch, consumer := Pended)
        else if r.msg.None? then s.(chan := ch, consumer := Running, ends := s.ends + 1)
        else s.(chan := ch, consumer := Running, received := s.received + [r.msg.value])
    case GetPoll =>
      if s.current != Some(k.g) || s.getter == Pended || s.got.Some? then s else
        var (cell, r) := PollGet(s.cell, k.g);
        if r.Pending? then s.(cell := cell, getter := Pended)
        else s.(cell := cell, getter := Running, got := r.msg)
    case ReturnPending =>
      if s.current == None || (s.current == Some(k.c) && s.consumer == Resumed)
         || (s.current == Some(k.g) && s.getter == Resumed) then s
      else s.(current := None,
              consumer := if s.current == Some(k.c) then Rested(s.consumer) else s.consumer,
              getter := if s.current == Some(k.g) then Rested(s.getter) else s.getter)
    case ReturnReady =>
      if s.current == None || (s.current == Some(k.c) && s.consumer != Running)
         || (s.current == Some(k.g) && s.getter != Running) then s
      else s.(current := None, tasks := s.tasks - {s.current.value},
              consumer := if s.current == Some(k.c) then Done else s.consumer,
              getter := if s.current == Some(k.g) then Done else s.getter)
  }

  function Rested(p: Phase): Phase {
    if p == Pended then Asleep else Parked
  }

  /** The channel and the cell are new; both tasks exist; any ids are queued. */
  predicate Start(s: State, k: Roles) {
    && k.c != k.g && k.c in s.tasks && k.g in s.tasks && s.current == None
    && s.chan == Chan([], [], 1) && s.consumer == Parked && s.cell == Cell(None, None) && s.getter == Parked
    && s.sent == [] && s.received == [] && s.ends == 0 && s.put == None && s.got == None
  }

  function Exec(s: State, k: Roles, run: seq<Action>): State {
    if run == [] then s else Step(Exec(s, k, run[..|run| - 1]), k, run[|run| - 1])
  }

  // ----- no wake-up is lost -----

  predicate Polling(p: Phase) {
    p == Running || p == Resumed || p == Pended
  }

  predicate Waiting(p: Phase) {
    p == Pended || p == Asleep
  }

  ghost predicate ChanInv(s: State, k: Roles) {
    && (forall i :: 0 <= i < |s.chan.wakers| ==> s.chan.wakers[i] == k.c)
    && (s.current == Some(k.c) <==> Polling(s.consumer))
    && (k.c in s.tasks <==> s.consumer != Done)
    && s.sent == s.received + s.chan.buffer
    && (Waiting(s.consumer) ==> k.c in s.queue || (s.chan.buffer == [] && s.chan.wakers != []))
  }

  ghost predicate CellInv(s: State, k: Roles) {
    && (s.cell.waker.Some? ==> s.cell.waker == Some(k.g))
    && (s.current == Some(k.g) <==> Polling(s.getter))
    && (k.g in s.tasks <==> s.getter != Done)
    && (s.put == None ==> s.cell.inner == None && s.got == None)
    && (s.put.Some? ==> (s.got == None && s.cell.inner == s.put) || (s.got == s.put && s.cell.inner == None))
    && (Waiting(s.getter) ==> s.cell.waker == Some(k.g) && (s.cell.inner.Some? ==> k.g in s.queue))
  }

  lemma SendKeeps(s: State, k: Roles, m: int)
    requires k.c != k.g && ChanInv(s, k)
    ensures ChanInv(Step(s, k, Send(m)), k)
  {
    assert s.received + (s.chan.buffer + [m]) == (s.received + s.chan.buffer) + [m];
  }

  lemma RecvKeeps(s: State, k: Roles)
    requires k.c != k.g && ChanInv(s, k)
    ensures ChanInv(Step(s, k, RecvPoll), k)
  {
    var b := s.chan.buffer;
    if b != [] {
      assert s.received + b == (s.received + [b[0]]) + b[1..];
    }
  }

  lemma StepChan(s: State, k: Roles, a: Action)
    requires k.c != k.g && ChanInv(s, k)
    ensures ChanInv(Step(s, k, a), k)
  {
    if a.Send? {
      SendKeeps(s, k, a.msg);
    } else if a.RecvPoll? {
      RecvKeeps(s, k);
    }
  }

  lemma StepCell(s: State, k: Roles, a: Action)
    requires k.c != k.g && CellInv(s, k)
    ensures CellInv(Step(s, k, a), k)
  {
  }

  /** Over every run: a task whose last poll was Pending, with something to receive,
      is queued to run or being polled; messages come out in order, once each; the
      value of the cell comes out at most once. */
  lemma {:induction false} NoLostWakeup(s: State, k: Roles, run: seq<Action>)
    requires Start(s, k)
    ensures var e := Exec(s, k, run);
            && (e.consumer == Asleep && e.chan.buffer != [] ==> k.c in e.queue)
            && (e.getter == Asleep && e.cell.inner.Some? ==> k.g in e.queue)
            && e.sent == e.received + e.chan.buffer
            && (e.got.Some? ==> e.got == e.put && e.cell.inner == None)
    ensures ChanInv(Exec(s, k, run), k) && CellInv(Exec(s, k, run), k)
  {
    if run != [] {
      var last := |run| - 1;
      NoLostWakeup(s, k, run[..last]);
      StepChan(Exec(s, k, run[..last]), k, run[last]);
      StepCell(Exec(s, k, run[..last]), k, run[last]);
    }
  }

  // ----- the run queue -----

  /** The id that an action puts at the back of the queue. */
  function Woken(s: State, k: Roles, a: Action): Option<nat> {
    match a
    case Send(m) => if s.chan.senders > 0 && s.chan.wakers != [] then Some(s.chan.wakers[0]) else None
    case Put(v) => if s.put == None then s.cell.waker else None
    case Wake(id) => Some(id)
    case Spawn(id) => if id in s.tasks || id == k.c || id == k.g then None else Some(id)
    case _ => None
  }

  function AllWoken(s: State, k: Roles, run: seq<Action>): seq<nat> {
    if run == [] then [] else
      var last := |run| - 1;
      Push(AllWoken(s, k, run[..last]), Woken(Exec(s, k, run[..last]), k, run[last]))
  }

  function AllPopped(s: State, k: Roles, run: seq<Action>): seq<nat> {
    if run == [] then [] else
      var last := |run| - 1;
      var e := Exec(s, k, run[..last]);
      AllPopped(s, k, run[..last]) + if Pops(e, run[last]) then [e.queue[0]] else []
  }

  lemma StepQueue(s: State, k: Roles, a: Action, woken: seq<nat>, popped: seq<nat>, start: seq<nat>)
    requires start + woken == popped + s.queue
    ensures start + Push(woken, Woken(s, k, a))
            == (popped + if Pops(s, a) then [s.queue[0]] else []) + Step(s, k, a).queue
  {
    if Woken(s, k, a).Some? {
      var x := Woken(s, k, a).value;
      assert start + (woken + [x]) == (start + woken) + [x];
      assert (popped + []) + (s.queue + [x]) == (popped + s.queue) + [x];
    } else if Pops(s, a) {
      assert s.queue == [s.queue[0]] + s.queue[1..];
    } else {
      assert popped + [] == popped;
    }
  }

  /** Over every run the ids popped are those queued at first and those woken since, in
      that order and once each: nobody is polled who was not woken. */
  lemma {:induction false} PoppedAsWoken(s: State, k: Roles, run: seq<Action>)
    ensures s.queue + AllWoken(s, k, run) == AllPopped(s, k, run) + Exec(s, k, run).queue
  {
    if run != [] {
      var last := |run| - 1;
      var front := run[..last];
      PoppedAsWoken(s, k, front);
      StepQueue(Exec(s, k, front), k, run[last], AllWoken(s, k, front), AllPopped(s, k, front), s.queue);
    }
  }

  ghost predicate PolledTask(s: State) {
    s.current.Some? ==> s.current.value in s.tasks
  }

  /** Only an unfinished task is polled, and a step starts a poll exactly when it pops the
      id of one. */
  lemma {:induction false} OnlyTasksPolled(s: State, k: Roles, run: seq<Action>, a: Action)
    requires PolledTask(s)
    ensures var e := Exec(s, k, run);
            && PolledTask(e)
            && (e.current == None && Step(e, k, a).current.Some? <==> Pops(e, a) && e.queue[0] in e.tasks)
            && (Pops(e, a) && e.queue[0] in e.tasks ==> Step(e, k, a).current == Some(e.queue[0]))
  {
    if run != [] {
      OnlyTasksPolled(s, k, run[..|run| - 1], run[|run| - 1]);
    }
  }

  // ----- the end of the stream -----

  /** The stream has ended only after all that was sent has come out, with no sender left. */
  ghost predicate EndInv(s: State) {
    s.ends > 0 ==> s.chan.senders == 0 && s.chan.buffer == []
  }

  /** The step polls the channel. */
  predicate Receives(s: State, k: Roles, a: Action) {
    a == RecvPoll && s.current == Some(k.c) && s.consumer != Pended
  }

  lemma StepEnd(s: State, k: Roles, a: Action)
    requires EndInv(s)
    ensures var e := Step(s, k, a);
            && EndInv(e)
            && (e.ends > s.ends <==> Receives(s, k, a) && s.chan.buffer == [] && s.chan.senders == 0)
            && (s.ends > 0 ==> e.sent == s.sent && e.received == s.received)
  {
  }

  lemma {:induction false} ReachableEnd(s: State, k: Roles, run: seq<Action>)
    requires Start(s, k)
    ensures EndInv(Exec(s, k, run))
  {
    if run != [] {
      ReachableEnd(s, k, run[..|run| - 1]);
      StepEnd(Exec(s, k, run[..|run| - 1]), k, run[|run| - 1]);
    }
  }

  /** Over every run: a poll ends the stream exactly when the buffer is empty and there is
      no sender; by then everything sent has been received; and nothing is sent or
      received afterwards. */
  lemma EndsIff(s: State, k: Roles, run: seq<Action>, a: Action)
    requires Start(s, k)
    ensures var e := Exec(s, k, run);
            && (Step(e, k, a).ends > e.ends <==> Receives(e, k, a) && e.chan.buffer == [] && e.chan.senders == 0)
            && (e.ends > 0 ==> e.received == e.sent)
            && (e.ends > 0 ==> Step(e, k, a).sent == e.sent && Step(e, k, a).received == e.received)
  {
    NoLostWakeup(s, k, run);
    ReachableEnd(s, k, run);
    StepEnd(Exec(s, k, run), k, a);
  }

  function CountPolls(s: State, k: Roles, run: seq<Action>): nat {
    if run == [] then 0 else
      var last := |run| - 1;
      CountPolls(s, k, run[..last]) + if Receives(Exec(s, k, run[..last]), k, run[last]) then 1 else 0
  }

  /** What `n` polls after the last sender was dropped have done to `s`: taken the messages
      left, in order, then ended the stream each time; registered nobody, waited never. */
  ghost predicate Drained(s: State, e: State, n: nat) {
    && e.chan == Chan(s.chan.buffer[Min(n, |s.chan.buffer|)..], s.chan.wakers, 0) && e.sent == s.sent
    && e.received == s.received + s.chan.buffer[..Min(n, |s.chan.buffer|)]
    && e.ends == s.ends + n - Min(n, |s.chan.buffer|)
    && (e.consumer == Pended ==> s.consumer == Pended)
  }

  lemma DrainStep(s: State, k: Roles, e: State, n: nat, a: Action)
    requires Drained(s, e, n)
    ensures Drained(s, Step(e, k, a), if Receives(e, k, a) then n + 1 else n)
  {
    var b := s.chan.buffer;
    if Receives(e, k, a) && n < |b| {
      OneFurther(b, n);
      assert s.received + b[..n] + [b[n]] == s.received + b[..n + 1];
    }
  }

  /** Once no sender is left, every run takes the stream to its end in this way. */
  lemma {:induction false} ClosedDrains(s: State, k: Roles, run: seq<Action>)
    requires s.chan.senders == 0
    ensures Drained(s, Exec(s, k, run), CountPolls(s, k, run))
  {
    if run == [] {
      assert s.received + s.chan.buffer[..0] == s.received;
    } else {
      ClosedDrains(s, k, run[..|run| - 1]);
      DrainStep(s, k, Exec(s, k, run[..|run| - 1]), CountPolls(s, k, run[..|run| - 1]), run[|run| - 1]);
    }
  }

  // ----- a queued task is polled in time -----

  /** How many ids are popped before `id` is. */
  function Ahead(queue: seq<nat>, id: nat): nat {
    if queue == [] || queue[0] == id then 0 else 1 + Ahead(queue[1..], id)
  }

  lemma {:induction false} AheadPush(queue: seq<nat>, id: nat, other: nat)
    requires id in queue
    ensures Ahead(queue + [other], id) == Ahead(queue, id)
  {
    if queue[0] != id {
      assert (queue + [other])[1..] == queue[1..] + [other];
      AheadPush(queue[1..], id, other);
    }
  }

  /** The step takes an id off the queue. */
  predicate Pops(s: State, a: Action) {
    a == Pop && s.current == None && s.queue != []
  }

  function CountPops(s: State, k: Roles, run: seq<Action>): nat {
    if run == [] then 0 else
      var last := |run| - 1;
      CountPops(s, k, run[..last]) + if Pops(Exec(s, k, run[..last]), run[last]) then 1 else 0
  }

  lemma StepAhead(s: State, k: Roles, a: Action, id: nat)
    requires id in s.queue && id in s.tasks && s.current != Some(id) && Step(s, k, a).current != Some(id)
    ensures var e := Step(s, k, a);
            && id in e.queue && id in e.tasks
            && Ahead(e.queue, id) + (if Pops(s, a) then 1 else 0) == Ahead(s.queue, id)
  {
    match a
    case Send(m) =>
      if s.chan.wakers != [] {
        AheadPush(s.queue, id, s.chan.wakers[0]);
      }
    case Put(v) =>
      if s.cell.waker.Some? {
        AheadPush(s.queue, id, s.cell.waker.value);
      }
    case Wake(w) => AheadPush(s.queue, id, w);
    case Spawn(w) => AheadPush(s.queue, id, w);
    case _ =>
  }

  ghost predicate NeverPolled(s: State, k: Roles, run: seq<Action>, id: nat) {
    forall i :: 0 <= i <= |run| ==> Exec(s, k, run[..i]).current != Some(id)
  }

  lemma {:induction false} StillQueued(s: State, k: Roles, run: seq<Action>, id: nat)
    requires id in s.queue && id in s.tasks && NeverPolled(s, k, run, id)
    ensures var e := Exec(s, k, run);
            && id in e.queue && id in e.tasks
            && Ahead(e.queue, id) + CountPops(s, k, run) == Ahead(s.queue, id)
  {
    if run != [] {
      var last := |run| - 1;
      var front := run[..last];
      assert NeverPolled(s, k, front, id) by {
        forall i | 0 <= i <= |front| ensures Exec(s, k, front[..i]).current != Some(id) {
          assert front[..i] == run[..i];
        }
      }
      StillQueued(s, k, front, id);
      assert run[..last + 1] == run;
      StepAhead(Exec(s, k, front), k, run[last], id);
    }
  }

  /** A queued, unfinished task is polled before the run loop has popped more ids
      than were ahead of it, whatever else happens in between. */
  lemma PolledInTime(s: State, k: Roles, run: seq<Action>, id: nat)
    requires id in s.queue && id in s.tasks && CountPops(s, k, run) > Ahead(s.queue, id)
    ensures exists i :: 0 <= i <= |run| && Exec(s, k, run[..i]).current == Some(id)
  {
    if NeverPolled(s, k, run, id) {
      StillQueued(s, k, run, id);
    }
  }

  lemma {:induction false} AheadBound(queue: seq<nat>, id: nat)
    ensures Ahead(queue + [id], id) <= |queue|
  {
    if queue != [] && queue[0] != id {
      assert (queue + [id])[1..] == queue[1..] + [id];
      AheadBound(queue[1..], id);
    }
  }

  /** A new task is polled once all that were queued before it have been popped. */
  lemma SpawnedIsPolled(s: State, k: Roles, id: nat, run: seq<Action>)
    requires id !in s.tasks && id != k.c && id != k.g
    requires CountPops(Step(s, k, Spawn(id)), k, run) > |s.queue|
    ensures exists i :: 0 <= i <= |run| && Exec(Step(s, k, Spawn(id)), k, run[..i]).current == Some(id)
  {
    AheadBound(s.queue, id);
    PolledInTime(Step(s, k, Spawn(id)), k, run, id);
  }

  predicate NeverSpawned(run: seq<Action>, id: nat) {
    forall i :: 0 <= i < |run| ==> run[i] != Spawn(id)
  }

  /** A task that has returned is gone: however often it is woken, it is not polled again. */
  lemma {:induction false} FinishedIsGone(s: State, k: Roles, id: nat, run: seq<Action>)
    requires s.current == Some(id) && Step(s, k, ReturnReady).current == None && NeverSpawned(run, id)
    ensures var e := Exec(Step(s, k, ReturnReady), k, run);
            id !in e.tasks && e.current != Some(id)
  {
    if run != [] {
      FinishedIsGone(s, k, id, run[..|run| - 1]);
    }
  }

  /** So a consumer that went to sleep is polled again once there is a message. */
  lemma MessageIsSeen(s: State, k: Roles, run: seq<Action>, more: seq<Action>)
    requires Start(s, k) && Exec(s, k, run).consumer == Asleep && Exec(s, k, run).chan.buffer != []
    requires CountPops(Exec(s, k, run), k, more) > Ahead(Exec(s, k, run).queue, k.c)
    ensures exists i :: 0 <= i <= |more| && Exec(Exec(s, k, run), k, more[..i]).current == Some(k.c)
  {
    NoLostWakeup(s, k, run);
    PolledInTime(Exec(s, k, run), k, more, k.c);
  }

  /** Dropping the last sender wakes nobody: a consumer can sleep on a closed channel
      for ever. */
  lemma ClosedUnheard(s: State, k: Roles) returns (e: State)
    requires Start(s, k) && s.queue == [k.c]
    ensures e == Exec(s, k, [Pop, RecvPoll, ReturnPending, DropSender])
    ensures e.consumer == Asleep && e.chan.senders == 0 && e.queue == [] && e.current == None
  {
    var r := [Pop, RecvPoll, ReturnPending, DropSender];
    assert r[..3] == [Pop, RecvPoll, ReturnPending] && r[..3][..2] == [Pop, RecvPoll] && [Pop, RecvPoll][..1] == [Pop];
    var s1 := Step(s, k, Pop);
    var s2 := Step(s1, k, RecvPoll);
    var s3 := Step(s2, k, ReturnPending);
    e := Step(s3, k, DropSender);
    assert Exec(s, k, [Pop]) == s1;
    assert Exec(s, k, [Pop, RecvPoll]) == s2;
    assert Exec(s, k, r[..3]) == s3;
  }

  predicate NoWakeFor(run: seq<Action>, id: nat) {
    forall i :: 0 <= i < |run| ==> run[i] != Wake(id)
  }

  /** The consumer sleeps on a closed channel and is not queued. */
  ghost predicate Unheard(s: State, k: Roles) {
    && k.c != k.g && ChanInv(s, k) && CellInv(s, k)
    && s.chan.senders == 0 && s.consumer == Asleep && k.c !in s.queue
  }

  lemma StepUnheard(s: State, k: Roles, a: Action)
    requires Unheard(s, k) && a != Wake(k.c)
    ensures Unheard(Step(s, k, a), k)
  {
    StepChan(s, k, a);
    StepCell(s, k, a);
  }

  /** It then hears nothing more: only a waker from elsewhere gets it polled again. */
  lemma {:induction false} ClosedStaysUnheard(s: State, k: Roles, run: seq<Action>)
    requires Unheard(s, k) && NoWakeFor(run, k.c)
    ensures Unheard(Exec(s, k, run), k) && Exec(s, k, run).current != Some(k.c)
  {
    if run != [] {
      var last := |run| - 1;
      ClosedStaysUnheard(s, k, run[..last]);
      StepUnheard(Exec(s, k, run[..last]), k, run[last]);
    }
  }

  /** A consumer asleep on a closed channel, not woken from elsewhere, is polled again
      within enough pops exactly when it is queued already. */
  lemma ClosedHeardIff(s: State, k: Roles, run: seq<Action>, more: seq<Action>)
    requires Start(s, k) && Exec(s, k, run).chan.senders == 0 && Exec(s, k, run).consumer == Asleep
    requires NoWakeFor(more, k.c) && CountPops(Exec(s, k, run), k, more) > Ahead(Exec(s, k, run).queue, k.c)
    ensures var e := Exec(s, k, run);
            (exists i :: 0 <= i <= |more| && Exec(e, k, more[..i]).current == Some(k.c)) <==> k.c in e.queue
  {
    NoLostWakeup(s, k, run);
    var e := Exec(s, k, run);
    if k.c in e.queue {
      PolledInTime(e, k, more, k.c);
    } else {
      forall i | 0 <= i <= |more| ensures Exec(e, k, more[..i]).current != Some(k.c) {
        ClosedStaysUnheard(e, k, more[..i]);
      }
    }
  }

  // ----- the objects -----

  class RunQueue {
    var ids: seq<nat>

    constructor (ids: seq<nat>)
      ensures this.ids == ids
    {
      this.ids := ids;
    }

    /** Waking a task puts its id at the back. */
    method WakeTask(id: nat)
      modifies this
      ensures ids == old(ids) + [id]
    {
      ids := ids + [id];
    }

    method PopFront() returns (id: Option<nat>)
      modifies this
      ensures old(ids) == [] ==> id == None && ids == []
      ensures old(ids) != [] ==> id == Some(old(ids)[0]) && ids == old(ids)[1..]
    {
      if ids == [] {
        return None;
      }
      id := Some(ids[0]);
      ids := ids[1..];
    }
  }

  class UnboundedChannel {
    var buffer: seq<int>
    var rxWakers: seq<nat>
    var senderCount: nat

    ghost function Value(): Chan
      reads this
    {
      Chan(buffer, rxWakers, senderCount)
    }

    constructor ()
      ensures Value() == Chan([], [], 1)
    {
      buffer, rxWakers, senderCount := [], [], 1;
    }

    method SendMessage(msg: int, tasks: RunQueue)
      modifies this, tasks
      ensures Value() == SendTo(old(Value()), msg).0
      ensures tasks.ids == Push(old(tasks.ids), SendTo(old(Value()), msg).1)
    {
      buffer := buffer + [msg];
      if rxWakers != [] {
        var waker := rxWakers[0];
        rxWakers := rxWakers[1..];
        tasks.WakeTask(waker);
      }
    }

    method PollRecvFuture(id: nat) returns (r: Polled)
      modifies this
      ensures (Value(), r) == PollRecv(old(Value()), id)
    {
      if buffer != [] {
        var msg := buffer[0];
        buffer := buffer[1..];
        return Ready(Some(msg));
      }
      if senderCount == 0 {
        return Ready(None);
      }
      rxWakers := rxWakers + [id];
      return Pending;
    }
  }

  class SpscCell {
    var inner: Option<int>
    var waker: Option<nat>

    ghost function Value(): Cell
      reads this
    {
      Cell(inner, waker)
    }

    constructor ()
      ensures Value() == Cell(None, None)
    {
      inner, waker := None, None;
    }

    method Set(value: int, tasks: RunQueue)
      modifies this, tasks
      ensures Value() == SetTo(old(Value()), value).0
      ensures tasks.ids == Push(old(tasks.ids), SetTo(old(Value()), value).1)
    {
      inner := Some(value);
      if waker.Some? {
        tasks.WakeTask(waker.value);
      }
    }

    method PollGetFuture(id: nat) returns (r: Polled)
      modifies this
      ensures (Value(), r) == PollGet(old(Value()), id)
    {
      if inner.Some? {
        var value := inner;
        inner := None;
        return Ready(value);
      }
      waker := Some(id);
      return Pending;
    }
  }

  /** The machine run on these objects: they hold exactly the model's channel, cell
      and queue, in every reachable state. */
  method Drive(start: State, k: Roles, run: seq<Action>)
    returns (s: State, ch: UnboundedChannel, cell: SpscCell, tasks: RunQueue)
    requires Start(start, k)
    ensures s == Exec(start, k, run) && ChanInv(s, k) && CellInv(s, k)
    ensures ch.Value() == s.chan && cell.Value() == s.cell && tasks.ids == s.queue
  {
    s := start;
    ch := new UnboundedChannel();
    cell := new SpscCell();
    tasks := new RunQueue(start.queue);
    var i := 0;
    while i < |run|
      invariant 0 <= i <= |run| && s == Exec(start, k, run[..i])
      invariant fresh(ch) && fresh(cell) && fresh(tasks)
      invariant ch.Value() == s.chan && cell.Value() == s.cell && tasks.ids == s.queue
    {
      Access(s, k, run[i], ch, cell, tasks);
      s := Step(s, k, run[i]);
      assert run[..i + 1][..i] == run[..i];
      i := i + 1;
    }
    assert run[..i] == run;
    NoLostWakeup(start, k, run);
  }

  /** The critical section behind each action. */
  method Access(s: State, k: Roles, a: Action, ch: UnboundedChannel, cell: SpscCell, tasks: RunQueue)
    requires ch.Value() == s.chan && cell.Value() == s.cell && tasks.ids == s.queue
    modifies ch, cell, tasks
    ensures var e := Step(s, k, a); ch.Value() == e.chan && cell.Value() == e.cell && tasks.ids == e.queue
  {
    match a {
      case Send(m) =>
        if ch.senderCount > 0 {
          ch.SendMessage(m, tasks);
        }
      case CloneSender =>
        if ch.senderCount > 0 {
          ch.senderCount := ch.senderCount + 1;
        }
      case DropSender =>
        if ch.senderCount > 0 {
          ch.senderCount := ch.senderCount - 1;
        }
      case Put(v) =>
        if s.put == None {
          cell.Set(v, tasks);
        }
      case Wake(id) => tasks.WakeTask(id);
      case Spawn(id) =>
        if id !in s.tasks && id != k.c && id != k.g {
          tasks.WakeTask(id);
        }
      case Pop =>
        if s.current == None {
          var id := tasks.PopFront();
        }
      case RecvPoll =>
        if s.current == Some(k.c) && s.consumer != Pended {
          var r := ch.PollRecvFuture(k.c);
        }
      case GetPoll =>
        if s.current == Some(k.g) && s.getter != Pended && s.got == None {
          var r := cell.PollGetFuture(k.g);
        }
      case _ =>
    }
  }
}
