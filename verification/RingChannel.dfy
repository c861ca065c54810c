/** The lock-free bounded channel: a ring of slots whose state word is claimed by
    compare-and-swap, and two positions that callers advance.

    Threads run `try_send` and `try_recv` one atomic access at a time, in any
    interleaving, over sequentially consistent memory. The payload is never
    looked at; integers stand for it.
 */
module RingChannel {
  import opened Common
  import opened ModArith

  type Msg = int

  /** Positions are 64-bit words and wrap around. */
  const WORD: nat := 0x1_0000_0000_0000_0000

  /** The values 0, 1, 2, 3 of the state word. */
  datatype SlotState = Empty | Writing | Ready | Reading

  /** `None` is uninitialised memory; a value that has been moved out leaves it. */
  datatype Slot = Slot(state: SlotState, value: Option<Msg>)

  datatype Outcome = NoCall | Sent | Refused(msg: Msg) | Received(msg: Msg) | NoMessage

  /** Where a thread stands: between calls, or before the named atomic access. */
  datatype Pc =
    | Idle(last: Outcome)
    | SendLoadClosed(msg: Msg)
    | SendLoadWrite(msg: Msg)
    | SendLoadRead(msg: Msg, write: nat)
    | SendClaim(msg: Msg, write: nat, read: nat)
    | SendStore(msg: Msg, i: nat)
    | SendPublish(i: nat)
    | SendAdvance
    | SendBump(msg: Msg, write: nat)
    | RecvLoadRead
    | RecvLoadWrite(read: nat)
    | RecvClaim(read: nat, write: nat)
    | RecvTake(i: nat)
    | RecvRelease(i: nat, msg: Msg)
    | RecvAdvance(msg: Msg)
    | RecvBump(read: nat)

  /** The memory all threads share. */
  datatype Shared = Shared(slots: seq<Slot>, writePos: nat, readPos: nat, closed: bool)

  /** Messages passed to `try_send`, given back by it, published in a slot, moved
      out of a slot, and returned by `try_recv`. */
  datatype History = History(offered: multiset<Msg>, refused: multiset<Msg>, accepted: multiset<Msg>,
                             taken: multiset<Msg>, returned: multiset<Msg>)

  datatype State = State(sh: Shared, threads: seq<Pc>, hist: History)

  function Init(capacity: nat, threads: nat): State {
    State(Shared(seq(capacity, i => Slot(Empty, None)), 0, 0, false), seq(threads, i => Idle(NoCall)),
          History(multiset{}, multiset{}, multiset{}, multiset{}, multiset{}))
  }

  /** The distance from `read` to `write`, as a 64-bit word. */
  function Behind(write: nat, read: nat): nat {
    (write - read) % WORD
  }

  function Inc(pos: nat): nat {
    (pos + 1) % WORD
  }

  function SetState(sh: Shared, i: nat, state: SlotState): Shared
    requires i < |sh.slots|
  {
    sh.(slots := sh.slots[i := Slot(state, sh.slots[i].value)])
  }

  function SetValue(sh: Shared, i: nat, value: Option<Msg>): Shared
    requires i < |sh.slots|
  {
    sh.(slots := sh.slots[i := Slot(sh.slots[i].state, value)])
  }

  /** One atomic access: the memory and the thread afterwards. */
  function Access(sh: Shared, pc: Pc): (Shared, Pc) {
    match pc
    case Idle(_) => (sh, pc)
    // try_send
    case SendLoadClosed(msg) => (sh, if sh.closed then Idle(Refused(msg)) else SendLoadWrite(msg))
    case SendLoadWrite(msg) => (sh, SendLoadRead(msg, sh.writePos))
    case SendLoadRead(msg, write) => (sh, SendClaim(msg, write, sh.readPos))
    case SendClaim(msg, write, read) =>
      if Behind(write, read) >= |sh.slots| then (sh, Idle(Refused(msg)))
      else if sh.slots[write % |sh.slots|].state == Empty
      then (SetState(sh, write % |sh.slots|, Writing), SendStore(msg, write % |sh.slots|))
      else (sh, SendBump(msg, write))
    case SendStore(msg, i) => if i < |sh.slots| then (SetValue(sh, i, Some(msg)), SendPublish(i)) else (sh, pc)
    case SendPublish(i) => if i < |sh.slots| then (SetState(sh, i, Ready), SendAdvance) else (sh, pc)
    case SendAdvance => (sh.(writePos := Inc(sh.writePos)), Idle(Sent))
    case SendBump(msg, write) =>
      (sh.(writePos := if sh.writePos == write then Inc(write) else sh.writePos), SendLoadWrite(msg))
    // try_recv
    case RecvLoadRead => (sh, RecvLoadWrite(sh.readPos))
    case RecvLoadWrite(read) => (sh, RecvClaim(read, sh.writePos))
    case RecvClaim(read, write) =>
      if read == write then (sh, Idle(NoMessage))
      else if |sh.slots| == 0 then (sh, pc)
      else if sh.slots[read % |sh.slots|].state == Ready
      then (SetState(sh, read % |sh.slots|, Reading), RecvTake(read % |sh.slots|))
      else (sh, RecvBump(read))
    case RecvTake(i) =>
      if i < |sh.slots| && sh.slots[i].value.Some?
      then (SetValue(sh, i, None), RecvRelease(i, sh.slots[i].value.value)) else (sh, pc)
    case RecvRelease(i, msg) => if i < |sh.slots| then (SetState(sh, i, Empty), RecvAdvance(msg)) else (sh, pc)
    case RecvAdvance(msg) => (sh.(readPos := Inc(sh.readPos)), Idle(Received(msg)))
    case RecvBump(read) =>
      (sh.(readPos := if sh.readPos == read then Inc(read) else sh.readPos), RecvLoadRead)
  }

  function AsMultiset(value: Option<Msg>): multiset<Msg> {
    if value.Some? then multiset{value.value} else multiset{}
  }

  /** What an access adds to the history. */
  function Note(h: History, sh: Shared, pc: Pc): History {
    match pc
    case SendLoadClosed(msg) => if sh.closed then h.(refused := h.refused + multiset{msg}) else h
    case SendClaim(msg, write, read) =>
      if Behind(write, read) >= |sh.slots| then h.(refused := h.refused + multiset{msg}) else h
    case SendPublish(i) => if i < |sh.slots| then h.(accepted := h.accepted + AsMultiset(sh.slots[i].value)) else h
    case RecvTake(i) => if i < |sh.slots| then h.(taken := h.taken + AsMultiset(sh.slots[i].value)) else h
    case RecvAdvance(msg) => h.(returned := h.returned + multiset{msg})
    case _ => h
  }

  function Step(s: State, t: nat): State
    requires t < |s.threads|
  {
    State(Access(s.sh, s.threads[t]).0, s.threads[t := Access(s.sh, s.threads[t]).1], Note(s.hist, s.sh, s.threads[t]))
  }

  /** A call begins, a thread makes its next access, or the last sender goes away. */
  datatype Action = StartSend(t: nat, msg: Msg) | StartRecv(t: nat) | Do(t: nat) | Close

  function Apply(s: State, a: Action): State {
    match a
    case StartSend(t, msg) =>
      if t < |s.threads| && s.threads[t].Idle?
      then State(s.sh, s.threads[t := SendLoadClosed(msg)], s.hist.(offered := s.hist.offered + multiset{msg})) else s
    case StartRecv(t) =>
      if t < |s.threads| && s.threads[t].Idle? then State(s.sh, s.threads[t := RecvLoadRead], s.hist) else s
    case Do(t) => if t < |s.threads| then Step(s, t) else s
    case Close => s.(sh := s.sh.(closed := true))
  }

  function Exec(s: State, run: seq<Action>): State {
    if run == [] then s else Apply(Exec(s, run[..|run| - 1]), run[|run| - 1])
  }

  // ----- ownership -----

  /** The slot a thread has claimed and not yet let go. */
  function Work(pc: Pc): Option<nat> {
    match pc
    case SendStore(_, i) => Some(i)
    case SendPublish(i) => Some(i)
    case RecvTake(i) => Some(i)
    case RecvRelease(i, _) => Some(i)
    case _ => None
  }

  predicate Busy(slot: Slot) {
    slot.state == Writing || slot.state == Reading
  }

  /** What a claimed slot holds, by the point its owner has reached. */
  predicate WorkOk(slot: Slot, pc: Pc) {
    match pc
    case SendStore(_, _) => slot == Slot(Writing, None)
    case SendPublish(_) => slot.state == Writing && slot.value.Some?
    case RecvTake(_) => slot.state == Reading && slot.value.Some?
    case RecvRelease(_, _) => slot == Slot(Reading, None)
    case _ => false
  }

  /** What a slot nobody has claimed holds. */
  predicate RestOk(slot: Slot) {
    (slot.state == Empty && slot.value == None) || (slot.state == Ready && slot.value.Some?)
  }

  predicate HasOwner(threads: seq<Pc>, i: nat) {
    exists t :: 0 <= t < |threads| && Work(threads[t]) == Some(i)
  }

  /** States 1 and 3 have exactly one owner, states 0 and 2 none, and each slot
      holds a value exactly when its state and its owner say so. */
  ghost predicate Exclusive(slots: seq<Slot>, threads: seq<Pc>) {
    && (forall t :: 0 <= t < |threads| && Work(threads[t]).Some? ==>
          Work(threads[t]).value < |slots| && WorkOk(slots[Work(threads[t]).value], threads[t]))
    && (forall t, u :: 0 <= t < u < |threads| && Work(threads[t]).Some? ==> Work(threads[t]) != Work(threads[u]))
    && (forall i :: 0 <= i < |slots| ==> if Busy(slots[i]) then HasOwner(threads, i) else RestOk(slots[i]))
  }

  // ----- where every message is -----

  function ValueOf(slot: Slot, m: Msg): nat {
    if slot.value == Some(m) then 1 else 0
  }

  /** A published message that nobody has moved out yet. */
  function PublishedIn(slot: Slot, m: Msg): nat {
    if slot.state == Ready || slot.state == Reading then ValueOf(slot, m) else 0
  }

  /** The message in a thread's hands. */
  function InHand(pc: Pc): Option<Msg> {
    match pc
    case SendLoadClosed(m) => Some(m)
    case SendLoadWrite(m) => Some(m)
    case SendLoadRead(m, _) => Some(m)
    case SendClaim(m, _, _) => Some(m)
    case SendStore(m, _) => Some(m)
    case SendBump(m, _) => Some(m)
    case RecvRelease(_, m) => Some(m)
    case RecvAdvance(m) => Some(m)
    case _ => None
  }

  function HeldBy(pc: Pc, m: Msg): nat {
    if InHand(pc) == Some(m) then 1 else 0
  }

  /** How often `m` is in slots, published, and in threads' hands. */
  function Values(slots: seq<Slot>, m: Msg): nat {
    if slots == [] then 0 else Values(slots[..|slots| - 1], m) + ValueOf(slots[|slots| - 1], m)
  }

  function Published(slots: seq<Slot>, m: Msg): nat {
    if slots == [] then 0 else Published(slots[..|slots| - 1], m) + PublishedIn(slots[|slots| - 1], m)
  }

  function Held(threads: seq<Pc>, m: Msg): nat {
    if threads == [] then 0 else Held(threads[..|threads| - 1], m) + HeldBy(threads[|threads| - 1], m)
  }

  lemma {:induction false} SlotUpdate(slots: seq<Slot>, i: nat, slot: Slot, m: Msg)
    requires i < |slots|
    ensures Values(slots[i := slot], m) == Values(slots, m) - ValueOf(slots[i], m) + ValueOf(slot, m)
    ensures Published(slots[i := slot], m) == Published(slots, m) - PublishedIn(slots[i], m) + PublishedIn(slot, m)
  {
    var r := slots[..|slots| - 1];
    if i == |slots| - 1 {
      assert slots[i := slot][..|slots| - 1] == r;
    } else {
      assert slots[i := slot][..|slots| - 1] == r[i := slot];
      SlotUpdate(r, i, slot, m);
    }
  }

  lemma {:induction false} HeldUpdate(threads: seq<Pc>, t: nat, pc: Pc, m: Msg)
    requires t < |threads|
    ensures Held(threads[t := pc], m) == Held(threads, m) - HeldBy(threads[t], m) + HeldBy(pc, m)
  {
    var r := threads[..|threads| - 1];
    if t == |threads| - 1 {
      assert threads[t := pc][..|threads| - 1] == r;
    } else {
      assert threads[t := pc][..|threads| - 1] == r[t := pc];
      HeldUpdate(r, t, pc, m);
    }
  }

  /** Accepted messages are those taken out plus those still in slots. */
  ghost predicate AcceptedKept(slots: seq<Slot>, h: History, m: Msg) {
    h.accepted[m] == h.taken[m] + Published(slots, m)
  }

  /** Every message ever offered is in exactly one place: given back, returned to a
      receiver, in a thread's hands, or in a slot. */
  ghost predicate OfferedKept(slots: seq<Slot>, threads: seq<Pc>, h: History, m: Msg) {
    h.offered[m] == h.refused[m] + h.returned[m] + Held(threads, m) + Values(slots, m)
  }

  ghost predicate Kept(s: State, m: Msg) {
    AcceptedKept(s.sh.slots, s.hist, m) && OfferedKept(s.sh.slots, s.threads, s.hist, m)
  }

  ghost predicate Conserved(s: State) {
    forall m :: Kept(s, m)
  }

  ghost predicate Inv(s: State) {
    Exclusive(s.sh.slots, s.threads) && Conserved(s)
  }

  // ----- one access -----

  /** The slot that the access changes, if any. */
  function Touched(sh: Shared, pc: Pc): Option<nat> {
    match pc
    case SendClaim(_, write, read) =>
      if Behind(write, read) < |sh.slots| && sh.slots[write % |sh.slots|].state == Empty
      then Some(write % |sh.slots|) else None
    case RecvClaim(read, write) =>
      if read != write && |sh.slots| > 0 && sh.slots[read % |sh.slots|].state == Ready
      then Some(read % |sh.slots|) else None
    case _ => Work(pc)
  }

  /** Seen by itself, an access claims one free slot, works on the slot it owns or
      lets go of it. */
  lemma AccessSlots(sh: Shared, pc: Pc)
    requires Work(pc).Some? ==> Work(pc).value < |sh.slots| && WorkOk(sh.slots[Work(pc).value], pc)
    requires forall i :: 0 <= i < |sh.slots| && !Busy(sh.slots[i]) ==> RestOk(sh.slots[i])
    ensures var (sh', pc') := Access(sh, pc);
            match Touched(sh, pc)
            case None => sh'.slots == sh.slots && Work(pc) == None && Work(pc') == None
            case Some(i) =>
              && i < |sh.slots| && |sh'.slots| == |sh.slots| && sh'.slots == sh.slots[i := sh'.slots[i]]
              && (Work(pc) == None || Work(pc) == Some(i)) && (Work(pc') == None || Work(pc') == Some(i))
              && (Busy(sh.slots[i]) <==> Work(pc) == Some(i))
              && (if Work(pc') == Some(i) then Busy(sh'.slots[i]) && WorkOk(sh'.slots[i], pc')
                  else RestOk(sh'.slots[i]))
  {
  }

  /** How often the message counts as given back or returned. */
  function Settled(h: History, m: Msg): nat {
    h.refused[m] + h.returned[m]
  }

  /** An access that touches no slot keeps its message in hand or settles it. */
  lemma AccessSettles(sh: Shared, pc: Pc, h: History, m: Msg)
    requires Touched(sh, pc).None?
    ensures Note(h, sh, pc).offered == h.offered
    ensures Settled(Note(h, sh, pc), m) + HeldBy(Access(sh, pc).1, m) == Settled(h, m) + HeldBy(pc, m)
  {
  }

  /** An access to a slot moves a message between hand and slot, if at all. */
  lemma AccessMoves(sh: Shared, pc: Pc, h: History, m: Msg)
    requires Touched(sh, pc).Some?
    requires Work(pc).Some? ==> Work(pc).value < |sh.slots| && WorkOk(sh.slots[Work(pc).value], pc)
    ensures Note(h, sh, pc).offered == h.offered && Settled(Note(h, sh, pc), m) == Settled(h, m)
    ensures var i := Touched(sh, pc).value;
            var (sh', pc') := Access(sh, pc);
            && i < |sh.slots| == |sh'.slots|
            && HeldBy(pc', m) + ValueOf(sh'.slots[i], m) == HeldBy(pc, m) + ValueOf(sh.slots[i], m)
  {
  }

  /** Publishing and moving out are recorded. */
  lemma AccessAccepted(sh: Shared, pc: Pc, h: History, m: Msg)
    requires Work(pc).Some? ==> Work(pc).value < |sh.slots| && WorkOk(sh.slots[Work(pc).value], pc)
    requires forall i :: 0 <= i < |sh.slots| && !Busy(sh.slots[i]) ==> RestOk(sh.slots[i])
    ensures var h' := Note(h, sh, pc);
            && (Touched(sh, pc).None? ==> h'.accepted[m] + h.taken[m] == h.accepted[m] + h'.taken[m])
            && (Touched(sh, pc).Some? ==>
                  var i := Touched(sh, pc).value;
                  && i < |sh.slots| == |Access(sh, pc).0.slots|
                  && h'.accepted[m] + h.taken[m] + PublishedIn(sh.slots[i], m) ==
                     h.accepted[m] + h'.taken[m] + PublishedIn(Access(sh, pc).0.slots[i], m))
  {
  }

  /** Exclusive ownership after thread `t` has moved to `pc`, touching no slot. */
  lemma ExclusiveElsewhere(slots: seq<Slot>, threads: seq<Pc>, t: nat, pc: Pc)
    requires Exclusive(slots, threads) && t < |threads| && Work(threads[t]) == None && Work(pc) == None
    ensures Exclusive(slots, threads[t := pc])
  {
    var threads' := threads[t := pc];
    forall i: nat | i < |slots| && Busy(slots[i]) ensures HasOwner(threads', i) {
      var u :| 0 <= u < |threads| && Work(threads[u]) == Some(i);
      assert Work(threads'[u]) == Some(i);
    }
  }

  /** The same after `t` has changed slot `i`: claimed it, worked on it or let go. */
  lemma ExclusiveAt(slots: seq<Slot>, threads: seq<Pc>, t: nat, pc: Pc, i: nat, slot: Slot)
    requires Exclusive(slots, threads) && t < |threads| && i < |slots|
    requires Work(threads[t]) == None || Work(threads[t]) == Some(i)
    requires Busy(slots[i]) ==> Work(threads[t]) == Some(i)
    requires if Work(pc) == Some(i) then Busy(slot) && WorkOk(slot, pc) else Work(pc) == None && RestOk(slot)
    ensures Exclusive(slots[i := slot], threads[t := pc])
  {
    var slots', threads' := slots[i := slot], threads[t := pc];
    forall u | 0 <= u < |threads| && u != t ensures Work(threads[u]) != Some(i) {
      OneOwner(slots, threads, t, u, i);
    }
    forall j: nat | j < |slots'| ensures if Busy(slots'[j]) then HasOwner(threads', j) else RestOk(slots'[j]) {
      if j == i {
        assert Work(pc) == Some(i) ==> Work(threads'[t]) == Some(i);
      } else if Busy(slots[j]) {
        var u :| 0 <= u < |threads| && Work(threads[u]) == Some(j);
        assert Work(threads'[u]) == Some(j);
      }
    }
  }

  lemma OneOwner(slots: seq<Slot>, threads: seq<Pc>, t: nat, u: nat, i: nat)
    requires Exclusive(slots, threads) && t < |threads| && u < |threads| && t != u && i < |slots|
    requires Busy(slots[i]) ==> Work(threads[t]) == Some(i)
    ensures Work(threads[u]) != Some(i)
  {
    if t < u {
      assert Work(threads[t]).Some? ==> Work(threads[t]) != Work(threads[u]);
    }
  }

  /** Books of a step of thread `t`. */
  lemma StepConserved(s: State, t: nat, m: Msg)
    requires Inv(s) && t < |s.threads|
    ensures Kept(Step(s, t), m)
  {
    var sh, pc, h := s.sh, s.threads[t], s.hist;
    var sh', pc', h' := Access(sh, pc).0, Access(sh, pc).1, Note(h, sh, pc);
    AccessSlots(sh, pc);
    AccessAccepted(sh, pc, h, m);
    HeldUpdate(s.threads, t, pc', m);
    assert Kept(s, m);
    if Touched(sh, pc).None? {
      AccessSettles(sh, pc, h, m);
    } else {
      AccessMoves(sh, pc, h, m);
      SlotUpdate(sh.slots, Touched(sh, pc).value, sh'.slots[Touched(sh, pc).value], m);
    }
  }

  lemma StepInv(s: State, t: nat)
    requires Inv(s) && t < |s.threads|
    ensures Inv(Step(s, t))
  {
    forall m ensures Kept(Step(s, t), m) {
      StepConserved(s, t, m);
    }
    var (sh', pc') := Access(s.sh, s.threads[t]);
    AccessSlots(s.sh, s.threads[t]);
    match Touched(s.sh, s.threads[t])
    case None => ExclusiveElsewhere(s.sh.slots, s.threads, t, pc');
    case Some(i) => ExclusiveAt(s.sh.slots, s.threads, t, pc', i, sh'.slots[i]);
  }

  lemma StartConserved(s: State, t: nat, pc: Pc, h: History, m: Msg)
    requires Conserved(s) && t < |s.threads| && s.threads[t].Idle?
    requires h == s.hist.(offered := s.hist.offered + AsMultiset(InHand(pc)))
    ensures Kept(State(s.sh, s.threads[t := pc], h), m)
  {
    HeldUpdate(s.threads, t, pc, m);
    assert AsMultiset(InHand(pc))[m] == HeldBy(pc, m);
    assert h.offered[m] == s.hist.offered[m] + HeldBy(pc, m);
    assert Kept(s, m);
  }

  lemma StartInv(s: State, t: nat, pc: Pc, h: History)
    requires Inv(s) && t < |s.threads| && s.threads[t].Idle? && Work(pc) == None
    requires h == s.hist.(offered := s.hist.offered + AsMultiset(InHand(pc)))
    ensures Inv(State(s.sh, s.threads[t := pc], h))
  {
    ExclusiveElsewhere(s.sh.slots, s.threads, t, pc);
    var s' := State(s.sh, s.threads[t := pc], h);
    forall m ensures Kept(s', m) {
      StartConserved(s, t, pc, h, m);
    }
  }

  lemma ApplyInv(s: State, a: Action)
    requires Inv(s)
    ensures Inv(Apply(s, a)) && |Apply(s, a).sh.slots| == |s.sh.slots| && |Apply(s, a).threads| == |s.threads|
  {
    match a
    case Do(t) =>
      if t < |s.threads| {
        StepInv(s, t);
      }
    case Close =>
      var s' := Apply(s, a);
      forall m ensures Kept(s', m) {
        assert Kept(s, m);
      }
    case StartSend(t, msg) =>
      if t < |s.threads| && s.threads[t].Idle? {
        StartInv(s, t, SendLoadClosed(msg), Apply(s, a).hist);
      }
    case StartRecv(t) =>
      if t < |s.threads| && s.threads[t].Idle? {
        StartInv(s, t, RecvLoadRead, s.hist);
      }
  }

  lemma {:induction false} NothingYet(capacity: nat, threads: nat, m: Msg)
    ensures Published(Init(capacity, threads).sh.slots, m) == Values(Init(capacity, threads).sh.slots, m) == 0
    ensures Held(Init(capacity, threads).threads, m) == 0
  {
    var s := Init(capacity, threads);
    if capacity > 0 {
      NothingYet(capacity - 1, threads, m);
      assert s.sh.slots[..capacity - 1] == Init(capacity - 1, threads).sh.slots;
    } else if threads > 0 {
      NothingYet(capacity, threads - 1, m);
      assert s.threads[..threads - 1] == Init(capacity, threads - 1).threads;
    }
  }

  lemma InitInv(capacity: nat, threads: nat)
    ensures Inv(Init(capacity, threads))
  {
    var s := Init(capacity, threads);
    forall m ensures Kept(s, m) {
      NothingYet(capacity, threads, m);
    }
  }

  /** Whatever any number of threads do, in any order: claimed slots have exactly
      one owner and messages are conserved. */
  lemma {:induction false} Reachable(capacity: nat, threads: nat, run: seq<Action>)
    ensures Inv(Exec(Init(capacity, threads), run))
    ensures |Exec(Init(capacity, threads), run).sh.slots| == capacity
    ensures |Exec(Init(capacity, threads), run).threads| == threads
  {
    if run == [] {
      InitInv(capacity, threads);
    } else {
      Reachable(capacity, threads, run[..|run| - 1]);
      ApplyInv(Exec(Init(capacity, threads), run[..|run| - 1]), run[|run| - 1]);
    }
  }

  /** In every reachable state a value is about to be moved out only of an
      initialised slot, and about to be written only into an uninitialised one. */
  lemma NoBadAccess(capacity: nat, threads: nat, run: seq<Action>, t: nat)
    requires t < threads
    ensures var s := Exec(Init(capacity, threads), run);
            && t < |s.threads|
            && (s.threads[t].RecvTake? ==>
                  && s.threads[t].i < |s.sh.slots|
                  && s.sh.slots[s.threads[t].i].state == Reading && s.sh.slots[s.threads[t].i].value.Some?)
            && (s.threads[t].SendStore? ==>
                  s.threads[t].i < |s.sh.slots| && s.sh.slots[s.threads[t].i] == Slot(Writing, None))
  {
    Reachable(capacity, threads, run);
  }

  // ----- one call with nobody else moving -----

  datatype Call = Send(msg: Msg) | Recv

  function Begin(call: Call): Pc {
    match call
    case Send(msg) => SendLoadClosed(msg)
    case Recv => RecvLoadRead
  }

  /** `n` accesses of one thread with nobody else moving. */
  function Alone(sh: Shared, pc: Pc, n: nat): (Shared, Pc)
    decreases n
  {
    if n == 0 then (sh, pc) else Alone(Access(sh, pc).0, Access(sh, pc).1, n - 1)
  }

  /** The bounded FIFO queue that the channel is meant to be. */
  function Fifo(q: seq<Msg>, capacity: nat, closed: bool, call: Call): (seq<Msg>, Outcome) {
    match call
    case Send(msg) => if closed || |q| >= capacity then (q, Refused(msg)) else (q + [msg], Sent)
    case Recv => if q == [] then (q, NoMessage) else (q[1..], Received(q[0]))
  }

  lemma AloneIdle(sh: Shared, last: Outcome, n: nat)
    ensures Alone(sh, Idle(last), n) == (sh, Idle(last))
  {
  }

  lemma SendOwned(sh: Shared, msg: Msg, i: nat, n: nat)
    requires n >= 3 && i < |sh.slots|
    ensures Alone(sh, SendStore(msg, i), n) ==
            (Shared(sh.slots[i := Slot(Ready, Some(msg))], Inc(sh.writePos), sh.readPos, sh.closed), Idle(Sent))
  {
    var sh1 := SetValue(sh, i, Some(msg));
    var sh2 := SetState(sh1, i, Ready);
    assert Alone(sh, SendStore(msg, i), n) == Alone(sh1, SendPublish(i), n - 1);
    assert Alone(sh1, SendPublish(i), n - 1) == Alone(sh2, SendAdvance, n - 2);
    assert sh2.slots == sh.slots[i := Slot(Ready, Some(msg))];
    AloneIdle(sh2.(writePos := Inc(sh2.writePos)), Sent, n - 3);
  }

  lemma RecvOwned(sh: Shared, i: nat, n: nat)
    requires n >= 3 && i < |sh.slots| && sh.slots[i].value.Some?
    ensures Alone(sh, RecvTake(i), n) ==
            (Shared(sh.slots[i := Slot(Empty, None)], sh.writePos, Inc(sh.readPos), sh.closed),
             Idle(Received(sh.slots[i].value.value)))
  {
    var msg := sh.slots[i].value.value;
    var sh1 := SetValue(sh, i, None);
    var sh2 := SetState(sh1, i, Empty);
    assert Alone(sh, RecvTake(i), n) == Alone(sh1, RecvRelease(i, msg), n - 1);
    assert Alone(sh1, RecvRelease(i, msg), n - 1) == Alone(sh2, RecvAdvance(msg), n - 2);
    assert sh2.slots == sh.slots[i := Slot(Empty, None)];
    AloneIdle(sh2.(readPos := Inc(sh2.readPos)), Received(msg), n - 3);
  }

  /** One turn of the send loop: it returns or tries again one position further. */
  lemma SendTurn(sh: Shared, msg: Msg, n: nat)
    requires n >= 6
    ensures var w, r := sh.writePos, sh.readPos;
            Alone(sh, SendLoadWrite(msg), n) ==
            if Behind(w, r) >= |sh.slots| then (sh, Idle(Refused(msg)))
            else if sh.slots[w % |sh.slots|].state == Empty
            then (Shared(sh.slots[w % |sh.slots| := Slot(Ready, Some(msg))], Inc(w), r, sh.closed), Idle(Sent))
            else Alone(sh.(writePos := Inc(w)), SendLoadWrite(msg), n - 4)
  {
    var w, r := sh.writePos, sh.readPos;
    assert Alone(sh, SendLoadWrite(msg), n) == Alone(sh, SendLoadRead(msg, w), n - 1);
    assert Alone(sh, SendLoadRead(msg, w), n - 1) == Alone(sh, SendClaim(msg, w, r), n - 2);
    if Behind(w, r) >= |sh.slots| {
      AloneIdle(sh, Refused(msg), n - 3);
    } else if sh.slots[w % |sh.slots|].state == Empty {
      var i := w % |sh.slots|;
      SendOwned(SetState(sh, i, Writing), msg, i, n - 3);
      assert SetState(sh, i, Writing).slots[i := Slot(Ready, Some(msg))] == sh.slots[i := Slot(Ready, Some(msg))];
    } else {
      assert Alone(sh, SendClaim(msg, w, r), n - 2) == Alone(sh, SendBump(msg, w), n - 3);
    }
  }

  lemma RecvTurn(sh: Shared, n: nat)
    requires n >= 6 && (sh.readPos != sh.writePos ==> |sh.slots| > 0)
    requires sh.readPos != sh.writePos && sh.slots[sh.readPos % |sh.slots|].state == Ready ==>
               sh.slots[sh.readPos % |sh.slots|].value.Some?
    ensures var w, r := sh.writePos, sh.readPos;
            Alone(sh, RecvLoadRead, n) ==
            if r == w then (sh, Idle(NoMessage))
            else if sh.slots[r % |sh.slots|].state == Ready
            then (Shared(sh.slots[r % |sh.slots| := Slot(Empty, None)], w, Inc(r), sh.closed),
                  Idle(Received(sh.slots[r % |sh.slots|].value.value)))
            else Alone(sh.(readPos := Inc(r)), RecvLoadRead, n - 4)
  {
    var w, r := sh.writePos, sh.readPos;
    assert Alone(sh, RecvLoadRead, n) == Alone(sh, RecvLoadWrite(r), n - 1);
    assert Alone(sh, RecvLoadWrite(r), n - 1) == Alone(sh, RecvClaim(r, w), n - 2);
    if r == w {
      AloneIdle(sh, NoMessage, n - 3);
    } else if sh.slots[r % |sh.slots|].state == Ready {
      var i := r % |sh.slots|;
      RecvOwned(SetState(sh, i, Reading), i, n - 3);
      assert SetState(sh, i, Reading).slots[i := Slot(Empty, None)] == sh.slots[i := Slot(Empty, None)];
    } else {
      assert Alone(sh, RecvClaim(r, w), n - 2) == Alone(sh, RecvBump(r), n - 3);
    }
  }

  /** A retry leaves one place less between the positions. */
  lemma OneCloser(w: nat, r: nat, cap: nat)
    requires w < WORD && r < WORD && cap < WORD
    ensures Behind(w, r) < cap ==> Behind(Inc(w), r) == Behind(w, r) + 1
    ensures w != r ==> Behind(w, Inc(r)) == Behind(w, r) - 1
  {
    BehindIs(w, r);
    BehindIs(Inc(w), r);
    BehindIs(w, Inc(r));
  }

  lemma BehindIs(w: nat, r: nat)
    requires w < WORD && r < WORD
    ensures Behind(w, r) == if w >= r then w - r else w - r + WORD
    ensures Inc(w) == if w == WORD - 1 then 0 else w + 1
    ensures Inc(r) == if r == WORD - 1 then 0 else r + 1
  {
  }

  // ----- which slot a lone call finds, whatever the state of the ring -----

  /** The position `k` places further on. */
  function Ahead(pos: nat, k: nat): nat {
    (pos + k) % WORD
  }

  /** The state of the slot that the position `k` places behind `pos` selects. */
  function StateAt(slots: seq<Slot>, pos: nat, k: nat): SlotState
    requires slots != []
  {
    slots[Ahead(pos, k) % |slots|].state
  }

  /** The first of `n` positions, from the `k`-th on, that selects a slot in `state`;
      `n` if there is none. */
  function FirstAt(slots: seq<Slot>, state: SlotState, pos: nat, k: nat, n: nat): (j: nat)
    requires k <= n && (k < n ==> slots != [])
    ensures k <= j <= n
    ensures forall i :: k <= i < j ==> StateAt(slots, pos, i) != state
    ensures j < n ==> StateAt(slots, pos, j) == state
    decreases n - k
  {
    if k == n || StateAt(slots, pos, k) == state then k else FirstAt(slots, state, pos, k + 1, n)
  }

  /** Positions are words, a published slot holds a value, and there is a slot to
      look at whenever the positions differ. */
  ghost predicate Tame(sh: Shared) {
    && |sh.slots| < WORD && sh.writePos < WORD && sh.readPos < WORD
    && (sh.readPos != sh.writePos ==> sh.slots != [])
    && forall i :: 0 <= i < |sh.slots| && sh.slots[i].state == Ready ==> sh.slots[i].value.Some?
  }

  lemma AheadIs(pos: nat, k: nat)
    requires pos < WORD
    ensures Ahead(pos, 0) == pos && Inc(Ahead(pos, k)) == Ahead(pos, k + 1)
  {
  }

  lemma AheadBehind(w: nat, r: nat, k: nat)
    requires w < WORD && r < WORD && k <= Behind(w, r)
    ensures Ahead(r, k) == w <==> k == Behind(w, r)
    ensures Behind(w, Ahead(r, k)) == Behind(w, r) - k
  {
  }

  /** A receive takes the first published message between the positions; it reports
      that there is none exactly when no position between them selects one. */
  ghost predicate RecvFinds(sh: Shared, sh': Shared, outcome: Outcome)
    requires Tame(sh)
  {
    var n := Behind(sh.writePos, sh.readPos);
    var j := FirstAt(sh.slots, Ready, sh.readPos, 0, n);
    if j == n then
      outcome == NoMessage && sh' == sh.(readPos := sh.writePos)
    else
      var i := Ahead(sh.readPos, j) % |sh.slots|;
      && outcome == Received(sh.slots[i].value.value)
      && sh' == Shared(sh.slots[i := Slot(Empty, None)], sh.writePos, Ahead(sh.readPos, j + 1), sh.closed)
  }

  /** The `k`-th turn of the receive loop. */
  lemma RecvTurnAt(sh: Shared, r: nat, k: nat, b: nat, n: nat)
    requires Tame(sh) && r < WORD && sh.readPos == Ahead(r, k) && n >= 6
    requires k <= b == Behind(sh.writePos, r) && (k < b ==> sh.slots != [])
    ensures Alone(sh, RecvLoadRead, n) ==
            if k == b then (sh, Idle(NoMessage))
            else if StateAt(sh.slots, r, k) == Ready
            then var i := Ahead(r, k) % |sh.slots|;
                 (Shared(sh.slots[i := Slot(Empty, None)], sh.writePos, Ahead(r, k + 1), sh.closed),
                  Idle(Received(sh.slots[i].value.value)))
            else Alone(sh.(readPos := Ahead(r, k + 1)), RecvLoadRead, n - 4)
    ensures k == b ==> sh.readPos == sh.writePos
  {
    RecvTurn(sh, n);
    AheadIs(r, k);
    AheadBehind(sh.writePos, r, k);
  }

  /** The receive loop passes the positions that select no published slot. */
  lemma {:induction false} RecvSkips(sh: Shared, r: nat, k: nat, j: nat, b: nat, n: nat)
    requires Tame(sh) && r < WORD && sh.readPos == Ahead(r, k)
    requires k <= j <= b == Behind(sh.writePos, r) && (k < b ==> sh.slots != []) && n >= 6 + 4 * (j - k)
    requires forall i :: k <= i < j ==> StateAt(sh.slots, r, i) != Ready
    ensures Alone(sh, RecvLoadRead, n) == Alone(sh.(readPos := Ahead(r, j)), RecvLoadRead, n - 4 * (j - k))
    decreases j - k
  {
    if k < j {
      RecvTurnAt(sh, r, k, b, n);
      RecvSkips(sh.(readPos := Ahead(r, k + 1)), r, k + 1, j, b, n - 4);
    }
  }

  lemma RecvFindsFirst(sh: Shared, n: nat) returns (sh': Shared, outcome: Outcome)
    requires Tame(sh) && n >= 6 + 4 * Behind(sh.writePos, sh.readPos)
    ensures Alone(sh, RecvLoadRead, n) == (sh', Idle(outcome)) && RecvFinds(sh, sh', outcome)
  {
    var r, b := sh.readPos, Behind(sh.writePos, sh.readPos);
    var j := FirstAt(sh.slots, Ready, r, 0, b);
    AheadIs(r, 0);
    AheadBehind(sh.writePos, r, 0);
    RecvSkips(sh, r, 0, j, b, n);
    RecvTurnAt(sh.(readPos := Ahead(r, j)), r, j, b, n - 4 * j);
    if j == b {
      sh', outcome := sh.(readPos := sh.writePos), NoMessage;
    } else {
      var i := Ahead(r, j) % |sh.slots|;
      sh' := Shared(sh.slots[i := Slot(Empty, None)], sh.writePos, Ahead(r, j + 1), sh.closed);
      outcome := Received(sh.slots[i].value.value);
    }
  }

  /** How many positions a send tries before it takes the ring for full. */
  function Tries(sh: Shared): nat {
    if Behind(sh.writePos, sh.readPos) >= |sh.slots| then 0 else |sh.slots| - Behind(sh.writePos, sh.readPos)
  }

  /** A send puts its message into the first empty slot at the positions it tries; it
      is refused exactly when the channel is closed or none of them selects one. */
  ghost predicate SendFinds(sh: Shared, msg: Msg, sh': Shared, outcome: Outcome) {
    var j := FirstAt(sh.slots, Empty, sh.writePos, 0, Tries(sh));
    if sh.closed then
      outcome == Refused(msg) && sh' == sh
    else if j == Tries(sh) then
      outcome == Refused(msg) && sh' == sh.(writePos := Ahead(sh.writePos, j))
    else
      var i := Ahead(sh.writePos, j) % |sh.slots|;
      && outcome == Sent
      && sh' == Shared(sh.slots[i := Slot(Ready, Some(msg))], Ahead(sh.writePos, j + 1), sh.readPos, sh.closed)
  }

  lemma Further(w: nat, r: nat, k: nat, cap: nat)
    requires w < WORD && r < WORD && cap < WORD && Behind(w, r) + k <= cap
    ensures Behind(Ahead(w, k), r) == Behind(w, r) + k
  {
  }

  /** The `k`-th turn of the send loop. */
  lemma SendTurnAt(sh: Shared, msg: Msg, w: nat, k: nat, b: nat, n: nat)
    requires Tame(sh) && w < WORD && sh.writePos == Ahead(w, k) && n >= 6
    requires k <= b == Tries(sh.(writePos := w))
    ensures Alone(sh, SendLoadWrite(msg), n) ==
            if k == b then (sh, Idle(Refused(msg)))
            else if StateAt(sh.slots, w, k) == Empty
            then var i := Ahead(w, k) % |sh.slots|;
                 (Shared(sh.slots[i := Slot(Ready, Some(msg))], Ahead(w, k + 1), sh.readPos, sh.closed), Idle(Sent))
            else Alone(sh.(writePos := Ahead(w, k + 1)), SendLoadWrite(msg), n - 4)
  {
    SendTurn(sh, msg, n);
    AheadIs(w, k);
    if Behind(w, sh.readPos) < |sh.slots| {
      Further(w, sh.readPos, k, |sh.slots|);
    }
  }

  /** The send loop passes the positions that select no empty slot. */
  lemma {:induction false} SendSkips(sh: Shared, msg: Msg, w: nat, k: nat, j: nat, b: nat, n: nat)
    requires Tame(sh) && w < WORD && sh.writePos == Ahead(w, k)
    requires k <= j <= b == Tries(sh.(writePos := w)) && n >= 6 + 4 * (j - k)
    requires forall i :: k <= i < j ==> StateAt(sh.slots, w, i) != Empty
    ensures Alone(sh, SendLoadWrite(msg), n) ==
            Alone(sh.(writePos := Ahead(w, j)), SendLoadWrite(msg), n - 4 * (j - k))
    decreases j - k
  {
    if k < j {
      SendTurnAt(sh, msg, w, k, b, n);
      SendSkips(sh.(writePos := Ahead(w, k + 1)), msg, w, k + 1, j, b, n - 4);
    }
  }

  lemma SendFindsFirst(sh: Shared, msg: Msg, n: nat) returns (sh': Shared, outcome: Outcome)
    requires Tame(sh) && n >= 7 + 4 * |sh.slots|
    ensures Alone(sh, SendLoadClosed(msg), n) == (sh', Idle(outcome)) && SendFinds(sh, msg, sh', outcome)
  {
    sh', outcome := sh, Refused(msg);
    if sh.closed {
      AloneIdle(sh, Refused(msg), n - 1);
    } else {
      var w, b := sh.writePos, Tries(sh);
      var j := FirstAt(sh.slots, Empty, w, 0, b);
      AheadIs(w, 0);
      assert sh.(writePos := w) == sh;
      assert Alone(sh, SendLoadClosed(msg), n) == Alone(sh, SendLoadWrite(msg), n - 1);
      SendSkips(sh, msg, w, 0, j, b, n - 1);
      sh' := sh.(writePos := Ahead(w, j));
      SendTurnAt(sh', msg, w, j, b, n - 1 - 4 * j);
      if j < b {
        var i := Ahead(w, j) % |sh.slots|;
        sh' := Shared(sh.slots[i := Slot(Ready, Some(msg))], Ahead(w, j + 1), sh.readPos, sh.closed);
        outcome := Sent;
      }
    }
  }

  /** `m` receives, one after the other. */
  function RecvTimes(sh: Shared, m: nat): Shared
    decreases m
  {
    if m == 0 then sh
    else RecvTimes(Alone(sh, RecvLoadRead, 6 + 4 * Behind(sh.writePos, sh.readPos)).0, m - 1)
  }

  /** A position from the `lo`-th to before the `hi`-th behind `pos` selects slot `i`. */
  ghost predicate Selects(pos: nat, lo: nat, hi: nat, cap: nat, i: nat)
    requires cap > 0
  {
    exists k :: lo <= k < hi && Ahead(pos, k) % cap == i
  }

  /** Some position between the read and the write position selects slot `i`. */
  ghost predicate Selected(sh: Shared, i: nat)
    requires i < |sh.slots|
  {
    Selects(sh.readPos, 0, Behind(sh.writePos, sh.readPos), |sh.slots|, i)
  }

  lemma AheadTwice(pos: nat, j: nat, k: nat)
    ensures Ahead(Ahead(pos, j), k) == Ahead(pos, j + k)
  {
  }

  lemma WindowMoves(w: nat, r: nat, j: nat, cap: nat, i: nat)
    requires w < WORD && r < WORD && j <= Behind(w, r) && cap > 0
    ensures Selects(Ahead(r, j), 0, Behind(w, Ahead(r, j)), cap, i) <==> Selects(r, j, Behind(w, r), cap, i)
  {
    AheadBehind(w, r, j);
    WindowShifts(r, Ahead(r, j), j, Behind(w, r), cap, i);
  }

  lemma WindowShifts(r: nat, r': nat, j: nat, n: nat, cap: nat, i: nat)
    requires r' == Ahead(r, j) && j <= n && cap > 0
    ensures Selects(r', 0, n - j, cap, i) <==> Selects(r, j, n, cap, i)
  {
    if k :| 0 <= k < n - j && Ahead(r', k) % cap == i {
      AheadTwice(r, j, k);
      assert Ahead(r, j + k) % cap == i;
    }
    if k :| j <= k < n && Ahead(r, k) % cap == i {
      AheadTwice(r, j, k - j);
      assert Ahead(r', k - j) % cap == i;
    }
  }

  lemma RecvKeepsTame(sh: Shared, sh': Shared, outcome: Outcome)
    requires Tame(sh) && RecvFinds(sh, sh', outcome)
    ensures Tame(sh') && |sh'.slots| == |sh.slots|
  {
  }

  /** What a receive leaves of a published slot and of the positions that select it. */
  lemma RecvPasses(sh: Shared, sh': Shared, outcome: Outcome, i: nat)
    requires Tame(sh) && RecvFinds(sh, sh', outcome) && i < |sh.slots| == |sh'.slots| && sh.slots[i].state == Ready
    ensures if sh'.slots[i].state != Ready then Selected(sh, i)
            else sh'.slots[i] == sh.slots[i] && (Selected(sh', i) <==> Selected(sh, i))
    ensures Selected(sh, i) ==> Behind(sh'.writePos, sh'.readPos) < Behind(sh.writePos, sh.readPos)
  {
    var n := Behind(sh.writePos, sh.readPos);
    var j := FirstAt(sh.slots, Ready, sh.readPos, 0, n);
    SelectsFrom(sh.slots, sh.readPos, n, j, i);
    Passes(sh, sh', j, i);
  }

  /** The read position goes past the `j`-th position, whose slot is emptied, or, if
      `j` is past the last one, stops at the write position. */
  lemma Passes(sh: Shared, sh': Shared, j: nat, i: nat)
    requires Tame(sh) && i < |sh.slots| == |sh'.slots| && sh'.writePos == sh.writePos
    requires var n := Behind(sh.writePos, sh.readPos);
             && j <= n
             && sh'.readPos == (if j == n then sh.writePos else Ahead(sh.readPos, j + 1))
             && (Selected(sh, i) <==> (j < n && Ahead(sh.readPos, j) % |sh.slots| == i)
                                      || Selects(sh.readPos, j + 1, n, |sh.slots|, i))
    ensures Selected(sh', i) ==> Selected(sh, i)
    ensures Selected(sh, i) ==> j < Behind(sh.writePos, sh.readPos)
    ensures Selected(sh, i) && Ahead(sh.readPos, j) % |sh.slots| != i ==> Selected(sh', i)
    ensures Selected(sh, i) ==> Behind(sh'.writePos, sh'.readPos) < Behind(sh.writePos, sh.readPos)
  {
    var w, r := sh.writePos, sh.readPos;
    if j < Behind(w, r) {
      WindowMoves(w, r, j + 1, |sh.slots|, i);
      AheadBehind(w, r, j + 1);
    }
  }

  /** No position before the first that selects a published slot selects slot `i`. */
  lemma SelectsFrom(slots: seq<Slot>, r: nat, n: nat, j: nat, i: nat)
    requires i < |slots| && slots[i].state == Ready
    requires j <= n && forall k :: 0 <= k < j ==> StateAt(slots, r, k) != Ready
    ensures Selects(r, 0, n, |slots|, i) <==>
            (j < n && Ahead(r, j) % |slots| == i) || Selects(r, j + 1, n, |slots|, i)
  {
    if k :| 0 <= k < n && Ahead(r, k) % |slots| == i {
      assert StateAt(slots, r, k) == Ready;
    }
  }

  lemma {:induction false} Found(sh: Shared, i: nat) returns (m: nat)
    requires Tame(sh) && i < |sh.slots| && sh.slots[i].state == Ready && Selected(sh, i)
    ensures |RecvTimes(sh, m).slots| == |sh.slots| && RecvTimes(sh, m).slots[i].state != Ready
    decreases Behind(sh.writePos, sh.readPos)
  {
    var n := 6 + 4 * Behind(sh.writePos, sh.readPos);
    var sh', outcome := RecvFindsFirst(sh, n);
    RecvKeepsTame(sh, sh', outcome);
    RecvPasses(sh, sh', outcome, i);
    m := 1;
    if sh'.slots[i].state == Ready {
      var m' := Found(sh', i);
      m := m' + 1;
    }
  }

  lemma {:induction false} Missed(sh: Shared, i: nat, m: nat)
    requires Tame(sh) && i < |sh.slots| && sh.slots[i].state == Ready && !Selected(sh, i)
    ensures |RecvTimes(sh, m).slots| == |sh.slots| && RecvTimes(sh, m).slots[i] == sh.slots[i]
    decreases m
  {
    if m > 0 {
      var n := 6 + 4 * Behind(sh.writePos, sh.readPos);
      var sh', outcome := RecvFindsFirst(sh, n);
      RecvKeepsTame(sh, sh', outcome);
      RecvPasses(sh, sh', outcome, i);
      Missed(sh', i, m - 1);
    }
  }

  ghost predicate StaysReady(sh: Shared, i: nat) {
    forall m :: i < |RecvTimes(sh, m).slots| && RecvTimes(sh, m).slots[i].state == Ready
  }

  /** A published message is stranded, so that no number of receives returns it,
      exactly when no position between the read and the write position selects its
      slot. */
  lemma StrandedIff(sh: Shared, i: nat)
    requires Tame(sh) && i < |sh.slots| && sh.slots[i].state == Ready
    ensures StaysReady(sh, i) <==> !Selected(sh, i)
  {
    if Selected(sh, i) {
      var m := Found(sh, i);
    } else {
      forall m: nat ensures i < |RecvTimes(sh, m).slots| && RecvTimes(sh, m).slots[i].state == Ready {
        Missed(sh, i, m);
      }
    }
  }

  ghost predicate InWords(sh: Shared) {
    sh.writePos < WORD && sh.readPos < WORD
  }

  lemma {:induction false} ReachableInWords(capacity: nat, threads: nat, run: seq<Action>)
    ensures InWords(Exec(Init(capacity, threads), run).sh)
  {
    if run != [] {
      ReachableInWords(capacity, threads, run[..|run| - 1]);
    }
  }

  /** The step advances the write position, or the read position. */
  predicate AdvancesWrite(s: State, a: Action) {
    a.Do? && a.t < |s.threads| && (s.threads[a.t].SendAdvance?
                                   || (s.threads[a.t].SendBump? && s.threads[a.t].write == s.sh.writePos))
  }

  predicate AdvancesRead(s: State, a: Action) {
    a.Do? && a.t < |s.threads| && (s.threads[a.t].RecvAdvance?
                                   || (s.threads[a.t].RecvBump? && s.threads[a.t].read == s.sh.readPos))
  }

  /** How often a run has done so. */
  function WriteMoves(s: State, run: seq<Action>): nat {
    if run == [] then 0 else
      var last := |run| - 1;
      WriteMoves(s, run[..last]) + if AdvancesWrite(Exec(s, run[..last]), run[last]) then 1 else 0
  }

  function ReadMoves(s: State, run: seq<Action>): nat {
    if run == [] then 0 else
      var last := |run| - 1;
      ReadMoves(s, run[..last]) + if AdvancesRead(Exec(s, run[..last]), run[last]) then 1 else 0
  }

  /** The positions after so many moves. */
  ghost predicate MovedTo(s: State, w: nat, r: nat) {
    s.sh.writePos == w % WORD && s.sh.readPos == r % WORD
  }

  lemma StepPositions(s: State, a: Action)
    ensures Apply(s, a).sh.writePos == if AdvancesWrite(s, a) then Inc(s.sh.writePos) else s.sh.writePos
    ensures Apply(s, a).sh.readPos == if AdvancesRead(s, a) then Inc(s.sh.readPos) else s.sh.readPos
  {
  }

  lemma StepMoves(s: State, a: Action, w: nat, r: nat, s': State)
    requires MovedTo(s, w, r) && s' == Apply(s, a)
    ensures MovedTo(s', w + if AdvancesWrite(s, a) then 1 else 0, r + if AdvancesRead(s, a) then 1 else 0)
  {
    StepPositions(s, a);
  }

  /** No access takes a position back or skips one: over every run each has been moved
      forward by one, once for every completed call and every move past a slot that was
      still at the position seen. */
  lemma {:induction false} PositionsAdvance(s: State, run: seq<Action>)
    requires MovedTo(s, 0, 0)
    ensures MovedTo(Exec(s, run), WriteMoves(s, run), ReadMoves(s, run))
  {
    if run != [] {
      var front, last := run[..|run| - 1], run[|run| - 1];
      PositionsAdvance(s, front);
      StepMoves(Exec(s, front), last, WriteMoves(s, front), ReadMoves(s, front), Exec(s, run));
    }
  }

  /** Every run leaves the ring in a state to which the above applies. */
  lemma ReachableTame(capacity: nat, threads: nat, run: seq<Action>)
    requires 0 < capacity < WORD
    ensures Tame(Exec(Init(capacity, threads), run).sh)
  {
    Reachable(capacity, threads, run);
    ReachableInWords(capacity, threads, run);
  }

  // ----- when a lone call keeps the queue -----

  /** The slot that the `k`-th position from `r` on selects. */
  function Sel(r: nat, k: nat, cap: nat): (i: nat)
    requires cap > 0
    ensures i < cap
  {
    Ahead(r, k) % cap
  }

  /** The positions from the read to the write position select different slots, which
      hold `q`; all other slots are empty. */
  ghost predicate Queues(sh: Shared, q: seq<Msg>) {
    && Tame(sh) && |q| <= |sh.slots| && Behind(sh.writePos, sh.readPos) == |q|
    && (sh.slots != [] ==> Filled(sh.slots, sh.readPos, q))
  }

  ghost predicate Filled(slots: seq<Slot>, r: nat, q: seq<Msg>)
    requires slots != []
  {
    && (forall k :: 0 <= k < |q| ==> slots[Sel(r, k, |slots|)] == Slot(Ready, Some(q[k])))
    && (forall j, k :: 0 <= j < k < |q| ==> Sel(r, j, |slots|) != Sel(r, k, |slots|))
    && (forall i :: 0 <= i < |slots| ==> slots[i] == Slot(Empty, None) || HeldAt(r, |q|, |slots|, i))
  }

  ghost predicate HeldAt(r: nat, n: nat, cap: nat, i: nat)
    requires cap > 0
  {
    exists k :: 0 <= k < n && Sel(r, k, cap) == i
  }

  lemma SelNext(r: nat, k: nat, cap: nat)
    requires cap > 0
    ensures Sel(Ahead(r, 1), k, cap) == Sel(r, k + 1, cap)
  {
    AheadTwice(r, 1, k);
  }

  lemma FilledTake(slots: seq<Slot>, r: nat, q: seq<Msg>)
    requires slots != [] && Filled(slots, r, q) && q != []
    ensures Filled(slots[Sel(r, 0, |slots|) := Slot(Empty, None)], Ahead(r, 1), q[1..])
  {
    var cap, r', q' := |slots|, Ahead(r, 1), q[1..];
    var slots' := slots[Sel(r, 0, cap) := Slot(Empty, None)];
    forall k | 0 <= k < |q'| ensures Sel(r', k, cap) == Sel(r, k + 1, cap) {
      SelNext(r, k, cap);
    }
    forall i | 0 <= i < cap ensures slots'[i] == Slot(Empty, None) || HeldAt(r', |q'|, cap, i) {
      if slots'[i] != Slot(Empty, None) {
        var k :| 0 <= k < |q| && Sel(r, k, cap) == i;
        assert Sel(r', k - 1, cap) == i;
      }
    }
  }

  lemma FilledPut(slots: seq<Slot>, r: nat, q: seq<Msg>, msg: Msg)
    requires slots != [] && Filled(slots, r, q) && slots[Sel(r, |q|, |slots|)].state == Empty
    ensures Filled(slots[Sel(r, |q|, |slots|) := Slot(Ready, Some(msg))], r, q + [msg])
  {
    var cap, q' := |slots|, q + [msg];
    var slots' := slots[Sel(r, |q|, cap) := Slot(Ready, Some(msg))];
    forall i | 0 <= i < cap ensures slots'[i] == Slot(Empty, None) || HeldAt(r, |q'|, cap, i) {
      if i != Sel(r, |q|, cap) && slots[i] != Slot(Empty, None) {
        var k :| 0 <= k < |q| && Sel(r, k, cap) == i;
      }
    }
  }

  /** A lone receive takes the oldest message and keeps the rest, whatever the
      positions. */
  lemma RecvQueues(sh: Shared, q: seq<Msg>, sh': Shared, outcome: Outcome)
    requires Queues(sh, q) && RecvFinds(sh, sh', outcome)
    ensures outcome == Fifo(q, |sh.slots|, sh.closed, Recv).1
    ensures Queues(sh', Fifo(q, |sh.slots|, sh.closed, Recv).0)
    ensures sh'.readPos == if q == [] then sh.readPos else Ahead(sh.readPos, 1)
  {
    RecvKeepsTame(sh, sh', outcome);
    AheadIs(sh.readPos, 0);
    if q == [] {
      AheadBehind(sh.writePos, sh.readPos, 0);
    } else {
      assert StateAt(sh.slots, sh.readPos, 0) == sh.slots[Sel(sh.readPos, 0, |sh.slots|)].state;
      AheadBehind(sh.writePos, sh.readPos, 1);
      FilledTake(sh.slots, sh.readPos, q);
    }
  }

  /** A lone send into an open ring with room keeps the queue exactly when the slot at
      the write position is empty, that is, when no waiting message has it. It is not
      when the positions have wrapped and the capacity does not divide 2^64. */
  lemma SendQueuesIff(sh: Shared, q: seq<Msg>, msg: Msg, sh': Shared, outcome: Outcome)
    requires Queues(sh, q) && !sh.closed && |q| < |sh.slots| && SendFinds(sh, msg, sh', outcome)
    ensures outcome == Sent && Queues(sh', q + [msg]) <==> sh.slots[sh.writePos % |sh.slots|].state == Empty
  {
    var w, r, j := sh.writePos, sh.readPos, FirstAt(sh.slots, Empty, sh.writePos, 0, Tries(sh));
    AheadIs(w, 0);
    AheadBehind(w, r, |q|);
    assert w == Ahead(r, |q|);
    if j < Tries(sh) {
      Further(w, r, j + 1, |sh.slots|);
      if j == 0 {
        FilledPut(sh.slots, r, q, msg);
      }
    }
  }

  /** The low word of a position selects the same slot as the position. */
  lemma LowWord(x: nat, cap: nat)
    requires cap > 0 && (WORD % cap == 0 || x < WORD)
    ensures x % WORD % cap == x % cap
  {
    if x >= WORD {
      var q := WORD / cap;
      assert WORD == cap * q;
      var y, z := x % WORD, x / WORD;
      assert x == y + WORD * z;
      assert WORD * z == cap * (q * z);
      AddMultiple(y, cap, q * z);
    }
  }

  /** The call is not a send that finds room and yet a waiting message in its slot. */
  predicate Clear(sh: Shared, call: Call) {
    call.Recv? || sh.closed || Behind(sh.writePos, sh.readPos) >= |sh.slots|
    || sh.slots[sh.writePos % |sh.slots|].state == Empty
  }

  /** What the queue says a call does. */
  ghost predicate AsFifo(sh: Shared, q: seq<Msg>, call: Call, sh': Shared, pc': Pc) {
    pc' == Idle(Fifo(q, |sh.slots|, sh.closed, call).1) && Queues(sh', Fifo(q, |sh.slots|, sh.closed, call).0)
  }

  /** Enough accesses for any call that nobody interrupts. */
  function Enough(sh: Shared): nat {
    7 + 4 * |sh.slots|
  }

  ghost predicate Finds(sh: Shared, call: Call, sh': Shared, outcome: Outcome)
    requires Tame(sh)
  {
    match call
    case Recv => RecvFinds(sh, sh', outcome)
    case Send(msg) => SendFinds(sh, msg, sh', outcome)
  }

  lemma CallFinds(sh: Shared, call: Call) returns (sh': Shared, outcome: Outcome)
    requires Tame(sh)
    requires call.Recv? ==> Behind(sh.writePos, sh.readPos) <= |sh.slots|
    ensures Alone(sh, Begin(call), Enough(sh)) == (sh', Idle(outcome)) && Finds(sh, call, sh', outcome)
  {
    match call
    case Recv => sh', outcome := RecvFindsFirst(sh, Enough(sh));
    case Send(msg) => sh', outcome := SendFindsFirst(sh, msg, Enough(sh));
  }

  /** A call on its own acts as on a bounded FIFO queue exactly when it is clear. */
  lemma CallIff(sh: Shared, q: seq<Msg>, call: Call, sh': Shared, outcome: Outcome)
    requires Queues(sh, q) && Finds(sh, call, sh', outcome)
    ensures |sh'.slots| == |sh.slots| && sh'.closed == sh.closed
    ensures AsFifo(sh, q, call, sh', Idle(outcome)) <==> Clear(sh, call)
    ensures sh'.readPos == if call.Recv? && q != [] then Ahead(sh.readPos, 1) else sh.readPos
  {
    match call
    case Recv => RecvQueues(sh, q, sh', outcome);
    case Send(msg) => SendIff(sh, q, msg, sh', outcome);
  }

  lemma SendIff(sh: Shared, q: seq<Msg>, msg: Msg, sh': Shared, outcome: Outcome)
    requires Queues(sh, q) && SendFinds(sh, msg, sh', outcome)
    ensures |sh'.slots| == |sh.slots| && sh'.closed == sh.closed && sh'.readPos == sh.readPos
    ensures AsFifo(sh, q, Send(msg), sh', Idle(outcome)) <==> Clear(sh, Send(msg))
  {
    AheadIs(sh.writePos, 0);
    if !sh.closed && |q| < |sh.slots| {
      SendQueuesIff(sh, q, msg, sh', outcome);
    }
  }

  lemma CountGrows(sh: Shared, q: seq<Msg>, call: Call, r: nat)
    requires r == if call.Recv? && q != [] then Ahead(sh.readPos, 1) else sh.readPos
    requires sh.readPos < WORD
    ensures r + |Fifo(q, |sh.slots|, sh.closed, call).0| <= sh.readPos + |q| + 1
  {
  }

  /** A capacity that divides 2^64 keeps every call clear, and every other capacity
      does until the positions wrap around. */
  lemma ClearUnlessWrapped(sh: Shared, q: seq<Msg>, call: Call)
    requires Queues(sh, q)
    requires sh.slots != [] && WORD % |sh.slots| != 0 ==> sh.readPos + |q| < WORD
    ensures Clear(sh, call)
  {
    var r, cap := sh.readPos, |sh.slots|;
    if |q| < cap {
      AheadBehind(sh.writePos, r, |q|);
      var i := Sel(r, |q|, cap);
      LowWord(r + |q|, cap);
      if k :| 0 <= k < |q| && Sel(r, k, cap) == i {
        LowWord(r + k, cap);
        RemaindersApart(r + k, r + |q|, cap);
      }
    }
  }

  // ----- calls that do not overlap -----

  /** `n` accesses of thread `t`. */
  function Accesses(t: nat, n: nat): seq<Action>
    decreases n
  {
    if n == 0 then [] else [Do(t)] + Accesses(t, n - 1)
  }

  function Start(t: nat, call: Call): Action {
    match call
    case Send(msg) => StartSend(t, msg)
    case Recv => StartRecv(t)
  }

  lemma {:induction false} ExecConcat(s: State, a: seq<Action>, b: seq<Action>)
    ensures Exec(s, a + b) == Exec(Exec(s, a), b)
  {
    if b == [] {
      assert a + b == a;
    } else {
      assert (a + b)[..|a + b| - 1] == a + b[..|b| - 1];
      ExecConcat(s, a, b[..|b| - 1]);
    }
  }

  lemma FirstAccess(s: State, t: nat, n: nat) returns (next: State)
    requires t < |s.threads| && n > 0
    ensures |next.threads| == |s.threads| && next.threads == s.threads[t := next.threads[t]]
    ensures Exec(s, Accesses(t, n)) == Exec(next, Accesses(t, n - 1))
    ensures Alone(s.sh, s.threads[t], n) == Alone(next.sh, next.threads[t], n - 1)
  {
    ExecConcat(s, [Do(t)], Accesses(t, n - 1));
    ExecOne(s, Do(t));
    next := Step(s, t);
  }

  /** A thread that runs alone sees only its own accesses. */
  lemma {:induction false} ExecAlone(s: State, t: nat, n: nat, sh: Shared, pc: Pc)
    requires t < |s.threads| && Alone(s.sh, s.threads[t], n) == (sh, pc)
    ensures Exec(s, Accesses(t, n)).sh == sh && Exec(s, Accesses(t, n)).threads == s.threads[t := pc]
    decreases n
  {
    if n > 0 {
      var next := FirstAccess(s, t, n);
      ExecAlone(next, t, n - 1, sh, pc);
      MovedTwice(s.threads, t, next.threads[t], pc);
    }
  }

  lemma MovedTwice(threads: seq<Pc>, t: nat, p: Pc, q: Pc)
    requires t < |threads|
    ensures threads[t := p][t := q] == threads[t := q]
  {
  }

  lemma ExecOne(s: State, a: Action)
    ensures Exec(s, [a]) == Apply(s, a)
  {
    assert [a][..0] == [];
  }

  lemma CallAlone(s: State, t: nat, call: Call, n: nat, sh: Shared, pc: Pc)
    requires t < |s.threads| && s.threads[t].Idle? && Alone(s.sh, Begin(call), n) == (sh, pc)
    ensures var s' := Exec(s, [Start(t, call)] + Accesses(t, n));
            s'.sh == sh && s'.threads == s.threads[t := pc]
  {
    var s1 := Apply(s, Start(t, call));
    ExecConcat(s, [Start(t, call)], Accesses(t, n));
    ExecOne(s, Start(t, call));
    ExecAlone(s1, t, n, sh, pc);
    MovedTwice(s.threads, t, Begin(call), pc);
  }

  type Calls = seq<(nat, Call)>

  /** The calls one after the other, each by its thread without interruption. */
  function RunCalls(s: State, calls: Calls): State {
    if calls == [] then s else
      var s' := RunCalls(s, calls[..|calls| - 1]);
      var (t, call) := calls[|calls| - 1];
      Exec(s', [Start(t, call)] + Accesses(t, Enough(s'.sh)))
  }

  /** The queue after the calls, and the outcome of the last one. */
  function FifoCalls(q: seq<Msg>, capacity: nat, closed: bool, calls: Calls): (seq<Msg>, Outcome) {
    if calls == [] then (q, NoCall) else
      Fifo(FifoCalls(q, capacity, closed, calls[..|calls| - 1]).0, capacity, closed, calls[|calls| - 1].1)
  }

  ghost predicate AllIdle(s: State) {
    forall t :: 0 <= t < |s.threads| ==> s.threads[t].Idle?
  }

  /** With no call under way the ring holds `q`. */
  ghost predicate Resting(s: State, q: seq<Msg>, threads: nat, capacity: nat, closed: bool) {
    AllIdle(s) && |s.threads| == threads && |s.sh.slots| == capacity && s.sh.closed == closed && Queues(s.sh, q)
  }

  /** The calls leave what they leave on the queue, and the last one returns what it
      returns there. */
  ghost predicate Follows(s: State, q: seq<Msg>, calls: Calls) {
    var s' := RunCalls(s, calls);
    var (q', outcome) := FifoCalls(q, |s.sh.slots|, s.sh.closed, calls);
    && Resting(s', q', |s.threads|, |s.sh.slots|, s.sh.closed)
    && (calls != [] ==> calls[|calls| - 1].0 < |s'.threads| && s'.threads[calls[|calls| - 1].0] == Idle(outcome))
  }

  ghost predicate ByThreads(calls: Calls, threads: nat) {
    forall k :: 0 <= k < |calls| ==> calls[k].0 < threads
  }

  /** One call by thread `t`, from a state that holds `q` to one that holds `q'`. */
  lemma CallStepIff(s: State, q: seq<Msg>, t: nat, call: Call, s': State, q': seq<Msg>, outcome: Outcome)
    requires Resting(s, q, |s.threads|, |s.sh.slots|, s.sh.closed) && t < |s.threads|
    requires s' == Exec(s, [Start(t, call)] + Accesses(t, Enough(s.sh)))
    requires (q', outcome) == Fifo(q, |s.sh.slots|, s.sh.closed, call)
    ensures |s'.threads| == |s.threads|
    ensures Resting(s', q', |s.threads|, |s.sh.slots|, s.sh.closed) && s'.threads[t] == Idle(outcome)
            <==> Clear(s.sh, call)
    ensures s'.sh.readPos + |q'| <= s.sh.readPos + |q| + 1
  {
    var sh', pc' := CallEnds(s, q, t, call, s');
  }

  lemma CallEnds(s: State, q: seq<Msg>, t: nat, call: Call, s': State) returns (sh': Shared, pc': Pc)
    requires Queues(s.sh, q) && t < |s.threads| && s.threads[t].Idle?
    requires s' == Exec(s, [Start(t, call)] + Accesses(t, Enough(s.sh)))
    ensures s'.sh == sh' && s'.threads == s.threads[t := pc']
    ensures |sh'.slots| == |s.sh.slots| && sh'.closed == s.sh.closed && pc'.Idle?
    ensures AsFifo(s.sh, q, call, sh', pc') <==> Clear(s.sh, call)
    ensures sh'.readPos == if call.Recv? && q != [] then Ahead(s.sh.readPos, 1) else s.sh.readPos
    ensures sh'.readPos + |Fifo(q, |s.sh.slots|, s.sh.closed, call).0| <= s.sh.readPos + |q| + 1
  {
    var outcome;
    sh', outcome := CallFinds(s.sh, call);
    pc' := Idle(outcome);
    CallAlone(s, t, call, Enough(s.sh), sh', pc');
    CallIff(s.sh, q, call, sh', outcome);
    CountGrows(s.sh, q, call, sh'.readPos);
  }

  /** If all calls but the last follow the queue, the last one does exactly when it
      is clear. */
  lemma LastCallIff(s: State, q: seq<Msg>, calls: Calls, before: Calls, t: nat, call: Call)
    requires calls == before + [(t, call)] && t < |s.threads| && Follows(s, q, before)
    ensures Follows(s, q, calls) <==> Clear(RunCalls(s, before).sh, call)
    ensures Count(s, q, calls) <= Count(s, q, before) + 1
  {
    assert calls[..|calls| - 1] == before;
    var cap, closed := |s.sh.slots|, s.sh.closed;
    CallStepIff(RunCalls(s, before), FifoCalls(q, cap, closed, before).0, t, call,
                RunCalls(s, calls), FifoCalls(q, cap, closed, calls).0, FifoCalls(q, cap, closed, calls).1);
  }

  /** The read position and the messages behind it. */
  function Count(s: State, q: seq<Msg>, calls: Calls): nat {
    RunCalls(s, calls).sh.readPos + |FifoCalls(q, |s.sh.slots|, s.sh.closed, calls).0|
  }

  ghost predicate FollowsTo(s: State, q: seq<Msg>, calls: Calls, m: nat)
    requires m <= |calls|
  {
    Follows(s, q, calls[..m])
  }

  ghost predicate ClearAt(s: State, calls: Calls, m: nat)
    requires m < |calls|
  {
    Clear(RunCalls(s, calls[..m]).sh, calls[m].1)
  }

  lemma NextCallIff(s: State, q: seq<Msg>, calls: Calls, m: nat)
    requires m < |calls| && calls[m].0 < |s.threads| && FollowsTo(s, q, calls, m)
    ensures FollowsTo(s, q, calls, m + 1) <==> ClearAt(s, calls, m)
  {
    var before, all := calls[..m], calls[..m + 1];
    assert all == before + [(calls[m].0, calls[m].1)];
    LastCallIff(s, q, all, before, calls[m].0, calls[m].1);
  }

  lemma {:induction false} ClearFollow(s: State, q: seq<Msg>, calls: Calls, m: nat)
    requires FollowsTo(s, q, calls, 0) && ByThreads(calls, |s.threads|)
    requires m <= |calls| && forall k :: 0 <= k < |calls| ==> ClearAt(s, calls, k)
    ensures FollowsTo(s, q, calls, m)
    decreases m
  {
    if m > 0 {
      ClearFollow(s, q, calls, m - 1);
      NextCallIff(s, q, calls, m - 1);
    }
  }

  /** Calls that do not overlap, by any threads in any order, behave as calls on a
      bounded FIFO queue exactly when each of them is clear. */
  lemma SequentialIff(s: State, q: seq<Msg>, calls: Calls)
    requires Resting(s, q, |s.threads|, |s.sh.slots|, s.sh.closed) && ByThreads(calls, |s.threads|)
    ensures (forall m :: 0 <= m <= |calls| ==> FollowsTo(s, q, calls, m))
            <==> (forall m :: 0 <= m < |calls| ==> ClearAt(s, calls, m))
  {
    assert FollowsTo(s, q, calls, 0);
    if forall m :: 0 <= m < |calls| ==> ClearAt(s, calls, m) {
      forall m | 0 <= m <= |calls| ensures FollowsTo(s, q, calls, m) {
        ClearFollow(s, q, calls, m);
      }
    }
    if forall m :: 0 <= m <= |calls| ==> FollowsTo(s, q, calls, m) {
      forall m | 0 <= m < |calls| ensures ClearAt(s, calls, m) {
        assert FollowsTo(s, q, calls, m + 1);
        NextCallIff(s, q, calls, m);
      }
    }
  }

  lemma InitResting(capacity: nat, threads: nat)
    requires capacity < WORD
    ensures Resting(Init(capacity, threads), [], threads, capacity, false)
  {
  }

  /** From a new channel that is all calls, for a capacity that divides 2^64, and the
      first 2^64 - 1 calls for any other. */
  lemma {:induction false} SequentialFromStart(capacity: nat, threads: nat, calls: Calls)
    requires capacity < WORD && ByThreads(calls, threads)
    requires capacity > 0 && WORD % capacity != 0 ==> |calls| < WORD
    ensures Follows(Init(capacity, threads), [], calls)
    ensures Count(Init(capacity, threads), [], calls) <= |calls|
  {
    InitResting(capacity, threads);
    if calls != [] {
      var s, m := Init(capacity, threads), |calls| - 1;
      var before := calls[..m];
      SequentialFromStart(capacity, threads, before);
      assert calls == before + [(calls[m].0, calls[m].1)];
      ClearUnlessWrapped(RunCalls(s, before).sh, FifoCalls([], capacity, false, before).0, calls[m].1);
      LastCallIff(s, [], calls, before, calls[m].0, calls[m].1);
    }
  }

  /** After the calls a ring of three slots holds `q`, from position `r` on. */
  ghost predicate HoldsAt(s0: State, calls: Calls, q: seq<Msg>, r: nat) {
    Resting(RunCalls(s0, calls), q, 1, 3, false) && RunCalls(s0, calls).sh.readPos == r
  }

  lemma NextCall(s0: State, calls: Calls, q: seq<Msg>, r: nat, call: Call, q': seq<Msg>) returns (calls': Calls)
    requires HoldsAt(s0, calls, q, r) && r + |q| < WORD && q' == Fifo(q, 3, false, call).0
    ensures HoldsAt(s0, calls', q', if call.Recv? && q != [] then Ahead(r, 1) else r)
  {
    var s := RunCalls(s0, calls);
    ClearUnlessWrapped(s.sh, q, call);
    calls' := calls + [(0, call)];
    assert calls'[..|calls|] == calls;
    var sh', pc' := CallEnds(s, q, 0, call, RunCalls(s0, calls'));
  }

  lemma SendAndReceive(s0: State, calls: Calls, r: nat) returns (calls': Calls)
    requires HoldsAt(s0, calls, [], r) && r + 1 < WORD
    ensures HoldsAt(s0, calls', [], r + 1)
  {
    var sent := NextCall(s0, calls, [], r, Send(0), [0]);
    calls' := NextCall(s0, sent, [0], r, Recv, []);
  }

  /** A message goes through a new ring of three slots `n` times. */
  lemma {:induction false} Pumped(s0: State, n: nat) returns (calls: Calls)
    requires HoldsAt(s0, [], [], 0) && n < WORD
    ensures HoldsAt(s0, calls, [], n)
  {
    calls := [];
    if n > 0 {
      var before := Pumped(s0, n - 1);
      calls := SendAndReceive(s0, before, n - 1);
    }
  }

  /** After 2^64 - 2 messages a ring of three slots that holds two refuses a third. */
  lemma WrapRefuses(s0: State, last: nat) returns (calls: Calls)
    requires s0 == Init(3, 1) && last + 2 == WORD
    ensures HoldsAt(s0, calls, [1, 2], last) && !Clear(RunCalls(s0, calls).sh, Send(3))
    ensures Alone(RunCalls(s0, calls).sh, SendLoadClosed(3), Enough(RunCalls(s0, calls).sh)).1 == Idle(Refused(3))
  {
    InitResting(3, 1);
    calls := Pumped(s0, last);
    calls := NextCall(s0, calls, [], last, Send(1), [1]);
    calls := NextCall(s0, calls, [1], last, Send(2), [1, 2]);
    RefusesThird(RunCalls(s0, calls).sh, last);
  }

  lemma RefusesThird(sh: Shared, last: nat)
    requires Queues(sh, [1, 2]) && |sh.slots| == 3 && !sh.closed && sh.readPos == last == WORD - 2
    ensures !Clear(sh, Send(3)) && Alone(sh, SendLoadClosed(3), Enough(sh)).1 == Idle(Refused(3))
  {
    AheadBehind(sh.writePos, last, 2);
    assert sh.writePos == 0;
    assert Sel(last, 1, 3) == 0;
    var sh', outcome := SendFindsFirst(sh, 3, Enough(sh));
    assert StateAt(sh.slots, 0, 0) == Ready;
  }

  // ----- the calls as loops over the ring in memory -----

  class Channel {
    const buffer: array<Slot>
    var writePos: nat
    var readPos: nat
    var closed: bool

    ghost function Value(): Shared
      reads this, buffer
    {
      Shared(buffer[..], writePos, readPos, closed)
    }

    ghost predicate Valid()
      reads this, buffer
    {
      Tame(Value())
    }

    constructor (capacity: nat)
      requires capacity < WORD
      ensures Valid() && fresh(buffer) && Value() == Init(capacity, 0).sh
    {
      buffer := new Slot[capacity](i => Slot(Empty, None));
      writePos, readPos, closed := 0, 0, false;
    }

    /** With nobody else moving, the loop makes the accesses of the machine, at most
        seven and four for each slot, and so acts as the queue. */
    method TrySend(msg: Msg) returns (outcome: Outcome)
      requires Valid()
      modifies this, buffer
      ensures Valid()
      ensures Alone(old(Value()), Begin(Send(msg)), 7 + 4 * buffer.Length) == (Value(), Idle(outcome))
      ensures SendFinds(old(Value()), msg, Value(), outcome)
      ensures forall q :: Queues(old(Value()), q) && Clear(old(Value()), Send(msg)) ==>
                            AsFifo(old(Value()), q, Send(msg), Value(), Idle(outcome))
    {
      ghost var start, n := Value(), 7 + 4 * buffer.Length;
      ghost var left := n - 1;
      outcome := Refused(msg);
      if !closed {
        var trying := true;
        while trying
          invariant Valid() && left >= 6
          invariant trying ==> Alone(start, Begin(Send(msg)), n) == Alone(Value(), SendLoadWrite(msg), left)
          invariant trying ==> left >= 6 + 4 * (buffer.Length - Behind(writePos, readPos))
          invariant !trying ==> Alone(start, Begin(Send(msg)), n) == (Value(), Idle(outcome))
          decreases trying, buffer.Length - Behind(writePos, readPos)
        {
          SendTurn(Value(), msg, left);
          var write, read := writePos, readPos;
          if Behind(write, read) >= buffer.Length {
            outcome, trying := Refused(msg), false;
          } else if buffer[write % buffer.Length].state == Empty {
            PutMessage(write % buffer.Length, msg);
            outcome, trying := Sent, false;
          } else {
            OneCloser(write, read, buffer.Length);
            writePos := Inc(write);
            left := left - 4;
          }
        }
      } else {
        AloneIdle(start, outcome, left);
      }
      ghost var end, result := SendFindsFirst(start, msg, n);
      forall q | Queues(start, q) && Clear(start, Send(msg))
        ensures AsFifo(start, q, Send(msg), Value(), Idle(outcome))
      {
        SendIff(start, q, msg, Value(), outcome);
      }
    }

    /** Claim, fill and publish slot `i`, then advance the write position. */
    method PutMessage(i: nat, msg: Msg)
      requires Valid() && i < buffer.Length
      modifies this`writePos, buffer
      ensures Valid()
      ensures Value() == Shared(old(buffer[..])[i := Slot(Ready, Some(msg))], Inc(old(writePos)), readPos, closed)
    {
      buffer[i] := Slot(Writing, buffer[i].value);
      buffer[i] := Slot(buffer[i].state, Some(msg));
      buffer[i] := Slot(Ready, buffer[i].value);
      writePos := Inc(writePos);
    }

    method TryRecv() returns (outcome: Outcome)
      requires Valid()
      modifies this, buffer
      ensures Valid()
      ensures Alone(old(Value()), Begin(Recv), 7 + 4 * old(Behind(writePos, readPos))) == (Value(), Idle(outcome))
      ensures RecvFinds(old(Value()), Value(), outcome)
      ensures forall q :: Queues(old(Value()), q) ==> AsFifo(old(Value()), q, Recv, Value(), Idle(outcome))
    {
      ghost var start, n := Value(), 7 + 4 * Behind(writePos, readPos);
      ghost var left := n;
      outcome := NoMessage;
      var trying := true;
      while trying
        invariant Valid() && left >= 6
        invariant trying ==> Alone(start, Begin(Recv), n) == Alone(Value(), RecvLoadRead, left)
        invariant trying ==> left >= 6 + 4 * Behind(writePos, readPos)
        invariant !trying ==> Alone(start, Begin(Recv), n) == (Value(), Idle(outcome))
        decreases trying, Behind(writePos, readPos)
      {
        RecvTurn(Value(), left);
        var read, write := readPos, writePos;
        if read == write {
          outcome, trying := NoMessage, false;
        } else if buffer[read % buffer.Length].state == Ready {
          var msg := TakeMessage(read % buffer.Length);
          outcome, trying := Received(msg), false;
        } else {
          OneCloser(write, read, buffer.Length);
          readPos := Inc(read);
          left := left - 4;
        }
      }
      ghost var end, result := RecvFindsFirst(start, n);
      forall q | Queues(start, q) ensures AsFifo(start, q, Recv, Value(), Idle(outcome)) {
        RecvQueues(start, q, Value(), outcome);
      }
    }

    /** Claim slot `i`, move the message out, empty the slot and advance. */
    method TakeMessage(i: nat) returns (msg: Msg)
      requires Valid() && i < buffer.Length && buffer[i].state == Ready
      modifies this`readPos, buffer
      ensures Valid() && old(buffer[i].value) == Some(msg)
      ensures Value() == Shared(old(buffer[..])[i := Slot(Empty, None)], writePos, Inc(old(readPos)), closed)
    {
      buffer[i] := Slot(Reading, buffer[i].value);
      msg := buffer[i].value.value;
      buffer[i] := Slot(buffer[i].state, None);
      buffer[i] := Slot(Empty, buffer[i].value);
      readPos := Inc(readPos);
    }
  }

  // ----- calls that overlap -----

  /** A run goes on: thread `t` begins a call, or is in one already, and makes `n`
      accesses. */
  lemma GoOn(s: State, run: seq<Action>, t: nat, call: Option<Call>, n: nat, sh: Shared, pc: Pc)
    returns (run': seq<Action>)
    requires t < |Exec(s, run).threads| && (call.Some? ==> Exec(s, run).threads[t].Idle?)
    requires Alone(Exec(s, run).sh, if call.Some? then Begin(call.value) else Exec(s, run).threads[t], n) == (sh, pc)
    ensures Exec(s, run').sh == sh && Exec(s, run').threads == Exec(s, run).threads[t := pc]
  {
    run' := run;
    if call.Some? {
      run' := run + [Start(t, call.value)];
      assert run'[..|run|] == run;
    }
    ExecConcat(s, run', Accesses(t, n));
    ExecAlone(Exec(s, run'), t, n, sh, pc);
    run' := run' + Accesses(t, n);
  }

  lemma SenderZeroClaims()
    ensures Alone(Three(Slot(Empty, None), Slot(Empty, None), 0, 0), SendLoadClosed(1), 4) ==
            (Three(Slot(Writing, None), Slot(Empty, None), 0, 0), SendStore(1, 0))
  {
    assert [Slot(Empty, None), Slot(Empty, None), Slot(Empty, None)][0 := Slot(Writing, None)] ==
           [Slot(Writing, None), Slot(Empty, None), Slot(Empty, None)];
  }

  lemma SenderOneOvertakes()
    ensures Alone(Three(Slot(Writing, None), Slot(Empty, None), 0, 0), SendLoadClosed(2), 5) ==
            (Three(Slot(Writing, None), Slot(Empty, None), 1, 0), SendLoadWrite(2))
    ensures Alone(Three(Slot(Writing, None), Slot(Empty, None), 1, 0), SendLoadWrite(2), 6) ==
            (Three(Slot(Writing, None), Slot(Ready, Some(2)), 2, 0), Idle(Sent))
  {
    var slots := [Slot(Writing, None), Slot(Empty, None), Slot(Empty, None)];
    assert slots[1 := Slot(Writing, None)][1 := Slot(Writing, Some(2))][1 := Slot(Ready, Some(2))] ==
           [Slot(Writing, None), Slot(Ready, Some(2)), Slot(Empty, None)];
  }

  lemma ReceiverSkips()
    ensures Alone(Three(Slot(Writing, None), Slot(Ready, Some(2)), 2, 0), RecvLoadRead, 4) ==
            (Three(Slot(Writing, None), Slot(Ready, Some(2)), 2, 1), RecvLoadRead)
    ensures Alone(Three(Slot(Writing, None), Slot(Ready, Some(2)), 2, 1), RecvLoadRead, 6) ==
            (Three(Slot(Writing, None), Slot(Empty, None), 2, 2), Idle(Received(2)))
  {
    var slots := [Slot(Writing, None), Slot(Ready, Some(2)), Slot(Empty, None)];
    assert slots[1 := Slot(Reading, Some(2))][1 := Slot(Reading, None)][1 := Slot(Empty, None)] ==
           [Slot(Writing, None), Slot(Empty, None), Slot(Empty, None)];
  }

  lemma SenderZeroPublishes()
    ensures Alone(Three(Slot(Writing, None), Slot(Empty, None), 2, 2), SendStore(1, 0), 3) ==
            (Three(Slot(Ready, Some(1)), Slot(Empty, None), 3, 2), Idle(Sent))
  {
    var slots := [Slot(Writing, None), Slot(Empty, None), Slot(Empty, None)];
    assert slots[0 := Slot(Writing, Some(1))][0 := Slot(Ready, Some(1))] ==
           [Slot(Ready, Some(1)), Slot(Empty, None), Slot(Empty, None)];
  }

  lemma ReceiverMisses()
    ensures Alone(Three(Slot(Ready, Some(1)), Slot(Empty, None), 3, 2), RecvLoadRead, 7) ==
            (Three(Slot(Ready, Some(1)), Slot(Empty, None), 3, 3), Idle(NoMessage))
  {
  }

  /** A ring of three slots, the last one empty. */
  function Three(a: Slot, b: Slot, write: nat, read: nat): Shared {
    Shared([a, b, Slot(Empty, None)], write, read, false)
  }

  /** The second sender overtakes the first, which has claimed a slot and not filled
      it. */
  lemma Overtaken() returns (run: seq<Action>)
    ensures var s := Exec(Init(3, 3), run);
            && s.threads == [SendStore(1, 0), Idle(Sent), Idle(NoCall)]
            && s.sh == Three(Slot(Writing, None), Slot(Ready, Some(2)), 2, 0)
  {
    var s := Init(3, 3);
    var e := Slot(Empty, None);
    assert s.sh == Three(e, e, 0, 0) && s.threads == [Idle(NoCall), Idle(NoCall), Idle(NoCall)];
    var claimed := Slot(Writing, None);
    var two := Slot(Ready, Some(2));
    SenderZeroClaims();
    run := GoOn(s, [], 0, Some(Send(1)), 4, Three(claimed, e, 0, 0), SendStore(1, 0));
    SenderOneOvertakes();
    run := GoOn(s, run, 1, Some(Send(2)), 5, Three(claimed, e, 1, 0), SendLoadWrite(2));
    run := GoOn(s, run, 1, None, 6, Three(claimed, two, 2, 0), Idle(Sent));
  }

  lemma NeverFound()
    ensures StaysReady(Three(Slot(Ready, Some(1)), Slot(Empty, None), 3, 3), 0)
  {
    StrandedIff(Three(Slot(Ready, Some(1)), Slot(Empty, None), 3, 3), 0);
  }

  /** Overlapping calls break the queue: two senders and a receiver on a ring of
      three slots can leave a published message behind the read position, where no
      later `try_recv`, with no other call in progress, finds it. */
  lemma Stranded() returns (run: seq<Action>)
    ensures var s := Exec(Init(3, 3), run);
            && s.threads == [Idle(Sent), Idle(Sent), Idle(NoMessage)]
            && s.sh == Three(Slot(Ready, Some(1)), Slot(Empty, None), 3, 3) && StaysReady(s.sh, 0)
  {
    NeverFound();
    var s := Init(3, 3);
    var e := Slot(Empty, None);
    var claimed := Slot(Writing, None);
    var two := Slot(Ready, Some(2));
    run := Overtaken();
    ReceiverSkips();
    run := GoOn(s, run, 2, Some(Recv), 4, Three(claimed, two, 2, 1), RecvLoadRead);
    run := GoOn(s, run, 2, None, 6, Three(claimed, e, 2, 2), Idle(Received(2)));
    SenderZeroPublishes();
    run := GoOn(s, run, 0, None, 3, Three(Slot(Ready, Some(1)), e, 3, 2), Idle(Sent));
    ReceiverMisses();
    run := GoOn(s, run, 2, Some(Recv), 7, Three(Slot(Ready, Some(1)), e, 3, 3), Idle(NoMessage));
  }
}
