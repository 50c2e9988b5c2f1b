/** Any number of threads on one queue, in every interleaving.  A critical section is one step,
    as the mutex makes it; waiting gives the mutex up; a signal wakes one waiting thread of the
    system's choice, and a waiting thread may also wake for no reason. */
module QueueProtocol {
  import opened Common
  import opened Queue

  /** Out: not in a queue operation.  Ready: about to take the mutex, for the first time or after
      a wake-up.  Parked: waiting on the condition of its operation. */
  datatype Thread = Out | Ready(op: Op) | Parked(op: Op)

  /** `puts`, `gets` and `dones` are the history; they decide nothing. */
  datatype State = State(q: Ring, threads: seq<Thread>, puts: seq<int>, gets: seq<int>, dones: nat, joined: bool)

  datatype Event =
    | Begin(t: nat, op: Op)
    | Section(t: nat, wake: Option<nat>)
    | Wakes(t: nat)
    | Done(t: nat, wake: Option<nat>)

  predicate SameCondition(a: Op, b: Op) {
    (a.Put? && b.Put?) || (a.Get? && b.Get?) || (a.Join? && b.Join?)
  }

  predicate Waits(s: State, t: nat, op: Op) {
    t < |s.threads| && s.threads[t].Parked? && SameCondition(s.threads[t].op, op)
  }

  /** pthread_cond_signal: one of the waiting threads, when there is one. */
  ghost predicate WakeChoice(s: State, signal: bool, on: Op, wake: Option<nat>) {
    match wake
    case Some(u) => signal && Waits(s, u, on)
    case None => signal ==> forall u :: !Waits(s, u, on)
  }

  function Set(s: State, t: nat, th: Thread): State {
    if t < |s.threads| then s.(threads := s.threads[t := th]) else s
  }

  function Awaken(s: State, wake: Option<nat>): State {
    match wake
    case Some(u) => if u < |s.threads| && s.threads[u].Parked? then Set(s, u, Ready(s.threads[u].op)) else s
    case None => s
  }

  /** The condition that an operation signals. */
  function SignalledBy(op: Op): Op {
    match op
    case Put(_) => Get
    case Get => Put(0)
    case Join => Join
  }

  function Perform(s: State, op: Op): State
    requires InRange(s.q) && !MustPark(s.q, op)
  {
    match op
    case Put(x) => s.(q := PutInto(s.q, x), puts := s.puts + [x])
    case Get => s.(q := TakenFrom(s.q), gets := s.gets + [Front(s.q)])
    case Join => s.(joined := true)
  }

  /** One step.  A task is marked done only when one has been taken and not yet marked. */
  ghost predicate Step(s: State, e: Event, s1: State) {
    InRange(s.q) && e.t < |s.threads| &&
    match e
    case Begin(t, op) => s.threads[t].Out? && s1 == Set(s, t, Ready(op)).(joined := false)
    case Section(t, wake) =>
      && s.threads[t].Ready?
      && var op := s.threads[t].op;
         if MustPark(s.q, op) then wake.None? && s1 == Set(s, t, Parked(op)).(joined := false)
         else
           && WakeChoice(s, Signals(s.q, op), SignalledBy(op), wake)
           && s1 == Awaken(Set(Perform(s.(joined := false), op), t, Out), wake)
    case Wakes(t) => s.threads[t].Parked? && s1 == Set(s, t, Ready(s.threads[t].op)).(joined := false)
    case Done(t, wake) =>
      && s.threads[t].Out? && s.dones < |s.gets| && s.q.unfinished > 0
      && WakeChoice(s, SignalsDone(s.q), Join, wake)
      && s1 == Awaken(s.(q := s.q.(unfinished := s.q.unfinished - 1), dones := s.dones + 1, joined := false), wake)
  }

  ghost predicate Initial(s: State) {
    && InRange(s.q) && s.q.len == 0 && s.q.unfinished == 0
    && s.puts == [] && s.gets == [] && s.dones == 0 && !s.joined
    && forall t :: 0 <= t < |s.threads| ==> s.threads[t].Out?
  }

  /** A run: states and the events between them. */
  ghost predicate IsRun(states: seq<State>, events: seq<Event>) {
    && |states| == |events| + 1 && Initial(states[0])
    && forall i :: 0 <= i < |events| ==> Step(states[i], events[i], states[i + 1])
  }

  // ----- every interleaving is a run -----

  /** One of the threads that wait, when there is one. */
  lemma {:induction false} SomeWaiter(s: State, signal: bool, on: Op) returns (wake: Option<nat>)
    ensures WakeChoice(s, signal, on, wake)
  {
    wake := None;
    if signal && exists u :: Waits(s, u, on) {
      var u :| Waits(s, u, on);
      wake := Some(u);
    }
  }

  /** Whatever has happened, each thread has its next step: one outside can begin any operation, one
      that is ready gets through its critical section or waits, as the ring says and with any waiting
      thread woken, and one that waits may wake at any time; a task that was taken can be marked. */
  lemma {:induction false} EveryThreadCanStep(s: State, t: nat, op: Op) returns (s1: State, wake: Option<nat>)
    requires InRange(s.q) && t < |s.threads|
    ensures s.threads[t].Out? ==> Step(s, Begin(t, op), s1) && s1.threads[t] == Ready(op) && s1.q == s.q
    ensures s.threads[t].Parked? ==> Step(s, Wakes(t), s1) && s1.threads[t] == Ready(s.threads[t].op) && s1.q == s.q
    ensures s.threads[t].Ready? ==>
      && Step(s, Section(t, wake), s1)
      && (MustPark(s.q, s.threads[t].op) ==> s1.threads[t] == Parked(s.threads[t].op) && s1.q == s.q)
      && (!MustPark(s.q, s.threads[t].op) ==> s1.threads[t] == Out)
  {
    hide MustPark, Signals, PutInto, TakenFrom, Front;
    wake := None;
    match s.threads[t]
    case Out => s1 := Set(s, t, Ready(op)).(joined := false);
    case Parked(o) => s1 := Set(s, t, Ready(o)).(joined := false);
    case Ready(o) =>
      if MustPark(s.q, o) {
        s1 := Set(s, t, Parked(o)).(joined := false);
      } else {
        wake := SomeWaiter(s, Signals(s.q, o), SignalledBy(o));
        s1 := Awaken(Set(Perform(s.(joined := false), o), t, Out), wake);
      }
  }

  /** Any of the waiting threads may be the one that a signal wakes. */
  lemma {:induction false} AnyWaiterMayWake(s: State, t: nat, u: nat) returns (s1: State)
    requires InRange(s.q) && t < |s.threads| && s.threads[t].Ready?
    requires !MustPark(s.q, s.threads[t].op) && Signals(s.q, s.threads[t].op)
    requires Waits(s, u, SignalledBy(s.threads[t].op))
    ensures Step(s, Section(t, Some(u)), s1) && s1.threads[u] == Ready(s.threads[u].op)
  {
    hide MustPark, Signals, SignalledBy, PutInto, TakenFrom, Front;
    s1 := Awaken(Set(Perform(s.(joined := false), s.threads[t].op), t, Out), Some(u));
  }

  /** A task that has been taken and not yet been marked can be marked. */
  lemma {:induction false} TakenCanBeMarked(s: State, t: nat) returns (s1: State, wake: Option<nat>)
    requires InRange(s.q) && t < |s.threads| && s.threads[t].Out? && s.dones < |s.gets| && s.q.unfinished > 0
    ensures Step(s, Done(t, wake), s1) && s1.dones == s.dones + 1
  {
    wake := SomeWaiter(s, SignalsDone(s.q), Join);
    s1 := Awaken(s.(q := s.q.(unfinished := s.q.unfinished - 1), dones := s.dones + 1, joined := false), wake);
  }

  // ----- a bounded FIFO, for any number of threads -----

  /** What was put is what was taken, in order, and then what is in the queue. */
  ghost predicate Fifo(s: State) {
    && InRange(s.q) && s.puts == s.gets + Contents(s.q)
    && s.q.unfinished == |s.puts| - s.dones && s.dones <= |s.gets|
    && (s.joined ==> s.dones == |s.puts|)
  }

  lemma {:induction false} AwakenKeeps(s: State, wake: Option<nat>)
    ensures var s1 := Awaken(s, wake);
      s1.q == s.q && s1.puts == s.puts && s1.gets == s.gets && s1.dones == s.dones && s1.joined == s.joined
  {
  }

  lemma {:induction false} PerformKeepsFifo(s: State, op: Op)
    requires Fifo(s) && !MustPark(s.q, op)
    ensures Fifo(Perform(s.(joined := false), op))
  {
    hide Contents, PutInto, TakenFrom, Front;
    match op
    case Put(x) =>
      PutAppends(s.q, x);
      PutCounts(s.q, x);
      assert s.gets + (Contents(s.q) + [x]) == s.gets + Contents(s.q) + [x];
    case Get =>
      TakeRemoves(s.q);
      TakeCounts(s.q);
      var rest := Contents(TakenFrom(s.q));
      assert s.gets + ([Front(s.q)] + rest) == s.gets + [Front(s.q)] + rest;
    case Join =>
  }

  lemma {:induction false} PutCounts(q: Ring, x: int)
    requires InRange(q) && q.len < |q.buf|
    ensures PutInto(q, x).unfinished == q.unfinished + 1 && |PutInto(q, x).buf| == |q.buf|
        && PutInto(q, x).len == q.len + 1
  {
  }

  lemma {:induction false} TakeCounts(q: Ring)
    requires InRange(q) && q.len > 0
    ensures TakenFrom(q).unfinished == q.unfinished && TakenFrom(q).buf == q.buf && TakenFrom(q).len == q.len - 1
  {
  }

  lemma {:induction false} DoneKeepsFifo(s: State)
    requires Fifo(s) && s.dones < |s.gets| && s.q.unfinished > 0
    ensures Fifo(s.(q := s.q.(unfinished := s.q.unfinished - 1), dones := s.dones + 1, joined := false))
  {
    var q1 := s.q.(unfinished := s.q.unfinished - 1);
    assert forall i :: 0 <= i < s.q.len ==> Contents(q1)[i] == Contents(s.q)[i];
  }

  lemma {:induction false} StepKeepsFifo(s: State, e: Event, s1: State)
    requires Fifo(s) && Step(s, e, s1)
    ensures Fifo(s1)
  {
    hide Contents, Perform, MustPark, Signals, WakeChoice, Awaken, InRange;
    match e
    case Begin(_, _) =>
    case Wakes(_) =>
    case Section(t, wake) =>
      var op := s.threads[t].op;
      if !MustPark(s.q, op) {
        PerformKeepsFifo(s, op);
        AwakenKeeps(Set(Perform(s.(joined := false), op), t, Out), wake);
      }
    case Done(t, wake) =>
      DoneKeepsFifo(s);
      AwakenKeeps(s.(q := s.q.(unfinished := s.q.unfinished - 1), dones := s.dones + 1, joined := false), wake);
  }

  /** In every run with any number of threads: items come out in the order in which they went in,
      puts are gets plus what the queue holds, and the ring stays in range. */
  lemma {:induction false} EveryRunIsFifo(states: seq<State>, events: seq<Event>, i: nat)
    requires IsRun(states, events) && i < |states|
    ensures Fifo(states[i])
    ensures states[i].gets <= states[i].puts && |states[i].puts| == |states[i].gets| + states[i].q.len
  {
    hide Step, Contents;
    if i == 0 {
      EmptyIsFifo(states[0]);
    } else {
      EveryRunIsFifo(states, events, i - 1);
      assert Step(states[i - 1], events[i - 1], states[i - 1 + 1]);
      StepKeepsFifo(states[i - 1], events[i - 1], states[i]);
    }
    FifoCounts(states[i]);
  }

  lemma {:induction false} EmptyIsFifo(s: State)
    requires Initial(s)
    ensures Fifo(s)
  {
  }

  lemma {:induction false} FifoCounts(s: State)
    requires Fifo(s)
    ensures s.gets <= s.puts && |s.puts| == |s.gets| + s.q.len
  {
  }

  /** queue_join comes back only at a moment when everything put has been taken and marked done. */
  lemma {:induction false} JoinMeansAllDone(states: seq<State>, events: seq<Event>, i: nat)
    requires IsRun(states, events) && i < |states| && states[i].joined
    ensures states[i].dones == |states[i].gets| == |states[i].puts| && states[i].gets == states[i].puts
        && states[i].q.len == 0
  {
    hide Step, Contents;
    EveryRunIsFifo(states, events, i);
  }

  // ----- no lost wake-up -----

  /** A thread that waits has a reason to. */
  ghost predicate NoLostWakeup(s: State) {
    forall t :: 0 <= t < |s.threads| && s.threads[t].Parked? ==> MustPark(s.q, s.threads[t].op)
  }

  /** The condition that a step signals. */
  function Signalled(s: State, e: Event): Option<Op> {
    match e
    case Begin(_, _) => None
    case Wakes(_) => None
    case Section(t, _) =>
      if t < |s.threads| && s.threads[t].Ready? && !MustPark(s.q, s.threads[t].op) && Signals(s.q, s.threads[t].op)
      then Some(SignalledBy(s.threads[t].op)) else None
    case Done(_, _) => if SignalsDone(s.q) then Some(Join) else None
  }

  ghost predicate FewWait(s: State, on: Op) {
    forall t, u :: Waits(s, t, on) && Waits(s, u, on) ==> t == u
  }

  /** No two threads wait on the condition that the step signals. */
  ghost predicate SignalsOne(s: State, e: Event) {
    Signalled(s, e).Some? ==> FewWait(s, Signalled(s, e).value)
  }

  /** The thread u waits in s1 as it did in s. */
  ghost predicate StillWaits(s: State, s1: State, u: nat) {
    |s1.threads| == |s.threads| && (u < |s1.threads| && s1.threads[u].Parked? ==> s.threads[u] == s1.threads[u])
  }

  /** Only the thread that is woken stops waiting. */
  ghost predicate OthersWait(s: State, s1: State, wake: Option<nat>, u: nat) {
    && |s1.threads| == |s.threads|
    && (u < |s.threads| && s.threads[u].Parked? && wake != Some(u) ==> s1.threads[u] == s.threads[u])
  }

  lemma {:induction false} SectionThreads(s: State, t: nat, wake: Option<nat>, s1: State, u: nat)
    requires Step(s, Section(t, wake), s1) && !MustPark(s.q, s.threads[t].op)
    ensures StillWaits(s, s1, u) && OthersWait(s, s1, wake, u) && s1.q == Perform(s, s.threads[t].op).q
    ensures wake == Some(u) && u < |s1.threads| ==> !s1.threads[u].Parked?
  {
    hide MustPark, Signals, PutInto, TakenFrom, Front;
  }

  lemma {:induction false} DoneThreads(s: State, t: nat, wake: Option<nat>, s1: State, u: nat)
    requires Step(s, Done(t, wake), s1)
    ensures StillWaits(s, s1, u) && OthersWait(s, s1, wake, u) && s1.q == s.q.(unfinished := s.q.unfinished - 1)
    ensures wake == Some(u) && u < |s1.threads| ==> !s1.threads[u].Parked?
  {
    hide MustPark, Signals, Perform, PutInto, TakenFrom, Front;
  }

  /** With one waiter a signal reaches it. */
  lemma {:induction false} SignalReaches(s: State, u: nat, on: Op, wake: Option<nat>)
    requires FewWait(s, on) && Waits(s, u, on) && WakeChoice(s, true, on, wake)
    ensures wake == Some(u)
  {
  }

  /** A thread that a section's signal is not for keeps its reason, and one that it is for loses it. */
  lemma {:induction false} ReasonAfter(s: State, op: Op, other: Op)
    requires InRange(s.q) && MustPark(s.q, other) && !MustPark(s.q, op)
    ensures MustPark(Perform(s, op).q, other) <==> !(Signals(s.q, op) && SameCondition(other, SignalledBy(op)))
  {
    hide Contents;
    match op
    case Put(x) => PutCounts(s.q, x);
    case Get => TakeCounts(s.q);
    case Join =>
  }

  lemma {:induction false} SectionKeepsWakeups(s: State, t: nat, wake: Option<nat>, s1: State)
    requires NoLostWakeup(s) && SignalsOne(s, Section(t, wake)) && Step(s, Section(t, wake), s1)
        && !MustPark(s.q, s.threads[t].op)
    ensures NoLostWakeup(s1)
  {
    hide MustPark, Signals, SignalledBy, FewWait, Perform, SameCondition;
    var op := s.threads[t].op;
    forall u | 0 <= u < |s1.threads| && s1.threads[u].Parked? ensures MustPark(s1.q, s1.threads[u].op) {
      SectionThreads(s, t, wake, s1, u);
      var other := s.threads[u].op;
      if Signals(s.q, op) && SameCondition(other, SignalledBy(op)) {
        SignalReaches(s, u, SignalledBy(op), wake);
        assert false;
      }
      ReasonAfter(s, op, other);
    }
  }

  /** When two threads wait for a signal, one of them goes on waiting without a reason. */
  lemma {:induction false} SectionLosesOne(s: State, t: nat, wake: Option<nat>, s1: State, u: nat)
    requires NoLostWakeup(s) && Step(s, Section(t, wake), s1) && !MustPark(s.q, s.threads[t].op)
    requires Signals(s.q, s.threads[t].op) && Waits(s, u, SignalledBy(s.threads[t].op)) && wake != Some(u)
    ensures !NoLostWakeup(s1)
  {
    hide MustPark, Signals, SignalledBy, Perform, SameCondition;
    SectionThreads(s, t, wake, s1, u);
    ReasonAfter(s, s.threads[t].op, s.threads[u].op);
  }

  lemma {:induction false} DoneKeepsWakeups(s: State, t: nat, wake: Option<nat>, s1: State)
    requires NoLostWakeup(s) && SignalsOne(s, Done(t, wake)) && Step(s, Done(t, wake), s1)
    ensures NoLostWakeup(s1)
  {
    hide FewWait, Perform;
    forall u | 0 <= u < |s1.threads| && s1.threads[u].Parked? ensures MustPark(s1.q, s1.threads[u].op) {
      DoneThreads(s, t, wake, s1, u);
      var other := s.threads[u].op;
      if s.q.unfinished == 1 && other.Join? {
        SignalReaches(s, u, Join, wake);
        assert false;
      }
    }
  }

  lemma {:induction false} DoneLosesOne(s: State, t: nat, wake: Option<nat>, s1: State, u: nat)
    requires Step(s, Done(t, wake), s1) && s.q.unfinished == 1 && Waits(s, u, Join) && wake != Some(u)
    ensures !NoLostWakeup(s1)
  {
    hide Perform, WakeChoice;
    DoneThreads(s, t, wake, s1, u);
  }

  /** The step that signals with two waiters leaves one of them behind. */
  lemma {:induction false} CrowdLosesOne(s: State, e: Event, s1: State)
    requires NoLostWakeup(s) && Step(s, e, s1) && !SignalsOne(s, e)
    ensures !NoLostWakeup(s1)
  {
    hide NoLostWakeup, MustPark, Signals, SignalledBy, Waits, Perform, Awaken, WakeChoice;
    var on := Signalled(s, e).value;
    var u, v :| Waits(s, u, on) && Waits(s, v, on) && u != v;
    var x := if e.wake == Some(u) then v else u;
    match e
    case Section(t, wake) => SectionLosesOne(s, t, wake, s1, x);
    case Done(t, wake) => DoneLosesOne(s, t, wake, s1, x);
    case Begin(_, _) =>
    case Wakes(_) =>
  }

  lemma {:induction false} KeepsWakeups(s: State, e: Event, s1: State)
    requires NoLostWakeup(s) && SignalsOne(s, e) && Step(s, e, s1)
    ensures NoLostWakeup(s1)
  {
    hide Perform, MustPark, WakeChoice, Signals, Awaken, SignalsOne;
    match e
    case Begin(_, _) =>
    case Wakes(_) =>
    case Section(t, wake) => if !MustPark(s.q, s.threads[t].op) { SectionKeepsWakeups(s, t, wake, s1); }
    case Done(t, wake) => DoneKeepsWakeups(s, t, wake, s1);
  }

  /** A step loses no wake-up if and only if no two threads wait on the condition it signals; a
      step that signals nothing never loses one. */
  lemma {:induction false} WakeupsExact(s: State, e: Event, s1: State)
    requires NoLostWakeup(s) && Step(s, e, s1)
    ensures NoLostWakeup(s1) <==> SignalsOne(s, e)
  {
    hide NoLostWakeup, Step, SignalsOne;
    if SignalsOne(s, e) { KeepsWakeups(s, e, s1); } else { CrowdLosesOne(s, e, s1); }
  }

  lemma {:induction false} NobodyWaitsAtFirst(s: State)
    requires Initial(s)
    ensures NoLostWakeup(s)
  {
    hide MustPark;
  }

  /** In every run up to step i no wake-up is ever lost if and only if every signal given finds at
      most one waiter.  One producer, one consumer and one joiner are such a case. */
  lemma {:induction false} RunWakeupsExact(states: seq<State>, events: seq<Event>, i: nat)
    requires IsRun(states, events) && i < |states|
    ensures (forall j :: 0 <= j <= i ==> NoLostWakeup(states[j])) <==> (forall j :: 0 <= j < i ==>
        SignalsOne(states[j], events[j]))
  {
    hide Step, NoLostWakeup, SignalsOne, Initial;
    if i == 0 {
      NobodyWaitsAtFirst(states[0]);
    } else {
      RunWakeupsExact(states, events, i - 1);
      assert Step(states[i - 1], events[i - 1], states[i - 1 + 1]);
      if NoLostWakeup(states[i - 1]) { WakeupsExact(states[i - 1], events[i - 1], states[i]); }
    }
  }

  /** So where every signal has found at most one waiter, a thread that waits to get faces an empty
      queue, one that waits to put a full one, one that waits to join unfinished tasks, and a
      getter and a putter never wait together. */
  lemma {:induction false} NoWakeupIsLost(states: seq<State>, events: seq<Event>, i: nat)
    requires IsRun(states, events) && i < |states| && forall j :: 0 <= j < i ==> SignalsOne(states[j], events[j])
    ensures NoLostWakeup(states[i])
    ensures forall t, u :: !(Waits(states[i], t, Get) && Waits(states[i], u, Put(0)))
  {
    hide Step, Contents, SignalsOne;
    RunWakeupsExact(states, events, i);
    EveryRunIsFifo(states, events, i);
    NeverBoth(states[i]);
  }

  /** At most one thread waits on each condition. */
  ghost predicate OneWaiter(s: State) {
    forall on :: FewWait(s, on)
  }

  /** The common case: never two waiters on one condition. */
  lemma {:induction false} OneWaiterIsEnough(states: seq<State>, events: seq<Event>, i: nat)
    requires IsRun(states, events) && i < |states| && forall j :: 0 <= j < i ==> OneWaiter(states[j])
    ensures NoLostWakeup(states[i])
    ensures forall t, u :: !(Waits(states[i], t, Get) && Waits(states[i], u, Put(0)))
  {
    hide IsRun, NoLostWakeup, FewWait, Waits, Signalled;
    RunLength(states, events);
    forall j | 0 <= j < i ensures SignalsOne(states[j], events[j]) {
      assert OneWaiter(states[j]);
    }
    NoWakeupIsLost(states, events, i);
  }

  lemma {:induction false} RunLength(states: seq<State>, events: seq<Event>)
    requires IsRun(states, events)
    ensures |states| == |events| + 1
  {
    hide Step, Initial;
  }

  lemma {:induction false} WaiterHasReason(s: State, t: nat)
    requires NoLostWakeup(s)
    ensures Waits(s, t, Get) ==> s.q.len == 0
    ensures Waits(s, t, Put(0)) ==> s.q.len == |s.q.buf|
  {
    if t < |s.threads| && s.threads[t].Parked? {
      assert MustPark(s.q, s.threads[t].op);
    }
  }

  lemma {:induction false} NeverBoth(s: State)
    requires NoLostWakeup(s) && InRange(s.q)
    ensures forall t, u :: !(Waits(s, t, Get) && Waits(s, u, Put(0)))
  {
    hide Waits, NoLostWakeup;
    forall t: nat, u: nat ensures !(Waits(s, t, Get) && Waits(s, u, Put(0))) {
      WaiterHasReason(s, t);
      WaiterHasReason(s, u);
    }
  }

  // ----- why one waiter -----

  /** A queue of two cells, holding n items, and two getters and a putter. */
  function Scene(buf: seq<int>, nextOut: nat, n: nat, unfinished: nat, a: Thread, b: Thread, c: Thread,
      puts: seq<int>, gets: seq<int>): State {
    State(Ring(buf, nextOut, n, unfinished), [a, b, c], puts, gets, 0, false)
  }

  function Missed(): (r: (seq<State>, seq<Event>)) {
    ([Scene([0, 0], 0, 0, 0, Out, Out, Out, [], []),
      Scene([0, 0], 0, 0, 0, Ready(Get), Out, Out, [], []),
      Scene([0, 0], 0, 0, 0, Parked(Get), Out, Out, [], []),
      Scene([0, 0], 0, 0, 0, Parked(Get), Ready(Get), Out, [], []),
      Scene([0, 0], 0, 0, 0, Parked(Get), Parked(Get), Out, [], []),
      Scene([0, 0], 0, 0, 0, Parked(Get), Parked(Get), Ready(Put(7)), [], []),
      Scene([7, 0], 0, 1, 1, Ready(Get), Parked(Get), Out, [7], []),
      Scene([7, 0], 0, 1, 1, Ready(Get), Parked(Get), Ready(Put(8)), [7], []),
      Scene([7, 8], 0, 2, 2, Ready(Get), Parked(Get), Out, [7, 8], []),
      Scene([7, 8], 1, 1, 2, Out, Parked(Get), Out, [7, 8], [7])],
     [Begin(0, Get), Section(0, None), Begin(1, Get), Section(1, None), Begin(2, Put(7)), Section(2, Some(0)),
      Begin(2, Put(8)), Section(2, None), Section(0, None)])
  }

  lemma {:induction false} BeginSteps()
    ensures var (states, events) := Missed();
      forall i :: i in {0, 2, 4, 6} ==> Step(states[i], events[i], states[i + 1])
  {
  }

  lemma {:induction false} ParkSteps()
    ensures var (states, events) := Missed();
      forall i :: i in {1, 3} ==> Step(states[i], events[i], states[i + 1])
  {
  }

  lemma {:induction false} MovingSteps()
    ensures var (states, events) := Missed();
      forall i :: i in {5, 7, 8} ==> Step(states[i], events[i], states[i + 1])
  {
    assert [0, 0][0 := 7] == [7, 0] && [7, 0][1 := 8] == [7, 8];
    var b, c := [Parked(Get), Parked(Get), Ready(Put(7))], [Parked(Get), Parked(Get), Out];
    assert b[2 := Out] == c && c[0 := Ready(Get)] == [Ready(Get), Parked(Get), Out];
  }

  /** With two threads waiting for items a wake-up can be lost: the second put does not find the
      queue empty, so the second getter goes on waiting although an item is there. */
  lemma {:induction false} TwoGettersCanMissAWakeup()
    ensures exists states: seq<State>, events: seq<Event>, i: nat ::
      IsRun(states, events) && i < |states| && !NoLostWakeup(states[i]) && states[i].q.len > 0
  {
    hide Step;
    var (states, events) := Missed();
    BeginSteps();
    ParkSteps();
    MovingSteps();
    forall i | 0 <= i < |events| ensures Step(states[i], events[i], states[i + 1]) {
      assert i in {0, 2, 4, 6} || i in {1, 3} || i in {5, 7, 8};
    }
    var i: nat := 9;
    assert IsRun(states, events);
    assert states[i].threads[1] == Parked(Get);
    assert !NoLostWakeup(states[i]) && states[i].q.len > 0;
  }
}
