/**
 * The dispatcher inside supervisor(): the mq receiver, the de-queue thread and the waitid thread share a message queue,
 * a count of child processes and a ready flag. Each step below is one access that no lock makes atomic with the next
 * one, so a run of the step function is any interleaving of the three threads; waits may end by notification,
 * spuriously or by timeout.
 */
module Dispatcher {
  import opened Prelude

  type Message = string

  /** handle_launcher_msg or handle_supervisor_msg, and child_process_max_count. */
  datatype Config = Config(isLauncher: bool, maxCount: int)

  datatype Shared = Shared(queue: seq<Message>, count: int, qready: bool)

  /** Where the de-queue thread stands. It holds the lock in Evaluating, Taking and Adding. */
  datatype Pc =
    | Idle
    | Evaluating(timedOut: bool)
    | Blocked
    | Taking(headroom: int)
    | Adding(n: nat)
    | Handling
    | Calling                  // past the shutdown test, with the handler about to be called

  datatype State = State(
    sh: Shared,
    pc: Pc,
    hand: seq<Message>,       // the batch taken and not yet handled
    accepting: bool,          // the receiver's loop_continue
    jvmShuttingDown: bool,
    // history
    enqueued: seq<Message>,
    passed: seq<Message>,     // handled, or skipped during shutdown
    handled: seq<Message>,
    dequeued: nat)

  datatype Event =
    | Enqueue(m: Message)
    | EnqueueTimeout          // no lock within 5 seconds: the message is refused and the receiver stops
    | Stop
    | Lock
    | LockTimeout
    | Evaluate
    | Wake(timeout: bool)
    | Take
    | Add
    | Check                   // the test of the shutdown flag in front of a call of the handler
    | Handle
    | EndPass
    | CompleteLocked
    | CompleteUnlocked        // try_lock failed, or the decrement of the final cleanup
    | Shutdown

  // ---- what each critical section does to the shared variables

  function EnqueueOp(sh: Shared, m: Message): Shared {
    sh.(queue := sh.queue + [m], qready := true)
  }

  /** child_process_completion with the lock: the count before the decrement decides about the wake-up. */
  function CompleteOp(c: Config, sh: Shared): Shared {
    sh.(count := sh.count - 1, qready := sh.qready || (sh.count < c.maxCount && sh.queue != []))
  }

  function BatchSize(sh: Shared, headroom: int): int {
    if |sh.queue| > headroom then headroom else |sh.queue|
  }

  function TakeOp(sh: Shared, headroom: int): (Shared, seq<Message>) {
    var n := BatchSize(sh, headroom);
    if n > 0 then (Shared(sh.queue[n..], sh.count, false), sh.queue[..n]) else (sh.(qready := false), [])
  }

  predicate Locked(pc: Pc) {
    pc.Evaluating? || pc.Taking? || pc.Adding?
  }

  predicate Enabled(c: Config, s: State, e: Event) {
    match e
    case Enqueue(_) => s.accepting && !Locked(s.pc)
    case EnqueueTimeout => s.accepting
    case Stop => s.accepting
    case Lock => s.pc.Idle?
    case LockTimeout => s.pc.Idle?
    case Evaluate => s.pc.Evaluating?
    case Wake(_) => s.pc.Blocked?
    case Take => s.pc.Taking?
    case Add => s.pc.Adding?
    case Check => s.pc.Handling? && s.hand != []
    case Handle => s.pc.Calling? && s.hand != []
    case EndPass => s.pc.Handling? && s.hand == []
    case CompleteLocked => c.isLauncher && !Locked(s.pc)
    case CompleteUnlocked => c.isLauncher
    case Shutdown => true
  }

  function Step(c: Config, s: State, e: Event): State
    requires Enabled(c, s, e)
  {
    match e
    case Enqueue(m) => s.(sh := EnqueueOp(s.sh, m), enqueued := s.enqueued + [m])
    case EnqueueTimeout => s.(accepting := false)
    case Stop => s.(accepting := false)
    case Lock => s.(pc := Evaluating(false))
    case LockTimeout => s
    case Evaluate =>
      var headroom := c.maxCount - s.sh.count;
      s.(pc := if (s.sh.qready && headroom > 0) || s.pc.timedOut then Taking(headroom) else Blocked)
    case Wake(timeout) => s.(pc := Evaluating(timeout))
    case Take =>
      var (sh, batch) := TakeOp(s.sh, s.pc.headroom);
      s.(sh := sh, hand := batch, dequeued := s.dequeued + |batch|, pc := if batch == [] then Idle else Adding(|batch|))
    case Add => s.(sh := s.sh.(count := s.sh.count + s.pc.n), pc := Handling)
    case Check =>
      if s.jvmShuttingDown then s.(hand := s.hand[1..], passed := s.passed + [s.hand[0]]) else s.(pc := Calling)
    case Handle =>
      var t := s.(pc := Handling, hand := s.hand[1..], passed := s.passed + [s.hand[0]],
        handled := s.handled + [s.hand[0]]);
      if c.isLauncher then t else t.(sh := s.sh.(count := s.sh.count - 1))
    case EndPass => s.(pc := Idle)
    case CompleteLocked => s.(sh := CompleteOp(c, s.sh))
    case CompleteUnlocked => s.(sh := s.sh.(count := s.sh.count - 1))
    case Shutdown => s.(jvmShuttingDown := true)
  }

  /** One JVM process is counted from the start. */
  const INIT := State(Shared([], 1, false), Idle, [], true, false, [], [], [], 0)

  predicate Runs(c: Config, s: State, es: seq<Event>)
    decreases |es|
  {
    es == [] || (Enabled(c, s, es[0]) && Runs(c, Step(c, s, es[0]), es[1..]))
  }

  function Exec(c: Config, s: State, es: seq<Event>): State
    requires Runs(c, s, es)
    decreases |es|
  {
    if es == [] then s else Exec(c, Step(c, s, es[0]), es[1..])
  }

  // ---- safety

  function Pending(s: State): nat {
    if s.pc.Adding? then s.pc.n else 0
  }

  /** The count is bounded even together with a batch that is taken but not yet added. */
  ghost predicate Bounded(c: Config, s: State) {
    && s.sh.count + Pending(s) <= Max(1, c.maxCount)
    && (s.pc.Taking? ==> s.sh.count + s.pc.headroom <= c.maxCount)
  }

  /** Nothing lost, repeated or out of order. */
  ghost predicate InOrder(s: State) {
    s.passed + s.hand + s.sh.queue == s.enqueued && s.dequeued == |s.passed| + |s.hand|
  }

  /** When there is a batch in hand, and what has been handled. */
  ghost predicate Placed(s: State) {
    && (s.hand != [] ==> s.pc.Adding? || s.pc.Handling? || s.pc.Calling?)
    && (s.pc.Calling? ==> s.hand != [] && s.handled == s.passed)
    && (s.pc.Adding? ==> s.pc.n == |s.hand|)
    && s.handled <= s.passed
    && (!s.jvmShuttingDown ==> s.handled == s.passed)
  }

  ghost predicate Ordered(s: State) {
    InOrder(s) && Placed(s)
  }

  ghost predicate Invariant(c: Config, s: State) {
    Bounded(c, s) && Ordered(s)
  }

  lemma OrderedStep(c: Config, s: State, e: Event)
    requires Ordered(s) && Enabled(c, s, e)
    ensures Ordered(Step(c, s, e))
  {
    hide Step, Placed, InOrder;
    InOrderStep(c, s, e);
    PlacedStep(c, s, e);
  }

  lemma InOrderStep(c: Config, s: State, e: Event)
    requires Ordered(s) && Enabled(c, s, e)
    ensures InOrder(Step(c, s, e))
  {
    var t := Step(c, s, e);
    if e.Enqueue? {
      hide Placed;
      Associate(s.passed + s.hand, s.sh.queue, [e.m]);
    } else if e.Take? {
      assert s.hand == [];
      hide Placed;
      assert t.hand + t.sh.queue == s.sh.queue;
      Associate(t.passed, t.hand, t.sh.queue);
      assert s.passed + [] == s.passed;
    } else if (e.Check? && s.jvmShuttingDown) || e.Handle? {
      hide Placed;
      assert [s.hand[0]] + s.hand[1..] == s.hand;
      Associate(s.passed, [s.hand[0]], s.hand[1..]);
    } else {
      hide Placed;
      assert t.passed == s.passed && t.hand == s.hand && t.sh.queue == s.sh.queue;
    }
  }

  lemma PlacedStep(c: Config, s: State, e: Event)
    requires Ordered(s) && Enabled(c, s, e)
    ensures Placed(Step(c, s, e))
  {
    hide InOrder;
  }

  lemma InvariantStep(c: Config, s: State, e: Event)
    requires Invariant(c, s) && Enabled(c, s, e)
    ensures Invariant(c, Step(c, s, e))
  {
    hide Bounded, Ordered, Step;
    OrderedStep(c, s, e);
    BoundedStep(c, s, e);
  }

  lemma BoundedStep(c: Config, s: State, e: Event)
    requires Invariant(c, s) && Enabled(c, s, e)
    ensures Bounded(c, Step(c, s, e))
  {
    hide Placed, InOrder;
  }

  lemma {:induction false} InvariantRun(c: Config, s: State, es: seq<Event>)
    requires Invariant(c, s) && Runs(c, s, es)
    ensures Invariant(c, Exec(c, s, es))
    decreases |es|
  {
    if es != [] {
      InvariantStep(c, s, es[0]);
      InvariantRun(c, Step(c, s, es[0]), es[1..]);
    }
  }

  // ---- what the events of a run say by themselves

  function Messages(es: seq<Event>): seq<Message> {
    if es == [] then [] else (if es[0].Enqueue? then [es[0].m] else []) + Messages(es[1..])
  }

  function Handlings(es: seq<Event>): nat {
    if es == [] then 0 else (if es[0].Handle? then 1 else 0) + Handlings(es[1..])
  }

  /** The children that waitid has reported. */
  function Completions(es: seq<Event>): nat {
    if es == [] then 0
    else (if es[0].CompleteLocked? || es[0].CompleteUnlocked? then 1 else 0) + Completions(es[1..])
  }

  /** The places given up in a run: by the children of the launcher, and by the handler of the supervisor. */
  function GivenUp(c: Config, es: seq<Event>): nat {
    Completions(es) + (if c.isLauncher then 0 else Handlings(es))
  }

  lemma {:induction false} CountRun(c: Config, s: State, es: seq<Event>)
    requires Ordered(s) && Runs(c, s, es)
    ensures var t := Exec(c, s, es);
            t.sh.count + Pending(t) - t.dequeued == s.sh.count + Pending(s) - s.dequeued - GivenUp(c, es)
    decreases |es|
  {
    hide Step, Enabled, Ordered;
    if es != [] {
      CountStep(c, s, es[0]);
      OrderedStep(c, s, es[0]);
      CountRun(c, Step(c, s, es[0]), es[1..]);
    }
  }

  lemma CountStep(c: Config, s: State, e: Event)
    requires Ordered(s) && Enabled(c, s, e)
    ensures var t := Step(c, s, e);
            t.sh.count + Pending(t) - t.dequeued == s.sh.count + Pending(s) - s.dequeued -
            (if e.CompleteLocked? || e.CompleteUnlocked? || (e.Handle? && !c.isLauncher) then 1 else 0)
  {
    hide InOrder;
  }

  /** What the state remembers is what has happened. */
  lemma {:induction false} HistoryRun(c: Config, s: State, es: seq<Event>)
    requires Runs(c, s, es)
    ensures var t := Exec(c, s, es);
            && t.enqueued == s.enqueued + Messages(es)
            && |t.handled| == |s.handled| + Handlings(es)
            && (t.accepting <==> s.accepting && Stop !in es && EnqueueTimeout !in es)
            && (t.jvmShuttingDown <==> s.jvmShuttingDown || Shutdown in es)
    decreases |es|
  {
    hide Step, Enabled;
    if es == [] {
      assert s.enqueued + [] == s.enqueued;
    } else {
      var t := Step(c, s, es[0]);
      HistoryStep(c, s, es[0]);
      HistoryRun(c, t, es[1..]);
      Either(es, Stop);
      Either(es, EnqueueTimeout);
      Either(es, Shutdown);
      if es[0].Enqueue? {
        Associate(s.enqueued, [es[0].m], Messages(es[1..]));
      }
    }
  }

  lemma Either(es: seq<Event>, e: Event)
    requires es != []
    ensures e in es <==> es[0] == e || e in es[1..]
  {
  }

  lemma HistoryStep(c: Config, s: State, e: Event)
    requires Enabled(c, s, e)
    ensures var t := Step(c, s, e);
            && t.enqueued == (if e.Enqueue? then s.enqueued + [e.m] else s.enqueued)
            && |t.handled| == |s.handled| + (if e.Handle? then 1 else 0)
            && (t.accepting <==> s.accepting && e != Stop && e != EnqueueTimeout)
            && (t.jvmShuttingDown <==> s.jvmShuttingDown || e == Shutdown)
  {
  }

  /**
   * In every interleaving the count stays within the maximum (or at the initial 1 if the maximum is lower) and, outside
   * the moment between taking a batch and adding it, equals 1 plus the messages that have left the queue, minus the
   * children that waitid reported to the launcher, or minus the messages that the supervisor has handled.
   */
  lemma CountSafety(c: Config, es: seq<Event>)
    requires Runs(c, INIT, es)
    ensures var s := Exec(c, INIT, es);
            && s.sh.count <= Max(1, c.maxCount)
            && s.sh.count + Pending(s) == 1 + s.dequeued - GivenUp(c, es)
            && s.dequeued == |Messages(es)| - |s.sh.queue|
  {
    InvariantRun(c, INIT, es);
    CountRun(c, INIT, es);
    HistoryRun(c, INIT, es);
    assert [] + Messages(es) == Messages(es);
  }

  /**
   * Exactly once, first in first out: what was passed on, then the batch in hand, then the queue are the enqueued
   * messages, and the messages handled are all of those passed on, or those up to the beginning of the shutdown.
   */
  lemma ExactlyOnceInOrder(c: Config, es: seq<Event>)
    requires Runs(c, INIT, es)
    ensures var s := Exec(c, INIT, es);
            && s.passed + s.hand + s.sh.queue == Messages(es)
            && s.handled <= s.passed && |s.handled| == Handlings(es)
            && (Shutdown !in es ==> s.handled + s.hand + s.sh.queue == Messages(es))
  {
    InvariantRun(c, INIT, es);
    HistoryRun(c, INIT, es);
    assert [] + Messages(es) == Messages(es);
  }

  /**
   * Once the shutdown has begun at most one more message is handled, the one that was already past the test of the
   * flag; and once the receiver has stopped nothing more is enqueued.
   */
  lemma {:induction false} StopsForGood(c: Config, s: State, es: seq<Event>)
    requires Runs(c, s, es)
    ensures s.jvmShuttingDown && !s.pc.Calling? ==> Exec(c, s, es).handled == s.handled
    ensures s.jvmShuttingDown && s.pc.Calling? && s.hand != [] ==>
            Exec(c, s, es).handled == if Handle in es then s.handled + [s.hand[0]] else s.handled
    ensures !s.accepting ==> Exec(c, s, es).enqueued == s.enqueued
    decreases |es|
  {
    hide Step, Enabled;
    if es != [] {
      StopsStep(c, s, es[0]);
      StopsForGood(c, Step(c, s, es[0]), es[1..]);
      assert Handle in es <==> es[0] == Handle || Handle in es[1..];
    }
  }

  lemma StopsStep(c: Config, s: State, e: Event)
    requires Enabled(c, s, e)
    ensures var t := Step(c, s, e);
            && (!s.accepting ==> !t.accepting && t.enqueued == s.enqueued)
            && (s.jvmShuttingDown ==> t.jvmShuttingDown)
            && (s.jvmShuttingDown && !s.pc.Calling? ==> !t.pc.Calling? && t.handled == s.handled)
            && (s.pc.Calling? && s.hand != [] ==>
                  if e.Handle? then !t.pc.Calling? && t.handled == s.handled + [s.hand[0]]
                  else t.pc.Calling? && t.hand == s.hand && t.handled == s.handled)
  {
  }

  /** That one message is handled although the flag has been set before its handler is called. */
  lemma HandledAfterShutdown(c: Config, s: State)
    requires s.pc.Calling? && s.hand != []
    ensures var es := [Shutdown, Handle];
            Runs(c, s, es) && Exec(c, s, es).jvmShuttingDown && Exec(c, s, es).handled == s.handled + [s.hand[0]]
  {
    hide Runs, Exec;
    var t := Step(c, s, Shutdown);
    RunNothing(c, Step(c, t, Handle));
    var es := RunBefore(c, t, Handle, []);
    es := RunBefore(c, s, Shutdown, es);
    assert es == [Shutdown, Handle];
  }

  // ---- progress

  /** The number of passes of a run that reach the queue with positive headroom. */
  function Served(c: Config, s: State, es: seq<Event>): nat
    requires Runs(c, s, es)
    decreases |es|
  {
    if es == [] then 0
    else (if es[0].Take? && s.pc.headroom > 0 then 1 else 0) + Served(c, Step(c, s, es[0]), es[1..])
  }

  /** Such a pass takes as many messages as there are and fit, whatever the ready flag says. */
  lemma TakeIsExact(c: Config, s: State, qready: bool)
    requires Ordered(s) && s.pc.Taking?
    ensures var t := Step(c, s.(sh := s.sh.(qready := qready)), Take);
            && t.dequeued - s.dequeued == Max(0, Min(|s.sh.queue|, s.pc.headroom))
            && t.hand == s.enqueued[s.dequeued..t.dequeued]
            && !t.sh.qready
  {
    var t := Step(c, s.(sh := s.sh.(qready := qready)), Take);
    assert t.hand + t.sh.queue == s.sh.queue;
    assert s.enqueued[s.dequeued..] == s.sh.queue;
  }

  lemma StepProgress(c: Config, s: State, e: Event)
    requires Ordered(s) && Enabled(c, s, e)
    ensures var t := Step(c, s, e);
            && s.enqueued <= t.enqueued && s.dequeued <= t.dequeued
            && (e.Take? && s.pc.headroom > 0 ==> t.dequeued >= Min(|s.enqueued|, s.dequeued + 1))
  {
    if e.Take? {
      TakeIsExact(c, s, s.sh.qready);
    }
  }

  /**
   * No message is stranded: a message with k undequeued messages before it has left the queue after k + 1 passes with
   * positive headroom, in every interleaving and with any notifications skipped.
   */
  lemma {:induction false} NothingStranded(c: Config, s: State, es: seq<Event>, position: nat)
    requires Ordered(s) && Runs(c, s, es) && position < |s.enqueued|
    requires s.dequeued + Served(c, s, es) > position
    ensures Exec(c, s, es).dequeued > position
    decreases |es|
  {
    if es != [] {
      var t := Step(c, s, es[0]);
      OrderedStep(c, s, es[0]);
      StepProgress(c, s, es[0]);
      if t.dequeued > position {
        DequeuedGrows(c, t, es[1..]);
      } else {
        NothingStranded(c, t, es[1..], position);
      }
    }
  }

  lemma {:induction false} DequeuedGrows(c: Config, s: State, es: seq<Event>)
    requires Ordered(s) && Runs(c, s, es)
    ensures s.dequeued <= Exec(c, s, es).dequeued
    decreases |es|
  {
    if es != [] {
      OrderedStep(c, s, es[0]);
      StepProgress(c, s, es[0]);
      DequeuedGrows(c, Step(c, s, es[0]), es[1..]);
    }
  }

  /** A wait that finds the flag set and a place free goes on at once, and a timeout ends any wait. */
  lemma WaitEnds(c: Config, s: State)
    requires s.pc.Evaluating?
    ensures var t := Step(c, s, Evaluate);
            && t.sh == s.sh && t.hand == s.hand
            && (t.pc == Taking(c.maxCount - s.sh.count) <==> s.pc.timedOut || (s.sh.qready && s.sh.count < c.maxCount))
            && (t.pc == Blocked <==> !s.pc.timedOut && !(s.sh.qready && s.sh.count < c.maxCount))
  {
  }

  /** With the flag set, a place free and a message queued, a pass takes messages without any timeout. */
  lemma PromptService(c: Config, s: State)
    requires Ordered(s) && s.pc.Idle? && s.sh.qready && s.sh.count < c.maxCount && s.sh.queue != []
    ensures var es := [Lock, Evaluate, Take];
            Runs(c, s, es) && Exec(c, s, es).pc == Adding(Min(|s.sh.queue|, c.maxCount - s.sh.count)) &&
            Exec(c, s, es).dequeued == s.dequeued + Min(|s.sh.queue|, c.maxCount - s.sh.count)
  {
    hide Runs, Exec;
    var s1 := Step(c, s, Lock);
    var s2 := Step(c, s1, Evaluate);
    RunNothing(c, Step(c, s2, Take));
    var es := RunBefore(c, s2, Take, []);
    es := RunBefore(c, s1, Evaluate, es);
    es := RunBefore(c, s, Lock, es);
    assert es == [Lock, Evaluate, Take];
  }

  /** The thread that de-queues can always go on, and the others whenever it does not hold the lock. */
  lemma NoDeadlock(c: Config, s: State, m: Message) returns (e: Event)
    requires Ordered(s)
    ensures Enabled(c, s, e) && !e.Enqueue? && !e.EnqueueTimeout? && !e.Stop? && !e.Shutdown?
    ensures !e.CompleteLocked? && !e.CompleteUnlocked? && !e.LockTimeout?
    ensures var free := !s.pc.Evaluating? && !s.pc.Taking? && !s.pc.Adding?;
            && (Enabled(c, s, Enqueue(m)) <==> s.accepting && free)
            && (Enabled(c, s, CompleteLocked) <==> c.isLauncher && free)
            && (Enabled(c, s, CompleteUnlocked) <==> c.isLauncher)
    ensures Enabled(c, s, LockTimeout) ==> Step(c, s, LockTimeout) == s
  {
    e := match s.pc
      case Idle => Lock
      case Evaluating(_) => Evaluate
      case Blocked => Wake(false)
      case Taking(_) => Take
      case Adding(_) => Add
      case Handling => if s.hand == [] then EndPass else Check
      case Calling => Handle;
  }

  // ---- why the waits are timed

  /** A completion sets the ready flag exactly when it got the lock, found a message and started below the maximum. */
  lemma CompletionWakes(c: Config, s: State, e: Event)
    requires (e.CompleteLocked? || e.CompleteUnlocked?) && Enabled(c, s, e) && !s.sh.qready
    ensures Step(c, s, e).sh.qready <==> e.CompleteLocked? && s.sh.queue != [] && s.sh.count < c.maxCount
  {
  }

  /** The de-queue thread waits although a message is queued and there is headroom, and nothing will notify it. */
  ghost predicate MissedWakeUp(c: Config, s: State) {
    s.pc.Blocked? && !s.sh.qready && s.sh.queue != [] && c.maxCount - s.sh.count > 0
  }

  /** The two ways into it: a wait begins without a flag, or a completion frees the first place during a wait. */
  ghost predicate Enters(c: Config, s: State, e: Event) {
    && !s.sh.qready && s.sh.queue != []
    && (|| (e.Evaluate? && s.pc == Evaluating(false) && s.sh.count < c.maxCount)
        || ((e.CompleteLocked? || e.CompleteUnlocked?) && s.pc.Blocked? && s.sh.count == c.maxCount))
  }

  /** The ways out of it. */
  predicate Leaves(e: Event) {
    e.Enqueue? || e.Wake? || e.CompleteLocked?
  }

  /** No step but these leads into a missed wake-up, and no step but those out of it. */
  lemma MissedWakeUpStep(c: Config, s: State, e: Event)
    requires Enabled(c, s, e)
    ensures MissedWakeUp(c, Step(c, s, e)) <==> if MissedWakeUp(c, s) then !Leaves(e) else Enters(c, s, e)
  {
  }

  /** The state after the first k events of a run. */
  function After(c: Config, s: State, es: seq<Event>, k: nat): State
    requires Runs(c, s, es) && k <= |es|
    decreases k
  {
    if k == 0 then s else After(c, Step(c, s, es[0]), es[1..], k - 1)
  }

  /** The event number k leads into a missed wake-up that no later event ends. */
  ghost predicate EntersForGood(c: Config, s: State, es: seq<Event>, k: nat)
    requires Runs(c, s, es)
  {
    k < |es| && Enters(c, After(c, s, es, k), es[k]) && forall e :: e in es[k + 1..] ==> !Leaves(e)
  }

  ghost predicate StaysMissed(c: Config, s: State, es: seq<Event>) {
    MissedWakeUp(c, s) && forall e :: e in es ==> !Leaves(e)
  }

  /** Any run ends in a missed wake-up exactly if it begins in one or enters one, and does not leave it again. */
  lemma {:induction false} MissedExactly(c: Config, s: State, es: seq<Event>)
    requires Runs(c, s, es)
    ensures MissedWakeUp(c, Exec(c, s, es)) <==> StaysMissed(c, s, es) || exists k: nat :: EntersForGood(c, s, es, k)
    decreases |es|
  {
    hide Step, Enabled, MissedWakeUp, Enters, Leaves;
    if es == [] {
      assert forall k: nat :: !EntersForGood(c, s, es, k);
    } else {
      var t := Step(c, s, es[0]);
      MissedWakeUpStep(c, s, es[0]);
      MissedExactly(c, t, es[1..]);
      EntersShift(c, s, es);
      EntersNotMissed(c, s, es[0]);
      assert forall e :: e in es <==> e == es[0] || e in es[1..];
    }
  }

  lemma EntersNotMissed(c: Config, s: State, e: Event)
    ensures Enters(c, s, e) ==> !MissedWakeUp(c, s)
  {
  }

  lemma EntersShift(c: Config, s: State, es: seq<Event>)
    requires es != [] && Runs(c, s, es)
    ensures (exists k: nat :: EntersForGood(c, s, es, k)) <==>
            (Enters(c, s, es[0]) && forall e :: e in es[1..] ==> !Leaves(e)) ||
            exists k: nat :: EntersForGood(c, Step(c, s, es[0]), es[1..], k)
  {
    hide Step, Enabled, Enters, Leaves;
    var t := Step(c, s, es[0]);
    assert EntersForGood(c, s, es, 0) <==> Enters(c, s, es[0]) && forall e :: e in es[1..] ==> !Leaves(e);
    forall k: nat
      ensures EntersForGood(c, s, es, k + 1) <==> EntersForGood(c, t, es[1..], k)
    {
      if k < |es| - 1 {
        assert es[1..][k + 1..] == es[k + 2..];
      }
    }
    if k: nat :| EntersForGood(c, s, es, k) && k > 0 {
      assert EntersForGood(c, t, es[1..], k - 1);
    }
  }

  /**
   * No completion is needed: a supervisor that takes only a part of the queue clears the flag, and after the batch it
   * waits with the rest queued.
   */
  lemma PartialTakeMisses(c: Config, s: State) returns (es: seq<Event>)
    requires !c.isLauncher && s.pc.Idle? && s.hand == [] && !s.jvmShuttingDown && s.sh.qready
    requires 0 < c.maxCount - s.sh.count < |s.sh.queue|
    ensures Runs(c, s, es) && MissedWakeUp(c, Exec(c, s, es))
    ensures forall e :: e in es ==> !e.CompleteLocked? && !e.CompleteUnlocked? && !e.Enqueue?
  {
    hide Runs, Exec, MissedWakeUp;
    var s1 := Step(c, s, Lock);
    var s2 := Step(c, s1, Evaluate);
    var s3 := Step(c, s2, Take);
    es := HandleBatch(c, Step(c, s3, Add));
    es := RunBefore(c, s3, Add, es);
    es := RunBefore(c, s2, Take, es);
    es := RunBefore(c, s1, Evaluate, es);
    es := RunBefore(c, s, Lock, es);
  }

  lemma {:induction false} HandleBatch(c: Config, s: State) returns (es: seq<Event>)
    requires !c.isLauncher && s.pc.Handling? && !s.jvmShuttingDown && !s.sh.qready && s.sh.queue != []
    requires s.sh.count - |s.hand| < c.maxCount
    ensures Runs(c, s, es) && MissedWakeUp(c, Exec(c, s, es))
    ensures forall e :: e in es ==> !e.CompleteLocked? && !e.CompleteUnlocked? && !e.Enqueue?
    decreases |s.hand|
  {
    hide Runs, Exec;
    if s.hand == [] {
      var s1 := Step(c, s, EndPass);
      var s2 := Step(c, s1, Lock);
      RunNothing(c, Step(c, s2, Evaluate));
      es := RunBefore(c, s2, Evaluate, []);
      es := RunBefore(c, s1, Lock, es);
      es := RunBefore(c, s, EndPass, es);
    } else {
      hide MissedWakeUp;
      var s1 := Step(c, s, Check);
      es := HandleBatch(c, Step(c, s1, Handle));
      es := RunBefore(c, s1, Handle, es);
      es := RunBefore(c, s, Check, es);
    }
  }

  /**
   * In the launcher it happens whenever all places are taken and the queue is empty: a message comes, a pass finds no
   * headroom, and the completion that frees a place does not notify. INIT with a maximum of 1 is such a state.
   */
  lemma WakeUpIsMissed(c: Config, s: State, m: Message) returns (es: seq<Event>)
    requires c.isLauncher && s.accepting && s.pc.Idle? && s.sh.queue == [] && s.sh.count == c.maxCount
    ensures Runs(c, s, es) && MissedWakeUp(c, Exec(c, s, es))
  {
    hide Runs, Exec, MissedWakeUp;
    var s1 := Step(c, s, Enqueue(m));
    var s2 := Step(c, s1, Lock);
    var s3 := Step(c, s2, Evaluate);
    var s4 := Step(c, s3, Wake(true));
    var s5 := Step(c, s4, Evaluate);
    es := MissedWhenFreed(c, Step(c, s5, Take));
    es := RunBefore(c, s5, Take, es);
    es := RunBefore(c, s4, Evaluate, es);
    es := RunBefore(c, s3, Wake(true), es);
    es := RunBefore(c, s2, Evaluate, es);
    es := RunBefore(c, s1, Lock, es);
    es := RunBefore(c, s, Enqueue(m), es);
  }

  lemma MissedWhenFreed(c: Config, s: State) returns (es: seq<Event>)
    requires c.isLauncher && s.pc.Idle? && s.sh.queue != [] && !s.sh.qready && s.sh.count == c.maxCount
    ensures Runs(c, s, es) && MissedWakeUp(c, Exec(c, s, es))
  {
    hide Runs, Exec;
    var s1 := Step(c, s, Lock);
    var s2 := Step(c, s1, Evaluate);
    RunNothing(c, Step(c, s2, CompleteLocked));
    es := RunBefore(c, s2, CompleteLocked, []);
    es := RunBefore(c, s1, Evaluate, es);
    es := RunBefore(c, s, Lock, es);
  }

  lemma RunNothing(c: Config, s: State)
    ensures Runs(c, s, []) && Exec(c, s, []) == s
  {
  }

  lemma RunBefore(c: Config, s: State, e: Event, es: seq<Event>) returns (r: seq<Event>)
    requires Enabled(c, s, e) && Runs(c, Step(c, s, e), es)
    ensures r == [e] + es && Runs(c, s, r) && Exec(c, s, r) == Exec(c, Step(c, s, e), es)
  {
    r := [e] + es;
    assert r[1..] == es;
  }

  /** The timeout repairs it: the pass after a timed-out wait takes the messages without any flag. */
  lemma TimeoutRepairs(c: Config, s: State)
    requires Ordered(s) && MissedWakeUp(c, s)
    ensures var es := [Wake(true), Evaluate, Take];
            Runs(c, s, es) && Exec(c, s, es).hand != [] && Exec(c, s, es).dequeued > s.dequeued
  {
    hide Runs, Exec;
    var s1 := Step(c, s, Wake(true));
    var s2 := Step(c, s1, Evaluate);
    RunNothing(c, Step(c, s2, Take));
    var es := RunBefore(c, s2, Take, []);
    es := RunBefore(c, s1, Evaluate, es);
    es := RunBefore(c, s, Wake(true), es);
    assert es == [Wake(true), Evaluate, Take];
  }

  /**
   * Nothing else does: until a wait times out, a message arrives or another completion finds the lock, the queue stays.
   */
  lemma {:induction false} OnlyTheTimeoutHelps(c: Config, s: State, es: seq<Event>)
    requires (s.pc.Blocked? || s.pc == Evaluating(false)) && !s.sh.qready && Runs(c, s, es)
    requires forall e :: e in es ==> !e.Enqueue? && e != Wake(true) && !e.CompleteLocked?
    ensures Exec(c, s, es).sh.queue == s.sh.queue && Exec(c, s, es).dequeued == s.dequeued
    decreases |es|
  {
    if es != [] {
      OnlyTheTimeoutHelps(c, Step(c, s, es[0]), es[1..]);
    }
  }

  // ---- the critical sections as the threads run them

  class DispatchState {
    var dispatchMsgQueue: seq<Message>
    var childProcessCount: int
    var qready: bool

    function View(): Shared
      reads this
    {
      Shared(dispatchMsgQueue, childProcessCount, qready)
    }

    constructor ()
      ensures View() == INIT.sh
    {
      dispatchMsgQueue, childProcessCount, qready := [], 1, false;
    }

    method EnQueue(msg: Message)
      modifies this
      ensures View() == EnqueueOp(old(View()), msg)
    {
      dispatchMsgQueue := dispatchMsgQueue + [msg];
      qready := true;
    }

    method ChildProcessCompletion(c: Config, locked: bool)
      modifies this
      ensures View() == if locked then CompleteOp(c, old(View())) else old(View()).(count := old(View()).count - 1)
    {
      if locked {
        var before := childProcessCount;
        childProcessCount := childProcessCount - 1;
        if before < c.maxCount && dispatchMsgQueue != [] {
          qready := true;
        }
      } else {
        childProcessCount := childProcessCount - 1;
      }
    }

    /** The body behind the wait: the messages leave the queue one by one, then the count grows by their number. */
    method DeQueue(headroom: int) returns (msgs: seq<Message>)
      modifies this
      ensures var (sh, batch) := TakeOp(old(View()), headroom);
              msgs == batch && View() == sh.(count := sh.count + |batch|)
    {
      qready := false;
      var queueCount := |dispatchMsgQueue|;
      var deQueueCount := if queueCount > headroom then headroom else queueCount;
      msgs := [];
      if deQueueCount > 0 {
        var i := 0;
        while i < deQueueCount
          invariant 0 <= i <= deQueueCount && !qready && childProcessCount == old(childProcessCount)
          invariant dispatchMsgQueue == old(dispatchMsgQueue)[i..]
          invariant msgs == old(dispatchMsgQueue)[..i]
        {
          msgs := msgs + [dispatchMsgQueue[0]];
          dispatchMsgQueue := dispatchMsgQueue[1..];
          i := i + 1;
        }
        childProcessCount := childProcessCount + deQueueCount;
      }
    }
  }
}
