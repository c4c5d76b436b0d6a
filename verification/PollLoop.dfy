/**
 * multi_read_on_ready as a step relation: a round polls, starts one task per ready descriptor, lets these read and
 * write in any interleaving, and collects their results in order. System calls answer as they like within their
 * contracts.
 */
module PollLoop {
  import opened Prelude

  type Fd = int

  datatype WriteResult = NoOp | Success | Failure | Interrupted | EndOfFile | PipeConnBroken

  predicate Continues(wr: WriteResult) {
    wr == NoOp || wr == Success
  }

  // ---- one task: write_to_output_stream

  /** A descriptor's bytes still to come, the bytes it has delivered, those written to its output, and bytesWritten. */
  datatype Stream = Stream(rest: string, delivered: string, written: string, bytesWritten: nat)

  datatype Task =
    | Begin(errorEvent: bool)
    | Probe                             // one short read, because poll reported POLLERR, POLLHUP or POLLNVAL
    | Echo(total: nat)
    | Writing(buf: string, total: nat)
    | Ended(wr: WriteResult)

  datatype Choice =
    | Fileno(ok: bool)
    | ReadData(n: nat)
    | ReadEof
    | ReadAgain
    | ReadError
    | Write(nw: int)
    | Interrupt

  const PIPE_BUF := 4096
  const PROBE_SIZE := 8

  predicate TaskEnabled(task: Task, s: Stream, c: Choice) {
    match task
    case Begin(_) => c.Fileno?
    case Probe => (c.ReadData? && 1 <= c.n <= Min(PROBE_SIZE, |s.rest|)) || (c.ReadEof? && s.rest == []) ||
      c.ReadAgain? || c.ReadError?
    case Echo(_) => (c.ReadData? && 1 <= c.n <= Min(PIPE_BUF, |s.rest|)) || (c.ReadEof? && s.rest == []) ||
      c.ReadAgain? || c.ReadError? || c.Interrupt?
    case Writing(buf, _) => c.Write? && -1 <= c.nw <= |buf|
    case Ended(_) => false
  }

  function TaskStep(task: Task, s: Stream, c: Choice): (Task, Stream)
    requires TaskEnabled(task, s, c)
  {
    match c
    case Fileno(ok) => (if !ok then Ended(Failure) else if task.errorEvent then Probe else Echo(0), s)
    case ReadData(n) =>
      (Writing(s.rest[..n], if task.Echo? then task.total else 0),
        s.(rest := s.rest[n..], delivered := s.delivered + s.rest[..n]))
    case ReadEof => (Ended(EndOfFile), s)
    case ReadAgain => (Ended(if task.Echo? && task.total > 0 then NoOp else PipeConnBroken), s)
    case ReadError => (Ended(Failure), s)
    case Interrupt => (Ended(Interrupted), s)
    case Write(nw) =>
      var n := if nw > 0 then nw else 0;
      (if nw == |task.buf| then Echo(task.total + |task.buf|) else Ended(Failure),
       s.(written := s.written + task.buf[..n], bytesWritten := s.bytesWritten + n))
  }

  function InHand(task: Task): string {
    if task.Writing? then task.buf else []
  }

  predicate Moved(task: Task) {
    (task.Echo? && task.total > 0) || task.Writing? || task == Ended(NoOp)
  }

  /** What holds of a descriptor's bytes whatever the system calls do. */
  ghost predicate BytesKept(s: Stream, original: string) {
    s.delivered + s.rest == original && s.written <= s.delivered && s.bytesWritten == |s.written|
  }

  /** Nothing read is lost: it is written, or still in a buffer. */
  ghost predicate NothingLost(task: Task, s: Stream) {
    s.delivered == s.written + InHand(task)
  }

  lemma TaskKeepsBytes(task: Task, s: Stream, c: Choice, original: string)
    requires TaskEnabled(task, s, c) && BytesKept(s, original) && NothingLost(task, s)
    ensures var (task1, s1) := TaskStep(task, s, c);
            BytesKept(s1, original) && (task1 != Ended(Failure) ==> NothingLost(task1, s1))
  {
    match c
    case ReadData(n) =>
      var got, more := s.rest[..n], s.rest[n..];
      assert s.rest == got + more;
      Associate(s.delivered, got, more);
    case Write(nw) =>
      var n := if nw > 0 then nw else 0;
      var sent, unsent := task.buf[..n], task.buf[n..];
      assert task.buf == sent + unsent;
      Associate(s.written, sent, unsent);
    case _ =>
  }

  /** A task moves a byte or ends with a result that retires its group. */
  lemma TaskProgress(task: Task, s: Stream, c: Choice)
    requires TaskEnabled(task, s, c)
    ensures var (task1, s1) := TaskStep(task, s, c);
            && (if c.ReadData? then |s1.rest| == |s.rest| - c.n else s1.rest == s.rest)
            && (Moved(task1) && !Moved(task) ==> c.ReadData?)
            && (task1.Ended? && !Moved(task1) ==> !Continues(task1.wr))
  {
  }

  /** A run of one task's choices. */
  function TaskExec(task: Task, s: Stream, cs: seq<Choice>): Option<(Task, Stream)>
    decreases |cs|
  {
    if cs == [] then Some((task, s))
    else
      var c := cs[|cs| - 1];
      match TaskExec(task, s, cs[..|cs| - 1])
      case None => None
      case Some((t, u)) => if TaskEnabled(t, u, c) then Some(TaskStep(t, u, c)) else None
  }

  lemma TaskMore(task: Task, s: Stream, cs: seq<Choice>, c: Choice)
    requires TaskExec(task, s, cs).Some?
    requires var (t, u) := TaskExec(task, s, cs).value; TaskEnabled(t, u, c)
    ensures var (t, u) := TaskExec(task, s, cs).value; TaskExec(task, s, cs + [c]) == Some(TaskStep(t, u, c))
  {
    assert (cs + [c])[..|cs|] == cs;
  }

  lemma NoChoices(task: Task, s: Stream)
    ensures TaskExec(task, s, []) == Some((task, s))
  {
  }

  // ---- the descriptor groups and the two maps

  /** The three descriptors of a react context; -1 for the two that a single-response context lacks. */
  datatype ReactIo = ReactIo(stdoutFd: Fd, stderrFd: Fd, stdinFd: Fd)

  function Members(g: ReactIo): set<Fd> {
    {g.stdoutFd, g.stderrFd, g.stdinFd} - {-1}
  }

  type FdMap = map<Fd, ReactIo>

  /** unordered_map::insert does not overwrite. */
  function Insert(m: FdMap, fd: Fd, g: ReactIo): FdMap {
    if fd in m then m else m[fd := g]
  }

  function AddGroup(m: FdMap, g: ReactIo): FdMap {
    if g.stderrFd == -1 && g.stdinFd == -1 then Insert(m, g.stdoutFd, g)
    else Insert(Insert(Insert(m, g.stdoutFd, g), g.stderrFd, g), g.stdinFd, g)
  }

  /** lookup_mutable_stream_ctx finds a context. */
  predicate LookedUp(m: FdMap, fd: Fd) {
    fd in m && (m[fd].stdoutFd == fd || m[fd].stderrFd == fd || m[fd].stdinFd == fd)
  }

  /** Each entry is of a valid descriptor and all members of its group are there with it. */
  ghost predicate Whole(m: FdMap) {
    forall fd :: fd in m ==>
      fd >= 0 && fd in Members(m[fd]) && forall x :: x in Members(m[fd]) ==> x in m && m[x] == m[fd]
  }

  /** A context made of distinct new descriptors (one, or all three) keeps the map whole. */
  lemma AddGroupWhole(m: FdMap, g: ReactIo)
    requires Whole(m) && Members(g) !! m.Keys && forall fd :: fd in Members(g) ==> fd >= 0
    requires g.stdoutFd != -1 && (g.stderrFd == -1 <==> g.stdinFd == -1)
    ensures Whole(AddGroup(m, g)) && AddGroup(m, g).Keys == m.Keys + Members(g)
  {
    hide AddGroup, Members;
    AddGroupIs(m, g);
  }

  lemma AddGroupIs(m: FdMap, g: ReactIo)
    requires g.stdoutFd != -1 && (g.stderrFd == -1 <==> g.stdinFd == -1)
    ensures AddGroup(m, g).Keys == m.Keys + Members(g)
    ensures forall fd :: fd in AddGroup(m, g) ==> AddGroup(m, g)[fd] == if fd in m then m[fd] else g
  {
    assert g.stdoutFd in Members(g);
    if g.stderrFd != -1 {
      assert Members(g) == {g.stdoutFd, g.stderrFd, g.stdinFd};
    } else {
      assert Members(g) == {g.stdoutFd};
    }
  }

  /** A descriptor is looked up successfully exactly if it has not been retired. */
  lemma LookedUpIff(m: FdMap, fd: Fd)
    requires Whole(m)
    ensures LookedUp(m, fd) <==> fd in m
  {
  }

  /** Takes a descriptor's whole group out of a map. */
  function Retire<T>(m: map<Fd, T>, g: ReactIo): map<Fd, T> {
    m - Members(g)
  }

  lemma RetireWhole(m: FdMap, fd: Fd)
    requires Whole(m) && fd in m
    ensures Whole(Retire(m, m[fd])) && fd !in Retire(m, m[fd]) && |Retire(m, m[fd])| < |m|
  {
    var r := Retire(m, m[fd]);
    assert r.Keys == m.Keys - Members(m[fd]);
    SmallerSet(r.Keys, m.Keys, fd);
  }

  lemma SmallerSet(a: set<Fd>, b: set<Fd>, x: Fd)
    requires a <= b && x in b && x !in a
    ensures |a| < |b|
  {
    var c := b - a;
    assert x in c && b == a + c;
  }

  // ---- the loop

  datatype Loop = Loop(
    fdMap: FdMap,
    outputs: set<Fd>,            // the keys of output_streams_map
    streams: map<Fd, Stream>,
    inRound: bool,
    tasks: map<Fd, Task>,
    order: seq<Fd>,              // the futures not yet collected
    success: bool,               // ec
    wr: WriteResult,
    // history
    verdicts: seq<WriteResult>,  // the results that retired a descriptor
    lost: set<Fd>,               // the descriptors whose result was FAILURE
    rounds: nat)                 // the rounds with a ready descriptor

  datatype Event =
    | Poll(ready: seq<Fd>, errors: set<Fd>)   // the ready descriptors, and those that an error event came with
    | Eintr
    | Work(fd: Fd, c: Choice)
    | Collect
    | EndRound

  /**
   * The loop over the polled descriptors, with the lookups that guard each launch. A context is valid if its descriptor
   * and its duplicate are; the constructor of a context throws if it cannot duplicate, so only the first needs a test
   * here.
   */
  function Launch(l: Loop, ready: seq<Fd>, errors: set<Fd>): Loop
    decreases |ready|
  {
    if ready == [] then l
    else
      var fd := ready[0];
      if !LookedUp(l.fdMap, fd) then Launch(l, ready[1..], errors)
      else if fd < 0 then l.(fdMap := l.fdMap - {fd}, outputs := l.outputs - {fd})
      else if fd !in l.outputs then Launch(l, ready[1..], errors)
      else Launch(l.(tasks := l.tasks[fd := Begin(fd in errors)], order := l.order + [fd]), ready[1..], errors)
  }

  function Settle(l: Loop, fd: Fd, wr2: WriteResult): Loop {
    if Continues(wr2) then l
    else
      var g := if fd in l.fdMap then Members(l.fdMap[fd]) else {};
      l.(fdMap := l.fdMap - g, outputs := l.outputs - g, wr := if l.wr == NoOp then wr2 else l.wr,
         success := l.success && wr2 == EndOfFile, verdicts := l.verdicts + [wr2],
         lost := if wr2 == Failure then l.lost + {fd} else l.lost)
  }

  ghost predicate Distinct(ready: seq<Fd>) {
    forall i, j :: 0 <= i < j < |ready| ==> ready[i] != ready[j]
  }

  ghost predicate Enabled(l: Loop, e: Event) {
    match e
    case Poll(ready, errors) =>
      !l.inRound && |l.fdMap| > 0 && Distinct(ready) && forall fd :: fd in ready ==> fd in l.fdMap
    case Eintr => !l.inRound
    case Work(fd, c) => fd in l.tasks && fd in l.streams && TaskEnabled(l.tasks[fd], l.streams[fd], c)
    case Collect => l.inRound && l.order != [] && l.order[0] in l.tasks && l.tasks[l.order[0]].Ended?
    case EndRound => l.inRound && l.order == []
  }

  ghost function Step(l: Loop, e: Event): Loop
    requires Enabled(l, e)
  {
    match e
    case Poll(ready, errors) =>
      Launch(l.(inRound := true, wr := NoOp, tasks := map[], order := [],
        rounds := l.rounds + (if ready == [] then 0 else 1)), ready, errors)
    case Eintr => l
    case Work(fd, c) =>
      var (task, s) := TaskStep(l.tasks[fd], l.streams[fd], c);
      l.(tasks := l.tasks[fd := task], streams := l.streams[fd := s])
    case Collect => Settle(l, l.order[0], l.tasks[l.order[0]].wr).(order := l.order[1..])
    case EndRound => l.(inRound := false, tasks := map[])
  }

  // ---- the maps stay in step

  ghost predicate InStep(l: Loop) {
    Whole(l.fdMap) && l.outputs == l.fdMap.Keys && l.fdMap.Keys <= l.streams.Keys
  }

  /** Every lookup succeeds, so exactly one task is launched per ready descriptor and no map changes. */
  lemma {:induction false} LaunchAll(l: Loop, ready: seq<Fd>, errors: set<Fd>)
    requires InStep(l) && Distinct(ready) && forall fd :: fd in ready ==> fd in l.fdMap
    ensures var r := Launch(l, ready, errors);
            && r == l.(tasks := r.tasks, order := l.order + ready)
            && forall fd :: (fd in r.tasks <==> fd in l.tasks || fd in ready) &&
                            (fd in ready ==> r.tasks[fd] == Begin(fd in errors)) &&
                            (fd in l.tasks && fd !in ready ==> r.tasks[fd] == l.tasks[fd])
    decreases |ready|
  {
    if ready != [] {
      var fd := ready[0];
      var next := l.(tasks := l.tasks[fd := Begin(fd in errors)], order := l.order + [fd]);
      assert LookedUp(l.fdMap, fd) && fd >= 0 && fd in l.outputs;
      LaunchAll(next, ready[1..], errors);
      assert l.order + ready == next.order + ready[1..];
      assert forall x :: x in ready <==> x == fd || x in ready[1..];
      assert fd !in ready[1..];
    }
  }

  /** Whatever is polled, a task is launched exactly for the descriptors that are still there, and no map changes. */
  lemma {:induction false} LaunchSkips(l: Loop, ready: seq<Fd>, errors: set<Fd>)
    requires InStep(l)
    ensures var r := Launch(l, ready, errors);
            && r == l.(tasks := r.tasks, order := r.order)
            && (forall fd :: fd in r.tasks <==> fd in l.tasks || (fd in ready && fd in l.fdMap))
    decreases |ready|
  {
    hide Members;
    if ready != [] {
      var fd := ready[0];
      assert LookedUp(l.fdMap, fd) <==> fd in l.fdMap by {
        LookedUpIff(l.fdMap, fd);
      }
      assert forall x :: x in ready <==> x == fd || x in ready[1..];
      LaunchSkips(l, ready[1..], errors);
      LaunchSkips(l.(tasks := l.tasks[fd := Begin(fd in errors)], order := l.order + [fd]), ready[1..], errors);
    }
  }

  /** A group leaves the maps only as a whole, when a result of one of its own members other than NO_OP is collected. */
  lemma RetiredByItsOwn(l: Loop, e: Event, fd: Fd)
    requires InStep(l) && TasksOk(l) && Enabled(l, e) && fd in l.fdMap
    ensures fd in Step(l, e).fdMap ==> Step(l, e).fdMap[fd] == l.fdMap[fd]
    ensures fd !in Step(l, e).fdMap <==>
            e.Collect? && l.order[0] in Members(l.fdMap[fd]) && l.tasks[l.order[0]].wr != NoOp &&
            l.tasks[l.order[0]].wr != Success
  {
    match e
    case Poll(ready, errors) =>
      hide Launch, Members, Distinct;
      PollStarts(l, ready, errors);
    case Collect =>
      hide Distinct;
      RetiredGroup(l, fd, l.order[0], l.tasks[l.order[0]].wr);
    case _ =>
  }

  lemma RetiredGroup(l: Loop, fd: Fd, other: Fd, wr2: WriteResult)
    requires InStep(l) && fd in l.fdMap
    ensures var r := Settle(l, other, wr2);
            && (fd in r.fdMap ==> r.fdMap[fd] == l.fdMap[fd])
            && (fd !in r.fdMap <==> wr2 != NoOp && wr2 != Success && other in Members(l.fdMap[fd]))
  {
    hide Members;
    if other in l.fdMap && fd in Members(l.fdMap[other]) {
      assert l.fdMap[fd] == l.fdMap[other];
    }
  }

  // ---- what holds in every reachable state

  function TaskOf(l: Loop, fd: Fd): Task {
    if fd in l.tasks then l.tasks[fd] else Ended(NoOp)
  }

  /** The bytes of one descriptor: an in-order prefix is written, all of what was read unless the result is FAILURE. */
  ghost predicate StreamOk(l: Loop, fd: Fd, original: string)
    requires fd in l.streams
  {
    && BytesKept(l.streams[fd], original)
    && (fd !in l.lost && TaskOf(l, fd) != Ended(Failure) ==> NothingLost(TaskOf(l, fd), l.streams[fd]))
  }

  ghost predicate TasksOk(l: Loop) {
    && l.tasks.Keys <= l.streams.Keys
    && Distinct(l.order)
    && (forall fd :: fd in l.order ==> fd in l.tasks && fd !in l.lost)
    && (forall fd :: fd in l.tasks && fd !in l.order ==>
       l.tasks[fd].Ended? && (l.tasks[fd] == Ended(Failure) ==> fd in l.lost))
    && (!l.inRound ==> l.order == [] && l.tasks == map[])
    && l.lost !! l.fdMap.Keys
  }

  ghost predicate AllEof(verdicts: seq<WriteResult>) {
    forall wr :: wr in verdicts ==> wr == EndOfFile
  }

  lemma AllEofLonger(verdicts: seq<WriteResult>, wr: WriteResult)
    ensures AllEof(verdicts + [wr]) <==> AllEof(verdicts) && wr == EndOfFile
  {
    assert wr in verdicts + [wr] && forall x :: x in verdicts ==> x in verdicts + [wr];
  }

  ghost predicate Invariant(l: Loop, originals: map<Fd, string>) {
    && InStep(l) && TasksOk(l)
    && l.streams.Keys == originals.Keys
    && (forall fd :: fd in originals ==> StreamOk(l, fd, originals[fd]))
    && (l.success <==> AllEof(l.verdicts))
  }

  /** A round starts with a task for each ready descriptor and nothing else changed. */
  lemma PollStarts(l: Loop, ready: seq<Fd>, errors: set<Fd>)
    requires InStep(l) && TasksOk(l) && Enabled(l, Poll(ready, errors))
    ensures var r := Step(l, Poll(ready, errors));
            && r == l.(inRound := true, wr := NoOp, tasks := r.tasks, order := ready, rounds := r.rounds)
            && r.rounds == l.rounds + (if ready == [] then 0 else 1)
            && (forall fd :: fd in r.tasks <==> fd in ready)
            && (forall fd :: fd in ready ==> r.tasks[fd] == Begin(fd in errors))
            && InStep(r) && TasksOk(r) && l.tasks == map[]
  {
    hide Launch, Whole;
    LaunchAll(l.(inRound := true, wr := NoOp, tasks := map[], order := [],
      rounds := l.rounds + (if ready == [] then 0 else 1)),
              ready, errors);
    assert [] + ready == ready;
  }

  lemma PollKeeps(l: Loop, originals: map<Fd, string>, ready: seq<Fd>, errors: set<Fd>)
    requires Invariant(l, originals) && Enabled(l, Poll(ready, errors))
    ensures Invariant(Step(l, Poll(ready, errors)), originals)
  {
    hide Launch, Step, Enabled, BytesKept, Whole, AllEof, Distinct;
    PollStarts(l, ready, errors);
    var r := Step(l, Poll(ready, errors));
    forall fd | fd in originals
      ensures StreamOk(r, fd, originals[fd])
    {
      assert StreamOk(l, fd, originals[fd]);
    }
  }

  lemma WorkKeeps(l: Loop, originals: map<Fd, string>, fd: Fd, c: Choice)
    requires Invariant(l, originals) && Enabled(l, Work(fd, c))
    ensures Invariant(Step(l, Work(fd, c)), originals)
  {
    hide BytesKept, NothingLost, TaskStep, TaskEnabled, Whole;
    NotEnded(l.tasks[fd], l.streams[fd], c);
    assert fd in l.order && StreamOk(l, fd, originals[fd]);
    TaskKeepsBytes(l.tasks[fd], l.streams[fd], c, originals[fd]);
    var r := Step(l, Work(fd, c));
    forall x | x in originals
      ensures StreamOk(r, x, originals[x])
    {
      assert StreamOk(l, x, originals[x]);
    }
  }

  lemma NotEnded(task: Task, s: Stream, c: Choice)
    requires TaskEnabled(task, s, c)
    ensures !task.Ended?
  {
  }

  /** A retired group is gone from both maps as a whole. */
  lemma SettleInStep(l: Loop, fd: Fd, wr2: WriteResult)
    requires InStep(l)
    ensures InStep(Settle(l, fd, wr2))
    ensures !Continues(wr2) ==> fd !in Settle(l, fd, wr2).fdMap
    ensures !Continues(wr2) && fd in l.fdMap ==> |Settle(l, fd, wr2).fdMap| < |l.fdMap|
    ensures Settle(l, fd, wr2).fdMap.Keys <= l.fdMap.Keys && |Settle(l, fd, wr2).fdMap| <= |l.fdMap|
  {
    var r := Settle(l, fd, wr2);
    if fd in l.fdMap && !Continues(wr2) {
      RetireWhole(l.fdMap, fd);
      assert r.fdMap.Keys == l.fdMap.Keys - Members(l.fdMap[fd]);
    } else {
      assert r.fdMap == l.fdMap && r.outputs == l.outputs;
    }
  }

  lemma TailDistinct(s: seq<Fd>)
    requires s != [] && Distinct(s)
    ensures Distinct(s[1..]) && s[0] !in s[1..] && forall x :: x in s <==> x == s[0] || x in s[1..]
  {
    assert s == [s[0]] + s[1..];
  }

  lemma CollectTasks(l: Loop)
    requires InStep(l) && TasksOk(l) && Enabled(l, Collect)
    ensures InStep(Step(l, Collect)) && TasksOk(Step(l, Collect)) && l.order[0] !in Step(l, Collect).order
  {
    hide InStep, Distinct, TasksOk, Settle, Continues;
    var fd, wr2 := l.order[0], l.tasks[l.order[0]].wr;
    SettleInStep(l, fd, wr2);
    CollectTasksOk(l);
    InStepOnly(Settle(l, fd, wr2), Step(l, Collect));
  }

  lemma CollectTasksOk(l: Loop)
    requires InStep(l) && TasksOk(l) && Enabled(l, Collect)
    ensures TasksOk(Step(l, Collect)) && l.order[0] !in Step(l, Collect).order
    ensures Step(l, Collect).(order := []) == Settle(l, l.order[0], l.tasks[l.order[0]].wr).(order := [])
  {
    hide InStep, Distinct, Settle, Continues;
    var fd, wr2 := l.order[0], l.tasks[l.order[0]].wr;
    TailDistinct(l.order);
    SettleInStep(l, fd, wr2);
    SettleLeaves(l, fd, wr2);
  }

  lemma SettleLeaves(l: Loop, fd: Fd, wr2: WriteResult)
    ensures var r := Settle(l, fd, wr2);
            && r.tasks == l.tasks && r.order == l.order && r.streams == l.streams && r.inRound == l.inRound
            && r.lost == (if wr2 == Failure then l.lost + {fd} else l.lost)
    ensures Continues(Failure) == false
  {
  }

  lemma CollectKeeps(l: Loop, originals: map<Fd, string>)
    requires Invariant(l, originals) && Enabled(l, Collect)
    ensures Invariant(Step(l, Collect), originals)
  {
    hide BytesKept, NothingLost, InStep, AllEof, TasksOk;
    CollectTasks(l);
    AllEofLonger(l.verdicts, l.tasks[l.order[0]].wr);
    var r := Step(l, Collect);
    forall x | x in originals
      ensures StreamOk(r, x, originals[x])
    {
      assert StreamOk(l, x, originals[x]);
    }
  }

  lemma InStepOnly(l: Loop, r: Loop)
    requires InStep(l) && r.fdMap == l.fdMap && r.outputs == l.outputs && r.streams == l.streams
    ensures InStep(r)
  {
  }

  lemma InvariantStep(l: Loop, originals: map<Fd, string>, e: Event)
    requires Invariant(l, originals) && Enabled(l, e)
    ensures Invariant(Step(l, e), originals)
  {
    match e
    case Poll(ready, errors) => PollKeeps(l, originals, ready, errors);
    case Work(fd, c) => WorkKeeps(l, originals, fd, c);
    case Collect => CollectKeeps(l, originals);
    case EndRound =>
      forall x | x in originals
        ensures StreamOk(Step(l, e), x, originals[x])
      {
        assert StreamOk(l, x, originals[x]);
      }
    case Eintr =>
  }

  // ---- runs

  ghost predicate Runs(l: Loop, es: seq<Event>)
    decreases |es|
  {
    es == [] || (Enabled(l, es[0]) && Runs(Step(l, es[0]), es[1..]))
  }

  ghost function Exec(l: Loop, es: seq<Event>): Loop
    requires Runs(l, es)
    decreases |es|
  {
    if es == [] then l else Exec(Step(l, es[0]), es[1..])
  }

  /** The state multi_read_on_ready starts in. */
  ghost predicate Initial(l: Loop, originals: map<Fd, string>) {
    && InStep(l) && !l.inRound && l.order == [] && l.tasks == map[]
    && l.success && l.wr == NoOp && l.verdicts == [] && l.lost == {} && l.rounds == 0
    && l.streams.Keys == originals.Keys
    && forall fd :: fd in originals ==> l.streams[fd] == Stream(originals[fd], [], [], 0)
  }

  lemma InitialInvariant(l: Loop, originals: map<Fd, string>)
    requires Initial(l, originals)
    ensures Invariant(l, originals)
  {
  }

  lemma {:induction false} InvariantRun(l: Loop, originals: map<Fd, string>, es: seq<Event>)
    requires Invariant(l, originals) && Runs(l, es)
    ensures Invariant(Exec(l, es), originals)
    decreases |es|
  {
    hide Invariant, Step, Enabled;
    if es != [] {
      InvariantStep(l, originals, es[0]);
      InvariantRun(Step(l, es[0]), originals, es[1..]);
    }
  }

  /**
   * In every run and interleaving: both maps have the same keys and hold each group whole or not at all, so no lookup
   * of a polled descriptor fails; and the exit code is success exactly when every retiring result was END_OF_FILE.
   */
  lemma MapsInStep(l: Loop, originals: map<Fd, string>, es: seq<Event>)
    requires Initial(l, originals) && Runs(l, es)
    ensures var s := Exec(l, es);
            && s.outputs == s.fdMap.Keys
            && (forall fd :: fd in s.fdMap ==> fd >= 0 && LookedUp(s.fdMap, fd) && Members(s.fdMap[fd]) <= s.fdMap.Keys)
            && (s.success <==> forall wr :: wr in s.verdicts ==> wr == EndOfFile)
  {
    hide Initial, Runs, Exec, TasksOk, StreamOk;
    InitialInvariant(l, originals);
    InvariantRun(l, originals, es);
  }

  /**
   * In every run and interleaving, what is written for a descriptor is an in-order prefix of the bytes it delivered,
   * bytesWritten is its length, and between rounds it is all of them unless the result was FAILURE.
   */
  lemma BytesInOrder(l: Loop, originals: map<Fd, string>, es: seq<Event>, fd: Fd)
    requires Initial(l, originals) && Runs(l, es) && fd in originals
    ensures fd in Exec(l, es).streams
    ensures var s, strm := Exec(l, es), Exec(l, es).streams[fd];
            && strm.written <= strm.delivered <= originals[fd]
            && strm.bytesWritten == |strm.written|
            && (!s.inRound && fd !in s.lost ==> strm.written == strm.delivered)
  {
    InitialInvariant(l, originals);
    InvariantRun(l, originals, es);
    var s := Exec(l, es);
    assert StreamOk(s, fd, originals[fd]);
    assert !s.inRound ==> TaskOf(s, fd) == Ended(NoOp);
  }

  lemma {:induction false} LaunchKeepsResult(l: Loop, ready: seq<Fd>, errors: set<Fd>)
    ensures Launch(l, ready, errors).wr == l.wr && Launch(l, ready, errors).verdicts == l.verdicts
    decreases |ready|
  {
    if ready != [] {
      var fd := ready[0];
      LaunchKeepsResult(l, ready[1..], errors);
      LaunchKeepsResult(l.(tasks := l.tasks[fd := Begin(fd in errors)], order := l.order + [fd]), ready[1..], errors);
    }
  }

  function FirstResult(wr: WriteResult, later: seq<WriteResult>): WriteResult {
    if wr != NoOp || later == [] then wr else later[0]
  }

  lemma ResultStep(l: Loop, e: Event)
    requires Enabled(l, e) && !e.Poll?
    ensures var r := Step(l, e);
            l.verdicts <= r.verdicts && r.wr == FirstResult(l.wr, r.verdicts[|l.verdicts|..]) &&
              NoOp !in r.verdicts[|l.verdicts|..]
  {
  }

  lemma {:induction false} ResultRun(l: Loop, es: seq<Event>)
    requires Runs(l, es) && forall e :: e in es ==> !e.Poll?
    ensures var s := Exec(l, es);
            l.verdicts <= s.verdicts && s.wr == FirstResult(l.wr, s.verdicts[|l.verdicts|..]) &&
              NoOp !in s.verdicts[|l.verdicts|..]
    decreases |es|
  {
    hide Step, Enabled;
    if es != [] {
      assert es[0] in es && forall e :: e in es[1..] ==> e in es;
      ResultStep(l, es[0]);
      var m := Step(l, es[0]);
      ResultRun(m, es[1..]);
      var s := Exec(m, es[1..]);
      assert s.verdicts[|l.verdicts|..] == m.verdicts[|l.verdicts|..] + s.verdicts[|m.verdicts|..];
    }
  }

  /**
   * The result returned with the exit code is the first result of the last round that retired a descriptor, or NO_OP.
   */
  lemma ResultOfLastRound(l: Loop, ready: seq<Fd>, errors: set<Fd>, es: seq<Event>)
    requires Enabled(l, Poll(ready, errors)) && Runs(Step(l, Poll(ready, errors)), es)
    requires forall e :: e in es ==> !e.Poll?
    ensures var s := Exec(Step(l, Poll(ready, errors)), es);
            && l.verdicts <= s.verdicts
            && var ofRound := s.verdicts[|l.verdicts|..];
               s.wr == if ofRound == [] then NoOp else ofRound[0]
  {
    hide Launch, Runs, Exec, Settle;
    LaunchKeepsResult(l.(inRound := true, wr := NoOp, tasks := map[], order := [],
      rounds := l.rounds + (if ready == [] then 0 else 1)),
                      ready, errors);
    ResultRun(Step(l, Poll(ready, errors)), es);
  }

  // ---- termination

  /** The bytes that all descriptors still have to deliver. */
  function Left(fds: seq<Fd>, streams: map<Fd, Stream>): nat
    requires forall fd :: fd in fds ==> fd in streams
    decreases |fds|
  {
    if fds == [] then 0
    else
      var fd := fds[0];
      assert fd in fds;
      |streams[fd].rest| + Left(fds[1..], streams)
  }

  lemma {:induction false} LeftAfter(fds: seq<Fd>, streams: map<Fd, Stream>, fd: Fd, s: Stream)
    requires Distinct(fds) && (forall x :: x in fds ==> x in streams) && fd in streams
    ensures Left(fds, streams[fd := s]) == Left(fds, streams) + (if fd in fds then |s.rest| - |streams[fd].rest| else 0)
    decreases |fds|
  {
    hide Distinct;
    if fds != [] {
      TailDistinct(fds);
      LeftAfter(fds[1..], streams, fd, s);
    }
  }

  /** Every descriptor of the loop is listed once. */
  ghost predicate Lists(fds: seq<Fd>, l: Loop) {
    Distinct(fds) && forall fd :: fd in fds <==> fd in l.streams
  }

  /**
   * The bytes left and the descriptors left pay for the rounds; a round pays by its end at the latest, through its
   * first task.
   */
  ghost predicate Paid(fds: seq<Fd>, l: Loop, budget: nat)
    requires Lists(fds, l)
  {
    var spent := l.rounds + Left(fds, l.streams) + |l.fdMap|;
    || spent <= budget
    || (spent <= budget + 1 && l.order != [] && l.order[0] in l.fdMap && l.order[0] in l.tasks &&
      !Moved(l.tasks[l.order[0]]))
  }

  lemma PaidWork(fds: seq<Fd>, l: Loop, fd: Fd, c: Choice, budget: nat)
    requires InStep(l) && TasksOk(l) && Lists(fds, l) && Paid(fds, l, budget) && Enabled(l, Work(fd, c))
    ensures Lists(fds, Step(l, Work(fd, c))) && Paid(fds, Step(l, Work(fd, c)), budget)
  {
    hide TaskStep, TaskEnabled, Moved, Distinct, Whole, Left;
    var (task, s) := TaskStep(l.tasks[fd], l.streams[fd], c);
    TaskProgress(l.tasks[fd], l.streams[fd], c);
    ReadsSomething(l.tasks[fd], l.streams[fd], c);
    LeftAfter(fds, l.streams, fd, s);
  }

  lemma ReadsSomething(task: Task, s: Stream, c: Choice)
    requires TaskEnabled(task, s, c)
    ensures c.ReadData? ==> c.n >= 1
  {
  }

  lemma PaidCollect(fds: seq<Fd>, l: Loop, budget: nat)
    requires InStep(l) && TasksOk(l) && Lists(fds, l) && Paid(fds, l, budget) && Enabled(l, Collect)
    requires !Moved(l.tasks[l.order[0]]) ==> !Continues(l.tasks[l.order[0]].wr)
    ensures Lists(fds, Step(l, Collect)) && Paid(fds, Step(l, Collect), budget)
  {
    hide Moved, Distinct, Whole, Left;
    SettleInStep(l, l.order[0], l.tasks[l.order[0]].wr);
  }

  /** A task that has ended without moving a byte retires its group. */
  ghost predicate EndsWell(l: Loop) {
    forall fd :: fd in l.tasks ==> l.tasks[fd].Ended? && !Moved(l.tasks[fd]) ==> !Continues(l.tasks[fd].wr)
  }

  lemma PaidStep(fds: seq<Fd>, l: Loop, e: Event, budget: nat)
    requires InStep(l) && TasksOk(l) && EndsWell(l) && Lists(fds, l) && Paid(fds, l, budget) && Enabled(l, e)
    ensures EndsWell(Step(l, e)) && Lists(fds, Step(l, e)) && Paid(fds, Step(l, e), budget)
  {
    match e
    case Poll(ready, errors) =>
      hide Launch, Whole, Left, Distinct;
      PollStarts(l, ready, errors);
    case Work(fd, c) =>
      hide TaskStep, TaskEnabled, Paid, Distinct, Whole;
      PaidWork(fds, l, fd, c, budget);
      TaskProgress(l.tasks[fd], l.streams[fd], c);
    case Collect =>
      hide Paid, Distinct, Whole;
      var fd := l.order[0];
      assert fd in l.tasks;
      PaidCollect(fds, l, budget);
    case _ =>
  }

  lemma {:induction false} PaidRun(fds: seq<Fd>, l: Loop, originals: map<Fd, string>, es: seq<Event>, budget: nat)
    requires Invariant(l, originals) && EndsWell(l) && Lists(fds, l) && Paid(fds, l, budget) && Runs(l, es)
    ensures Lists(fds, Exec(l, es)) && Paid(fds, Exec(l, es), budget)
    decreases |es|
  {
    hide InStep, TasksOk, EndsWell, Lists, Paid, Step, Enabled;
    if es != [] {
      InvariantStep(l, originals, es[0]);
      PaidStep(fds, l, es[0], budget);
      PaidRun(fds, Step(l, es[0]), originals, es[1..], budget);
    }
  }

  /**
   * On finite input the loop cannot go on for ever: no run has more rounds with a ready descriptor than there were
   * bytes to deliver and descriptors to retire.
   */
  lemma RoundsBounded(fds: seq<Fd>, l: Loop, originals: map<Fd, string>, es: seq<Event>)
    requires Initial(l, originals) && Lists(fds, l) && Runs(l, es)
    ensures var budget, s := Left(fds, l.streams) + |l.fdMap|, Exec(l, es);
            s.rounds <= budget + 1 && (!s.inRound ==> s.rounds <= budget)
  {
    InitialInvariant(l, originals);
    InvariantRun(l, originals, es);
    PaidRun(fds, l, originals, es, Left(fds, l.streams) + |l.fdMap|);
  }

  function Phase(task: Task): nat {
    match task
    case Begin(_) => 4
    case Probe => 3
    case Echo(_) => 1
    case Writing(_, _) => 2
    case Ended(_) => 0
  }

  /** Within a round, each task makes finitely many steps. */
  function Effort(task: Task, s: Stream): nat {
    2 * |s.rest| + Phase(task)
  }

  lemma TaskEnds(task: Task, s: Stream, c: Choice)
    requires TaskEnabled(task, s, c)
    ensures var (task1, s1) := TaskStep(task, s, c); Effort(task1, s1) < Effort(task, s)
  {
  }

  // ---- all events together

  /** The work that the tasks of a round have still to do, besides moving bytes. */
  function Phases(fds: seq<Fd>, tasks: map<Fd, Task>): nat {
    if fds == [] then 0
    else (if fds[0] in tasks then Phase(tasks[fds[0]]) else 0) + Phases(fds[1..], tasks)
  }

  lemma {:induction false} PhasesAfter(fds: seq<Fd>, tasks: map<Fd, Task>, fd: Fd, task: Task)
    requires Distinct(fds) && fd in tasks
    ensures Phases(fds, tasks[fd := task]) ==
            Phases(fds, tasks) + (if fd in fds then Phase(task) - Phase(tasks[fd]) else 0)
    decreases |fds|
  {
    hide Distinct, Phase;
    if fds != [] {
      TailDistinct(fds);
      PhasesAfter(fds[1..], tasks, fd, task);
    }
  }

  lemma {:induction false} PhasesBounds(fds: seq<Fd>, tasks: map<Fd, Task>)
    ensures Phases(fds, tasks) <= 4 * |fds|
    ensures tasks == map[] ==> Phases(fds, tasks) == 0
  {
    if fds != [] {
      PhasesBounds(fds[1..], tasks);
    }
  }

  /** A list of distinct members of another one is no longer than that. */
  lemma {:induction false} NoLonger(a: seq<Fd>, b: seq<Fd>)
    requires Distinct(a) && forall x :: x in a ==> x in b
    ensures |a| <= |b|
    decreases |a|
  {
    hide Distinct;
    if a != [] {
      TailDistinct(a);
      var i :| 0 <= i < |b| && b[i] == a[0];
      var rest := b[..i] + b[i + 1..];
      forall x | x in a[1..]
        ensures x in rest
      {
        var j :| 0 <= j < |b| && b[j] == x;
        assert j != i && rest[if j < i then j else j - 1] == x;
      }
      NoLonger(a[1..], rest);
    }
  }

  /** Everything but an interrupted poll, a poll without a ready descriptor, and the end of a round. */
  predicate Counts(e: Event) {
    (e.Poll? && e.ready != []) || e.Work? || e.Collect?
  }

  function Counted(es: seq<Event>): nat {
    if es == [] then 0 else (if Counts(es[0]) then 1 else 0) + Counted(es[1..])
  }

  /** What one round can cost besides moving bytes: its poll, and per descriptor four steps and a result to collect. */
  function RoundCost(fds: seq<Fd>): nat {
    1 + 5 * |fds|
  }

  /** What pays for the events to come; last is a bound for the number of rounds. */
  ghost function Credit(fds: seq<Fd>, l: Loop, last: nat): int
    requires Lists(fds, l)
  {
    2 * Left(fds, l.streams) + Phases(fds, l.tasks) + |l.order| + RoundCost(fds) * (last - l.rounds)
  }

  /** Every event that counts costs credit, and no other event brings any. */
  lemma CreditStep(fds: seq<Fd>, l: Loop, e: Event, last: nat)
    requires InStep(l) && TasksOk(l) && Lists(fds, l) && Enabled(l, e)
    ensures Lists(fds, Step(l, e))
    ensures Credit(fds, Step(l, e), last) + (if Counts(e) then 1 else 0) <= Credit(fds, l, last)
  {
    match e
    case Poll(ready, errors) => CreditPoll(fds, l, ready, errors, last);
    case Work(fd, c) => CreditWork(fds, l, fd, c, last);
    case Collect => CreditCollect(fds, l, last);
    case EndRound =>
      hide Left, Distinct;
      PhasesBounds(fds, map[]);
    case Eintr =>
  }

  lemma CreditPoll(fds: seq<Fd>, l: Loop, ready: seq<Fd>, errors: set<Fd>, last: nat)
    requires InStep(l) && TasksOk(l) && Lists(fds, l) && Enabled(l, Poll(ready, errors))
    ensures Lists(fds, Step(l, Poll(ready, errors)))
    ensures Credit(fds, Step(l, Poll(ready, errors)), last) + (if ready != [] then 1 else 0) <= Credit(fds, l, last)
  {
    hide Left, Distinct, Launch, Whole, Step, RoundCost;
    var r := Step(l, Poll(ready, errors));
    PollStarts(l, ready, errors);
    PhasesBounds(fds, l.tasks);
    PhasesBounds(fds, r.tasks);
    NoLonger(ready, fds);
    if ready == [] {
      assert forall fd :: fd !in r.tasks;
      assert r.tasks == map[];
    } else {
      OneRoundLess(RoundCost(fds), last - l.rounds);
      assert RoundCost(fds) == 1 + 5 * |fds| by {
        CostIs(fds);
      }
    }
  }

  lemma CostIs(fds: seq<Fd>)
    ensures RoundCost(fds) == 1 + 5 * |fds|
  {
  }

  lemma OneRoundLess(cost: nat, n: int)
    ensures cost * (n - 1) == cost * n - cost
  {
  }

  lemma CreditWork(fds: seq<Fd>, l: Loop, fd: Fd, c: Choice, last: nat)
    requires InStep(l) && TasksOk(l) && Lists(fds, l) && Enabled(l, Work(fd, c))
    ensures Lists(fds, Step(l, Work(fd, c)))
    ensures Credit(fds, Step(l, Work(fd, c)), last) < Credit(fds, l, last)
  {
    hide Left, Distinct, Whole, TaskStep, TaskEnabled, RoundCost, Phase;
    var (task, s) := TaskStep(l.tasks[fd], l.streams[fd], c);
    TaskEnds(l.tasks[fd], l.streams[fd], c);
    LeftAfter(fds, l.streams, fd, s);
    PhasesAfter(fds, l.tasks, fd, task);
  }

  lemma CreditCollect(fds: seq<Fd>, l: Loop, last: nat)
    requires Lists(fds, l) && Enabled(l, Collect)
    ensures Lists(fds, Step(l, Collect)) && Credit(fds, Step(l, Collect), last) < Credit(fds, l, last)
  {
    hide Left, Distinct, RoundCost, Members;
  }

  lemma {:induction false} CreditRun(fds: seq<Fd>, l: Loop, originals: map<Fd, string>, es: seq<Event>, last: nat)
    requires Invariant(l, originals) && Lists(fds, l) && Runs(l, es)
    ensures Lists(fds, Exec(l, es)) && Credit(fds, Exec(l, es), last) + Counted(es) <= Credit(fds, l, last)
    decreases |es|
  {
    hide InStep, TasksOk, Lists, Credit, Step, Enabled, Counts;
    if es != [] {
      InvariantStep(l, originals, es[0]);
      CreditStep(fds, l, es[0], last);
      CreditRun(fds, Step(l, es[0]), originals, es[1..], last);
    }
  }

  /**
   * On finite input the loop terminates: the number of events of any run, apart from interrupted polls, polls without a
   * ready descriptor and the ends of rounds, is bounded by the bytes and descriptors at the start.
   */
  lemma EventsBounded(fds: seq<Fd>, l: Loop, originals: map<Fd, string>, es: seq<Event>)
    requires Initial(l, originals) && Lists(fds, l) && Runs(l, es)
    ensures var left := Left(fds, l.streams);
            Counted(es) <= 2 * left + (1 + 5 * |fds|) * (left + |l.fdMap| + 1)
  {
    hide Left, Distinct, Runs, Exec, Counted, Phases, Invariant, Whole, RoundCost;
    var last := Left(fds, l.streams) + |l.fdMap| + 1;
    InitialInvariant(l, originals);
    CreditRun(fds, l, originals, es, last);
    RoundsBounded(fds, l, originals, es);
    PhasesBounds(fds, l.tasks);
    CreditLeft(fds, Exec(l, es), last);
    CostIs(fds);
  }

  lemma CreditLeft(fds: seq<Fd>, l: Loop, last: nat)
    requires Lists(fds, l) && l.rounds <= last
    ensures Credit(fds, l, last) >= 0
  {
    hide Left, Distinct, Phases, RoundCost;
    assert RoundCost(fds) * (last - l.rounds) >= 0;
  }

  /** The ends of rounds: at most one for each poll. */
  lemma {:induction false} EndsOfRounds(l: Loop, es: seq<Event>)
    requires Runs(l, es)
    ensures Number(es, EndRound) + (if Exec(l, es).inRound then 1 else 0) == Polls(es) + (if l.inRound then 1 else 0)
    decreases |es|
  {
    if es != [] {
      RoundStep(l, es[0]);
      hide Step, Enabled;
      EndsOfRounds(Step(l, es[0]), es[1..]);
    }
  }

  function Number(es: seq<Event>, e: Event): nat {
    if es == [] then 0 else (if es[0] == e then 1 else 0) + Number(es[1..], e)
  }

  function Polls(es: seq<Event>): nat {
    if es == [] then 0 else (if es[0].Poll? then 1 else 0) + Polls(es[1..])
  }

  lemma {:induction false} LaunchKeepsRound(l: Loop, ready: seq<Fd>, errors: set<Fd>)
    ensures Launch(l, ready, errors).inRound == l.inRound
    decreases |ready|
  {
    if ready != [] {
      var fd := ready[0];
      LaunchKeepsRound(l, ready[1..], errors);
      LaunchKeepsRound(l.(tasks := l.tasks[fd := Begin(fd in errors)], order := l.order + [fd]), ready[1..], errors);
    }
  }

  lemma RoundStep(l: Loop, e: Event)
    requires Enabled(l, e)
    ensures Step(l, e).inRound == if e.Poll? then true else if e == EndRound then false else l.inRound
    ensures (e.Poll? ==> !l.inRound) && (e == EndRound ==> l.inRound)
  {
    if e.Poll? {
      hide Launch;
      LaunchKeepsRound(l.(inRound := true, wr := NoOp, tasks := map[], order := [],
                          rounds := l.rounds + (if e.ready == [] then 0 else 1)), e.ready, e.errors);
    }
  }

  /** A round never gets stuck: some task can go on, or a result can be collected, or the round can end. */
  lemma RoundGoesOn(l: Loop, originals: map<Fd, string>) returns (e: Event)
    requires Invariant(l, originals) && l.inRound
    ensures Enabled(l, e) && (e.Work? || e.Collect? || e.EndRound?)
  {
    hide Whole, StreamOk, Distinct, AllEof;
    if l.order == [] {
      e := EndRound;
    } else {
      var fd := l.order[0];
      assert fd in l.order;
      match l.tasks[fd]
      case Ended(_) => e := Collect;
      case Begin(_) => e := Work(fd, Choice.Fileno(true));
      case Writing(_, _) => e := Work(fd, Choice.Write(0));
      case _ => e := Work(fd, ReadError);
    }
  }
}
