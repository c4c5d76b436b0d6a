/** Which answers of the system calls lead to which results, of a task and of the whole loop. */
module PollResults {
  import opened Prelude
  import opened PollLoop

  predicate HasData(cs: seq<Choice>) {
    exists i :: 0 <= i < |cs| && cs[i].ReadData?
  }

  /** The last answers are a read and a write of fewer bytes, or a failed one. */
  predicate ShortWrite(cs: seq<Choice>) {
    var n := |cs|;
    n >= 2 && cs[n - 1].Write? && cs[n - 2].ReadData? && cs[n - 1].nw != cs[n - 2].n
  }

  predicate Ends(cs: seq<Choice>) {
    cs != [] &&
    var last := cs[|cs| - 1];
    || last == ReadEof || last == ReadAgain || last == ReadError || last == Interrupt || last == Fileno(false)
    || ShortWrite(cs)
  }

  /** The result of a task, by the answers it has got. */
  ghost predicate Outcome(cs: seq<Choice>, wr: WriteResult) {
    Ends(cs) &&
    var last := cs[|cs| - 1];
    && (wr == EndOfFile <==> last == ReadEof)
    && (wr == NoOp <==> last == ReadAgain && HasData(cs))
    && (wr == PipeConnBroken <==> last == ReadAgain && !HasData(cs))
    && (wr == Failure <==> last == Fileno(false) || last == ReadError || ShortWrite(cs))
    && (wr == Interrupted <==> last == Interrupt)
    && wr != Success
  }

  /** What a task asks: its descriptor first, then up to 4096 bytes at a time, but 8 at first after an error event. */
  ghost predicate Asked(cs: seq<Choice>, errorEvent: bool) {
    && (forall i :: 0 <= i < |cs| ==> (cs[i].Fileno? <==> i == 0))
    && (forall i :: 0 <= i < |cs| && cs[i].ReadData? ==> 1 <= cs[i].n <= if errorEvent && i == 1 then 8 else 4096)
    && (errorEvent && |cs| > 1 ==> cs[1] != Interrupt)
  }

  /** Where a task stands, by the answers it has got. */
  ghost predicate Stands(cs: seq<Choice>, errorEvent: bool, task: Task) {
    && Asked(cs, errorEvent)
    && (task.Ended? <==> Ends(cs))
    && (task.Begin? <==> cs == []) && (task.Begin? ==> task.errorEvent == errorEvent)
    && (task.Probe? <==> errorEvent && cs == [Fileno(true)])
    && (task.Echo? ==> (task.total > 0 <==> HasData(cs)))
    && (task.Writing? <==> cs != [] && cs[|cs| - 1].ReadData?)
    && (task.Writing? ==> |task.buf| == cs[|cs| - 1].n > 0 && HasData(cs))
    && (task.Begin? || task.Probe? ==> !HasData(cs))
    && (task.Ended? ==> Outcome(cs, task.wr))
  }

  lemma {:induction false} TaskTable(errorEvent: bool, s: Stream, cs: seq<Choice>)
    requires TaskExec(Begin(errorEvent), s, cs).Some?
    ensures Stands(cs, errorEvent, TaskExec(Begin(errorEvent), s, cs).value.0)
    decreases |cs|
  {
    hide Stands, TaskStep, TaskEnabled;
    if cs == [] {
      StandsFirst(errorEvent);
    } else {
      var before, c := cs[..|cs| - 1], cs[|cs| - 1];
      TaskTable(errorEvent, s, before);
      var (t, u) := TaskExec(Begin(errorEvent), s, before).value;
      StandsNext(before, errorEvent, t, u, c);
      assert before + [c] == cs;
    }
  }

  lemma StandsFirst(errorEvent: bool)
    ensures Stands([], errorEvent, Begin(errorEvent))
  {
  }

  lemma HasDataNext(cs: seq<Choice>, c: Choice)
    ensures HasData(cs + [c]) <==> HasData(cs) || c.ReadData?
  {
    var all := cs + [c];
    assert all[|cs|] == c && forall i :: 0 <= i < |cs| ==> all[i] == cs[i];
  }

  lemma StandsNext(cs: seq<Choice>, errorEvent: bool, task: Task, s: Stream, c: Choice)
    requires Stands(cs, errorEvent, task) && TaskEnabled(task, s, c)
    ensures Stands(cs + [c], errorEvent, TaskStep(task, s, c).0)
  {
    hide HasData;
    HasDataNext(cs, c);
    AskedNext(cs, errorEvent, task, s, c);
    var all := cs + [c];
    assert all[|cs|] == c && all[..|cs|] == cs && (cs != [] ==> all[|cs| - 1] == cs[|cs| - 1]);
  }

  lemma AskedNext(cs: seq<Choice>, errorEvent: bool, task: Task, s: Stream, c: Choice)
    requires Stands(cs, errorEvent, task) && TaskEnabled(task, s, c)
    ensures Asked(cs + [c], errorEvent)
  {
    hide HasData, Outcome;
    var all := cs + [c];
    assert all[|cs|] == c && forall i :: 0 <= i < |cs| ==> all[i] == cs[i];
  }

  /** A read may deliver as much as was asked for, and 0 only at the end of the input. */
  lemma WhatCanBeRead(total: nat, s: Stream, n: nat)
    ensures TaskEnabled(Echo(total), s, ReadData(n)) <==> 1 <= n <= 4096 && n <= |s.rest|
    ensures TaskEnabled(Probe, s, ReadData(n)) <==> 1 <= n <= 8 && n <= |s.rest|
    ensures TaskEnabled(Echo(total), s, ReadEof) <==> s.rest == ""
    ensures TaskEnabled(Probe, s, ReadEof) <==> s.rest == ""
  {
  }

  // ---- runs

  /** A run without its last event. */
  lemma {:induction false} RunsSnoc(l: Loop, es: seq<Event>)
    requires Runs(l, es) && es != []
    ensures var before, e := es[..|es| - 1], es[|es| - 1];
            Runs(l, before) && Enabled(Exec(l, before), e) && Exec(l, es) == Step(Exec(l, before), e)
    decreases |es|
  {
    hide Step, Enabled;
    if |es| == 1 {
      assert es[..0] == [] && es[1..] == [];
    } else {
      var m, rest := Step(l, es[0]), es[1..];
      RunsSnoc(m, rest);
      assert es[..|es| - 1][1..] == rest[..|rest| - 1] && es[..|es| - 1][0] == es[0];
      assert rest[|rest| - 1] == es[|es| - 1];
    }
  }

  /** The answers that a descriptor's task has got since the last poll, and the error events of that poll. */
  function Answers(es: seq<Event>, fd: Fd): seq<Choice> {
    if es == [] then []
    else
      var before, e := Answers(es[..|es| - 1], fd), es[|es| - 1];
      match e
      case Poll(_, _) => []
      case Work(x, c) => if x == fd then before + [c] else before
      case _ => before
  }

  function Errors(es: seq<Event>): set<Fd> {
    if es == [] then {} else if es[|es| - 1].Poll? then es[|es| - 1].errors else Errors(es[..|es| - 1])
  }

  /** The state of a task is what the answers lead to. */
  ghost predicate Told(l: Loop, es: seq<Event>, fd: Fd, s: Stream)
    requires fd in l.tasks && fd in l.streams
  {
    TaskExec(Begin(fd in Errors(es)), s, Answers(es, fd)) == Some((l.tasks[fd], l.streams[fd]))
  }

  lemma {:induction false} TasksAreTold(l: Loop, originals: map<Fd, string>, es: seq<Event>, fd: Fd) returns (s: Stream)
    requires Initial(l, originals) && Runs(l, es) && fd in Exec(l, es).tasks
    ensures fd in Exec(l, es).streams && Told(Exec(l, es), es, fd, s)
    decreases |es|
  {
    hide Step, Enabled, Told, Runs, Exec, Initial;
    TasksHaveStreams(l, originals, es);
    NothingRun(l, originals);
    RunsSnoc(l, es);
    var before, e := es[..|es| - 1], es[|es| - 1];
    var m := Exec(l, before);
    if e.Poll? {
      s := ToldAtPoll(l, originals, es, fd);
    } else {
      TaskStays(m, e, fd);
      s := TasksAreTold(l, originals, before, fd);
      ToldNext(m, before, e, fd, s);
      assert before + [e] == es;
    }
  }

  lemma NothingRun(l: Loop, originals: map<Fd, string>)
    requires Initial(l, originals)
    ensures Runs(l, []) && Exec(l, []).tasks == map[]
  {
  }

  lemma TasksHaveStreams(l: Loop, originals: map<Fd, string>, es: seq<Event>)
    requires Initial(l, originals) && Runs(l, es)
    ensures InStep(Exec(l, es)) && TasksOk(Exec(l, es)) && Exec(l, es).tasks.Keys <= Exec(l, es).streams.Keys
  {
    hide Exec, Runs, Initial, InStep;
    InitialInvariant(l, originals);
    InvariantRun(l, originals, es);
  }

  lemma ToldAtPoll(l: Loop, originals: map<Fd, string>, es: seq<Event>, fd: Fd) returns (s: Stream)
    requires Initial(l, originals) && Runs(l, es) && fd in Exec(l, es).tasks && es != [] && es[|es| - 1].Poll?
    ensures fd in Exec(l, es).streams && Told(Exec(l, es), es, fd, s)
  {
    hide Runs, Exec, Initial, Launch, InStep, TasksOk, Distinct, TaskExec;
    TasksHaveStreams(l, originals, es);
    RunsSnoc(l, es);
    var before, e := es[..|es| - 1], es[|es| - 1];
    TasksHaveStreams(l, originals, before);
    PollStarts(Exec(l, before), e.ready, e.errors);
    s := Exec(l, es).streams[fd];
    NoChoices(Begin(fd in e.errors), s);
  }

  lemma TaskStays(m: Loop, e: Event, fd: Fd)
    requires Enabled(m, e) && !e.Poll? && fd in Step(m, e).tasks
    ensures fd in m.tasks
  {
  }

  lemma ToldNext(m: Loop, before: seq<Event>, e: Event, fd: Fd, s: Stream)
    requires Enabled(m, e) && !e.Poll? && fd in m.tasks && fd in m.streams && Told(m, before, fd, s)
    requires fd in Step(m, e).tasks
    ensures fd in Step(m, e).streams && Told(Step(m, e), before + [e], fd, s)
  {
    hide TaskExec, TaskEnabled, TaskStep, Answers, Errors, Step, Enabled;
    LogNext(before, e, fd);
    TaskNext(m, e, fd);
    if e.Work? && e.fd == fd {
      TaskMore(Begin(fd in Errors(before)), s, Answers(before, fd), e.c);
    }
  }

  lemma LogNext(before: seq<Event>, e: Event, fd: Fd)
    requires !e.Poll?
    ensures Errors(before + [e]) == Errors(before)
    ensures Answers(before + [e], fd) == if e.Work? &&
            e.fd == fd then Answers(before, fd) + [e.c] else Answers(before, fd)
  {
    var es := before + [e];
    assert es[..|es| - 1] == before && es[|es| - 1] == e;
  }

  lemma TaskNext(m: Loop, e: Event, fd: Fd)
    requires Enabled(m, e) && !e.Poll? && fd in m.tasks && fd in m.streams && fd in Step(m, e).tasks
    ensures fd in Step(m, e).streams
    ensures var next := (Step(m, e).tasks[fd], Step(m, e).streams[fd]);
            if e.Work? && e.fd == fd
            then TaskEnabled(m.tasks[fd], m.streams[fd], e.c) && next == TaskStep(m.tasks[fd], m.streams[fd], e.c)
            else next == (m.tasks[fd], m.streams[fd])
  {
    hide TaskEnabled, TaskStep;
  }

  /** The answers behind every result that a run has collected, in their order. */
  ghost function Collected(l: Loop, es: seq<Event>): seq<seq<Choice>>
    requires Runs(l, es)
    decreases |es|
  {
    if es == [] then []
    else
      RunsSnoc(l, es);
      var before := es[..|es| - 1];
      Collected(l, before) +
      (if es[|es| - 1].Collect? then [Answers(before, Exec(l, before).order[0])] else [])
  }

  /** The input has come to its end, or would block after some data. */
  ghost predicate EndsFine(cs: seq<Choice>) {
    cs != [] && (cs[|cs| - 1] == ReadEof || (cs[|cs| - 1] == ReadAgain && HasData(cs)))
  }

  /**
   * The exit code of every run, by the answers of the system calls: success exactly if each stream whose result has
   * been collected had come to its end, or would have blocked after some data and stays in the loop.
   */
  lemma {:induction false} ExitCode(l: Loop, originals: map<Fd, string>, es: seq<Event>)
    requires Initial(l, originals) && Runs(l, es)
    ensures Exec(l, es).success <==> forall cs :: cs in Collected(l, es) ==> EndsFine(cs)
    decreases |es|
  {
    hide Step, Enabled, Runs, Exec, EndsFine;
    if es == [] {
      SuccessAtFirst(l, originals);
    } else {
      RunsSnoc(l, es);
      var before, e := es[..|es| - 1], es[|es| - 1];
      ExitCode(l, originals, before);
      if e.Collect? {
        CollectedResult(l, originals, before);
        var cs := Answers(before, Exec(l, before).order[0]);
        assert forall x :: x in Collected(l, es) <==> x in Collected(l, before) || x == cs;
      } else {
        SuccessStays(Exec(l, before), e);
      }
    }
  }

  lemma SuccessAtFirst(l: Loop, originals: map<Fd, string>)
    requires Initial(l, originals)
    ensures Runs(l, []) && Exec(l, []).success
  {
  }

  lemma {:induction false} LaunchKeepsSuccess(l: Loop, ready: seq<Fd>, errors: set<Fd>)
    ensures Launch(l, ready, errors).success == l.success
    decreases |ready|
  {
    if ready != [] {
      var fd := ready[0];
      LaunchKeepsSuccess(l, ready[1..], errors);
      LaunchKeepsSuccess(l.(tasks := l.tasks[fd := Begin(fd in errors)], order := l.order + [fd]), ready[1..], errors);
    }
  }

  lemma SuccessStays(l: Loop, e: Event)
    requires Enabled(l, e) && !e.Collect?
    ensures Step(l, e).success == l.success
  {
    if e.Poll? {
      hide Launch;
      LaunchKeepsSuccess(l.(inRound := true, wr := NoOp, tasks := map[], order := [],
                            rounds := l.rounds + (if e.ready == [] then 0 else 1)), e.ready, e.errors);
    }
  }

  /** What collecting one result does to the exit code. */
  lemma CollectedResult(l: Loop, originals: map<Fd, string>, before: seq<Event>)
    requires Initial(l, originals) && Runs(l, before) && Enabled(Exec(l, before), Collect)
    ensures Exec(l, before).order != []
    ensures var m := Exec(l, before);
            Step(m, Collect).success <==> m.success && EndsFine(Answers(before, m.order[0]))
  {
    hide Runs, Exec, Initial, TaskExec, Stands;
    var m := Exec(l, before);
    var fd := m.order[0];
    var s := TasksAreTold(l, originals, before, fd);
    var cs := Answers(before, fd);
    TaskTable(fd in Errors(before), s, cs);
    EndedOutcome(cs, fd in Errors(before), m.tasks[fd]);
  }

  lemma EndedOutcome(cs: seq<Choice>, errorEvent: bool, task: Task)
    requires Stands(cs, errorEvent, task) && task.Ended?
    ensures Outcome(cs, task.wr)
  {
  }
}
