/** The loops and map updates of the poll loop's components, as the source performs them. */
module PollLoopCode {
  import opened Prelude
  import opened PollLoop
  import opened PollResults

  /** A pipe and its output stream, with any outcome that read(2), write(2) and fileno(3) may have. */
  class Descriptor {
    var rest: string
    var delivered: string
    var written: string
    var bytesWritten: nat
    ghost var answers: seq<Choice>   // what the system calls have answered

    function View(): Stream
      reads this
    {
      Stream(rest, delivered, written, bytesWritten)
    }

    method Fileno() returns (ok: bool)
      modifies this`answers
      ensures answers == old(answers) + [Choice.Fileno(ok)]
    {
      ok := *;
      answers := answers + [Choice.Fileno(ok)];
    }

    /** signal_handling::interrupted(); an answer only if it is so. */
    method Interrupted() returns (yes: bool)
      modifies this`answers
      ensures answers == if yes then old(answers) + [Interrupt] else old(answers)
    {
      yes := *;
      if yes {
        answers := answers + [Interrupt];
      }
    }

    /** n > 0 for data, 0 at the end of the input, -1 on an error, which may be EAGAIN. */
    method Read(size: nat) returns (n: int, again: bool, iobuf: string)
      requires size > 0
      modifies this`rest, this`delivered, this`answers
      ensures -1 <= n <= size && n <= |old(rest)|
      ensures n == 0 ==> old(rest) == []
      ensures n > 0 ==> iobuf == old(rest)[..n] && rest == old(rest)[n..] && delivered == old(delivered) + iobuf
      ensures n <= 0 ==> rest == old(rest) && delivered == old(delivered)
      ensures answers == old(answers) + [if n > 0 then ReadData(n) else if n == 0 then ReadEof
                                         else if again then ReadAgain else ReadError]
    {
      n, again, iobuf := -1, false, "";
      if * {
        again := *;
      } else if rest == [] {
        n := 0;
      } else {
        n :| 1 <= n && n <= size && n <= |rest|;
        iobuf := rest[..n];
        rest, delivered := rest[n..], delivered + iobuf;
      }
      answers := answers + [if n > 0 then ReadData(n) else if n == 0 then ReadEof
                            else if again then ReadAgain else ReadError];
    }

    method Write(iobuf: string) returns (nw: int)
      modifies this`written, this`answers
      ensures -1 <= nw <= |iobuf|
      ensures written == old(written) + iobuf[..Max(nw, 0)]
      ensures answers == old(answers) + [Choice.Write(nw)]
    {
      nw :| -1 <= nw <= |iobuf|;
      if nw > 0 {
        written := written + iobuf[..nw];
      }
      answers := answers + [Choice.Write(nw)];
    }

    /** write_output: SUCCESS only if everything read has been written. */
    method WriteOutput(iobuf: string) returns (wr: WriteResult, nw: int)
      modifies this`written, this`bytesWritten, this`answers
      ensures -1 <= nw <= |iobuf| && wr == (if nw == |iobuf| then Success else Failure)
      ensures written == old(written) + iobuf[..Max(nw, 0)] && bytesWritten == old(bytesWritten) + Max(nw, 0)
      ensures answers == old(answers) + [Choice.Write(nw)]
    {
      nw := Write(iobuf);
      if nw > 0 {
        bytesWritten := bytesWritten + nw;
      }
      wr := if nw != |iobuf| then Failure else Success;
    }

    /**
     * The result and the bytes moved are those that the answers of the system calls lead to, and the last answers alone
     * decide about the result.
     */
    method WriteToOutputStream(errorEvent: bool) returns (wr: WriteResult, ghost cs: seq<Choice>)
      modifies this
      ensures answers == old(answers) + cs
      ensures TaskExec(Begin(errorEvent), old(View()), cs) == Some((Ended(wr), View()))
      ensures Outcome(cs, wr) && Asked(cs, errorEvent)
    {
      ghost var s := View();
      wr, cs := Transfer(errorEvent);
      TaskTable(errorEvent, s, cs);
    }

    method Transfer(errorEvent: bool) returns (wr: WriteResult, ghost cs: seq<Choice>)
      modifies this
      ensures answers == old(answers) + cs
      ensures TaskExec(Begin(errorEvent), old(View()), cs) == Some((Ended(wr), View()))
    {
      hide TaskExec;
      ghost var s := View();
      var task := Begin(errorEvent);
      NoChoices(task, s);
      cs := [];
      var ok := Fileno();
      TaskMore(task, s, cs, Choice.Fileno(ok));
      cs := cs + [Choice.Fileno(ok)];
      if !ok {
        return Failure, cs;
      }
      var readTotal := 0;
      if errorEvent {
        var n, again, iobuf := Read(PROBE_SIZE);
        if n > 0 {
          TaskMore(task, s, cs, ReadData(n));
          cs := cs + [ReadData(n)];
          readTotal := readTotal + n;
          var nw;
          wr, nw := WriteOutput(iobuf);
          TaskMore(task, s, cs, Choice.Write(nw));
          cs := cs + [Choice.Write(nw)];
          if wr != Success {
            return wr, cs;
          }
        } else {
          wr := if n == -1 then (if again then PipeConnBroken else Failure) else EndOfFile;
          ghost var c := if n == -1 then (if again then ReadAgain else ReadError) else ReadEof;
          TaskMore(task, s, cs, c);
          cs := cs + [c];
          return wr, cs;
        }
      }
      wr, cs := Echo(readTotal, task, s, cs);
    }

    /** The echo lambda: reads and writes until the input ends, would block or fails, or a signal interrupts. */
    method Echo(readTotal: nat, ghost task: Task, ghost s: Stream, ghost before: seq<Choice>)
        returns (wr: WriteResult, ghost cs: seq<Choice>)
      requires TaskExec(task, s, before) == Some((Task.Echo(readTotal), View()))
      modifies this
      ensures Logged(old(answers), before, answers, cs)
      ensures TaskExec(task, s, cs) == Some((Ended(wr), View()))
    {
      hide TaskExec, TaskStep, TaskEnabled, Logged, Front;
      var total: nat := readTotal;
      cs := before;
      NothingLogged(answers, before);
      FrontOf(answers, Interrupt);
      var interrupted := Interrupted();
      while !interrupted
        invariant TaskExec(task, s, cs) == Some((Task.Echo(total), View()))
        invariant Logged(old(answers), before, if interrupted then Front(answers) else answers, cs)
        invariant interrupted ==> answers == Front(answers) + [Interrupt]
        decreases |rest|, !interrupted
      {
        ghost var log, more := answers, cs;
        wr, total, cs := EchoOnce(total, task, s, cs);
        LoggedMore(old(answers), before, log, more, answers, cs);
        if wr != Success {
          return wr, cs;
        }
        log := answers;
        interrupted := Interrupted();
        FrontOf(log, Interrupt);
      }
      InterruptEnds(task, s, cs, total, View());
      LoggedOne(old(answers), before, Front(answers), cs, Interrupt);
      cs := cs + [Interrupt];
      wr := WriteResult.Interrupted;
    }

    static ghost function Front(log: seq<Choice>): seq<Choice> {
      if log == [] then [] else log[..|log| - 1]
    }

    static lemma FrontOf(log: seq<Choice>, c: Choice)
      ensures Front(log + [c]) == log
    {
    }

    static lemma NothingLogged(start: seq<Choice>, before: seq<Choice>)
      ensures Logged(start, before, start, before)
    {
      assert start + before[|before|..] == start;
    }

    /** What the log has got since start is what the choices have got since before. */
    static ghost predicate Logged(start: seq<Choice>, before: seq<Choice>, log: seq<Choice>, cs: seq<Choice>) {
      before <= cs && log == start + cs[|before|..]
    }

    static lemma LoggedMore(start: seq<Choice>, before: seq<Choice>, log: seq<Choice>, cs: seq<Choice>,
                            log2: seq<Choice>, cs2: seq<Choice>)
      requires Logged(start, before, log, cs) && Logged(log, cs, log2, cs2)
      ensures Logged(start, before, log2, cs2)
    {
      assert cs2[|before|..] == cs[|before|..] + cs2[|cs|..];
    }

    static lemma LoggedOne(start: seq<Choice>, before: seq<Choice>, log: seq<Choice>, cs: seq<Choice>, c: Choice)
      requires Logged(start, before, log, cs)
      ensures Logged(start, before, log + [c], cs + [c])
    {
      assert (cs + [c])[|before|..] == cs[|before|..] + [c];
    }

    static lemma InterruptEnds(task: Task, s: Stream, cs: seq<Choice>, total: nat, u: Stream)
      requires TaskExec(task, s, cs) == Some((Task.Echo(total), u))
      ensures TaskExec(task, s, cs + [Interrupt]) == Some((Ended(WriteResult.Interrupted), u))
    {
      TaskMore(task, s, cs, Interrupt);
    }

    /** One turn of its loop; SUCCESS is to go on. */
    method EchoOnce(readTotal: nat, ghost task: Task, ghost s: Stream, ghost before: seq<Choice>)
        returns (wr: WriteResult, total: nat, ghost cs: seq<Choice>)
      requires TaskExec(task, s, before) == Some((Task.Echo(readTotal), View()))
      modifies this
      ensures Logged(old(answers), before, answers, cs)
      ensures TaskExec(task, s, cs) == Some((if wr == Success then Task.Echo(total) else Ended(wr), View()))
      ensures wr == Success ==> |rest| < old(|rest|)
    {
      hide TaskExec;
      total := readTotal;
      var n, again, iobuf := Read(PIPE_BUF);
      if n <= 0 {
        wr := if n == 0 then EndOfFile else if !again then Failure else if total > 0 then NoOp else PipeConnBroken;
        ghost var c := if n == 0 then ReadEof else if again then ReadAgain else ReadError;
        TaskMore(task, s, before, c);
        cs := before + [c];
        return;
      }
      TaskMore(task, s, before, ReadData(n));
      cs := before + [ReadData(n)];
      var nw;
      wr, nw := WriteOutput(iobuf);
      TaskMore(task, s, cs, Choice.Write(nw));
      cs := cs + [Choice.Write(nw)];
      total := total + n;
    }
  }

  /** The first k members of a group. */
  function FirstMembers(g: ReactIo, k: nat): set<Fd> {
    if k == 0 then {}
    else if k == 1 then {g.stdoutFd} - {-1}
    else if k == 2 then {g.stdoutFd, g.stderrFd} - {-1}
    else Members(g)
  }

  /** fdMap of read_multi_stream and the keys of output_streams_map, with ec and wr of the loop. */
  class Multi {
    var fdMap: FdMap
    var outputs: set<Fd>
    var success: bool
    var wr: WriteResult
    ghost var verdicts: seq<WriteResult>
    ghost var lost: set<Fd>

    /** The fields as they appear in a state of the loop. */
    ghost function In(l: Loop): Loop
      reads this
    {
      l.(fdMap := fdMap, outputs := outputs, success := success, wr := wr, verdicts := verdicts, lost := lost)
    }

    constructor ()
      ensures fdMap == map[] && outputs == {} && success && wr == NoOp && verdicts == [] && lost == {}
    {
      fdMap, outputs, success, wr, verdicts, lost := map[], {}, true, NoOp, [], {};
    }

    /** rms += (stdout, stderr, stdin), and the output stream contexts that go with it. */
    method AddReact(stdoutFd: Fd, stderrFd: Fd, stdinFd: Fd)
      requires {stdoutFd, stderrFd, stdinFd} !! fdMap.Keys && stdoutFd >= 0 && stderrFd >= 0 && stdinFd >= 0
      requires Whole(fdMap) && outputs == fdMap.Keys
      modifies this`fdMap, this`outputs
      ensures Whole(fdMap) && outputs == fdMap.Keys == old(fdMap).Keys + {stdoutFd, stderrFd, stdinFd}
    {
      var item := ReactIo(stdoutFd, stderrFd, stdinFd);
      AddGroupWhole(fdMap, item);
      fdMap := Insert(fdMap, stdoutFd, item);
      fdMap := Insert(fdMap, stderrFd, item);
      fdMap := Insert(fdMap, stdinFd, item);
      outputs := outputs + {stdoutFd};
      outputs := outputs + {stderrFd};
      outputs := outputs + {stdinFd};
    }

    /** rms += fd: a response stream alone. */
    method AddResponse(fd: Fd)
      requires fd !in fdMap && fd >= 0 && Whole(fdMap) && outputs == fdMap.Keys
      modifies this`fdMap, this`outputs
      ensures Whole(fdMap) && outputs == fdMap.Keys == old(fdMap).Keys + {fd}
    {
      AddGroupWhole(fdMap, ReactIo(fd, -1, -1));
      fdMap := Insert(fdMap, fd, ReactIo(fd, -1, -1));
      outputs := outputs + {fd};
    }

    /** The loop over the polled descriptors. */
    method LaunchTasks(ready: seq<Fd>, errors: set<Fd>, ghost l: Loop) returns (tasks: map<Fd, Task>, futures: seq<Fd>)
      modifies this`fdMap, this`outputs
      ensures Launch(old(In(l)).(tasks := map[], order := []), ready, errors) ==
              In(l).(tasks := tasks, order := futures)
    {
      tasks, futures := map[], [];
      var k := 0;
      while k < |ready|
        invariant 0 <= k <= |ready|
        invariant Launch(old(In(l)).(tasks := map[], order := []), ready, errors) ==
                  Launch(In(l).(tasks := tasks, order := futures), ready[k..], errors)
      {
        var fd := ready[k];
        assert ready[k..][1..] == ready[k + 1..];
        k := k + 1;
        if !LookedUp(fdMap, fd) {
          continue;
        }
        if fd >= 0 {
          if fd !in outputs {
            continue;
          }
          tasks := tasks[fd := Begin(fd in errors)];
          futures := futures + [fd];
        } else {
          fdMap := fdMap - {fd};
          outputs := outputs - {fd};
          return;
        }
      }
    }

    /** Removes the keys of a group, skipping the descriptors it lacks. */
    method RemoveGroup(g: ReactIo)
      modifies this`fdMap, this`outputs
      ensures fdMap == old(fdMap) - Members(g) && outputs == old(outputs) - Members(g)
    {
      var fds := [g.stdoutFd, g.stderrFd, g.stdinFd];
      var k := 0;
      while k < 3
        invariant 0 <= k <= 3
        invariant fdMap == old(fdMap) - FirstMembers(g, k)
        invariant outputs == old(outputs) - FirstMembers(g, k)
      {
        if fds[k] != -1 {
          fdMap := fdMap - {fds[k]};
          outputs := outputs - {fds[k]};
        }
        k := k + 1;
      }
    }

    /** What the loop over the futures does with one result. */
    method SettleResult(fd: Fd, wr2: WriteResult, ghost l: Loop)
      modifies this
      ensures In(l) == Settle(old(In(l)), fd, wr2)
    {
      if wr2 == NoOp || wr2 == Success {
        return;
      }
      hide Members;
      if fd in fdMap {
        RemoveGroup(fdMap[fd]);
      } else {
        assert fdMap - {} == fdMap && outputs - {} == outputs;
      }
      if wr == NoOp {
        wr := wr2;
      }
      if wr2 != EndOfFile {
        success := false;
      }
      verdicts := verdicts + [wr2];
      if wr2 == Failure {
        lost := lost + {fd};
      }
    }
  }
}
