/** What the callback trace of every walk looks like, read off the trace and the visitor's answers alone. */
module WalkTrace {
  import opened Prelude
  import opened FileWalk
  import opened WalkReference

  /**
   * The directories open after a trace, innermost last: a PRE answered CONTINUE opens one, a POST closes the innermost,
   * and every other event is about an entry of the innermost one, at the depth of the number of open directories. None
   * if not.
   */
  function Open(w: World, start: string, t: seq<Event>): Option<seq<string>>
    decreases |t|
  {
    if t == [] then None
    else if |t| == 1 then Some([start])
    else
      match Open(w, start, t[..|t| - 1])
      case None => None
      case Some(dirs) => Opened(w, dirs, t)
  }

  function Opened(w: World, dirs: seq<string>, t: seq<Event>): Option<seq<string>>
    requires t != []
  {
    var e := t[|t| - 1];
    if dirs == [] then None
    else
      var top := dirs[|dirs| - 1];
      if e.kind == PostVisit then
        if |dirs| > 1 && e.path == top && e.depth == |dirs| - 1 then Some(dirs[..|dirs| - 1]) else None
      else if e.path != Join(w, top, e.name) || e.depth != |dirs| then None
      else if e.kind == PreVisit && w.visitor(t) == Continue then Some(dirs + [e.path])
      else Some(dirs)
  }

  function Dirs(stack: seq<Frame>): seq<string> {
    seq(|stack|, i requires 0 <= i < |stack| => stack[i].dir)
  }

  /** The answer to the callback number k was TERMINATE; the start directory's answer is not asked for. */
  predicate TerminatedAt(w: World, t: seq<Event>, k: nat) {
    1 <= k < |t| && w.visitor(t[..k + 1]) == Terminate
  }

  predicate SkippedAt(w: World, t: seq<Event>, k: nat) {
    1 <= k < |t| && t[k].kind != PostVisit && w.visitor(t[..k + 1]) == SkipSiblings
  }

  /** Behind a TERMINATE there are only POSTs, and right behind a SKIP_SIBLINGS the POST of that directory. */
  ghost predicate Obedient(w: World, t: seq<Event>) {
    && (forall k: nat, j: nat :: TerminatedAt(w, t, k) && k < j < |t| ==> t[j].kind == PostVisit)
    && (forall k: nat :: SkippedAt(w, t, k) && k + 1 < |t| ==> t[k + 1].kind == PostVisit)
  }

  /** How the machine's state and the trace hang together while it runs. */
  ghost predicate Tracked(w: World, start: string, m: Machine) {
    && m.stack != [] && m.stack[0].dir == start && m.trace != [] && m.result.Done?
    && (forall i :: 0 <= i < |m.stack| ==> m.stack[i].depth == i + 1)
    && Open(w, start, m.trace) == Some(Dirs(m.stack))
    && Obedient(w, m.trace)
    && (m.result.stop <==> exists k: nat :: TerminatedAt(w, m.trace, k))
    && (m.result.stop ==> forall i :: 0 <= i < |m.stack| ==> m.stack[i].rest == [])
    && (SkippedAt(w, m.trace, |m.trace| - 1) ==> m.stack[|m.stack| - 1].rest == [])
  }

  /** What is promised of a finished walk. */
  ghost predicate Finished(w: World, start: string, t: seq<Event>, r: Result) {
    && Obedient(w, t)
    && Open(w, start, t).Some?
    && (r.Done? ==> Open(w, start, t) == Some([start]))
    && (r == Done(true) <==> exists k: nat :: TerminatedAt(w, t, k))
  }

  lemma Longer(w: World, t: seq<Event>, e: Event)
    requires t != []
    ensures forall k: nat :: k < |t| ==> (TerminatedAt(w, t + [e], k) <==> TerminatedAt(w, t, k))
    ensures forall k: nat :: k < |t| ==> (SkippedAt(w, t + [e], k) <==> SkippedAt(w, t, k))
    ensures TerminatedAt(w, t + [e], |t|) <==> w.visitor(t + [e]) == Terminate
    ensures SkippedAt(w, t + [e], |t|) <==> e.kind != PostVisit && w.visitor(t + [e]) == SkipSiblings
  {
    var u := t + [e];
    assert u[..|t| + 1] == u;
    forall k: nat | k < |t|
      ensures TerminatedAt(w, u, k) == TerminatedAt(w, t, k) && SkippedAt(w, u, k) == SkippedAt(w, t, k)
    {
      assert u[..k + 1] == t[..k + 1] && u[k] == t[k];
    }
  }

  lemma OpenLonger(w: World, start: string, t: seq<Event>, e: Event)
    requires t != []
    ensures Open(w, start, t + [e]) == (match Open(w, start, t) case None => None
            case Some(dirs) => Opened(w, dirs, t + [e]))
  {
    assert (t + [e])[..|t + [e]| - 1] == t;
  }

  lemma ObedientLonger(w: World, t: seq<Event>, e: Event)
    requires t != [] && Obedient(w, t)
    requires forall k: nat :: TerminatedAt(w, t, k) ==> e.kind == PostVisit
    requires SkippedAt(w, t, |t| - 1) ==> e.kind == PostVisit
    ensures Obedient(w, t + [e])
  {
    Longer(w, t, e);
    var u := t + [e];
    assert u[|t|] == e && forall k: nat :: k < |t| ==> u[k] == t[k];
  }

  /** The effect of one reported event on what is tracked. */
  lemma TrackedEvent(w: World, start: string, m: Machine, e: Event, stack: seq<Frame>, stop: bool)
    requires Tracked(w, start, m)
    requires (m.result.stop || SkippedAt(w, m.trace, |m.trace| - 1)) ==> e.kind == PostVisit
    requires stack != [] && stack[0].dir == start && forall i :: 0 <= i < |stack| ==> stack[i].depth == i + 1
    requires Opened(w, Dirs(m.stack), m.trace + [e]) == Some(Dirs(stack))
    requires stop <==> m.result.stop || w.visitor(m.trace + [e]) == Terminate
    requires stop ==> forall i :: 0 <= i < |stack| ==> stack[i].rest == []
    requires e.kind != PostVisit && w.visitor(m.trace + [e]) == SkipSiblings ==> stack[|stack| - 1].rest == []
    ensures Tracked(w, start, Machine(stack, m.trace + [e], Done(stop)))
  {
    hide Opened, Dirs, Obedient, TerminatedAt, SkippedAt;
    OpenLonger(w, start, m.trace, e);
    ObedientLonger(w, m.trace, e);
    Longer(w, m.trace, e);
    StopLonger(w, m.trace, e, m.result.stop);
  }

  lemma StopLonger(w: World, t: seq<Event>, e: Event, stop: bool)
    requires t != [] && (stop <==> exists k: nat :: TerminatedAt(w, t, k))
    ensures (stop || w.visitor(t + [e]) == Terminate) <==> exists k: nat :: TerminatedAt(w, t + [e], k)
  {
    Longer(w, t, e);
    if stop {
      var k: nat :| TerminatedAt(w, t, k);
      assert TerminatedAt(w, t + [e], k);
    }
    if w.visitor(t + [e]) == Terminate {
      assert TerminatedAt(w, t + [e], |t|);
    }
  }

  lemma DrainedDirs(below: seq<Frame>, top: Frame, f: Frame)
    requires f.dir == top.dir
    ensures Dirs(Drained(below)) == Dirs(below) && Dirs(below + [f]) == Dirs(below) + [top.dir]
    ensures Dirs(Drained(below + [f])) == Dirs(below + [top])
  {
    assert Dirs(below + [f]) == Dirs(below) + [top.dir];
  }

  lemma SplitStack(m: Machine) returns (below: seq<Frame>, top: Frame)
    requires m.stack != []
    ensures below == m.stack[..|m.stack| - 1] && top == m.stack[|m.stack| - 1] && m.stack == below + [top]
    ensures Dirs(m.stack) == Dirs(below) + [top.dir]
  {
    below, top := m.stack[..|m.stack| - 1], m.stack[|m.stack| - 1];
  }

  lemma CloseTracked(w: World, start: string, m: Machine, below: seq<Frame>, top: Frame)
    requires Tracked(w, start, m) && m.stack == below + [top] && below != []
    ensures top.depth > 0 && Tracked(w, start, Close(w, below, top, m))
  {
    DrainedDirs(below, top, top);
    assert m.stack[|below|] == top;
    assert forall i :: 0 <= i < |below| ==> m.stack[i] == below[i];
    var e := PostOf(top);
    assert Dirs(m.stack)[..|m.stack| - 1] == Dirs(below);
    var stop := m.result.stop || w.visitor(m.trace + [e]) == Terminate;
    TrackedEvent(w, start, m, e, if w.visitor(m.trace + [e]) == Terminate then Drained(below) else below, stop);
  }

  lemma ReportTracked(w: World, start: string, m: Machine, below: seq<Frame>, top: Frame, after: Frame, e: Event)
    requires Tracked(w, start, m) && m.stack == below + [top] && top.rest != [] && after == top.(rest := top.rest[1..])
    requires e.kind == VisitFile || e.kind == VisitFailed
    requires e.path == Join(w, top.dir, e.name) && e.depth == top.depth
    ensures Tracked(w, start, Report(w, below, after, m, e))
  {
    DrainedDirs(below, top, top);
    DrainedDirs(below, top, after);
    DrainedDirs(below, top, Emptied(after));
    assert m.stack[|below|] == top;
    assert forall i :: 0 <= i < |below| ==> m.stack[i] == below[i];
    var s := Report(w, below, after, m, e);
    TrackedEvent(w, start, m, e, s.stack, s.result.stop);
  }

  lemma EnterTracked(w: World, start: string, m: Machine, below: seq<Frame>, top: Frame, after: Frame, path: string,
      name: string)
    requires Tracked(w, start, m) && m.stack == below + [top] && top.rest != [] && after == top.(rest := top.rest[1..])
    requires path == Join(w, top.dir, name)
    ensures var s := Enter(w, below, after, m, path, name);
            if s.stack != [] then Tracked(w, start, s) else Finished(w, start, s.trace, s.result)
  {
    var e := Event(path, name, top.depth, DtDir, PreVisit);
    if w.visitor(m.trace + [e]) == Continue {
      hide Tracked, Finished;
      match w.list(path)
      case None => OpenThrows(w, start, m, below, top, e);
      case Some(entries) => OpenTracked(w, start, m, below, top, after, e, entries);
    } else {
      DrainedDirs(below, top, top);
      DrainedDirs(below, top, after);
      DrainedDirs(below, top, Emptied(after));
      assert m.stack[|below|] == top;
      assert forall i :: 0 <= i < |below| ==> m.stack[i] == below[i];
      var s := Enter(w, below, after, m, path, name);
      TrackedEvent(w, start, m, e, s.stack, s.result.stop);
    }
  }

  /** A directory that the visitor wants opened and that does not open. */
  lemma OpenThrows(w: World, start: string, m: Machine, below: seq<Frame>, top: Frame, e: Event)
    requires Tracked(w, start, m) && m.stack == below + [top] && top.rest != []
    requires e == Event(Join(w, top.dir, e.name), e.name, top.depth, DtDir, PreVisit) &&
             w.visitor(m.trace + [e]) == Continue
    ensures Finished(w, start, m.trace + [e], Thrown)
  {
    hide Obedient, Open, TerminatedAt, SkippedAt;
    DrainedDirs(below, top, top);
    assert m.stack[|below|] == top;
    OpenLonger(w, start, m.trace, e);
    ObedientLonger(w, m.trace, e);
    StopLonger(w, m.trace, e, false);
  }

  /** The same for one that opens. */
  lemma OpenTracked(w: World, start: string, m: Machine, below: seq<Frame>, top: Frame, after: Frame, e: Event,
      entries: seq<Entry>)
    requires Tracked(w, start, m) && m.stack == below + [top] && top.rest != [] && after == top.(rest := top.rest[1..])
    requires e == Event(Join(w, top.dir, e.name), e.name, top.depth, DtDir, PreVisit) &&
             w.visitor(m.trace + [e]) == Continue
    ensures var f := Frame(e.path, e.name, top.depth + 1, entries);
            Tracked(w, start, m.(stack := below + [after, f], trace := m.trace + [e]))
  {
    hide Obedient, Open, TerminatedAt, SkippedAt;
    var f := Frame(e.path, e.name, top.depth + 1, entries);
    DrainedDirs(below, top, top);
    DrainedDirs(below, top, after);
    assert m.stack[|below|] == top;
    assert forall i :: 0 <= i < |below| ==> m.stack[i] == below[i];
    assert below + [after, f] == below + [after] + [f];
    DrainedDirs(below + [after], f, f);
    TrackedEvent(w, start, m, e, below + [after, f], false);
  }

  lemma SilentTracked(w: World, start: string, m: Machine, below: seq<Frame>, top: Frame, after: Frame)
    requires Tracked(w, start, m) && m.stack == below + [top] && top.rest != [] && after == top.(rest := top.rest[1..])
    ensures Tracked(w, start, m.(stack := below + [after]))
  {
    DrainedDirs(below, top, top);
    DrainedDirs(below, top, after);
    assert m.stack[|below|] == top;
    assert forall i :: 0 <= i < |below| ==> m.stack[i] == below[i];
  }

  lemma TrackedStep(w: World, start: string, m: Machine)
    requires Tracked(w, start, m)
    ensures WellFormed(m)
    ensures var s := Step(w, m); if s.stack != [] then Tracked(w, start, s) else Finished(w, start, s.trace, s.result)
  {
    hide Tracked, Report, Enter, Close;
    TrackedWellFormed(w, start, m);
    var below, top := SplitStack(m);
    if top.rest == [] {
      if below == [] {
        StartFinished(w, start, m);
      } else {
        CloseTracked(w, start, m, below, top);
      }
    } else {
      var e := top.rest[0];
      var after := top.(rest := top.rest[1..]);
      var path := Join(w, top.dir, e.name);
      SilentTracked(w, start, m, below, top, after);
      ReportTracked(w, start, m, below, top, after, Event(path, e.name, top.depth, e.dtype, VisitFailed));
      ReportTracked(w, start, m, below, top, after,
                    Event(path, e.name, top.depth, match Classify(w, e, path) case File(d) => d
                      case _ => DtReg, VisitFile));
      EnterTracked(w, start, m, below, top, after, path, e.name);
      ThrownFinished(w, start, m);
    }
  }

  lemma TrackedWellFormed(w: World, start: string, m: Machine)
    requires Tracked(w, start, m)
    ensures WellFormed(m) && m.stack != [] && m.result.Done?
    ensures m.stack[|m.stack| - 1].rest != [] ==> !m.result.stop
  {
  }

  lemma ThrownFinished(w: World, start: string, m: Machine)
    requires Tracked(w, start, m) && !m.result.stop
    ensures Finished(w, start, m.trace, Thrown)
  {
  }

  lemma StartFinished(w: World, start: string, m: Machine)
    requires Tracked(w, start, m) && |m.stack| == 1
    ensures Close(w, [], m.stack[0], m) == m.(stack := []) && Finished(w, start, m.trace, m.result)
  {
    assert Dirs(m.stack) == [start];
  }

  lemma {:induction false} TrackedIter(w: World, start: string, m: Machine, n: nat)
    requires Tracked(w, start, m)
    ensures WellFormed(m)
    ensures var s := Iter(w, m, n); if s.stack != [] then Tracked(w, start, s)
            else Finished(w, start, s.trace, s.result)
    decreases n
  {
    hide Tracked, Finished, Step;
    TrackedWellFormed(w, start, m);
    if n > 0 {
      TrackedStep(w, start, m);
      var s := Step(w, m);
      if s.stack != [] {
        TrackedIter(w, start, s, n - 1);
      }
    }
  }

  lemma TrackedStart(w: World, start: string, base: string)
    ensures var m := Start(w, start, base);
            if m.stack != [] then Tracked(w, start, m) else Finished(w, start, m.trace, m.result)
  {
    var m := Start(w, start, base);
    assert m.stack != [] ==> Dirs(m.stack) == [start];
    assert forall k: nat :: !TerminatedAt(w, m.trace, k);
  }

  /**
   * Every walk: PRE and POST nest, each event is about an entry of the innermost open directory, a walk that returns
   * has closed all it opened, SKIP_SIBLINGS and TERMINATE are obeyed, and the result is true exactly after a TERMINATE.
   */
  lemma WalkIsLawful(w: World, start: string, base: string)
    ensures var (t, r) := Walk(w, 1, start, [StartEvent(start, base)]); Finished(w, start, t, r)
  {
    hide Tracked, Finished, Walk, Start;
    var n := WalkIsReference(w, start, base);
    TrackedStart(w, start, base);
    if Start(w, start, base).stack != [] {
      TrackedIter(w, start, Start(w, start, base), n);
    }
  }

  /** A trace that goes on with POSTs only closes the open directories from the innermost outwards. */
  lemma {:induction false} PostsUnwind(w: World, start: string, t: seq<Event>, k: nat)
    requires 1 <= k <= |t| && Open(w, start, t) == Some([start])
    requires forall j :: k <= j < |t| ==> t[j].kind == PostVisit
    ensures Open(w, start, t[..k]).Some?
    ensures var dirs := Open(w, start, t[..k]).value;
            |dirs| == 1 + |t| - k && forall j :: k <= j < |t| ==> t[j].path == dirs[|dirs| - 1 - (j - k)]
    decreases |t| - k
  {
    hide Open;
    if k == |t| {
      assert t[..k] == t;
    } else {
      PostsUnwind(w, start, t, k + 1);
      PostCloses(w, start, t, k);
    }
  }

  lemma PostCloses(w: World, start: string, t: seq<Event>, k: nat)
    requires 1 <= k < |t| && t[k].kind == PostVisit && Open(w, start, t[..k + 1]).Some?
    ensures Open(w, start, t[..k]).Some?
    ensures var dirs := Open(w, start, t[..k]).value;
            |dirs| > 1 && Open(w, start, t[..k + 1]).value == dirs[..|dirs| - 1] && t[k].path == dirs[|dirs| - 1]
  {
    assert t[..k + 1][..k] == t[..k] && t[..k + 1][k] == t[k];
  }

  /** After a TERMINATE exactly the POSTs of the open directories follow, innermost first, and the walk returns true. */
  lemma TerminateUnwinds(w: World, start: string, base: string, k: nat)
    requires var (t, r) := Walk(w, 1, start, [StartEvent(start, base)]); TerminatedAt(w, t, k)
    ensures var (t, r) := Walk(w, 1, start, [StartEvent(start, base)]);
            && r == Done(true)
            && Open(w, start, t[..k + 1]).Some?
            && var dirs := Open(w, start, t[..k + 1]).value;
               && |t| == k + |dirs|
               && forall j :: k < j < |t| ==> t[j].kind == PostVisit && t[j].path == dirs[|dirs| - (j - k)]
  {
    hide Walk;
    WalkIsLawful(w, start, base);
    var (t, r) := Walk(w, 1, start, [StartEvent(start, base)]);
    PostsUnwind(w, start, t, k + 1);
  }

  // ---- termination

  /** Each event's path is longer than the one of the directory it is in, and shorter than the buffer. */
  ghost predicate Fits(depth: nat, dir: string, t: seq<Event>, from: nat) {
    forall k :: from <= k < |t| ==> t[k].depth >= depth && |dir| + (t[k].depth - depth) < |t[k].path| < PATH_MAX
  }

  lemma {:induction false} EntriesFit(w: World, depth: nat, dir: string, entries: seq<Entry>, t: seq<Event>, from: nat)
    requires from <= |t| && Fits(depth, dir, t, from)
    ensures var (t1, r) := Entries(w, depth, dir, entries, t); Fits(depth, dir, t1, from) && t <= t1
    decreases Room(dir), |entries|, 0
  {
    hide Fits;
    if entries != [] {
      var e, rest := entries[0], entries[1..];
      var path := Join(w, dir, e.name);
      EntriesFit(w, depth, dir, rest, t, from);
      if !IsDots(e) && |path| < PATH_MAX {
        if Classify(w, e, path).Directory? {
          DirectoryFits(w, depth, dir, rest, t, from, path, e.name);
        } else {
          var ev := match Classify(w, e, path)
            case File(dtype) => Event(path, e.name, depth, dtype, VisitFile)
            case _ => Event(path, e.name, depth, e.dtype, VisitFailed);
          FitsLonger(depth, dir, t, from, ev);
          EntriesFit(w, depth, dir, rest, t + [ev], from);
        }
      }
    }
  }

  lemma FitsLonger(depth: nat, dir: string, t: seq<Event>, from: nat, e: Event)
    requires from <= |t| && Fits(depth, dir, t, from) && e.depth == depth && |dir| < |e.path| < PATH_MAX
    ensures Fits(depth, dir, t + [e], from)
  {
  }

  lemma {:induction false} DirectoryFits(w: World, depth: nat, dir: string, rest: seq<Entry>, t: seq<Event>, from: nat,
      path: string, name: string)
    requires from <= |t| && Fits(depth, dir, t, from) && |dir| < |path| < PATH_MAX
    ensures var t0 := t + [Event(path, name, depth, DtDir, PreVisit)];
            var (t1, r) := Walk(w, depth + 1, path, t0);
            var t2 := t1 + [Event(path, name, depth, DtDir, PostVisit)];
            && Fits(depth, dir, t0, from) && Fits(depth, dir, t1, from) && Fits(depth, dir, t2, from)
            && t <= t0 && t <= t1 && t <= t2
            && Fits(depth, dir, Entries(w, depth, dir, rest, t0).0, from) && t <= Entries(w, depth, dir, rest, t0).0
            && Fits(depth, dir, Entries(w, depth, dir, rest, t2).0, from) && t <= Entries(w, depth, dir, rest, t2).0
    decreases Room(dir), |rest|, 1
  {
    var t0 := t + [Event(path, name, depth, DtDir, PreVisit)];
    if w.list(path).Some? {
      EntriesFit(w, depth + 1, path, w.list(path).value, t0, |t0|);
    }
    var t1 := Walk(w, depth + 1, path, t0).0;
    assert forall k :: 0 <= k < |t0| ==> t1[k] == t0[k];
    assert Fits(depth, dir, t1, from);
    EntriesFit(w, depth, dir, rest, t0, from);
    EntriesFit(w, depth, dir, rest, t1 + [Event(path, name, depth, DtDir, PostVisit)], from);
  }

  /** Whatever cycles the links make, no callback is deeper than the path buffer is long. */
  lemma DepthIsBounded(w: World, start: string, base: string, k: nat)
    requires var (t, r) := Walk(w, 1, start, [StartEvent(start, base)]); 1 <= k < |t|
    ensures var (t, r) := Walk(w, 1, start, [StartEvent(start, base)]); |start| + t[k].depth <= |t[k].path| < 2048
  {
    if w.list(start).Some? {
      EntriesFit(w, 1, start, w.list(start).value, [StartEvent(start, base)], 1);
    }
  }

  // ---- maxdepth

  /** The entries of the start directory are reported always, deeper ones below maxdepth only. */
  predicate AllowedDepth(w: World, e: Event) {
    && e.depth <= Max(1, w.maxdepth)
    && (e.kind == PreVisit || e.kind == PostVisit ==> e.depth < w.maxdepth)
  }

  ghost predicate ShallowStack(w: World, stack: seq<Frame>) {
    && (forall i :: 0 <= i < |stack| ==> 0 < stack[i].depth <= Max(1, w.maxdepth))
    && (forall i :: 1 <= i < |stack| ==> stack[i].depth <= w.maxdepth)
  }

  ghost predicate Shallow(w: World, m: Machine) {
    m.trace != [] && (forall k :: 1 <= k < |m.trace| ==> AllowedDepth(w, m.trace[k])) && ShallowStack(w, m.stack)
  }

  lemma ShallowFrames(w: World, below: seq<Frame>, top: Frame, after: Frame)
    requires ShallowStack(w, below + [top]) && after.depth == top.depth
    ensures 0 < top.depth <= Max(1, w.maxdepth) && (below != [] ==> top.depth <= w.maxdepth)
    ensures ShallowStack(w, below) && ShallowStack(w, Drained(below))
    ensures ShallowStack(w, below + [after]) && ShallowStack(w, Drained(below + [after]))
    ensures forall f: Frame :: 0 < f.depth <= w.maxdepth ==> ShallowStack(w, below + [after, f])
  {
    var all := below + [top];
    assert all[|below|] == top && forall i :: 0 <= i < |below| ==> all[i] == below[i];
  }

  lemma ShallowStep(w: World, m: Machine)
    requires m.stack != [] && Shallow(w, m)
    ensures WellFormed(m) && Shallow(w, Step(w, m))
  {
    hide Shallow, Step, ShallowStack;
    ShallowWellFormed(w, m);
    var below, top := m.stack[..|m.stack| - 1], m.stack[|m.stack| - 1];
    assert m.stack == below + [top];
    if top.rest == [] {
      ShallowClose(w, m, below, top);
    } else {
      var after := top.(rest := top.rest[1..]);
      ShallowFrames(w, below, top, after);
      ShallowFrames(w, below, top, Emptied(after));
      ShallowEntry(w, m, below, top, after);
    }
  }

  lemma ShallowWellFormed(w: World, m: Machine)
    requires Shallow(w, m)
    ensures WellFormed(m) && m.trace != [] && ShallowStack(w, m.stack)
    ensures forall k :: 1 <= k < |m.trace| ==> AllowedDepth(w, m.trace[k])
  {
  }

  lemma ShallowClose(w: World, m: Machine, below: seq<Frame>, top: Frame)
    requires Shallow(w, m) && m.stack == below + [top] && top.rest == [] && WellFormed(m)
    ensures Shallow(w, Step(w, m))
  {
    hide Drained, AllowedDepth, ShallowStack;
    ShallowFrames(w, below, top, top);
    assert m.stack[..|m.stack| - 1] == below && m.stack[|m.stack| - 1] == top;
    if below == [] {
      NoFrames(w);
    }
    AllowedAt(w, PostOf(top), top.depth);
  }

  lemma AllowedAt(w: World, e: Event, depth: nat)
    requires e.depth < depth <= Max(1, w.maxdepth)
    ensures e.depth < w.maxdepth ==> AllowedDepth(w, e)
  {
  }

  lemma ShallowEntry(w: World, m: Machine, below: seq<Frame>, top: Frame, after: Frame)
    requires m.trace != [] && (forall k :: 1 <= k < |m.trace| ==> AllowedDepth(w, m.trace[k]))
    requires m.stack == below + [top] && top.rest != [] && after == top.(rest := top.rest[1..])
    requires 0 < top.depth <= Max(1, w.maxdepth)
    requires ShallowStack(w, below + [after]) && ShallowStack(w, Drained(below + [after]))
    requires ShallowStack(w, below + [Emptied(after)])
    requires forall f: Frame :: 0 < f.depth <= w.maxdepth ==> ShallowStack(w, below + [after, f])
    requires WellFormed(m)
    ensures Shallow(w, Step(w, m))
  {
    hide Classify, Join, IsDots, Drained, ShallowStack;
    assert ShallowStack(w, []) by {
      NoFrames(w);
    }
    assert m.stack[..|m.stack| - 1] == below && m.stack[|m.stack| - 1] == top;
  }

  lemma NoFrames(w: World)
    ensures ShallowStack(w, [])
  {
  }

  lemma {:induction false} ShallowIter(w: World, m: Machine, n: nat)
    requires Shallow(w, m)
    ensures WellFormed(m) && Shallow(w, Iter(w, m, n))
    decreases n
  {
    hide Step;
    if n > 0 && m.stack != [] {
      ShallowStep(w, m);
      ShallowIter(w, Step(w, m), n - 1);
    }
  }

  /** Whatever is behind the start is no deeper than maxdepth or 1, and a directory reported is above maxdepth. */
  lemma DepthIsAllowed(w: World, start: string, base: string, k: nat)
    requires var (t, r) := Walk(w, 1, start, [StartEvent(start, base)]); 1 <= k < |t|
    ensures var (t, r) := Walk(w, 1, start, [StartEvent(start, base)]); AllowedDepth(w, t[k])
  {
    hide Walk, AllowedDepth;
    var n := WalkIsReference(w, start, base);
    ShallowIter(w, Start(w, start, base), n);
  }
}
