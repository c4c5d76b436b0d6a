/**
 * The walk read off its trace once more, with everything that decides about an entry written out: what readdir and stat
 * say, how a path is formed, and which entries are passed over. The trace is checked event by event against what is
 * due.
 */
module WalkDues {
  import opened Prelude
  import opened FileWalk
  import opened WalkReference
  import opened WalkTrace

  /** The directory, one separator unless it ends in one, and the name. */
  function PathOf(w: World, dir: string, name: string): string {
    if dir != "" && (dir[|dir| - 1] == '/' || dir[|dir| - 1] == w.separator) then dir + name
    else dir + [w.separator] + name
  }

  /** readdir does not know the type, or it is a link to follow. */
  predicate Asked(w: World, e: Entry) {
    e.dtype == DtUnknown || (e.dtype == DtLnk && w.followLinks)
  }

  predicate MadeDirectory(w: World, e: Entry, path: string) {
    if Asked(w, e) then w.stat(path) == StatDir else e.dtype == DtDir
  }

  predicate MadeFile(w: World, e: Entry, path: string) {
    if Asked(w, e) then w.stat(path) == StatReg else e.dtype != DtDir
  }

  predicate MadeFailure(w: World, e: Entry, path: string) {
    Asked(w, e) && w.stat(path) == StatFailed
  }

  /** What has to happen next in a directory: an event, or the exception. */
  datatype Due = Awaited(event: Event) | Fault

  /** What is due for one entry, at most one thing. */
  function DueOf(w: World, depth: nat, dir: string, e: Entry): (r: seq<Due>)
    ensures |r| <= 1
  {
    var path := PathOf(w, dir, e.name);
    if e.name == "." || e.name == ".." then []
    else if |path| >= 2048 then [Fault]
    else if MadeFailure(w, e, path) then [Awaited(Event(path, e.name, depth, e.dtype, VisitFailed))]
    else if MadeFile(w, e, path) then
      [Awaited(Event(path, e.name, depth, if Asked(w, e) then DtReg else e.dtype, VisitFile))]
    else if MadeDirectory(w, e, path) && depth < w.maxdepth then
      [Awaited(Event(path, e.name, depth, DtDir, PreVisit))]
    else []
  }

  function DuesOf(w: World, depth: nat, dir: string, entries: seq<Entry>): seq<Due> {
    if entries == [] then [] else DueOf(w, depth, dir, entries[0]) + DuesOf(w, depth, dir, entries[1..])
  }

  /** What is due when a directory is opened; one that does not open is due an exception. */
  function AtOpening(w: World, depth: nat, dir: string): seq<Due> {
    match w.list(dir)
    case None => [Fault]
    case Some(entries) => DuesOf(w, depth, dir, entries)
  }

  datatype OpenDir = OpenDir(path: string, name: string, depth: nat, dues: seq<Due>)

  function Nothing(d: OpenDir): OpenDir {
    d.(dues := [])
  }

  function NothingAtAll(stack: seq<OpenDir>): seq<OpenDir> {
    seq(|stack|, i requires 0 <= i < |stack| => Nothing(stack[i]))
  }

  /**
   * The directories open after a trace, with what is still due in each; None if some event was not the one that was
   * due. An event is due in the innermost directory; when nothing is due there any more, its POST is, unless it is the
   * start.
   */
  function Owed(w: World, start: string, base: string, t: seq<Event>): Option<seq<OpenDir>>
    decreases |t|
  {
    if t == [] then None
    else if |t| == 1 then
      if t[0] == Event(start, base, 0, DtDir, PreVisit) then Some([OpenDir(start, base, 1, AtOpening(w, 1, start))])
        else None
    else
      match Owed(w, start, base, t[..|t| - 1])
      case None => None
      case Some(stack) => OwedNext(w, stack, t)
  }

  function OwedNext(w: World, stack: seq<OpenDir>, t: seq<Event>): Option<seq<OpenDir>>
    requires t != []
  {
    var e, answer := t[|t| - 1], w.visitor(t);
    if stack == [] then None
    else
      var below, top := stack[..|stack| - 1], stack[|stack| - 1];
      if top.dues == [] then
        if below == [] || top.depth == 0 || e != Event(top.path, top.name, top.depth - 1, DtDir, PostVisit) then None
        else if answer == Terminate then Some(NothingAtAll(below))
        else Some(below)
      else if top.dues[0] != Awaited(e) then None
      else
        var after := top.(dues := top.dues[1..]);
        if answer == Terminate then Some(NothingAtAll(below + [after]))
        else if answer == SkipSiblings then Some(below + [Nothing(after)])
        else if answer == Continue && e.kind == PreVisit then
          Some(below + [after, OpenDir(e.path, e.name, e.depth + 1, AtOpening(w, e.depth + 1, e.path))])
        else Some(below + [after])
  }

  /** The walk has stopped where it must: at a fault, or when nothing is due in the start directory any more. */
  ghost predicate Settled(w: World, start: string, base: string, t: seq<Event>, r: Result) {
    match Owed(w, start, base, t)
    case None => false
    case Some(stack) =>
      && stack != []
      && var dues := stack[|stack| - 1].dues;
         if r.Thrown? then dues != [] && dues[0] == Fault else |stack| == 1 && dues == []
  }

  // ---- the machine pays what is due

  function DirOf(w: World, f: Frame): OpenDir {
    OpenDir(f.dir, f.name, f.depth, DuesOf(w, f.depth, f.dir, f.rest))
  }

  function DirsOf(w: World, stack: seq<Frame>): seq<OpenDir> {
    seq(|stack|, i requires 0 <= i < |stack| => DirOf(w, stack[i]))
  }

  ghost predicate Paying(w: World, start: string, base: string, m: Machine) {
    && m.stack != [] && m.trace != [] && m.result.Done? && WellFormed(m)
    && Owed(w, start, base, m.trace) == Some(DirsOf(w, m.stack))
  }

  lemma OwedLonger(w: World, start: string, base: string, t: seq<Event>, e: Event)
    requires t != []
    ensures Owed(w, start, base, t + [e]) ==
            (match Owed(w, start, base, t) case None => None case Some(stack) => OwedNext(w, stack, t + [e]))
  {
    assert (t + [e])[..|t + [e]| - 1] == t;
  }

  lemma DirsOfSnoc(w: World, below: seq<Frame>, f: Frame)
    ensures DirsOf(w, below + [f]) == DirsOf(w, below) + [DirOf(w, f)]
    ensures DirsOf(w, Drained(below)) == NothingAtAll(DirsOf(w, below))
    ensures DirOf(w, Emptied(f)) == Nothing(DirOf(w, f))
  {
    var d, e := DirsOf(w, Drained(below)), NothingAtAll(DirsOf(w, below));
    assert forall i :: 0 <= i < |d| ==> d[i] == e[i];
    var x, y := DirsOf(w, below + [f]), DirsOf(w, below) + [DirOf(w, f)];
    assert forall i :: 0 <= i < |x| ==> x[i] == y[i];
  }

  /** How the code sorts an entry is how it is written out here. */
  lemma DueIs(w: World, depth: nat, dir: string, e: Entry)
    ensures var path := Join(w, dir, e.name);
            path == PathOf(w, dir, e.name) &&
            DueOf(w, depth, dir, e) ==
            if IsDots(e) then []
            else if |path| >= PATH_MAX then [Fault]
            else
              match Classify(w, e, path)
              case Ignored => []
              case Failed => [Awaited(Event(path, e.name, depth, e.dtype, VisitFailed))]
              case File(dtype) => [Awaited(Event(path, e.name, depth, dtype, VisitFile))]
              case Directory => if depth >= w.maxdepth then []
                else [Awaited(Event(path, e.name, depth, DtDir, PreVisit))]
  {
  }

  /** The innermost directory, before and after its next entry. */
  lemma TopDue(w: World, m: Machine, below: seq<Frame>, top: Frame, after: Frame)
    requires m.stack == below + [top] && top.rest != [] && after == top.(rest := top.rest[1..])
    ensures DirsOf(w, m.stack) == DirsOf(w, below) + [DirOf(w, top)]
    ensures DirOf(w, top).dues == DueOf(w, top.depth, top.dir, top.rest[0]) + DirOf(w, after).dues
    ensures DirOf(w, top).(dues := DirOf(w, after).dues) == DirOf(w, after)
  {
    DirsOfSnoc(w, below, top);
  }

  lemma PaidEvent(w: World, start: string, base: string, m: Machine, below: seq<Frame>, top: Frame, after: Frame,
      e: Event)
    requires Paying(w, start, base, m) && m.stack == below + [top] && top.rest != [] &&
             after == top.(rest := top.rest[1..])
    requires DueOf(w, top.depth, top.dir, top.rest[0]) == [Awaited(e)]
    ensures Owed(w, start, base, m.trace + [e]) ==
            var answer := w.visitor(m.trace + [e]);
            if answer == Terminate then Some(DirsOf(w, Drained(below + [after])))
            else if answer == SkipSiblings then Some(DirsOf(w, below + [Emptied(after)]))
            else if answer == Continue && e.kind == PreVisit then
              Some(DirsOf(w, below + [after]) +
                [OpenDir(e.path, e.name, e.depth + 1, AtOpening(w, e.depth + 1, e.path))])
            else Some(DirsOf(w, below + [after]))
  {
    hide DirsOf, DirOf, DueOf, Drained, NothingAtAll, AtOpening;
    TopDue(w, m, below, top, after);
    OwedLonger(w, start, base, m.trace, e);
    DirsOfSnoc(w, below, after);
    DirsOfSnoc(w, below + [after], after);
    DirsOfSnoc(w, below, Emptied(after));
    var stack, a := DirsOf(w, m.stack), DirOf(w, after);
    assert stack[..|stack| - 1] == DirsOf(w, below) && stack[|stack| - 1] == DirOf(w, top);
    assert DirOf(w, top).dues[1..] == a.dues;
    assert DirsOf(w, below) + [a, OpenDir(e.path, e.name, e.depth + 1, AtOpening(w, e.depth + 1, e.path))] ==
           DirsOf(w, below) + [a] + [OpenDir(e.path, e.name, e.depth + 1, AtOpening(w, e.depth + 1, e.path))];
  }

  lemma PaySilent(w: World, start: string, base: string, m: Machine, below: seq<Frame>, top: Frame, after: Frame)
    requires Paying(w, start, base, m) && m.stack == below + [top] && top.rest != [] &&
             after == top.(rest := top.rest[1..])
    requires DueOf(w, top.depth, top.dir, top.rest[0]) == []
    requires WellFormed(m.(stack := below + [after]))
    ensures Paying(w, start, base, m.(stack := below + [after]))
  {
    hide DirsOf, DirOf, DueOf, Owed;
    TopDue(w, m, below, top, after);
    DirsOfSnoc(w, below, after);
    assert [] + DirOf(w, after).dues == DirOf(w, after).dues;
  }

  lemma PayFault(w: World, start: string, base: string, m: Machine, below: seq<Frame>, top: Frame, after: Frame)
    requires Paying(w, start, base, m) && m.stack == below + [top] && top.rest != [] &&
             after == top.(rest := top.rest[1..])
    requires DueOf(w, top.depth, top.dir, top.rest[0]) == [Fault]
    ensures Settled(w, start, base, m.trace, Thrown)
  {
    hide DirsOf, DirOf, DueOf, Owed;
    TopDue(w, m, below, top, after);
  }

  ghost predicate PaysOrSettles(w: World, start: string, base: string, s: Machine) {
    if s.stack != [] then Paying(w, start, base, s) else Settled(w, start, base, s.trace, s.result)
  }

  lemma PayReport(w: World, start: string, base: string, m: Machine, below: seq<Frame>, top: Frame, after: Frame,
      e: Event)
    requires Paying(w, start, base, m) && m.stack == below + [top] && top.rest != [] &&
             after == top.(rest := top.rest[1..])
    requires DueOf(w, top.depth, top.dir, top.rest[0]) == [Awaited(e)] && e.kind != PreVisit
    requires WellFormed(Report(w, below, after, m, e))
    ensures PaysOrSettles(w, start, base, Report(w, below, after, m, e))
  {
    hide DirsOf, DueOf, Owed, Drained;
    PaidEvent(w, start, base, m, below, top, after, e);
    DrainedLength(below + [after]);
  }

  lemma DrainedLength(stack: seq<Frame>)
    ensures |Drained(stack)| == |stack|
  {
  }

  lemma PayEnter(w: World, start: string, base: string, m: Machine, below: seq<Frame>, top: Frame, after: Frame,
                 path: string, name: string)
    requires Paying(w, start, base, m) && m.stack == below + [top] && top.rest != [] &&
             after == top.(rest := top.rest[1..])
    requires DueOf(w, top.depth, top.dir, top.rest[0]) == [Awaited(Event(path, name, top.depth, DtDir, PreVisit))]
    requires WellFormed(Enter(w, below, after, m, path, name))
    ensures PaysOrSettles(w, start, base, Enter(w, below, after, m, path, name))
  {
    hide DirsOf, DueOf, Owed, Drained;
    var e := Event(path, name, top.depth, DtDir, PreVisit);
    PaidEvent(w, start, base, m, below, top, after, e);
    DrainedLength(below + [after]);
    if w.list(path).Some? {
      var f := Frame(path, name, top.depth + 1, w.list(path).value);
      DirsOfSnoc(w, below + [after], f);
      assert below + [after] + [f] == below + [after, f];
    }
  }

  lemma PayClose(w: World, start: string, base: string, m: Machine, below: seq<Frame>, top: Frame)
    requires Paying(w, start, base, m) && m.stack == below + [top] && top.rest == [] && top.depth > 0
    requires WellFormed(Close(w, below, top, m))
    ensures PaysOrSettles(w, start, base, Close(w, below, top, m))
  {
    hide DirsOf, Drained;
    DirsOfSnoc(w, below, top);
    DirsOfSnoc(w, [], top);
    DrainedLength(below);
    OwedLonger(w, start, base, m.trace, PostOf(top));
    var stack := DirsOf(w, m.stack);
    assert stack[..|stack| - 1] == DirsOf(w, below) && stack[|stack| - 1] == DirOf(w, top);
    DirsLength(w, below);
    DirsLength(w, m.stack);
  }

  lemma DirsLength(w: World, stack: seq<Frame>)
    ensures |DirsOf(w, stack)| == |stack|
  {
  }

  lemma PayStep(w: World, start: string, base: string, m: Machine)
    requires Paying(w, start, base, m)
    ensures PaysOrSettles(w, start, base, Step(w, m))
  {
    hide PaysOrSettles, Report, Enter, Close, Classify, DueOf, Join, IsDots, Paying;
    PayingFacts(w, start, base, m);
    StepWellFormed(w, m);
    var below, top := m.stack[..|m.stack| - 1], m.stack[|m.stack| - 1];
    assert m.stack == below + [top];
    if top.rest == [] {
      PayClose(w, start, base, m, below, top);
    } else {
      var e := top.rest[0];
      var after := top.(rest := top.rest[1..]);
      var path := Join(w, top.dir, e.name);
      DueIs(w, top.depth, top.dir, e);
      if IsDots(e) {
        PaySilent(w, start, base, m, below, top, after);
        Silent(w, start, base, m.(stack := below + [after]));
      } else if |path| >= PATH_MAX {
        PayFault(w, start, base, m, below, top, after);
        Stopped(w, start, base, m.trace);
      } else {
        match Classify(w, e, path)
        case Ignored =>
          PaySilent(w, start, base, m, below, top, after);
          Silent(w, start, base, m.(stack := below + [after]));
        case Failed =>
          PayReport(w, start, base, m, below, top, after, Event(path, e.name, top.depth, e.dtype, VisitFailed));
        case File(dtype) =>
          PayReport(w, start, base, m, below, top, after, Event(path, e.name, top.depth, dtype, VisitFile));
        case Directory =>
          if top.depth >= w.maxdepth {
            PaySilent(w, start, base, m, below, top, after);
            Silent(w, start, base, m.(stack := below + [after]));
          } else {
            PayEnter(w, start, base, m, below, top, after, path, e.name);
          }
      }
    }
  }

  lemma PayingFacts(w: World, start: string, base: string, m: Machine)
    requires Paying(w, start, base, m)
    ensures WellFormed(m) && m.stack != [] && m.stack[|m.stack| - 1].depth > 0
  {
  }

  lemma Silent(w: World, start: string, base: string, s: Machine)
    requires Paying(w, start, base, s)
    ensures PaysOrSettles(w, start, base, s)
  {
  }

  lemma Stopped(w: World, start: string, base: string, t: seq<Event>)
    requires Settled(w, start, base, t, Thrown)
    ensures PaysOrSettles(w, start, base, Halted(t))
  {
  }

  lemma {:induction false} PayIter(w: World, start: string, base: string, m: Machine, n: nat)
    requires PaysOrSettles(w, start, base, m) && WellFormed(m)
    ensures PaysOrSettles(w, start, base, Iter(w, m, n))
    decreases n
  {
    hide Paying, Settled, Step;
    if n > 0 && m.stack != [] {
      PayingFacts(w, start, base, m);
      PayStep(w, start, base, m);
      StepWellFormed(w, m);
      PayIter(w, start, base, Step(w, m), n - 1);
    }
  }

  lemma PayStart(w: World, start: string, base: string)
    ensures PaysOrSettles(w, start, base, Start(w, start, base)) && WellFormed(Start(w, start, base))
  {
    var m := Start(w, start, base);
    if m.stack != [] {
      DirsOfSnoc(w, [], m.stack[0]);
      assert DirsOf(w, m.stack) == [DirOf(w, m.stack[0])];
    }
  }

  /**
   * Every walk, read off its trace: each event is the one that is due, in the order of the listings, and the walk goes
   * on until nothing is due any more or the next thing due is an exception.
   */
  lemma WalkPaysDues(w: World, start: string, base: string)
    ensures var (t, r) := Walk(w, 1, start, [StartEvent(start, base)]); Settled(w, start, base, t, r)
  {
    hide Walk, Start, Iter, Paying, Settled;
    var n := WalkIsReference(w, start, base);
    PayStart(w, start, base);
    PayIter(w, start, base, Start(w, start, base), n);
  }

  // ---- what each event is about

  /** The event is about a listed entry, at its path, and what readdir and stat say of it is what the event says. */
  ghost predicate Justified(w: World, ev: Event, dir: string, e: Entry) {
    && w.list(dir).Some? && e in w.list(dir).value
    && ev.name == e.name && e.name != "." && e.name != ".."
    && ev.path == PathOf(w, dir, e.name) && |ev.path| < 2048
    && match ev.kind
       case PreVisit => ev.dtype == DtDir && MadeDirectory(w, e, ev.path)
       case PostVisit => ev.dtype == DtDir && MadeDirectory(w, e, ev.path)
       case VisitFile => MadeFile(w, e, ev.path) && ev.dtype == if Asked(w, e) then DtReg else e.dtype
       case VisitFailed => MadeFailure(w, e, ev.path) && ev.dtype == e.dtype
  }

  ghost predicate AboutAnEntry(w: World, ev: Event) {
    exists dir: string, e: Entry :: Justified(w, ev, dir, e)
  }

  ghost predicate SoundDues(w: World, dues: seq<Due>) {
    forall i :: 0 <= i < |dues| && dues[i].Awaited? ==> AboutAnEntry(w, dues[i].event)
  }

  ghost predicate SoundPost(w: World, d: OpenDir) {
    d.depth > 0 && AboutAnEntry(w, Event(d.path, d.name, d.depth - 1, DtDir, PostVisit))
  }

  /** What is due in the open directories is about entries, and so will be their POSTs. */
  ghost predicate Sound(w: World, stack: seq<OpenDir>) {
    && (forall i :: 0 <= i < |stack| ==> SoundDues(w, stack[i].dues))
    && (forall i :: 1 <= i < |stack| ==> SoundPost(w, stack[i]))
  }

  lemma {:induction false} DuesAreSound(w: World, depth: nat, dir: string, entries: seq<Entry>)
    requires w.list(dir).Some? && forall e :: e in entries ==> e in w.list(dir).value
    ensures SoundDues(w, DuesOf(w, depth, dir, entries))
    decreases |entries|
  {
    hide AboutAnEntry;
    if entries != [] {
      var first, rest := DueOf(w, depth, dir, entries[0]), DuesOf(w, depth, dir, entries[1..]);
      assert entries[0] in entries && forall e :: e in entries[1..] ==> e in entries;
      DuesAreSound(w, depth, dir, entries[1..]);
      DueIsSound(w, depth, dir, entries[0]);
      var all := first + rest;
      assert forall i :: 0 <= i < |all| ==> all[i] == if i < |first| then first[i] else rest[i - |first|];
    }
  }

  lemma DueIsSound(w: World, depth: nat, dir: string, e: Entry)
    requires w.list(dir).Some? && e in w.list(dir).value
    ensures SoundDues(w, DueOf(w, depth, dir, e))
  {
    var dues := DueOf(w, depth, dir, e);
    if dues != [] && dues[0].Awaited? {
      assert Justified(w, dues[0].event, dir, e);
    }
  }

  lemma OpeningIsSound(w: World, depth: nat, dir: string)
    ensures SoundDues(w, AtOpening(w, depth, dir))
  {
    if w.list(dir).Some? {
      DuesAreSound(w, depth, dir, w.list(dir).value);
    }
  }

  lemma PostIsSound(w: World, ev: Event)
    requires AboutAnEntry(w, ev) && ev.kind == PreVisit
    ensures AboutAnEntry(w, Event(ev.path, ev.name, ev.depth, DtDir, PostVisit))
  {
    var dir, e :| Justified(w, ev, dir, e);
    assert Justified(w, Event(ev.path, ev.name, ev.depth, DtDir, PostVisit), dir, e);
  }

  lemma NextIsSound(w: World, stack: seq<OpenDir>, t: seq<Event>)
    requires t != [] && Sound(w, stack) && OwedNext(w, stack, t).Some?
    ensures Sound(w, OwedNext(w, stack, t).value) && AboutAnEntry(w, t[|t| - 1])
  {
    hide AboutAnEntry, AtOpening, Sound, NothingAtAll;
    var e := t[|t| - 1];
    var below, top := stack[..|stack| - 1], stack[|stack| - 1];
    assert stack == below + [top];
    TopIsSound(w, below, top);
    if top.dues != [] {
      var after := top.(dues := top.dues[1..]);
      AwaitedIsSound(w, top, e);
      LessIsSound(w, below, top, after);
      LessIsSound(w, below, top, Nothing(after));
      if e.kind == PreVisit {
        OpeningIsSound(w, e.depth + 1, e.path);
        PostIsSound(w, e);
        PreIsDirectory(w, e);
        MoreIsSound(w, below + [after], OpenDir(e.path, e.name, e.depth + 1, AtOpening(w, e.depth + 1, e.path)));
        assert below + [after] + [OpenDir(e.path, e.name, e.depth + 1, AtOpening(w, e.depth + 1, e.path))] ==
               below + [after, OpenDir(e.path, e.name, e.depth + 1, AtOpening(w, e.depth + 1, e.path))];
      }
    }
  }

  lemma TopIsSound(w: World, below: seq<OpenDir>, top: OpenDir)
    requires Sound(w, below + [top])
    ensures Sound(w, below) && Sound(w, NothingAtAll(below)) && SoundDues(w, top.dues)
    ensures below != [] ==> SoundPost(w, top)
  {
    hide AboutAnEntry, SoundPost;
    var all := below + [top];
    assert all[|below|] == top && forall i :: 0 <= i < |below| ==> all[i] == below[i];
    EmptiedIsSound(w, below);
  }

  lemma EmptiedIsSound(w: World, stack: seq<OpenDir>)
    requires Sound(w, stack)
    ensures Sound(w, NothingAtAll(stack))
  {
    hide AboutAnEntry, SoundPost;
    forall i | 1 <= i < |stack|
      ensures SoundPost(w, NothingAtAll(stack)[i])
    {
      SamePost(w, stack[i]);
    }
  }

  lemma SamePost(w: World, d: OpenDir)
    ensures SoundPost(w, Nothing(d)) <==> SoundPost(w, d)
    ensures d.dues != [] ==> (SoundPost(w, d.(dues := d.dues[1..])) <==> SoundPost(w, d))
  {
  }

  lemma AwaitedIsSound(w: World, top: OpenDir, e: Event)
    requires SoundDues(w, top.dues) && top.dues != []
    ensures top.dues[0] == Awaited(e) ==> AboutAnEntry(w, e)
  {
  }

  lemma LessIsSound(w: World, below: seq<OpenDir>, top: OpenDir, after: OpenDir)
    requires Sound(w, below + [top]) && top.dues != [] && (after.dues == [] || after.dues == top.dues[1..])
    requires after.path == top.path && after.name == top.name && after.depth == top.depth
    ensures Sound(w, below + [after]) && Sound(w, NothingAtAll(below + [after]))
  {
    hide AboutAnEntry, Sound, NothingAtAll;
    TopIsSound(w, below, top);
    FewerDues(w, top, after);
    MoreIsSound(w, below, after);
    EmptiedIsSound(w, below + [after]);
  }

  lemma FewerDues(w: World, top: OpenDir, after: OpenDir)
    requires SoundDues(w, top.dues) && top.dues != [] && (after.dues == [] || after.dues == top.dues[1..])
    requires after.path == top.path && after.name == top.name && after.depth == top.depth
    ensures SoundDues(w, after.dues) && (SoundPost(w, top) ==> SoundPost(w, after))
  {
    hide AboutAnEntry;
    assert forall i :: 0 <= i < |after.dues| ==> after.dues[i] == top.dues[i + 1];
  }

  lemma MoreIsSound(w: World, below: seq<OpenDir>, d: OpenDir)
    requires Sound(w, below) && SoundDues(w, d.dues) && (below != [] ==> SoundPost(w, d))
    ensures Sound(w, below + [d])
  {
    hide AboutAnEntry, SoundPost;
    var all := below + [d];
    assert all[|below|] == d && forall i :: 0 <= i < |below| ==> all[i] == below[i];
  }

  lemma PreIsDirectory(w: World, e: Event)
    requires AboutAnEntry(w, e) && e.kind == PreVisit
    ensures e.dtype == DtDir
  {
  }

  lemma {:induction false} OwedIsSound(w: World, start: string, base: string, t: seq<Event>, k: nat)
    requires Owed(w, start, base, t).Some?
    ensures Sound(w, Owed(w, start, base, t).value)
    ensures 1 <= k < |t| ==> AboutAnEntry(w, t[k])
    decreases |t|
  {
    hide AboutAnEntry, OwedNext, AtOpening;
    if |t| == 1 {
      OpeningIsSound(w, 1, start);
    } else {
      var before := t[..|t| - 1];
      OwedIsSound(w, start, base, before, k);
      NextIsSound(w, Owed(w, start, base, before).value, t);
      assert k < |t| - 1 ==> before[k] == t[k];
    }
  }

  /**
   * Every event behind the start is about a listed entry that is not "." or "..", at the path made of the directory,
   * one separator and the name. A directory is one that readdir or stat calls so, a file is never one, and only stat
   * fails.
   */
  lemma EventsAreListed(w: World, start: string, base: string, k: nat)
    requires var (t, r) := Walk(w, 1, start, [StartEvent(start, base)]); 1 <= k < |t|
    ensures var (t, r) := Walk(w, 1, start, [StartEvent(start, base)]);
            exists dir: string, e: Entry :: Justified(w, t[k], dir, e)
  {
    hide Walk, Owed;
    WalkPaysDues(w, start, base);
    var (t, r) := Walk(w, 1, start, [StartEvent(start, base)]);
    OwedIsSound(w, start, base, t, k);
  }

  // ---- completeness

  /** The events about the entries of a directory at this depth themselves. */
  function Direct(depth: nat, t: seq<Event>): seq<Due> {
    if t == [] then []
    else
      var e := t[|t| - 1];
      Direct(depth, t[..|t| - 1]) + (if e.depth == depth && e.kind != PostVisit then [Awaited(e)] else [])
  }

  lemma {:induction false} DirectAppend(depth: nat, a: seq<Event>, b: seq<Event>)
    ensures Direct(depth, a + b) == Direct(depth, a) + Direct(depth, b)
    decreases |b|
  {
    if b == [] {
      assert a + b == a && Direct(depth, a) + [] == Direct(depth, a);
    } else {
      assert (a + b)[..|a + b| - 1] == a + b[..|b| - 1];
      DirectAppend(depth, a, b[..|b| - 1]);
    }
  }

  lemma {:induction false} NothingDirect(depth: nat, t: seq<Event>)
    requires forall i :: 0 <= i < |t| ==> t[i].depth != depth || t[i].kind == PostVisit
    ensures Direct(depth, t) == []
  {
    if t != [] {
      NothingDirect(depth, t[..|t| - 1]);
    }
  }

  /** No event about an entry of this directory, from the given place on, was answered SKIP_SIBLINGS. */
  ghost predicate NoneSkipped(w: World, depth: nat, t: seq<Event>, from: nat) {
    forall i: nat :: from <= i < |t| && t[i].depth == depth && t[i].kind != PostVisit ==>
      w.visitor(t[..i + 1]) != SkipSiblings
  }

  /** What has been reported of a directory since the place from. */
  ghost predicate Covered(w: World, depth: nat, dues: seq<Due>, t: seq<Event>, from: nat, r: Result)
    requires from <= |t|
  {
    && Direct(depth, t[from..]) <= dues
    && (r == Done(false) && NoneSkipped(w, depth, t, from) ==> Direct(depth, t[from..]) == dues)
  }

  /**
   * A directory reports its listed entries in their order, and if it ends without SKIP_SIBLINGS, TERMINATE or an
   * exception, all of them: but for dots, other kinds that stat finds, and directories at maxdepth.
   */
  lemma {:induction false} DirectoryIsComplete(w: World, depth: nat, dir: string, entries: seq<Entry>, t: seq<Event>)
    ensures var (t1, r) := Entries(w, depth, dir, entries, t);
            t <= t1 && Covered(w, depth, DuesOf(w, depth, dir, entries), t1, |t|, r)
    decreases Room(dir), |entries|, 1
  {
    var (t1, r) := Entries(w, depth, dir, entries, t);
    if entries == [] {
      assert t[|t|..] == [];
    } else {
      hide Covered, Classify, Join, IsDots, DueOf;
      var e, rest := entries[0], entries[1..];
      var path := Join(w, dir, e.name);
      DueIs(w, depth, dir, e);
      if IsDots(e) {
        DirectoryIsComplete(w, depth, dir, rest, t);
        assert [] + DuesOf(w, depth, dir, rest) == DuesOf(w, depth, dir, rest);
      } else if |path| >= PATH_MAX {
        NothingCovered(w, depth, DuesOf(w, depth, dir, entries), t);
      } else {
        EntryIsComplete(w, depth, dir, entries, t);
      }
    }
  }

  lemma NothingCovered(w: World, depth: nat, dues: seq<Due>, t: seq<Event>)
    ensures Covered(w, depth, dues, t, |t|, Thrown)
  {
    assert t[|t|..] == [];
  }

  /** The same for a first entry that is not passed over at once. */
  lemma {:induction false} EntryIsComplete(w: World, depth: nat, dir: string, entries: seq<Entry>, t: seq<Event>)
    requires entries != [] && !IsDots(entries[0]) && |Join(w, dir, entries[0].name)| < PATH_MAX
    ensures var (t1, r) := Entries(w, depth, dir, entries, t);
            t <= t1 && Covered(w, depth, DuesOf(w, depth, dir, entries), t1, |t|, r)
    decreases Room(dir), |entries|, 0
  {
    hide Covered, Classify, Join, IsDots, DueOf, Walk;
    var e, rest := entries[0], entries[1..];
    var path := Join(w, dir, e.name);
    var later := DuesOf(w, depth, dir, rest);
    DueIs(w, depth, dir, e);
    match Classify(w, e, path)
    case Ignored =>
      DirectoryIsComplete(w, depth, dir, rest, t);
      assert [] + later == later;
    case Failed =>
      LeafIsComplete(w, depth, dir, rest, t, Event(path, e.name, depth, e.dtype, VisitFailed));
    case File(dtype) =>
      LeafIsComplete(w, depth, dir, rest, t, Event(path, e.name, depth, dtype, VisitFile));
    case Directory =>
      if depth >= w.maxdepth {
        DirectoryIsComplete(w, depth, dir, rest, t);
        assert [] + later == later;
      } else {
        SubtreeIsComplete(w, depth, dir, rest, t, path, e.name);
      }
  }

  /** One report, then what comes behind it. */
  lemma CoveredMore(w: World, depth: nat, e: Event, inner: seq<Event>, later: seq<Due>, t: seq<Event>, t1: seq<Event>,
      r: Result)
    requires e.depth == depth && e.kind != PostVisit && t + [e] + inner <= t1
    requires forall i :: 0 <= i < |inner| ==> inner[i].depth != depth || inner[i].kind == PostVisit
    requires Covered(w, depth, later, t1, |t| + 1 + |inner|, r)
    ensures Covered(w, depth, [Awaited(e)] + later, t1, |t|, r)
  {
    var from := |t| + 1 + |inner|;
    var front := [e] + inner;
    assert t1[|t|..] == front + t1[from..];
    DirectAppend(depth, front, t1[from..]);
    DirectAppend(depth, [e], inner);
    NothingDirect(depth, inner);
    assert [e][..0] == [];
    assert Direct(depth, [e]) == [Awaited(e)];
    assert Direct(depth, t1[|t|..]) == [Awaited(e)] + Direct(depth, t1[from..]);
  }

  /** The directory ends behind one report. */
  lemma CoveredEnds(w: World, depth: nat, e: Event, inner: seq<Event>, later: seq<Due>, t: seq<Event>, r: Result)
    requires e.depth == depth && e.kind != PostVisit
    requires forall i :: 0 <= i < |inner| ==> inner[i].depth != depth || inner[i].kind == PostVisit
    requires r == Done(false) ==> w.visitor(t + [e]) == SkipSiblings
    ensures Covered(w, depth, [Awaited(e)] + later, t + [e] + inner, |t|, r)
  {
    var t1 := t + [e] + inner;
    var front := [e] + inner;
    assert t1[|t|..] == front;
    DirectAppend(depth, [e], inner);
    NothingDirect(depth, inner);
    assert [e][..0] == [];
    assert Direct(depth, t1[|t|..]) == [Awaited(e)];
    assert t1[|t|] == e && t1[..|t| + 1] == t + [e];
  }

  lemma {:induction false} LeafIsComplete(w: World, depth: nat, dir: string, rest: seq<Entry>, t: seq<Event>, e: Event)
    requires e.depth == depth && e.kind != PostVisit
    ensures var (t1, r) := Leaf(w, depth, dir, rest, t + [e]);
            t <= t1 && Covered(w, depth, [Awaited(e)] + DuesOf(w, depth, dir, rest), t1, |t|, r)
    decreases Room(dir), |rest|, 2
  {
    hide Covered, DuesOf;
    var later := DuesOf(w, depth, dir, rest);
    var (t1, r) := Leaf(w, depth, dir, rest, t + [e]);
    assert t + [e] + [] == t + [e];
    if w.visitor(t + [e]) == Terminate || w.visitor(t + [e]) == SkipSiblings {
      CoveredEnds(w, depth, e, [], later, t, r);
    } else {
      DirectoryIsComplete(w, depth, dir, rest, t + [e]);
      CoveredMore(w, depth, e, [], later, t, t1, r);
    }
  }

  /** The events below a directory are deeper than its entries. */
  lemma DeeperInside(w: World, depth: nat, path: string, t: seq<Event>)
    ensures var t1 := Walk(w, depth + 1, path, t).0; t <= t1 && forall i :: |t| <= i < |t1| ==> t1[i].depth > depth
  {
    if w.list(path).Some? {
      EntriesFit(w, depth + 1, path, w.list(path).value, t, |t|);
    }
  }

  lemma {:induction false} SubtreeIsComplete(w: World, depth: nat, dir: string, rest: seq<Entry>, t: seq<Event>,
                                             path: string, name: string)
    ensures var e := Event(path, name, depth, DtDir, PreVisit);
            var (t1, r) := AtDirectory(w, depth, dir, rest, t, path, name);
            t <= t1 && Covered(w, depth, [Awaited(e)] + DuesOf(w, depth, dir, rest), t1, |t|, r)
    decreases Room(dir), |rest|, 2
  {
    hide Covered, DuesOf, Walk;
    var e := Event(path, name, depth, DtDir, PreVisit);
    var later := DuesOf(w, depth, dir, rest);
    var t0 := t + [e];
    var (t1, r) := AtDirectory(w, depth, dir, rest, t, path, name);
    assert t0 + [] == t0;
    match w.visitor(t0)
    case Terminate => CoveredEnds(w, depth, e, [], later, t, r);
    case SkipSiblings => CoveredEnds(w, depth, e, [], later, t, r);
    case SkipSubtree =>
      DirectoryIsComplete(w, depth, dir, rest, t0);
      CoveredMore(w, depth, e, [], later, t, t1, r);
    case Continue =>
      DeeperInside(w, depth, path, t0);
      var (u, s) := Walk(w, depth + 1, path, t0);
      var inner := u[|t0|..];
      assert t0 + inner == u;
      if s.Thrown? {
        CoveredEnds(w, depth, e, inner, later, t, r);
      } else {
        var post := Event(path, name, depth, DtDir, PostVisit);
        assert t0 + (inner + [post]) == u + [post];
        if s.stop || w.visitor(u + [post]) == Terminate {
          CoveredEnds(w, depth, e, inner + [post], later, t, r);
        } else {
          DirectoryIsComplete(w, depth, dir, rest, u + [post]);
          CoveredMore(w, depth, e, inner + [post], later, t, t1, r);
        }
      }
  }

  /** What the walk does from the PRE of a directory on. */
  function AtDirectory(w: World, depth: nat, dir: string, rest: seq<Entry>, t: seq<Event>, path: string, name: string)
      : (seq<Event>, Result)
  {
    var t0 := t + [Event(path, name, depth, DtDir, PreVisit)];
    match w.visitor(t0)
    case Terminate => (t0, Done(true))
    case SkipSubtree => Entries(w, depth, dir, rest, t0)
    case SkipSiblings => (t0, Done(false))
    case Continue =>
      var (t1, r) := Walk(w, depth + 1, path, t0);
      if r.Thrown? then (t1, r)
      else
        var t2 := t1 + [Event(path, name, depth, DtDir, PostVisit)];
        if r.stop || w.visitor(t2) == Terminate then (t2, Done(true)) else Entries(w, depth, dir, rest, t2)
  }
}
