/**
 * A reference for the walk: a machine with an explicit stack of open directories, each with the entries still to be
 * visited. A visitor's answer acts on what is still to be visited and on nothing else.
 */
module WalkReference {
  import opened Prelude
  import opened FileWalk

  /** An open directory; its entries have the given depth. */
  datatype Frame = Frame(dir: string, name: string, depth: nat, rest: seq<Entry>)

  datatype Machine = Machine(stack: seq<Frame>, trace: seq<Event>, result: Result)

  /** SKIP_SIBLINGS: nothing more of this directory. */
  function Emptied(f: Frame): Frame {
    f.(rest := [])
  }

  /** TERMINATE: nothing more of any open directory. */
  function Drained(stack: seq<Frame>): seq<Frame> {
    seq(|stack|, i requires 0 <= i < |stack| => Emptied(stack[i]))
  }

  function PostOf(f: Frame): Event
    requires f.depth > 0
  {
    Event(f.dir, f.name, f.depth - 1, DtDir, PostVisit)
  }

  predicate WellFormed(m: Machine) {
    forall i :: 0 <= i < |m.stack| ==> m.stack[i].depth > 0
  }

  function Halted(t: seq<Event>): Machine {
    Machine([], t, Thrown)
  }

  /** The top directory has no more entries: it is closed, and reported unless it is the start directory. */
  function Close(w: World, below: seq<Frame>, top: Frame, m: Machine): Machine
    requires top.depth > 0
  {
    if below == [] then m.(stack := [])
    else
      var t := m.trace + [PostOf(top)];
      if w.visitor(t) == Terminate then Machine(Drained(below), t, Done(true)) else m.(stack := below, trace := t)
  }

  /** A file or failed entry is reported. */
  function Report(w: World, below: seq<Frame>, top: Frame, m: Machine, ev: Event): Machine {
    var t := m.trace + [ev];
    match w.visitor(t)
    case Terminate => Machine(Drained(below + [top]), t, Done(true))
    case SkipSiblings => m.(stack := below + [Emptied(top)], trace := t)
    case _ => m.(stack := below + [top], trace := t)
  }

  /** A directory is reported, and opened if the answer is CONTINUE. */
  function Enter(w: World, below: seq<Frame>, top: Frame, m: Machine, path: string, name: string): Machine {
    var t := m.trace + [Event(path, name, top.depth, DtDir, PreVisit)];
    match w.visitor(t)
    case Terminate => Machine(Drained(below + [top]), t, Done(true))
    case SkipSubtree => m.(stack := below + [top], trace := t)
    case SkipSiblings => m.(stack := below + [Emptied(top)], trace := t)
    case Continue =>
      match w.list(path)
      case None => Halted(t)
      case Some(entries) => m.(stack := below + [top, Frame(path, name, top.depth + 1, entries)], trace := t)
  }

  function Step(w: World, m: Machine): Machine
    requires m.stack != [] && WellFormed(m)
  {
    var below, top := m.stack[..|m.stack| - 1], m.stack[|m.stack| - 1];
    if top.rest == [] then Close(w, below, top, m)
    else
      var e := top.rest[0];
      var after := top.(rest := top.rest[1..]);
      var path := Join(w, top.dir, e.name);
      if IsDots(e) then m.(stack := below + [after])
      else if |path| >= PATH_MAX then Halted(m.trace)
      else
        match Classify(w, e, path)
        case Ignored => m.(stack := below + [after])
        case Failed => Report(w, below, after, m, Event(path, e.name, top.depth, e.dtype, VisitFailed))
        case File(dtype) => Report(w, below, after, m, Event(path, e.name, top.depth, dtype, VisitFile))
        case Directory =>
          if top.depth >= w.maxdepth then m.(stack := below + [after]) else Enter(w, below, after, m, path, e.name)
  }

  lemma StepWellFormed(w: World, m: Machine)
    requires m.stack != [] && WellFormed(m)
    ensures WellFormed(Step(w, m))
  {
  }

  /** n steps, or fewer if the machine has halted. */
  function Iter(w: World, m: Machine, n: nat): (r: Machine)
    requires WellFormed(m)
    ensures WellFormed(r)
    decreases n
  {
    if n == 0 || m.stack == [] then m
    else
      StepWellFormed(w, m);
      Iter(w, Step(w, m), n - 1)
  }

  lemma {:induction false} IterAdd(w: World, m: Machine, a: nat, b: nat)
    requires WellFormed(m)
    ensures Iter(w, m, a + b) == Iter(w, Iter(w, m, a), b)
    decreases a
  {
    hide Step;
    if a > 0 && m.stack != [] {
      StepWellFormed(w, m);
      IterAdd(w, Step(w, m), a - 1, b);
    }
  }

  /** What the machine makes of a finished directory on top of the others. */
  function Outcome(below: seq<Frame>, f: Frame, t: seq<Event>, r: Result): Machine {
    match r
    case Thrown => Halted(t)
    case Done(stop) => Machine((if stop then Drained(below) else below) + [Emptied(f)], t, r)
  }

  function Running(below: seq<Frame>, f: Frame, t: seq<Event>): Machine {
    Machine(below + [f], t, Done(false))
  }

  lemma DrainedSnoc(below: seq<Frame>, f: Frame)
    ensures Drained(below + [f]) == Drained(below) + [Emptied(f)]
    ensures Drained(Drained(below)) == Drained(below)
  {
    var d, e := Drained(below + [f]), Drained(below) + [Emptied(f)];
    assert forall i :: 0 <= i < |d| ==> d[i] == e[i];
    assert forall i :: 0 <= i < |below| ==> Drained(Drained(below))[i] == Drained(below)[i];
  }

  /** One step of the machine on a directory whose next entry is entries[0]. */
  lemma OneStep(w: World, below: seq<Frame>, f: Frame, t: seq<Event>)
    requires WellFormed(Running(below, f, t))
    ensures Iter(w, Running(below, f, t), 1) == Step(w, Running(below, f, t))
    ensures Running(below, f, t).stack[..|below|] == below
  {
  }

  /**
   * The machine runs through a directory exactly as the recursive walk does, whatever directories are open below it.
   */
  lemma {:induction false} Simulates(w: World, below: seq<Frame>, f: Frame, t: seq<Event>) returns (n: nat)
    requires WellFormed(Running(below, f, t))
    ensures var (t1, r) := Entries(w, f.depth, f.dir, f.rest, t);
            Iter(w, Running(below, f, t), n) == Outcome(below, f, t1, r)
    decreases Room(f.dir), |f.rest|
  {
    hide Step, Entries;
    var m := Running(below, f, t);
    if f.rest == [] {
      NothingLeft(w, f, t);
      n := 0;
    } else if Opens(w, f, t) {
      n := SimulatesOpened(w, below, f, t);
    } else {
      OneStep(w, below, f, t);
      OtherStep(w, below, f, t);
      StepWellFormed(w, m);
      n := 1;
      var after := f.(rest := f.rest[1..]);
      var s := Step(w, m);
      if s == Running(below, after, s.trace) &&
         Entries(w, f.depth, f.dir, f.rest, t) == Entries(w, f.depth, f.dir, after.rest, s.trace) {
        var k := Simulates(w, below, after, s.trace);
        IterAdd(w, m, 1, k);
        n := 1 + k;
      }
    }
  }

  lemma NothingLeft(w: World, f: Frame, t: seq<Event>)
    requires f.rest == []
    ensures Entries(w, f.depth, f.dir, f.rest, t) == (t, Done(false)) && f == Emptied(f)
  {
  }

  /** The next entry is a directory that the visitor wants opened and that opens. */
  predicate Opens(w: World, f: Frame, t: seq<Event>)
    requires f.rest != []
  {
    var e := f.rest[0];
    var path := Join(w, f.dir, e.name);
    && !IsDots(e) && |path| < PATH_MAX && Classify(w, e, path).Directory? && f.depth < w.maxdepth
    && w.visitor(t + [Event(path, e.name, f.depth, DtDir, PreVisit)]).Continue? && w.list(path).Some?
  }

  /** Any other entry takes one step, which ends the directory or leaves the later entries to do. */
  lemma OtherStep(w: World, below: seq<Frame>, f: Frame, t: seq<Event>)
    requires WellFormed(Running(below, f, t)) && f.rest != [] && !Opens(w, f, t)
    ensures var s := Step(w, Running(below, f, t));
            var after := f.(rest := f.rest[1..]);
            var (t1, r) := Entries(w, f.depth, f.dir, f.rest, t);
            || (s == Running(below, after, s.trace) && (t1, r) == Entries(w, f.depth, f.dir, after.rest, s.trace))
            || s == Outcome(below, f, t1, r)
  {
    var after := f.(rest := f.rest[1..]);
    DrainedSnoc(below, after);
    assert Running(below, f, t).stack[..|below|] == below;
    assert Emptied(after) == Emptied(f);
    var e := f.rest[0];
    var path := Join(w, f.dir, e.name);
    if !IsDots(e) && |path| < PATH_MAX && Classify(w, e, path).Directory? {
      hide Report, Leaf, Drained;
      var inner := Walk(w, f.depth + 1, path, t + [Event(path, e.name, f.depth, DtDir, PreVisit)]);
    } else {
      hide Enter, Walk, Drained;
      var leaf := Leaf(w, f.depth, f.dir, after.rest, Step(w, Running(below, f, t)).trace);
    }
  }

  /** The same for a next entry that is a directory to be opened. */
  lemma {:induction false} SimulatesOpened(w: World, below: seq<Frame>, f: Frame, t: seq<Event>) returns (n: nat)
    requires WellFormed(Running(below, f, t)) && f.rest != []
    requires Opens(w, f, t)
    ensures var (t1, r) := Entries(w, f.depth, f.dir, f.rest, t);
            Iter(w, Running(below, f, t), n) == Outcome(below, f, t1, r)
    decreases Room(f.dir), |f.rest|, 0
  {
    hide Step, Entries, Walk, Opens;
    var m := Running(below, f, t);
    OneStep(w, below, f, t);
    OpenedStep(w, below, f, t);
    var after, child, t0 := f.(rest := f.rest[1..]), Child(w, f), t + [PreOf(w, f)];
    var n1 := Simulates(w, below + [after], child, t0);
    IterAdd(w, m, 1, n1);
    n := 1 + n1;
    var (t1, r) := Entries(w, child.depth, child.dir, child.rest, t0);
    if r.Done? {
      var t2 := t1 + [PostOf(child)];
      ClosesOnPost(w, below, after, child, t1, r.stop);
      IterAdd(w, m, n, 1);
      n := n + 1;
      DrainedSnoc(below, after);
      if !r.stop && w.visitor(t2) != Terminate {
        var n2 := Simulates(w, below, after, t2);
        IterAdd(w, m, n, n2);
        n := n + n2;
      }
    }
  }

  function Child(w: World, f: Frame): Frame
    requires f.rest != [] && w.list(Join(w, f.dir, f.rest[0].name)).Some?
  {
    var path := Join(w, f.dir, f.rest[0].name);
    Frame(path, f.rest[0].name, f.depth + 1, w.list(path).value)
  }

  function PreOf(w: World, f: Frame): Event
    requires f.rest != []
  {
    Event(Join(w, f.dir, f.rest[0].name), f.rest[0].name, f.depth, DtDir, PreVisit)
  }

  lemma OpenedStep(w: World, below: seq<Frame>, f: Frame, t: seq<Event>)
    requires WellFormed(Running(below, f, t)) && f.rest != [] && Opens(w, f, t)
    ensures w.list(Join(w, f.dir, f.rest[0].name)).Some?
    ensures var after, child, t0 := f.(rest := f.rest[1..]), Child(w, f), t + [PreOf(w, f)];
            && Step(w, Running(below, f, t)) == Running(below + [after], child, t0)
            && WellFormed(Running(below + [after], child, t0)) &&
               WellFormed(Machine(below + [after, child], t0, Done(false)))
            && Room(child.dir) < Room(f.dir)
            && Entries(w, f.depth, f.dir, f.rest, t) ==
               var (t1, r) := Entries(w, child.depth, child.dir, child.rest, t0);
               if r.Thrown? then (t1, r)
               else
                 var t2 := t1 + [PostOf(child)];
                 if r.stop || w.visitor(t2) == Terminate then (t2, Done(true))
                 else Entries(w, f.depth, f.dir, after.rest, t2)
  {
    var after, child, t0 := f.(rest := f.rest[1..]), Child(w, f), t + [PreOf(w, f)];
    assert Running(below, f, t).stack[..|below|] == below;
    assert below + [after] + [child] == below + [after, child];
    assert WellFormed(Step(w, Running(below, f, t))) by {
      StepWellFormed(w, Running(below, f, t));
    }
    assert Walk(w, f.depth + 1, child.dir, t0) == Entries(w, child.depth, child.dir, child.rest, t0);
  }

  lemma ClosesOnPost(w: World, below: seq<Frame>, after: Frame, child: Frame, t: seq<Event>, stop: bool)
    requires WellFormed(Machine(below + [after, child], t, Done(stop))) && child.depth > 0
    ensures var t2 := t + [PostOf(child)];
            WellFormed(Outcome(below + [after], child, t, Done(stop))) &&
            Iter(w, Outcome(below + [after], child, t, Done(stop)), 1) ==
            if stop || w.visitor(t2) == Terminate
            then Machine(Drained(below) + [Emptied(after)], t2, Done(true)) else Running(below, after, t2)
  {
    DrainedSnoc(below, after);
    DrainedSnoc(Drained(below), Emptied(after));
    var m := Outcome(below + [after], child, t, Done(stop));
    var open := if stop then Drained(below + [after]) else below + [after];
    assert m.stack[..|m.stack| - 1] == open && m.stack[|m.stack| - 1] == Emptied(child);
    assert WellFormed(m) by {
      assert (below + [after, child])[|below|] == after && (below + [after, child])[|below| + 1] == child;
      assert forall i :: 0 <= i < |below| ==> (below + [after, child])[i] == below[i];
    }
    assert Iter(w, m, 1) == Step(w, m);
  }

  function Start(w: World, start: string, base: string): Machine
  {
    var t := [StartEvent(start, base)];
    match w.list(start)
    case None => Halted(t)
    case Some(entries) => Running([], Frame(start, base, 1, entries), t)
  }

  /** The callback trace and the result of a whole walk are those of the machine. */
  lemma WalkIsReference(w: World, start: string, base: string) returns (n: nat)
    ensures var (t, r) := Walk(w, 1, start, [StartEvent(start, base)]);
            Iter(w, Start(w, start, base), n) == Machine([], t, r)
  {
    n := 0;
    if w.list(start).Some? {
      hide Entries, Step, Outcome;
      var m := Start(w, start, base);
      var f := m.stack[0];
      n := Simulates(w, [], f, m.trace);
      IterAdd(w, m, n, 1);
      n := n + 1;
      var (t, r) := Walk(w, 1, start, m.trace);
      ClosesStart(w, f, t, r);
    }
  }

  lemma ClosesStart(w: World, f: Frame, t: seq<Event>, r: Result)
    requires f.depth > 0
    ensures WellFormed(Outcome([], f, t, r)) && Iter(w, Outcome([], f, t, r), 1) == Machine([], t, r)
  {
    hide Enter, Report;
    assert Drained([]) == [];
    assert r.Done? ==> Iter(w, Outcome([], f, t, r), 1) == Step(w, Outcome([], f, t, r));
  }
}
