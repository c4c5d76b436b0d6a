/** find_files: what the walk does with a directory, as a recursive description of its callback trace. */
module FileWalk {
  import opened Prelude

  type Name = s: string | s != "" witness "a"

  datatype DType = DtUnknown | DtDir | DtReg | DtLnk | DtOther

  datatype Entry = Entry(name: Name, dtype: DType)

  datatype Stat = StatFailed | StatDir | StatReg | StatOther

  datatype Kind = PostVisit | PreVisit | VisitFile | VisitFailed

  datatype Event = Event(path: string, name: string, depth: nat, dtype: DType, kind: Kind)

  datatype Answer = Continue | Terminate | SkipSubtree | SkipSiblings

  /**
   * The file system as opendir/readdir and stat show it, any callback (its answer may depend on all it has seen, the
   * current event being the last one), and the walker's settings. Links may make the tree of paths infinite.
   */
  datatype World = World(
    list: string -> Option<seq<Entry>>,
    stat: string -> Stat,
    visitor: seq<Event> -> Answer,
    separator: char,
    maxdepth: int,
    followLinks: bool)

  const PATH_MAX := 2048
  const PATH_SEPARATOR := '/'

  /** What a walk returns, or the exception for a directory that does not open or a path that does not fit. */
  datatype Result = Done(stop: bool) | Thrown

  function Join(w: World, dir: string, name: string): string {
    if dir != "" && (dir[|dir| - 1] == PATH_SEPARATOR || dir[|dir| - 1] == w.separator)
    then dir + name else dir + [w.separator] + name
  }

  /** What the walk makes of an entry. */
  datatype Class = Ignored | Failed | Directory | File(dtype: DType)

  function Classify(w: World, e: Entry, path: string): Class {
    if e.dtype == DtUnknown || (e.dtype == DtLnk && w.followLinks) then
      match w.stat(path)
      case StatFailed => Failed
      case StatDir => Directory
      case StatReg => File(DtReg)
      case StatOther => Ignored
    else if e.dtype == DtDir then Directory
    else File(e.dtype)
  }

  predicate IsDots(e: Entry) {
    e.name == "." || e.name == ".."
  }

  function Room(dir: string): nat {
    if |dir| < PATH_MAX then PATH_MAX - |dir| else 0
  }

  /** The trace and result of walk_file_tree(depth, dir, callback) after the callbacks of t. */
  function Walk(w: World, depth: nat, dir: string, t: seq<Event>): (seq<Event>, Result)
    decreases Room(dir), 1, 0, 0
  {
    match w.list(dir)
    case None => (t, Thrown)
    case Some(entries) => Entries(w, depth, dir, entries, t)
  }

  /** The same for the entries that readdir has not delivered yet. */
  function Entries(w: World, depth: nat, dir: string, entries: seq<Entry>, t: seq<Event>): (seq<Event>, Result)
    decreases Room(dir), 0, |entries|, 0
  {
    if entries == [] then (t, Done(false))
    else
      var e, rest := entries[0], entries[1..];
      var path := Join(w, dir, e.name);
      if IsDots(e) then Entries(w, depth, dir, rest, t)
      else if |path| >= PATH_MAX then (t, Thrown)
      else
        match Classify(w, e, path)
        case Ignored => Entries(w, depth, dir, rest, t)
        case Failed => Leaf(w, depth, dir, rest, t + [Event(path, e.name, depth, e.dtype, VisitFailed)])
        case File(dtype) => Leaf(w, depth, dir, rest, t + [Event(path, e.name, depth, dtype, VisitFile)])
        case Directory =>
          if depth >= w.maxdepth then Entries(w, depth, dir, rest, t)
          else
            var t0 := t + [Event(path, e.name, depth, DtDir, PreVisit)];
            match w.visitor(t0)
            case Terminate => (t0, Done(true))
            case SkipSubtree => Entries(w, depth, dir, rest, t0)
            case SkipSiblings => (t0, Done(false))
            case Continue =>
              var (t1, r) := Walk(w, depth + 1, path, t0);
              if r.Thrown? then (t1, r)
              else
                var t2 := t1 + [Event(path, e.name, depth, DtDir, PostVisit)];
                if r.stop || w.visitor(t2) == Terminate then (t2, Done(true))
                else Entries(w, depth, dir, rest, t2)
  }

  /** After a file or failed entry has been reported. */
  function Leaf(w: World, depth: nat, dir: string, rest: seq<Entry>, t: seq<Event>): (seq<Event>, Result)
    decreases Room(dir), 0, |rest|, 1
  {
    match w.visitor(t)
    case Terminate => (t, Done(true))
    case SkipSiblings => (t, Done(false))
    case _ => Entries(w, depth, dir, rest, t)
  }

  function StartEvent(start: string, base: string): Event {
    Event(start, base, 0, DtDir, PreVisit)
  }

  /** The walker itself, with the loop over readdir and the flags the source uses. */
  class FindFiles {
    const w: World
    var trace: seq<Event>

    constructor (w: World)
      ensures this.w == w && trace == []
    {
      this.w := w;
      trace := [];
    }

    method Callback(path: string, name: string, depth: nat, dtype: DType, kind: Kind) returns (vr: Answer)
      modifies this
      ensures trace == old(trace) + [Event(path, name, depth, dtype, kind)] && vr == w.visitor(trace)
    {
      trace := trace + [Event(path, name, depth, dtype, kind)];
      vr := w.visitor(trace);
    }

    /** The core API: the answer about the start directory is not looked at. */
    method WalkFileTree(start: string, base: string) returns (r: Result)
      modifies this
      ensures (trace, r) == Walk(w, 1, start, old(trace) + [StartEvent(start, base)])
    {
      var vr := Callback(start, base, 0, DtDir, PreVisit);
      r := WalkDir(1, start);
    }

    method WalkDir(depth: nat, startDir: string) returns (r: Result)
      requires depth >= 1
      modifies this
      ensures (trace, r) == Walk(w, depth, startDir, old(trace))
      decreases Room(startDir), 1
    {
      var d := w.list(startDir);
      if d == None {
        return Thrown;
      }
      var dir := d.value;
      var k := 0;
      var skipSibs := 0;
      var stop := false;
      while !stop && k < |dir|
        invariant 0 <= k <= |dir|
        invariant skipSibs == depth || skipSibs == 0
        invariant stop ==> skipSibs == 0
        invariant Walk(w, depth, startDir, old(trace)) ==
                  if stop || skipSibs == depth then (trace, Done(stop))
                  else Entries(w, depth, startDir, dir[k..], trace)
      {
        var e := dir[k];
        assert dir[k..][1..] == dir[k + 1..];
        k := k + 1;
        if depth == skipSibs || IsDots(e) {
          continue;
        }
        var path := Join(w, startDir, e.name);
        if |path| >= PATH_MAX {
          return Thrown;
        }
        match Classify(w, e, path)
        case Ignored => {}
        case Failed =>
          var vr := Callback(path, e.name, depth, e.dtype, VisitFailed);
          if vr == Terminate {
            stop := true;
          } else if vr == SkipSiblings {
            skipSibs := depth;
          }
        case File(dtype) =>
          stop, skipSibs := ReportFile(depth, skipSibs, path, e.name, dtype);
        case Directory =>
          if depth < w.maxdepth {
            var s;
            s, skipSibs := VisitDir(depth, skipSibs, path, e.name);
            if s == Thrown {
              return Thrown;
            }
            stop := s.stop;
          }
      }
      r := Done(stop);
    }

    method VisitDir(depth: nat, skip: nat, path: string, name: string) returns (r: Result, skipSibs: nat)
      requires depth >= 1
      modifies this
      ensures var t0 := old(trace) + [Event(path, name, depth, DtDir, PreVisit)];
        match w.visitor(t0)
        case Terminate => trace == t0 && r == Done(true) && skipSibs == skip
        case SkipSubtree => trace == t0 && r == Done(false) && skipSibs == skip
        case SkipSiblings => trace == t0 && r == Done(false) && skipSibs == depth
        case Continue =>
          var (t1, r1) := Walk(w, depth + 1, path, t0);
          var t2 := t1 + [Event(path, name, depth, DtDir, PostVisit)];
          && skipSibs == skip
          && if r1.Thrown? then trace == t1 && r == Thrown
             else trace == t2 && r == Done(r1.stop || w.visitor(t2) == Terminate)
      decreases Room(path), 2
    {
      skipSibs := skip;
      var vr := Callback(path, name, depth, DtDir, PreVisit);
      match vr
      case Terminate => r := Done(true);
      case SkipSubtree => r := Done(false);
      case SkipSiblings =>
        r := Done(false);
        skipSibs := depth;
      case Continue =>
        r := WalkDir(depth + 1, path);
        if r.Done? {
          vr := Callback(path, name, depth, DtDir, PostVisit);
          if vr == Terminate {
            r := Done(true);
          }
        }
    }

    method ReportFile(depth: nat, skip: nat, path: string, name: string, dtype: DType)
        returns (stop: bool, skipSibs: nat)
      modifies this
      ensures trace == old(trace) + [Event(path, name, depth, dtype, VisitFile)]
      ensures stop == (w.visitor(trace) == Terminate)
      ensures skipSibs == if w.visitor(trace) == SkipSiblings then depth else skip
    {
      stop, skipSibs := false, skip;
      var vr := Callback(path, name, depth, dtype, VisitFile);
      match vr
      case Terminate => stop := true;
      case SkipSiblings => skipSibs := depth;
      case _ =>
    }
  }
}
