// The parallel directory walk of plugins/glob/walker.go (Walk): a pool of workers shares a
// bounded channel of directories, a wait group counts the pending ones, and a closer closes
// the channel when the count reaches zero. Every interleaving is a run of Next.
module ParallelWalk {
  type Path = seq<string>

  datatype Entry = File(name: string) | Dir(name: string, entries: seq<Entry>)

  /** What the include and exclude trees answer for a token list. */
  datatype Filter = Filter(included: Path -> bool, excluded: Path -> bool)

  /** A directory with the entries that still have to be looked at. */
  datatype Task = Task(path: Path, entries: seq<Entry>)

  datatype Worker =
    | Idle                            // at the select
    | Busy(task: Task)                // in the loop over the entries
    | Sending(child: Task, own: Task) // after Add(1), at the inner select
    | Exited

  datatype Closer = Waiting | Released | Closed

  datatype State = State(
    rootPending: bool,          // the root goroutine has not sent yet
    rootDropped: bool,          // it gave up because of a cancellation
    queue: seq<Task>,           // workCh
    workers: seq<Worker>,
    counter: int,               // taskWG
    closer: Closer,
    cancelled: bool,
    emitted: seq<Path>,         // the calls of onFile
    abandoned: seq<Task>)       // history: directories given up after a cancellation or error

  /** The directory tree, the filter, the channel's capacity and the size of the pool. */
  datatype Walk = Walk(f: Filter, root: seq<Entry>, cap: nat, pool: nat)
  {
    function RootTask(): Task { Task([], root) }
  }

  datatype Step =
    | SendRoot | DropRoot
    | Take(w: nat) | TakeFails(w: nat)
    | VisitFile(w: nat, fails: bool) | SkipDir(w: nat) | AddDir(w: nat)
    | SendDir(w: nat) | DropDir(w: nat) | Finish(w: nat)
    | Release | Close
    | Exit(w: nat) | Quit(w: nat)
    | Cancel

  function Init(c: Walk): State
  {
    State(true, false, [], seq(c.pool, _ => Idle), 1, Waiting, false, [], [])
  }

  predicate Enabled(c: Walk, s: State, l: Step)
  {
    match l
    case SendRoot => s.rootPending && |s.queue| < c.cap
    case DropRoot => s.rootPending && s.cancelled
    case Take(w) => w < |s.workers| && s.workers[w].Idle? && |s.queue| > 0
    case TakeFails(w) => w < |s.workers| && s.workers[w].Idle? && |s.queue| > 0
    case VisitFile(w, _) => AtEntry(s, w) && s.workers[w].task.entries[0].File?
    case SkipDir(w) => AtEntry(s, w) && s.workers[w].task.entries[0].Dir? && c.f.excluded(EntryPath(s, w))
    case AddDir(w) => AtEntry(s, w) && s.workers[w].task.entries[0].Dir? && !c.f.excluded(EntryPath(s, w))
    case SendDir(w) => w < |s.workers| && s.workers[w].Sending? && |s.queue| < c.cap
    case DropDir(w) => w < |s.workers| && s.workers[w].Sending? && s.cancelled
    case Finish(w) => w < |s.workers| && s.workers[w].Busy? && s.workers[w].task.entries == []
    case Release => s.closer == Waiting && s.counter == 0
    case Close => s.closer == Released
    case Exit(w) => w < |s.workers| && s.workers[w].Idle? && s.closer == Closed && s.queue == []
    case Quit(w) => w < |s.workers| && s.workers[w].Idle? && s.cancelled
    case Cancel => !s.cancelled
  }

  predicate AtEntry(s: State, w: nat)
  {
    w < |s.workers| && s.workers[w].Busy? && |s.workers[w].task.entries| > 0
  }

  function EntryPath(s: State, w: nat): Path
    requires AtEntry(s, w)
  {
    s.workers[w].task.path + [s.workers[w].task.entries[0].name]
  }

  function Rest(t: Task): Task
    requires |t.entries| > 0
  {
    Task(t.path, t.entries[1..])
  }

  function Next(c: Walk, s: State, l: Step): State
    requires Enabled(c, s, l)
  {
    match l
    case SendRoot => s.(rootPending := false, queue := s.queue + [c.RootTask()])
    case DropRoot =>
      s.(rootPending := false, rootDropped := true, abandoned := s.abandoned + [c.RootTask()])
    case Take(w) => s.(queue := s.queue[1..], workers := s.workers[w := Busy(s.queue[0])])
    case TakeFails(w) => // ReadDir failed: setErr, then the task is done without entries
      s.(queue := s.queue[1..], workers := s.workers[w := Busy(Task(s.queue[0].path, []))], cancelled := true,
         abandoned := s.abandoned + [s.queue[0]])
    case VisitFile(w, fails) =>
      var p := EntryPath(s, w);
      var call := !c.f.excluded(p) && c.f.included(p);
      s.(workers := s.workers[w := Busy(Rest(s.workers[w].task))],
         emitted := if call then s.emitted + [p] else s.emitted,
         cancelled := s.cancelled || (call && fails))
    case SkipDir(w) => s.(workers := s.workers[w := Busy(Rest(s.workers[w].task))])
    case AddDir(w) =>
      var t := s.workers[w].task;
      s.(counter := s.counter + 1,
         workers := s.workers[w := Sending(Task(EntryPath(s, w), t.entries[0].entries), Rest(t))])
    case SendDir(w) =>
      s.(queue := s.queue + [s.workers[w].child], workers := s.workers[w := Busy(s.workers[w].own)])
    case DropDir(w) =>
      s.(counter := s.counter - 1, workers := s.workers[w := Busy(s.workers[w].own)],
         abandoned := s.abandoned + [s.workers[w].child])
    case Finish(w) => s.(counter := s.counter - 1, workers := s.workers[w := Idle])
    case Release => s.(closer := Released)
    case Close => s.(closer := Closed)
    case Exit(w) => s.(workers := s.workers[w := Exited])
    case Quit(w) => s.(workers := s.workers[w := Exited])
    case Cancel => s.(cancelled := true)
  }

  /** A run: a start in Init and one enabled step after the other. */
  ghost predicate Run(c: Walk, run: seq<State>, steps: seq<Step>)
  {
    && |run| == |steps| + 1 && run[0] == Init(c)
    && forall i :: 0 <= i < |steps| ==> Enabled(c, run[i], steps[i]) && run[i + 1] == Next(c, run[i], steps[i])
  }

  // ---------------------------------------------------------------------------
  // What a walk should deliver
  // ---------------------------------------------------------------------------

  /** How often q is to be reported below a directory: matched and not excluded, with
      excluded directories cut off. */
  function Due(f: Filter, t: Task, q: Path): nat
    decreases t.entries
  {
    if t.entries == [] then 0
    else DueEntry(f, t.path, t.entries[0], q) + Due(f, Task(t.path, t.entries[1..]), q)
  }

  function DueEntry(f: Filter, base: Path, e: Entry, q: Path): nat
    decreases e
  {
    var p := base + [e.name];
    if f.excluded(p) then 0
    else if e.File? then (if f.included(p) && p == q then 1 else 0)
    else Due(f, Task(p, e.entries), q)
  }

  /** p leads through directories to a file. */
  ghost predicate HasFile(entries: seq<Entry>, p: Path)
    decreases |p|
  {
    if |p| == 0 then false
    else if |p| == 1 then File(p[0]) in entries
    else exists k :: 0 <= k < |entries| && entries[k].Dir? && entries[k].name == p[0] && HasFile(entries[k].entries, p[1..])
  }

  /** Sibling names are distinct, as in any file system. */
  ghost predicate DistinctNames(entries: seq<Entry>)
  {
    && (forall i, j :: 0 <= i < j < |entries| ==> entries[i].name != entries[j].name)
    && (forall k :: 0 <= k < |entries| && entries[k].Dir? ==> DistinctNames(entries[k].entries))
  }

  /** The file matches the patterns and no directory above it is excluded. */
  ghost predicate Selected(f: Filter, base: Path, p: Path)
  {
    && f.included(base + p)
    && forall k :: 0 < k <= |p| ==> !f.excluded(base + p[..k])
  }

  /** Exactly the selected files are due, each once. */
  lemma {:induction false} DueExact(f: Filter, base: Path, entries: seq<Entry>, q: Path)
    requires DistinctNames(entries)
    ensures Due(f, Task(base, entries), q) ==
      if base < q && HasFile(entries, q[|base|..]) && Selected(f, base, q[|base|..]) then 1 else 0
    decreases entries
  {
    if entries != [] {
      var e, rest := entries[0], entries[1..];
      assert DistinctNames(rest) by {
        assert forall k :: 0 <= k < |rest| ==> rest[k] == entries[k + 1];
      }
      DueExact(f, base, rest, q);
      DueEntryExact(f, base, e, q);
      if base < q {
        var p := q[|base|..];
        HasFileSplit(entries, p);
        if p[0] == e.name {
          NoSuchName(rest, p);
        }
      }
    } else if base < q {
      assert !HasFile(entries, q[|base|..]);
    }
  }

  lemma {:induction false} DueEntryExact(f: Filter, base: Path, e: Entry, q: Path)
    requires DistinctNames([e])
    ensures DueEntry(f, base, e, q) ==
      if base < q && HasFile([e], q[|base|..]) && Selected(f, base, q[|base|..]) then 1 else 0
    decreases e
  {
    var at := base + [e.name];
    if base < q {
      var p := q[|base|..];
      assert base + p == q && base + p[..|p|] == q;
      if p[0] == e.name {
        assert base + p[..1] == at;
        if |p| == 1 { assert q == at; }
      }
      if e.Dir? && |p| > 1 && p[0] == e.name {
        assert at < q && q[|at|..] == p[1..];
        assert Selected(f, base, p) <==> !f.excluded(at) && Selected(f, at, p[1..]) by { SelectedBelow(f, base, p); }
      }
    }
    if e.Dir? {
      assert DistinctNames([e][0].entries);
      DueExact(f, at, e.entries, q);
      if at < q {
        assert base < q && q[|base|] == e.name;
      }
    }
  }

  lemma SelectedBelow(f: Filter, base: Path, p: Path)
    requires |p| > 1
    ensures Selected(f, base, p) <==> !f.excluded(base + [p[0]]) && Selected(f, base + [p[0]], p[1..])
  {
    var at := base + [p[0]];
    assert at + p[1..] == base + p;
    assert base + p[..1] == at;
    assert forall k :: 0 < k <= |p| - 1 ==> at + p[1..][..k] == base + p[..k + 1];
    if Selected(f, at, p[1..]) && !f.excluded(at) {
      forall k | 0 < k <= |p| ensures !f.excluded(base + p[..k]) {
        if k > 1 { assert at + p[1..][..k - 1] == base + p[..k]; }
      }
    }
  }

  lemma HasFileSplit(entries: seq<Entry>, p: Path)
    requires |entries| > 0 && |p| > 0
    ensures HasFile(entries, p) <==> HasFile([entries[0]], p) || HasFile(entries[1..], p)
  {
    var e, rest := entries[0], entries[1..];
    assert entries == [e] + rest;
    if |p| > 1 {
      if HasFile(entries, p) {
        var k :| 0 <= k < |entries| && entries[k].Dir? && entries[k].name == p[0] && HasFile(entries[k].entries, p[1..]);
        assert k > 0 ==> rest[k - 1] == entries[k];
        assert k == 0 ==> [e][0] == entries[k];
      }
      if HasFile(rest, p) {
        var k :| 0 <= k < |rest| && rest[k].Dir? && rest[k].name == p[0] && HasFile(rest[k].entries, p[1..]);
        assert entries[k + 1] == rest[k];
      }
    }
  }

  lemma NoSuchName(entries: seq<Entry>, p: Path)
    requires |p| > 0 && forall k :: 0 <= k < |entries| ==> entries[k].name != p[0]
    ensures !HasFile(entries, p)
  {
  }
}
