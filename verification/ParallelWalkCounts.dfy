// How many directories of a tree have directories below them that the walk goes into, and how many
// have none; and that what is pending never has more of either than the tree.
module ParallelWalkCounts {
  import opened ParallelWalk
  import opened ParallelWalkProofs

  /** Directories with directories below them that are not excluded, among t and those below. */
  function Inner(f: Filter, t: Task): nat
    decreases t.entries, 1
  {
    (if Dirs(f, t) > 0 then 1 else 0) + InnerBelow(f, t)
  }

  function InnerBelow(f: Filter, t: Task): nat
    decreases t.entries, 0
  {
    if t.entries == [] then 0
    else InnerEntry(f, t.path, t.entries[0]) + InnerBelow(f, Task(t.path, t.entries[1..]))
  }

  function InnerEntry(f: Filter, base: Path, e: Entry): nat
    decreases e, 2
  {
    if e.File? || f.excluded(base + [e.name]) then 0 else Inner(f, Task(base + [e.name], e.entries))
  }

  /** Directories without. */
  function Leaves(f: Filter, t: Task): nat
    decreases t.entries, 1
  {
    if Dirs(f, t) == 0 then 1 else LeavesBelow(f, t)
  }

  function LeavesBelow(f: Filter, t: Task): nat
    decreases t.entries, 0
  {
    if t.entries == [] then 0
    else LeavesEntry(f, t.path, t.entries[0]) + LeavesBelow(f, Task(t.path, t.entries[1..]))
  }

  function LeavesEntry(f: Filter, base: Path, e: Entry): nat
    decreases e, 2
  {
    if e.File? || f.excluded(base + [e.name]) then 0 else Leaves(f, Task(base + [e.name], e.entries))
  }

  /** A directory is one or the other. */
  lemma {:induction false} InnerOrLeaf(f: Filter, t: Task)
    ensures Inner(f, t) + Leaves(f, t) == Dirs(f, t) + 1
    ensures InnerBelow(f, t) + LeavesBelow(f, t) == Dirs(f, t)
    decreases t.entries
  {
    if t.entries != [] {
      var e := t.entries[0];
      if e.Dir? { InnerOrLeaf(f, Task(t.path + [e.name], e.entries)); }
      InnerOrLeaf(f, Task(t.path, t.entries[1..]));
    }
  }

  /** Leaves that are or may still become pending; a directory in a worker's hands no longer is one. */
  function LeafGauge(f: Filter): Gauge
  {
    Gauge((t: Task) => Leaves(f, t), (t: Task) => LeavesBelow(f, t), 0, 0, 0, 0)
  }

  lemma FirstEntry(f: Filter, t: Task)
    requires t.entries != []
    ensures Dirs(f, t) == DirsEntry(f, t.path, t.entries[0]) + Dirs(f, Rest(t))
    ensures InnerBelow(f, t) == InnerEntry(f, t.path, t.entries[0]) + InnerBelow(f, Rest(t))
    ensures LeavesBelow(f, t) == LeavesEntry(f, t.path, t.entries[0]) + LeavesBelow(f, Rest(t))
  {}

  lemma {:induction false} LeafExists(f: Filter, t: Task)
    ensures Leaves(f, t) >= 1
    decreases t.entries
  {
    if t.entries != [] {
      var e := t.entries[0];
      FirstEntry(f, t);
      if e.Dir? { LeafExists(f, Task(t.path + [e.name], e.entries)); }
      LeafExists(f, Rest(t));
    }
  }

  lemma NoEntries(f: Filter, base: Path)
    ensures Dirs(f, Task(base, [])) == InnerBelow(f, Task(base, [])) == LeavesBelow(f, Task(base, [])) == 0
  {}

  lemma LeavesAtLeastBelow(f: Filter, t: Task)
    ensures LeavesBelow(f, t) <= Leaves(f, t)
  {
    if Dirs(f, t) == 0 { InnerOrLeaf(f, t); }
  }

  lemma StepLeaves(c: Walk, s: State, l: Step)
    requires Counted(c, s) && Enabled(c, s, l)
    ensures LeafGauge(c.f).Total(c, Next(c, s, l)) <= LeafGauge(c.f).Total(c, s)
  {
    hide Sum, Leaves, LeavesBelow, Next;
    StepDelta(LeafGauge(c.f), c, s, l);
    if l.VisitFile? || l.SkipDir? || l.AddDir? {
      FirstEntry(c.f, s.workers[l.w].task);
    } else if l.Take? {
      LeavesAtLeastBelow(c.f, s.queue[0]);
    } else if l.TakeFails? {
      NoEntries(c.f, s.queue[0].path);
    }
  }

  // ---------------------------------------------------------------------------
  // Directories with directories
  // ---------------------------------------------------------------------------

  /** A worker that is sending a child holds one, though it may have looked at all its entries. */
  function InnerOf(f: Filter, w: Worker): int
  {
    match w
    case Idle => 0
    case Busy(t) => Inner(f, t)
    case Sending(child, own) => Inner(f, child) + 1 + InnerBelow(f, own)
    case Exited => 0
  }

  function InnerTotal(c: Walk, s: State): int
  {
    (if s.rootPending then Inner(c.f, c.RootTask()) else 0) + Sum((t: Task) => Inner(c.f, t), s.queue) +
    Sum((w: Worker) => InnerOf(c.f, w), s.workers)
  }

  lemma WorkerInner(f: Filter, s: State, t: State, w: nat)
    requires w < |s.workers| == |t.workers| && t.workers == s.workers[w := t.workers[w]]
    ensures Sum((x: Worker) => InnerOf(f, x), t.workers) ==
            Sum((x: Worker) => InnerOf(f, x), s.workers) - InnerOf(f, s.workers[w]) + InnerOf(f, t.workers[w])
  {
    SumUpdate((x: Worker) => InnerOf(f, x), s.workers, w, t.workers[w]);
  }

  /** The entry a worker looks at next, left behind or sent. */
  lemma EntryInner(c: Walk, s: State, l: Step)
    requires Enabled(c, s, l) && (l.VisitFile? || l.SkipDir? || l.AddDir?)
    ensures InnerOf(c.f, Next(c, s, l).workers[l.w]) <= InnerOf(c.f, s.workers[l.w])
  {
    FirstEntry(c.f, s.workers[l.w].task);
  }

  lemma QueueInner(c: Walk, s: State, l: Step)
    requires Enabled(c, s, l) && (l.Take? || l.TakeFails? || l.SendDir? || l.SendRoot?)
    ensures InnerTotal(c, Next(c, s, l)) <= InnerTotal(c, s)
  {
    hide Sum, Inner, InnerBelow;
    var g, t := (x: Task) => Inner(c.f, x), Next(c, s, l);
    if !l.SendRoot? { WorkerInner(c.f, s, t, l.w); }
    match l
    case SendRoot => SumAppend(g, s.queue, c.RootTask());
    case SendDir(w) =>
      SumAppend(g, s.queue, s.workers[w].child);
      InnerIs(c.f, s.workers[w].own);
    case Take(w) => SumFirst(g, s.queue);
    case TakeFails(w) =>
      SumFirst(g, s.queue);
      NoEntries(c.f, s.queue[0].path);
      InnerIs(c.f, Task(s.queue[0].path, []));
  }

  lemma InnerIs(f: Filter, t: Task)
    ensures Inner(f, t) == (if Dirs(f, t) > 0 then 1 else 0) + InnerBelow(f, t)
  {}

  lemma StepInner(c: Walk, s: State, l: Step)
    requires Counted(c, s) && Enabled(c, s, l)
    ensures InnerTotal(c, Next(c, s, l)) <= InnerTotal(c, s)
  {
    hide Sum, Inner, InnerBelow;
    var t := Next(c, s, l);
    match l {
      case SendRoot => QueueInner(c, s, l);
      case Take(w) => QueueInner(c, s, l);
      case TakeFails(w) => QueueInner(c, s, l);
      case SendDir(w) => QueueInner(c, s, l);
      case VisitFile(w, _) => WorkerInner(c.f, s, t, w); EntryInner(c, s, l);
      case SkipDir(w) => WorkerInner(c.f, s, t, w); EntryInner(c, s, l);
      case AddDir(w) => WorkerInner(c.f, s, t, w); EntryInner(c, s, l);
      case DropDir(w) => WorkerInner(c.f, s, t, w); InnerIs(c.f, s.workers[w].own);
      case Finish(w) => WorkerInner(c.f, s, t, w);
      case Exit(w) => WorkerInner(c.f, s, t, w);
      case Quit(w) => WorkerInner(c.f, s, t, w);
      case _ =>
    }
  }

  /** No state has more pending than the tree. */
  lemma {:induction false} RunCounts(c: Walk, run: seq<State>, steps: seq<Step>, i: nat)
    requires Run(c, run, steps) && i <= |steps|
    ensures LeafGauge(c.f).Total(c, run[i]) <= Leaves(c.f, c.RootTask())
    ensures InnerTotal(c, run[i]) <= Inner(c.f, c.RootTask())
  {
    if i == 0 {
      SumConstant((w: Worker) => LeafGauge(c.f).OfWorker(w), run[0].workers, 0);
      SumConstant((w: Worker) => InnerOf(c.f, w), run[0].workers, 0);
    } else {
      RunCounts(c, run, steps, i - 1);
      RunHolds(c, [], run, steps, i - 1);
      StepLeaves(c, run[i - 1], steps[i - 1]);
      StepInner(c, run[i - 1], steps[i - 1]);
    }
  }

  /** All workers blocked on a full channel: each holds a directory with directories, and each
      directory that is queued or being sent has a leaf. */
  lemma FullPool(c: Walk, s: State)
    requires |s.workers| == c.pool && forall w :: w in s.workers ==> w.Sending?
    requires |s.queue| >= c.cap && !(s.rootPending && s.rootDropped)
    ensures InnerTotal(c, s) >= c.pool && LeafGauge(c.f).Total(c, s) >= c.cap + c.pool
  {
    SumBound((t: Task) => Inner(c.f, t), s.queue, 0);
    SumBound((w: Worker) => InnerOf(c.f, w), s.workers, 1);
    forall t: Task ensures Leaves(c.f, t) >= 1 { LeafExists(c.f, t); }
    SumBound(LeafGauge(c.f).queued, s.queue, 1);
    SumBound((w: Worker) => LeafGauge(c.f).OfWorker(w), s.workers, 1);
  }
}
