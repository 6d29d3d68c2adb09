// Invariants over every run of the parallel walk: the wait-group count, conservation of the
// files to report, termination, and when no interleaving can get stuck.
module ParallelWalkProofs {
  import opened ParallelWalk

  // ---------------------------------------------------------------------------
  // Gauges: quantities summed over everything that is pending
  // ---------------------------------------------------------------------------

  /** What a directory counts for while queued and while in a worker's hands, and the
      constants for the other places; the worker states are weighed accordingly. */
  datatype Gauge = Gauge(queued: Task -> int, busy: Task -> int, idle: int, sending: int, rootUnsent: int, rootDropped: int)
  {
    function OfWorker(w: Worker): int
    {
      match w
      case Idle => idle
      case Busy(t) => busy(t)
      case Sending(child, own) => queued(child) + busy(own) + sending
      case Exited => 0
    }

    function OfRoot(c: Walk, s: State): int
    {
      if s.rootPending then queued(c.RootTask()) + rootUnsent else if s.rootDropped then rootDropped else 0
    }

    function Total(c: Walk, s: State): int
    {
      OfRoot(c, s) + Sum(queued, s.queue) + Sum((w: Worker) => OfWorker(w), s.workers)
    }

    /** What one step adds to the total. */
    function Delta(c: Walk, s: State, l: Step): int
      requires Enabled(c, s, l)
    {
      match l
      case SendRoot => -rootUnsent
      case DropRoot => rootDropped - queued(c.RootTask()) - rootUnsent
      case Take(w) => busy(s.queue[0]) - queued(s.queue[0]) - idle
      case TakeFails(w) => busy(Task(s.queue[0].path, [])) - queued(s.queue[0]) - idle
      case VisitFile(w, _) => busy(Rest(s.workers[w].task)) - busy(s.workers[w].task)
      case SkipDir(w) => busy(Rest(s.workers[w].task)) - busy(s.workers[w].task)
      case AddDir(w) =>
        queued(Task(EntryPath(s, w), s.workers[w].task.entries[0].entries)) + sending
        + busy(Rest(s.workers[w].task)) - busy(s.workers[w].task)
      case SendDir(w) => -sending
      case DropDir(w) => -queued(s.workers[w].child) - sending
      case Finish(w) => idle - busy(s.workers[w].task)
      case Exit(w) => -idle
      case Quit(w) => -idle
      case Release => 0
      case Close => 0
      case Cancel => 0
    }
  }

  function Sum<T>(g: T -> int, xs: seq<T>): int
  {
    if xs == [] then 0 else g(xs[0]) + Sum(g, xs[1..])
  }

  lemma SumFirst<T>(g: T -> int, xs: seq<T>)
    requires xs != []
    ensures Sum(g, xs) == g(xs[0]) + Sum(g, xs[1..])
  {}

  lemma {:induction false} SumAppend<T>(g: T -> int, xs: seq<T>, x: T)
    ensures Sum(g, xs + [x]) == Sum(g, xs) + g(x)
  {
    if xs == [] {
      assert (xs + [x])[1..] == [];
    } else {
      SumAppend(g, xs[1..], x);
      assert (xs + [x])[1..] == xs[1..] + [x];
    }
  }

  lemma {:induction false} SumUpdate<T>(g: T -> int, xs: seq<T>, i: nat, x: T)
    requires i < |xs|
    ensures Sum(g, xs[i := x]) == Sum(g, xs) - g(xs[i]) + g(x)
  {
    if i == 0 {
      assert xs[0 := x][1..] == xs[1..];
    } else {
      SumUpdate(g, xs[1..], i - 1, x);
      assert xs[i := x][1..] == xs[1..][i - 1 := x];
    }
  }

  /** With a lower bound on every part, one part more than the bound shows in the sum. */
  lemma {:induction false} SumAtLeast<T>(g: T -> int, xs: seq<T>, low: int, i: nat)
    requires i < |xs| && forall x :: x in xs ==> g(x) >= low
    ensures Sum(g, xs) >= g(xs[i]) + low * (|xs| - 1)
  {
    SumBound(g, xs[1..], low);
    if i > 0 {
      SumAtLeast(g, xs[1..], low, i - 1);
    }
  }

  lemma {:induction false} SumBound<T>(g: T -> int, xs: seq<T>, low: int)
    requires forall x :: x in xs ==> g(x) >= low
    ensures Sum(g, xs) >= low * |xs|
  {
    if xs != [] { SumBound(g, xs[1..], low); }
  }

  lemma {:induction false} SumConstant<T>(g: T -> int, xs: seq<T>, v: int)
    requires forall x :: x in xs ==> g(x) == v
    ensures Sum(g, xs) == v * |xs|
  {
    if xs != [] { SumConstant(g, xs[1..], v); }
  }

  /** Every gauge changes by its delta. */
  lemma StepDelta(g: Gauge, c: Walk, s: State, l: Step)
    requires Enabled(c, s, l) && (s.rootPending ==> !s.rootDropped)
    ensures g.Total(c, Next(c, s, l)) == g.Total(c, s) + g.Delta(c, s, l)
  {
    hide Sum;
    var t := Next(c, s, l);
    match l {
      case SendRoot => SumAppend(g.queued, s.queue, c.RootTask());
      case DropRoot =>
      case Take(w) => WorkerDelta(g, s, t, w); SumFirst(g.queued, s.queue);
      case TakeFails(w) => WorkerDelta(g, s, t, w); SumFirst(g.queued, s.queue);
      case VisitFile(w, _) => WorkerDelta(g, s, t, w);
      case SkipDir(w) => WorkerDelta(g, s, t, w);
      case AddDir(w) => WorkerDelta(g, s, t, w);
      case SendDir(w) => WorkerDelta(g, s, t, w); SumAppend(g.queued, s.queue, s.workers[w].child);
      case DropDir(w) => WorkerDelta(g, s, t, w);
      case Finish(w) => WorkerDelta(g, s, t, w);
      case Exit(w) => WorkerDelta(g, s, t, w);
      case Quit(w) => WorkerDelta(g, s, t, w);
      case Release =>
      case Close =>
      case Cancel =>
    }
  }

  lemma WorkerDelta(g: Gauge, s: State, t: State, w: nat)
    requires w < |s.workers| == |t.workers| && t.workers == s.workers[w := t.workers[w]]
    ensures Sum((w: Worker) => g.OfWorker(w), t.workers) ==
            Sum((w: Worker) => g.OfWorker(w), s.workers) - g.OfWorker(s.workers[w]) + g.OfWorker(t.workers[w])
  {
    SumUpdate((w: Worker) => g.OfWorker(w), s.workers, w, t.workers[w]);
  }

  // ---------------------------------------------------------------------------
  // The gauges
  // ---------------------------------------------------------------------------

  /** One for every directory that is unsent, queued, being read or being sent. */
  const PENDING := Gauge(_ => 1, _ => 1, 0, 0, 0, 1)

  /** How often q is still to be reported. */
  function StillDue(f: Filter, q: Path): Gauge
  {
    Gauge(t => Due(f, t, q), t => Due(f, t, q), 0, 0, 0, 0)
  }

  /** Directories below a directory that the walk goes into: excluded ones are cut off. */
  function Dirs(f: Filter, t: Task): nat
    decreases t.entries
  {
    if t.entries == [] then 0
    else DirsEntry(f, t.path, t.entries[0]) + Dirs(f, Task(t.path, t.entries[1..]))
  }

  function DirsEntry(f: Filter, base: Path, e: Entry): nat
    decreases e
  {
    if e.File? || f.excluded(base + [e.name]) then 0 else 1 + Dirs(f, Task(base + [e.name], e.entries))
  }

  /** The steps it takes to get through a list of entries. */
  function Work(entries: seq<Entry>): nat
  {
    if entries == [] then 0
    else (match entries[0] case File(_) => 1 case Dir(_, below) => Work(below) + 5) + Work(entries[1..])
  }

  /** Steps the pool and the root goroutine may still take. */
  function Remaining(): Gauge
  {
    Gauge((t: Task) => Work(t.entries) + 3, (t: Task) => Work(t.entries) + 2, 1, 1, 1, 0)
  }

  /** Steps the closer and a cancellation may still take. */
  function ControlSteps(s: State): nat
  {
    (match s.closer case Waiting => 2 case Released => 1 case Closed => 0) + if s.cancelled then 0 else 1
  }

  function Measure(c: Walk, s: State): int
  {
    Remaining().Total(c, s) + ControlSteps(s)
  }

  lemma StepUsesWork(c: Walk, s: State, l: Step)
    requires Enabled(c, s, l) && (s.rootPending ==> !s.rootDropped)
    ensures Measure(c, Next(c, s, l)) < Measure(c, s)
  {
    hide Sum;
    StepDelta(Remaining(), c, s, l);
  }

  lemma TotalNonNegative(g: Gauge, c: Walk, s: State)
    requires g.idle >= 0 && g.sending >= 0 && g.rootUnsent >= 0 && g.rootDropped >= 0
    requires forall t :: g.queued(t) >= 0 && g.busy(t) >= 0
    ensures g.Total(c, s) >= 0 && g.OfRoot(c, s) >= 0
    ensures Sum(g.queued, s.queue) >= 0 && Sum((w: Worker) => g.OfWorker(w), s.workers) >= 0
  {
    SumBound(g.queued, s.queue, 0);
    SumBound((w: Worker) => g.OfWorker(w), s.workers, 0);
  }

  // ---------------------------------------------------------------------------
  // Invariants
  // ---------------------------------------------------------------------------

  /** The pending count is exact, the closer moved only after it reached zero, and nothing is
      given up and nobody leaves early unless the walk was cancelled. */
  ghost predicate Counted(c: Walk, s: State)
  {
    && |s.workers| == c.pool
    && s.counter == PENDING.Total(c, s)
    && (s.closer != Waiting ==> s.counter == 0)
    && !(s.rootPending && s.rootDropped)
    && (!s.cancelled ==> s.abandoned == [] && !s.rootDropped)
    && (!s.cancelled && s.closer != Closed ==> Exited !in s.workers)
  }

  function Occurrences(paths: seq<Path>, q: Path): nat
  {
    if paths == [] then 0
    else Occurrences(paths[..|paths| - 1], q) + if paths[|paths| - 1] == q then 1 else 0
  }

  /** What has been reported, or given up, as far as q is concerned. */
  function Settled(c: Walk, q: Path, s: State): nat
  {
    Occurrences(s.emitted, q) + GivenUp(c.f, q, s.abandoned)
  }

  /** q has been reported, is still to be reported, or was given up, as often as it was due. */
  ghost predicate Conserved(c: Walk, q: Path, s: State)
  {
    Settled(c, q, s) + StillDue(c.f, q).Total(c, s) == Due(c.f, c.RootTask(), q)
  }

  function GivenUp(f: Filter, q: Path, ts: seq<Task>): nat
  {
    if ts == [] then 0 else GivenUp(f, q, ts[..|ts| - 1]) + Due(f, ts[|ts| - 1], q)
  }

  /** The root and every directory below it that is not excluded and lies in none that is. */
  function DirCount(c: Walk): nat
  {
    Dirs(c.f, c.RootTask()) + 1
  }

  lemma InitHolds(c: Walk, q: Path)
    ensures Counted(c, Init(c)) && Conserved(c, q, Init(c))
    ensures Measure(c, Init(c)) == Work(c.root) + c.pool + 7
  {
    var s := Init(c);
    SumConstant((w: Worker) => PENDING.OfWorker(w), s.workers, 0);
    SumConstant((w: Worker) => StillDue(c.f, q).OfWorker(w), s.workers, 0);
    SumConstant((w: Worker) => Remaining().OfWorker(w), s.workers, 1);
  }

  /** A worker with a directory in hand keeps the count above zero. */
  lemma BusyCounts(c: Walk, s: State, w: nat)
    requires w < |s.workers| && (s.workers[w].Busy? || s.workers[w].Sending?)
    ensures PENDING.Total(c, s) > 0
  {
    SumBound(PENDING.queued, s.queue, 1);
    SumAtLeast((x: Worker) => PENDING.OfWorker(x), s.workers, 0, w);
  }

  lemma QueueCounts(c: Walk, s: State)
    ensures PENDING.Total(c, s) >= PENDING.OfRoot(c, s) + |s.queue|
  {
    SumConstant(PENDING.queued, s.queue, 1);
    SumBound((x: Worker) => PENDING.OfWorker(x), s.workers, 0);
  }

  lemma StepCounted(c: Walk, s: State, l: Step)
    requires Counted(c, s) && Enabled(c, s, l)
    ensures Counted(c, Next(c, s, l))
  {
    StepDelta(PENDING, c, s, l);
    QueueCounts(c, s);
    if l.AddDir? || l.DropDir? || l.Finish? {
      BusyCounts(c, s, l.w);
    }
  }

  lemma DueFirst(f: Filter, t: Task, q: Path)
    requires t.entries != []
    ensures Due(f, t, q) == DueEntry(f, t.path, t.entries[0], q) + Due(f, Rest(t), q)
  {}

  lemma DueNothing(f: Filter, base: Path, q: Path)
    ensures Due(f, Task(base, []), q) == 0
  {}

  lemma Emitting(emitted: seq<Path>, p: Path, q: Path)
    ensures Occurrences(emitted + [p], q) == Occurrences(emitted, q) + if p == q then 1 else 0
  {
    assert (emitted + [p])[..|emitted|] == emitted;
  }

  lemma Abandoning(f: Filter, q: Path, ts: seq<Task>, t: Task)
    ensures GivenUp(f, q, ts + [t]) == GivenUp(f, q, ts) + Due(f, t, q)
  {
    assert (ts + [t])[..|ts|] == ts;
  }

  lemma VisitSettles(c: Walk, q: Path, s: State, w: nat, fails: bool)
    requires Enabled(c, s, VisitFile(w, fails))
    ensures var l := VisitFile(w, fails);
            Settled(c, q, Next(c, s, l)) == Settled(c, q, s) - StillDue(c.f, q).Delta(c, s, l)
  {
    hide Occurrences, GivenUp, Due;
    Emitting(s.emitted, EntryPath(s, w), q);
    DueFirst(c.f, s.workers[w].task, q);
  }

  lemma DropSettles(c: Walk, q: Path, s: State, l: Step)
    requires Enabled(c, s, l) && (l.TakeFails? || l.DropRoot? || l.DropDir?)
    ensures Settled(c, q, Next(c, s, l)) == Settled(c, q, s) - StillDue(c.f, q).Delta(c, s, l)
  {
    hide Occurrences, GivenUp, Due;
    var t := Next(c, s, l);
    Abandoning(c.f, q, s.abandoned, t.abandoned[|s.abandoned|]);
    if l.TakeFails? { DueNothing(c.f, s.queue[0].path, q); }
  }

  lemma OtherSettles(c: Walk, q: Path, s: State, l: Step)
    requires Enabled(c, s, l) && !l.VisitFile? && !l.TakeFails? && !l.DropRoot? && !l.DropDir?
    ensures Settled(c, q, Next(c, s, l)) == Settled(c, q, s) - StillDue(c.f, q).Delta(c, s, l)
  {
    hide Occurrences, GivenUp, Due;
    if l.SkipDir? || l.AddDir? {
      DueFirst(c.f, s.workers[l.w].task, q);
    } else if l.Finish? {
      DueNothing(c.f, s.workers[l.w].task.path, q);
    }
  }

  lemma StepConserved(c: Walk, q: Path, s: State, l: Step)
    requires Counted(c, s) && Conserved(c, q, s) && Enabled(c, s, l)
    ensures Conserved(c, q, Next(c, s, l))
  {
    hide Sum, Due, Occurrences, GivenUp, Next;
    StepDelta(StillDue(c.f, q), c, s, l);
    if l.VisitFile? {
      VisitSettles(c, q, s, l.w, l.fails);
    } else if l.TakeFails? || l.DropRoot? || l.DropDir? {
      DropSettles(c, q, s, l);
    } else {
      OtherSettles(c, q, s, l);
    }
  }

  /** Everything that holds after i steps of a run. */
  lemma {:induction false} RunHolds(c: Walk, q: Path, run: seq<State>, steps: seq<Step>, i: nat)
    requires Run(c, run, steps) && i <= |steps|
    ensures Counted(c, run[i]) && Conserved(c, q, run[i])
    ensures Measure(c, run[i]) <= Work(c.root) + c.pool + 7 - i
  {
    if i == 0 {
      InitHolds(c, q);
    } else {
      RunHolds(c, q, run, steps, i - 1);
      StepCounted(c, run[i - 1], steps[i - 1]);
      StepConserved(c, q, run[i - 1], steps[i - 1]);
      StepUsesWork(c, run[i - 1], steps[i - 1]);
    }
  }

  // ---------------------------------------------------------------------------
  // Results about every run
  // ---------------------------------------------------------------------------

  /** Every run is finite: each step uses up work. */
  lemma RunsTerminate(c: Walk, run: seq<State>, steps: seq<Step>)
    requires Run(c, run, steps)
    ensures |steps| <= Work(c.root) + c.pool + 7
  {
    RunHolds(c, [], run, steps, |steps|);
    TotalNonNegative(Remaining(), c, run[|steps|]);
  }

  /** Nothing is sent, counted or reported once the closer has seen the count at zero. */
  lemma QuietAfterRelease(c: Walk, run: seq<State>, steps: seq<Step>, i: nat)
    requires Run(c, run, steps) && i < |steps| && run[i].closer != Waiting
    ensures !(steps[i].SendRoot? || steps[i].SendDir? || steps[i].AddDir? || steps[i].VisitFile? || steps[i].Take?)
  {
    RunHolds(c, [], run, steps, i);
    QueueCounts(c, run[i]);
    if steps[i].SendDir? || steps[i].AddDir? || steps[i].VisitFile? {
      BusyCounts(c, run[i], steps[i].w);
    }
  }

  /** In any run, cancelled or not, no file is reported that is not due, and none too often. */
  lemma OnlyDueReported(c: Walk, q: Path, run: seq<State>, steps: seq<Step>, i: nat)
    requires Run(c, run, steps) && i <= |steps|
    ensures Occurrences(run[i].emitted, q) <= Due(c.f, c.RootTask(), q)
  {
    RunHolds(c, q, run, steps, i);
    TotalNonNegative(StillDue(c.f, q), c, run[i]);
  }

  /** Walk returns once every worker has left. */
  ghost predicate Returned(s: State)
  {
    forall w :: w in s.workers ==> w == Exited
  }

  /** An uncancelled walk that has returned has reported every due file as often as it was due. */
  lemma AllReported(c: Walk, q: Path, run: seq<State>, steps: seq<Step>)
    requires Run(c, run, steps) && c.pool > 0
    requires Returned(run[|steps|]) && !run[|steps|].cancelled
    ensures Occurrences(run[|steps|].emitted, q) == Due(c.f, c.RootTask(), q)
  {
    var s := run[|steps|];
    RunHolds(c, q, run, steps, |steps|);
    assert s.workers[0] in s.workers;
    QueueCounts(c, s);
    SumConstant((w: Worker) => StillDue(c.f, q).OfWorker(w), s.workers, 0);
  }

  /** onFile has run exactly once for exactly the files that match and lie in no excluded directory. */
  lemma ReportedExactly(c: Walk, q: Path, run: seq<State>, steps: seq<Step>)
    requires Run(c, run, steps) && c.pool > 0 && DistinctNames(c.root)
    requires Returned(run[|steps|]) && !run[|steps|].cancelled
    ensures Occurrences(run[|steps|].emitted, q) == if HasFile(c.root, q) && Selected(c.f, [], q) then 1 else 0
  {
    AllReported(c, q, run, steps);
    DueExact(c.f, [], c.root, q);
    assert q == q[0..] && (q != [] ==> [] < q);
  }
}
