// When the parallel walk can get stuck: never while it has to go into fewer directories with
// directories than there are workers, or fewer without than the channel's capacity and one per
// worker; and from those numbers on it can.
module ParallelWalkProgress {
  import opened ParallelWalk
  import opened ParallelWalkProofs
  import opened ParallelWalkCounts

  /** No step but an outside cancellation is left, although Walk has not returned. */
  ghost predicate Stuck(c: Walk, s: State)
  {
    !Returned(s) && forall l :: Enabled(c, s, l) ==> l == Cancel
  }

  /** There are enough directories of both kinds to block every worker on a full channel. */
  predicate CanJam(c: Walk)
  {
    Inner(c.f, c.RootTask()) >= c.pool && Leaves(c.f, c.RootTask()) >= c.cap + c.pool
  }

  lemma NextStep(c: Walk, s: State) returns (l: Step)
    requires Counted(c, s) && c.cap > 0 && !Returned(s)
    requires LeafGauge(c.f).Total(c, s) <= Leaves(c.f, c.RootTask()) && InnerTotal(c, s) <= Inner(c.f, c.RootTask())
    requires s.cancelled || !CanJam(c)
    ensures Enabled(c, s, l) && l != Cancel
  {
    if w: nat :| w < |s.workers| && s.workers[w].Busy? {
      if s.workers[w].task.entries == [] {
        l := Finish(w);
      } else if s.workers[w].task.entries[0].File? {
        l := VisitFile(w, false);
      } else {
        l := if c.f.excluded(EntryPath(s, w)) then SkipDir(w) else AddDir(w);
      }
    } else if w: nat :| w < |s.workers| && s.workers[w].Sending? {
      BusyCounts(c, s, w);
      if s.cancelled {
        l := DropDir(w);
      } else if |s.queue| < c.cap {
        l := SendDir(w);
      } else if i: nat :| i < |s.workers| && s.workers[i].Idle? {
        l := Take(i);
      } else {
        FullPool(c, s);
        l := Cancel;
      }
    } else {
      l := IdleStep(c, s);
    }
  }

  lemma IdleStep(c: Walk, s: State) returns (l: Step)
    requires Counted(c, s) && c.cap > 0 && !Returned(s)
    requires forall w :: w in s.workers ==> w.Idle? || w.Exited?
    ensures Enabled(c, s, l) && l != Cancel
  {
    var x :| x in s.workers && x != Exited;
    var w: nat :| w < |s.workers| && s.workers[w] == x;
    if s.cancelled {
      l := Quit(w);
    } else if |s.queue| > 0 {
      l := Take(w);
    } else if s.rootPending {
      l := SendRoot;
    } else {
      SumConstant((x: Worker) => PENDING.OfWorker(x), s.workers, 0);
      l := match s.closer case Waiting => Release case Released => Close case Closed => Exit(w);
    }
  }

  /** Below these numbers no interleaving, cancelled or not, ever gets stuck. */
  lemma NeverStuck(c: Walk, run: seq<State>, steps: seq<Step>, i: nat)
    requires Run(c, run, steps) && i <= |steps| && c.cap > 0
    requires !CanJam(c)
    ensures !Stuck(c, run[i])
  {
    RunHolds(c, [], run, steps, i);
    RunCounts(c, run, steps, i);
    if !Returned(run[i]) {
      var l := NextStep(c, run[i]);
    }
  }

  /** In particular with fewer directories than the capacity plus two per worker. */
  lemma SmallNeverStuck(c: Walk, run: seq<State>, steps: seq<Step>, i: nat)
    requires Run(c, run, steps) && i <= |steps| && c.cap > 0
    requires DirCount(c) < c.cap + 2 * c.pool
    ensures !Stuck(c, run[i])
  {
    InnerOrLeaf(c.f, c.RootTask());
    NeverStuck(c, run, steps, i);
  }

  /** Cancelling always lets the walk go on. */
  lemma CancelledNeverStuck(c: Walk, run: seq<State>, steps: seq<Step>, i: nat)
    requires Run(c, run, steps) && i <= |steps| && c.cap > 0 && run[i].cancelled
    ensures !Stuck(c, run[i])
  {
    RunHolds(c, [], run, steps, i);
    RunCounts(c, run, steps, i);
    if !Returned(run[i]) {
      var l := NextStep(c, run[i]);
    }
  }

  // ---------------------------------------------------------------------------
  // The bound is exact
  // ---------------------------------------------------------------------------

  const LEAF: Entry := Dir("z", [])

  /** A chain of e directories below one. */
  function Deep(e: nat): seq<Entry> { if e == 0 then [] else [Dir("d", Deep(e - 1))] }

  /** n + 1 directories, all but the first empty. */
  function Fillers(n: nat, e: nat): (r: seq<Entry>)
    ensures |r| == n + 1 && r[0] == Dir("f", Deep(e))
    ensures forall k :: 0 < k <= n ==> r[k] == Dir(seq(k + 1, _ => 'f'), [])
  {
    [Dir("f", Deep(e))] + seq(n, (k: nat) => Dir(seq(k + 2, _ => 'f'), []))
  }

  /** A chain of directories, one per worker, each ending in a directory to block on; the last
      one has n directories to fill the channel and one to block on. */
  function Chain(n: nat, e: nat, pool: nat): seq<Entry>
  {
    if pool <= 1 then Fillers(n, e) else [Dir("d", Chain(n, e, pool - 1)), LEAF]
  }

  const ALL := Filter(_ => true, _ => false)

  function Jam(cap: nat, pool: nat, n: nat, e: nat): Walk
  {
    Walk(ALL, Chain(n, e, pool), cap, pool)
  }

  lemma AllIncluded(base: Path, e: Entry)
    requires e.Dir?
    ensures var t := Task(base + [e.name], e.entries);
            InnerEntry(ALL, base, e) == Inner(ALL, t) && LeavesEntry(ALL, base, e) == Leaves(ALL, t) &&
            DirsEntry(ALL, base, e) == 1 + Dirs(ALL, t)
  {
    assert !ALL.excluded(base + [e.name]);
  }

  lemma {:induction false} EmptyOnes(base: Path, entries: seq<Entry>)
    requires forall e :: e in entries ==> e.Dir? && e.entries == []
    ensures var t := Task(base, entries);
            InnerBelow(ALL, t) == 0 && LeavesBelow(ALL, t) == |entries| == Dirs(ALL, t)
  {
    if entries != [] {
      assert entries[0] in entries;
      FirstEntry(ALL, Task(base, entries));
      AllIncluded(base, entries[0]);
      NoEntries(ALL, base + [entries[0].name]);
      EmptyOnes(base, entries[1..]);
    }
  }

  lemma {:induction false} DeepCounts(base: Path, e: nat)
    ensures Inner(ALL, Task(base, Deep(e))) == e && Leaves(ALL, Task(base, Deep(e))) == 1 && DistinctNames(Deep(e))
    decreases e
  {
    if e > 0 {
      var t := Task(base, Deep(e));
      FirstEntry(ALL, t);
      AllIncluded(base, Deep(e)[0]);
      DeepCounts(base + ["d"], e - 1);
      assert Rest(t) == Task(base, []);
      NoEntries(ALL, base);
    }
  }

  lemma FillerCounts(base: Path, n: nat, e: nat)
    ensures var t := Task(base, Fillers(n, e));
            Inner(ALL, t) == e + 1 && Leaves(ALL, t) == n + 1
  {
    var t := Task(base, Fillers(n, e));
    FirstEntry(ALL, t);
    AllIncluded(base, Fillers(n, e)[0]);
    DeepCounts(base + ["f"], e);
    EmptyOnes(base, Fillers(n, e)[1..]);
  }

  lemma FillerNames(n: nat, e: nat)
    ensures DistinctNames(Fillers(n, e))
  {
    DeepCounts([], e);
    assert forall i :: 0 <= i <= n ==> |Fillers(n, e)[i].name| == i + 1;
  }

  lemma ChainLink(base: Path, below: seq<Entry>)
    requires DistinctNames(below)
    ensures var t, b := Task(base, [Dir("d", below), LEAF]), Task(base + ["d"], below);
            DistinctNames(t.entries) && Inner(ALL, t) == Inner(ALL, b) + 1 && Leaves(ALL, t) == Leaves(ALL, b) + 1
  {
    var t := Task(base, [Dir("d", below), LEAF]);
    assert t.entries[1..] == [LEAF];
    FirstEntry(ALL, t);
    AllIncluded(base, t.entries[0]);
    EmptyOnes(base, [LEAF]);
  }

  lemma {:induction false} ChainCounts(base: Path, n: nat, e: nat, pool: nat)
    requires pool > 0
    ensures var t := Task(base, Chain(n, e, pool));
            Inner(ALL, t) == pool + e && Leaves(ALL, t) == n + pool && DistinctNames(t.entries)
    decreases pool
  {
    hide Inner, Leaves, DistinctNames, Fillers;
    if pool == 1 {
      FillerCounts(base, n, e);
      FillerNames(n, e);
    } else {
      ChainCounts(base + ["d"], n, e, pool - 1);
      ChainLink(base, Chain(n, e, pool - 1));
    }
  }

  lemma Extend(c: Walk, run: seq<State>, steps: seq<Step>, l: Step) returns (r: seq<State>, t: seq<Step>)
    requires Run(c, run, steps) && Enabled(c, run[|steps|], l)
    ensures Run(c, r, t) && |r| == |t| + 1 && |t| == |steps| + 1 && r[|t|] == Next(c, run[|steps|], l)
  {
    r, t := run + [Next(c, run[|steps|], l)], steps + [l];
  }

  lemma StartRun(c: Walk) returns (run: seq<State>, steps: seq<Step>)
    ensures Run(c, run, steps) && |steps| == 0 && |run| == 1 && run[0] == Init(c)
  {
    run, steps := [Init(c)], [];
  }

  /** Neither cancelled nor closing, and only these entries wait in the channel. */
  ghost predicate Calm(c: Walk, s: State)
  {
    !s.cancelled && s.closer == Waiting && !s.rootPending && !s.rootDropped && |s.workers| == c.pool && s.counter > 0
  }

  /** Worker j holds the chain's j-th directory with the blocking entry left. */
  ghost predicate Holds(s: State, j: nat)
    requires j < |s.workers|
  {
    s.workers[j].Busy? && s.workers[j].task.entries == [LEAF]
  }

  /** The first i workers hold the chain down to directory i, which is in the channel. */
  ghost predicate Descended(c: Walk, s: State, n: nat, e: nat, i: nat)
  {
    && Calm(c, s) && i < c.pool
    && |s.queue| == 1 && s.queue[0].entries == Chain(n, e, c.pool - i)
    && (forall j :: 0 <= j < i ==> Holds(s, j))
    && (forall j :: i <= j < c.pool ==> s.workers[j].Idle?)
  }

  /** Worker i has taken it. */
  ghost predicate Reached(c: Walk, s: State, n: nat, e: nat, i: nat)
  {
    && Calm(c, s) && i < c.pool && s.queue == []
    && s.workers[i].Busy? && s.workers[i].task.entries == Chain(n, e, c.pool - i)
    && (forall j :: 0 <= j < i ==> Holds(s, j))
    && (forall j :: i < j < c.pool ==> s.workers[j].Idle?)
  }

  lemma TakeReaches(c: Walk, s: State, n: nat, e: nat, i: nat)
    requires Descended(c, s, n, e, i)
    ensures Enabled(c, s, Take(i)) && Reached(c, Next(c, s, Take(i)), n, e, i)
  {
    var t := Next(c, s, Take(i));
    forall j | 0 <= j < i ensures Holds(t, j) { assert Holds(s, j); }
  }

  lemma PassOn(c: Walk, s: State, n: nat, e: nat, i: nat)
    requires c == Jam(c.cap, c.pool, n, e) && c.cap > 0 && Reached(c, s, n, e, i) && i + 1 < c.pool
    ensures Enabled(c, s, AddDir(i)) && var t := Next(c, s, AddDir(i));
            Enabled(c, t, SendDir(i)) && Descended(c, Next(c, t, SendDir(i)), n, e, i + 1)
  {
    var t := Next(c, s, AddDir(i));
    var u := Next(c, t, SendDir(i));
    assert s.workers[i].task.entries[1..] == [LEAF];
    forall j | 0 <= j < i + 1 ensures Holds(u, j) { assert j < i ==> Holds(s, j); }
  }

  lemma {:induction false} Descend(c: Walk, n: nat, e: nat, i: nat) returns (run: seq<State>, steps: seq<Step>)
    requires c == Jam(c.cap, c.pool, n, e) && c.cap > 0 && i < c.pool
    ensures Run(c, run, steps) && |run| == |steps| + 1 && Descended(c, run[|steps|], n, e, i)
  {
    hide Run, Chain, Reached, Enabled, Next;
    if i == 0 {
      run, steps := StartRun(c);
      StartDescends(c, n, e);
      run, steps := Extend(c, run, steps, SendRoot);
    } else {
      run, steps := Descend(c, n, e, i - 1);
      TakeReaches(c, run[|steps|], n, e, i - 1);
      run, steps := Extend(c, run, steps, Take(i - 1));
      PassOn(c, run[|steps|], n, e, i - 1);
      run, steps := Extend(c, run, steps, AddDir(i - 1));
      run, steps := Extend(c, run, steps, SendDir(i - 1));
    }
  }

  lemma StartDescends(c: Walk, n: nat, e: nat)
    requires c == Jam(c.cap, c.pool, n, e) && c.cap > 0 && c.pool > 0
    ensures Enabled(c, Init(c), SendRoot) && Descended(c, Next(c, Init(c), SendRoot), n, e, 0)
  {}

  /** The last worker has sent the first k fillers. */
  ghost predicate Filled(c: Walk, s: State, n: nat, e: nat, k: nat)
  {
    && Calm(c, s) && c.pool > 0 && k <= c.cap <= n && |s.queue| == k
    && (forall j :: 0 <= j < c.pool - 1 ==> Holds(s, j))
    && s.workers[c.pool - 1].Busy? && s.workers[c.pool - 1].task.entries == Fillers(n, e)[k..]
  }

  lemma {:induction false} Fill(c: Walk, n: nat, e: nat, k: nat) returns (run: seq<State>, steps: seq<Step>)
    requires c == Jam(c.cap, c.pool, n, e) && c.cap > 0 && c.pool > 0 && k <= c.cap <= n
    ensures Run(c, run, steps) && Filled(c, run[|steps|], n, e, k)
  {
    if k == 0 {
      run, steps := Descend(c, n, e, c.pool - 1);
      TakeReaches(c, run[|steps|], n, e, c.pool - 1);
      run, steps := Extend(c, run, steps, Take(c.pool - 1));
      assert Fillers(n, e)[0..] == Fillers(n, e);
    } else {
      run, steps := Fill(c, n, e, k - 1);
      var before := run[|steps|];
      assert Fillers(n, e)[k - 1..][1..] == Fillers(n, e)[k..];
      run, steps := Extend(c, run, steps, AddDir(c.pool - 1));
      run, steps := Extend(c, run, steps, SendDir(c.pool - 1));
      forall j | 0 <= j < c.pool - 1 ensures Holds(run[|steps|], j) {
        assert Holds(before, j);
      }
    }
  }

  /** The channel is full and the first i workers wait to send. */
  ghost predicate Jammed(c: Walk, s: State, i: nat)
  {
    && Calm(c, s) && i <= c.pool && |s.queue| == c.cap
    && (forall j :: 0 <= j < i ==> s.workers[j].Sending?)
    && (forall j :: i <= j < c.pool ==> AtEntry(s, j) && s.workers[j].task.entries[0].Dir?)
  }

  lemma {:induction false} Block(c: Walk, n: nat, e: nat, i: nat) returns (run: seq<State>, steps: seq<Step>)
    requires c == Jam(c.cap, c.pool, n, e) && c.cap > 0 && c.pool > 0 && i <= c.pool && c.cap <= n
    ensures Run(c, run, steps) && Jammed(c, run[|steps|], i)
  {
    if i == 0 {
      run, steps := Fill(c, n, e, c.cap);
      var s := run[|steps|];
      assert Fillers(n, e)[c.cap..][0] == Fillers(n, e)[c.cap];
      forall j: nat | j < c.pool ensures AtEntry(s, j) && s.workers[j].task.entries[0].Dir? {
        assert j < c.pool - 1 ==> Holds(s, j);
      }
    } else {
      run, steps := Block(c, n, e, i - 1);
      var before := run[|steps|];
      run, steps := Extend(c, run, steps, AddDir(i - 1));
      forall j: nat | i <= j < c.pool ensures AtEntry(run[|steps|], j) && run[|steps|].workers[j].task.entries[0].Dir? {
        assert AtEntry(before, j);
      }
    }
  }

  lemma JammedIsStuck(c: Walk, s: State)
    requires Jammed(c, s, c.pool) && c.pool > 0
    ensures Stuck(c, s) && !s.cancelled
  {
    assert s.workers[0] in s.workers;
    forall l | Enabled(c, s, l) ensures l == Cancel {}
  }

  /** For every capacity and pool, and from the bounds on every number of directories with and
      without directories, there is a tree with distinct names and an uncancelled run over it in
      which every worker waits for the others forever. */
  lemma CanGetStuck(cap: nat, pool: nat, inner: nat, leaves: nat) returns (c: Walk, run: seq<State>, steps: seq<Step>)
    requires cap > 0 && pool > 0 && inner >= pool && leaves >= cap + pool
    ensures c.cap == cap && c.pool == pool && DistinctNames(c.root)
    ensures Inner(c.f, c.RootTask()) == inner && Leaves(c.f, c.RootTask()) == leaves
    ensures Run(c, run, steps) && Stuck(c, run[|steps|]) && !run[|steps|].cancelled
  {
    hide Stuck, Jammed, DistinctNames, Inner, Leaves, Chain;
    var n, e := leaves - pool, inner - pool;
    c := Jam(cap, pool, n, e);
    ChainCounts([], n, e, pool);
    run, steps := Block(c, n, e, pool);
    JammedIsStuck(c, run[|steps|]);
  }

  /** Some run of the walk gets stuck. */
  ghost predicate GetsStuck(c: Walk)
  {
    exists run, steps :: Run(c, run, steps) && Stuck(c, run[|steps|])
  }

  predicate HasCounts(c: Walk, cap: nat, pool: nat, inner: nat, leaves: nat)
  {
    c.cap == cap && c.pool == pool && Inner(c.f, c.RootTask()) == inner && Leaves(c.f, c.RootTask()) == leaves
  }

  /** Exactly from these numbers on some tree has a run that gets stuck. */
  lemma StuckExactly(cap: nat, pool: nat, inner: nat, leaves: nat)
    requires cap > 0 && pool > 0
    ensures inner >= pool && leaves >= cap + pool <==>
            exists c: Walk :: HasCounts(c, cap, pool, inner, leaves) && GetsStuck(c)
  {
    if inner >= pool && leaves >= cap + pool {
      var c, run, steps := CanGetStuck(cap, pool, inner, leaves);
      assert GetsStuck(c) && HasCounts(c, cap, pool, inner, leaves);
    } else {
      forall c: Walk | HasCounts(c, cap, pool, inner, leaves) ensures !GetsStuck(c) {
        forall run, steps ensures Run(c, run, steps) ==> !Stuck(c, run[|steps|]) {
          if Run(c, run, steps) { NeverStuck(c, run, steps, |steps|); }
        }
      }
    }
  }

  /** In terms of all directories: exactly from the capacity plus two per worker on. */
  lemma StuckFrom(cap: nat, pool: nat, count: nat)
    requires cap > 0 && pool > 0
    ensures count >= cap + 2 * pool <==>
            exists c: Walk :: c.cap == cap && c.pool == pool && DirCount(c) == count && GetsStuck(c)
  {
    if count >= cap + 2 * pool {
      var c, run, steps := CanGetStuck(cap, pool, pool, count - pool);
      InnerOrLeaf(c.f, c.RootTask());
      assert GetsStuck(c) && DirCount(c) == count;
    } else {
      forall c: Walk | c.cap == cap && c.pool == pool && DirCount(c) == count ensures !GetsStuck(c) {
        forall run, steps ensures Run(c, run, steps) ==> !Stuck(c, run[|steps|]) {
          if Run(c, run, steps) { SmallNeverStuck(c, run, steps, |steps|); }
        }
      }
    }
  }
}
