// The pipeline lock of the live validation over whole runs: the jobs that start are those requested,
// in the order of the requests (packages/houdini-lsp/src/overlay.ts, packages/houdini-lsp/src/diagnostics.ts).
module LiveValidationJobs {
  import opened LiveValidation
  import opened LiveValidationProofs
  import opened LiveValidationProgress
  import opened LiveValidationRuns

  /** A round of live_validate on an open file overlays its buffer, if it is part of the project. */
  function Overlaid(s: State, u: Uri, locks: bool): seq<Job>
  {
    if u in s.open && locks then [Overlay(s.counter, u, FromBuffer)] else []
  }

  /** The jobs a step asks the lock for: a watched change one for all files, a save one for its file,
      a close one for a file found on disk, and each first or further round of live_validate one. */
  function Requested(inProject: Uri -> bool, s: State, l: Step): seq<Job>
    requires Enabled(inProject, s, l)
  {
    match l
    case Watched => [ValidateAll]
    case Resume(locks, onDisk) =>
      (match s.waiting[0]
       case Saved(u, _) => [ValidateSaved(u)]
       case Closed(u) => if inProject(u) && onDisk then [Overlay(s.counter, u, FromDisk)] else []
       case Debounced(u) => if u in s.running then [] else Overlaid(s, u, locks))
    case Loop(id, locks) => if s.passes[id].uri in s.rerun then Overlaid(s, s.passes[id].uri, locks) else []
    case _ => []
  }

  /** The job a step starts. */
  function Started(inProject: Uri -> bool, s: State, l: Step): seq<Job>
    requires Enabled(inProject, s, l)
  {
    if l.Start? then [s.queue[0]] else []
  }

  function AllRequested(inProject: Uri -> bool, run: seq<State>, steps: seq<Step>, i: nat): seq<Job>
    requires |run| == |steps| + 1 && i <= |steps|
    requires forall k :: 0 <= k < i ==> Enabled(inProject, run[k], steps[k])
  {
    if i == 0 then [] else AllRequested(inProject, run, steps, i - 1) + Requested(inProject, run[i - 1], steps[i - 1])
  }

  function AllStarted(inProject: Uri -> bool, run: seq<State>, steps: seq<Step>, i: nat): seq<Job>
    requires |run| == |steps| + 1 && i <= |steps|
    requires forall k :: 0 <= k < i ==> Enabled(inProject, run[k], steps[k])
  {
    if i == 0 then [] else AllStarted(inProject, run, steps, i - 1) + Started(inProject, run[i - 1], steps[i - 1])
  }

  /** The step only adds these jobs to the queue. */
  predicate Adds(s: State, t: State, jobs: seq<Job>) { t.queue == s.queue + jobs && t.head == s.head }

  lemma BeginRequests(s: State, u: Uri, locks: bool)
    ensures Adds(s, BeginPass(s, u, locks), Overlaid(s, u, locks))
  {
    if u !in s.open {
      assert s.queue + [] == s.queue;
    }
  }

  lemma EntryRequests(s: State, u: Uri, locks: bool)
    ensures Adds(s, LiveValidate(s, u, locks), if u in s.running then [] else Overlaid(s, u, locks))
  {
    hide BeginPass;
    BeginRequests(s.(running := s.running + {u}), u, locks);
    assert s.queue + [] == s.queue;
  }

  lemma ReconcileRequests(inProject: Uri -> bool, s: State, u: Uri, onDisk: bool)
    ensures Adds(s, Reconcile(inProject, s, u, onDisk), if inProject(u) && onDisk then [Overlay(s.counter, u, FromDisk)] else [])
  {
    assert s.queue + [] == s.queue;
  }

  lemma ContinueRequests(inProject: Uri -> bool, s: State, locks: bool, onDisk: bool)
    requires Enabled(inProject, s, Resume(locks, onDisk))
    ensures Adds(s, Next(inProject, s, Resume(locks, onDisk)), Requested(inProject, s, Resume(locks, onDisk)))
  {
    hide LiveValidate, Reconcile;
    var rest := s.(waiting := s.waiting[1..]);
    match s.waiting[0]
    case Debounced(u) => EntryRequests(rest, u, locks);
    case Closed(u) => ReconcileRequests(inProject, rest, u, onDisk);
    case Saved(u, b) =>
  }

  lemma LoopRequests(inProject: Uri -> bool, s: State, id: nat, locks: bool)
    requires Enabled(inProject, s, Loop(id, locks))
    ensures Adds(s, Next(inProject, s, Loop(id, locks)), Requested(inProject, s, Loop(id, locks)))
  {
    hide BeginPass;
    BeginRequests(s.(passes := s.passes - {id}, checked := s.checked + {s.passes[id].buffer.edit}),
      s.passes[id].uri, locks);
    assert s.queue + [] == s.queue;
  }

  lemma OtherRequests(inProject: Uri -> bool, s: State, l: Step)
    requires Enabled(inProject, s, l) && (l.Change? || l.Close? || l.Save? || l.Watched? || l.Ready? || l.Fire? || l.Publish?)
    ensures Adds(s, Next(inProject, s, l), Requested(inProject, s, l))
  {
    assert s.queue + [] == s.queue;
  }

  lemma AddedUnwritten(s: State, t: State, jobs: seq<Job>)
    requires Sound(s) && Adds(s, t, jobs)
    ensures [] + Unwritten(t) == Unwritten(s) + jobs
  {}

  lemma StartTakesHead(s: State, installs: bool)
    requires s.queue != [] && s.head == Queued
    ensures [s.queue[0]] + Unwritten(StartJob(s, installs)) == Unwritten(s) + []
  {
    assert s.queue == [s.queue[0]] + s.queue[1..];
  }

  lemma StartEnabled(inProject: Uri -> bool, s: State, installs: bool)
    requires Enabled(inProject, s, Start(installs))
    ensures s.queue != [] && s.head == Queued && Next(inProject, s, Start(installs)) == StartJob(s, installs)
    ensures Requested(inProject, s, Start(installs)) == []
  {}

  lemma HeadRequestsNone(inProject: Uri -> bool, s: State, l: Step)
    requires Enabled(inProject, s, l) && (l.Extract? || l.End?)
    ensures Requested(inProject, s, l) == []
  {}

  lemma HeadGoesOn(inProject: Uri -> bool, s: State, l: Step)
    requires Enabled(inProject, s, l) && (l.Extract? || l.End?)
    ensures [] + Unwritten(Next(inProject, s, l)) == Unwritten(s) + []
  {
    hide Settle;
  }

  /** In one step the jobs that have not begun gain what it asks for at the end and lose what it
      starts at the front. */
  lemma StepQueues(inProject: Uri -> bool, s: State, l: Step)
    requires Enabled(inProject, s, l) && Sound(s)
    ensures Started(inProject, s, l) + Unwritten(Next(inProject, s, l)) == Unwritten(s) + Requested(inProject, s, l)
  {
    hide Next, Enabled, Requested, Unwritten, Sound;
    if l.Start? {
      StartEnabled(inProject, s, l.installs);
      StartTakesHead(s, l.installs);
    } else if l.Extract? || l.End? {
      HeadRequestsNone(inProject, s, l);
      HeadGoesOn(inProject, s, l);
    } else {
      match l {
        case Resume(locks, onDisk) => ContinueRequests(inProject, s, locks, onDisk);
        case Loop(id, locks) => LoopRequests(inProject, s, id, locks);
        case _ => OtherRequests(inProject, s, l);
      }
      AddedUnwritten(s, Next(inProject, s, l), Requested(inProject, s, l));
    }
  }

  lemma Shift(a: seq<Job>, b: seq<Job>, c: seq<Job>, d: seq<Job>, e: seq<Job>)
    requires b + c == d + e
    ensures a + b + c == a + d + e
  {
    assert a + b + c == a + (b + c);
    assert a + d + e == a + (d + e);
  }

  /** In every state of every run the jobs asked for so far are those that have begun, followed by
      those that wait: the lock starts them all in their order, and no others. */
  lemma {:induction false} JobsInOrder(inProject: Uri -> bool, ready: bool, run: seq<State>, steps: seq<Step>, i: nat)
    requires Run(inProject, ready, run, steps) && i <= |steps|
    ensures AllRequested(inProject, run, steps, i) == AllStarted(inProject, run, steps, i) + Unwritten(run[i])
  {
    if i > 0 {
      var s, l := run[i - 1], steps[i - 1];
      JobsInOrder(inProject, ready, run, steps, i - 1);
      RunAlways(inProject, ready, run, steps, i - 1);
      StepQueues(inProject, s, l);
      Shift(AllStarted(inProject, run, steps, i - 1), Started(inProject, s, l), Unwritten(run[i]),
        Unwritten(s), Requested(inProject, s, l));
    }
  }

  /** A save that goes on asks for its file's validation. */
  lemma SaveRequests(inProject: Uri -> bool, s: State, l: Step, u: Uri)
    requires Enabled(inProject, s, l)
    ensures SaveGoesOn(s, l, u) <==> Requested(inProject, s, l) == [ValidateSaved(u)]
  {}

  /** When the loop has no step of its own left, every job asked for has begun, once: each save that
      went on has had its file validated. */
  lemma AllServed(inProject: Uri -> bool, ready: bool, run: seq<State>, steps: seq<Step>)
    requires Run(inProject, ready, run, steps)
    requires forall l :: Enabled(inProject, run[|steps|], l) ==> FromClient(l)
    ensures AllStarted(inProject, run, steps, |steps|) == AllRequested(inProject, run, steps, |steps|)
  {
    AtRest(inProject, ready, run, steps);
    JobsInOrder(inProject, ready, run, steps, |steps|);
    var started := AllStarted(inProject, run, steps, |steps|);
    assert Unwritten(run[|steps|]) == [] && started + [] == started;
  }

  // ---------------------------------------------------------------------------
  // The rows are those of the last write that succeeded
  // ---------------------------------------------------------------------------

  /** The step puts rows in place of u's: a job for the file whose transaction succeeds, an extraction,
      or a close of a file of the project that is not on disk. */
  predicate Puts(inProject: Uri -> bool, s: State, l: Step, u: Uri)
    requires Enabled(inProject, s, l)
  {
    match l
    case Start(installs) => installs && !s.queue[0].ValidateAll? && s.queue[0].uri == u
    case Extract => true
    case Resume(_, onDisk) => s.waiting[0] == Closed(u) && inProject(u) && !onDisk
    case _ => false
  }

  /** Where these rows come from: an overlay's own source; a save and a missing file leave none. */
  function PutBy(inProject: Uri -> bool, s: State, l: Step): Origin
    requires Enabled(inProject, s, l)
  {
    match l
    case Start(_) => if s.queue[0].Overlay? then s.queue[0].origin else Cleared
    case Extract => FromDisk
    case _ => Cleared
  }

  lemma StepPuts(inProject: Uri -> bool, s: State, l: Step, u: Uri)
    requires Enabled(inProject, s, l)
    ensures RowsOf(Next(inProject, s, l), u) == if Puts(inProject, s, l, u) then PutBy(inProject, s, l) else RowsOf(s, u)
  {
    hide BeginPass;
    match l
    case Resume(locks, onDisk) => ResumePuts(inProject, s, locks, onDisk, u);
    case Loop(id, locks) =>
      BeginKeepsRows(s.(passes := s.passes - {id}, checked := s.checked + {s.passes[id].buffer.edit}),
        s.passes[id].uri, locks);
    case _ =>
  }

  lemma EntryKeepsRows(s: State, u: Uri, locks: bool)
    ensures LiveValidate(s, u, locks).rows == s.rows
  {
    hide BeginPass;
    BeginKeepsRows(s.(running := s.running + {u}), u, locks);
  }

  lemma ReconcilePuts(inProject: Uri -> bool, s: State, v: Uri, onDisk: bool, u: Uri)
    ensures RowsOf(Reconcile(inProject, s, v, onDisk), u) ==
            if v == u && inProject(u) && !onDisk then Cleared else RowsOf(s, u)
  {}

  lemma ResumePuts(inProject: Uri -> bool, s: State, locks: bool, onDisk: bool, u: Uri)
    requires Enabled(inProject, s, Resume(locks, onDisk))
    ensures RowsOf(Next(inProject, s, Resume(locks, onDisk)), u) ==
            if s.waiting[0] == Closed(u) && inProject(u) && !onDisk then Cleared else RowsOf(s, u)
  {
    hide LiveValidate, Reconcile;
    var rest := s.(waiting := s.waiting[1..]);
    match s.waiting[0]
    case Debounced(v) => EntryKeepsRows(rest, v, locks);
    case Closed(v) => ReconcilePuts(inProject, rest, v, onDisk, u);
    case Saved(v, b) =>
  }

  /** From step k on nothing else has put rows in place of u's. */
  ghost predicate LastPut(inProject: Uri -> bool, run: seq<State>, steps: seq<Step>, i: nat, k: int, u: Uri)
    requires |run| == |steps| + 1 && i <= |steps|
    requires forall m :: 0 <= m < i ==> Enabled(inProject, run[m], steps[m])
  {
    && -1 <= k < i && (k >= 0 ==> Puts(inProject, run[k], steps[k], u))
    && forall m :: k < m < i ==> !Puts(inProject, run[m], steps[m], u)
  }

  /** In every state of every run a file's rows are those of the last step that put any, whatever failed
      since, and those of the disk if none has. */
  lemma {:induction false} RowsExact(inProject: Uri -> bool, ready: bool, run: seq<State>, steps: seq<Step>, i: nat,
                                     u: Uri) returns (k: int)
    requires Run(inProject, ready, run, steps) && i <= |steps|
    ensures LastPut(inProject, run, steps, i, k, u)
    ensures RowsOf(run[i], u) == if k < 0 then FromDisk else PutBy(inProject, run[k], steps[k])
  {
    if i == 0 {
      k := -1;
    } else {
      k := RowsExact(inProject, ready, run, steps, i - 1, u);
      StepPuts(inProject, run[i - 1], steps[i - 1], u);
      if Puts(inProject, run[i - 1], steps[i - 1], u) { k := i - 1; }
    }
  }

  /** Timers only go, documents stay, and so does what is known to be missing. */
  predicate Settles(s: State, t: State) { t.timers <= s.timers && t.open == s.open && t.missing == s.missing }

  lemma BeginSettlesTimers(s: State, u: Uri, locks: bool)
    ensures Settles(s, BeginPass(s, u, locks))
  {}

  lemma EntrySettlesTimers(s: State, u: Uri, locks: bool)
    ensures Settles(s, LiveValidate(s, u, locks))
  {
    hide BeginPass;
    BeginSettlesTimers(s.(running := s.running + {u}), u, locks);
  }

  lemma LoopSettlesTimers(s: State, id: nat, locks: bool)
    requires id in s.passes
    ensures Settles(s, LoopTest(s, id, locks))
  {
    hide BeginPass;
    BeginSettlesTimers(s.(passes := s.passes - {id}, checked := s.checked + {s.passes[id].buffer.edit}),
      s.passes[id].uri, locks);
  }

  /** A handler for a closed file of the project goes on. */
  predicate Reconciles(inProject: Uri -> bool, s: State, l: Step, u: Uri)
  {
    l.Resume? && s.waiting != [] && s.waiting[0] == Closed(u) && inProject(u)
  }

  lemma ReconcileFinds(inProject: Uri -> bool, s: State, v: Uri, onDisk: bool, u: Uri)
    ensures var t := Reconcile(inProject, s, v, onDisk);
            t.timers == s.timers && t.open == s.open &&
            (u in t.missing <==> if u == v && inProject(u) then !onDisk else u in s.missing)
  {}

  lemma ResumeSettlesTimers(inProject: Uri -> bool, s: State, locks: bool, onDisk: bool, u: Uri)
    requires Enabled(inProject, s, Resume(locks, onDisk))
    ensures var l := Resume(locks, onDisk); var t := Next(inProject, s, l);
            t.timers <= s.timers && t.open == s.open &&
            (u in t.missing <==> if Reconciles(inProject, s, l, u) then !onDisk else u in s.missing)
  {
    hide LiveValidate, Reconcile;
    var rest := s.(waiting := s.waiting[1..]);
    match s.waiting[0]
    case Debounced(v) => EntrySettlesTimers(rest, v, locks);
    case Closed(v) => ReconcileFinds(inProject, rest, v, onDisk, u);
    case Saved(v, b) =>
  }

  lemma StepTimers(inProject: Uri -> bool, s: State, l: Step, u: Uri)
    requires s.timers <= s.open.Keys && Enabled(inProject, s, l)
    ensures var t := Next(inProject, s, l);
            t.timers <= t.open.Keys &&
            (u in t.missing <==> if Reconciles(inProject, s, l, u) then !l.onDisk else u in s.missing)
  {
    hide Continue, LoopTest, Enabled;
    match l
    case Resume(locks, onDisk) => ResumeSettlesTimers(inProject, s, locks, onDisk, u);
    case Loop(id, locks) => LoopStep(inProject, s, id, locks);
    case _ => PlainStep(inProject, s, l);
  }

  lemma LoopStep(inProject: Uri -> bool, s: State, id: nat, locks: bool)
    requires Enabled(inProject, s, Loop(id, locks))
    ensures Settles(s, Next(inProject, s, Loop(id, locks)))
  {
    LoopSettlesTimers(s, id, locks);
  }

  lemma PipelineStep(s: State, installs: bool)
    requires s.queue != []
    ensures Settles(s, StartJob(s, installs)) && Settles(s, EndJob(s))
  {
    hide Settle, Written;
  }

  lemma PlainStep(inProject: Uri -> bool, s: State, l: Step)
    requires s.timers <= s.open.Keys && Enabled(inProject, s, l) && !l.Resume? && !l.Loop?
    ensures Next(inProject, s, l).timers <= Next(inProject, s, l).open.Keys
    ensures Next(inProject, s, l).missing == s.missing
  {
    hide StartJob, EndJob, Idle;
    if l.Start? { PipelineStep(s, l.installs); }
    if l.End? { PipelineStep(s, true); }
  }

  /** From step k on the file has not been reconciled again. */
  ghost predicate LastReconciled(inProject: Uri -> bool, run: seq<State>, steps: seq<Step>, i: nat, k: int, u: Uri)
    requires |run| == |steps| + 1 && i <= |steps|
  {
    && -1 <= k < i && (k >= 0 ==> Reconciles(inProject, run[k], steps[k], u))
    && forall m :: k < m < i ==> !Reconciles(inProject, run[m], steps[m], u)
  }

  /** A file counts as missing exactly if it was when it was last reconciled. */
  lemma {:induction false} MissingExact(inProject: Uri -> bool, ready: bool, run: seq<State>, steps: seq<Step>, i: nat,
                                        u: Uri) returns (k: int)
    requires Run(inProject, ready, run, steps) && i <= |steps|
    ensures LastReconciled(inProject, run, steps, i, k, u)
    ensures u in run[i].missing <==> k >= 0 && !steps[k].onDisk
  {
    if i == 0 {
      k := -1;
    } else {
      k := MissingExact(inProject, ready, run, steps, i - 1, u);
      TimersOpen(inProject, ready, run, steps, i - 1);
      StepTimers(inProject, run[i - 1], steps[i - 1], u);
      if Reconciles(inProject, run[i - 1], steps[i - 1], u) { k := i - 1; }
    }
  }

  /** In every state of every run only open files have a timer: closing one takes it back. */
  lemma {:induction false} TimersOpen(inProject: Uri -> bool, ready: bool, run: seq<State>, steps: seq<Step>, i: nat)
    requires Run(inProject, ready, run, steps) && i <= |steps|
    ensures run[i].timers <= run[i].open.Keys
  {
    if i > 0 {
      TimersOpen(inProject, ready, run, steps, i - 1);
      StepTimers(inProject, run[i - 1], steps[i - 1], "");
    }
  }
}
