// The live validation comes to rest, and what holds when it has
// (packages/houdini-lsp/src/overlay.ts).
module LiveValidationProgress {
  import opened LiveValidation
  import opened LiveValidationProofs

  // ---------------------------------------------------------------------------
  // The live diagnostics and the buffer the client shows
  // ---------------------------------------------------------------------------

  /** By version number, as the server compares buffers, or exactly. */
  predicate Fits(exact: bool, shown: Buffer, buffer: Buffer)
  {
    if exact then shown == buffer else shown.version == buffer.version
  }

  /** Live diagnostics belong to an open file and fit its buffer, unless a validation is pending. */
  predicate InSyncAt(exact: bool, s: State, u: Uri)
  {
    u in s.squiggles ==> u in s.open && (Fits(exact, s.squiggles[u], s.open[u]) || Woken(s, u))
  }

  /** An answer is published for a buffer that has the open buffer's version number but not its
      text, and nothing is pending for the file. */
  predicate Misplaces(s: State, l: Step, u: Uri)
  {
    && l.Publish? && l.errors && l.id in s.passes && s.passes[l.id].uri == u && u in s.open && !Woken(s, u)
    && s.open[u].version == s.passes[l.id].buffer.version && s.open[u] != s.passes[l.id].buffer
  }

  lemma BeginSyncs(exact: bool, s: State, u: Uri, locks: bool, v: Uri)
    requires (v == u && (u !in s.open ==> u !in s.squiggles)) || InSyncAt(exact, s, v)
    ensures InSyncAt(exact, BeginPass(s, u, locks), v)
  {
    if u in s.open && v != u {
      var t := BeginPass(s, u, locks);
      assert Woken(t, v) <==> Woken(s, v);
    }
  }

  lemma EntrySyncs(exact: bool, s: State, u: Uri, locks: bool, v: Uri)
    requires (v == u && (u in s.squiggles ==> u in s.open)) || InSyncAt(exact, s, v)
    ensures InSyncAt(exact, LiveValidate(s, u, locks), v)
  {
    if u !in s.running {
      BeginSyncs(exact, s.(running := s.running + {u}), u, locks, v);
    }
  }

  lemma ContinueSyncs(exact: bool, inProject: Uri -> bool, s: State, h: Handler, locks: bool, onDisk: bool, v: Uri)
    requires (h == Debounced(v) && (v in s.squiggles ==> v in s.open)) || InSyncAt(exact, s, v)
    ensures InSyncAt(exact, Continue(inProject, s, h, locks, onDisk), v)
  {
    match h
    case Debounced(u) => EntrySyncs(exact, s, u, locks, v);
    case Closed(u) =>
    case Saved(u, b) =>
  }

  lemma ResumeSyncs(exact: bool, inProject: Uri -> bool, s: State, locks: bool, onDisk: bool, v: Uri)
    requires InSyncAt(exact, s, v) && Enabled(inProject, s, Resume(locks, onDisk))
    ensures InSyncAt(exact, Next(inProject, s, Resume(locks, onDisk)), v)
  {
    var rest := s.(waiting := s.waiting[1..]);
    assert s.waiting == [s.waiting[0]] + rest.waiting;
    ContinueSyncs(exact, inProject, rest, s.waiting[0], locks, onDisk, v);
  }

  lemma LoopSyncs(exact: bool, s: State, id: nat, locks: bool, v: Uri)
    requires InSyncAt(exact, s, v) && id in s.passes
    ensures InSyncAt(exact, LoopTest(s, id, locks), v)
  {
    var done := s.(passes := s.passes - {id}, checked := s.checked + {s.passes[id].buffer.edit});
    BeginSyncs(exact, done, s.passes[id].uri, locks, v);
  }

  lemma ClientSyncs(exact: bool, inProject: Uri -> bool, s: State, l: Step, v: Uri)
    requires InSyncAt(exact, s, v) && Enabled(inProject, s, l) && (l.Change? || l.Close? || l.Save? || l.Fire?)
    ensures InSyncAt(exact, Next(inProject, s, l), v)
  {
    var t := Next(inProject, s, l);
    assert forall h :: h in s.waiting ==> h in t.waiting;
    assert l == Fire(v) ==> t.waiting[|s.waiting|] == Debounced(v);
  }

  lemma StepSyncs(exact: bool, inProject: Uri -> bool, s: State, l: Step, v: Uri)
    requires InSyncAt(exact, s, v) && Enabled(inProject, s, l) && (exact ==> !Misplaces(s, l, v))
    ensures InSyncAt(exact, Next(inProject, s, l), v)
  {
    match l
    case Resume(locks, onDisk) => ResumeSyncs(exact, inProject, s, locks, onDisk, v);
    case Loop(id, locks) => LoopSyncs(exact, s, id, locks, v);
    case Change(_, _) => ClientSyncs(exact, inProject, s, l, v);
    case Close(_) => ClientSyncs(exact, inProject, s, l, v);
    case Save(_) => ClientSyncs(exact, inProject, s, l, v);
    case Fire(_) => ClientSyncs(exact, inProject, s, l, v);
    case _ =>
  }

  // ---------------------------------------------------------------------------
  // A pass that waits for the pipeline has its job in the queue
  // ---------------------------------------------------------------------------

  ghost predicate HasJob(jobs: seq<Job>, task: nat)
  {
    exists k: int :: 0 <= k < |jobs| && jobs[k].Overlay? && jobs[k].task == task
  }

  ghost predicate Served(passes: map<nat, Pass>, jobs: seq<Job>)
  {
    forall id :: id in passes && passes[id].at.Pipeline? ==> HasJob(jobs, passes[id].at.task)
  }

  lemma MoreJobs(passes: map<nat, Pass>, jobs: seq<Job>, j: Job)
    requires Served(passes, jobs)
    ensures Served(passes, jobs + [j])
  {
    forall id | id in passes && passes[id].at.Pipeline? ensures HasJob(jobs + [j], passes[id].at.task) {
      var k: int :| 0 <= k < |jobs| && jobs[k].Overlay? && jobs[k].task == passes[id].at.task;
      assert (jobs + [j])[k] == jobs[k];
    }
  }

  lemma JobDone(passes: map<nat, Pass>, jobs: seq<Job>)
    requires Served(passes, jobs) && jobs != []
    ensures Served(if jobs[0].Overlay? then Settle(passes, jobs[0].task) else passes, jobs[1..])
  {
    var rest := if jobs[0].Overlay? then Settle(passes, jobs[0].task) else passes;
    forall id | id in rest && rest[id].at.Pipeline? ensures HasJob(jobs[1..], rest[id].at.task) {
      var k: int :| 0 <= k < |jobs| && jobs[k].Overlay? && jobs[k].task == passes[id].at.task;
      assert jobs[1..][k - 1] == jobs[k];
    }
  }

  lemma BeginServes(s: State, u: Uri, locks: bool)
    requires Served(s.passes, s.queue)
    ensures var t := BeginPass(s, u, locks); Served(t.passes, t.queue)
  {
    if u in s.open && locks {
      var j := Overlay(s.counter, u, FromBuffer);
      MoreJobs(s.passes, s.queue, j);
      assert (s.queue + [j])[|s.queue|] == j;
    }
  }

  lemma ContinueServes(inProject: Uri -> bool, s: State, h: Handler, locks: bool, onDisk: bool)
    requires Served(s.passes, s.queue)
    ensures var t := Continue(inProject, s, h, locks, onDisk); Served(t.passes, t.queue)
  {
    match h
    case Debounced(u) => if u !in s.running { BeginServes(s.(running := s.running + {u}), u, locks); }
    case Closed(u) => MoreJobs(s.passes, s.queue, Overlay(s.counter, u, FromDisk));
    case Saved(u, b) => MoreJobs(s.passes, s.queue, ValidateSaved(u));
  }

  lemma StepServes(inProject: Uri -> bool, s: State, l: Step)
    requires Served(s.passes, s.queue) && Enabled(inProject, s, l)
    ensures Served(Next(inProject, s, l).passes, Next(inProject, s, l).queue)
  {
    match l
    case Resume(locks, onDisk) =>
      ContinueServes(inProject, s.(waiting := s.waiting[1..]), s.waiting[0], locks, onDisk);
    case Loop(id, locks) =>
      BeginServes(s.(passes := s.passes - {id}, checked := s.checked + {s.passes[id].buffer.edit}),
        s.passes[id].uri, locks);
    case Watched => MoreJobs(s.passes, s.queue, ValidateAll);
    case End => JobDone(s.passes, s.queue);
    case _ =>
  }

  // ---------------------------------------------------------------------------
  // The loop comes to rest
  // ---------------------------------------------------------------------------

  predicate FromClient(l: Step) { l.Change? || l.Close? || l.Save? || l.Watched? }

  predicate Quiet(s: State)
  {
    s.ready && s.timers == {} && s.waiting == [] && s.rerun == {} && s.passes == map[] && s.queue == []
  }

  function Unpublished(passes: map<nat, Pass>): set<nat>
  {
    set id | id in passes && passes[id].at != Returned
  }

  function HeadProgress(h: Head): int
  {
    match h case Queued => 0 case Running => 1 case Extracted => 2
  }

  /** How much the loop can still do by itself. */
  function Work(s: State): int
  {
    (if s.ready then 0 else 1) + 7 * |s.timers| + 6 * |s.waiting| + 5 * |s.rerun| + |s.passes| +
    |Unpublished(s.passes)| + 3 * |s.queue| - HeadProgress(s.head)
  }

  lemma WorkIsNatural(s: State)
    requires Sound(s)
    ensures Work(s) >= 0
  {}

  lemma SmallerSet<T>(a: set<T>, b: set<T>)
    requires a <= b
    ensures |a| <= |b|
  {
    if a != {} {
      var x :| x in a;
      SmallerSet(a - {x}, b - {x});
    }
  }

  lemma AddingPass(passes: map<nat, Pass>, id: nat, p: Pass)
    ensures |passes[id := p]| <= |passes| + 1 && |Unpublished(passes[id := p])| <= |Unpublished(passes)| + 1
  {
    SmallerSet(passes[id := p].Keys, passes.Keys + {id});
    SmallerSet(Unpublished(passes[id := p]), Unpublished(passes) + {id});
  }

  lemma DroppingPass(passes: map<nat, Pass>, id: nat)
    requires id in passes
    ensures |passes - {id}| == |passes| - 1 && |Unpublished(passes - {id})| <= |Unpublished(passes)|
  {
    assert (passes - {id}).Keys == passes.Keys - {id};
    SmallerSet(Unpublished(passes - {id}), Unpublished(passes));
  }

  lemma PublishingPass(passes: map<nat, Pass>, id: nat, p: Pass)
    requires id in passes && passes[id].at != Returned && p.at == Returned
    ensures |passes[id := p]| == |passes| && |Unpublished(passes[id := p])| < |Unpublished(passes)|
  {
    assert passes[id := p].Keys == passes.Keys;
    assert id in Unpublished(passes);
    SmallerSet(Unpublished(passes[id := p]), Unpublished(passes) - {id});
  }

  lemma SettlingPass(passes: map<nat, Pass>, task: nat)
    ensures |Settle(passes, task)| == |passes| && |Unpublished(Settle(passes, task))| == |Unpublished(passes)|
  {
    assert Settle(passes, task).Keys == passes.Keys;
    assert Unpublished(Settle(passes, task)) == Unpublished(passes);
  }

  lemma BeginAddsFive(s: State, u: Uri, locks: bool)
    ensures Work(BeginPass(s, u, locks)) <= Work(s) - (if u in s.rerun then 5 else 0) + 5
  {
    var t := BeginPass(s, u, locks);
    if u in s.open {
      AddingPass(s.passes, s.calls, t.passes[s.calls]);
    }
    assert t.rerun == s.rerun - {u};
  }

  lemma ContinueAddsFive(inProject: Uri -> bool, s: State, h: Handler, locks: bool, onDisk: bool)
    ensures Work(Continue(inProject, s, h, locks, onDisk)) <= Work(s) + 5
  {
    hide BeginPass;
    match h
    case Debounced(u) => if u !in s.running { BeginAddsFive(s.(running := s.running + {u}), u, locks); }
    case Closed(u) =>
    case Saved(u, b) => SmallerSet(s.timers - {u}, s.timers);
  }

  lemma ResumeWorks(inProject: Uri -> bool, s: State, locks: bool, onDisk: bool)
    requires Enabled(inProject, s, Resume(locks, onDisk))
    ensures Work(Next(inProject, s, Resume(locks, onDisk))) < Work(s)
  {
    ContinueAddsFive(inProject, s.(waiting := s.waiting[1..]), s.waiting[0], locks, onDisk);
  }

  lemma LoopWorks(s: State, id: nat, locks: bool)
    requires id in s.passes
    ensures Work(LoopTest(s, id, locks)) < Work(s)
  {
    var done := s.(passes := s.passes - {id}, checked := s.checked + {s.passes[id].buffer.edit});
    DroppingPass(s.passes, id);
    BeginAddsFive(done, s.passes[id].uri, locks);
    SmallerSet(s.rerun - {s.passes[id].uri}, s.rerun);
  }

  lemma EndWorks(s: State)
    requires s.queue != [] && s.head != Queued
    ensures Work(EndJob(s)) < Work(s)
  {
    hide Settle, Unpublished;
    if s.queue[0].Overlay? { SettlingPass(s.passes, s.queue[0].task); }
  }

  lemma FireWorks(s: State, t: State, u: Uri)
    requires u in s.timers && t == s.(timers := s.timers - {u}, waiting := s.waiting + [Debounced(u)])
    ensures Work(t) < Work(s)
  {}

  lemma StartWorks(s: State, installs: bool)
    requires s.queue != [] && s.head == Queued
    ensures Work(StartJob(s, installs)) < Work(s)
  {
    hide Unpublished;
  }

  /** Every step that is not a message from the client uses up some work. */
  lemma StepWorks(inProject: Uri -> bool, s: State, l: Step)
    requires Enabled(inProject, s, l) && !FromClient(l)
    ensures Work(Next(inProject, s, l)) < Work(s)
  {
    match l
    case Resume(locks, onDisk) => ResumeWorks(inProject, s, locks, onDisk);
    case Loop(id, locks) => LoopWorks(s, id, locks);
    case Publish(id, errors) => PublishingPass(s.passes, id, s.passes[id].(at := Returned));
    case End => EndWorks(s);
    case Fire(u) => FireWorks(s, Next(inProject, s, l), u);
    case Start(installs) => StartWorks(s, installs);
    case _ =>
  }

  lemma NoMarkWithoutPass(s: State)
    requires OnePass(s)
    ensures s.passes == map[] ==> s.rerun == {}
  {
    forall u ensures u in s.rerun ==> HasPass(s.passes, u) {}
  }

  /** As long as something is pending, the loop has a step of its own to take. */
  lemma Stirs(inProject: Uri -> bool, s: State) returns (l: Step)
    requires OnePass(s) && Served(s.passes, s.queue)
    ensures Quiet(s) || (Enabled(inProject, s, l) && !FromClient(l))
  {
    l := Ready;
    NoMarkWithoutPass(s);
    if s.ready {
      if s.waiting != [] {
        l := Resume(false, true);
      } else if s.queue != [] {
        l := if s.head == Queued then Start(true) else End;
      } else if s.passes != map[] {
        var id :| id in s.passes;
        assert s.passes[id].at.Pipeline? ==> HasJob(s.queue, s.passes[id].at.task);
        l := if s.passes[id].at == Answered then Publish(id, false) else Loop(id, false);
      } else if s.timers != {} {
        var u :| u in s.timers;
        l := Fire(u);
      }
    }
  }
}
