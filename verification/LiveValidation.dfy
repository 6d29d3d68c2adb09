// The event loop of the language server's live validation (packages/houdini-lsp/src/overlay.ts,
// the save handler and lock use of diagnostics.ts). Code runs without interruption between two
// awaits, so each such stretch is one step; every order of edits, timers, promise
// continuations and pipeline results is a run.
module LiveValidation {
  type Uri = string

  /** An open document: the client's version number and the change event it stems from. */
  datatype Buffer = Buffer(version: int, edit: nat)

  /** Where the documents in the database for a file come from. */
  datatype Origin = FromDisk | FromBuffer | Cleared

  datatype Attempt = Attempt(origin: Origin, installed: bool)

  /** What waits in the promise chain of pipeline_lock. */
  datatype Job = Overlay(task: nat, uri: Uri, origin: Origin) | ValidateSaved(uri: Uri) | ValidateAll

  /** A handler stopped at `await state.ready`. */
  datatype Handler = Debounced(uri: Uri) | Closed(uri: Uri) | Saved(uri: Uri, buffer: Buffer)

  datatype Head = Queued | Running | Extracted

  datatype Await = Pipeline(task: nat) | Answered | Returned

  /** A call of live_validate_pass and what it, or the loop around it, is waiting for. */
  datatype Pass = Pass(uri: Uri, buffer: Buffer, at: Await)

  datatype State = State(
    ready: bool,                       // state.ready has resolved
    open: map<Uri, Buffer>,            // state.documents
    timers: set<Uri>,                  // live_timers
    waiting: seq<Handler>,             // continuations of state.ready, in order
    running: set<Uri>,
    rerun: set<Uri>,
    passes: map<nat, Pass>,
    queue: seq<Job>,                   // pipelineQueue, its head first
    head: Head,                        // how far the head has come
    counter: nat,                      // overlay_counter
    squiggles: map<Uri, Buffer>,       // live_diagnostics: the buffer they describe
    rows: map<Uri, Origin>,            // raw_documents; files not listed come from disk
    attempts: map<Uri, Attempt>,       // history: the last job that wrote a file's rows
    missing: set<Uri>,                 // history: files whose last close found nothing on disk
    checked: set<nat>,                 // history: edits a pass or a save has covered
    edits: nat,
    calls: nat)

  datatype Step =
    // from the client
    | Change(uri: Uri, version: int) | Close(uri: Uri) | Save(uri: Uri) | Watched
    // the loop's own
    | Ready
    | Fire(uri: Uri)
    | Resume(locks: bool, onDisk: bool)
    | Publish(id: nat, errors: bool)
    | Loop(id: nat, locks: bool)
    | Start(installs: bool) | Extract | End

  function Init(ready: bool): State
  {
    State(ready, map[], {}, [], {}, {}, map[], [], Queued, 0, map[], map[], map[], {}, {}, 0, 0)
  }

  /** Promise continuations run before the next message or timer: handlers that waited for a ready
      server, the next job of a settled chain, and passes whose await is over. */
  predicate Idle(s: State)
  {
    && (s.ready ==> s.waiting == []) && (s.queue != [] ==> s.head != Queued)
    && (forall id :: id in s.passes ==> s.passes[id].at.Pipeline?)
  }

  /** inProject says which files project_path accepts. */
  predicate Enabled(inProject: Uri -> bool, s: State, l: Step)
  {
    match l
    case Change(u, v) => Idle(s)
    case Close(u) => Idle(s) && u in s.open
    case Save(u) => Idle(s) && u in s.open
    case Watched => Idle(s)
    case Ready => !s.ready
    case Fire(u) => Idle(s) && u in s.timers
    case Resume(locks, _) => s.ready && s.waiting != [] && (locks ==> inProject(s.waiting[0].uri))
    case Publish(id, _) => id in s.passes && s.passes[id].at == Answered
    case Loop(id, locks) => id in s.passes && s.passes[id].at == Returned && (locks ==> inProject(s.passes[id].uri))
    case Start(_) => s.queue != [] && s.head == Queued
    case Extract => s.queue != [] && s.head == Running && !s.queue[0].Overlay?
    case End => s.queue != [] && s.head != Queued
  }

  function Next(inProject: Uri -> bool, s: State, l: Step): State
    requires Enabled(inProject, s, l)
  {
    match l
    case Change(u, v) => s.(open := s.open[u := Buffer(v, s.edits)], edits := s.edits + 1, timers := s.timers + {u})
    case Close(u) =>
      s.(open := s.open - {u}, timers := s.timers - {u}, squiggles := s.squiggles - {u},
         waiting := s.waiting + [Closed(u)])
    case Save(u) => s.(waiting := s.waiting + [Saved(u, s.open[u])])
    case Watched => s.(queue := s.queue + [ValidateAll])
    case Ready => s.(ready := true)
    case Fire(u) => s.(timers := s.timers - {u}, waiting := s.waiting + [Debounced(u)])
    case Resume(locks, onDisk) =>
      Continue(inProject, s.(waiting := s.waiting[1..]), s.waiting[0], locks, onDisk)
    case Publish(id, errors) => PublishAnswer(s, id, errors)
    case Loop(id, locks) => LoopTest(s, id, locks)
    case Start(installs) => StartJob(s, installs)
    case Extract => s.(head := Extracted, rows := map[], attempts := map[])
    case End => EndJob(s)
  }

  /** A handler goes on after `await state.ready`. */
  function Continue(inProject: Uri -> bool, s: State, h: Handler, locks: bool, onDisk: bool): State
  {
    match h
    case Debounced(u) => LiveValidate(s, u, locks)
    case Closed(u) => Reconcile(inProject, s, u, onDisk)
    case Saved(u, b) => ValidateSave(s, u, b)
  }

  /** live_validate up to its first await. */
  function LiveValidate(s: State, u: Uri, locks: bool): State
  {
    if u in s.running then s.(rerun := s.rerun + {u})
    else BeginPass(s.(running := s.running + {u}), u, locks)
  }

  /** The body of the do loop up to the await: snapshot, fast diagnostics, request the lock. */
  function BeginPass(s: State, u: Uri, locks: bool): State
  {
    if u !in s.open then s.(running := s.running - {u}, rerun := s.rerun - {u})
    else
      s.(rerun := s.rerun - {u},
         squiggles := s.squiggles[u := s.open[u]],
         passes := s.passes[s.calls := Pass(u, s.open[u], if locks then Pipeline(s.counter) else Returned)],
         calls := s.calls + 1,
         queue := if locks then s.queue + [Overlay(s.counter, u, FromBuffer)] else s.queue,
         counter := if locks then s.counter + 1 else s.counter)
  }

  /** reconcile_from_disk. */
  function Reconcile(inProject: Uri -> bool, s: State, u: Uri, onDisk: bool): State
  {
    if !inProject(u) then s
    else if onDisk then
      s.(queue := s.queue + [Overlay(s.counter, u, FromDisk)], counter := s.counter + 1, missing := s.missing - {u})
    else
      s.(rows := s.rows[u := Cleared], attempts := s.attempts[u := Attempt(Cleared, true)], missing := s.missing + {u})
  }

  /** The save handler after `await state.ready`, and validate up to its lock request. */
  function ValidateSave(s: State, u: Uri, b: Buffer): State
  {
    s.(timers := s.timers - {u}, squiggles := s.squiggles - {u}, queue := s.queue + [ValidateSaved(u)],
       checked := s.checked + {b.edit})
  }

  /** The rest of live_validate_pass: a failed overlay or a buffer that moved on publishes nothing. */
  function PublishAnswer(s: State, id: nat, errors: bool): State
    requires id in s.passes
  {
    var p := s.passes[id];
    var publishes := errors && p.uri in s.open && s.open[p.uri].version == p.buffer.version;
    s.(passes := s.passes[id := p.(at := Returned)],
       squiggles := if publishes then s.squiggles[p.uri := p.buffer] else s.squiggles)
  }

  /** The loop condition of live_validate and, in the same stretch, the next round or the cleanup. */
  function LoopTest(s: State, id: nat, locks: bool): State
    requires id in s.passes
  {
    var u := s.passes[id].uri;
    var done := s.(passes := s.passes - {id}, checked := s.checked + {s.passes[id].buffer.edit});
    if u in s.rerun then BeginPass(done, u, locks)
    else done.(running := s.running - {u}, rerun := s.rerun - {u})
  }

  /** A lock holder's first stretch: the transaction that replaces a file's rows. */
  function StartJob(s: State, installs: bool): State
    requires s.queue != []
  {
    var j := s.queue[0];
    if j.ValidateAll? then s.(head := Running)
    else
      s.(head := Running,
         attempts := s.attempts[j.uri := Attempt(Written(j), installs)],
         rows := if installs then s.rows[j.uri := Written(j)] else s.rows)
  }

  /** What a job puts in place of a file's rows: a save only clears them, extraction follows. */
  function Written(j: Job): Origin
  {
    if j.Overlay? then j.origin else Cleared
  }

  function EndJob(s: State): State
    requires s.queue != []
  {
    s.(queue := s.queue[1..], head := Queued,
       passes := if s.queue[0].Overlay? then Settle(s.passes, s.queue[0].task) else s.passes)
  }

  function Settle(passes: map<nat, Pass>, task: nat): map<nat, Pass>
  {
    map id | id in passes :: if passes[id].at == Pipeline(task) then passes[id].(at := Answered) else passes[id]
  }

  ghost predicate Run(inProject: Uri -> bool, ready: bool, run: seq<State>, steps: seq<Step>)
  {
    && |run| == |steps| + 1 && run[0] == Init(ready)
    && forall i :: 0 <= i < |steps| ==>
         Enabled(inProject, run[i], steps[i]) && run[i + 1] == Next(inProject, run[i], steps[i])
  }

  // ---------------------------------------------------------------------------
  // One pass per file
  // ---------------------------------------------------------------------------

  ghost predicate HasPass(passes: map<nat, Pass>, u: Uri)
  {
    exists id :: id in passes && passes[id].uri == u
  }

  ghost predicate Distinct(passes: map<nat, Pass>)
  {
    forall a, b :: a in passes && b in passes && passes[a].uri == passes[b].uri ==> a == b
  }

  /** Pass numbers come from the counter, and only marked files have a pass. */
  predicate Marked(passes: map<nat, Pass>, calls: nat, running: set<Uri>)
  {
    forall id :: id in passes ==> id < calls && passes[id].uri in running
  }

  /** Every marked file, but for one in between, has a pass. */
  ghost predicate Held(passes: map<nat, Pass>, running: set<Uri>)
  {
    forall u :: u in running ==> HasPass(passes, u)
  }

  ghost predicate OnePass(s: State)
  {
    Distinct(s.passes) && Marked(s.passes, s.calls, s.running) && Held(s.passes, s.running) && s.rerun <= s.running
  }

  /** Keeping the passes but changing what they wait for. */
  lemma SameHolders(before: map<nat, Pass>, passes: map<nat, Pass>, calls: nat, running: set<Uri>)
    requires Distinct(before) && Marked(before, calls, running) && Held(before, running)
    requires passes.Keys == before.Keys && forall id :: id in before ==> passes[id].uri == before[id].uri
    ensures Distinct(passes) && Marked(passes, calls, running) && Held(passes, running)
  {
    forall u | u in running ensures HasPass(passes, u) {
      assert HasPass(before, u);
      var id :| id in before && before[id].uri == u;
      assert id in passes;
    }
  }

  lemma AddPass(passes: map<nat, Pass>, calls: nat, running: set<Uri>, p: Pass)
    requires Distinct(passes) && Marked(passes, calls, running) && !HasPass(passes, p.uri)
    requires p.uri in running && Held(passes, running - {p.uri})
    ensures var more := passes[calls := p]; Distinct(more) && Marked(more, calls + 1, running) && Held(more, running)
  {
    var more := passes[calls := p];
    assert calls in more;
    forall u | u in running ensures HasPass(more, u) {
      if u != p.uri {
        assert HasPass(passes, u);
        var id :| id in passes && passes[id].uri == u;
        assert id in more;
      }
    }
  }

  lemma RemovePass(passes: map<nat, Pass>, calls: nat, running: set<Uri>, id: nat)
    requires Distinct(passes) && Marked(passes, calls, running) && Held(passes, running) && id in passes
    ensures var rest := passes - {id}; var u := passes[id].uri;
            Distinct(rest) && Marked(rest, calls, running - {u}) && Held(rest, running - {u}) && !HasPass(rest, u)
  {
    var rest := passes - {id};
    forall u | u in running - {passes[id].uri} ensures HasPass(rest, u) {
      assert HasPass(passes, u);
      var a :| a in passes && passes[a].uri == u;
      assert a in rest;
    }
  }

  /** A marked file without a pass gets its pass or loses the mark. */
  lemma BeginKeepsOnePass(s: State, u: Uri, locks: bool)
    requires Distinct(s.passes) && Marked(s.passes, s.calls, s.running - {u}) && !HasPass(s.passes, u)
    requires Held(s.passes, s.running - {u}) && s.rerun <= s.running && u in s.running
    ensures OnePass(BeginPass(s, u, locks))
  {
    if u in s.open {
      AddPass(s.passes, s.calls, s.running, Pass(u, s.open[u], if locks then Pipeline(s.counter) else Returned));
    }
  }

  lemma LoopKeepsOnePass(s: State, id: nat, locks: bool)
    requires OnePass(s) && id in s.passes
    ensures OnePass(LoopTest(s, id, locks))
  {
    var u := s.passes[id].uri;
    RemovePass(s.passes, s.calls, s.running, id);
    if u in s.rerun {
      BeginKeepsOnePass(s.(passes := s.passes - {id}, checked := s.checked + {s.passes[id].buffer.edit}), u, locks);
    }
  }

  lemma EntryKeepsOnePass(s: State, u: Uri, locks: bool)
    requires OnePass(s)
    ensures OnePass(LiveValidate(s, u, locks))
  {
    if u !in s.running {
      var marked := s.(running := s.running + {u});
      assert marked.running - {u} == s.running;
      BeginKeepsOnePass(marked, u, locks);
    }
  }

  lemma ReconcileKeepsOnePass(inProject: Uri -> bool, s: State, u: Uri, onDisk: bool)
    requires OnePass(s)
    ensures OnePass(Reconcile(inProject, s, u, onDisk))
  {}

  lemma ContinueKeepsOnePass(inProject: Uri -> bool, s: State, h: Handler, locks: bool, onDisk: bool)
    requires OnePass(s)
    ensures OnePass(Continue(inProject, s, h, locks, onDisk))
  {
    match h
    case Debounced(u) => EntryKeepsOnePass(s, u, locks);
    case Closed(u) => ReconcileKeepsOnePass(inProject, s, u, onDisk);
    case Saved(u, b) =>
  }

  lemma PublishKeepsOnePass(s: State, id: nat, errors: bool)
    requires OnePass(s) && id in s.passes
    ensures OnePass(PublishAnswer(s, id, errors))
  {
    SameHolders(s.passes, PublishAnswer(s, id, errors).passes, s.calls, s.running);
  }

  lemma EndKeepsOnePass(s: State)
    requires OnePass(s) && s.queue != []
    ensures OnePass(EndJob(s))
  {
    SameHolders(s.passes, EndJob(s).passes, s.calls, s.running);
  }

  lemma SameMarks(s: State, t: State)
    requires OnePass(s) && t.passes == s.passes && t.calls == s.calls && t.running == s.running && t.rerun == s.rerun
    ensures OnePass(t)
  {}

  lemma ResumeKeepsOnePass(inProject: Uri -> bool, s: State, locks: bool, onDisk: bool)
    requires OnePass(s) && Enabled(inProject, s, Resume(locks, onDisk))
    ensures OnePass(Next(inProject, s, Resume(locks, onDisk)))
  {
    hide OnePass, Continue;
    var rest := s.(waiting := s.waiting[1..]);
    SameMarks(s, rest);
    ContinueKeepsOnePass(inProject, rest, s.waiting[0], locks, onDisk);
  }

  lemma OtherKeepsOnePass(inProject: Uri -> bool, s: State, l: Step)
    requires OnePass(s) && Enabled(inProject, s, l)
    requires !l.Resume? && !l.Loop? && !l.Publish? && !l.End? && !l.Start?
    ensures OnePass(Next(inProject, s, l))
  {
    hide OnePass, Continue, LoopTest, PublishAnswer, EndJob, StartJob;
    SameMarks(s, Next(inProject, s, l));
  }

  lemma StepKeepsOnePass(inProject: Uri -> bool, s: State, l: Step)
    requires OnePass(s) && Enabled(inProject, s, l)
    ensures OnePass(Next(inProject, s, l))
  {
    hide OnePass, Continue, LoopTest, PublishAnswer, EndJob;
    match l
    case Resume(locks, onDisk) => ResumeKeepsOnePass(inProject, s, locks, onDisk);
    case Loop(id, locks) => LoopKeepsOnePass(s, id, locks);
    case Publish(id, errors) => PublishKeepsOnePass(s, id, errors);
    case End => EndKeepsOnePass(s);
    case Start(installs) => SameMarks(s, StartJob(s, installs));
    case _ => OtherKeepsOnePass(inProject, s, l);
  }

  // ---------------------------------------------------------------------------
  // No edit is forgotten
  // ---------------------------------------------------------------------------

  /** Something will still call live_validate for the file, or go round its loop again. */
  predicate Woken(s: State, u: Uri)
  {
    u in s.timers || Debounced(u) in s.waiting || u in s.rerun
  }

  ghost predicate InFlight(s: State, u: Uri)
    requires u in s.open
  {
    exists id :: id in s.passes && s.passes[id].uri == u && s.passes[id].buffer == s.open[u]
  }

  /** The newest edit has been validated or is going to be. */
  ghost predicate Covered(s: State, u: Uri)
  {
    u in s.open ==> s.open[u].edit in s.checked || Woken(s, u) || InFlight(s, u)
  }

  /** A save waiting for the server describes the buffer the client has now. */
  predicate SavesCurrent(s: State)
  {
    forall h :: h in s.waiting && h.Saved? ==> h.uri in s.open && s.open[h.uri] == h.buffer
  }

  /** Nothing that covered the file is taken away. */
  lemma StillCovered(s: State, t: State, v: Uri)
    requires Covered(s, v)
    requires v in t.open ==> v in s.open && t.open[v] == s.open[v]
    requires s.checked <= t.checked
    requires Woken(s, v) ==> Woken(t, v)
    requires forall id :: id in s.passes ==>
               id in t.passes && t.passes[id].uri == s.passes[id].uri && t.passes[id].buffer == s.passes[id].buffer
    ensures Covered(t, v)
  {
    if v in t.open && InFlight(s, v) {
      var id :| id in s.passes && s.passes[id].uri == v && s.passes[id].buffer == s.open[v];
      assert id in t.passes;
    }
  }

  lemma BeginCovers(s: State, u: Uri, locks: bool, v: Uri)
    requires forall id :: id in s.passes ==> id < s.calls
    requires v == u || Covered(s, v)
    ensures Covered(BeginPass(s, u, locks), v)
  {
    if u in s.open {
      var t := BeginPass(s, u, locks);
      if v == u {
        assert s.calls in t.passes;
      } else {
        StillCovered(s, t, v);
      }
    }
  }

  lemma LoopCovers(s: State, id: nat, locks: bool, v: Uri)
    requires OnePass(s) && id in s.passes && Covered(s, v)
    ensures Covered(LoopTest(s, id, locks), v)
  {
    var u := s.passes[id].uri;
    var done := s.(passes := s.passes - {id}, checked := s.checked + {s.passes[id].buffer.edit});
    if v in s.open && InFlight(s, v) {
      var a :| a in s.passes && s.passes[a].uri == v && s.passes[a].buffer == s.open[v];
      assert a != id ==> a in done.passes;
    }
    assert Covered(done, v);
    if u in s.rerun {
      BeginCovers(done, u, locks, v);
    } else {
      var t := LoopTest(s, id, locks);
      assert t.passes == done.passes && t.open == done.open;
      assert v in t.open && InFlight(done, v) ==> InFlight(t, v);
    }
  }

  /** Besides a timer, something has validated the newest edit or is going to. */
  ghost predicate Begun(s: State, u: Uri)
    requires u in s.open
  {
    s.open[u].edit in s.checked || Debounced(u) in s.waiting || u in s.rerun || InFlight(s, u)
  }

  /** When a save handler goes on, the file stays covered exactly if the saved edit is the newest
      one, or something besides the cleared timer covers it. */
  lemma SaveKeepsCovered(s: State, u: Uri, b: Buffer)
    requires u in s.open
    ensures Covered(ValidateSave(s, u, b), u) <==> s.open[u].edit == b.edit || Begun(s, u)
  {
    var t := ValidateSave(s, u, b);
    assert t.passes == s.passes && t.open == s.open;
    assert InFlight(t, u) <==> InFlight(s, u);
  }

  /** The step in which a save handler goes on. */
  predicate SaveGoesOn(s: State, l: Step, u: Uri)
  {
    l.Resume? && s.waiting != [] && s.waiting[0].Saved? && s.waiting[0].uri == u
  }

  /** The step takes the newest edit's only cover: a save of another edit goes on and clears the timer. */
  ghost predicate Loses(s: State, l: Step, u: Uri)
  {
    SaveGoesOn(s, l, u) && u in s.open && s.open[u].edit != s.waiting[0].buffer.edit && !Begun(s, u)
  }

  /** The first waiting handler leaves the line; only a debounced one for v took part in covering v. */
  lemma DequeueCovers(s: State, v: Uri)
    requires s.waiting != [] && s.waiting[0] != Debounced(v) && Covered(s, v)
    ensures Covered(s.(waiting := s.waiting[1..]), v)
  {
    assert s.waiting == [s.waiting[0]] + s.waiting[1..];
    StillCovered(s, s.(waiting := s.waiting[1..]), v);
  }

  lemma DequeueBegun(s: State, v: Uri)
    requires s.waiting != [] && s.waiting[0] != Debounced(v) && v in s.open
    ensures Begun(s.(waiting := s.waiting[1..]), v) <==> Begun(s, v)
  {
    var rest := s.(waiting := s.waiting[1..]);
    assert s.waiting == [s.waiting[0]] + rest.waiting;
    assert InFlight(rest, v) <==> InFlight(s, v);
  }

  lemma EntryCovers(s: State, u: Uri, locks: bool, v: Uri)
    requires OnePass(s) && (v == u || Covered(s, v))
    ensures Covered(LiveValidate(s, u, locks), v)
  {
    if u !in s.running {
      var marked := s.(running := s.running + {u});
      if v != u { StillCovered(s, marked, v); }
      BeginCovers(marked, u, locks, v);
    } else if v != u {
      StillCovered(s, s.(rerun := s.rerun + {u}), v);
    }
  }

  lemma ReconcileCovers(inProject: Uri -> bool, s: State, u: Uri, onDisk: bool, v: Uri)
    requires Covered(s, v)
    ensures Covered(Reconcile(inProject, s, u, onDisk), v)
  {
    StillCovered(s, Reconcile(inProject, s, u, onDisk), v);
  }

  lemma SaveCovers(s: State, u: Uri, b: Buffer, v: Uri)
    requires Covered(s, v) && (v == u ==> v in s.open && (s.open[v].edit == b.edit || Begun(s, v)))
    ensures Covered(ValidateSave(s, u, b), v)
  {
    if v == u {
      SaveKeepsCovered(s, u, b);
    } else {
      StillCovered(s, ValidateSave(s, u, b), v);
    }
  }

  lemma ResumeCovers(inProject: Uri -> bool, s: State, locks: bool, onDisk: bool, v: Uri)
    requires OnePass(s) && Covered(s, v) && Enabled(inProject, s, Resume(locks, onDisk)) && v in s.open
    requires !Loses(s, Resume(locks, onDisk), v)
    ensures Covered(Next(inProject, s, Resume(locks, onDisk)), v)
  {
    var h := s.waiting[0];
    var rest := s.(waiting := s.waiting[1..]);
    if h != Debounced(v) {
      DequeueCovers(s, v);
    }
    match h
    case Debounced(u) => EntryCovers(rest, u, locks, v);
    case Closed(u) => ReconcileCovers(inProject, rest, u, onDisk, v);
    case Saved(u, b) => DequeueBegun(s, v); SaveCovers(rest, u, b, v);
  }

  lemma ClientCovers(inProject: Uri -> bool, s: State, l: Step, v: Uri)
    requires Covered(s, v) && Enabled(inProject, s, l) && (l.Change? || l.Close? || l.Save? || l.Fire?)
    ensures Covered(Next(inProject, s, l), v)
  {
    var t := Next(inProject, s, l);
    assert forall h :: h in s.waiting ==> h in t.waiting;
    if l.uri == v && (l.Change? || l.Close?) {
    } else {
      assert l == Fire(v) ==> t.waiting[|s.waiting|] == Debounced(v);
      StillCovered(s, t, v);
    }
  }

  lemma StartKeepsPasses(s: State, installs: bool)
    requires s.queue != []
    ensures var t := StartJob(s, installs);
            t.passes == s.passes && t.checked == s.checked && t.rerun == s.rerun && t.timers == s.timers &&
            t.waiting == s.waiting && t.open == s.open
  {}

  lemma PipelineCovers(inProject: Uri -> bool, s: State, l: Step, v: Uri)
    requires Covered(s, v) && Enabled(inProject, s, l)
    requires l.Watched? || l.Ready? || l.Publish? || l.Start? || l.Extract? || l.End?
    ensures Covered(Next(inProject, s, l), v)
  {
    hide Continue, LoopTest, Covered, StartJob;
    if l.Start? { StartKeepsPasses(s, l.installs); }
    StillCovered(s, Next(inProject, s, l), v);
  }

  /** A covered edit stays covered in every step that does not take its only cover. */
  lemma StepCovers(inProject: Uri -> bool, s: State, l: Step, v: Uri)
    requires OnePass(s) && Covered(s, v) && !Loses(s, l, v) && Enabled(inProject, s, l)
    ensures Covered(Next(inProject, s, l), v)
  {
    match l
    case Resume(locks, onDisk) =>
      ContinueKeepsDocuments(inProject, s.(waiting := s.waiting[1..]), s.waiting[0], locks, onDisk);
      if v in s.open { ResumeCovers(inProject, s, locks, onDisk, v); }
    case Loop(id, locks) => LoopCovers(s, id, locks, v);
    case Change(_, _) => ClientCovers(inProject, s, l, v);
    case Close(_) => ClientCovers(inProject, s, l, v);
    case Save(_) => ClientCovers(inProject, s, l, v);
    case Fire(_) => ClientCovers(inProject, s, l, v);
    case _ => PipelineCovers(inProject, s, l, v);
  }

  /** Nothing the client sees as the state of its documents changes. */
  predicate SameDocuments(s: State, t: State)
  {
    t.open == s.open && t.ready == s.ready && t.waiting == s.waiting
  }

  lemma BeginKeepsDocuments(s: State, u: Uri, locks: bool)
    ensures SameDocuments(s, BeginPass(s, u, locks))
  {}

  lemma ContinueKeepsDocuments(inProject: Uri -> bool, s: State, h: Handler, locks: bool, onDisk: bool)
    ensures SameDocuments(s, Continue(inProject, s, h, locks, onDisk))
  {
    match h
    case Debounced(u) => BeginKeepsDocuments(s.(running := s.running + {u}), u, locks);
    case Closed(u) =>
    case Saved(u, b) =>
  }

  lemma LoopKeepsDocuments(s: State, id: nat, locks: bool)
    requires id in s.passes
    ensures SameDocuments(s, LoopTest(s, id, locks))
  {
    BeginKeepsDocuments(s.(passes := s.passes - {id}, checked := s.checked + {s.passes[id].buffer.edit}),
      s.passes[id].uri, locks);
  }

  lemma StepKeepsSavesCurrent(inProject: Uri -> bool, s: State, l: Step)
    requires s.ready && SavesCurrent(s) && Enabled(inProject, s, l)
    ensures Next(inProject, s, l).ready && SavesCurrent(Next(inProject, s, l))
  {
    match l
    case Resume(locks, onDisk) =>
      ContinueKeepsDocuments(inProject, s.(waiting := s.waiting[1..]), s.waiting[0], locks, onDisk);
      assert forall h :: h in s.waiting[1..] ==> h in s.waiting;
    case Loop(id, locks) => LoopKeepsDocuments(s, id, locks);
    case Save(u) => assert Next(inProject, s, l).waiting == [Saved(u, s.open[u])];
    case _ =>
  }
}
