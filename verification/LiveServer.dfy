// The handlers of overlay.ts and of the save registration in diagnostics.ts as they run:
// module-level sets, maps and counters updated in place, one method for each stretch of code
// between two awaits. Every method takes exactly one step of LiveValidation, and Serve, which
// calls them in any order the event loop may pick, goes through one of its runs.
module LiveServer {
  import opened LiveValidation
  import opened LiveValidationRuns

  class Server {
    const inProject: Uri -> bool
    var ready: bool
    var open: map<Uri, Buffer>
    var timers: set<Uri>
    var waiting: seq<Handler>
    var running: set<Uri>
    var rerun: set<Uri>
    var passes: map<nat, Pass>
    var queue: seq<Job>
    var head: Head
    var counter: nat
    var squiggles: map<Uri, Buffer>
    var rows: map<Uri, Origin>
    var attempts: map<Uri, Attempt>
    var missing: set<Uri>
    var checked: set<nat>
    var edits: nat
    var calls: nat

    function Now(): State
      reads this
    {
      State(ready, open, timers, waiting, running, rerun, passes, queue, head, counter, squiggles, rows, attempts,
        missing, checked, edits, calls)
    }

    constructor (inProject: Uri -> bool)
      ensures this.inProject == inProject && Now() == Init(false)
    {
      this.inProject := inProject;
      ready, open, timers, waiting, running, rerun := false, map[], {}, [], {}, {};
      passes, queue, head, counter, squiggles := map[], [], Queued, 0, map[];
      rows, attempts, missing, checked, edits, calls := map[], map[], {}, {}, 0, 0;
    }

    method OnDidChangeContent(u: Uri, version: int)
      requires Enabled(inProject, Now(), Change(u, version))
      modifies this
      ensures Now() == Next(inProject, old(Now()), Change(u, version))
    {
      open, edits := open[u := Buffer(version, edits)], edits + 1;
      if u in timers {
        timers := timers - {u};
      }
      timers := timers + {u};
    }

    /** The connection is set up: everything that awaits state.ready may go on. */
    method OnReadyResolved()
      requires Enabled(inProject, Now(), Ready)
      modifies this
      ensures Now() == Next(inProject, old(Now()), Ready)
    {
      ready := true;
    }

    /** A change on disk, debounced: validate_all requests the lock. */
    method OnWatched()
      requires Enabled(inProject, Now(), Watched)
      modifies this
      ensures Now() == Next(inProject, old(Now()), Watched)
    {
      queue := queue + [ValidateAll];
    }

    /** The lock holder has run the extraction: every file's rows come from disk. */
    method OnExtracted()
      requires Enabled(inProject, Now(), Extract)
      modifies this
      ensures Now() == Next(inProject, old(Now()), Extract)
    {
      head := Extracted;
      rows, attempts := map[], map[];
    }

    /** The callback of the debounce timer, up to `await state.ready`. */
    method OnTimer(u: Uri)
      requires Enabled(inProject, Now(), Fire(u))
      modifies this
      ensures Now() == Next(inProject, old(Now()), Fire(u))
    {
      timers := timers - {u};
      waiting := waiting + [Debounced(u)];
    }

    method OnDidClose(u: Uri)
      requires Enabled(inProject, Now(), Close(u))
      modifies this
      ensures Now() == Next(inProject, old(Now()), Close(u))
    {
      open := open - {u};
      if u in timers {
        timers := timers - {u};
      }
      squiggles := squiggles - {u};
      waiting := waiting + [Closed(u)];
    }

    method OnDidSave(u: Uri)
      requires Enabled(inProject, Now(), Save(u))
      modifies this
      ensures Now() == Next(inProject, old(Now()), Save(u))
    {
      waiting := waiting + [Saved(u, open[u])];
    }

    /** The first handler that waited for state.ready goes on. */
    method OnReady(locks: bool, onDisk: bool)
      requires Enabled(inProject, Now(), Resume(locks, onDisk))
      modifies this
      ensures Now() == Next(inProject, old(Now()), Resume(locks, onDisk))
    {
      var h := waiting[0];
      waiting := waiting[1..];
      GoOn(h, locks, onDisk);
    }

    method GoOn(h: Handler, locks: bool, onDisk: bool)
      modifies this
      ensures Now() == Continue(inProject, old(Now()), h, locks, onDisk)
    {
      match h {
        case Debounced(u) => Validate(u, locks);
        case Closed(u) => ReconcileFile(u, onDisk);
        case Saved(u, b) => ValidateFromDisk(u, b);
      }
    }

    /** The save handler clears the timer; validate drops the live diagnostics and requests the lock. */
    method ValidateFromDisk(u: Uri, b: Buffer)
      modifies this
      ensures Now() == ValidateSave(old(Now()), u, b)
    {
      if u in timers {
        timers := timers - {u};
      }
      squiggles := squiggles - {u};
      queue, checked := queue + [ValidateSaved(u)], checked + {b.edit};
    }

    /** live_validate up to its first await. */
    method Validate(u: Uri, locks: bool)
      modifies this
      ensures Now() == LiveValidate(old(Now()), u, locks)
    {
      if u in running {
        rerun := rerun + {u};
        return;
      }
      running := running + {u};
      Round(u, locks);
    }

    /** One round of the do loop up to the await of the pass, or the cleanup if there is no buffer. */
    method Round(u: Uri, locks: bool)
      modifies this
      ensures Now() == BeginPass(old(Now()), u, locks)
    {
      if u !in open {
        Unmark(u);
        return;
      }
      Snapshot(u, if locks then Pipeline(counter) else Returned);
      if locks {
        Request(Overlay(counter, u, FromBuffer));
      }
    }

    /** The cleanup after the last round. */
    method Unmark(u: Uri)
      modifies this
      ensures var s := old(Now()); Now() == s.(running := s.running - {u}, rerun := s.rerun - {u})
    {
      running := running - {u};
      rerun := rerun - {u};
    }

    /** The mark is taken back, the buffer read, and the fast diagnostics published. */
    method Snapshot(u: Uri, at: Await)
      requires u in open
      modifies this
      ensures var s := old(Now());
              Now() == s.(rerun := s.rerun - {u}, squiggles := s.squiggles[u := s.open[u]],
                          passes := s.passes[s.calls := Pass(u, s.open[u], at)], calls := s.calls + 1)
    {
      rerun := rerun - {u};
      squiggles := squiggles[u := open[u]];
      passes, calls := passes[calls := Pass(u, open[u], at)], calls + 1;
    }

    /** An overlay task gets its number and its place in the promise chain. */
    method Request(j: Job)
      modifies this
      ensures var s := old(Now()); Now() == s.(queue := s.queue + [j], counter := s.counter + 1)
    {
      queue, counter := queue + [j], counter + 1;
    }

    method ReconcileFile(u: Uri, onDisk: bool)
      modifies this
      ensures Now() == Reconcile(inProject, old(Now()), u, onDisk)
    {
      if !inProject(u) {
        return;
      }
      if !onDisk {
        rows := rows[u := Cleared];
        attempts, missing := attempts[u := Attempt(Cleared, true)], missing + {u};
        return;
      }
      Request(Overlay(counter, u, FromDisk));
      missing := missing - {u};
    }

    /** live_validate_pass after its overlay has answered. */
    method OnAnswer(id: nat, errors: bool)
      requires Enabled(inProject, Now(), Publish(id, errors))
      modifies this
      ensures Now() == Next(inProject, old(Now()), Publish(id, errors))
    {
      var p := passes[id];
      passes := passes[id := p.(at := Returned)];
      if !errors || p.uri !in open || open[p.uri].version != p.buffer.version {
        return;
      }
      squiggles := squiggles[p.uri := p.buffer];
    }

    /** live_validate after a pass: the loop test, then the next round or the cleanup. */
    method OnPassDone(id: nat, locks: bool)
      requires Enabled(inProject, Now(), Loop(id, locks))
      modifies this
      ensures Now() == Next(inProject, old(Now()), Loop(id, locks))
    {
      var u := passes[id].uri;
      LeavePass(id);
      if u in rerun {
        Round(u, locks);
      } else {
        Unmark(u);
      }
    }

    /** live_validate_pass has returned: the edit it was called for has been seen through. */
    method LeavePass(id: nat)
      requires id in passes
      modifies this
      ensures var s := old(Now());
              Now() == s.(passes := s.passes - {id}, checked := s.checked + {s.passes[id].buffer.edit})
    {
      checked := checked + {passes[id].buffer.edit};
      passes := passes - {id};
    }

    /** The next function in the promise chain runs up to its first await. */
    method OnLock(installs: bool)
      requires Enabled(inProject, Now(), Start(installs))
      modifies this
      ensures Now() == Next(inProject, old(Now()), Start(installs))
    {
      head := Running;
      var j := queue[0];
      if j.ValidateAll? {
        return;
      }
      if installs {
        rows := rows[j.uri := Written(j)];
      }
      attempts := attempts[j.uri := Attempt(Written(j), installs)];
    }

    /** The head of the promise chain settles. */
    method OnUnlock()
      requires Enabled(inProject, Now(), End)
      modifies this
      ensures Now() == Next(inProject, old(Now()), End)
    {
      var j := queue[0];
      queue := queue[1..];
      head := Queued;
      if j.Overlay? {
        passes := Settle(passes, j.task);
      }
    }

    /** The stretch of code that a step of the event loop runs. */
    method Take(l: Step)
      requires Enabled(inProject, Now(), l)
      modifies this
      ensures Now() == Next(inProject, old(Now()), l)
    {
      match l {
        case Change(u, v) => OnDidChangeContent(u, v);
        case Close(u) => OnDidClose(u);
        case Save(u) => OnDidSave(u);
        case Watched => OnWatched();
        case Ready => OnReadyResolved();
        case Fire(u) => OnTimer(u);
        case Resume(locks, onDisk) => OnReady(locks, onDisk);
        case Publish(id, errors) => OnAnswer(id, errors);
        case Loop(id, locks) => OnPassDone(id, locks);
        case Start(installs) => OnLock(installs);
        case Extract => OnExtracted();
        case End => OnUnlock();
      }
    }
  }

  lemma {:induction false} SameRun(inProject: Uri -> bool, run: seq<State>, steps: seq<Step>, other: seq<State>,
                                   script: seq<Step>, k: nat)
    requires Run(inProject, false, run, steps) && k <= |steps| && steps <= script
    ensures Run(inProject, false, other, script) ==> run[k] == other[k]
  {
    if k > 0 {
      SameRun(inProject, run, steps, other, script, k - 1);
      assert steps[k - 1] == script[k - 1];
    }
  }

  /** A server that is offered the events of a script, and ignores those that cannot happen when
      they come, goes through a run of the specification; a script that is a run is taken whole. */
  method Serve(inProject: Uri -> bool, script: seq<Step>)
    returns (server: Server, ghost run: seq<State>, ghost steps: seq<Step>)
    ensures Run(inProject, false, run, steps) && server.Now() == run[|steps|] && Always(inProject, server.Now())
    ensures forall other :: Run(inProject, false, other, script) ==> steps == script && other[|script|] == server.Now()
  {
    server := new Server(inProject);
    run, steps := [server.Now()], [];
    for k := 0 to |script|
      invariant server.inProject == inProject && fresh(server)
      invariant Run(inProject, false, run, steps) && server.Now() == run[|steps|]
      invariant forall other :: Run(inProject, false, other, script) ==> steps == script[..k]
    {
      if Enabled(inProject, server.Now(), script[k]) {
        server.Take(script[k]);
        Extend(inProject, false, run, steps, script[k], server.Now());
        run, steps := run + [server.Now()], steps + [script[k]];
      } else if steps == script[..k] {
        forall other ensures !Run(inProject, false, other, script) {
          SameRun(inProject, run, steps, other, script, k);
        }
      }
    }
    RunAlways(inProject, false, run, steps, |steps|);
    forall other | Run(inProject, false, other, script) ensures other[|script|] == server.Now() {
      SameRun(inProject, run, steps, other, script, |script|);
    }
  }
}
