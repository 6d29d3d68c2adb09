// The guarantees of the live validation over whole runs, and three runs that show where they end
// (packages/houdini-lsp/src/overlay.ts, packages/houdini-lsp/src/diagnostics.ts).
module LiveValidationRuns {
  import opened LiveValidation
  import opened LiveValidationProofs
  import opened LiveValidationProgress
  import opened LiveValidationHistory

  /** The rows are what the last successful job wrote. */
  predicate Recorded(rows: map<Uri, Origin>, attempts: map<Uri, Attempt>)
  {
    && rows.Keys <= attempts.Keys
    && forall u :: u in attempts && attempts[u].installed ==> u in rows && rows[u] == attempts[u].origin
  }

  function RowsOf(s: State, u: Uri): Origin
  {
    if u in s.rows then s.rows[u] else FromDisk
  }

  lemma ReconcileRecords(inProject: Uri -> bool, s: State, u: Uri, onDisk: bool)
    requires Recorded(s.rows, s.attempts)
    ensures var t := Reconcile(inProject, s, u, onDisk); Recorded(t.rows, t.attempts)
  {}

  /** Beginning a pass leaves the database alone. */
  lemma BeginKeepsRows(s: State, u: Uri, locks: bool)
    ensures var t := BeginPass(s, u, locks); t.rows == s.rows && t.attempts == s.attempts
  {}

  lemma ContinueRecords(inProject: Uri -> bool, s: State, h: Handler, locks: bool, onDisk: bool)
    requires Recorded(s.rows, s.attempts)
    ensures var t := Continue(inProject, s, h, locks, onDisk); Recorded(t.rows, t.attempts)
  {
    match h
    case Debounced(u) => BeginKeepsRows(s.(running := s.running + {u}), u, locks);
    case Closed(u) => ReconcileRecords(inProject, s, u, onDisk);
    case Saved(u, b) =>
  }

  lemma StartRecords(s: State, installs: bool)
    requires Recorded(s.rows, s.attempts) && s.queue != []
    ensures var t := StartJob(s, installs); Recorded(t.rows, t.attempts)
  {}

  lemma StepRecords(inProject: Uri -> bool, s: State, l: Step)
    requires Recorded(s.rows, s.attempts) && Enabled(inProject, s, l)
    ensures var t := Next(inProject, s, l); Recorded(t.rows, t.attempts)
  {
    match l
    case Resume(locks, onDisk) =>
      ContinueRecords(inProject, s.(waiting := s.waiting[1..]), s.waiting[0], locks, onDisk);
    case Loop(id, locks) =>
      BeginKeepsRows(s.(passes := s.passes - {id}, checked := s.checked + {s.passes[id].buffer.edit}),
        s.passes[id].uri, locks);
    case Start(installs) => StartRecords(s, installs);
    case _ =>
  }

  ghost predicate AllSettled(inProject: Uri -> bool, s: State) { forall u :: SettledAt(inProject, s, u) }

  ghost predicate AllInSync(s: State) { forall u :: InSyncAt(false, s, u) }

  ghost predicate AllOwned(s: State) { Bounded(s) && forall u :: OwnedAt(s, u) }

  /** What every state of every run has. */
  ghost predicate Always(inProject: Uri -> bool, s: State)
  {
    && OnePass(s) && Sound(s) && Served(s.passes, s.queue)
    && Recorded(s.rows, s.attempts) && AllSettled(inProject, s) && AllInSync(s) && AllOwned(s)
  }

  lemma StepKeepsAll(inProject: Uri -> bool, s: State, l: Step)
    requires Sound(s) && AllSettled(inProject, s) && AllInSync(s) && AllOwned(s) && Enabled(inProject, s, l)
    ensures var t := Next(inProject, s, l); Sound(t) && AllSettled(inProject, t) && AllInSync(t) && AllOwned(t)
  {
    hide Next, Enabled, Sound, SettledAt, InSyncAt, OwnedAt, Bounded;
    var t := Next(inProject, s, l);
    StepSettles(inProject, s, l, "");
    StepOwns(inProject, s, l, "");
    forall u ensures SettledAt(inProject, t, u) { StepSettles(inProject, s, l, u); }
    forall u ensures InSyncAt(false, t, u) { StepSyncs(false, inProject, s, l, u); }
    forall u ensures OwnedAt(t, u) { StepOwns(inProject, s, l, u); }
  }

  lemma StepAlways(inProject: Uri -> bool, s: State, l: Step)
    requires Always(inProject, s) && Enabled(inProject, s, l)
    ensures Always(inProject, Next(inProject, s, l))
  {
    StepKeepsOnePass(inProject, s, l);
    StepServes(inProject, s, l);
    StepRecords(inProject, s, l);
    StepKeepsAll(inProject, s, l);
  }

  lemma {:induction false} RunAlways(inProject: Uri -> bool, ready: bool, run: seq<State>, steps: seq<Step>, i: nat)
    requires Run(inProject, ready, run, steps) && i < |run|
    ensures Always(inProject, run[i]) && (ready ==> run[i].ready && SavesCurrent(run[i]))
  {
    if i > 0 {
      RunAlways(inProject, ready, run, steps, i - 1);
      StepAlways(inProject, run[i - 1], steps[i - 1]);
      if ready { StepKeepsSavesCurrent(inProject, run[i - 1], steps[i - 1]); }
    }
  }

  // ---------------------------------------------------------------------------
  // Lost in one step, and not brought back since
  // ---------------------------------------------------------------------------

  ghost predicate Since(run: seq<State>, steps: seq<Step>, i: nat, lost: (State, Step) -> bool,
                        back: (State, Step) -> bool)
    requires i < |run| == |steps| + 1
  {
    exists j :: 0 <= j < i && lost(run[j], steps[j]) && forall k :: j < k < i ==> !back(run[k], steps[k])
  }

  lemma SinceNext(run: seq<State>, steps: seq<Step>, i: nat, lost: (State, Step) -> bool, back: (State, Step) -> bool)
    requires i + 1 < |run| == |steps| + 1
    ensures Since(run, steps, i + 1, lost, back) <==>
            lost(run[i], steps[i]) || (Since(run, steps, i, lost, back) && !back(run[i], steps[i]))
  {
    if lost(run[i], steps[i]) {
    } else if Since(run, steps, i, lost, back) && !back(run[i], steps[i]) {
      var j :| 0 <= j < i && lost(run[j], steps[j]) && forall k :: j < k < i ==> !back(run[k], steps[k]);
      assert forall k :: j < k < i + 1 ==> !back(run[k], steps[k]);
    }
  }

  /** Some save of an older edit took the newest edit's only cover, and no change, close or save
      of it has followed. */
  ghost predicate Forgotten(run: seq<State>, steps: seq<Step>, i: nat, u: Uri)
    requires i < |run| == |steps| + 1
  {
    Since(run, steps, i, (s, l) => Loses(s, l, u), (s, l) => Restores(s, l, u))
  }

  /** Over every run the newest edit is validated, or going to be, exactly if it is not forgotten. */
  lemma {:induction false} CoveredExactly(inProject: Uri -> bool, ready: bool, run: seq<State>, steps: seq<Step>, i: nat,
                                          u: Uri)
    requires Run(inProject, ready, run, steps) && i < |run|
    ensures Covered(run[i], u) <==> !Forgotten(run, steps, i, u)
  {
    if i > 0 {
      CoveredExactly(inProject, ready, run, steps, i - 1, u);
      RunAlways(inProject, ready, run, steps, i - 1);
      StepCoversExactly(inProject, run[i - 1], steps[i - 1], u);
      SinceNext(run, steps, i - 1, (s, l) => Loses(s, l, u), (s, l) => Restores(s, l, u));
    }
  }

  lemma NoneForgottenWhenReady(inProject: Uri -> bool, run: seq<State>, steps: seq<Step>, i: nat, u: Uri)
    requires Run(inProject, true, run, steps) && i < |run|
    ensures !Forgotten(run, steps, i, u)
  {
    forall j | 0 <= j < i ensures !Loses(run[j], steps[j], u) {
      RunAlways(inProject, true, run, steps, j);
      assert SavesCurrent(run[j]);
    }
  }

  /** Some answer was published for another buffer with the open buffer's version number, and the
      file has not been changed, closed, saved or answered for since. */
  ghost predicate Misled(run: seq<State>, steps: seq<Step>, i: nat, u: Uri)
    requires i < |run| == |steps| + 1
  {
    Since(run, steps, i, (s, l) => Misplaces(s, l, u), (s, l) => Refreshes(s, l, u))
  }

  lemma {:induction false} InSyncExactly(inProject: Uri -> bool, ready: bool, run: seq<State>, steps: seq<Step>, i: nat,
                                         u: Uri)
    requires Run(inProject, ready, run, steps) && i < |run|
    ensures InSyncAt(true, run[i], u) <==> !Misled(run, steps, i, u)
  {
    if i > 0 {
      InSyncExactly(inProject, ready, run, steps, i - 1, u);
      RunAlways(inProject, ready, run, steps, i - 1);
      assert AllInSync(run[i - 1]);
      StepSyncsExactly(inProject, run[i - 1], steps[i - 1], u);
      SinceNext(run, steps, i - 1, (s, l) => Misplaces(s, l, u), (s, l) => Refreshes(s, l, u));
    }
  }

  /** No change reuses a version number of the file while a pass holds it. */
  ghost predicate FreshVersions(run: seq<State>, steps: seq<Step>)
    requires |run| == |steps| + 1
  {
    forall i :: 0 <= i < |steps| ==> FreshVersion(run[i], steps[i])
  }

  lemma {:induction false} RunTells(inProject: Uri -> bool, ready: bool, run: seq<State>, steps: seq<Step>, i: nat)
    requires Run(inProject, ready, run, steps) && i < |run| && FreshVersions(run, steps)
    ensures VersionsTell(run[i])
  {
    if i > 0 {
      RunTells(inProject, ready, run, steps, i - 1);
      StepTells(inProject, run[i - 1], steps[i - 1]);
    }
  }

  lemma FreshVersionsNeverMislead(inProject: Uri -> bool, ready: bool, run: seq<State>, steps: seq<Step>, i: nat, u: Uri)
    requires Run(inProject, ready, run, steps) && i < |run| && FreshVersions(run, steps)
    ensures !Misled(run, steps, i, u)
  {
    forall j | 0 <= j < i ensures !Misplaces(run[j], steps[j], u) {
      RunTells(inProject, ready, run, steps, j);
      TellingMisplacesNone(run[j], steps[j], u);
    }
  }

  // ---------------------------------------------------------------------------
  // The guarantees
  // ---------------------------------------------------------------------------

  /** In every state of every run no file has two passes, and a file marked as running has one. */
  lemma AtMostOnePass(inProject: Uri -> bool, ready: bool, run: seq<State>, steps: seq<Step>, i: nat)
    requires Run(inProject, ready, run, steps) && i < |run|
    ensures forall a, b :: a in run[i].passes && b in run[i].passes && run[i].passes[a].uri == run[i].passes[b].uri ==>
              a == b
    ensures forall u :: u in run[i].running <==> HasPass(run[i].passes, u)
  {
    RunAlways(inProject, ready, run, steps, i);
  }

  lemma InFlightHasPass(s: State, u: Uri)
    requires u in s.open
    ensures InFlight(s, u) ==> HasPass(s.passes, u)
  {}

  /** Once an open file has no timer, waiting callback, rerun mark or pass, its newest edit has
      been validated exactly if it is not forgotten, which never happens to a ready server. */
  lemma NoEditForgotten(inProject: Uri -> bool, ready: bool, run: seq<State>, steps: seq<Step>, i: nat, u: Uri)
    requires Run(inProject, ready, run, steps) && i < |run|
    requires u in run[i].open && !Woken(run[i], u) && !HasPass(run[i].passes, u)
    ensures run[i].open[u].edit in run[i].checked <==> !Forgotten(run, steps, i, u)
    ensures ready ==> run[i].open[u].edit in run[i].checked
  {
    CoveredExactly(inProject, ready, run, steps, i, u);
    InFlightHasPass(run[i], u);
    if ready { NoneForgottenWhenReady(inProject, run, steps, i, u); }
  }

  /** Live diagnostics are shown for open files only. Unless another validation is pending they
      have the version number the client has, and they are those of its buffer exactly if the
      file is not misled, which takes a version number used again while a pass holds it. */
  lemma LiveDiagnosticsCurrent(inProject: Uri -> bool, ready: bool, run: seq<State>, steps: seq<Step>, i: nat, u: Uri)
    requires Run(inProject, ready, run, steps) && i < |run| && u in run[i].squiggles
    ensures u in run[i].open
    ensures Woken(run[i], u) || run[i].squiggles[u].version == run[i].open[u].version
    ensures Woken(run[i], u) || run[i].squiggles[u] == run[i].open[u] <==> !Misled(run, steps, i, u)
    ensures FreshVersions(run, steps) ==> Woken(run[i], u) || run[i].squiggles[u] == run[i].open[u]
  {
    RunAlways(inProject, ready, run, steps, i);
    assert InSyncAt(false, run[i], u);
    InSyncExactly(inProject, ready, run, steps, i, u);
    if FreshVersions(run, steps) { FreshVersionsNeverMislead(inProject, ready, run, steps, i, u); }
  }

  /** A file closed while it was on disk, and reconciled, does not keep rows of its buffer: the
      last job that wrote, or will write, for it is not an overlay of the buffer. */
  lemma ClosedFileFromDisk(inProject: Uri -> bool, ready: bool, run: seq<State>, steps: seq<Step>, i: nat, u: Uri)
    requires Run(inProject, ready, run, steps) && i < |run| && LeftAlone(run[i], u)
    ensures !BufferLast(Unwritten(run[i]), u)
    ensures NoneWrites(Unwritten(run[i]), u) ==> AttemptOf(run[i], u) != FromBuffer
    ensures NoneWrites(Unwritten(run[i]), u) && (u in run[i].attempts ==> run[i].attempts[u].installed) ==>
              RowsOf(run[i], u) != FromBuffer
  {
    RunAlways(inProject, ready, run, steps, i);
    assert SettledAt(inProject, run[i], u);
    LastWriterIsBuffer(Unwritten(run[i]), u, AttemptOf(run[i], u));
  }

  /** The steps the loop takes by itself are bounded by its work, whatever came before. */
  lemma {:induction false} OwnStepsEnd(inProject: Uri -> bool, run: seq<State>, steps: seq<Step>)
    requires |run| == |steps| + 1 && Always(inProject, run[0])
    requires forall i :: 0 <= i < |steps| ==>
               Enabled(inProject, run[i], steps[i]) && run[i + 1] == Next(inProject, run[i], steps[i]) &&
               !FromClient(steps[i])
    ensures |steps| <= Work(run[0])
  {
    if steps == [] {
      WorkIsNatural(run[0]);
    } else {
      StepAlways(inProject, run[0], steps[0]);
      StepWorks(inProject, run[0], steps[0]);
      OwnStepsEnd(inProject, run[1..], steps[1..]);
    }
  }

  ghost predicate Finished(run: seq<State>, steps: seq<Step>, u: Uri)
    requires |run| == |steps| + 1
  {
    var s := run[|steps|];
    && (u in s.open ==> (s.open[u].edit in s.checked <==> !Forgotten(run, steps, |steps|, u)))
    && (u in s.squiggles ==> u in s.open && s.squiggles[u].version == s.open[u].version)
    && (u in s.squiggles ==> (s.squiggles[u] == s.open[u] <==> !Misled(run, steps, |steps|, u)))
    && (u !in s.open && u !in s.missing ==> AttemptOf(s, u) != FromBuffer)
  }

  /** When the loop has no step of its own left, every open file's newest edit has been validated
      unless it is forgotten, the live diagnostics are those of its buffer unless it is misled,
      and the last job for a closed file found on disk was no overlay of its buffer. */
  lemma AtRest(inProject: Uri -> bool, ready: bool, run: seq<State>, steps: seq<Step>)
    requires Run(inProject, ready, run, steps)
    requires forall l :: Enabled(inProject, run[|steps|], l) ==> FromClient(l)
    ensures Quiet(run[|steps|]) && forall u :: Finished(run, steps, u)
  {
    var s := run[|steps|];
    RunAlways(inProject, ready, run, steps, |steps|);
    var l := Stirs(inProject, s);
    forall u ensures Finished(run, steps, u) {
      if u in s.open { NoEditForgotten(inProject, ready, run, steps, |steps|, u); }
      if u in s.squiggles { LiveDiagnosticsCurrent(inProject, ready, run, steps, |steps|, u); }
      if u !in s.open && u !in s.missing { ClosedFileFromDisk(inProject, ready, run, steps, |steps|, u); }
    }
  }

  // ---------------------------------------------------------------------------
  // Where they end
  // ---------------------------------------------------------------------------

  lemma Extend(inProject: Uri -> bool, ready: bool, run: seq<State>, steps: seq<Step>, l: Step, t: State)
    requires Run(inProject, ready, run, steps)
    requires Enabled(inProject, run[|steps|], l) && t == Next(inProject, run[|steps|], l)
    ensures Run(inProject, ready, run + [t], steps + [l])
  {}

  function Anywhere(): Uri -> bool { _ => true }

  /** Two edits with a save between them, all before the server is ready. */
  function EditedTwice(u: Uri): State
  {
    Init(false).(open := map[u := Buffer(2, 1)], edits := 2, timers := {u}, waiting := [Saved(u, Buffer(1, 0))])
  }

  lemma EditTwice(u: Uri) returns (run: seq<State>, steps: seq<Step>)
    ensures Run(Anywhere(), false, run, steps) && run[|steps|] == EditedTwice(u)
  {
    run, steps := [Init(false)], [];
    var first := Init(false).(open := map[u := Buffer(1, 0)], edits := 1, timers := {u});
    Extend(Anywhere(), false, run, steps, Change(u, 1), first);
    run, steps := run + [first], steps + [Change(u, 1)];
    var saved := first.(waiting := [Saved(u, Buffer(1, 0))]);
    Extend(Anywhere(), false, run, steps, Save(u), saved);
    run, steps := run + [saved], steps + [Save(u)];
    Extend(Anywhere(), false, run, steps, Change(u, 2), EditedTwice(u));
    run, steps := run + [EditedTwice(u)], steps + [Change(u, 2)];
  }

  /** Before the server is ready an edit can be lost to the save before it: the save handler,
      going on later, clears the timer of the newer edit. */
  lemma EarlySaveLosesEdit(u: Uri) returns (run: seq<State>, steps: seq<Step>)
    ensures Run(Anywhere(), false, run, steps)
    ensures Quiet(run[|steps|]) && u in run[|steps|].open && run[|steps|].open[u].edit !in run[|steps|].checked
  {
    run, steps := EditTwice(u);
    var ready := EditedTwice(u).(ready := true);
    Extend(Anywhere(), false, run, steps, Ready, ready);
    run, steps := run + [ready], steps + [Ready];
    var cleared := ready.(waiting := [], timers := {}, queue := [ValidateSaved(u)], checked := {0});
    Extend(Anywhere(), false, run, steps, Resume(false, true), cleared);
    run, steps := run + [cleared], steps + [Resume(false, true)];
    var started := StartJob(cleared, true);
    Extend(Anywhere(), false, run, steps, Start(true), started);
    run, steps := run + [started], steps + [Start(true)];
    Extend(Anywhere(), false, run, steps, End, started.(queue := [], head := Queued));
    run, steps := run + [started.(queue := [], head := Queued)], steps + [End];
  }

  /** A file's first edit, debounced; whatever is in the queue and in the database stays. */
  function Edited(s: State, u: Uri): State
  {
    s.(open := map[u := Buffer(1, 0)], edits := 1, timers := {u})
  }

  function Requested(s: State, u: Uri): State
  {
    s.(open := map[u := Buffer(1, 0)], edits := 1, calls := 1, counter := 1, running := {u},
       queue := s.queue + [Overlay(0, u, FromBuffer)], passes := map[0 := Pass(u, Buffer(1, 0), Pipeline(0))],
       squiggles := map[u := Buffer(1, 0)])
  }

  lemma EditAndRequest(u: Uri, s: State, run: seq<State>, steps: seq<Step>)
    returns (r: seq<State>, t: seq<Step>)
    requires Run(Anywhere(), true, run, steps) && run[|steps|] == s
    requires s == Init(true).(queue := s.queue, head := s.head) && Idle(s)
    ensures Run(Anywhere(), true, r, t) && r[|t|] == Requested(s, u)
  {
    Extend(Anywhere(), true, run, steps, Change(u, 1), Edited(s, u));
    r, t := run + [Edited(s, u)], steps + [Change(u, 1)];
    var fired := Edited(s, u).(timers := {}, waiting := [Debounced(u)]);
    Extend(Anywhere(), true, r, t, Fire(u), fired);
    r, t := r + [fired], t + [Fire(u)];
    Extend(Anywhere(), true, r, t, Resume(true, true), Requested(s, u));
    r, t := r + [Requested(s, u)], t + [Resume(true, true)];
  }

  /** A validation of all files holds the lock, its extraction done. */
  function ValidatingAll(): State { Init(true).(queue := [ValidateAll], head := Extracted) }

  lemma ValidateFirst() returns (run: seq<State>, steps: seq<Step>)
    ensures Run(Anywhere(), true, run, steps) && run[|steps|] == ValidatingAll()
  {
    run, steps := [Init(true)], [];
    var watched := Init(true).(queue := [ValidateAll]);
    Extend(Anywhere(), true, run, steps, Watched, watched);
    run, steps := run + [watched], steps + [Watched];
    var started := watched.(head := Running);
    Extend(Anywhere(), true, run, steps, Start(true), started);
    run, steps := run + [started], steps + [Start(true)];
    Extend(Anywhere(), true, run, steps, Extract, ValidatingAll());
    run, steps := run + [ValidatingAll()], steps + [Extract];
  }

  /** A file closed while an overlay of its buffer waits behind it, and not found on disk. */
  function ClosedBehindOverlay(u: Uri): State
  {
    Requested(ValidatingAll(), u).(open := map[], squiggles := map[], missing := {u}, rows := map[u := Cleared],
      attempts := map[u := Attempt(Cleared, true)])
  }

  lemma CloseBehindOverlay(u: Uri) returns (run: seq<State>, steps: seq<Step>)
    ensures Run(Anywhere(), true, run, steps) && run[|steps|] == ClosedBehindOverlay(u)
  {
    run, steps := ValidateFirst();
    run, steps := EditAndRequest(u, ValidatingAll(), run, steps);
    var closed := Requested(ValidatingAll(), u).(open := map[], squiggles := map[], waiting := [Closed(u)]);
    Extend(Anywhere(), true, run, steps, Close(u), closed);
    run, steps := run + [closed], steps + [Close(u)];
    Extend(Anywhere(), true, run, steps, Resume(true, false), ClosedBehindOverlay(u));
    run, steps := run + [ClosedBehindOverlay(u)], steps + [Resume(true, false)];
  }

  /** The overlay has run all the same. */
  function PutBack(u: Uri): State
  {
    ClosedBehindOverlay(u).(queue := [], head := Queued, passes := map[0 := Pass(u, Buffer(1, 0), Answered)],
      rows := map[u := FromBuffer], attempts := map[u := Attempt(FromBuffer, true)])
  }

  lemma OverlayPutsBack(u: Uri) returns (run: seq<State>, steps: seq<Step>)
    ensures Run(Anywhere(), true, run, steps) && run[|steps|] == PutBack(u)
  {
    run, steps := CloseBehindOverlay(u);
    var unlocked := ClosedBehindOverlay(u).(queue := [Overlay(0, u, FromBuffer)], head := Queued);
    Extend(Anywhere(), true, run, steps, End, unlocked);
    run, steps := run + [unlocked], steps + [End];
    var started := StartJob(unlocked, true);
    Extend(Anywhere(), true, run, steps, Start(true), started);
    run, steps := run + [started], steps + [Start(true)];
    Extend(Anywhere(), true, run, steps, End, PutBack(u));
    run, steps := run + [PutBack(u)], steps + [End];
  }

  /** Closing a file that is not on disk drops its rows at once, but an overlay of the buffer
      still in the queue puts them back. */
  lemma MissingFileKeepsBuffer(u: Uri) returns (run: seq<State>, steps: seq<Step>)
    ensures Run(Anywhere(), true, run, steps)
    ensures Quiet(run[|steps|]) && u !in run[|steps|].open && RowsOf(run[|steps|], u) == FromBuffer
  {
    run, steps := OverlayPutsBack(u);
    var published := PutBack(u).(passes := map[0 := Pass(u, Buffer(1, 0), Returned)]);
    Extend(Anywhere(), true, run, steps, Publish(0, false), published);
    run, steps := run + [published], steps + [Publish(0, false)];
    var done := published.(passes := map[], running := {}, checked := {0});
    Extend(Anywhere(), true, run, steps, Loop(0, false), done);
    run, steps := run + [done], steps + [Loop(0, false)];
  }

  /** The overlay of a file's first buffer runs. */
  function OverlayRuns(u: Uri): State
  {
    Requested(Init(true), u).(head := Running, rows := map[u := FromBuffer],
      attempts := map[u := Attempt(FromBuffer, true)])
  }

  /** The file is closed, and found on disk. */
  function ClosedUnderOverlay(u: Uri): State
  {
    OverlayRuns(u).(open := map[], squiggles := map[], counter := 2,
      queue := [Overlay(0, u, FromBuffer), Overlay(1, u, FromDisk)])
  }

  lemma CloseUnderOverlay(u: Uri) returns (run: seq<State>, steps: seq<Step>)
    ensures Run(Anywhere(), true, run, steps) && run[|steps|] == ClosedUnderOverlay(u)
  {
    run, steps := EditAndRequest(u, Init(true), [Init(true)], []);
    Extend(Anywhere(), true, run, steps, Start(true), OverlayRuns(u));
    run, steps := run + [OverlayRuns(u)], steps + [Start(true)];
    var closed := OverlayRuns(u).(open := map[], squiggles := map[], waiting := [Closed(u)]);
    Extend(Anywhere(), true, run, steps, Close(u), closed);
    run, steps := run + [closed], steps + [Close(u)];
    Extend(Anywhere(), true, run, steps, Resume(true, true), ClosedUnderOverlay(u));
    run, steps := run + [ClosedUnderOverlay(u)], steps + [Resume(true, true)];
  }

  /** It is opened again, the client counting from 1 again, and saved. */
  function Reopened(u: Uri): State
  {
    ClosedUnderOverlay(u).(open := map[u := Buffer(1, 1)], edits := 2, checked := {1},
      queue := [Overlay(0, u, FromBuffer), Overlay(1, u, FromDisk), ValidateSaved(u)])
  }

  lemma Reopen(u: Uri) returns (run: seq<State>, steps: seq<Step>)
    ensures Run(Anywhere(), true, run, steps) && run[|steps|] == Reopened(u)
  {
    run, steps := CloseUnderOverlay(u);
    var edited := ClosedUnderOverlay(u).(open := map[u := Buffer(1, 1)], edits := 2, timers := {u});
    Extend(Anywhere(), true, run, steps, Change(u, 1), edited);
    run, steps := run + [edited], steps + [Change(u, 1)];
    var saved := edited.(waiting := [Saved(u, Buffer(1, 1))]);
    Extend(Anywhere(), true, run, steps, Save(u), saved);
    run, steps := run + [saved], steps + [Save(u)];
    Extend(Anywhere(), true, run, steps, Resume(false, true), Reopened(u));
    run, steps := run + [Reopened(u)], steps + [Resume(false, true)];
  }

  /** The answer for the first buffer, published as that of the second. */
  function Misplaced(u: Uri): State
  {
    Reopened(u).(queue := [Overlay(1, u, FromDisk), ValidateSaved(u)], head := Queued,
      squiggles := map[u := Buffer(1, 0)], passes := map[], running := {}, checked := {0, 1})
  }

  /** Just before it. */
  function Overtaken(u: Uri): State
  {
    Misplaced(u).(squiggles := map[], passes := map[0 := Pass(u, Buffer(1, 0), Answered)], running := {u}, checked := {1})
  }

  lemma OvertakeReopened(u: Uri) returns (run: seq<State>, steps: seq<Step>)
    ensures Run(Anywhere(), true, run, steps) && run[|steps|] == Overtaken(u)
  {
    run, steps := Reopen(u);
    Extend(Anywhere(), true, run, steps, End, Overtaken(u));
    run, steps := run + [Overtaken(u)], steps + [End];
  }

  lemma AnswerReopened(u: Uri) returns (run: seq<State>, steps: seq<Step>)
    ensures Run(Anywhere(), true, run, steps) && run[|steps|] == Misplaced(u)
  {
    run, steps := OvertakeReopened(u);
    var published := Overtaken(u).(squiggles := map[u := Buffer(1, 0)],
      passes := map[0 := Pass(u, Buffer(1, 0), Returned)]);
    Extend(Anywhere(), true, run, steps, Publish(0, true), published);
    run, steps := run + [published], steps + [Publish(0, true)];
    Extend(Anywhere(), true, run, steps, Loop(0, false), Misplaced(u));
    run, steps := run + [Misplaced(u)], steps + [Loop(0, false)];
  }

  /** A file opened again with a version number a pass still holds ends with the live diagnostics
      of the buffer that was closed. */
  lemma ReopenedFileMisled(u: Uri) returns (run: seq<State>, steps: seq<Step>)
    ensures Run(Anywhere(), true, run, steps) && Quiet(run[|steps|])
    ensures var s := run[|steps|]; u in s.open && u in s.squiggles && s.squiggles[u] != s.open[u]
  {
    run, steps := AnswerReopened(u);
    var first := StartJob(Misplaced(u), true);
    Extend(Anywhere(), true, run, steps, Start(true), first);
    run, steps := run + [first], steps + [Start(true)];
    var second := EndJob(first);
    Extend(Anywhere(), true, run, steps, End, second);
    run, steps := run + [second], steps + [End];
    assert second.queue == [ValidateSaved(u)];
    var third := StartJob(second, true);
    Extend(Anywhere(), true, run, steps, Start(true), third);
    run, steps := run + [third], steps + [Start(true)];
    Extend(Anywhere(), true, run, steps, End, EndJob(third));
    run, steps := run + [EndJob(third)], steps + [End];
  }
}
