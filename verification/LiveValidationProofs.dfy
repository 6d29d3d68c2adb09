// What every run of the live validation keeps (packages/houdini-lsp/src/overlay.ts): where the
// rows of closed files come from, which buffer the live diagnostics describe, that the loop
// comes to rest, and what holds when it has.
module LiveValidationProofs {
  import opened LiveValidation

  // ---------------------------------------------------------------------------
  // The rows of closed files
  // ---------------------------------------------------------------------------

  predicate Writes(j: Job, u: Uri) { !j.ValidateAll? && j.uri == u }

  /** The origin of u's rows after the given jobs, if it is before first. */
  function LastWriter(jobs: seq<Job>, u: Uri, before: Origin): Origin
  {
    if jobs == [] then before
    else LastWriter(jobs[1..], u, if Writes(jobs[0], u) then Written(jobs[0]) else before)
  }

  lemma {:induction false} AppendWriter(jobs: seq<Job>, j: Job, u: Uri, before: Origin)
    ensures LastWriter(jobs + [j], u, before) == if Writes(j, u) then Written(j) else LastWriter(jobs, u, before)
  {
    if jobs == [] {
      assert [j][1..] == [];
    } else {
      assert (jobs + [j])[1..] == jobs[1..] + [j];
      AppendWriter(jobs[1..], j, u, if Writes(jobs[0], u) then Written(jobs[0]) else before);
    }
  }

  /** The last of the jobs that touches u, if any, takes its rows from a buffer. */
  ghost predicate BufferLast(jobs: seq<Job>, u: Uri)
  {
    exists k: int :: 0 <= k < |jobs| && BufferLastAt(jobs, u, k)
  }

  predicate NoneWrites(jobs: seq<Job>, u: Uri)
  {
    forall m :: 0 <= m < |jobs| ==> !Writes(jobs[m], u)
  }

  predicate BufferLastAt(jobs: seq<Job>, u: Uri, k: int)
    requires 0 <= k < |jobs|
  {
    && Writes(jobs[k], u) && Written(jobs[k]) == FromBuffer
    && forall m :: k < m < |jobs| ==> !Writes(jobs[m], u)
  }

  lemma {:induction false} LastWriterIsBuffer(jobs: seq<Job>, u: Uri, before: Origin)
    ensures LastWriter(jobs, u, before) == FromBuffer <==>
            BufferLast(jobs, u) || (before == FromBuffer && NoneWrites(jobs, u))
  {
    if jobs != [] {
      var init, last := jobs[..|jobs| - 1], jobs[|jobs| - 1];
      assert jobs == init + [last];
      AppendWriter(init, last, u, before);
      if Writes(last, u) {
        assert Written(last) == FromBuffer ==> BufferLastAt(jobs, u, |jobs| - 1);
      } else {
        LastWriterIsBuffer(init, u, before);
        if BufferLast(init, u) {
          var k :| 0 <= k < |init| && BufferLastAt(init, u, k);
          assert BufferLastAt(jobs, u, k);
        }
        if BufferLast(jobs, u) {
          var k :| 0 <= k < |jobs| && BufferLastAt(jobs, u, k);
          assert BufferLastAt(init, u, k);
        }
      }
    }
  }

  /** Taking the rows from disk before the jobs can only help. */
  lemma DiskBefore(jobs: seq<Job>, u: Uri, before: Origin, other: Origin)
    requires LastWriter(jobs, u, before) != FromBuffer && other != FromBuffer
    ensures LastWriter(jobs, u, other) != FromBuffer
  {
    LastWriterIsBuffer(jobs, u, before);
    LastWriterIsBuffer(jobs, u, other);
  }

  /** The jobs that have not yet written. */
  function Unwritten(s: State): seq<Job>
  {
    if s.head != Queued && s.queue != [] then s.queue[1..] else s.queue
  }

  function AttemptOf(s: State, u: Uri): Origin
  {
    if u in s.attempts then s.attempts[u].origin else FromDisk
  }

  /** Where u's rows come from once the lock has drained. */
  function Latest(s: State, u: Uri): Origin
  {
    LastWriter(Unwritten(s), u, AttemptOf(s, u))
  }

  predicate Sound(s: State) { s.head != Queued ==> s.queue != [] }

  /** Closed, reconciled, and the file was there when it was. */
  predicate LeftAlone(s: State, u: Uri)
  {
    u !in s.open && Closed(u) !in s.waiting && u !in s.missing
  }

  ghost predicate SettledAt(inProject: Uri -> bool, s: State, u: Uri)
  {
    !inProject(u) || LeftAlone(s, u) ==> Latest(s, u) != FromBuffer
  }

  /** One more job in the queue. */
  lemma Enqueue(s: State, t: State, j: Job, u: Uri)
    requires Sound(s) && t.queue == s.queue + [j] && t.head == s.head && t.attempts == s.attempts
    ensures Sound(t) && Latest(t, u) == if Writes(j, u) then Written(j) else Latest(s, u)
  {
    assert Unwritten(t) == Unwritten(s) + [j];
    AppendWriter(Unwritten(s), j, u, AttemptOf(s, u));
  }

  lemma BeginSettles(inProject: Uri -> bool, s: State, u: Uri, locks: bool, v: Uri)
    requires Sound(s) && SettledAt(inProject, s, v) && (locks ==> inProject(u))
    ensures var t := BeginPass(s, u, locks); Sound(t) && SettledAt(inProject, t, v)
  {
    BeginKeepsDocuments(s, u, locks);
    if u in s.open && locks {
      Enqueue(s, BeginPass(s, u, locks), Overlay(s.counter, u, FromBuffer), v);
    }
  }

  lemma ReconcileSettles(inProject: Uri -> bool, s: State, u: Uri, onDisk: bool, v: Uri)
    requires Sound(s) && ((v == u && inProject(u)) || SettledAt(inProject, s, v))
    ensures var t := Reconcile(inProject, s, u, onDisk); Sound(t) && SettledAt(inProject, t, v)
  {
    if inProject(u) && onDisk {
      Enqueue(s, Reconcile(inProject, s, u, onDisk), Overlay(s.counter, u, FromDisk), v);
    }
  }

  lemma ContinueSettles(inProject: Uri -> bool, s: State, h: Handler, locks: bool, onDisk: bool, v: Uri)
    requires Sound(s) && ((h == Closed(v) && inProject(v)) || SettledAt(inProject, s, v)) && (locks ==> inProject(h.uri))
    ensures var t := Continue(inProject, s, h, locks, onDisk); Sound(t) && SettledAt(inProject, t, v)
  {
    match h
    case Debounced(u) =>
      if u !in s.running { BeginSettles(inProject, s.(running := s.running + {u}), u, locks, v); }
    case Closed(u) => ReconcileSettles(inProject, s, u, onDisk, v);
    case Saved(u, b) => Enqueue(s, ValidateSave(s, u, b), ValidateSaved(u), v);
  }

  /** A job that starts writes what it was going to write. */
  lemma StartWrites(s: State, installs: bool, v: Uri)
    requires s.queue != [] && s.head == Queued
    ensures var t := StartJob(s, installs); Sound(t) && Latest(t, v) == Latest(s, v)
  {}

  lemma ExtractSettles(inProject: Uri -> bool, s: State, v: Uri)
    requires Sound(s) && SettledAt(inProject, s, v) && Enabled(inProject, s, Extract)
    ensures Sound(Next(inProject, s, Extract)) && SettledAt(inProject, Next(inProject, s, Extract), v)
  {
    if Latest(s, v) != FromBuffer { DiskBefore(Unwritten(s), v, AttemptOf(s, v), FromDisk); }
  }

  /** Nothing that decides where v's rows will come from changes. */
  lemma SameWriters(inProject: Uri -> bool, s: State, t: State, v: Uri)
    requires Sound(s) && SettledAt(inProject, s, v) && Sound(t)
    requires Unwritten(t) == Unwritten(s) && t.attempts == s.attempts
    requires t.open == s.open && t.waiting == s.waiting && t.missing == s.missing
    ensures SettledAt(inProject, t, v)
  {}

  lemma PublishSettles(inProject: Uri -> bool, s: State, id: nat, errors: bool, v: Uri)
    requires Sound(s) && SettledAt(inProject, s, v) && id in s.passes
    ensures Sound(PublishAnswer(s, id, errors)) && SettledAt(inProject, PublishAnswer(s, id, errors), v)
  {
    SameWriters(inProject, s, PublishAnswer(s, id, errors), v);
  }

  lemma EndSettles(inProject: Uri -> bool, s: State, v: Uri)
    requires Sound(s) && SettledAt(inProject, s, v) && s.queue != [] && s.head != Queued
    ensures Sound(EndJob(s)) && SettledAt(inProject, EndJob(s), v)
  {
    SameWriters(inProject, s, EndJob(s), v);
  }

  lemma ClientSettles(inProject: Uri -> bool, s: State, l: Step, v: Uri)
    requires Sound(s) && SettledAt(inProject, s, v) && Enabled(inProject, s, l)
    requires l.Change? || l.Close? || l.Save? || l.Fire?
    ensures Sound(Next(inProject, s, l)) && SettledAt(inProject, Next(inProject, s, l), v)
  {
    var t := Next(inProject, s, l);
    assert forall h :: h in s.waiting ==> h in t.waiting;
    assert l == Close(v) ==> t.waiting[|s.waiting|] == Closed(v);
    assert Latest(t, v) == Latest(s, v);
  }

  lemma LoopSettles(inProject: Uri -> bool, s: State, id: nat, locks: bool, v: Uri)
    requires Sound(s) && SettledAt(inProject, s, v) && id in s.passes && (locks ==> inProject(s.passes[id].uri))
    ensures Sound(LoopTest(s, id, locks)) && SettledAt(inProject, LoopTest(s, id, locks), v)
  {
    var done := s.(passes := s.passes - {id}, checked := s.checked + {s.passes[id].buffer.edit});
    BeginSettles(inProject, done, s.passes[id].uri, locks, v);
  }

  lemma ResumeSettles(inProject: Uri -> bool, s: State, locks: bool, onDisk: bool, v: Uri)
    requires Sound(s) && SettledAt(inProject, s, v) && Enabled(inProject, s, Resume(locks, onDisk))
    ensures var t := Next(inProject, s, Resume(locks, onDisk)); Sound(t) && SettledAt(inProject, t, v)
  {
    var rest := s.(waiting := s.waiting[1..]);
    assert s.waiting == [s.waiting[0]] + rest.waiting;
    ContinueSettles(inProject, rest, s.waiting[0], locks, onDisk, v);
  }

  lemma StepSettles(inProject: Uri -> bool, s: State, l: Step, v: Uri)
    requires Sound(s) && SettledAt(inProject, s, v) && Enabled(inProject, s, l)
    ensures Sound(Next(inProject, s, l)) && SettledAt(inProject, Next(inProject, s, l), v)
  {
    match l
    case Resume(locks, onDisk) => ResumeSettles(inProject, s, locks, onDisk, v);
    case Loop(id, locks) => LoopSettles(inProject, s, id, locks, v);
    case Change(_, _) => ClientSettles(inProject, s, l, v);
    case Close(_) => ClientSettles(inProject, s, l, v);
    case Save(_) => ClientSettles(inProject, s, l, v);
    case Fire(_) => ClientSettles(inProject, s, l, v);
    case Publish(id, errors) => PublishSettles(inProject, s, id, errors, v);
    case End => EndSettles(inProject, s, v);
    case Extract => ExtractSettles(inProject, s, v);
    case Watched => Enqueue(s, Next(inProject, s, l), ValidateAll, v);
    case Start(installs) => StartWrites(s, installs, v);
    case Ready =>
  }

  /** A close that finds no file drops the rows at once, outside the lock: they stay dropped
      exactly if no overlay of the buffer is left in the queue behind it. */
  lemma MissingFile(inProject: Uri -> bool, s: State, u: Uri)
    requires inProject(u)
    ensures var t := Reconcile(inProject, s, u, false);
            t.rows[u] == Cleared && (Latest(t, u) == FromBuffer <==> BufferLast(Unwritten(s), u))
  {
    LastWriterIsBuffer(Unwritten(s), u, Cleared);
  }
}
