// Which steps decide whether an open file's newest edit gets validated, and whether its live
// diagnostics are those of its buffer (packages/houdini-lsp/src/overlay.ts,
// packages/houdini-lsp/src/diagnostics.ts).
module LiveValidationHistory {
  import opened LiveValidation
  import opened LiveValidationProgress

  // ---------------------------------------------------------------------------
  // Every edit has its own number
  // ---------------------------------------------------------------------------

  predicate Bounded(s: State)
  {
    && (forall u :: u in s.open ==> s.open[u].edit < s.edits)
    && (forall id :: id in s.passes ==> s.passes[id].buffer.edit < s.edits)
    && (forall h :: h in s.waiting && h.Saved? ==> h.buffer.edit < s.edits)
  }

  /** Whoever holds the newest edit of v holds v's buffer. */
  predicate OwnedAt(s: State, v: Uri)
  {
    v in s.open ==>
      && (forall u :: u in s.open && s.open[u].edit == s.open[v].edit ==> u == v)
      && (forall id :: id in s.passes && s.passes[id].buffer.edit == s.open[v].edit ==>
            s.passes[id].uri == v && s.passes[id].buffer == s.open[v])
      && (forall h :: h in s.waiting && h.Saved? && h.buffer.edit == s.open[v].edit ==> h.uri == v)
  }

  /** The buffers of t are buffers s has already. */
  predicate NoNewBuffer(s: State, t: State)
  {
    && t.open == s.open && t.edits == s.edits
    && (forall h :: h in t.waiting ==> h in s.waiting)
    && (forall id :: id in t.passes ==> OldBuffer(s, id, t.passes[id]))
  }

  predicate OldBuffer(s: State, id: nat, p: Pass)
  {
    || (id in s.passes && s.passes[id].uri == p.uri && s.passes[id].buffer == p.buffer)
    || (p.uri in s.open && s.open[p.uri] == p.buffer)
  }

  lemma StillOwned(s: State, t: State, v: Uri)
    requires Bounded(s) && OwnedAt(s, v) && NoNewBuffer(s, t)
    ensures Bounded(t) && OwnedAt(t, v)
  {}

  lemma BeginAddsNoBuffer(s: State, u: Uri, locks: bool)
    ensures NoNewBuffer(s, BeginPass(s, u, locks))
  {}

  lemma ContinueAddsNoBuffer(inProject: Uri -> bool, s: State, h: Handler, locks: bool, onDisk: bool)
    ensures NoNewBuffer(s, Continue(inProject, s, h, locks, onDisk))
  {
    hide BeginPass;
    match h
    case Debounced(u) => BeginAddsNoBuffer(s.(running := s.running + {u}), u, locks);
    case Closed(u) =>
    case Saved(u, b) =>
  }

  lemma LoopAddsNoBuffer(s: State, id: nat, locks: bool)
    requires id in s.passes
    ensures NoNewBuffer(s, LoopTest(s, id, locks))
  {
    var done := s.(passes := s.passes - {id}, checked := s.checked + {s.passes[id].buffer.edit});
    BeginAddsNoBuffer(done, s.passes[id].uri, locks);
  }

  lemma ClientOwns(inProject: Uri -> bool, s: State, l: Step, v: Uri)
    requires Bounded(s) && OwnedAt(s, v) && Enabled(inProject, s, l)
    requires l.Change? || l.Close? || l.Save? || l.Fire?
    requires l.Save? ==> OwnedAt(s, l.uri)
    ensures Bounded(Next(inProject, s, l)) && OwnedAt(Next(inProject, s, l), v)
  {
    var t := Next(inProject, s, l);
    assert forall h :: h in t.waiting && h.Saved? ==> h in s.waiting || (l == Save(h.uri) && h.buffer == s.open[h.uri]);
  }

  lemma ResumeAddsNoBuffer(inProject: Uri -> bool, s: State, locks: bool, onDisk: bool)
    requires Enabled(inProject, s, Resume(locks, onDisk))
    ensures NoNewBuffer(s, Next(inProject, s, Resume(locks, onDisk)))
  {
    hide Continue;
    ContinueAddsNoBuffer(inProject, s.(waiting := s.waiting[1..]), s.waiting[0], locks, onDisk);
    assert forall h :: h in s.waiting[1..] ==> h in s.waiting;
  }

  lemma PipelineAddsNoBuffer(inProject: Uri -> bool, s: State, l: Step)
    requires Enabled(inProject, s, l)
    requires l.Watched? || l.Ready? || l.Publish? || l.Start? || l.Extract? || l.End?
    ensures NoNewBuffer(s, Next(inProject, s, l))
  {
    hide Continue, LoopTest;
  }

  lemma OtherAddsNoBuffer(inProject: Uri -> bool, s: State, l: Step)
    requires Enabled(inProject, s, l) && !l.Change? && !l.Close? && !l.Save? && !l.Fire?
    ensures NoNewBuffer(s, Next(inProject, s, l))
  {
    hide NoNewBuffer, Continue, BeginPass, LoopTest;
    match l
    case Resume(locks, onDisk) => ResumeAddsNoBuffer(inProject, s, locks, onDisk);
    case Loop(id, locks) => LoopAddsNoBuffer(s, id, locks);
    case _ => PipelineAddsNoBuffer(inProject, s, l);
  }

  lemma StepOwns(inProject: Uri -> bool, s: State, l: Step, v: Uri)
    requires Bounded(s) && (forall u :: OwnedAt(s, u)) && Enabled(inProject, s, l)
    ensures Bounded(Next(inProject, s, l)) && OwnedAt(Next(inProject, s, l), v)
  {
    hide Next, Bounded, OwnedAt, NoNewBuffer;
    if l.Change? || l.Close? || l.Save? || l.Fire? {
      ClientOwns(inProject, s, l, v);
    } else {
      OtherAddsNoBuffer(inProject, s, l);
      StillOwned(s, Next(inProject, s, l), v);
    }
  }

  // ---------------------------------------------------------------------------
  // What brings a forgotten edit back
  // ---------------------------------------------------------------------------

  /** The next change or close of the file, or a save of its newest edit going on. */
  predicate Restores(s: State, l: Step, u: Uri)
  {
    || (l.Change? && l.uri == u) || (l.Close? && l.uri == u)
    || (SaveGoesOn(s, l, u) && u in s.open && s.open[u].edit == s.waiting[0].buffer.edit)
  }

  /** Nothing that could cover the file is added. */
  lemma StillUncovered(s: State, t: State, v: Uri)
    requires !Covered(s, v) && v in t.open && t.open[v] == s.open[v]
    requires s.open[v].edit !in t.checked && (Woken(t, v) ==> Woken(s, v))
    requires forall id :: id in t.passes && t.passes[id].uri == v ==>
               id in s.passes && s.passes[id].uri == v && s.passes[id].buffer == t.passes[id].buffer
    ensures !Covered(t, v)
  {}

  lemma BeginUncovers(s: State, u: Uri, locks: bool, v: Uri)
    requires !Covered(s, v) && u != v && forall id :: id in s.passes ==> id < s.calls
    ensures !Covered(BeginPass(s, u, locks), v)
  {
    StillUncovered(s, BeginPass(s, u, locks), v);
  }

  lemma LoopUncovers(s: State, id: nat, locks: bool, v: Uri)
    requires OnePass(s) && OwnedAt(s, v) && !Covered(s, v) && id in s.passes
    ensures !Covered(LoopTest(s, id, locks), v)
  {
    var u := s.passes[id].uri;
    var done := s.(passes := s.passes - {id}, checked := s.checked + {s.passes[id].buffer.edit});
    StillUncovered(s, done, v);
    if u in s.rerun {
      BeginUncovers(done, u, locks, v);
    } else {
      StillUncovered(done, LoopTest(s, id, locks), v);
    }
  }

  lemma EntryUncovers(s: State, u: Uri, locks: bool, v: Uri)
    requires OnePass(s) && !Covered(s, v) && u != v
    ensures !Covered(LiveValidate(s, u, locks), v)
  {
    if u in s.running {
      StillUncovered(s, LiveValidate(s, u, locks), v);
    } else {
      var marked := s.(running := s.running + {u});
      StillUncovered(s, marked, v);
      BeginUncovers(marked, u, locks, v);
    }
  }

  lemma ResumeUncovers(inProject: Uri -> bool, s: State, locks: bool, onDisk: bool, v: Uri)
    requires OnePass(s) && OwnedAt(s, v) && !Covered(s, v) && Enabled(inProject, s, Resume(locks, onDisk))
    requires !Restores(s, Resume(locks, onDisk), v)
    ensures !Covered(Next(inProject, s, Resume(locks, onDisk)), v)
  {
    var rest := s.(waiting := s.waiting[1..]);
    assert s.waiting == [s.waiting[0]] + rest.waiting;
    StillUncovered(s, rest, v);
    match s.waiting[0]
    case Debounced(u) => EntryUncovers(rest, u, locks, v);
    case Closed(u) => StillUncovered(rest, Reconcile(inProject, rest, u, onDisk), v);
    case Saved(u, b) => StillUncovered(rest, ValidateSave(rest, u, b), v);
  }

  lemma OtherUncovers(inProject: Uri -> bool, s: State, l: Step, v: Uri)
    requires !Covered(s, v) && Enabled(inProject, s, l) && !l.Resume? && !l.Loop? && !Restores(s, l, v)
    ensures !Covered(Next(inProject, s, l), v)
  {
    StillUncovered(s, Next(inProject, s, l), v);
  }

  lemma StepUncovers(inProject: Uri -> bool, s: State, l: Step, v: Uri)
    requires OnePass(s) && OwnedAt(s, v) && !Covered(s, v) && Enabled(inProject, s, l) && !Restores(s, l, v)
    ensures !Covered(Next(inProject, s, l), v)
  {
    match l
    case Resume(locks, onDisk) => ResumeUncovers(inProject, s, locks, onDisk, v);
    case Loop(id, locks) => LoopUncovers(s, id, locks, v);
    case _ => OtherUncovers(inProject, s, l, v);
  }

  lemma LosingUncovers(inProject: Uri -> bool, s: State, l: Step, v: Uri)
    requires Loses(s, l, v) && Enabled(inProject, s, l)
    ensures !Covered(Next(inProject, s, l), v)
  {
    DequeueBegun(s, v);
    SaveKeepsCovered(s.(waiting := s.waiting[1..]), v, s.waiting[0].buffer);
  }

  lemma RestoringCovers(inProject: Uri -> bool, s: State, l: Step, v: Uri)
    requires Restores(s, l, v) && Enabled(inProject, s, l)
    ensures Covered(Next(inProject, s, l), v)
  {
    if SaveGoesOn(s, l, v) {
      SaveKeepsCovered(s.(waiting := s.waiting[1..]), v, s.waiting[0].buffer);
    }
  }

  /** After a step an edit is covered exactly if the step did not take its only cover and it was
      covered before, or the step brought it back. */
  lemma StepCoversExactly(inProject: Uri -> bool, s: State, l: Step, v: Uri)
    requires OnePass(s) && OwnedAt(s, v) && Enabled(inProject, s, l)
    ensures Covered(Next(inProject, s, l), v) <==> !Loses(s, l, v) && (Covered(s, v) || Restores(s, l, v))
  {
    if Loses(s, l, v) {
      LosingUncovers(inProject, s, l, v);
    } else if Restores(s, l, v) {
      RestoringCovers(inProject, s, l, v);
    } else if Covered(s, v) {
      StepCovers(inProject, s, l, v);
    } else {
      StepUncovers(inProject, s, l, v);
    }
  }

  // ---------------------------------------------------------------------------
  // Live diagnostics of another buffer
  // ---------------------------------------------------------------------------

  /** The next change or close of the file, a save going on, or an answer for the open buffer. */
  predicate Refreshes(s: State, l: Step, u: Uri)
  {
    || (l.Change? && l.uri == u) || (l.Close? && l.uri == u) || SaveGoesOn(s, l, u)
    || (l.Publish? && l.errors && l.id in s.passes && s.passes[l.id].uri == u && u in s.open &&
        s.passes[l.id].buffer == s.open[u])
  }

  /** The live diagnostics of v, which are those of another buffer, stay. */
  lemma StillOutOfSync(s: State, t: State, v: Uri)
    requires !InSyncAt(true, s, v) && InSyncAt(false, s, v) && t.open == s.open
    requires v in t.squiggles && t.squiggles[v] == s.squiggles[v] && (Woken(t, v) ==> Woken(s, v))
    ensures !InSyncAt(true, t, v)
  {}

  lemma BeginLeaves(s: State, u: Uri, locks: bool, v: Uri)
    requires u != v && v in s.squiggles
    ensures var t := BeginPass(s, u, locks);
            v in t.squiggles && t.squiggles[v] == s.squiggles[v] && (Woken(t, v) ==> Woken(s, v))
  {}

  lemma LoopLeaves(s: State, id: nat, locks: bool, v: Uri)
    requires id in s.passes && v in s.squiggles && v !in s.rerun
    ensures var t := LoopTest(s, id, locks);
            v in t.squiggles && t.squiggles[v] == s.squiggles[v] && (Woken(t, v) ==> Woken(s, v))
  {
    var u := s.passes[id].uri;
    if u in s.rerun {
      BeginLeaves(s.(passes := s.passes - {id}, checked := s.checked + {s.passes[id].buffer.edit}), u, locks, v);
    }
  }

  lemma EntryLeaves(s: State, u: Uri, locks: bool, v: Uri)
    requires u != v && v in s.squiggles
    ensures var t := LiveValidate(s, u, locks);
            v in t.squiggles && t.squiggles[v] == s.squiggles[v] && (Woken(t, v) ==> Woken(s, v))
  {
    if u !in s.running { BeginLeaves(s.(running := s.running + {u}), u, locks, v); }
  }

  lemma ContinueLeaves(inProject: Uri -> bool, s: State, h: Handler, locks: bool, onDisk: bool, v: Uri)
    requires v in s.squiggles && h != Debounced(v) && !(h.Saved? && h.uri == v)
    ensures var t := Continue(inProject, s, h, locks, onDisk);
            v in t.squiggles && t.squiggles[v] == s.squiggles[v] && (Woken(t, v) ==> Woken(s, v))
  {
    match h
    case Debounced(u) => EntryLeaves(s, u, locks, v);
    case Closed(u) =>
    case Saved(u, b) =>
  }

  lemma ResumeLeaves(inProject: Uri -> bool, s: State, locks: bool, onDisk: bool, v: Uri)
    requires Enabled(inProject, s, Resume(locks, onDisk)) && v in s.squiggles && !Woken(s, v)
    requires !SaveGoesOn(s, Resume(locks, onDisk), v)
    ensures var t := Next(inProject, s, Resume(locks, onDisk));
            v in t.squiggles && t.squiggles[v] == s.squiggles[v] && !Woken(t, v)
  {
    hide Continue;
    var rest := s.(waiting := s.waiting[1..]);
    assert s.waiting == [s.waiting[0]] + rest.waiting;
    ContinueLeaves(inProject, rest, s.waiting[0], locks, onDisk, v);
  }

  lemma OtherStaysOutOfSync(inProject: Uri -> bool, s: State, l: Step, v: Uri)
    requires !InSyncAt(true, s, v) && InSyncAt(false, s, v) && Enabled(inProject, s, l)
    requires !Refreshes(s, l, v) && !l.Resume? && !l.Loop?
    ensures !InSyncAt(true, Next(inProject, s, l), v)
  {}

  /** After a step the live diagnostics are the buffer's own exactly if the step did not misplace
      an answer and they were before, or the step refreshed them. */
  lemma StepSyncsExactly(inProject: Uri -> bool, s: State, l: Step, v: Uri)
    requires InSyncAt(false, s, v) && Enabled(inProject, s, l)
    ensures InSyncAt(true, Next(inProject, s, l), v) <==>
            !Misplaces(s, l, v) && (InSyncAt(true, s, v) || Refreshes(s, l, v))
  {
    if Misplaces(s, l, v) || Refreshes(s, l, v) {
    } else if InSyncAt(true, s, v) {
      StepSyncs(true, inProject, s, l, v);
    } else {
      match l
      case Resume(locks, onDisk) =>
        ContinueKeepsDocuments(inProject, s.(waiting := s.waiting[1..]), s.waiting[0], locks, onDisk);
        ResumeLeaves(inProject, s, locks, onDisk, v);
        StillOutOfSync(s, Next(inProject, s, l), v);
      case Loop(id, locks) =>
        LoopKeepsDocuments(s, id, locks);
        LoopLeaves(s, id, locks, v);
        StillOutOfSync(s, Next(inProject, s, l), v);
      case _ => OtherStaysOutOfSync(inProject, s, l, v);
    }
  }

  /** No change reuses the version number of a buffer that is being validated. */
  predicate FreshVersion(s: State, l: Step)
  {
    l.Change? ==> forall id :: id in s.passes && s.passes[id].uri == l.uri ==> s.passes[id].buffer.version != l.version
  }

  /** The version number tells a pass whether its buffer is still the open one. */
  predicate VersionsTell(s: State)
  {
    forall id :: id in s.passes ==> VersionTells(s, s.passes[id])
  }

  predicate VersionTells(s: State, p: Pass)
  {
    p.uri in s.open && s.open[p.uri].version == p.buffer.version ==> s.open[p.uri] == p.buffer
  }

  lemma OldBuffersTell(s: State, t: State)
    requires VersionsTell(s) && NoNewBuffer(s, t)
    ensures VersionsTell(t)
  {}

  lemma StepTells(inProject: Uri -> bool, s: State, l: Step)
    requires VersionsTell(s) && FreshVersion(s, l) && Enabled(inProject, s, l)
    ensures VersionsTell(Next(inProject, s, l))
  {
    if !l.Change? && !l.Close? && !l.Save? && !l.Fire? {
      OtherAddsNoBuffer(inProject, s, l);
      OldBuffersTell(s, Next(inProject, s, l));
    }
  }

  /** Where the version number tells, no answer is misplaced. */
  lemma TellingMisplacesNone(s: State, l: Step, u: Uri)
    requires VersionsTell(s)
    ensures !Misplaces(s, l, u)
  {}
}
