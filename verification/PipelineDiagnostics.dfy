// The diagnostics on screen (packages/houdini-lsp/src/diagnostics.ts): a validate run clears the
// previous run's errors and publishes its own next to the live ones, while the live path
// (overlay.ts) publishes and withdraws at any moment in between.
module PipelineDiagnostics {
  import opened Wrappers
  import opened Strings

  type Uri = string

  /** rest stands for the parts merged_diagnostics does not compare: the end, severity, source. */
  datatype Diagnostic = Diagnostic(message: string, line: nat, character: nat, rest: string)

  // ---------------------------------------------------------------------------
  // Merging live and pipeline diagnostics
  // ---------------------------------------------------------------------------

  /** The string that stands for a diagnostic in the set of seen ones. */
  function Key(d: Diagnostic): string
  {
    d.message + "@" + Digits(d.line) + ":" + Digits(d.character)
  }

  predicate SameSpot(d: Diagnostic, e: Diagnostic)
  {
    d.message == e.message && d.line == e.line && d.character == e.character
  }

  lemma NoneAfter(a: string, b: string, sep: char)
    requires sep !in b
    ensures forall k :: |a| < k < |a + [sep] + b| ==> (a + [sep] + b)[k] != sep
  {
    forall k | |a| < k < |a + [sep] + b| ensures (a + [sep] + b)[k] != sep {
      assert (a + [sep] + b)[k] == b[k - |a| - 1];
    }
  }

  /** What follows the last occurrence of a character splits off uniquely. */
  lemma LastSplit(a: string, b: string, c: string, d: string, sep: char)
    requires a + [sep] + b == c + [sep] + d && sep !in b && sep !in d
    ensures a == c && b == d
  {
    var x, y := a + [sep] + b, c + [sep] + d;
    assert x[|a|] == sep && y[|c|] == sep;
    NoneAfter(a, b, sep);
    NoneAfter(c, d, sep);
    assert x[..|a|] == a && y[..|c|] == c && x[|a| + 1..] == b && y[|c| + 1..] == d;
  }

  /** Two diagnostics have the same key exactly if message and start agree, whatever characters
      the message contains. */
  lemma KeyIsSpot(d: Diagnostic, e: Diagnostic)
    ensures Key(d) == Key(e) <==> SameSpot(d, e)
  {
    if Key(d) == Key(e) {
      DigitsAreDigits(d.line);
      DigitsAreDigits(d.character);
      DigitsAreDigits(e.line);
      DigitsAreDigits(e.character);
      LastSplit(d.message + "@" + Digits(d.line), Digits(d.character), e.message + "@" + Digits(e.line),
        Digits(e.character), ':');
      LastSplit(d.message, Digits(d.line), e.message, Digits(e.line), '@');
      DigitsDiffer(d.line, e.line);
      DigitsDiffer(d.character, e.character);
    }
  }

  function Keys(ds: seq<Diagnostic>): set<string>
  {
    set i | 0 <= i < |ds| :: Key(ds[i])
  }

  function Unseen(ds: seq<Diagnostic>, seen: set<string>): seq<Diagnostic>
  {
    if ds == [] then []
    else (if Key(ds[0]) in seen then [] else [ds[0]]) + Unseen(ds[1..], seen)
  }

  /** merged_diagnostics. */
  function Merged(live: seq<Diagnostic>, pipeline: seq<Diagnostic>): seq<Diagnostic>
  {
    live + Unseen(pipeline, Keys(live))
  }

  /** Nothing of the live list has the message and start of d. */
  predicate NewNextTo(live: seq<Diagnostic>, d: Diagnostic)
  {
    forall e :: e in live ==> !SameSpot(e, d)
  }

  lemma KeysMean(live: seq<Diagnostic>, d: Diagnostic)
    ensures Key(d) !in Keys(live) <==> NewNextTo(live, d)
  {
    forall e ensures Key(e) == Key(d) <==> SameSpot(e, d) {
      KeyIsSpot(e, d);
    }
    forall i | 0 <= i < |live| ensures Key(live[i]) in Keys(live) && live[i] in live {}
  }

  lemma {:induction false} UnseenMeans(pipeline: seq<Diagnostic>, live: seq<Diagnostic>, d: Diagnostic)
    ensures d in Unseen(pipeline, Keys(live)) <==> d in pipeline && NewNextTo(live, d)
  {
    if pipeline != [] {
      KeysMean(live, pipeline[0]);
      UnseenMeans(pipeline[1..], live, d);
      assert pipeline == [pipeline[0]] + pipeline[1..];
    }
  }

  /** The merged list shows every live diagnostic, and a pipeline diagnostic exactly if no live
      one has its message and start. */
  lemma MergedShows(live: seq<Diagnostic>, pipeline: seq<Diagnostic>, d: Diagnostic)
    ensures d in Merged(live, pipeline) <==> d in live || (d in pipeline && NewNextTo(live, d))
  {
    UnseenMeans(pipeline, live, d);
  }

  /** These pipeline diagnostics, in this order: exactly those that no live one has the spot of. */
  ghost predicate Added(live: seq<Diagnostic>, pipeline: seq<Diagnostic>, at: seq<nat>, out: seq<Diagnostic>)
  {
    && |at| == |out| && (forall k :: 0 <= k < |at| ==> at[k] < |pipeline| && out[k] == pipeline[at[k]])
    && (forall i, j :: 0 <= i < j < |at| ==> at[i] < at[j])
    && forall i: nat :: i < |pipeline| ==> (i in at <==> NewNextTo(live, pipeline[i]))
  }

  /** The live diagnostics come first, then the new ones of the pipeline in their order. */
  lemma MergedInOrder(live: seq<Diagnostic>, pipeline: seq<Diagnostic>) returns (at: seq<nat>)
    ensures |Merged(live, pipeline)| >= |live| && Merged(live, pipeline)[..|live|] == live
    ensures Added(live, pipeline, at, Merged(live, pipeline)[|live|..])
  {
    at := UnseenAdded(live, pipeline);
    assert Merged(live, pipeline)[|live|..] == Unseen(pipeline, Keys(live));
  }

  lemma {:induction false} UnseenAdded(live: seq<Diagnostic>, pipeline: seq<Diagnostic>) returns (at: seq<nat>)
    ensures Added(live, pipeline, at, Unseen(pipeline, Keys(live)))
  {
    if pipeline == [] {
      at := [];
    } else {
      var n := |pipeline| - 1;
      var d, before := pipeline[n], pipeline[..n];
      at := UnseenAdded(live, before);
      assert pipeline == before + [d];
      KeysMean(live, d);
      UnseenSnoc(before, d, Keys(live));
      AddedMore(live, before, at, Unseen(before, Keys(live)), d);
      if NewNextTo(live, d) { at := at + [n]; }
    }
  }

  lemma {:induction false} UnseenSnoc(pipeline: seq<Diagnostic>, d: Diagnostic, seen: set<string>)
    ensures Unseen(pipeline + [d], seen) == Unseen(pipeline, seen) + if Key(d) in seen then [] else [d]
  {
    if pipeline == [] {
      assert [] + [d] == [d] && [d][1..] == [];
    } else {
      assert (pipeline + [d])[1..] == pipeline[1..] + [d];
      UnseenSnoc(pipeline[1..], d, seen);
    }
  }

  lemma AddedMore(live: seq<Diagnostic>, pipeline: seq<Diagnostic>, at: seq<nat>, out: seq<Diagnostic>, d: Diagnostic)
    requires Added(live, pipeline, at, out)
    ensures NewNextTo(live, d) ==> Added(live, pipeline + [d], at + [|pipeline|], out + [d])
    ensures !NewNextTo(live, d) ==> Added(live, pipeline + [d], at, out + [])
  {
    hide NewNextTo;
    var all := pipeline + [d];
    assert out + [] == out && all[|pipeline|] == d;
    assert forall i :: 0 <= i < |pipeline| ==> all[i] == pipeline[i];
  }

  predicate Unique(ds: seq<Diagnostic>)
  {
    forall i, j :: 0 <= i < j < |ds| ==> !SameSpot(ds[i], ds[j])
  }

  /** The pipeline reports nothing new twice. */
  predicate NoneTwice(pipeline: seq<Diagnostic>, live: seq<Diagnostic>)
  {
    forall i, j :: 0 <= i < j < |pipeline| && SameSpot(pipeline[i], pipeline[j]) ==> !NewNextTo(live, pipeline[i])
  }

  lemma {:induction false} UnseenUnique(pipeline: seq<Diagnostic>, live: seq<Diagnostic>)
    ensures Unique(Unseen(pipeline, Keys(live))) <==> NoneTwice(pipeline, live)
  {
    if pipeline != [] {
      var d, rest := pipeline[0], pipeline[1..];
      var tail := Unseen(rest, Keys(live));
      UnseenUnique(rest, live);
      KeysMean(live, d);
      forall e ensures e in tail <==> e in rest && NewNextTo(live, e) { UnseenMeans(rest, live, e); }
      NoneTwiceCons(d, rest, live);
      assert pipeline == [d] + rest;
      if NewNextTo(live, d) {
        UniqueCons(d, tail);
      } else {
        assert [] + tail == tail;
      }
    }
  }

  lemma UniqueCons(d: Diagnostic, tail: seq<Diagnostic>)
    ensures Unique([d] + tail) <==> Unique(tail) && forall e :: e in tail ==> !SameSpot(d, e)
  {
    var all := [d] + tail;
    if Unique(all) {
      forall i, j | 0 <= i < j < |tail| ensures !SameSpot(tail[i], tail[j]) {
        assert !SameSpot(all[i + 1], all[j + 1]);
      }
      forall j | 0 <= j < |tail| ensures !SameSpot(d, tail[j]) {
        assert !SameSpot(all[0], all[j + 1]);
      }
    }
    if Unique(tail) && forall e :: e in tail ==> !SameSpot(d, e) {
      forall i, j | 0 <= i < j < |all| ensures !SameSpot(all[i], all[j]) {
        assert all[j] == tail[j - 1] && (i > 0 ==> all[i] == tail[i - 1]);
      }
    }
  }

  lemma NoneTwiceCons(d: Diagnostic, rest: seq<Diagnostic>, live: seq<Diagnostic>)
    ensures NoneTwice([d] + rest, live) <==>
            NoneTwice(rest, live) && (NewNextTo(live, d) ==> forall e :: e in rest ==> !SameSpot(d, e))
  {
    var all := [d] + rest;
    if NoneTwice(all, live) {
      forall i, j | 0 <= i < j < |rest| && SameSpot(rest[i], rest[j]) ensures !NewNextTo(live, rest[i]) {
        assert SameSpot(all[i + 1], all[j + 1]);
      }
      forall j | 0 <= j < |rest| && NewNextTo(live, d) ensures !SameSpot(d, rest[j]) {
        assert all[0] == d && all[j + 1] == rest[j];
      }
    }
    if NoneTwice(rest, live) && (NewNextTo(live, d) ==> forall e :: e in rest ==> !SameSpot(d, e)) {
      forall i, j | 0 <= i < j < |all| && SameSpot(all[i], all[j]) ensures !NewNextTo(live, all[i]) {
        assert all[j] == rest[j - 1] && (i > 0 ==> all[i] == rest[i - 1]);
      }
    }
  }

  /** The merged list has no duplicates exactly if the live list has none and the pipeline reports
      nothing new twice: its diagnostics are compared with the live ones, but not with each other. */
  lemma MergedUnique(live: seq<Diagnostic>, pipeline: seq<Diagnostic>)
    ensures Unique(Merged(live, pipeline)) <==> Unique(live) && NoneTwice(pipeline, live)
  {
    var tail, all := Unseen(pipeline, Keys(live)), Merged(live, pipeline);
    UnseenUnique(pipeline, live);
    if Unique(live) && Unique(tail) {
      forall i, j | 0 <= i < j < |all| ensures !SameSpot(all[i], all[j]) {
        if i < |live| <= j {
          UnseenMeans(pipeline, live, all[j]);
        }
      }
    }
    if Unique(all) {
      forall i, j | 0 <= i < j < |live| ensures !SameSpot(live[i], live[j]) {
        assert all[i] == live[i] && all[j] == live[j];
      }
      forall i, j | 0 <= i < j < |tail| ensures !SameSpot(tail[i], tail[j]) {
        assert all[|live| + i] == tail[i] && all[|live| + j] == tail[j];
      }
    }
  }

  // ---------------------------------------------------------------------------
  // Runs of the screen
  // ---------------------------------------------------------------------------

  datatype Screen = Screen(
    live: map<Uri, seq<Diagnostic>>,     // live_diagnostics
    shown: map<Uri, seq<Diagnostic>>,    // what the client was last sent
    owned: set<Uri>,                     // pipeline_diagnostic_uris
    running: bool,                       // a validate holds the lock
    errors: map<Uri, seq<Diagnostic>>,   // history: what the last run reported
    touched: set<Uri>)                   // history: files the live path wrote to since
  {
    function LiveOf(u: Uri): seq<Diagnostic> { if u in live then live[u] else [] }

    function ShownOf(u: Uri): seq<Diagnostic> { if u in shown then shown[u] else [] }

    function ErrorsOf(u: Uri): seq<Diagnostic> { if u in errors then errors[u] else [] }
  }

  datatype Event =
    | Publish(uri: Uri, diagnostics: seq<Diagnostic>) // publish_live
    | Withdraw(uri: Uri)                              // a close, or a save before its run
    | Begin                                           // a run clears the previous one's errors
    | Finish(byUri: map<Uri, seq<Diagnostic>>)        // a run publishes its own, none if it passed

  /** Runs exclude each other: the whole run holds pipeline_lock. */
  predicate Enabled(s: Screen, e: Event)
  {
    (e.Begin? ==> !s.running) && (e.Finish? ==> s.running)
  }

  function Next(s: Screen, e: Event): Screen
  {
    match e
    case Publish(u, ds) => s.(live := s.live[u := ds], shown := s.shown[u := ds], touched := s.touched + {u})
    case Withdraw(u) => s.(live := s.live - {u}, shown := s.shown[u := []], touched := s.touched + {u})
    case Begin => s.(shown := s.shown + LiveOnly(s, s.owned), owned := {}, running := true)
    case Finish(byUri) =>
      s.(shown := s.shown + AllMerged(s, byUri), owned := s.owned + byUri.Keys, running := false, errors := byUri,
         touched := {})
  }

  function LiveOnly(s: Screen, uris: set<Uri>): map<Uri, seq<Diagnostic>>
  {
    map u | u in uris :: s.LiveOf(u)
  }

  function AllMerged(s: Screen, byUri: map<Uri, seq<Diagnostic>>): map<Uri, seq<Diagnostic>>
  {
    map u | u in byUri :: Merged(s.LiveOf(u), byUri[u])
  }

  function Start(): Screen { Screen(map[], map[], {}, false, map[], {}) }

  ghost predicate Run(run: seq<Screen>, events: seq<Event>)
  {
    && |run| == |events| + 1 && run[0] == Start()
    && forall i :: 0 <= i < |events| ==> Enabled(run[i], events[i]) && run[i + 1] == Next(run[i], events[i])
  }

  /** What the client displays for a file: the live diagnostics, and those of the last run unless
      another run is on or the live path has written to the file since. */
  predicate Displays(s: Screen, u: Uri)
  {
    s.ShownOf(u) == if s.running || u in s.touched then s.LiveOf(u) else Merged(s.LiveOf(u), s.ErrorsOf(u))
  }

  predicate Exact(s: Screen, u: Uri)
  {
    && Displays(s, u)
    && (u !in s.owned ==> s.ShownOf(u) == s.LiveOf(u))
    && (s.running ==> u !in s.owned)
  }

  lemma StepExact(s: Screen, e: Event, u: Uri)
    requires Exact(s, u) && Enabled(s, e)
    ensures Exact(Next(s, e), u)
  {
    if e.Finish? && u !in e.byUri {
      assert Merged(s.LiveOf(u), []) == s.LiveOf(u);
    }
  }

  /** In every state of every run, every file's display is exactly this. */
  lemma {:induction false} AlwaysExact(run: seq<Screen>, events: seq<Event>, i: nat, u: Uri)
    requires Run(run, events) && i < |run|
    ensures Displays(run[i], u)
    ensures u !in run[i].owned ==> run[i].ShownOf(u) == run[i].LiveOf(u)
    ensures run[i].running ==> u !in run[i].owned
  {
    if i == 0 {
      assert Merged([], []) == [];
    } else {
      AlwaysExact(run, events, i - 1, u);
      StepExact(run[i - 1], events[i - 1], u);
    }
  }

  /** When a validate finishes, every file shows its live diagnostics and that run's errors:
      nothing of an earlier run is left, whatever the live path did meanwhile. */
  lemma FinishedRunShows(run: seq<Screen>, events: seq<Event>, i: nat, u: Uri)
    requires Run(run, events) && i < |events| && events[i].Finish?
    ensures run[i + 1].ShownOf(u) ==
            Merged(run[i].LiveOf(u), if u in events[i].byUri then events[i].byUri[u] else [])
  {
    AlwaysExact(run, events, i + 1, u);
  }

  /** A live publication to a file hides the last run's errors there exactly if the merge would
      have shown one. */
  lemma PublishHides(s: Screen, u: Uri, ds: seq<Diagnostic>)
    requires !s.running
    ensures Next(s, Publish(u, ds)).ShownOf(u) == Merged(ds, s.ErrorsOf(u)) <==>
            forall d :: d in s.ErrorsOf(u) ==> !NewNextTo(ds, d)
  {
    forall d ensures d in Unseen(s.ErrorsOf(u), Keys(ds)) <==> d in s.ErrorsOf(u) && NewNextTo(ds, d) {
      UnseenMeans(s.ErrorsOf(u), ds, d);
    }
    var extra := Unseen(s.ErrorsOf(u), Keys(ds));
    assert extra != [] ==> extra[0] in extra;
    assert ds + extra == ds ==> |extra| == 0;
  }

  // ---------------------------------------------------------------------------
  // The code
  // ---------------------------------------------------------------------------

  datatype Location = Location(filepath: string, line: Option<int>, column: Option<int>)
  datatype HookError = HookError(message: string, locations: seq<Location>)

  /** Where a location ends up: fileUri is pathToFileURL of the resolved path, place is
      pipeline_range on the file's text, with the line counted from 0. */
  datatype Project = Project(fileUri: string -> Uri, place: (Uri, nat, nat) -> Diagnostic)
  {
    function At(message: string, loc: Location): Diagnostic
    {
      var line := if loc.line.None? then 0 else if loc.line.value < 1 then 0 else loc.line.value - 1;
      var column := if loc.column.None? || loc.column.value < 0 then 0 else loc.column.value;
      place(fileUri(loc.filepath), line, column).(message := message)
    }
  }

  /** The diagnostics one error brings to a file. */
  function FromLocations(p: Project, message: string, locations: seq<Location>, u: Uri): seq<Diagnostic>
  {
    if locations == [] then []
    else
      var loc := locations[|locations| - 1];
      FromLocations(p, message, locations[..|locations| - 1], u) +
      if p.fileUri(loc.filepath) == u then [p.At(message, loc)] else []
  }

  function FromError(p: Project, saved: Option<Uri>, e: HookError, u: Uri): seq<Diagnostic>
  {
    if e.locations == [] then (if saved == Some(u) then [Diagnostic(e.message, 0, 0, "")] else [])
    else FromLocations(p, e.message, e.locations, u)
  }

  /** The diagnostics a run's errors bring to a file, in the order of the errors. */
  function FromErrors(p: Project, saved: Option<Uri>, errors: seq<HookError>, u: Uri): seq<Diagnostic>
  {
    if errors == [] then []
    else FromErrors(p, saved, errors[..|errors| - 1], u) + FromError(p, saved, errors[|errors| - 1], u)
  }

  function ListOf(byUri: map<Uri, seq<Diagnostic>>, u: Uri): seq<Diagnostic>
  {
    if u in byUri then byUri[u] else []
  }

  predicate CollectedAt(p: Project, saved: Option<Uri>, errors: seq<HookError>, byUri: map<Uri, seq<Diagnostic>>, u: Uri)
  {
    ListOf(byUri, u) == FromErrors(p, saved, errors, u) && (u in byUri ==> byUri[u] != [])
  }

  ghost predicate Collected(p: Project, saved: Option<Uri>, errors: seq<HookError>, byUri: map<Uri, seq<Diagnostic>>)
  {
    forall u :: CollectedAt(p, saved, errors, byUri, u)
  }

  /** Each list has grown by the diagnostics of these locations. */
  predicate GrownAt(p: Project, before: map<Uri, seq<Diagnostic>>, message: string, locations: seq<Location>,
    byUri: map<Uri, seq<Diagnostic>>, u: Uri)
  {
    && ListOf(byUri, u) == ListOf(before, u) + FromLocations(p, message, locations, u)
    && (u in byUri ==> u in before || byUri[u] != [])
  }

  ghost predicate Grown(p: Project, before: map<Uri, seq<Diagnostic>>, message: string, locations: seq<Location>,
    byUri: map<Uri, seq<Diagnostic>>)
  {
    forall u :: GrownAt(p, before, message, locations, byUri, u)
  }

  function Push(byUri: map<Uri, seq<Diagnostic>>, u: Uri, d: Diagnostic): map<Uri, seq<Diagnostic>>
  {
    byUri[u := ListOf(byUri, u) + [d]]
  }

  lemma PushGrows(p: Project, before: map<Uri, seq<Diagnostic>>, message: string, locations: seq<Location>,
    byUri: map<Uri, seq<Diagnostic>>, loc: Location)
    requires Grown(p, before, message, locations, byUri)
    ensures Grown(p, before, message, locations + [loc], Push(byUri, p.fileUri(loc.filepath), p.At(message, loc)))
  {
    assert (locations + [loc])[..|locations|] == locations;
    forall u
      ensures GrownAt(p, before, message, locations + [loc], Push(byUri, p.fileUri(loc.filepath), p.At(message, loc)), u)
    {
      assert GrownAt(p, before, message, locations, byUri, u);
    }
  }

  method CollectLocations(p: Project, message: string, locations: seq<Location>, before: map<Uri, seq<Diagnostic>>)
    returns (byUri: map<Uri, seq<Diagnostic>>)
    ensures Grown(p, before, message, locations, byUri)
  {
    byUri := before;
    assert forall u :: GrownAt(p, before, message, locations[..0], byUri, u);
    for i := 0 to |locations|
      invariant Grown(p, before, message, locations[..i], byUri)
    {
      PushGrows(p, before, message, locations[..i], byUri, locations[i]);
      assert locations[..i + 1] == locations[..i] + [locations[i]];
      byUri := Push(byUri, p.fileUri(locations[i].filepath), p.At(message, locations[i]));
    }
    assert locations[..|locations|] == locations;
  }

  lemma OneMoreError(p: Project, saved: Option<Uri>, errors: seq<HookError>, e: HookError, u: Uri)
    ensures FromErrors(p, saved, errors + [e], u) == FromErrors(p, saved, errors, u) + FromError(p, saved, e, u)
  {
    assert (errors + [e])[..|errors|] == errors;
  }

  /** What one error adds. */
  method CollectError(p: Project, saved: Option<Uri>, errors: seq<HookError>, e: HookError,
      before: map<Uri, seq<Diagnostic>>)
    returns (byUri: map<Uri, seq<Diagnostic>>)
    requires Collected(p, saved, errors, before)
    ensures Collected(p, saved, errors + [e], byUri)
  {
    if e.locations == [] {
      byUri := if saved.Some? then Push(before, saved.value, Diagnostic(e.message, 0, 0, "")) else before;
    } else {
      byUri := CollectLocations(p, e.message, e.locations, before);
    }
    forall u ensures CollectedAt(p, saved, errors + [e], byUri, u) {
      OneMoreError(p, saved, errors, e, u);
      assert CollectedAt(p, saved, errors, before, u);
      assert e.locations != [] ==> GrownAt(p, before, e.message, e.locations, byUri, u);
    }
  }

  /** The loop over the errors of a failed run. */
  method Collect(p: Project, saved: Option<Uri>, errors: seq<HookError>) returns (byUri: map<Uri, seq<Diagnostic>>)
    ensures Collected(p, saved, errors, byUri)
    ensures forall u :: Told(p, saved, errors, u, ListOf(byUri, u)) && (u in byUri ==> byUri[u] != [])
  {
    byUri := map[];
    assert forall u :: CollectedAt(p, saved, errors[..0], byUri, u);
    for i := 0 to |errors|
      invariant Collected(p, saved, errors[..i], byUri)
    {
      byUri := CollectError(p, saved, errors[..i], errors[i], byUri);
      assert errors[..i + 1] == errors[..i] + [errors[i]];
    }
    assert errors[..|errors|] == errors;
    forall u ensures Told(p, saved, errors, u, ListOf(byUri, u)) && (u in byUri ==> byUri[u] != []) {
      assert CollectedAt(p, saved, errors, byUri, u);
      var parts := ErrorsTell(p, saved, errors, u);
    }
  }

  // ---------------------------------------------------------------------------
  // Where the errors are shown
  // ---------------------------------------------------------------------------

  /** The line and column a location means, both counted from 0: what is missing or too small is 0. */
  ghost predicate Means(loc: Location, line: nat, column: nat)
  {
    && (if loc.line.Some? && loc.line.value >= 1 then line + 1 == loc.line.value else line == 0)
    && (if loc.column.Some? && loc.column.value >= 0 then column == loc.column.value else column == 0)
  }

  /** The error at this location is shown in file u as d. */
  ghost predicate Placed(p: Project, message: string, loc: Location, u: Uri, d: Diagnostic)
  {
    && p.fileUri(loc.filepath) == u
    && exists line, column :: Means(loc, line, column) && d == p.place(u, line, column).(message := message)
  }

  ghost predicate PlacedAt(p: Project, message: string, locations: seq<Location>, u: Uri, j: nat, d: Diagnostic)
  {
    j < |locations| && Placed(p, message, locations[j], u, d)
  }

  /** One diagnostic for each location in file u, in their order. */
  ghost predicate LocationsTold(p: Project, message: string, locations: seq<Location>, u: Uri, at: seq<nat>,
    ds: seq<Diagnostic>)
  {
    && |at| == |ds| && (forall i, j :: 0 <= i < j < |at| ==> at[i] < at[j])
    && (forall k :: 0 <= k < |at| ==> PlacedAt(p, message, locations, u, at[k], ds[k]))
    && forall j: nat :: j < |locations| && p.fileUri(locations[j].filepath) == u ==> j in at
  }

  /** One error brings this to file u: its locations there, or without locations a mark at the start
      of the saved file. */
  ghost predicate ErrorTold(p: Project, saved: Option<Uri>, e: HookError, u: Uri, ds: seq<Diagnostic>)
  {
    if e.locations != [] then exists at :: LocationsTold(p, e.message, e.locations, u, at, ds)
    else if saved == Some(u) then ds == [Diagnostic(e.message, 0, 0, "")]
    else ds == []
  }

  function Flat(parts: seq<seq<Diagnostic>>): seq<Diagnostic>
  {
    if parts == [] then [] else Flat(parts[..|parts| - 1]) + parts[|parts| - 1]
  }

  /** The list is what each error brings, one after the other. */
  ghost predicate Told(p: Project, saved: Option<Uri>, errors: seq<HookError>, u: Uri, ds: seq<Diagnostic>)
  {
    exists parts: seq<seq<Diagnostic>> :: ds == Flat(parts) && AllTold(p, saved, errors, u, parts)
  }

  ghost predicate AllTold(p: Project, saved: Option<Uri>, errors: seq<HookError>, u: Uri, parts: seq<seq<Diagnostic>>)
  {
    |parts| == |errors| && forall i :: 0 <= i < |parts| ==> ErrorTold(p, saved, errors[i], u, parts[i])
  }

  lemma AtPlaces(p: Project, message: string, loc: Location)
    ensures Placed(p, message, loc, p.fileUri(loc.filepath), p.At(message, loc))
  {
    var line := if loc.line.None? then 0 else if loc.line.value < 1 then 0 else loc.line.value - 1;
    var column := if loc.column.None? || loc.column.value < 0 then 0 else loc.column.value;
    assert Means(loc, line, column);
  }

  lemma {:induction false} LocationsTell(p: Project, message: string, locations: seq<Location>, u: Uri)
    returns (at: seq<nat>)
    ensures LocationsTold(p, message, locations, u, at, FromLocations(p, message, locations, u))
  {
    if locations == [] {
      at := [];
    } else {
      var n := |locations| - 1;
      at := LocationsTell(p, message, locations[..n], u);
      AtPlaces(p, message, locations[n]);
      MoreTold(p, message, locations[..n], u, at, FromLocations(p, message, locations[..n], u), locations[n]);
      assert locations == locations[..n] + [locations[n]];
      if p.fileUri(locations[n].filepath) == u { at := at + [n]; }
    }
  }

  lemma MoreTold(p: Project, message: string, locations: seq<Location>, u: Uri, at: seq<nat>, ds: seq<Diagnostic>,
                 loc: Location)
    requires LocationsTold(p, message, locations, u, at, ds)
    ensures forall d :: Placed(p, message, loc, u, d) ==>
              LocationsTold(p, message, locations + [loc], u, at + [|locations|], ds + [d])
    ensures p.fileUri(loc.filepath) != u ==> LocationsTold(p, message, locations + [loc], u, at, ds + [])
  {
    hide Placed;
    var all := locations + [loc];
    assert ds + [] == ds;
    forall k | 0 <= k < |at| ensures PlacedAt(p, message, all, u, at[k], ds[k]) {
      assert PlacedAt(p, message, locations, u, at[k], ds[k]);
    }
    assert all[|locations|] == loc;
  }

  lemma {:induction false} ErrorsTell(p: Project, saved: Option<Uri>, errors: seq<HookError>, u: Uri)
    returns (parts: seq<seq<Diagnostic>>)
    ensures FromErrors(p, saved, errors, u) == Flat(parts) && AllTold(p, saved, errors, u, parts)
  {
    if errors == [] {
      parts := [];
    } else {
      var n := |errors| - 1;
      var e := errors[n];
      var before := ErrorsTell(p, saved, errors[..n], u);
      if e.locations != [] { var at := LocationsTell(p, e.message, e.locations, u); }
      parts := before + [FromError(p, saved, e, u)];
      assert parts[..n] == before;
      forall i | 0 <= i < |parts| ensures ErrorTold(p, saved, errors[i], u, parts[i]) {
        assert i < n ==> errors[..n][i] == errors[i];
      }
    }
  }

  /** One error in one place, counted from line 1 and column 0, is shown there and nowhere else. */
  lemma OnePlaceShown(p: Project, saved: Option<Uri>, message: string, file: string, line: nat, column: nat,
                      byUri: map<Uri, seq<Diagnostic>>)
    requires line >= 1
    requires Collected(p, saved, [HookError(message, [Location(file, Some(line), Some(column))])], byUri)
    ensures byUri == map[p.fileUri(file) := [p.place(p.fileUri(file), line - 1, column).(message := message)]]
  {
    var loc := Location(file, Some(line), Some(column));
    var e, home := HookError(message, [loc]), p.fileUri(file);
    assert [e][..0] == [] && [loc][..0] == [];
    forall u ensures u in byUri <==> u == home
      ensures u == home ==> u in byUri && byUri[u] == [p.place(home, line - 1, column).(message := message)]
    {
      assert CollectedAt(p, saved, [e], byUri, u);
      assert FromErrors(p, saved, [e], u) == FromError(p, saved, e, u);
      assert FromLocations(p, message, [loc], u) == if home == u then [p.At(message, loc)] else [];
    }
  }

  /** The first run, and what it reports. */
  function AfterRun(byUri: map<Uri, seq<Diagnostic>>): (seq<Screen>, seq<Event>)
  {
    var begun := Next(Start(), Begin);
    ([Start(), begun, Next(begun, Finish(byUri))], [Begin, Finish(byUri)])
  }

  lemma AfterRunRuns(byUri: map<Uri, seq<Diagnostic>>, u: Uri)
    ensures Run(AfterRun(byUri).0, AfterRun(byUri).1)
    ensures AfterRun(byUri).0[2].ShownOf(u) == ListOf(byUri, u) && AfterRun(byUri).0[2].ErrorsOf(u) == ListOf(byUri, u)
  {
    AllUnseen(ListOf(byUri, u));
    assert Next(Start(), Begin).LiveOf(u) == [];
  }

  lemma {:induction false} AllUnseen(ds: seq<Diagnostic>)
    ensures Merged([], ds) == ds
  {
    if ds != [] {
      AllUnseen(ds[1..]);
      assert Keys([]) == {};
    }
  }

  /** Two errors with the same message at the same place are both shown: whatever the project, a run
      that ends with them leaves the file with a duplicate. */
  lemma SameErrorTwice(p: Project, message: string, loc: Location)
    ensures var e := HookError(message, [loc]);
            var u, d := p.fileUri(loc.filepath), p.At(message, loc);
            var byUri := map[u := [d, d]];
            Collected(p, None, [e, e], byUri) &&
            Run(AfterRun(byUri).0, AfterRun(byUri).1) && AfterRun(byUri).0[2].ShownOf(u) == [d, d] && !Unique([d, d])
  {
    var e := HookError(message, [loc]);
    var u, d := p.fileUri(loc.filepath), p.At(message, loc);
    var byUri := map[u := [d, d]];
    AfterRunRuns(byUri, u);
    assert SameSpot([d, d][0], [d, d][1]);
    forall v ensures CollectedAt(p, None, [e, e], byUri, v) {
      assert [e, e][..1] == [e] && [e][..0] == [] && [loc][..0] == [];
      assert FromLocations(p, message, [loc], v) == [] + if u == v then [d] else [];
      OneMoreError(p, None, [], e, v);
      OneMoreError(p, None, [e], e, v);
      assert [] + [e] == [e] && [e] + [e] == [e, e];
      assert [] + [d] == [d] && [d] + [d] == [d, d];
    }
  }

  /** A live publication that finds nothing hides the error of the run before it, until the next run. */
  lemma PublishHidesError(u: Uri, d: Diagnostic) returns (run: seq<Screen>, events: seq<Event>)
    ensures Run(run, events) && !run[|events|].running
    ensures run[|events|].ErrorsOf(u) == [d] && run[|events|].ShownOf(u) == [] && NewNextTo(run[|events|].LiveOf(u), d)
  {
    var byUri := map[u := [d]];
    AfterRunRuns(byUri, u);
    var before := AfterRun(byUri).0[2];
    run, events := AfterRun(byUri).0 + [Next(before, Publish(u, []))], AfterRun(byUri).1 + [Publish(u, [])];
  }

  class Panel {
    var live: map<Uri, seq<Diagnostic>>
    var shown: map<Uri, seq<Diagnostic>>
    var owned: set<Uri>
    ghost var running: bool
    ghost var errors: map<Uri, seq<Diagnostic>>
    ghost var touched: set<Uri>

    ghost function Now(): Screen
      reads this
    {
      Screen(live, shown, owned, running, errors, touched)
    }

    constructor ()
      ensures Now() == Start()
    {
      live, shown, owned, running, errors, touched := map[], map[], {}, false, map[], {};
    }

    method PublishLive(u: Uri, diagnostics: seq<Diagnostic>)
      modifies this
      ensures Now() == Next(old(Now()), Publish(u, diagnostics))
    {
      live := live[u := diagnostics];
      shown := shown[u := diagnostics];
      touched := touched + {u};
    }

    method WithdrawLive(u: Uri)
      modifies this
      ensures Now() == Next(old(Now()), Withdraw(u))
    {
      live := live - {u};
      shown := shown[u := []];
      touched := touched + {u};
    }

    /** Clears the previous run's diagnostics down to the live ones. */
    method BeginRun()
      modifies this
      ensures Now() == Next(old(Now()), Begin)
    {
      var todo := owned;
      ghost var before := Now();
      assert shown == before.shown + LiveOnly(before, {});
      while todo != {}
        invariant todo <= before.owned && Now() == before.(shown := shown)
        invariant shown == before.shown + LiveOnly(before, before.owned - todo)
      {
        var u :| u in todo;
        ClearOne(before, before.owned - todo, u);
        shown := shown[u := if u in live then live[u] else []];
        assert before.owned - (todo - {u}) == before.owned - todo + {u};
        todo := todo - {u};
      }
      assert before.owned - todo == before.owned;
      owned := {};
      running := true;
    }

    method SendMerged(u: Uri, diagnostics: seq<Diagnostic>)
      modifies this`shown, this`owned
      ensures shown == old(shown)[u := Merged(Now().LiveOf(u), diagnostics)] && owned == old(owned) + {u}
    {
      shown := shown[u := Merged(if u in live then live[u] else [], diagnostics)];
      owned := owned + {u};
    }

    method SendAll(byUri: map<Uri, seq<Diagnostic>>)
      modifies this`shown, this`owned
      ensures shown == old(shown) + AllMerged(old(Now()), byUri) && owned == old(owned) + byUri.Keys
    {
      var todo := byUri.Keys;
      ghost var before, sent: set<Uri> := Now(), {};
      assert shown == before.shown + Part(before, byUri, {});
      while todo != {}
        invariant sent <= byUri.Keys && todo == byUri.Keys - sent
        invariant shown == before.shown + Part(before, byUri, sent)
        invariant owned == before.owned + sent
      {
        var u :| u in todo;
        MergeOne(before, byUri, sent, u);
        SendMerged(u, byUri[u]);
        todo, sent := todo - {u}, sent + {u};
      }
      assert sent == byUri.Keys;
      assert Part(before, byUri, byUri.Keys) == AllMerged(before, byUri);
    }

    /** Publishes what a failed run collected. */
    method FinishRun(byUri: map<Uri, seq<Diagnostic>>)
      modifies this
      ensures Now() == Next(old(Now()), Finish(byUri))
    {
      SendAll(byUri);
      running, errors, touched := false, byUri, {};
    }
  }

  ghost function Part(s: Screen, byUri: map<Uri, seq<Diagnostic>>, uris: set<Uri>): map<Uri, seq<Diagnostic>>
    requires uris <= byUri.Keys
  {
    map u | u in uris :: Merged(s.LiveOf(u), byUri[u])
  }

  lemma ClearOne(s: Screen, uris: set<Uri>, u: Uri)
    ensures (s.shown + LiveOnly(s, uris))[u := s.LiveOf(u)] == s.shown + LiveOnly(s, uris + {u})
  {}

  lemma MergeOne(s: Screen, byUri: map<Uri, seq<Diagnostic>>, uris: set<Uri>, u: Uri)
    requires uris <= byUri.Keys && u in byUri
    ensures (s.shown + Part(s, byUri, uris))[u := Merged(s.LiveOf(u), byUri[u])] ==
            s.shown + Part(s, byUri, uris + {u})
  {}

  // ---------------------------------------------------------------------------
  // The panel through any sequence of events
  // ---------------------------------------------------------------------------

  /** When a run has collected its errors and publishes them, every file shows its live diagnostics
      and what these errors bring to it that is new. */
  lemma CollectedRunShows(p: Project, saved: Option<Uri>, errors: seq<HookError>, run: seq<Screen>, events: seq<Event>,
                          i: nat, u: Uri)
    requires Run(run, events) && i < |events| && events[i].Finish? && Collected(p, saved, errors, events[i].byUri)
    ensures run[i + 1].ShownOf(u) == Merged(run[i].LiveOf(u), FromErrors(p, saved, errors, u))
    ensures Told(p, saved, errors, u, FromErrors(p, saved, errors, u))
  {
    var parts := ErrorsTell(p, saved, errors, u);
    FinishedRunShows(run, events, i, u);
    assert CollectedAt(p, saved, errors, events[i].byUri, u);
  }

  /** What the editor and the pipeline do: a run starts and ends with its errors, none if it passed. */
  datatype Action = Show(uri: Uri, diagnostics: seq<Diagnostic>) | Drop(uri: Uri) | Starts
                  | Ends(saved: Option<Uri>, errors: seq<HookError>)

  /** The event an action is for the screen. */
  ghost predicate Carries(p: Project, a: Action, e: Event)
  {
    match a
    case Show(u, ds) => e == Publish(u, ds)
    case Drop(u) => e == Withdraw(u)
    case Starts => e == Begin
    case Ends(saved, errors) => e.Finish? && Collected(p, saved, errors, e.byUri)
  }

  /** A sequence of actions in which runs exclude each other. */
  predicate Alternates(actions: seq<Action>, running: bool)
  {
    actions == [] ||
    match actions[0]
    case Starts => !running && Alternates(actions[1..], true)
    case Ends(_, _) => running && Alternates(actions[1..], false)
    case _ => Alternates(actions[1..], running)
  }

  method Act(panel: Panel, p: Project, a: Action) returns (ghost e: Event)
    requires (a.Starts? ==> !panel.running) && (a.Ends? ==> panel.running)
    modifies panel
    ensures Carries(p, a, e) && Enabled(old(panel.Now()), e) && panel.Now() == Next(old(panel.Now()), e)
  {
    match a {
      case Show(u, ds) => panel.PublishLive(u, ds); e := Publish(u, ds);
      case Drop(u) => panel.WithdrawLive(u); e := Withdraw(u);
      case Starts => panel.BeginRun(); e := Begin;
      case Ends(saved, errors) =>
        var byUri := Collect(p, saved, errors);
        panel.FinishRun(byUri);
        e := Finish(byUri);
    }
  }

  /** File u shows its live diagnostics and next to them what a run's errors bring there. */
  ghost predicate EndShownAt(p: Project, a: Action, u: Uri, before: Screen, after: Screen)
    requires a.Ends?
  {
    exists ds :: Told(p, a.saved, a.errors, u, ds) && after.ShownOf(u) == Merged(before.LiveOf(u), ds)
  }

  ghost predicate EndShown(p: Project, a: Action, before: Screen, after: Screen)
    requires a.Ends?
  {
    forall u :: EndShownAt(p, a, u, before, after)
  }

  /** Driven through any such sequence the panel goes through a run of the screen, one event for each
      action; after every run's end each file shows its live diagnostics and the run's new errors. */
  method Drive(p: Project, actions: seq<Action>) returns (panel: Panel, ghost run: seq<Screen>, ghost events: seq<Event>)
    requires Alternates(actions, false)
    ensures Run(run, events) && |events| == |actions| && panel.Now() == run[|events|]
    ensures forall i :: 0 <= i < |actions| ==> Carries(p, actions[i], events[i])
    ensures forall i :: 0 <= i < |actions| && actions[i].Ends? ==> EndShown(p, actions[i], run[i], run[i + 1])
  {
    panel := new Panel();
    run, events := [panel.Now()], [];
    for k := 0 to |actions|
      invariant fresh(panel) && Alternates(actions[k..], panel.running)
      invariant Run(run, events) && |events| == k && panel.Now() == run[k]
      invariant forall i :: 0 <= i < k ==> Carries(p, actions[i], events[i])
    {
      assert actions[k..][1..] == actions[k + 1..];
      ghost var e := Act(panel, p, actions[k]);
      run, events := run + [panel.Now()], events + [e];
    }
    forall i | 0 <= i < |actions| && actions[i].Ends? ensures EndShown(p, actions[i], run[i], run[i + 1]) {
      assert Carries(p, actions[i], events[i]);
      EndShows(p, actions[i], run, events, i);
    }
  }

  lemma EndShows(p: Project, a: Action, run: seq<Screen>, events: seq<Event>, i: nat)
    requires Run(run, events) && i < |events| && a.Ends? && Carries(p, a, events[i])
    ensures EndShown(p, a, run[i], run[i + 1])
  {
    var before, after := run[i], run[i + 1];
    forall u ensures EndShownAt(p, a, u, before, after) {
      CollectedRunShows(p, a.saved, a.errors, run, events, i, u);
    }
  }
}
