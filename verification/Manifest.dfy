// The route manifest of a project: what each directory of the routes inherits from the
// directories above it (packages/houdini-react/plugin/manifest.go).
module Manifest {
  import opened Wrappers

  /** A directory below the routes directory, which itself is []. */
  type Dir = seq<string>

  type Variables = map<string, string>

  /** The view files of a directory. */
  datatype View = View(layout: Option<string>, page: Option<string>, error: Option<string>)

  /** A +page.gql or +layout.gql document. */
  datatype Doc = Doc(name: string, variables: Variables)

  datatype Page = Page(queries: seq<string>, queryOptions: seq<string>, layoutQueries: seq<string>, layouts: seq<string>,
    path: string, errorPath: Option<string>, variables: Variables)

  datatype Result = Loaded(pages: map<string, Page>, layouts: map<string, Page>, pageQueries: map<string, Doc>,
    layoutQueries: map<string, Doc>) | PageQueryWithoutView(dir: Dir)

  /** walkState. */
  datatype Scope = Scope(queries: seq<string>, layouts: seq<string>, errorPath: Option<string>, variables: Variables)

  /** What the file system and the database know; id is pageID of a directory's URL. */
  datatype Routes = Routes(views: map<Dir, View>, pageDocs: map<Dir, Doc>, layoutDocs: map<Dir, Doc>, id: Dir -> string)
  {
    predicate HasLayout(d: Dir) { d in views && views[d].layout.Some? }

    predicate HasPage(d: Dir) { d in views && views[d].page.Some? }

    predicate HasError(d: Dir) { d in views && views[d].error.Some? }

    predicate Populated(d: Dir) { d in views || d in pageDocs || d in layoutDocs }

    function Layout(d: Dir): Option<string> { if d in views then views[d].layout else None }

    function PageView(d: Dir): Option<string> { if d in views then views[d].page else None }

    function Error(d: Dir): Option<string> { if d in views then views[d].error else None }
  }

  function Parent(d: Dir): Dir { if d == [] then [] else d[..|d| - 1] }

  // ---------------------------------------------------------------------------
  // Recursive inheritance
  // ---------------------------------------------------------------------------

  /** What a directory adds to what it inherits. */
  function Enter(r: Routes, outer: Scope, d: Dir): Scope
  {
    Scope(
      if d in r.layoutDocs then outer.queries + [r.layoutDocs[d].name] else outer.queries,
      if r.Layout(d).Some? then outer.layouts + [r.id(d)] else outer.layouts,
      if r.Error(d).Some? then r.Error(d) else outer.errorPath,
      if d in r.layoutDocs then outer.variables + r.layoutDocs[d].variables else outer.variables)
  }

  const NOTHING := Scope([], [], None, map[])

  /** What is in scope outside a directory. */
  function Outer(r: Routes, d: Dir): Scope
    decreases |d|, 0
  {
    if d == [] then NOTHING else Inner(r, Parent(d))
  }

  /** What is in scope inside it. */
  function Inner(r: Routes, d: Dir): Scope
    decreases |d|, 1
  {
    Enter(r, Outer(r, d), d)
  }

  /** The layouts inside a directory are exactly those of the directories from the root to it. */
  lemma {:induction false} LayoutsOnChain(r: Routes, d: Dir, l: string)
    ensures l in Inner(r, d).layouts <==> exists k: int :: 0 <= k <= |d| && r.HasLayout(d[..k]) && r.id(d[..k]) == l
    decreases |d|
  {
    assert d[..|d|] == d;
    if d != [] {
      LayoutsOnChain(r, Parent(d), l);
      assert forall k :: 0 <= k < |d| ==> Parent(d)[..k] == d[..k];
    }
  }

  lemma {:induction false} QueriesOnChain(r: Routes, d: Dir, q: string)
    ensures q in Inner(r, d).queries <==>
            exists k: int :: 0 <= k <= |d| && d[..k] in r.layoutDocs && r.layoutDocs[d[..k]].name == q
    decreases |d|
  {
    assert d[..|d|] == d;
    if d != [] {
      QueriesOnChain(r, Parent(d), q);
      assert forall k :: 0 <= k < |d| ==> Parent(d)[..k] == d[..k];
    }
  }

  /** These places on the way from the root, outermost first, are those with the property, and the
      names are theirs. */
  ghost predicate Chain(has: Dir -> bool, name: Dir -> string, d: Dir, at: seq<nat>, names: seq<string>)
  {
    && |at| == |names| && (forall j :: 0 <= j < |at| ==> at[j] <= |d| && name(d[..at[j]]) == names[j])
    && (forall i, j :: 0 <= i < j < |at| ==> at[i] < at[j])
    && forall k: nat :: k <= |d| ==> (k in at <==> has(d[..k]))
  }

  lemma ChainInner(has: Dir -> bool, name: Dir -> string, d: Dir, at: seq<nat>, names: seq<string>)
    requires d != [] && Chain(has, name, Parent(d), at, names)
    ensures if has(d) then Chain(has, name, d, at + [|d|], names + [name(d)]) else Chain(has, name, d, at, names)
  {
    assert d[..|d|] == d;
    forall k: nat | k < |d| ensures k in at <==> has(d[..k]) {
      assert Parent(d)[..k] == d[..k];
    }
    forall j | 0 <= j < |at| ensures at[j] < |d| && name(d[..at[j]]) == names[j] {
      assert Parent(d)[..at[j]] == d[..at[j]];
    }
  }

  lemma ChainRoot(has: Dir -> bool, name: Dir -> string)
    ensures if has([]) then Chain(has, name, [], [0], [name([])]) else Chain(has, name, [], [], [])
  {
    var d: Dir := [];
    assert d[..0] == d;
  }

  /** The layouts in scope, each once, in the order of the directories that have one. */
  lemma {:induction false} LayoutChain(r: Routes, d: Dir) returns (at: seq<nat>)
    ensures Chain(e => r.HasLayout(e), r.id, d, at, Inner(r, d).layouts)
    decreases |d|
  {
    if d == [] {
      ChainRoot(e => r.HasLayout(e), r.id);
      at := if r.HasLayout(d) then [0] else [];
    } else {
      at := LayoutChain(r, Parent(d));
      ChainInner(e => r.HasLayout(e), r.id, d, at, Inner(r, Parent(d)).layouts);
      if r.HasLayout(d) { at := at + [|d|]; }
    }
  }

  /** And the queries. */
  lemma {:induction false} QueryChain(r: Routes, d: Dir) returns (at: seq<nat>)
    ensures Chain(e => e in r.layoutDocs, e => if e in r.layoutDocs then r.layoutDocs[e].name else "", d, at,
              Inner(r, d).queries)
    decreases |d|
  {
    var name := e => if e in r.layoutDocs then r.layoutDocs[e].name else "";
    if d == [] {
      ChainRoot(e => e in r.layoutDocs, name);
      at := if d in r.layoutDocs then [0] else [];
    } else {
      at := QueryChain(r, Parent(d));
      ChainInner(e => e in r.layoutDocs, name, d, at, Inner(r, Parent(d)).queries);
      if d in r.layoutDocs { at := at + [|d|]; }
    }
  }

  /** Outermost first: what a directory above has in scope comes first, in the same order. */
  lemma {:induction false} OutermostFirst(r: Routes, d: Dir, k: nat)
    requires k <= |d|
    ensures Inner(r, d[..k]).layouts <= Inner(r, d).layouts && Inner(r, d[..k]).queries <= Inner(r, d).queries
    decreases |d|
  {
    if k == |d| {
      assert d[..k] == d;
    } else {
      OutermostFirst(r, Parent(d), k);
      assert Parent(d)[..k] == d[..k];
    }
  }

  /** e is the error view of the nearest directory that has one. */
  ghost predicate IsNearestError(r: Routes, d: Dir, e: Option<string>)
  {
    && (e.None? ==> forall k :: 0 <= k <= |d| ==> !r.HasError(d[..k]))
    && (e.Some? ==> exists k :: 0 <= k <= |d| && NearestAt(r, d, k) && e == r.views[d[..k]].error)
  }

  ghost predicate NearestAt(r: Routes, d: Dir, k: nat)
    requires k <= |d|
  {
    r.HasError(d[..k]) && forall m :: k < m <= |d| ==> !r.HasError(d[..m])
  }

  lemma {:induction false} NearestError(r: Routes, d: Dir)
    ensures IsNearestError(r, d, Inner(r, d).errorPath)
    decreases |d|
  {
    hide IsNearestError, Inner, Outer, Enter;
    ErrorInside(r, d);
    if r.HasError(d) {
      OwnError(r, d);
    } else if d == [] {
      NoErrorAtRoot(r);
    } else {
      NearestError(r, Parent(d));
      NoErrorInside(r, d, Inner(r, Parent(d)).errorPath);
    }
  }

  lemma ErrorInside(r: Routes, d: Dir)
    ensures Inner(r, d).errorPath ==
            if r.HasError(d) then r.views[d].error else if d == [] then None else Inner(r, Parent(d)).errorPath
  {}

  lemma OwnError(r: Routes, d: Dir)
    requires r.HasError(d)
    ensures IsNearestError(r, d, r.views[d].error)
  {
    assert d[..|d|] == d && NearestAt(r, d, |d|);
  }

  lemma NoErrorAtRoot(r: Routes)
    requires !r.HasError([])
    ensures IsNearestError(r, [], None)
  {
    var root: Dir := [];
    assert root[..0] == root;
  }

  lemma NoErrorInside(r: Routes, d: Dir, e: Option<string>)
    requires d != [] && !r.HasError(d) && IsNearestError(r, Parent(d), e)
    ensures IsNearestError(r, d, e)
  {
    assert d[..|d|] == d;
    assert forall k :: 0 <= k < |d| ==> Parent(d)[..k] == d[..k];
    if e.Some? {
      var k :| 0 <= k <= |d| - 1 && NearestAt(r, Parent(d), k) && e == r.views[Parent(d)[..k]].error;
      assert NearestAt(r, d, k);
    }
  }

  predicate Declares(r: Routes, d: Dir, v: string) { d in r.layoutDocs && v in r.layoutDocs[d].variables }

  /** A variable has the type the nearest layout query that declares it gives it. */
  lemma {:induction false} NearestVariable(r: Routes, d: Dir, v: string)
    ensures v in Inner(r, d).variables <==> exists k: int :: 0 <= k <= |d| && Declares(r, d[..k], v)
    ensures forall k: int :: 0 <= k <= |d| && Declares(r, d[..k], v) && (forall m: int :: k < m <= |d| ==> !Declares(r, d[..m], v)) ==>
              v in Inner(r, d).variables && Inner(r, d).variables[v] == r.layoutDocs[d[..k]].variables[v]
    decreases |d|
  {
    assert d[..|d|] == d;
    if d != [] {
      NearestVariable(r, Parent(d), v);
      assert forall k :: 0 <= k < |d| ==> Parent(d)[..k] == d[..k];
    }
  }

  // ---------------------------------------------------------------------------
  // What the manifest should hold
  // ---------------------------------------------------------------------------

  function LayoutEntry(r: Routes, d: Dir): Option<Page>
  {
    if r.Layout(d).None? then None
    else
      var o, i := Outer(r, d), Inner(r, d);
      Some(Page(o.queries, i.queries, [], o.layouts, r.Layout(d).value, None, i.variables))
  }

  function PageEntry(r: Routes, d: Dir): Option<Page>
  {
    if r.PageView(d).None? then None
    else
      var i := Inner(r, d);
      var own := d in r.pageDocs;
      var queries := if own then i.queries + [r.pageDocs[d].name] else i.queries;
      Some(Page(queries, queries, i.queries, i.layouts, r.PageView(d).value, i.errorPath,
                if own then i.variables + r.pageDocs[d].variables else i.variables))
  }

  function DocEntry(docs: map<Dir, Doc>, d: Dir): Option<Doc> { if d in docs then Some(docs[d]) else None }

  /** A manifest map filled directory by directory. */
  function Gathered<T>(id: Dir -> string, entry: Dir -> Option<T>, dirs: seq<Dir>): map<string, T>
  {
    if dirs == [] then map[]
    else
      var d := dirs[|dirs| - 1];
      var before := Gathered(id, entry, dirs[..|dirs| - 1]);
      if entry(d).Some? then before[id(d) := entry(d).value] else before
  }

  /** Nothing is missing: every id with an entry is a key. A directory that does not share its id
      with another one of the kind has its own entry under it. */
  lemma {:induction false} GatheredMeans<T>(id: Dir -> string, entry: Dir -> Option<T>, dirs: seq<Dir>, d: Dir)
    requires d in dirs && entry(d).Some?
    ensures id(d) in Gathered(id, entry, dirs)
    ensures (forall e :: e in dirs && entry(e).Some? && id(e) == id(d) ==> e == d) ==>
              Gathered(id, entry, dirs)[id(d)] == entry(d).value
  {
    var last, before := dirs[|dirs| - 1], dirs[..|dirs| - 1];
    assert dirs == before + [last];
    if last != d {
      GatheredMeans(id, entry, before, d);
    }
  }

  lemma {:induction false} GatheredOnly<T>(id: Dir -> string, entry: Dir -> Option<T>, dirs: seq<Dir>, key: string)
    returns (d: Dir)
    requires key in Gathered(id, entry, dirs)
    ensures d in dirs && id(d) == key && entry(d) == Some(Gathered(id, entry, dirs)[key])
  {
    var last, before := dirs[|dirs| - 1], dirs[..|dirs| - 1];
    if entry(last).Some? && id(last) == key {
      d := last;
    } else {
      d := GatheredOnly(id, entry, before, key);
    }
  }

  lemma GatheredNext<T>(id: Dir -> string, entry: Dir -> Option<T>, dirs: seq<Dir>, d: Dir)
    ensures Gathered(id, entry, dirs + [d]) ==
            if entry(d).Some? then Gathered(id, entry, dirs)[id(d) := entry(d).value] else Gathered(id, entry, dirs)
  {
    assert (dirs + [d])[..|dirs|] == dirs;
  }

  // ---------------------------------------------------------------------------
  // Phase 2: the directories
  // ---------------------------------------------------------------------------

  ghost predicate Closed(dirs: set<Dir>) { [] in dirs && forall d :: d in dirs ==> Parent(d) in dirs }

  predicate Above(a: Dir, d: Dir) { a <= d }

  lemma {:induction false} ClosedHasAncestors(dirs: set<Dir>, d: Dir, a: Dir)
    requires Closed(dirs) && d in dirs && Above(a, d)
    ensures a in dirs
    decreases |d|
  {
    if a == d {
    } else {
      ClosedHasAncestors(dirs, Parent(d), a);
    }
  }

  /** addWithAncestors: stops at the first directory that is there already. */
  method AddWithAncestors(before: set<Dir>, dir: Dir) returns (dirs: set<Dir>)
    requires Closed(before)
    ensures Closed(dirs)
    ensures forall d :: d in dirs <==> d in before || Above(d, dir)
  {
    dirs := before;
    var d := dir;
    while d != []
      invariant Above(d, dir)
      invariant forall e :: e in dirs <==> e in before || (Above(e, dir) && |e| > |d|)
      decreases |d|
    {
      if d in dirs {
        break;
      }
      dirs := dirs + {d};
      assert forall e :: Above(e, dir) && |e| == |d| ==> e == d;
      d := Parent(d);
    }
    assert d in before;
    forall e | Above(e, dir) && |e| <= |d| ensures e in before {
      assert Above(e, d);
      ClosedHasAncestors(before, d, e);
    }
    forall e | e in dirs ensures Parent(e) in dirs {
      assert e !in before ==> Above(Parent(e), dir);
    }
  }

  ghost predicate AncestorsOf(dirs: set<Dir>, sources: set<Dir>)
  {
    forall d :: d in dirs <==> d == [] || exists s :: s in sources && Above(d, s)
  }

  method AddAll(before: set<Dir>, ghost had: set<Dir>, sources: set<Dir>) returns (dirs: set<Dir>)
    requires Closed(before) && AncestorsOf(before, had)
    ensures Closed(dirs) && AncestorsOf(dirs, had + sources)
  {
    dirs := before;
    var todo := sources;
    ghost var done: set<Dir> := {};
    while todo != {}
      invariant done <= sources && todo == sources - done && Closed(dirs) && AncestorsOf(dirs, had + done)
    {
      var s := AnyOf(todo);
      ghost var was := dirs;
      dirs := AddWithAncestors(dirs, s);
      forall d ensures d in dirs <==> d == [] || exists x :: x in had + (done + {s}) && Above(d, x) {
        assert d in was <==> d == [] || exists x :: x in had + done && Above(d, x);
      }
      todo, done := todo - {s}, done + {s};
    }
    assert done == sources;
  }

  /** The union of the directories that hold something, and everything above them. */
  method Directories(r: Routes) returns (dirs: set<Dir>)
    ensures Closed(dirs) && AncestorsOf(dirs, r.views.Keys + r.pageDocs.Keys + r.layoutDocs.Keys)
  {
    dirs := {[]};
    dirs := AddAll(dirs, {}, r.views.Keys);
    dirs := AddAll(dirs, r.views.Keys, r.pageDocs.Keys);
    dirs := AddAll(dirs, r.views.Keys + r.pageDocs.Keys, r.layoutDocs.Keys);
    assert {} + r.views.Keys == r.views.Keys;
  }

  ghost predicate ByDepth(dirs: seq<Dir>)
  {
    forall i, j :: 0 <= i < j < |dirs| ==> |dirs[i]| <= |dirs[j]| && dirs[i] != dirs[j]
  }

  function Inserted(dirs: seq<Dir>, k: nat, d: Dir): seq<Dir>
    requires k <= |dirs|
  {
    dirs[..k] + [d] + dirs[k..]
  }

  lemma InsertedAt(dirs: seq<Dir>, k: nat, d: Dir)
    requires k <= |dirs|
    ensures var r := Inserted(dirs, k, d);
            |r| == |dirs| + 1 && r[k] == d && (forall i :: 0 <= i < k ==> r[i] == dirs[i]) &&
            forall i :: k < i < |r| ==> r[i] == dirs[i - 1]
  {}

  lemma InsertedHas(dirs: seq<Dir>, k: nat, d: Dir, e: Dir)
    requires k <= |dirs|
    ensures e in Inserted(dirs, k, d) <==> e in dirs || e == d
  {
    assert dirs == dirs[..k] + dirs[k..];
  }

  lemma InsertedInOrder(dirs: seq<Dir>, k: nat, d: Dir)
    requires k <= |dirs| && ByDepth(dirs) && d !in dirs
    requires forall i :: 0 <= i < k ==> |dirs[i]| <= |d|
    requires forall i :: k <= i < |dirs| ==> |dirs[i]| > |d|
    ensures ByDepth(Inserted(dirs, k, d)) && forall e :: e in Inserted(dirs, k, d) <==> e in dirs || e == d
  {
    hide Inserted;
    var r := Inserted(dirs, k, d);
    InsertedAt(dirs, k, d);
    forall e ensures e in r <==> e in dirs || e == d { InsertedHas(dirs, k, d, e); }
    forall i, j | 0 <= i < j < |r| ensures |r[i]| <= |r[j]| && r[i] != r[j] {
      var a, b := if i < k then i else i - 1, if j < k then j else j - 1;
      assert i != k && j != k ==> r[i] == dirs[a] && r[j] == dirs[b];
    }
  }

  /** Shallowest first; the order within a depth does not matter here. */
  method SortByDepth(dirs: set<Dir>) returns (sorted: seq<Dir>)
    ensures ByDepth(sorted) && forall d :: d in sorted <==> d in dirs
  {
    sorted := [];
    var todo := dirs;
    while todo != {}
      invariant todo <= dirs && ByDepth(sorted) && forall d :: d in sorted <==> d in dirs - todo
    {
      var d := AnyOf(todo);
      var k := |sorted|;
      while k > 0 && |sorted[k - 1]| > |d|
        invariant 0 <= k <= |sorted| && forall i :: k <= i < |sorted| ==> |sorted[i]| > |d|
      {
        k := k - 1;
      }
      assert forall i :: 0 <= i < k ==> |sorted[i]| <= |sorted[k - 1]|;
      InsertedInOrder(sorted, k, d);
      sorted := Inserted(sorted, k, d);
      todo := todo - {d};
    }
  }

  // ---------------------------------------------------------------------------
  // Phase 3: the descent
  // ---------------------------------------------------------------------------

  /** The states of the directories before the i-th, and the initial one under the root. */
  ghost predicate StatesOf(r: Routes, dirs: seq<Dir>, i: int, states: map<Dir, Scope>)
  {
    && 0 <= i <= |dirs|
    && (i == 0 ==> states == map[[] := NOTHING])
    && (forall k :: 0 <= k < i ==> dirs[k] in states && states[dirs[k]] == Inner(r, dirs[k]))
  }

  /** A directory's parent comes before it in the list. */
  lemma ParentBefore(dirs: seq<Dir>, all: set<Dir>, i: nat) returns (k: nat)
    requires ByDepth(dirs) && Closed(all) && (forall d :: d in dirs <==> d in all) && i < |dirs|
    ensures dirs[i] == [] ==> i == 0
    ensures dirs[i] != [] ==> k < i && dirs[k] == Parent(dirs[i])
  {
    k := 0;
    assert [] in dirs && Parent(dirs[i]) in dirs;
    var root :| 0 <= root < |dirs| && dirs[root] == [];
    if i > 0 {
      assert |dirs[0]| <= |dirs[i]| && dirs[0] != dirs[i];
    }
    if dirs[i] != [] {
      k :| 0 <= k < |dirs| && dirs[k] == Parent(dirs[i]);
    }
  }

  /** One directory: the state its parent left is there, and what it writes is its entry. */
  method Visit(r: Routes, dirs: seq<Dir>, ghost all: set<Dir>, i: nat, states: map<Dir, Scope>)
    returns (state: Scope, layout: Option<Page>, page: Option<Page>, after: map<Dir, Scope>)
    requires ByDepth(dirs) && Closed(all) && (forall d :: d in dirs <==> d in all) && i < |dirs|
    requires StatesOf(r, dirs, i, states)
    ensures Parent(dirs[i]) in states && state == states[Parent(dirs[i])] && state == Outer(r, dirs[i])
    ensures layout == LayoutEntry(r, dirs[i]) && page == PageEntry(r, dirs[i])
    ensures after == states[dirs[i] := Inner(r, dirs[i])]
  {
    var d := dirs[i];
    ghost var k := ParentBefore(dirs, all, i);
    // the source falls back on the root's state; the parent's is always there
    state := states[Parent(d)];
    var queries, layouts, variables := state.queries, state.layouts, state.variables;
    if d in r.layoutDocs {
      queries := queries + [r.layoutDocs[d].name];
      variables := variables + r.layoutDocs[d].variables;
    }
    layout, page := None, None;
    if r.Layout(d).Some? {
      layout := Some(Page(state.queries, queries, [], state.layouts, r.Layout(d).value, None, variables));
      layouts := layouts + [r.id(d)];
    }
    var errorPath := state.errorPath;
    if r.Error(d).Some? {
      errorPath := r.Error(d);
    }
    if r.PageView(d).Some? {
      var pageQueries, pageVariables := queries, variables;
      if d in r.pageDocs {
        pageQueries := pageQueries + [r.pageDocs[d].name];
        pageVariables := pageVariables + r.pageDocs[d].variables;
      }
      page := Some(Page(pageQueries, pageQueries, queries, layouts, r.PageView(d).value, errorPath, pageVariables));
    }
    after := states[d := Scope(queries, layouts, errorPath, variables)];
  }

  /** Every page document is next to a page view. */
  predicate AllClaimed(r: Routes) { forall d :: d in r.pageDocs ==> r.HasPage(d) }

  /** The manifest holds, for every directory with something in or below it, exactly what
      recursive inheritance gives it. */
  ghost predicate Describes(r: Routes, dirs: seq<Dir>, m: Result)
    requires m.Loaded?
  {
    && m.pages == Gathered(r.id, d => PageEntry(r, d), dirs)
    && m.layouts == Gathered(r.id, d => LayoutEntry(r, d), dirs)
    && m.pageQueries == Gathered(r.id, d => DocEntry(r.pageDocs, d), dirs)
    && m.layoutQueries == Gathered(r.id, d => DocEntry(r.layoutDocs, d), dirs)
  }

  /** The manifest with one more directory written to it. */
  function Write(r: Routes, m: Result, d: Dir, layout: Option<Page>, page: Option<Page>): Result
    requires m.Loaded?
  {
    Loaded(
      if page.Some? then m.pages[r.id(d) := page.value] else m.pages,
      if layout.Some? then m.layouts[r.id(d) := layout.value] else m.layouts,
      if d in r.pageDocs then m.pageQueries[r.id(d) := r.pageDocs[d]] else m.pageQueries,
      if d in r.layoutDocs then m.layoutQueries[r.id(d) := r.layoutDocs[d]] else m.layoutQueries)
  }

  lemma DescribesNext(r: Routes, dirs: seq<Dir>, m: Result, d: Dir)
    requires m.Loaded? && Describes(r, dirs, m)
    ensures Describes(r, dirs + [d], Write(r, m, d, LayoutEntry(r, d), PageEntry(r, d)))
  {
    GatheredNext(r.id, d => PageEntry(r, d), dirs, d);
    GatheredNext(r.id, d => LayoutEntry(r, d), dirs, d);
    GatheredNext(r.id, d => DocEntry(r.pageDocs, d), dirs, d);
    GatheredNext(r.id, d => DocEntry(r.layoutDocs, d), dirs, d);
  }

  lemma StatesNext(r: Routes, dirs: seq<Dir>, i: nat, states: map<Dir, Scope>)
    requires i < |dirs| && StatesOf(r, dirs, i, states)
    ensures StatesOf(r, dirs, i + 1, states[dirs[i] := Inner(r, dirs[i])])
  {}

  method Descend(r: Routes, dirs: seq<Dir>, ghost all: set<Dir>) returns (m: Result)
    requires ByDepth(dirs) && Closed(all) && (forall d :: d in dirs <==> d in all)
    ensures m.Loaded? && Describes(r, dirs, m)
  {
    m := Loaded(map[], map[], map[], map[]);
    var states: map<Dir, Scope> := map[[] := NOTHING];
    assert Describes(r, dirs[..0], m);
    for i := 0 to |dirs|
      invariant m.Loaded? && Describes(r, dirs[..i], m) && StatesOf(r, dirs, i, states)
    {
      var _, layout, page, after := Visit(r, dirs, all, i, states);
      DescribesNext(r, dirs[..i], m, dirs[i]);
      StatesNext(r, dirs, i, states);
      assert dirs[..i + 1] == dirs[..i] + [dirs[i]];
      m, states := Write(r, m, dirs[i], layout, page), after;
    }
    assert dirs[..|dirs|] == dirs;
  }

  method FindUnclaimed(r: Routes) returns (d: Option<Dir>)
    ensures d.None? <==> AllClaimed(r)
    ensures d.Some? ==> d.value in r.pageDocs && !r.HasPage(d.value)
  {
    var todo := r.pageDocs.Keys;
    while todo != {}
      invariant todo <= r.pageDocs.Keys && forall e :: e in r.pageDocs.Keys - todo ==> r.HasPage(e)
    {
      var e := AnyOf(todo);
      if r.PageView(e).None? {
        return Some(e);
      }
      todo := todo - {e};
    }
    d := None;
  }

  method LoadManifest(r: Routes) returns (m: Result, ghost dirs: seq<Dir>)
    ensures m.Loaded? <==> AllClaimed(r)
    ensures m.Loaded? ==> Describes(r, dirs, m)
    ensures m.PageQueryWithoutView? ==> m.dir in r.pageDocs && !r.HasPage(m.dir)
    ensures forall d :: d in dirs <==> d == [] || exists s :: r.Populated(s) && Above(d, s)
  {
    var all := Directories(r);
    var sorted := SortByDepth(all);
    dirs := sorted;
    forall d ensures d in all <==> d == [] || exists s :: r.Populated(s) && Above(d, s) {
      assert forall s :: s in r.views.Keys + r.pageDocs.Keys + r.layoutDocs.Keys <==> r.Populated(s);
    }
    m := Descend(r, sorted, all);
    var unclaimed := FindUnclaimed(r);
    if unclaimed.Some? {
      m := PageQueryWithoutView(unclaimed.value);
    }
  }

  /** End to end: a page whose id no other page has is listed with the layouts, layout queries,
      queries, variables and error view of recursive inheritance, its own query coming last. */
  lemma PageInherits(r: Routes, dirs: seq<Dir>, m: Result, d: Dir)
    requires m.Loaded? && Describes(r, dirs, m) && r.HasPage(d)
    requires forall e :: e in dirs <==> e == [] || exists s :: r.Populated(s) && Above(e, s)
    requires forall e :: r.HasPage(e) && r.id(e) == r.id(d) ==> e == d
    ensures r.id(d) in m.pages
    ensures var p := m.pages[r.id(d)];
            p.layouts == Inner(r, d).layouts && p.layoutQueries == Inner(r, d).queries &&
            p.errorPath == Inner(r, d).errorPath && p.path == r.views[d].page.value && p.queryOptions == p.queries &&
            p.queries == Inner(r, d).queries + (if d in r.pageDocs then [r.pageDocs[d].name] else []) &&
            p.variables == Inner(r, d).variables + (if d in r.pageDocs then r.pageDocs[d].variables else map[])
  {
    assert r.Populated(d) && Above(d, d);
    assert Inner(r, d).queries + [] == Inner(r, d).queries;
    assert Inner(r, d).variables + map[] == Inner(r, d).variables;
    GatheredMeans(r.id, e => PageEntry(r, e), dirs, d);
  }

  /** And so is a layout, with the queries and layouts from outside it, and the query options and
      variables from inside. */
  lemma LayoutInherits(r: Routes, dirs: seq<Dir>, m: Result, d: Dir)
    requires m.Loaded? && Describes(r, dirs, m) && r.HasLayout(d)
    requires forall e :: e in dirs <==> e == [] || exists s :: r.Populated(s) && Above(e, s)
    requires forall e :: r.HasLayout(e) && r.id(e) == r.id(d) ==> e == d
    ensures r.id(d) in m.layouts
    ensures var p, own, above := m.layouts[r.id(d)], d in r.layoutDocs, if d == [] then NOTHING else Inner(r, d[..|d| - 1]);
            p.layouts == above.layouts && p.queries == above.queries &&
            p.layoutQueries == [] && p.errorPath == None && p.path == r.views[d].layout.value &&
            p.queryOptions == above.queries + (if own then [r.layoutDocs[d].name] else []) &&
            p.variables == above.variables + (if own then r.layoutDocs[d].variables else map[])
  {
    assert r.Populated(d) && Above(d, d);
    var above := if d == [] then NOTHING else Inner(r, d[..|d| - 1]);
    assert above.queries + [] == above.queries && above.variables + map[] == above.variables;
    GatheredMeans(r.id, e => LayoutEntry(r, e), dirs, d);
  }

  /** Every query document is listed, under an id no other document of its kind has. */
  lemma DocsListed(r: Routes, dirs: seq<Dir>, m: Result, d: Dir)
    requires m.Loaded? && Describes(r, dirs, m)
    requires forall e :: e in dirs <==> e == [] || exists s :: r.Populated(s) && Above(e, s)
    ensures d in r.pageDocs && (forall e :: e in r.pageDocs && r.id(e) == r.id(d) ==> e == d) ==>
              r.id(d) in m.pageQueries && m.pageQueries[r.id(d)] == r.pageDocs[d]
    ensures d in r.layoutDocs && (forall e :: e in r.layoutDocs && r.id(e) == r.id(d) ==> e == d) ==>
              r.id(d) in m.layoutQueries && m.layoutQueries[r.id(d)] == r.layoutDocs[d]
  {
    assert r.Populated(d) ==> Above(d, d);
    if d in r.pageDocs { GatheredMeans(r.id, e => DocEntry(r.pageDocs, e), dirs, d); }
    if d in r.layoutDocs { GatheredMeans(r.id, e => DocEntry(r.layoutDocs, e), dirs, d); }
  }

  /** Nothing else is listed. */
  lemma NothingElse(r: Routes, dirs: seq<Dir>, m: Result, key: string)
    requires m.Loaded? && Describes(r, dirs, m)
    ensures key in m.pages ==> exists d :: r.HasPage(d) && r.id(d) == key
    ensures key in m.layouts ==> exists d :: r.HasLayout(d) && r.id(d) == key
    ensures key in m.pageQueries ==> exists d :: d in r.pageDocs && r.id(d) == key && m.pageQueries[key] == r.pageDocs[d]
    ensures key in m.layoutQueries ==>
              exists d :: d in r.layoutDocs && r.id(d) == key && m.layoutQueries[key] == r.layoutDocs[d]
  {
    if key in m.pages { var d := GatheredOnly(r.id, e => PageEntry(r, e), dirs, key); }
    if key in m.layouts { var d := GatheredOnly(r.id, e => LayoutEntry(r, e), dirs, key); }
    if key in m.pageQueries { var d := GatheredOnly(r.id, e => DocEntry(r.pageDocs, e), dirs, key); }
    if key in m.layoutQueries { var d := GatheredOnly(r.id, e => DocEntry(r.layoutDocs, e), dirs, key); }
  }
}
