// Partial against full extraction (packages/houdini-core/plugin/documents/walk.go): re-extracting
// the changed files keeps the table at what a full walk would produce, exactly if the file lists
// of the two agree where it matters.
module ExtractionRuns {
  import opened Extraction
  import ParallelWalk

  /** The documents ProcessFile finds in each file there is. */
  type Files = map<Path, seq<Document>>

  /** What the configured include patterns, those added for static runtimes, and the exclude
      patterns accept. */
  datatype Config = Config(included: Path -> bool, runtime: Path -> bool, excluded: Path -> bool)

  /** Documents name their file, and no two of a file are at the same place. */
  ghost predicate Proper(files: Files)
  {
    forall p :: p in files ==> Distinct(files[p]) && forall i :: 0 <= i < |files[p]| ==> files[p][i].key.path == p
  }

  /** The files a full walk reports: see ParallelWalkProofs.ReportedExactly. */
  ghost predicate Walked(c: Config, p: Path)
  {
    ParallelWalk.Selected(ParallelWalk.Filter(q => c.included(q) || c.runtime(q), c.excluded), [], p)
  }

  /** The files ExtractFromFilepaths looks at, if they are listed: Walker.Matches. */
  predicate Picked(c: Config, p: Path) { c.included(p) && !c.excluded(p) }

  function Pick(c: Config, list: seq<Path>): seq<Path>
  {
    if list == [] then []
    else Pick(c, list[..|list| - 1]) + if Picked(c, list[|list| - 1]) then [list[|list| - 1]] else []
  }

  function DocumentsOf(files: Files, p: Path): seq<Document> { if p in files then files[p] else [] }

  function DocumentsIn(files: Files, list: seq<Path>): seq<Document>
  {
    if list == [] then []
    else DocumentsIn(files, list[..|list| - 1]) + DocumentsOf(files, list[|list| - 1])
  }

  function StaleIn(c: Config, list: seq<Path>): Path -> bool { p => p in Pick(c, list) }

  // ---------------------------------------------------------------------------
  // The code
  // ---------------------------------------------------------------------------

  lemma SameStale(t: Table, u: Table, docs: seq<Document>, stale: Path -> bool, same: Path -> bool)
    requires Reconciled(t, u, docs, stale) && forall p :: stale(p) == same(p)
    ensures Reconciled(t, u, docs, same)
  {
    assert forall k :: Stays(docs, stale, k) == Stays(docs, same, k);
  }

  lemma DocumentsNext(files: Files, list: seq<Path>, p: Path)
    ensures DocumentsIn(files, list + [p]) == DocumentsIn(files, list) + DocumentsOf(files, p)
    ensures DocumentsIn(files, list + []) == DocumentsIn(files, list)
  {
    assert (list + [p])[..|list|] == list && list + [] == list;
  }

  /** The walk over the listed files. */
  method Gather(c: Config, files: Files, list: seq<Path>)
    returns (docs: seq<Document>, included: set<Path>, ok: bool)
    ensures docs == DocumentsIn(files, Pick(c, list)) && forall p :: p in included <==> p in Pick(c, list)
    ensures ok <==> forall p :: p in Pick(c, list) ==> p in files
  {
    docs, included, ok := [], {}, true;
    for i := 0 to |list|
      invariant docs == DocumentsIn(files, Pick(c, list[..i]))
      invariant forall p :: p in included <==> p in Pick(c, list[..i])
      invariant ok <==> forall p :: p in Pick(c, list[..i]) ==> p in files
    {
      assert list[..i + 1][..i] == list[..i];
      assert Pick(c, list[..i + 1]) == Pick(c, list[..i]) + if Picked(c, list[i]) then [list[i]] else [];
      DocumentsNext(files, Pick(c, list[..i]), list[i]);
      if Picked(c, list[i]) {
        included := included + {list[i]};
        docs := docs + DocumentsOf(files, list[i]);
        ok := ok && list[i] in files;
      }
    }
    assert list[..|list|] == list;
  }

  /** Re-extracts the listed files; fails, after reconciling, if one of them cannot be opened. */
  method ExtractFromFilepaths(store: RawDocuments, c: Config, files: Files, list: seq<Path>) returns (ok: bool)
    requires Sane(store.Now())
    modifies store
    ensures Reconciled(old(store.Now()), store.Now(), DocumentsIn(files, Pick(c, list)), StaleIn(c, list))
    ensures ok <==> forall p :: p in Pick(c, list) ==> p in files
  {
    ghost var t := store.Now();
    var docs, included;
    docs, included, ok := Gather(c, files, list);
    store.ExtractDocuments(docs, p => p in included);
    SameStale(t, store.Now(), docs, p => p in included, StaleIn(c, list));
  }

  /** A full walk; order is the one in which the walker reports the files. */
  method Walk(store: RawDocuments, files: Files, order: seq<Path>)
    requires Sane(store.Now())
    modifies store
    ensures Reconciled(old(store.Now()), store.Now(), DocumentsIn(files, order), _ => true)
  {
    var docs: seq<Document> := [];
    for i := 0 to |order|
      invariant docs == DocumentsIn(files, order[..i])
    {
      assert order[..i + 1][..i] == order[..i];
      docs := docs + DocumentsOf(files, order[i]);
    }
    assert order[..|order|] == order;
    ghost var t := store.Now();
    store.ExtractDocuments(docs, _ => true);
    SameStale(t, store.Now(), docs, _ => true, _ => true);
  }

  // ---------------------------------------------------------------------------
  // Which documents are in the table
  // ---------------------------------------------------------------------------

  lemma {:induction false} PickMeans(c: Config, list: seq<Path>, p: Path)
    ensures p in Pick(c, list) <==> p in list && Picked(c, p)
  {
    if list != [] {
      PickMeans(c, list[..|list| - 1], p);
      assert list == list[..|list| - 1] + [list[|list| - 1]];
    }
  }

  lemma FindsConcat(a: seq<Document>, b: seq<Document>, k: Key)
    ensures Finds(a + b, k) <==> Finds(a, k) || Finds(b, k)
  {
    if Finds(a, k) {
      var i :| 0 <= i < |a| && a[i].key == k;
      assert (a + b)[i].key == k;
    }
    if Finds(b, k) {
      var i :| 0 <= i < |b| && b[i].key == k;
      assert (a + b)[|a| + i].key == k;
    }
  }

  lemma {:induction false} FindsIn(files: Files, list: seq<Path>, k: Key)
    requires Proper(files)
    ensures Finds(DocumentsIn(files, list), k) <==> k.path in list && Finds(DocumentsOf(files, k.path), k)
  {
    if list != [] {
      var p := list[|list| - 1];
      FindsIn(files, list[..|list| - 1], k);
      FindsConcat(DocumentsIn(files, list[..|list| - 1]), DocumentsOf(files, p), k);
      assert list == list[..|list| - 1] + [p];
      assert Finds(DocumentsOf(files, p), k) ==> k.path == p;
    }
  }

  lemma DistinctConcat(a: seq<Document>, b: seq<Document>)
    ensures Distinct(a + b) <==> Distinct(a) && Distinct(b) && forall i :: 0 <= i < |b| ==> !Finds(a, b[i].key)
  {
    var all := a + b;
    assert forall i :: 0 <= i < |a| ==> all[i] == a[i];
    assert forall i :: 0 <= i < |b| ==> all[|a| + i] == b[i];
    if Distinct(all) {
      forall i | 0 <= i < |b| ensures !Finds(a, b[i].key) {
        assert forall j :: 0 <= j < |a| ==> all[j].key != all[|a| + i].key;
      }
      forall i, j | 0 <= i < j < |b| ensures b[i].key != b[j].key {
        assert all[|a| + i].key != all[|a| + j].key;
      }
    }
  }

  /** No file that has documents is listed twice. */
  ghost predicate ListedOnce(files: Files, list: seq<Path>)
  {
    forall i, j :: 0 <= i < j < |list| && list[i] == list[j] ==> DocumentsOf(files, list[i]) == []
  }

  lemma {:induction false} DistinctIn(files: Files, list: seq<Path>)
    requires Proper(files)
    ensures Distinct(DocumentsIn(files, list)) <==> ListedOnce(files, list)
  {
    if list != [] {
      var init, p := list[..|list| - 1], list[|list| - 1];
      var last := DocumentsOf(files, p);
      DistinctIn(files, init);
      DistinctConcat(DocumentsIn(files, init), last);
      assert forall i :: 0 <= i < |init| ==> list[i] == init[i];
      assert p in init <==> exists i :: 0 <= i < |init| && list[i] == p;
      if last != [] {
        FindsIn(files, init, last[0].key);
        assert p in init ==> Finds(last, last[0].key);
        forall i | 0 <= i < |last| ensures Finds(DocumentsIn(files, init), last[i].key) <==> p in init {
          FindsIn(files, init, last[i].key);
        }
      }
      assert ListedOnce(files, list) <==> ListedOnce(files, init) && (p in init ==> last == []);
    }
  }

  /** With one row per document the table afterwards holds what was found, and what was there
      and is not stale. */
  lemma HoldsAfter(t: Table, u: Table, docs: seq<Document>, stale: Path -> bool, k: Key)
    requires Reconciled(t, u, docs, stale) && Unique(t.rows)
    ensures Holds(u.rows, k) <==> Finds(docs, k) || (Holds(t.rows, k) && !stale(k.path))
  {
    if Finds(docs, k) {
      var i :| 0 <= i < |docs| && docs[i].key == k;
      assert Holds(u.rows, docs[i].key);
    } else if Holds(t.rows, k) {
      var id: int :| id in t.rows && t.rows[id] == k;
      if !stale(k.path) {
        assert Stays(docs, stale, k);
        assert u.rows[id] == k;
      } else {
        assert !Stays(docs, stale, k);
        var gone: int :| Gone(t, u, gone, k);
        assert gone == id;
        forall other | other in u.rows ensures u.rows[other] != k {
          assert other !in t.rows ==> Finds(docs, u.rows[other]);
        }
      }
    } else {
      forall id | id in u.rows ensures u.rows[id] != k {
        assert id in t.rows ==> u.rows[id] == t.rows[id];
        assert id !in t.rows ==> Finds(docs, u.rows[id]);
      }
    }
  }

  /** A document a full walk of these files finds. */
  ghost predicate Wanted(c: Config, files: Files, k: Key)
  {
    Walked(c, k.path) && Finds(DocumentsOf(files, k.path), k)
  }

  ghost predicate Reflects(c: Config, files: Files, t: Table)
  {
    forall k :: Holds(t.rows, k) <==> Wanted(c, files, k)
  }

  /** What a full walk promises: the documents of the walked files, one row each. */
  ghost predicate InOrder(c: Config, files: Files, t: Table)
  {
    Reflects(c, files, t) && Unique(t.rows)
  }

  /** A full walk puts the table in order exactly if no document had two rows before. */
  lemma FullWalkReflects(c: Config, files: Files, order: seq<Path>, t: Table, u: Table)
    requires Proper(files) && Reconciled(t, u, DocumentsIn(files, order), _ => true)
    requires (forall p :: p in order <==> p in files && Walked(c, p)) && ListedOnce(files, order)
    ensures InOrder(c, files, u) <==> Unique(t.rows)
  {
    forall k ensures Finds(DocumentsIn(files, order), k) <==> Wanted(c, files, k) {
      FindsIn(files, order, k);
    }
    if Unique(t.rows) {
      DistinctIn(files, order);
      forall k ensures Holds(u.rows, k) <==> Wanted(c, files, k) {
        HoldsAfter(t, u, DocumentsIn(files, order), _ => true, k);
      }
    } else {
      var a: int, b: int :| a in t.rows && b in t.rows && t.rows[a] == t.rows[b] && a != b;
      DoubleRowsRemain(t, u, DocumentsIn(files, order), a, b);
    }
  }

  /** A walk that fails part-way still ends in the same reconciliation: a document stays or is added
      exactly if its file was reached, and the rows of all other files go. */
  lemma FailedWalkKeepsReached(files: Files, reached: seq<Path>, t: Table, u: Table, k: Key)
    requires Proper(files) && Reconciled(t, u, DocumentsIn(files, reached), _ => true) && Unique(t.rows)
    ensures Holds(u.rows, k) <==> k.path in reached && Finds(DocumentsOf(files, k.path), k)
  {
    FindsIn(files, reached, k);
    HoldsAfter(t, u, DocumentsIn(files, reached), _ => true, k);
  }

  /** Of two rows of a document one survives a full walk, and both do if the document is found:
      the loop knows one row id for each document. */
  lemma DoubleRowsRemain(t: Table, u: Table, docs: seq<Document>, a: int, b: int)
    requires Reconciled(t, u, docs, _ => true) && a in t.rows && b in t.rows && t.rows[a] == t.rows[b] && a != b
    ensures Holds(u.rows, t.rows[a])
    ensures Finds(docs, t.rows[a]) ==> !Unique(u.rows)
  {
    var k := t.rows[a];
    if Finds(docs, k) {
      assert Stays(docs, _ => true, k);
      assert u.rows[a] == k && u.rows[b] == k;
    } else {
      assert Gone(t, u, a, k) ==> !Gone(t, u, b, k);
      assert a in u.rows ==> u.rows[a] == k;
      assert b in u.rows ==> u.rows[b] == k;
    }
  }

  /** A table with two rows for a document whose file is gone: after a full walk that finds
      nothing the document is still there. */
  lemma DoubleRowOutlivesFile(c: Config, k: Key, u: Table)
    requires Reconciled(Table(map[1 := k, 2 := k], map[], 3), u, DocumentsIn(map[], []), _ => true)
    ensures Holds(u.rows, k) && !Wanted(c, map[], k)
  {
    DoubleRowsRemain(Table(map[1 := k, 2 := k], map[], 3), u, DocumentsIn(map[], []), 1, 2);
  }

  // ---------------------------------------------------------------------------
  // Partial extraction
  // ---------------------------------------------------------------------------

  ghost predicate SameDocuments(before: Files, after: Files, p: Path)
  {
    forall k :: Finds(DocumentsOf(before, p), k) <==> Finds(DocumentsOf(after, p), k)
  }

  /** A listed file on which the two file lists differ must not show the difference: one only
      Matches accepts has no documents, one only the walk reports has not changed any. */
  ghost predicate Faithful(c: Config, before: Files, after: Files, p: Path)
  {
    && (Picked(c, p) && !Walked(c, p) ==> DocumentsOf(after, p) == [])
    && (!Picked(c, p) && Walked(c, p) ==> SameDocuments(before, after, p))
  }

  ghost predicate ChangedWithin(before: Files, after: Files, list: seq<Path>)
  {
    forall p :: p !in list ==> DocumentsOf(before, p) == DocumentsOf(after, p)
  }

  /** The new documents of the files looked at, and the wanted ones of the others. */
  ghost predicate HoldsOneOf(c: Config, before: Files, after: Files, list: seq<Path>, u: Table, k: Key)
  {
    Holds(u.rows, k) <==>
    if k.path in list && Picked(c, k.path) then Finds(DocumentsOf(after, k.path), k) else Wanted(c, before, k)
  }

  ghost predicate AllFaithful(c: Config, before: Files, after: Files, list: seq<Path>)
  {
    forall p :: p in list ==> Faithful(c, before, after, p)
  }

  /** Where the table stands for one document after re-extracting the changed files. */
  lemma PartialHolds(c: Config, before: Files, after: Files, list: seq<Path>, t: Table, u: Table, k: Key)
    requires Proper(after) && Unique(t.rows) && Reflects(c, before, t)
    requires Reconciled(t, u, DocumentsIn(after, Pick(c, list)), StaleIn(c, list))
    ensures HoldsOneOf(c, before, after, list, u, k)
  {
    HoldsAfter(t, u, DocumentsIn(after, Pick(c, list)), StaleIn(c, list), k);
    FindsIn(after, Pick(c, list), k);
    PickMeans(c, list, k.path);
  }

  /** Re-extracting the changed files turns the table for the old files into the table for the
      new ones exactly if every listed file is faithful. */
  lemma PartialExact(c: Config, before: Files, after: Files, list: seq<Path>, t: Table, u: Table)
    requires Proper(before) && Proper(after) && Unique(t.rows)
    requires Reflects(c, before, t) && ChangedWithin(before, after, list)
    requires Reconciled(t, u, DocumentsIn(after, Pick(c, list)), StaleIn(c, list))
    ensures Reflects(c, after, u) <==> AllFaithful(c, before, after, list)
  {
    forall k ensures HoldsOneOf(c, before, after, list, u, k) {
      PartialHolds(c, before, after, list, t, u, k);
    }
    if Reflects(c, after, u) {
      forall p | p in list ensures Faithful(c, before, after, p) {
        ReflectedIsFaithful(c, before, after, list, u, p);
      }
    }
    if AllFaithful(c, before, after, list) {
      forall k ensures Holds(u.rows, k) <==> Wanted(c, after, k) {
        FaithfulIsReflected(c, before, after, list, u, k);
      }
    }
  }

  lemma FaithfulIsReflected(c: Config, before: Files, after: Files, list: seq<Path>, u: Table, k: Key)
    requires HoldsOneOf(c, before, after, list, u, k) && ChangedWithin(before, after, list)
    requires k.path in list ==> Faithful(c, before, after, k.path)
    ensures Holds(u.rows, k) <==> Wanted(c, after, k)
  {}

  lemma ReflectedIsFaithful(c: Config, before: Files, after: Files, list: seq<Path>, u: Table, p: Path)
    requires p in list && Proper(before) && Proper(after) && Reflects(c, after, u)
    requires forall k :: HoldsOneOf(c, before, after, list, u, k)
    ensures Faithful(c, before, after, p)
  {
    var docs := DocumentsOf(after, p);
    if docs != [] && Picked(c, p) {
      assert Finds(docs, docs[0].key) && docs[0].key.path == p;
      assert HoldsOneOf(c, before, after, list, u, docs[0].key);
      assert Wanted(c, after, docs[0].key);
    }
    if !Picked(c, p) && Walked(c, p) {
      forall k ensures Finds(DocumentsOf(before, p), k) <==> Finds(docs, k) {
        if k.path == p {
          assert HoldsOneOf(c, before, after, list, u, k);
          assert Wanted(c, before, k) <==> Wanted(c, after, k);
        }
      }
    }
  }

  /** The lists differ on a file in two cases only: it is accepted though a directory above it is
      excluded, or it is walked for a static runtime's pattern alone. */
  lemma ListsDiffer(c: Config, p: Path)
    requires p != []
    ensures Picked(c, p) && !Walked(c, p) <==>
            c.included(p) && !c.excluded(p) && exists k :: 0 < k < |p| && c.excluded(p[..k])
    ensures !Picked(c, p) && Walked(c, p) <==>
            c.runtime(p) && !c.included(p) && forall k :: 0 < k <= |p| ==> !c.excluded(p[..k])
  {
    assert p[..|p|] == p && [] + p == p;
    assert forall k :: 0 < k <= |p| ==> [] + p[..k] == p[..k];
  }

  /** A document that stays in the table keeps its row id. */
  lemma SameId(t: Table, u: Table, docs: seq<Document>, stale: Path -> bool, id: int)
    requires Reconciled(t, u, docs, stale) && Unique(t.rows) && id in t.rows && Holds(u.rows, t.rows[id])
    ensures id in u.rows && u.rows[id] == t.rows[id]
  {
    HoldsAfter(t, u, docs, stale, t.rows[id]);
    assert Stays(docs, stale, t.rows[id]);
  }

  /** Extracting the same documents again changes no row. */
  lemma RepeatChangesNothing(t: Table, u: Table, v: Table, docs: seq<Document>, stale: Path -> bool)
    requires Unique(t.rows) && Distinct(docs) && Reconciled(t, u, docs, stale) && Reconciled(u, v, docs, stale)
    ensures v.rows == u.rows && v.next == u.next
  {
    forall id | id in u.rows ensures id in v.rows && v.rows[id] == u.rows[id] {
      HoldsAfter(t, u, docs, stale, u.rows[id]);
      assert Holds(u.rows, u.rows[id]);
      assert Stays(docs, stale, u.rows[id]);
    }
    forall id | id in v.rows && Finds(docs, v.rows[id]) ensures id in u.rows {
      var i :| 0 <= i < |docs| && docs[i].key == v.rows[id];
      assert Holds(u.rows, docs[i].key);
      var other: int :| other in u.rows && u.rows[other] == docs[i].key;
      assert v.rows[other] == v.rows[id];
    }
    assert u.next < v.next ==> u.next in v.rows;
    assert forall id :: id in v.rows ==> id in u.rows;
    assert v.rows.Keys == u.rows.Keys;
  }

  // ---------------------------------------------------------------------------
  // Props of component fields
  // ---------------------------------------------------------------------------

  /** Every discovered document's row has that document's prop. */
  ghost predicate PropsRight(u: Table, docs: seq<Document>)
  {
    forall id, i :: id in u.rows && 0 <= i < |docs| && docs[i].key == u.rows[id] ==> PropOf(u, id) == docs[i].prop
  }

  /** The extraction leaves the props right exactly if none of the documents it knew had another
      prop: renaming a prop without moving its document is not noticed. */
  lemma PropsExact(t: Table, u: Table, docs: seq<Document>, stale: Path -> bool)
    requires Sane(t) && Reconciled(t, u, docs, stale) && Distinct(docs)
    ensures PropsRight(u, docs) <==> PropsRight(t, docs)
  {
    forall id, i | id in u.rows && 0 <= i < |docs| && docs[i].key == u.rows[id] && id !in t.rows
      ensures PropOf(u, id) == docs[i].prop
    {
      assert FromOne(u, id, docs);
      var j :| 0 <= j < |docs| && Recorded(u, id, docs[j]);
      assert i == j;
    }
    forall id, i | id in t.rows && 0 <= i < |docs| && docs[i].key == t.rows[id]
      ensures id in u.rows && u.rows[id] == t.rows[id] && PropOf(u, id) == PropOf(t, id)
    {
      assert Finds(docs, t.rows[id]);
      assert Stays(docs, stale, t.rows[id]);
    }
  }

  // ---------------------------------------------------------------------------
  // Three inputs on which partial extraction goes wrong
  // ---------------------------------------------------------------------------

  /** A new file below an excluded directory: partial extraction takes its document, a walk does not. */
  lemma BelowExcludedDirectory(k: Key, t: Table, u: Table)
    requires k.path == ["lib", "a.gql"]
    requires Unique(t.rows)
    requires var c := LibExcluded();
             var after: Files := map[k.path := [Document(k, "")]];
             Reflects(c, map[], t) && Reconciled(t, u, DocumentsIn(after, Pick(c, [k.path])), StaleIn(c, [k.path]))
    ensures Holds(u.rows, k) && !Wanted(LibExcluded(), map[k.path := [Document(k, "")]], k)
  {
    hide Reflects, Reconciled, Pick, StaleIn, DocumentsIn, Unique;
    var c := LibExcluded();
    var after: Files := map[k.path := [Document(k, "")]];
    assert Finds(after[k.path], k) by { assert after[k.path][0].key == k; }
    PartialHolds(c, map[], after, [k.path], t, u, k);
    PickMeans(c, [k.path], k.path);
    assert k.path[..1] == ["lib"] && [] + k.path[..1] == ["lib"];
  }

  /** Takes every file, but goes into no directory lib. */
  function LibExcluded(): Config { Config(_ => true, _ => false, p => p == ["lib"]) }

  /** The same file listed twice: its document gets two rows. */
  lemma ListedTwice(c: Config, k: Key, t: Table, u: Table)
    requires Picked(c, k.path) && Unique(t.rows)
    requires var files: Files := map[k.path := [Document(k, "")]];
             Reconciled(t, u, DocumentsIn(files, Pick(c, [k.path, k.path])), StaleIn(c, [k.path, k.path]))
    ensures !Unique(u.rows)
  {
    var files: Files := map[k.path := [Document(k, "")]];
    var list := [k.path, k.path];
    PickTwice(c, k.path);
    assert !ListedOnce(files, list) by {
      assert DocumentsOf(files, list[0]) != [] && list[0] == list[1];
    }
    assert Proper(files);
    DistinctIn(files, list);
  }

  lemma PickTwice(c: Config, p: Path)
    requires Picked(c, p)
    ensures Pick(c, [p, p]) == [p, p]
  {
    assert [p, p][..1] == [p] && [p][..0] == [];
    assert Pick(c, [p]) == [p];
  }

  /** A prop renamed in place: its row keeps the old name. */
  lemma RenamedProp(k: Key, t: Table, u: Table, stale: Path -> bool, id: int)
    requires Sane(t) && id in t.rows && t.rows[id] == k && PropOf(t, id) == "user"
    requires Reconciled(t, u, [Document(k, "self")], stale)
    ensures id in u.rows && u.rows[id] == k && PropOf(u, id) == "user"
  {
    assert [Document(k, "self")][0].key == k;
    assert Stays([Document(k, "self")], stale, k);
  }

  // ---------------------------------------------------------------------------
  // Any sequence of changes
  // ---------------------------------------------------------------------------

  /** The files change, each change re-extracted with a list that covers it. */
  ghost predicate History(c: Config, files: seq<Files>, lists: seq<seq<Path>>, tables: seq<Table>)
  {
    && |files| == |lists| + 1 && |tables| == |lists| + 1
    && (forall i :: 0 <= i < |files| ==> Proper(files[i]))
    && (forall i :: 0 <= i < |lists| ==> HistoryStep(c, files[i], files[i + 1], lists[i], tables[i], tables[i + 1]))
  }

  ghost predicate HistoryStep(c: Config, before: Files, after: Files, list: seq<Path>, t: Table, u: Table)
  {
    && ChangedWithin(before, after, list) && ListedOnce(after, Pick(c, list))
    && Reconciled(t, u, DocumentsIn(after, Pick(c, list)), StaleIn(c, list))
  }

  lemma StaysUnique(files: Files, list: seq<Path>, t: Table, u: Table, stale: Path -> bool)
    requires Proper(files) && ListedOnce(files, list) && Unique(t.rows)
    requires Reconciled(t, u, DocumentsIn(files, list), stale)
    ensures Unique(u.rows)
  {
    DistinctIn(files, list);
  }

  /** Over every sequence of faithful changes the table holds, one row each, exactly the documents
      a full walk of the current files finds. */
  lemma {:induction false} PartialEqualsFull(c: Config, files: seq<Files>, lists: seq<seq<Path>>, tables: seq<Table>,
    n: nat)
    requires History(c, files, lists, tables) && n <= |lists|
    requires Reflects(c, files[0], tables[0]) && Unique(tables[0].rows)
    requires forall i :: 0 <= i < |lists| ==> AllFaithful(c, files[i], files[i + 1], lists[i])
    ensures Reflects(c, files[n], tables[n]) && Unique(tables[n].rows)
  {
    hide AllFaithful, Reflects, ChangedWithin, ListedOnce, Proper, Unique, Reconciled;
    if n > 0 {
      PartialEqualsFull(c, files, lists, tables, n - 1);
      assert HistoryStep(c, files[n - 1], files[n], lists[n - 1], tables[n - 1], tables[n]);
      assert AllFaithful(c, files[n - 1], files[n], lists[n - 1]);
      PartialExact(c, files[n - 1], files[n], lists[n - 1], tables[n - 1], tables[n]);
      StaysUnique(files[n], Pick(c, lists[n - 1]), tables[n - 1], tables[n], StaleIn(c, lists[n - 1]));
    }
  }
}
