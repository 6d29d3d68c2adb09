// Writing the discovered documents of a project to the raw_documents table
// (packages/houdini-core/plugin/documents/walk.go): a row whose document is found again is kept,
// one whose file was walked without finding it is deleted.
module Extraction {
  import opened Wrappers

  type Path = seq<string>

  datatype Document = Document(key: Key, prop: string)

  /** What identifies a document: KnownDoc and the file it is in. */
  datatype Key = Key(path: Path, content: string, row: nat, column: nat)

  /** raw_documents, the props of component_fields by document, and the next row id. */
  datatype Table = Table(rows: map<int, Key>, fields: map<int, string>, next: int)

  ghost predicate Sane(t: Table) { forall id :: id in t.rows || id in t.fields ==> id < t.next }

  ghost predicate Unique(rows: map<int, Key>)
  {
    forall a, b :: a in rows && b in rows && rows[a] == rows[b] ==> a == b
  }

  ghost predicate Holds(rows: map<int, Key>, k: Key) { exists id: int :: id in rows && rows[id] == k }

  predicate Finds(docs: seq<Document>, k: Key) { exists i :: 0 <= i < |docs| && docs[i].key == k }

  predicate Distinct(docs: seq<Document>)
  {
    forall i, j :: 0 <= i < j < |docs| ==> docs[i].key != docs[j].key
  }

  predicate Stays(docs: seq<Document>, stale: Path -> bool, k: Key) { Finds(docs, k) || !stale(k.path) }

  // ---------------------------------------------------------------------------
  // What an extraction does to the table
  // ---------------------------------------------------------------------------

  /** Rows found again or not stale keep their ids. */
  ghost predicate KeepsRows(t: Table, u: Table, docs: seq<Document>, stale: Path -> bool)
  {
    forall id :: id in t.rows && Stays(docs, stale, t.rows[id]) ==> id in u.rows && u.rows[id] == t.rows[id]
  }

  predicate Gone(t: Table, u: Table, id: int, k: Key) { id in t.rows && t.rows[id] == k && id !in u.rows }

  /** Of the rows of a stale document one goes: all of them, if keys are unique. */
  ghost predicate DropsStale(t: Table, u: Table, docs: seq<Document>, stale: Path -> bool)
  {
    && (forall id :: id in t.rows && !Stays(docs, stale, t.rows[id]) ==> exists gone: int :: Gone(t, u, gone, t.rows[id]))
    && (forall a, b :: a in t.rows && Gone(t, u, a, t.rows[a]) && Gone(t, u, b, t.rows[a]) ==> a == b)
    && (forall id :: id in t.rows && id in u.rows ==> u.rows[id] == t.rows[id])
  }

  /** The other rows are new ones, for discovered documents. */
  ghost predicate AddsFound(t: Table, u: Table, docs: seq<Document>)
  {
    && t.next <= u.next
    && (forall id :: id in u.rows && id !in t.rows ==> t.next <= id < u.next && Finds(docs, u.rows[id]))
    && (forall id :: t.next <= id < u.next ==> id in u.rows)
    && (forall i :: 0 <= i < |docs| ==> Holds(u.rows, docs[i].key))
  }

  /** A new row has its document's prop; what is recorded for other rows does not change. */
  ghost predicate RecordsProps(t: Table, u: Table, docs: seq<Document>)
  {
    && (forall id :: id < t.next ==> (id in u.fields <==> id in t.fields))
    && (forall id :: id < t.next && id in t.fields ==> u.fields[id] == t.fields[id])
    && (forall id :: t.next <= id < u.next && id in u.rows ==> FromOne(u, id, docs))
  }

  /** The row and its prop come from one of the documents. */
  predicate FromOne(u: Table, id: int, docs: seq<Document>)
  {
    exists i :: 0 <= i < |docs| && Recorded(u, id, docs[i])
  }

  predicate Recorded(u: Table, id: int, d: Document)
  {
    && id in u.rows && u.rows[id] == d.key
    && if d.prop == "" then id !in u.fields else id in u.fields && u.fields[id] == d.prop
  }

  function PropOf(t: Table, id: int): string { if id in t.fields then t.fields[id] else "" }

  ghost predicate Reconciled(t: Table, u: Table, docs: seq<Document>, stale: Path -> bool)
  {
    && Sane(u) && KeepsRows(t, u, docs, stale) && DropsStale(t, u, docs, stale) && AddsFound(t, u, docs)
    && RecordsProps(t, u, docs) && (Unique(t.rows) ==> (Unique(u.rows) <==> Distinct(docs)))
  }

  // ---------------------------------------------------------------------------
  // The reconciliation loop
  // ---------------------------------------------------------------------------

  /** One row id for each document of the table. */
  ghost predicate Tracks(rows: map<int, Key>, known: map<Key, int>)
  {
    && (forall id :: id in rows ==> rows[id] in known)
    && (forall k :: k in known ==> known[k] in rows && rows[known[k]] == k)
  }

  /** What is left of it when some documents have been found. */
  ghost predicate Left(known: map<Key, int>, unknown: map<Key, int>, found: seq<Document>)
  {
    && (forall k :: k in unknown <==> k in known && !Finds(found, k))
    && (forall k :: k in unknown ==> unknown[k] == known[k])
  }

  /** The table, with the rows of documents that were not known. */
  ghost predicate Grown(t: Table, u: Table, found: seq<Document>)
  {
    && t.next <= u.next
    && (forall id :: id in t.rows ==> id in u.rows && u.rows[id] == t.rows[id])
    && (forall id :: id in u.rows <==> id in t.rows || t.next <= id < u.next)
    && (forall id :: t.next <= id < u.next ==> FromOne(u, id, found))
    && (forall i :: 0 <= i < |found| ==> Holds(u.rows, found[i].key))
  }

  ghost predicate SameFields(t: Table, u: Table)
  {
    && (forall id :: id < t.next ==> (id in u.fields <==> id in t.fields))
    && (forall id :: id < t.next && id in t.fields ==> u.fields[id] == t.fields[id])
    && (forall id :: id in u.fields ==> id < u.next)
  }

  /** insertRawStatement, and insertComponentField if there is a prop. */
  function Insert(t: Table, d: Document): Table
  {
    Table(t.rows[t.next := d.key], if d.prop != "" then t.fields[t.next := d.prop] else t.fields, t.next + 1)
  }

  lemma FindsNext(found: seq<Document>, d: Document, k: Key)
    ensures Finds(found + [d], k) <==> Finds(found, k) || d.key == k
  {
    if Finds(found, k) {
      var i :| 0 <= i < |found| && found[i].key == k;
      assert (found + [d])[i].key == k;
    }
    assert (found + [d])[|found|] == d;
  }

  lemma KnownStays(t: Table, u: Table, known: map<Key, int>, unknown: map<Key, int>, found: seq<Document>, d: Document)
    requires Tracks(t.rows, known) && Left(known, unknown, found) && Grown(t, u, found) && d.key in unknown
    ensures Left(known, unknown - {d.key}, found + [d]) && Grown(t, u, found + [d])
  {
    forall k ensures Finds(found + [d], k) <==> Finds(found, k) || d.key == k { FindsNext(found, d, k); }
    forall id | t.next <= id < u.next ensures FromOne(u, id, found + [d]) {
      assert FromOne(u, id, found);
      var i :| 0 <= i < |found| && Recorded(u, id, found[i]);
      assert (found + [d])[i] == found[i];
    }
  }

  lemma InsertGrows(t: Table, u: Table, found: seq<Document>, d: Document)
    requires Grown(t, u, found) && SameFields(t, u) && Sane(t)
    ensures Grown(t, Insert(u, d), found + [d]) && SameFields(t, Insert(u, d))
  {
    var v, more := Insert(u, d), found + [d];
    forall id | t.next <= id < v.next ensures FromOne(v, id, more) {
      if id == u.next {
        assert Recorded(v, id, more[|found|]);
      } else {
        assert FromOne(u, id, found);
        var i :| 0 <= i < |found| && Recorded(u, id, found[i]);
        assert Recorded(v, id, more[i]);
      }
    }
    forall i | 0 <= i < |more| ensures Holds(v.rows, more[i].key) {
      if i == |found| {
        assert v.rows[u.next] == d.key;
      } else {
        assert Holds(u.rows, found[i].key);
        var id: int :| id in u.rows && u.rows[id] == found[i].key;
        assert v.rows[id] == found[i].key;
      }
    }
  }

  lemma InsertLeaves(known: map<Key, int>, unknown: map<Key, int>, found: seq<Document>, d: Document)
    requires Left(known, unknown, found) && d.key !in unknown
    ensures Left(known, unknown, found + [d])
  {
    forall k ensures Finds(found + [d], k) <==> Finds(found, k) || d.key == k { FindsNext(found, d, k); }
  }

  /** Row ids stay unique per document exactly as long as no document comes twice. */
  ghost predicate Matched(rows: map<int, Key>, found: seq<Document>)
  {
    Unique(rows) <==> Distinct(found)
  }

  lemma DistinctNext(found: seq<Document>, d: Document)
    ensures Distinct(found + [d]) <==> Distinct(found) && !Finds(found, d.key)
  {
    var more := found + [d];
    if Distinct(more) {
      forall i, j | 0 <= i < j < |found| ensures found[i].key != found[j].key {
        assert more[i] == found[i] && more[j] == found[j];
      }
      forall i | 0 <= i < |found| ensures found[i].key != d.key {
        assert more[i] == found[i] && more[|found|] == d;
      }
    }
  }

  lemma UniqueInsert(rows: map<int, Key>, id: int, k: Key)
    requires id !in rows
    ensures Unique(rows[id := k]) <==> Unique(rows) && !Holds(rows, k)
  {
    var more := rows[id := k];
    if Unique(more) {
      forall a, b | a in rows && b in rows && rows[a] == rows[b] ensures a == b {
        assert more[a] == more[b];
      }
      forall a | a in rows ensures rows[a] != k {
        assert more[a] == rows[a] && more[id] == k;
      }
    }
  }

  /** Before the insertion a document is in the table if it was found before or was there at first. */
  lemma GrownHolds(t: Table, u: Table, found: seq<Document>, k: Key)
    requires Grown(t, u, found)
    ensures Holds(u.rows, k) <==> Holds(t.rows, k) || Finds(found, k)
  {
    if Holds(t.rows, k) {
      var id: int :| id in t.rows && t.rows[id] == k;
    }
    if Holds(u.rows, k) {
      var id: int :| id in u.rows && u.rows[id] == k;
      if id in t.rows {
      } else {
        assert FromOne(u, id, found);
        var i :| 0 <= i < |found| && Recorded(u, id, found[i]);
      }
    }
  }

  lemma InsertMatches(t: Table, u: Table, known: map<Key, int>, unknown: map<Key, int>, found: seq<Document>, d: Document)
    requires Tracks(t.rows, known) && Left(known, unknown, found) && Grown(t, u, found) && Sane(t)
    requires Matched(u.rows, found)
    ensures d.key in unknown ==> Matched(u.rows, found + [d])
    ensures d.key !in unknown ==> Matched(Insert(u, d).rows, found + [d])
  {
    DistinctNext(found, d);
    GrownHolds(t, u, found, d.key);
    UniqueInsert(u.rows, u.next, d.key);
  }

  // ---------------------------------------------------------------------------
  // Deleting what is left
  // ---------------------------------------------------------------------------

  predicate Chosen(unknown: map<Key, int>, keys: set<Key>, stale: Path -> bool, id: int, k: Key)
  {
    k in unknown && k in keys && unknown[k] == id && stale(k.path)
  }

  ghost predicate Dropped(rows: map<int, Key>, rest: map<int, Key>, unknown: map<Key, int>, keys: set<Key>,
    stale: Path -> bool)
  {
    && (forall id :: id in rest ==> id in rows && rest[id] == rows[id])
    && (forall id :: id in rows ==> (id in rest <==> !ChosenBySome(unknown, keys, stale, id)))
  }

  ghost predicate ChosenBySome(unknown: map<Key, int>, keys: set<Key>, stale: Path -> bool, id: int)
  {
    exists k :: Chosen(unknown, keys, stale, id, k)
  }

  lemma DropOne(rows: map<int, Key>, rest: map<int, Key>, unknown: map<Key, int>, keys: set<Key>, stale: Path -> bool,
    k: Key)
    requires Dropped(rows, rest, unknown, keys, stale) && k in unknown
    ensures Dropped(rows, if stale(k.path) then rest - {unknown[k]} else rest, unknown, keys + {k}, stale)
  {
    forall id
      ensures ChosenBySome(unknown, keys + {k}, stale, id) <==>
              ChosenBySome(unknown, keys, stale, id) || (stale(k.path) && unknown[k] == id)
    {
      if ChosenBySome(unknown, keys, stale, id) {
        var other :| Chosen(unknown, keys, stale, id, other);
        assert Chosen(unknown, keys + {k}, stale, id, other);
      }
      if stale(k.path) && unknown[k] == id {
        assert Chosen(unknown, keys + {k}, stale, id, k);
      }
      if ChosenBySome(unknown, keys + {k}, stale, id) {
        var other :| Chosen(unknown, keys + {k}, stale, id, other);
        assert other != k ==> Chosen(unknown, keys, stale, id, other);
      }
    }
  }

  /** Which rows of the original table go. */
  lemma GoesExactly(t: Table, u: Table, v: Table, known: map<Key, int>, unknown: map<Key, int>, docs: seq<Document>,
    stale: Path -> bool, id: int)
    requires Sane(t) && Tracks(t.rows, known) && Left(known, unknown, docs) && Grown(t, u, docs)
    requires Dropped(u.rows, v.rows, unknown, unknown.Keys, stale) && id in u.rows
    ensures id !in v.rows <==>
            id in t.rows && !Stays(docs, stale, t.rows[id]) && known[t.rows[id]] == id
  {
    if id !in v.rows {
      assert ChosenBySome(unknown, unknown.Keys, stale, id);
      var k :| Chosen(unknown, unknown.Keys, stale, id, k);
      assert known[k] == id && t.rows[id] == k;
    } else if id in t.rows && !Stays(docs, stale, t.rows[id]) {
      assert !Chosen(unknown, unknown.Keys, stale, id, t.rows[id]);
    }
  }

  lemma DroppedDrops(t: Table, u: Table, v: Table, known: map<Key, int>, unknown: map<Key, int>, docs: seq<Document>,
    stale: Path -> bool)
    requires Sane(t) && Tracks(t.rows, known) && Left(known, unknown, docs) && Grown(t, u, docs)
    requires Dropped(u.rows, v.rows, unknown, unknown.Keys, stale)
    ensures KeepsRows(t, v, docs, stale) && DropsStale(t, v, docs, stale)
  {
    forall id | id in t.rows
      ensures id !in v.rows <==> !Stays(docs, stale, t.rows[id]) && known[t.rows[id]] == id
    {
      GoesExactly(t, u, v, known, unknown, docs, stale, id);
    }
    forall id | id in t.rows && !Stays(docs, stale, t.rows[id]) ensures exists gone: int :: Gone(t, v, gone, t.rows[id]) {
      assert Gone(t, v, known[t.rows[id]], t.rows[id]);
    }
  }

  lemma DroppedLeaves(t: Table, u: Table, v: Table, known: map<Key, int>, unknown: map<Key, int>, docs: seq<Document>,
    stale: Path -> bool, id: int)
    requires Sane(t) && Tracks(t.rows, known) && Left(known, unknown, docs) && Grown(t, u, docs)
    requires Dropped(u.rows, v.rows, unknown, unknown.Keys, stale)
    requires id in u.rows && (id !in t.rows || Finds(docs, t.rows[id]))
    ensures id in v.rows && v.rows[id] == u.rows[id]
  {
    GoesExactly(t, u, v, known, unknown, docs, stale, id);
  }

  lemma DroppedAdds(t: Table, u: Table, v: Table, known: map<Key, int>, unknown: map<Key, int>, docs: seq<Document>,
    stale: Path -> bool)
    requires Sane(t) && Tracks(t.rows, known) && Left(known, unknown, docs) && Grown(t, u, docs)
    requires Dropped(u.rows, v.rows, unknown, unknown.Keys, stale) && v.next == u.next
    ensures AddsFound(t, v, docs)
  {
    forall id | t.next <= id < u.next ensures id in v.rows && Finds(docs, v.rows[id]) {
      assert FromOne(u, id, docs);
      DroppedLeaves(t, u, v, known, unknown, docs, stale, id);
    }
    forall i | 0 <= i < |docs| ensures Holds(v.rows, docs[i].key) {
      assert Holds(u.rows, docs[i].key);
      var id: int :| id in u.rows && u.rows[id] == docs[i].key;
      DroppedLeaves(t, u, v, known, unknown, docs, stale, id);
      assert v.rows[id] == docs[i].key;
    }
  }

  lemma DroppedRecords(t: Table, u: Table, v: Table, known: map<Key, int>, unknown: map<Key, int>, docs: seq<Document>,
    stale: Path -> bool)
    requires Sane(t) && Tracks(t.rows, known) && Left(known, unknown, docs) && Grown(t, u, docs) && SameFields(t, u)
    requires Dropped(u.rows, v.rows, unknown, unknown.Keys, stale) && v.fields == u.fields && v.next == u.next
    ensures Sane(v) && RecordsProps(t, v, docs)
  {
    forall id | t.next <= id < u.next ensures FromOne(v, id, docs) {
      assert FromOne(u, id, docs);
      var i :| 0 <= i < |docs| && Recorded(u, id, docs[i]);
      DroppedLeaves(t, u, v, known, unknown, docs, stale, id);
      assert Recorded(v, id, docs[i]);
    }
  }

  /** Deleting leaves no documents double that were not, and makes none single that were. */
  lemma DroppedUnique(t: Table, u: Table, v: Table, known: map<Key, int>, unknown: map<Key, int>, docs: seq<Document>,
    stale: Path -> bool)
    requires Sane(t) && Tracks(t.rows, known) && Left(known, unknown, docs) && Grown(t, u, docs)
    requires Dropped(u.rows, v.rows, unknown, unknown.Keys, stale) && Unique(t.rows)
    ensures Unique(v.rows) <==> Unique(u.rows)
  {
    if Unique(v.rows) {
      forall a, b | a in u.rows && b in u.rows && u.rows[a] == u.rows[b] ensures a == b {
        GoesExactly(t, u, v, known, unknown, docs, stale, a);
        GoesExactly(t, u, v, known, unknown, docs, stale, b);
        assert a !in t.rows ==> FromOne(u, a, docs);
        assert b !in t.rows ==> FromOne(u, b, docs);
      }
    }
  }

  lemma DroppedReconciles(t: Table, u: Table, v: Table, known: map<Key, int>, unknown: map<Key, int>,
    docs: seq<Document>, stale: Path -> bool)
    requires Sane(t) && Tracks(t.rows, known) && Left(known, unknown, docs) && Grown(t, u, docs) && SameFields(t, u)
    requires Dropped(u.rows, v.rows, unknown, unknown.Keys, stale) && v.fields == u.fields && v.next == u.next
    requires Unique(t.rows) ==> Matched(u.rows, docs)
    ensures Reconciled(t, v, docs, stale)
  {
    DroppedDrops(t, u, v, known, unknown, docs, stale);
    DroppedAdds(t, u, v, known, unknown, docs, stale);
    DroppedRecords(t, u, v, known, unknown, docs, stale);
    if Unique(t.rows) { DroppedUnique(t, u, v, known, unknown, docs, stale); }
  }

  class RawDocuments {
    var rows: map<int, Key>
    var fields: map<int, string>
    var next: int

    function Now(): Table
      reads this
    {
      Table(rows, fields, next)
    }

    /** The query before the loop. */
    method LoadKnown() returns (known: map<Key, int>)
      ensures Tracks(rows, known)
    {
      known := map[];
      var ids := rows.Keys;
      while ids != {}
        invariant ids <= rows.Keys
        invariant forall k :: k in known ==> known[k] in rows && rows[known[k]] == k
        invariant forall id :: id in rows.Keys - ids ==> rows[id] in known
      {
        var id := AnyOf(ids);
        known := known[rows[id] := id];
        ids := ids - {id};
      }
    }

    method InsertDocument(d: Document)
      modifies this
      ensures Now() == Insert(old(Now()), d)
    {
      rows := rows[next := d.key];
      if d.prop != "" {
        fields := fields[next := d.prop];
      }
      next := next + 1;
    }

    /** Consumes the discovered documents. */
    method Consume(known: map<Key, int>, docs: seq<Document>) returns (unknown: map<Key, int>)
      requires Sane(Now()) && Tracks(rows, known)
      modifies this
      ensures Grown(old(Now()), Now(), docs) && SameFields(old(Now()), Now()) && Left(known, unknown, docs)
      ensures Unique(old(rows)) ==> Matched(rows, docs)
    {
      unknown := known;
      ghost var t := Now();
      assert docs[..0] == [];
      for i := 0 to |docs|
        invariant Grown(t, Now(), docs[..i]) && SameFields(t, Now()) && Left(known, unknown, docs[..i])
        invariant Unique(t.rows) ==> Matched(rows, docs[..i])
      {
        var d := docs[i];
        assert docs[..i + 1] == docs[..i] + [d];
        if Unique(t.rows) { InsertMatches(t, Now(), known, unknown, docs[..i], d); }
        if d.key in unknown {
          KnownStays(t, Now(), known, unknown, docs[..i], d);
          unknown := unknown - {d.key};
        } else {
          InsertGrows(t, Now(), docs[..i], d);
          InsertLeaves(known, unknown, docs[..i], d);
          InsertDocument(d);
        }
      }
      assert docs[..|docs|] == docs;
    }

    /** Deletes the rows that are left and stale. */
    method DropLeft(unknown: map<Key, int>, stale: Path -> bool)
      modifies this`rows
      ensures Dropped(old(rows), rows, unknown, unknown.Keys, stale)
    {
      ghost var before := rows;
      var todo := unknown.Keys;
      while todo != {}
        invariant todo <= unknown.Keys && Dropped(before, rows, unknown, unknown.Keys - todo, stale)
      {
        var k := AnyOf(todo);
        DropOne(before, rows, unknown, unknown.Keys - todo, stale, k);
        assert unknown.Keys - (todo - {k}) == unknown.Keys - todo + {k};
        if stale(k.path) {
          rows := rows - {unknown[k]};
        }
        todo := todo - {k};
      }
      assert unknown.Keys - todo == unknown.Keys;
    }

    /** The database writer of extractDocuments. */
    method ExtractDocuments(docs: seq<Document>, stale: Path -> bool)
      requires Sane(Now())
      modifies this
      ensures Reconciled(old(Now()), Now(), docs, stale)
    {
      ghost var t := Now();
      var known := LoadKnown();
      var unknown := Consume(known, docs);
      ghost var mid := Now();
      DropLeft(unknown, stale);
      DroppedReconciles(t, mid, Now(), known, unknown, docs, stale);
    }
  }
}
