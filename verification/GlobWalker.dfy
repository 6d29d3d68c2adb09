// The include/exclude walker of plugins/glob/walker.go: two pattern trees fed by brace
// expansion, and the test whether a path should be processed.
module GlobWalker {
  import opened Strings
  import opened Glob
  import Braces

  ghost predicate Compiles(m: TokenMatcher, pattern: string)
  {
    forall k :: 0 <= k < |Split(pattern, '/')| ==> m.compiles(Split(pattern, '/')[k])
  }

  /** The token lists of the patterns in front of the first one that does not compile. */
  ghost function Accepted(m: TokenMatcher, patterns: seq<string>): set<Pattern>
  {
    if patterns == [] || !Compiles(m, patterns[0]) then {}
    else {Split(patterns[0], '/')} + Accepted(m, patterns[1..])
  }

  ghost predicate AllCompile(m: TokenMatcher, patterns: seq<string>)
  {
    forall k :: 0 <= k < |patterns| ==> Compiles(m, patterns[k])
  }

  /** All brace-free patterns behind a list of configured patterns. */
  function ExpandAll(patterns: seq<string>): seq<string>
  {
    if patterns == [] then [] else Braces.ExpandBraces(patterns[0]) + ExpandAll(patterns[1..])
  }

  lemma {:induction false} AcceptedConcat(m: TokenMatcher, a: seq<string>, b: seq<string>)
    ensures Accepted(m, a + b) == Accepted(m, a) + if AllCompile(m, a) then Accepted(m, b) else {}
  {
    if a == [] {
      assert a + b == b;
    } else {
      AcceptedConcat(m, a[1..], b);
      assert (a + b)[1..] == a[1..] + b && (a + b)[0] == a[0];
      assert AllCompile(m, a) <==> Compiles(m, a[0]) && AllCompile(m, a[1..]) by {
        assert forall k :: 1 <= k < |a| ==> a[k] == a[1..][k - 1];
      }
    }
  }

  lemma AcceptedFrom(m: TokenMatcher, patterns: seq<string>, i: nat)
    requires i < |patterns|
    ensures Accepted(m, patterns[i..]) ==
      if Compiles(m, patterns[i]) then {Split(patterns[i], '/')} + Accepted(m, patterns[i + 1..]) else {}
    ensures AllCompile(m, patterns[i..]) <==> Compiles(m, patterns[i]) && AllCompile(m, patterns[i + 1..])
  {
    assert patterns[i..][1..] == patterns[i + 1..];
    CompileConcat(m, [patterns[i]], patterns[i + 1..]);
    assert patterns[i..] == [patterns[i]] + patterns[i + 1..];
  }

  ghost function Parts(patterns: seq<string>): set<Pattern>
  {
    set p | p in patterns :: Split(p, '/')
  }

  /** When everything compiles, the accepted patterns are simply all of them. */
  lemma {:induction false} AcceptedAll(m: TokenMatcher, patterns: seq<string>)
    requires AllCompile(m, patterns)
    ensures Accepted(m, patterns) == Parts(patterns)
  {
    if patterns != [] {
      var rest := patterns[1..];
      assert forall k :: 0 <= k < |rest| ==> rest[k] == patterns[k + 1];
      AcceptedAll(m, rest);
      assert Compiles(m, patterns[0]);
      assert forall p :: p in patterns <==> p == patterns[0] || p in rest;
      forall x ensures x in Parts(patterns) <==> x == Split(patterns[0], '/') || x in Parts(rest) {
        if x == Split(patterns[0], '/') { assert patterns[0] in patterns; }
      }
    }
  }

  /** One of the expansions of one of the configured patterns. */
  ghost predicate Expands(patterns: seq<string>, e: string)
  {
    exists i :: 0 <= i < |patterns| && e in Braces.ExpandBraces(patterns[i])
  }

  lemma {:induction false} ExpandsAll(patterns: seq<string>, e: string)
    ensures e in ExpandAll(patterns) <==> Expands(patterns, e)
  {
    if patterns != [] {
      var rest := patterns[1..];
      ExpandsAll(rest, e);
      if Expands(rest, e) {
        var i :| 0 <= i < |rest| && e in Braces.ExpandBraces(rest[i]);
        assert patterns[i + 1] == rest[i];
      }
      if Expands(patterns, e) {
        var i :| 0 <= i < |patterns| && e in Braces.ExpandBraces(patterns[i]);
        assert i > 0 ==> rest[i - 1] == patterns[i];
      }
    }
  }

  /** Every expansion of every configured pattern compiles. */
  ghost predicate Usable(m: TokenMatcher, patterns: seq<string>)
  {
    forall e :: Expands(patterns, e) ==> Compiles(m, e)
  }

  lemma UsableCompiles(m: TokenMatcher, patterns: seq<string>)
    ensures AllCompile(m, ExpandAll(patterns)) <==> Usable(m, patterns)
    ensures forall t :: t in Parts(ExpandAll(patterns)) <==> exists e :: Expands(patterns, e) && Split(e, '/') == t
  {
    forall e ensures e in ExpandAll(patterns) <==> Expands(patterns, e) { ExpandsAll(patterns, e); }
    if Usable(m, patterns) {
      forall k | 0 <= k < |ExpandAll(patterns)| ensures Compiles(m, ExpandAll(patterns)[k]) {
        assert ExpandAll(patterns)[k] in ExpandAll(patterns);
      }
    }
    if AllCompile(m, ExpandAll(patterns)) {
      forall e | Expands(patterns, e) ensures Compiles(m, e) {
        var k :| 0 <= k < |ExpandAll(patterns)| && ExpandAll(patterns)[k] == e;
      }
    }
  }

  class Walker {
    const m: TokenMatcher
    const includeTree: PatternTree
    const excludeTree: PatternTree

    ghost predicate Valid()
      reads includeTree, includeTree.nodes, excludeTree, excludeTree.nodes
    {
      includeTree.Valid() && excludeTree.Valid() && includeTree != excludeTree && includeTree.nodes !! excludeTree.nodes
    }

    constructor (m: TokenMatcher)
      ensures Valid() && fresh(includeTree) && fresh(includeTree.nodes) && fresh(excludeTree) && fresh(excludeTree.nodes)
      ensures includeTree.language == {} && excludeTree.language == {} && this.m == m
    {
      this.m := m;
      var inc := new PatternTree();
      var exc := new PatternTree();
      includeTree, excludeTree := inc, exc;
    }

    /** Add{Include,Exclude}: stops at the first expansion that does not compile; the ones
        before it stay in the tree. */
    static method AddTo(tree: PatternTree, m: TokenMatcher, pattern: string) returns (ok: bool)
      requires tree.Valid()
      modifies tree, tree.nodes
      ensures tree.Valid() && fresh(tree.nodes - old(tree.nodes))
      ensures ok <==> AllCompile(m, Braces.ExpandBraces(pattern))
      ensures tree.language == old(tree.language) + Accepted(m, Braces.ExpandBraces(pattern))
    {
      ok := AddEach(tree, m, Braces.ExpandBraces(pattern));
    }

    static method AddEach(tree: PatternTree, m: TokenMatcher, expanded: seq<string>) returns (ok: bool)
      requires tree.Valid()
      modifies tree, tree.nodes
      ensures tree.Valid() && fresh(tree.nodes - old(tree.nodes))
      ensures ok <==> AllCompile(m, expanded)
      ensures tree.language == old(tree.language) + Accepted(m, expanded)
    {
      var i := 0;
      assert expanded[0..] == expanded;
      while i < |expanded|
        invariant 0 <= i <= |expanded|
        invariant tree.Valid() && fresh(tree.nodes - old(tree.nodes))
        invariant AllCompile(m, expanded) <==> AllCompile(m, expanded[i..])
        invariant tree.language + Accepted(m, expanded[i..]) == old(tree.language) + Accepted(m, expanded)
      {
        AcceptedFrom(m, expanded, i);
        ok := tree.AddPattern(m, Split(expanded[i], '/'));
        if !ok {
          return;
        }
        i := i + 1;
      }
      ok := true;
    }

    /** The configuration loops of documents.Walk and ExtractFromFilepaths. */
    method Configure(includes: seq<string>, excludes: seq<string>) returns (ok: bool)
      requires Valid() && includeTree.language == {} && excludeTree.language == {}
      modifies includeTree, includeTree.nodes, excludeTree, excludeTree.nodes
      ensures Valid()
      ensures ok <==> Usable(m, includes) && Usable(m, excludes)
      ensures ok ==> forall t :: t in includeTree.language <==> exists e :: Expands(includes, e) && Split(e, '/') == t
      ensures ok ==> forall t :: t in excludeTree.language <==> exists e :: Expands(excludes, e) && Split(e, '/') == t
    {
      UsableCompiles(m, includes);
      UsableCompiles(m, excludes);
      ok := AddAllTo(includeTree, m, includes);
      if !ok {
        return;
      }
      AcceptedAll(m, ExpandAll(includes));
      ok := AddAllTo(excludeTree, m, excludes);
      if ok {
        AcceptedAll(m, ExpandAll(excludes));
      }
    }

    static method AddAllTo(tree: PatternTree, m: TokenMatcher, patterns: seq<string>) returns (ok: bool)
      requires tree.Valid()
      modifies tree, tree.nodes
      ensures tree.Valid() && fresh(tree.nodes - old(tree.nodes))
      ensures ok <==> AllCompile(m, ExpandAll(patterns))
      ensures tree.language == old(tree.language) + Accepted(m, ExpandAll(patterns))
    {
      var i := 0;
      assert patterns[0..] == patterns;
      while i < |patterns|
        invariant 0 <= i <= |patterns|
        invariant tree.Valid() && fresh(tree.nodes - old(tree.nodes))
        invariant AllCompile(m, ExpandAll(patterns)) <==> AllCompile(m, ExpandAll(patterns[i..]))
        invariant tree.language + Accepted(m, ExpandAll(patterns[i..])) == old(tree.language) + Accepted(m, ExpandAll(patterns))
      {
        ok := AddTo(tree, m, patterns[i]);
        assert patterns[i..][1..] == patterns[i + 1..];
        AcceptedConcat(m, Braces.ExpandBraces(patterns[i]), ExpandAll(patterns[i + 1..]));
        CompileConcat(m, Braces.ExpandBraces(patterns[i]), ExpandAll(patterns[i + 1..]));
        if !ok {
          return;
        }
        i := i + 1;
      }
      ok := true;
    }

    /** Matches: accepted by an include pattern and by no exclude pattern. */
    method Matches(fp: string) returns (r: bool)
      requires Valid()
      ensures r <==> AnyAccepts(m, includeTree.language, Split(fp, '/')) && !AnyAccepts(m, excludeTree.language, Split(fp, '/'))
    {
      var target := Split(fp, '/');
      r := includeTree.Matches(m, target);
      if r {
        var e := excludeTree.Matches(m, target);
        r := !e;
      }
    }
  }

  lemma CompileConcat(m: TokenMatcher, a: seq<string>, b: seq<string>)
    ensures AllCompile(m, a + b) <==> AllCompile(m, a) && AllCompile(m, b)
  {
    assert forall k :: 0 <= k < |a| ==> (a + b)[k] == a[k];
    assert forall k :: 0 <= k < |b| ==> (a + b)[|a| + k] == b[k];
  }
}
