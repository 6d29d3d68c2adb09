// The glob pattern trie of plugins/glob/walker.go: patterns merge into shared nodes
// keyed by token text, and a recursive matcher with globstar backtracking runs over it.
module Glob {

  const GLOBSTAR := "**"

  /** Single-token compilation and matching; both are determined by the token's text. */
  datatype TokenMatcher = TokenMatcher(compiles: string -> bool, matches: (string, string) -> bool)

  type Pattern = seq<string>

  // ---------------------------------------------------------------------------
  // What one pattern means
  // ---------------------------------------------------------------------------

  /** Reference matcher for a single pattern: no pattern tail matches an exhausted list. */
  ghost predicate Accepts(m: TokenMatcher, pat: Pattern, toks: seq<string>)
    decreases |pat|
  {
    if |toks| == 0 then |pat| == 0
    else if |pat| == 0 then false
    else if pat[0] == GLOBSTAR then exists i :: 0 <= i <= |toks| && Accepts(m, pat[1..], toks[i..])
    else m.matches(pat[0], toks[0]) && Accepts(m, pat[1..], toks[1..])
  }

  /** cuts divides toks into one span per pattern token: a globstar may take any span, any
      other token takes exactly one matching token, and every span starts before the end. */
  ghost predicate Cuts(m: TokenMatcher, pat: Pattern, toks: seq<string>, cuts: seq<nat>)
  {
    && |cuts| == |pat| + 1 && cuts[0] == 0 && cuts[|pat|] == |toks|
    && forall k :: 0 <= k < |pat| ==> CutAt(m, pat, toks, cuts, k)
  }

  /** The k-th span. */
  predicate CutAt(m: TokenMatcher, pat: Pattern, toks: seq<string>, cuts: seq<nat>, k: int)
    requires 0 <= k < |pat| && |cuts| == |pat| + 1
  {
    && cuts[k] <= cuts[k + 1] && cuts[k] < |toks|
    && (pat[k] != GLOBSTAR ==> cuts[k + 1] == cuts[k] + 1 && m.matches(pat[k], toks[cuts[k]]))
  }

  /** Prepends a first span of i tokens to the cuts of the remaining tokens. */
  function PrependCut(i: nat, rest: seq<nat>): (r: seq<nat>)
    ensures |r| == |rest| + 1 && r[0] == 0
    ensures forall k :: 0 <= k < |rest| ==> r[k + 1] == rest[k] + i
  {
    [0] + seq(|rest|, k requires 0 <= k < |rest| => rest[k] + i)
  }

  lemma PrependCutCuts(m: TokenMatcher, pat: Pattern, toks: seq<string>, i: nat, rest: seq<nat>)
    requires |pat| > 0 && |toks| > 0 && i <= |toks| && Cuts(m, pat[1..], toks[i..], rest)
    requires pat[0] == GLOBSTAR || (i == 1 && m.matches(pat[0], toks[0]))
    ensures Cuts(m, pat, toks, PrependCut(i, rest))
  {
    hide PrependCut, Cuts;
    var cuts := PrependCut(i, rest);
    CutsBounds(m, pat[1..], toks[i..], rest);
    forall k | 0 <= k < |pat| ensures CutAt(m, pat, toks, cuts, k) {
      if k > 0 {
        assert cuts[k] == rest[k - 1] + i && cuts[k + 1] == rest[k - 1 + 1] + i;
        assert CutAt(m, pat[1..], toks[i..], rest, k - 1);
      } else {
        assert cuts[1] == rest[0] + i && toks[0] == toks[cuts[0]];
      }
    }
    assert cuts[|pat|] == rest[|pat| - 1] + i;
    CutsFrom(m, pat, toks, cuts);
  }

  lemma CutsBounds(m: TokenMatcher, pat: Pattern, toks: seq<string>, cuts: seq<nat>)
    requires Cuts(m, pat, toks, cuts)
    ensures |cuts| == |pat| + 1 && cuts[0] == 0 && cuts[|pat|] == |toks|
    ensures forall k :: 0 <= k < |pat| ==> CutAt(m, pat, toks, cuts, k)
  {}

  lemma CutsFrom(m: TokenMatcher, pat: Pattern, toks: seq<string>, cuts: seq<nat>)
    requires |cuts| == |pat| + 1 && cuts[0] == 0 && cuts[|pat|] == |toks|
    requires forall k :: 0 <= k < |pat| ==> CutAt(m, pat, toks, cuts, k)
    ensures Cuts(m, pat, toks, cuts)
  {}

  lemma {:induction false} AcceptsHasCuts(m: TokenMatcher, pat: Pattern, toks: seq<string>) returns (cuts: seq<nat>)
    requires Accepts(m, pat, toks)
    ensures Cuts(m, pat, toks, cuts)
    decreases |pat|
  {
    if |pat| == 0 {
      cuts := [0];
    } else {
      var i := 1;
      if pat[0] == GLOBSTAR {
        i :| 0 <= i <= |toks| && Accepts(m, pat[1..], toks[i..]);
      }
      var rest := AcceptsHasCuts(m, pat[1..], toks[i..]);
      PrependCutCuts(m, pat, toks, i, rest);
      cuts := PrependCut(i, rest);
    }
  }

  lemma {:induction false} CutsAccept(m: TokenMatcher, pat: Pattern, toks: seq<string>, cuts: seq<nat>)
    requires Cuts(m, pat, toks, cuts)
    ensures Accepts(m, pat, toks)
    decreases |pat|
  {
    if |pat| > 0 {
      var i := cuts[1];
      forall k | 1 <= k <= |pat| ensures i <= cuts[k] { CutsRise(m, pat, toks, cuts, 1, k); }
      var rest := DropCut(cuts, i);
      forall k | 0 <= k < |pat| - 1 ensures CutAt(m, pat[1..], toks[i..], rest, k) {
        assert CutAt(m, pat, toks, cuts, k + 1);
        assert rest[k] == cuts[k + 1] - i && rest[k + 1] == cuts[k + 1 + 1] - i;
      }
      assert CutAt(m, pat, toks, cuts, 0);
      CutsAccept(m, pat[1..], toks[i..], rest);
    }
  }

  /** Takes the first span off. */
  function DropCut(cuts: seq<nat>, i: nat): (r: seq<nat>)
    requires |cuts| > 0 && forall k :: 1 <= k < |cuts| ==> i <= cuts[k]
    ensures |r| == |cuts| - 1
    ensures forall k :: 0 <= k < |r| ==> r[k] == cuts[k + 1] - i
  {
    seq(|cuts| - 1, k requires 0 <= k < |cuts| - 1 => cuts[k + 1] - i)
  }

  lemma {:induction false} CutsRise(m: TokenMatcher, pat: Pattern, toks: seq<string>, cuts: seq<nat>, a: nat, b: nat)
    requires Cuts(m, pat, toks, cuts) && a <= b <= |pat|
    ensures cuts[a] <= cuts[b]
    decreases b - a
  {
    if a < b {
      CutsRise(m, pat, toks, cuts, a, b - 1);
      assert CutAt(m, pat, toks, cuts, b - 1);
    }
  }

  /** The recursive matcher and the division into spans define the same language. */
  lemma AcceptsIffCuts(m: TokenMatcher, pat: Pattern, toks: seq<string>)
    ensures Accepts(m, pat, toks) <==> exists cuts :: Cuts(m, pat, toks, cuts)
  {
    if Accepts(m, pat, toks) {
      var cuts := AcceptsHasCuts(m, pat, toks);
    }
    if cuts :| Cuts(m, pat, toks, cuts) {
      CutsAccept(m, pat, toks, cuts);
    }
  }

  /** Some pattern of the set accepts the tokens. */
  ghost predicate AnyAccepts(m: TokenMatcher, pats: set<Pattern>, toks: seq<string>)
  {
    exists p :: p in pats && Accepts(m, p, toks)
  }

  // ---------------------------------------------------------------------------
  // The trie
  // ---------------------------------------------------------------------------

  datatype Edge = Edge(token: string, node: Node)

  ghost predicate HasToken(edges: seq<Edge>, token: string)
  {
    exists i :: 0 <= i < |edges| && edges[i].token == token
  }

  lemma HasTokenAppend(edges: seq<Edge>, e: Edge, token: string)
    ensures HasToken(edges + [e], token) <==> HasToken(edges, token) || e.token == token
  {
    if i :| 0 <= i < |edges| && edges[i].token == token {
      assert (edges + [e])[i].token == token;
    }
    if e.token == token {
      assert (edges + [e])[|edges|].token == token;
    }
  }

  class Node {
    var children: seq<Edge>
    var terminal: bool
    ghost const path: Pattern // the tokens on the way from the root

    constructor (ghost path: Pattern)
      ensures children == [] && !terminal && this.path == path
    {
      children, terminal, this.path := [], false, path;
    }
  }

  class PatternTree {
    const root: Node
    ghost var nodes: set<Node>
    ghost var nodeAt: map<Pattern, Node> // the node each path leads to
    ghost var language: set<Pattern>     // the paths of the terminal nodes
    ghost var depth: nat

    /** The nodes form a tree keyed by token text: one node per path, an edge for every
        one-token extension that has a node, and the language marked by the terminal flags. */
    ghost predicate Valid()
      reads this, nodes
    {
      ValidBut([])
    }

    /** Path q may still be without an edge that leads to it. */
    ghost predicate ValidBut(q: Pattern)
      reads this, nodes
    {
      && [] in nodeAt && nodeAt[[]] == root
      && (forall n :: n in nodes ==> n.path in nodeAt && nodeAt[n.path] == n)
      && (forall p :: p in nodeAt ==> nodeAt[p] in nodes && nodeAt[p].path == p && |p| <= depth)
      && (forall n {:trigger EdgesLeadOn(n)} :: n in nodes ==> EdgesLeadOn(n))
      && (forall p {:trigger HasParent(p)} :: p in nodeAt && |p| > 0 && p != q ==> HasParent(p))
      && language <= nodeAt.Keys
      && (forall n :: n in nodes ==> (n.terminal <==> n.path in language))
    }

    ghost predicate EdgesLeadOn(n: Node)
      reads this`nodeAt, n`children
    {
      forall i :: 0 <= i < |n.children| ==>
        var p := n.path + [n.children[i].token];
        p in nodeAt && nodeAt[p] == n.children[i].node
    }

    ghost predicate HasParent(p: Pattern)
      requires |p| > 0
      reads this`nodes, this`nodeAt, nodes`children
    {
      var q := p[..|p| - 1];
      q in nodeAt && nodeAt[q] in nodes && HasEdge(nodeAt[q], p[|p| - 1])
    }

    ghost predicate HasEdge(n: Node, token: string)
      reads n`children
    {
      HasToken(n.children, token)
    }

    constructor ()
      ensures Valid() && fresh(nodes) && language == {}
    {
      var r := new Node([]);
      root, nodes, depth := r, {r}, 0;
      nodeAt, language := map[[] := r], {};
    }

    /** addPattern: walk down the tokens, following the edge with the same text or growing one.
        A token that does not compile stops the walk and leaves the language as it was. */
    method AddPattern(m: TokenMatcher, parts: Pattern) returns (ok: bool)
      requires Valid()
      modifies this, nodes
      ensures Valid() && fresh(nodes - old(nodes))
      ensures ok <==> forall k :: 0 <= k < |parts| ==> m.compiles(parts[k])
      ensures language == old(language) + if ok then {parts} else {}
    {
      var current := root;
      var k := 0;
      while k < |parts|
        invariant 0 <= k <= |parts|
        invariant Valid() && old(nodes) <= nodes && fresh(nodes - old(nodes))
        invariant current in nodes && current.path == parts[..k]
        invariant forall j :: 0 <= j < k ==> m.compiles(parts[j])
        invariant language == old(language)
      {
        if !m.compiles(parts[k]) {
          return false;
        }
        assert parts[..k + 1] == parts[..k] + [parts[k]];
        var i := FindEdge(current, parts[k]);
        if i < |current.children| {
          assert EdgesLeadOn(current);
          current := current.children[i].node;
        } else {
          current := Grow(current, parts[k]);
        }
        k := k + 1;
      }
      assert parts[..k] == parts;
      MarkTerminal(current);
      return true;
    }

    /** The first edge with the token's text, or the number of edges if there is none. */
    method FindEdge(n: Node, token: string) returns (i: nat)
      ensures i <= |n.children|
      ensures i < |n.children| ==> n.children[i].token == token
      ensures i == |n.children| ==> !HasEdge(n, token)
    {
      i := 0;
      while i < |n.children| && n.children[i].token != token
        invariant i <= |n.children|
        invariant forall j :: 0 <= j < i ==> n.children[j].token != token
      {
        i := i + 1;
      }
    }

    method MarkTerminal(n: Node)
      requires Valid() && n in nodes
      modifies this`language, n`terminal
      ensures Valid() && language == old(language) + {n.path}
    {
      n.terminal := true;
      language := language + {n.path};
      forall o {:trigger EdgesLeadOn(o)} | o in nodes ensures EdgesLeadOn(o) {
        assert old(EdgesLeadOn(o));
      }
      forall p {:trigger HasParent(p)} | p in nodeAt && |p| > 0 ensures HasParent(p) {
        assert old(HasParent(p));
      }
    }

    /** Hangs a new, non-terminal node off n under a token n has no edge for. */
    method Grow(n: Node, token: string) returns (child: Node)
      requires Valid() && n in nodes && !HasEdge(n, token)
      modifies this`nodes, this`nodeAt, this`depth, n`children
      ensures Valid() && fresh(child) && nodes == old(nodes) + {child}
      ensures child.path == n.path + [token]
    {
      FreePath(n, token);
      child := new Node(n.path + [token]);
      Register(child);
      Link(n, token, child);
    }

    /** The new node takes its place. */
    ghost method Register(child: Node)
      requires Valid() && child !in nodes && child.path !in nodeAt && child.children == [] && !child.terminal
      modifies this`nodes, this`nodeAt, this`depth
      ensures ValidBut(child.path) && nodes == old(nodes) + {child} && nodeAt == old(nodeAt)[child.path := child]
    {
      nodes := nodes + {child};
      nodeAt := nodeAt[child.path := child];
      depth := if depth < |child.path| then |child.path| else depth;
      forall o {:trigger EdgesLeadOn(o)} | o in nodes ensures EdgesLeadOn(o) {
        assert o != child ==> old(EdgesLeadOn(o));
      }
      forall p {:trigger HasParent(p)} | p in nodeAt && |p| > 0 && p != child.path ensures HasParent(p) {
        assert old(HasParent(p));
      }
    }

    /** The edge that leads to it. */
    method Link(n: Node, token: string, child: Node)
      requires child.path == n.path + [token] && n in nodes && child in nodes && ValidBut(child.path)
      modifies n`children
      ensures Valid()
    {
      n.children := n.children + [Edge(token, child)];
      forall o {:trigger EdgesLeadOn(o)} | o in nodes ensures EdgesLeadOn(o) {
        assert old(EdgesLeadOn(o));
      }
      assert child.path[..|child.path| - 1] == n.path;
      HasTokenAppend(old(n.children), Edge(token, child), token);
      forall p {:trigger HasParent(p)} | p in nodeAt && |p| > 0 ensures HasParent(p) {
        HasTokenAppend(old(n.children), Edge(token, child), p[|p| - 1]);
        assert p != child.path ==> old(HasParent(p));
      }
    }

    lemma FreePath(n: Node, token: string)
      requires Valid() && n in nodes && !HasEdge(n, token)
      ensures n.path + [token] !in nodeAt
    {
      var path := n.path + [token];
      assert path[..|path| - 1] == n.path;
      assert path in nodeAt ==> HasParent(path);
    }

    /** Some pattern below n accepts the tokens from n on. */
    ghost predicate AcceptsBelow(n: Node, m: TokenMatcher, toks: seq<string>)
      reads this, nodes
    {
      exists p :: p in language && n.path <= p && Accepts(m, p[|n.path|..], toks)
    }

    /** matchHelper: backtracks over the edges of n, trying every span for a globstar. */
    method MatchHelper(n: Node, m: TokenMatcher, toks: seq<string>) returns (r: bool)
      requires Valid() && n in nodes
      ensures r <==> AcceptsBelow(n, m, toks)
      decreases depth - |n.path|, 1
    {
      if |toks| == 0 {
        ExhaustedAtTerminal(n, m, toks);
        return n.terminal;
      }
      var c := 0;
      while c < |n.children|
        invariant 0 <= c <= |n.children|
        invariant forall j :: 0 <= j < c ==> !AcceptsThrough(n, j, m, toks)
      {
        var found := MatchEdge(n, c, m, toks);
        if found {
          return true;
        }
        c := c + 1;
      }
      NothingBelow(n, m, toks);
      return false;
    }

    /** One round of matchHelper's loop: whether the pattern can go on through edge c of n. */
    method MatchEdge(n: Node, c: nat, m: TokenMatcher, toks: seq<string>) returns (r: bool)
      requires Valid() && n in nodes && c < |n.children| && |toks| > 0
      ensures r ==> AcceptsBelow(n, m, toks)
      ensures !r ==> !AcceptsThrough(n, c, m, toks)
      decreases depth - |n.path|, 0
    {
      var child := n.children[c].node;
      assert EdgesLeadOn(n);
      if n.children[c].token == GLOBSTAR {
        var span := MatchAnySpan(child, m, toks);
        if span <= |toks| {
          SpanAccepted(n, c, m, toks, span);
          return true;
        }
        GlobstarExhausted(n, c, m, toks);
        return false;
      }
      if m.matches(n.children[c].token, toks[0]) {
        r := MatchHelper(child, m, toks[1..]);
        if r {
          SpanAccepted(n, c, m, toks, 1);
          return;
        }
      }
      TokenExhausted(n, c, m, toks);
      return false;
    }

    lemma ExhaustedAtTerminal(n: Node, m: TokenMatcher, toks: seq<string>)
      requires Valid() && n in nodes && |toks| == 0
      ensures n.terminal <==> AcceptsBelow(n, m, toks)
    {
      forall p | p in language && n.path <= p && Accepts(m, p[|n.path|..], toks) ensures p == n.path {}
      assert n.path[|n.path|..] == [];
    }

    /** The globstar branch: zero tokens first, then ever longer spans; |toks| + 1 if none fits. */
    method MatchAnySpan(child: Node, m: TokenMatcher, toks: seq<string>) returns (i: nat)
      requires Valid() && child in nodes && |toks| > 0
      ensures i <= |toks| + 1
      ensures i <= |toks| ==> AcceptsBelow(child, m, toks[i..])
      ensures i > |toks| ==> forall j :: 0 <= j <= |toks| ==> !AcceptsBelow(child, m, toks[j..])
      decreases depth - |child.path|, 2
    {
      assert toks[0..] == toks;
      var zero := MatchHelper(child, m, toks);
      if zero {
        return 0;
      }
      i := 1;
      while i <= |toks|
        invariant 1 <= i <= |toks| + 1
        invariant forall j :: 0 <= j < i ==> !AcceptsBelow(child, m, toks[j..])
      {
        var more := MatchHelper(child, m, toks[i..]);
        if more {
          return;
        }
        i := i + 1;
      }
    }

    /** The accepting pattern passes through the given edge of n. */
    ghost predicate AcceptsThrough(n: Node, c: nat, m: TokenMatcher, toks: seq<string>)
      requires c < |n.children|
      reads this, nodes, n
    {
      exists p :: p in language && n.path <= p && n.children[c].node.path <= p && Accepts(m, p[|n.path|..], toks)
    }

    /** Accepting the tokens that a span leaves over, below an edge, accepts the whole list. */
    lemma SpanAccepted(n: Node, c: nat, m: TokenMatcher, toks: seq<string>, i: nat)
      requires Valid() && n in nodes && c < |n.children| && 0 < |toks| && i <= |toks|
      requires n.children[c].token == GLOBSTAR || (i == 1 && m.matches(n.children[c].token, toks[0]))
      requires AcceptsBelow(n.children[c].node, m, toks[i..])
      ensures AcceptsBelow(n, m, toks)
    {
      var child := n.children[c].node;
      assert EdgesLeadOn(n);
      var p :| p in language && child.path <= p && Accepts(m, p[|child.path|..], toks[i..]);
      assert n.path <= p;
      var tail := p[|n.path|..];
      assert tail[0] == n.children[c].token && tail[1..] == p[|child.path|..];
      assert Accepts(m, tail, toks);
    }

    lemma GlobstarExhausted(n: Node, c: nat, m: TokenMatcher, toks: seq<string>)
      requires Valid() && n in nodes && c < |n.children| && 0 < |toks|
      requires n.children[c].token == GLOBSTAR
      requires forall i :: 0 <= i <= |toks| ==> !AcceptsBelow(n.children[c].node, m, toks[i..])
      ensures !AcceptsThrough(n, c, m, toks)
    {
      var child := n.children[c].node;
      assert EdgesLeadOn(n);
      forall p | p in language && n.path <= p && child.path <= p ensures !Accepts(m, p[|n.path|..], toks) {
        var tail := p[|n.path|..];
        assert tail[0] == GLOBSTAR && tail[1..] == p[|child.path|..];
        assert forall i :: 0 <= i <= |toks| ==> !AcceptsBelow(child, m, toks[i..]);
      }
    }

    lemma TokenExhausted(n: Node, c: nat, m: TokenMatcher, toks: seq<string>)
      requires Valid() && n in nodes && c < |n.children| && 0 < |toks|
      requires n.children[c].token != GLOBSTAR
      requires m.matches(n.children[c].token, toks[0]) ==> !AcceptsBelow(n.children[c].node, m, toks[1..])
      ensures !AcceptsThrough(n, c, m, toks)
    {
      var child := n.children[c].node;
      assert EdgesLeadOn(n);
      forall p | p in language && n.path <= p && child.path <= p ensures !Accepts(m, p[|n.path|..], toks) {
        var tail := p[|n.path|..];
        assert tail[0] == n.children[c].token && tail[1..] == p[|child.path|..];
      }
    }

    lemma NothingBelow(n: Node, m: TokenMatcher, toks: seq<string>)
      requires Valid() && n in nodes && |toks| > 0
      requires forall j :: 0 <= j < |n.children| ==> !AcceptsThrough(n, j, m, toks)
      ensures !AcceptsBelow(n, m, toks)
    {
      forall p | p in language && n.path <= p ensures !Accepts(m, p[|n.path|..], toks) {
        if |n.path| < |p| {
          var j := EdgeTowards(n, p);
          assert !AcceptsThrough(n, j, m, toks);
        }
      }
    }

    /** A longer pattern of the language leaves n through one of its edges. */
    lemma EdgeTowards(n: Node, p: Pattern) returns (j: nat)
      requires Valid() && n in nodes && p in language && n.path <= p && |n.path| < |p|
      ensures j < |n.children| && n.children[j].node.path <= p
    {
      var l := |n.path| + 1;
      Ancestor(p, l);
      assert p[..l][..l - 1] == n.path && HasParent(p[..l]);
      assert HasToken(n.children, p[..l][l - 1]);
      var i :| 0 <= i < |n.children| && n.children[i].token == p[..l][l - 1];
      assert EdgesLeadOn(n) && p[..l] == n.path + [n.children[i].token];
      j := i;
    }

    /** Every prefix of a path with a node has a node. */
    lemma {:induction false} Ancestor(p: Pattern, l: nat)
      requires Valid() && p in nodeAt && l <= |p|
      ensures p[..l] in nodeAt
      decreases |p|
    {
      if l == |p| {
        assert p[..l] == p;
      } else {
        assert HasParent(p);
        Ancestor(p[..|p| - 1], l);
        assert p[..|p| - 1][..l] == p[..l];
      }
    }

    /** The tree accepts a token list exactly when one of its patterns does. */
    method Matches(m: TokenMatcher, toks: seq<string>) returns (r: bool)
      requires Valid()
      ensures r <==> AnyAccepts(m, language, toks)
    {
      r := MatchHelper(root, m, toks);
      assert forall p: Pattern :: p[0..] == p;
    }
  }
}
