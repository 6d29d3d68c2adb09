// The fragment closure of GeneratePersistentQueries
// (packages/houdini-core/plugin/documents/persistentQueries.go): a worklist over the spread
// graph, which may be cyclic, and the text stored for an operation.
module PersistedQueries {
  import opened Strings

  type Spreads = map<string, seq<string>>

  function Direct(g: Spreads, name: string): seq<string>
  {
    if name in g then g[name] else []
  }

  /** A walk along spreads that starts at one of the start document's own spreads. */
  ghost predicate IsWalk(g: Spreads, start: string, walk: seq<string>)
  {
    && |walk| > 0 && start in g && walk[0] in g[start]
    && forall k :: 0 <= k < |walk| - 1 ==> walk[k] in g && walk[k + 1] in g[walk[k]]
  }

  ghost predicate Reachable(g: Spreads, start: string, name: string)
  {
    exists walk :: IsWalk(g, start, walk) && walk[|walk| - 1] == name
  }

  lemma ReachableStep(g: Spreads, start: string, a: string, b: string)
    requires Reachable(g, start, a) && b in Direct(g, a)
    ensures Reachable(g, start, b)
  {
    var walk :| IsWalk(g, start, walk) && walk[|walk| - 1] == a;
    var longer := walk + [b];
    assert forall k :: 0 <= k < |longer| - 1 ==> longer[k] in g && longer[k + 1] in g[longer[k]];
    assert IsWalk(g, start, longer) && longer[|longer| - 1] == b;
  }

  /** All names a spread mentions. */
  function Names(g: Spreads): set<string>
  {
    set a, n | a in g && n in g[a] :: n
  }

  /** Nothing in the worklist or already seen is unreachable. */
  ghost predicate Sound(g: Spreads, start: string, seen: set<string>, queue: seq<string>)
  {
    && (forall n :: n in queue ==> n in Names(g) && Reachable(g, start, n))
    && (forall n :: n in seen ==> n in Names(g) && Reachable(g, start, n))
  }

  /** Whatever a seen name or the start leads to is seen or waits in the worklist. */
  ghost predicate Covered(g: Spreads, start: string, seen: set<string>, queue: seq<string>)
  {
    && (forall n :: n in Direct(g, start) ==> n in seen || n in queue)
    && (forall a :: a in seen ==> forall b :: b in Direct(g, a) ==> b in seen || b in queue)
  }

  lemma VisitKeeps(g: Spreads, start: string, seen: set<string>, queue: seq<string>)
    requires |queue| > 0 && Sound(g, start, seen, queue) && Covered(g, start, seen, queue)
    ensures Sound(g, start, seen + {queue[0]}, queue[1..] + Direct(g, queue[0]))
    ensures Covered(g, start, seen + {queue[0]}, queue[1..] + Direct(g, queue[0]))
  {
    var name, rest := queue[0], queue[1..] + Direct(g, queue[0]);
    assert forall n :: n in queue ==> n == name || n in rest;
    forall n | n in Direct(g, name) ensures Reachable(g, start, n) && n in Names(g) {
      ReachableStep(g, start, name, n);
    }
  }

  lemma SkipKeeps(g: Spreads, start: string, seen: set<string>, queue: seq<string>)
    requires |queue| > 0 && queue[0] in seen && Sound(g, start, seen, queue) && Covered(g, start, seen, queue)
    ensures Sound(g, start, seen, queue[1..]) && Covered(g, start, seen, queue[1..])
  {
    assert forall n :: n in queue ==> n == queue[0] || n in queue[1..];
  }

  /** The worklist: seen ends up as exactly the names reachable from the operation. */
  method Closure(g: Spreads, start: string) returns (seen: set<string>)
    ensures forall n :: n in seen <==> Reachable(g, start, n)
  {
    seen := {};
    var queue := Direct(g, start);
    forall n | n in queue ensures Reachable(g, start, n) {
      assert IsWalk(g, start, [n]);
    }
    while |queue| > 0
      invariant Sound(g, start, seen, queue) && Covered(g, start, seen, queue)
      decreases Names(g) - seen, |queue|
    {
      var name := queue[0];
      if name in seen {
        SkipKeeps(g, start, seen, queue);
        queue := queue[1..];
        continue;
      }
      VisitKeeps(g, start, seen, queue);
      assert name in Names(g) - seen;
      queue := queue[1..];
      seen := seen + {name};
      queue := queue + Direct(g, name);
    }
    forall n | Reachable(g, start, n) ensures n in seen {
      var walk :| IsWalk(g, start, walk) && walk[|walk| - 1] == n;
      WalkStays(g, start, walk, |walk| - 1, seen);
    }
  }

  /** A set that holds the start's spreads and is closed under spreads holds every walk. */
  lemma {:induction false} WalkStays(g: Spreads, start: string, walk: seq<string>, k: nat, seen: set<string>)
    requires IsWalk(g, start, walk) && k < |walk|
    requires forall n :: n in Direct(g, start) ==> n in seen
    requires forall a, b :: a in seen && b in Direct(g, a) ==> b in seen
    ensures walk[k] in seen
  {
    if k > 0 {
      WalkStays(g, start, walk, k - 1, seen);
      assert walk[k - 1 + 1] in Direct(g, walk[k - 1]);
    }
  }

  /** order lists exactly the known fragments reachable from start, none twice. */
  ghost predicate ListsReachable(g: Spreads, start: string, printed: map<string, string>, order: seq<string>)
  {
    && (forall i, j :: 0 <= i < j < |order| ==> order[i] != order[j])
    && (forall n :: n in order <==> n in printed && Reachable(g, start, n))
  }

  function Prints(printed: map<string, string>, order: seq<string>): seq<string>
    requires forall n :: n in order ==> n in printed
  {
    seq(|order|, k requires 0 <= k < |order| => assert order[k] in order; printed[order[k]])
  }

  const SEPARATOR: string := ['\n', '\n']

  /** The text stored for an operation: its own print and, in some order, the print of every
      known fragment it depends on, each exactly once and nothing else. */
  method CompleteText(g: Spreads, id: string, own: string, printed: map<string, string>) returns (text: string)
    ensures exists order :: ListsReachable(g, id, printed, order) && text == Join([own] + Prints(printed, order), SEPARATOR)
  {
    var seen := Closure(g, id);
    var definitions: seq<string> := [];
    ghost var order: seq<string> := [];
    var todo := seen;
    while todo != {}
      invariant todo <= seen
      invariant forall n :: n in order <==> n in printed && n in seen && n !in todo
      invariant forall i, j :: 0 <= i < j < |order| ==> order[i] != order[j]
      invariant definitions == Prints(printed, order)
    {
      var name :| name in todo;
      if name in printed {
        ghost var longer := order + [name];
        assert forall k :: 0 <= k < |order| ==> longer[k] == order[k];
        assert longer[|order|] == name;
        definitions := definitions + [printed[name]];
        order := longer;
      }
      todo := todo - {name};
    }
    text := own;
    if |definitions| > 0 {
      text := text + SEPARATOR + Join(definitions, SEPARATOR);
    }
    assert ([own] + definitions)[1..] == definitions;
    assert ListsReachable(g, id, printed, order);
  }
}
