// Route patterns: the segments of a page URL, what they match, and what the captures read back
// (packages/houdini-react/plugin/runtime.go, packages/houdini/src/router/match.ts).
module RoutePatterns {
  import opened Wrappers
  import opened Strings
  import opened Hrefs

  // ---------------------------------------------------------------------------
  // Matching a path, with the priorities of the regular expression
  // ---------------------------------------------------------------------------

  type Captures = seq<Option<string>>

  /** How many characters the class [^/] can take. */
  function Run(s: string): (n: nat)
    ensures n <= |s| && forall i :: 0 <= i < n ==> s[i] != '/'
  {
    if s == [] || s[0] == '/' then 0 else 1 + Run(s[1..])
  }

  predicate LineEnd(c: char) { c in {'\n', '\r', '\U{2028}', '\U{2029}'} }

  /** How many characters the dot can take. */
  function DotRun(s: string): (n: nat)
    ensures n <= |s|
  {
    if s == [] || LineEnd(s[0]) then 0 else 1 + DotRun(s[1..])
  }

  function Captured(c: Option<string>, rest: Option<Captures>): Option<Captures>
  {
    if rest.Some? then Some([c] + rest.value) else None
  }

  /** The pattern of a route without its root case: a literal and [name] need their segment,
      [[name]] and [...name] may be left out, and a slash may follow. */
  function Match(route: seq<Segment>, s: string): Option<Captures>
    decreases |route|, 0, 0
  {
    if route == [] then (if s == [] || s == ['/'] then Some([]) else None)
    else
      var rest := route[1..];
      var slash := s != [] && s[0] == '/';
      match route[0]
      case Literal(t) => if ['/'] + t <= s then Match(rest, s[1 + |t|..]) else None
      case Param(_) => if slash then Lazy(rest, s[1..], 1) else None
      case Optional(_) =>
        var taken := if slash then Greedy(rest, s[1..], Run(s[1..]), 1) else None;
        if taken.Some? then taken else Captured(None, Match(rest, s))
      case Rest(_) =>
        var taken := if slash then Greedy(rest, s[1..], DotRun(s[1..]), 0) else None;
        if taken.Some? then taken else Captured(None, Match(rest, s))
  }

  /** Takes as few characters as possible, and at least k. */
  function Lazy(route: seq<Segment>, s: string, k: nat): Option<Captures>
    decreases |route|, 1, |s| - k
  {
    if k > Run(s) then None
    else
      var m := Match(route, s[k..]);
      if m.Some? then Captured(Some(s[..k]), m) else Lazy(route, s, k + 1)
  }

  /** Takes as many characters as possible, from k down to least. */
  function Greedy(route: seq<Segment>, s: string, k: int, least: nat): Option<Captures>
    requires k <= |s|
    decreases |route|, 1, k
  {
    if k < least then None
    else
      var m := Match(route, s[k..]);
      if m.Some? then Captured(Some(s[..k]), m) else Greedy(route, s, k - 1, least)
  }

  // ---------------------------------------------------------------------------
  // What the expression matches, whatever it tries first
  // ---------------------------------------------------------------------------

  /** No character the dot leaves out: section 12.3 of ECMA-262. */
  ghost predicate OneLine(v: string)
  {
    forall i :: 0 <= i < |v| ==> v[i] as int !in {0x0A, 0x0D, 0x2028, 0x2029}
  }

  /** The text can be cut into pieces for the segments: [name] takes one or more characters other than
      a slash, [[name]] those or nothing, [...name] any on one line or nothing, each behind its slash. */
  ghost predicate InLanguage(route: seq<Segment>, s: string)
    decreases |route|, 0
  {
    if route == [] then s == [] || s == ['/']
    else
      var rest, v := route[1..], if s == [] then [] else s[1..];
      match route[0]
      case Literal(t) => ['/'] + t <= s && InLanguage(rest, s[1 + |t|..])
      case Param(_) => ['/'] <= s && WordFirst(rest, v)
      case Optional(_) => InLanguage(rest, s) || (['/'] <= s && WordFirst(rest, v))
      case Rest(_) => InLanguage(rest, s) || (['/'] <= s && LineFirst(rest, v))
  }

  ghost predicate WordFirst(route: seq<Segment>, v: string)
    decreases |route|, 1
  {
    exists k :: 1 <= k <= |v| && '/' !in v[..k] && InLanguage(route, v[k..])
  }

  ghost predicate LineFirst(route: seq<Segment>, v: string)
    decreases |route|, 1
  {
    exists k :: 0 <= k <= |v| && OneLine(v[..k]) && InLanguage(route, v[k..])
  }

  /** One of these places leaves something the rest of the route matches. */
  ghost predicate SomeCut(route: seq<Segment>, v: string, least: nat, most: int)
    requires most <= |v|
  {
    exists k :: least <= k <= most && Match(route, v[k..]).Some?
  }

  lemma {:induction false} RunIs(v: string, k: nat)
    requires k <= |v|
    ensures k <= Run(v) <==> '/' !in v[..k]
  {
    if k > 0 {
      RunIs(v[1..], k - 1);
      assert v[..k] == [v[0]] + v[1..][..k - 1];
    }
  }

  lemma {:induction false} DotRunIs(v: string, k: nat)
    requires k <= |v|
    ensures k <= DotRun(v) <==> OneLine(v[..k])
  {
    if k > 0 {
      DotRunIs(v[1..], k - 1);
      var rest := v[1..][..k - 1];
      assert v[..k] == [v[0]] + rest;
      assert OneLine([v[0]] + rest) <==> !LineEnd(v[0]) && OneLine(rest) by { OneLineCons(v[0], rest); }
    }
  }

  lemma OneLineCons(c: char, v: string)
    ensures OneLine([c] + v) <==> !LineEnd(c) && OneLine(v)
  {
    var all := [c] + v;
    assert all[0] == c && forall i :: 0 <= i < |v| ==> all[i + 1] == v[i];
    if OneLine(all) {
      forall i | 0 <= i < |v| ensures v[i] as int !in {0x0A, 0x0D, 0x2028, 0x2029} { assert all[i + 1] == v[i]; }
    }
    if !LineEnd(c) && OneLine(v) {
      forall i | 0 <= i < |all| ensures all[i] as int !in {0x0A, 0x0D, 0x2028, 0x2029} { assert i > 0 ==> all[i] == v[i - 1]; }
    }
  }

  lemma {:induction false} LazyFindsAny(route: seq<Segment>, s: string, k: nat)
    ensures Lazy(route, s, k).Some? <==> SomeCut(route, s, k, Run(s))
    decreases |s| - k
  {
    if k <= Run(s) && Match(route, s[k..]).None? { LazyFindsAny(route, s, k + 1); }
  }

  lemma {:induction false} GreedyFindsAny(route: seq<Segment>, s: string, k: int, least: nat)
    requires k <= |s|
    ensures Greedy(route, s, k, least).Some? <==> SomeCut(route, s, least, k)
    decreases k
  {
    if k >= least && Match(route, s[k..]).None? { GreedyFindsAny(route, s, k - 1, least); }
  }

  /** The lazy repetition stops at the first place from which the rest matches. */
  lemma {:induction false} LazyStopsFirst(route: seq<Segment>, s: string, k: nat, j: nat)
    requires k <= j <= Run(s) && Match(route, s[j..]).Some? && forall i :: k <= i < j ==> Match(route, s[i..]).None?
    ensures Lazy(route, s, k) == Some([Some(s[..j])] + Match(route, s[j..]).value)
    decreases j - k
  {
    if k < j { LazyStopsFirst(route, s, k + 1, j); }
  }

  /** The greedy one at the last. */
  lemma {:induction false} GreedyStopsLast(route: seq<Segment>, s: string, k: int, least: nat, j: nat)
    requires least <= j <= k <= |s| && Match(route, s[j..]).Some? && forall i :: j < i <= k ==> Match(route, s[i..]).None?
    ensures Greedy(route, s, k, least) == Some([Some(s[..j])] + Match(route, s[j..]).value)
    decreases k
  {
    if j < k { GreedyStopsLast(route, s, k - 1, least, j); }
  }

  /** Trying alternatives in order and going back finds a match exactly if there is one, for every
      route, a rest segment in the middle included. */
  lemma {:induction false} MatchesExactly(route: seq<Segment>, s: string)
    ensures Match(route, s).Some? <==> InLanguage(route, s)
    decreases |route|
  {
    if route != [] {
      var rest := route[1..];
      hide WordFirst, LineFirst, SomeCut;
      if route[0].Literal? {
        if ['/'] + route[0].text <= s { MatchesExactly(rest, s[1 + |route[0].text|..]); }
      } else {
        MatchesExactly(rest, s);
        if ['/'] <= s {
          var v := s[1..];
          forall k | 0 <= k <= |v| ensures Match(rest, v[k..]).Some? <==> InLanguage(rest, v[k..]) {
            MatchesExactly(rest, v[k..]);
          }
          PicksAny(route, s);
          WordCut(rest, v);
          LineCut(rest, v);
        }
      }
    }
  }

  lemma PicksAny(route: seq<Segment>, s: string)
    requires route != [] && ['/'] <= s && !route[0].Literal?
    ensures var rest, v := route[1..], s[1..];
            Match(route, s).Some? <==>
            || (!route[0].Param? && Match(rest, s).Some?)
            || (!route[0].Rest? && SomeCut(rest, v, 1, Run(v)))
            || (route[0].Rest? && SomeCut(rest, v, 0, DotRun(v)))
  {
    hide SomeCut;
    var rest, v := route[1..], s[1..];
    LazyFindsAny(rest, v, 1);
    GreedyFindsAny(rest, v, Run(v), 1);
    GreedyFindsAny(rest, v, DotRun(v), 0);
  }

  lemma WordCut(route: seq<Segment>, v: string)
    requires forall k :: 0 <= k <= |v| ==> (Match(route, v[k..]).Some? <==> InLanguage(route, v[k..]))
    ensures SomeCut(route, v, 1, Run(v)) <==> WordFirst(route, v)
  {
    hide Match, InLanguage, Run;
    forall k | 0 <= k <= |v| ensures k <= Run(v) <==> '/' !in v[..k] { RunIs(v, k); }
  }

  lemma LineCut(route: seq<Segment>, v: string)
    requires forall k :: 0 <= k <= |v| ==> (Match(route, v[k..]).Some? <==> InLanguage(route, v[k..]))
    ensures SomeCut(route, v, 0, DotRun(v)) <==> LineFirst(route, v)
  {
    hide Match, InLanguage, DotRun, OneLine;
    forall k | 0 <= k <= |v| ensures k <= DotRun(v) <==> OneLine(v[..k]) { DotRunIs(v, k); }
  }

  // ---------------------------------------------------------------------------
  // Reading parameters back
  // ---------------------------------------------------------------------------

  /** Nothing matches in the middle of a segment. */
  lemma {:induction false} OnlyAtSlash(route: seq<Segment>, s: string)
    requires s != [] && s[0] != '/'
    ensures Match(route, s).None?
  {
    if route != [] {
      OnlyAtSlash(route[1..], s);
    }
  }

  lemma {:induction false} RunOver(v: string, rest: string)
    requires '/' !in v && Starts(rest)
    ensures Run(v + rest) == |v|
  {
    if v == [] {
      assert v + rest == rest;
    } else {
      assert (v + rest)[1..] == v[1..] + rest;
      RunOver(v[1..], rest);
    }
  }

  lemma {:induction false} LazyFinds(route: seq<Segment>, v: string, rest: string, k: nat)
    requires '/' !in v && Starts(rest) && 1 <= k <= |v| && Match(route, rest).Some?
    ensures Lazy(route, v + rest, k) == Captured(Some(v), Match(route, rest))
    decreases |v| - k
  {
    RunOver(v, rest);
    if k == |v| {
      assert (v + rest)[k..] == rest && (v + rest)[..k] == v;
    } else {
      OnlyAtSlash(route, (v + rest)[k..]);
      LazyFinds(route, v, rest, k + 1);
    }
  }

  predicate Fixed(s: Segment) { s.Param? || (s.Literal? && '/' !in s.text) }

  ghost predicate AllFixed(route: seq<Segment>) { forall i :: 0 <= i < |route| ==> Fixed(route[i]) }

  /** What a segment of the pattern should capture. */
  function Reads(s: Segment, params: Params): Captures
  {
    match s
    case Literal(_) => []
    case Param(n) => [if n in params then Some(params[n]) else None]
    case Optional(n) => [if n in params then Some(params[n]) else None]
    case Rest(n) => [Some(if n in params then params[n] else [])]
  }

  function ReadsAll(route: seq<Segment>, params: Params): Captures
  {
    if route == [] then [] else Reads(route[0], params) + ReadsAll(route[1..], params)
  }

  /** The values a segment takes: none missing, and no slash outside a rest value. */
  predicate Suits(s: Segment, params: Params)
  {
    match s
    case Literal(t) => '/' !in t
    case Param(n) => n in params && params[n] != [] && '/' !in params[n]
    case Optional(n) => n in params ==> params[n] != [] && '/' !in params[n]
    case Rest(n) => n in params ==> forall i :: 0 <= i < |params[n]| ==> !LineEnd(params[n][i])
  }

  ghost predicate AllSuit(route: seq<Segment>, params: Params) { forall i :: 0 <= i < |route| ==> Suits(route[i], params) }

  /** The router takes a rest segment last. */
  ghost predicate RestLast(route: seq<Segment>)
  {
    forall i :: 0 <= i < |route| && route[i].Rest? ==> i == |route| - 1
  }

  lemma Below(route: seq<Segment>, params: Params)
    requires route != [] && RestLast(route) && AllSuit(route, params)
    ensures RestLast(route[1..]) && AllSuit(route[1..], params)
    ensures route[0].Rest? ==> route == [route[0]]
  {
    assert forall i :: 0 <= i < |route| - 1 ==> route[1..][i] == route[i + 1];
  }

  /** The filled text of one fixed or present segment. */
  lemma FilledText(s: Segment, route: seq<Segment>, params: Params)
    requires route != [] && s == route[0]
    ensures Text(FillAll(route, params)) ==
            (if s.Optional? && s.name !in params then [] else ['/'] + Show(Filled(s, params)[0])) +
            Text(FillAll(route[1..], params))
  {
    var rest := FillAll(route[1..], params);
    if s.Optional? && s.name !in params {
      assert [] + rest == rest;
    } else {
      TextCons(Filled(s, params)[0], rest);
    }
  }

  lemma LiteralTakes(t: string, route: seq<Segment>, tail: string)
    requires route != [] && route[0] == Literal(t) && Match(route[1..], tail).Some?
    ensures Match(route, ['/'] + t + tail) == Match(route[1..], tail)
  {
    var text := ['/'] + t + tail;
    assert text[..1 + |t|] == ['/'] + t && text[1 + |t|..] == tail;
  }

  lemma ParamTakes(v: string, route: seq<Segment>, tail: string)
    requires route != [] && route[0].Param? && Match(route[1..], tail).Some?
    requires v != [] && '/' !in v && Starts(tail)
    ensures Match(route, ['/'] + v + tail) == Captured(Some(v), Match(route[1..], tail))
  {
    assert (['/'] + v + tail)[1..] == v + tail;
    LazyFinds(route[1..], v, tail, 1);
  }

  lemma OptionalTakes(v: string, route: seq<Segment>, tail: string)
    requires route != [] && route[0].Optional? && Match(route[1..], tail).Some?
    requires v != [] && '/' !in v && Starts(tail)
    ensures Match(route, ['/'] + v + tail) == Captured(Some(v), Match(route[1..], tail))
  {
    assert (['/'] + v + tail)[1..] == v + tail;
    RunOver(v, tail);
    assert (v + tail)[|v|..] == tail && (v + tail)[..|v|] == v;
  }

  /** A literal, a parameter or a present optional parameter takes its value and leaves the rest. */
  lemma TakesValue(s: Segment, route: seq<Segment>, params: Params, tail: string)
    requires route != [] && s == route[0] && Suits(s, params) && Starts(tail) && Match(route[1..], tail).Some?
    requires s.Literal? || s.Param? || (s.Optional? && s.name in params)
    ensures Match(route, ['/'] + Show(Filled(s, params)[0]) + tail) ==
            Some(Reads(s, params) + Match(route[1..], tail).value)
  {
    match s
    case Literal(t) =>
      LiteralTakes(t, route, tail);
      assert [] + Match(route[1..], tail).value == Match(route[1..], tail).value;
    case Param(n) => ParamTakes(params[n], route, tail);
    case Optional(n) => OptionalTakes(params[n], route, tail);
  }

  lemma {:induction false} DotRunAll(v: string)
    requires forall i :: 0 <= i < |v| ==> !LineEnd(v[i])
    ensures DotRun(v) == |v|
  {
    if v != [] { DotRunAll(v[1..]); }
  }

  lemma RestTakesAll(n: string, v: string)
    requires forall i :: 0 <= i < |v| ==> !LineEnd(v[i])
    ensures Match([Rest(n)], ['/'] + v) == Some([Some(v)])
  {
    var route: seq<Segment> := [];
    assert [Rest(n)][1..] == route && (['/'] + v)[1..] == v;
    DotRunAll(v);
    GreedyWhole(v);
  }

  lemma GreedyWhole(v: string)
    ensures Greedy([], v, |v|, 0) == Some([Some(v)])
  {
    assert v[|v|..] == [] && v[..|v|] == v;
    var none: Captures := [];
    assert Match([], []) == Some(none) && [Some(v)] + none == [Some(v)];
  }

  // ---------------------------------------------------------------------------
  // Which lists of segments a pattern matches
  // ---------------------------------------------------------------------------

  function Path(ws: seq<string>): string
  {
    if ws == [] then [] else ['/'] + ws[0] + Path(ws[1..])
  }

  ghost predicate NoLineEnd(v: string) { forall i :: 0 <= i < |v| ==> !LineEnd(v[i]) }

  predicate Takes(s: Segment, w: string)
  {
    match s
    case Literal(t) => w == t
    case Param(_) => w != []
    case Optional(_) => w != []
    case Rest(_) => false
  }

  /** Each segment of the pattern takes one of the list, an optional one possibly none, and a rest
      segment whatever is left; one empty segment may be over. */
  ghost predicate Fits(route: seq<Segment>, ws: seq<string>)
    decreases |route|
  {
    if route == [] then ws == [] || ws == [""]
    else if route[0].Rest? then NoLineEnd(Path(ws))
    else
      (ws != [] && Takes(route[0], ws[0]) && Fits(route[1..], ws[1..])) || (route[0].Optional? && Fits(route[1..], ws))
  }

  lemma PathStarts(ws: seq<string>)
    ensures Starts(Path(ws))
  {}

  lemma PathCons(w: string, ws: seq<string>)
    ensures Path([w] + ws) == ['/'] + w + Path(ws)
  {
    assert ([w] + ws)[1..] == ws;
  }

  lemma LazyFits(route: seq<Segment>, v: string, rest: string)
    requires '/' !in v && Starts(rest)
    ensures Lazy(route, v + rest, 1).Some? <==> v != [] && Match(route, rest).Some?
  {
    RunOver(v, rest);
    if v != [] {
      if Match(route, rest).Some? { LazyFinds(route, v, rest, 1); } else { LazyMisses(route, v, rest, 1); }
    }
  }

  lemma {:induction false} LazyMisses(route: seq<Segment>, v: string, rest: string, k: nat)
    requires '/' !in v && Starts(rest) && 1 <= k && Match(route, rest).None?
    ensures Lazy(route, v + rest, k).None?
    decreases |v + rest| - k
  {
    RunOver(v, rest);
    if k <= |v| {
      if k < |v| { OnlyAtSlash(route, (v + rest)[k..]); } else { assert (v + rest)[k..] == rest; }
      LazyMisses(route, v, rest, k + 1);
    }
  }

  lemma {:induction false} GreedyMisses(route: seq<Segment>, v: string, rest: string, k: int)
    requires '/' !in v && Starts(rest) && k <= |v| && (k == |v| ==> Match(route, rest).None?)
    ensures Greedy(route, v + rest, k, 1).None?
    decreases k
  {
    if k >= 1 {
      if k < |v| { OnlyAtSlash(route, (v + rest)[k..]); } else { assert (v + rest)[k..] == rest; }
      GreedyMisses(route, v, rest, k - 1);
    }
  }

  /** An optional segment takes the first segment whole if what is left still matches. */
  lemma GreedyFits(route: seq<Segment>, v: string, rest: string)
    requires '/' !in v && Starts(rest)
    ensures Greedy(route, v + rest, Run(v + rest), 1) ==
            if v != [] && Match(route, rest).Some? then Captured(Some(v), Match(route, rest)) else None
  {
    RunOver(v, rest);
    if v != [] {
      if Match(route, rest).Some? {
        assert (v + rest)[|v|..] == rest && (v + rest)[..|v|] == v;
      } else {
        GreedyMisses(route, v, rest, |v|);
      }
    }
  }

  lemma {:induction false} RunAtLeast(t: string, s: string)
    requires '/' !in t && t <= s
    ensures |t| <= Run(s)
  {
    if t != [] { RunAtLeast(t[1..], s[1..]); }
  }

  lemma LiteralFits(t: string, route: seq<Segment>, w: string, rest: string)
    requires '/' !in t && '/' !in w && Starts(rest)
    ensures var s := ['/'] + w + rest;
            (['/'] + t <= s && Match(route, s[1 + |t|..]).Some?) <==> w == t && Match(route, rest).Some?
  {
    var s := ['/'] + w + rest;
    if w == t { assert s[..1 + |t|] == ['/'] + t; }
    if ['/'] + t <= s {
      assert forall i :: 0 <= i < |t| ==> (w + rest)[i] == s[1 + i] == (['/'] + t)[1 + i];
      RunAtLeast(t, w + rest);
      RunOver(w, rest);
      if |t| < |w| {
        assert s[1 + |t|..][0] == w[|t|];
        OnlyAtSlash(route, s[1 + |t|..]);
      } else {
        assert t == w && s[1 + |t|..] == rest;
      }
    }
  }

  lemma {:induction false} DotRunStops(v: string)
    ensures DotRun(v) < |v| ==> LineEnd(v[DotRun(v)])
    ensures forall i :: 0 <= i < DotRun(v) ==> !LineEnd(v[i])
  {
    if v != [] && !LineEnd(v[0]) { DotRunStops(v[1..]); }
  }

  lemma {:induction false} RestMisses(v: string, k: int)
    requires k <= DotRun(v) < |v|
    ensures Greedy([], v, k, 0).None?
    decreases k + 1
  {
    DotRunStops(v);
    if k >= 0 {
      assert v[k..][DotRun(v) - k] == v[DotRun(v)];
      RestMisses(v, k - 1);
    }
  }

  lemma RestFits(n: string, ws: seq<string>)
    ensures Match([Rest(n)], Path(ws)).Some? <==> NoLineEnd(Path(ws))
  {
    if ws != [] {
      var v := Path(ws)[1..];
      assert Path(ws) == ['/'] + v && [Rest(n)][1..] == [];
      DotRunStops(v);
      if NoLineEnd(Path(ws)) {
        assert forall i :: 0 <= i < |v| ==> v[i] == Path(ws)[i + 1];
        RestTakesAll(n, v);
      } else {
        var i :| 0 <= i < |Path(ws)| && LineEnd(Path(ws)[i]);
        assert LineEnd(v[i - 1]);
        RestMisses(v, DotRun(v));
      }
    }
  }

  /** The regular expression matches a path exactly if its pattern fits the list of segments. */
  lemma {:induction false} MatchFits(route: seq<Segment>, ws: seq<string>)
    requires RestLast(route) && forall i :: 0 <= i < |route| && route[i].Literal? ==> '/' !in route[i].text
    requires forall k :: 0 <= k < |ws| ==> '/' !in ws[k]
    ensures Match(route, Path(ws)).Some? <==> Fits(route, ws)
    decreases |route|
  {
    if route == [] {
      NothingFits(ws);
    } else if route[0].Rest? {
      assert route == [route[0]];
      RestFits(route[0].name, ws);
    } else {
      assert forall i :: 0 <= i < |route| - 1 ==> route[1..][i] == route[i + 1];
      if route[0].Optional? { MatchFits(route[1..], ws); }
      if ws != [] {
        MatchFits(route[1..], ws[1..]);
        FirstFits(route, ws[0], Path(ws[1..]));
        PathStarts(ws[1..]);
      }
    }
  }

  lemma NothingFits(ws: seq<string>)
    ensures Match([], Path(ws)).Some? <==> ws == [] || ws == [""]
  {
    if |ws| > 1 {
      assert |Path(ws[1..])| > 0;
    } else if |ws| == 1 {
      assert ws == [ws[0]] && Path(ws[1..]) == [];
    }
  }

  /** One step of the pattern in front of a segment. */
  lemma FirstFits(route: seq<Segment>, w: string, rest: string)
    requires route != [] && !route[0].Rest? && (route[0].Literal? ==> '/' !in route[0].text)
    requires '/' !in w && Starts(rest)
    ensures Match(route, ['/'] + w + rest).Some? <==>
            (Takes(route[0], w) && Match(route[1..], rest).Some?) ||
            (route[0].Optional? && Match(route[1..], ['/'] + w + rest).Some?)
  {
    var s := ['/'] + w + rest;
    assert s[1..] == w + rest;
    match route[0]
    case Literal(t) => LiteralFits(t, route[1..], w, rest);
    case Param(_) => LazyFits(route[1..], w, rest);
    case Optional(_) => GreedyFits(route[1..], w, rest);
  }

  // ---------------------------------------------------------------------------
  // When a filled URL reads back
  // ---------------------------------------------------------------------------

  /** The segments of the filled URL. */
  function Values(route: seq<Segment>, params: Params): seq<string>
  {
    if route == [] then [] else ValuesOf(route[0], params) + Values(route[1..], params)
  }

  function ValuesOf(s: Segment, params: Params): seq<string>
  {
    match s
    case Literal(t) => [t]
    case Param(n) => [if n in params then params[n] else n]
    case Optional(n) => if n in params then [params[n]] else []
    case Rest(n) => Split(if n in params then params[n] else [], '/')
  }

  lemma {:induction false} PathOfJoined(ws: seq<string>)
    requires ws != []
    ensures Path(ws) == ['/'] + Join(ws, ['/'])
  {
    if |ws| == 1 {
      assert Path(ws[1..]) == [] && ['/'] + ws[0] + [] == ['/'] + ws[0];
    } else {
      PathOfJoined(ws[1..]);
      assert ['/'] + ws[0] + (['/'] + Join(ws[1..], ['/'])) == ['/'] + (ws[0] + ['/'] + Join(ws[1..], ['/']));
    }
  }

  lemma RestPath(v: string)
    ensures Path(Split(v, '/')) == ['/'] + v && forall k :: 0 <= k < |Split(v, '/')| ==> '/' !in Split(v, '/')[k]
  {
    SplitJoin(v, '/');
    PathOfJoined(Split(v, '/'));
  }

  /** What one segment contributes to the filled URL. */
  function OwnText(s: Segment, params: Params): string { Text(Filled(s, params)) }

  lemma OwnPath(s: Segment, params: Params)
    requires Suits(s, params)
    ensures Path(ValuesOf(s, params)) == OwnText(s, params)
    ensures forall k :: 0 <= k < |ValuesOf(s, params)| ==> '/' !in ValuesOf(s, params)[k]
  {
    match s
    case Rest(n) =>
      var v := if n in params then params[n] else [];
      RestPath(v);
      TextCons(Literal(v), []);
      assert ['/'] + v + [] == ['/'] + v && [Literal(v)] + [] == [Literal(v)];
    case _ =>
      if ValuesOf(s, params) != [] {
        var w := ValuesOf(s, params)[0];
        TextCons(Literal(w), []);
        PathCons(w, []);
        assert [w] + [] == [w] && [Literal(w)] + [] == [Literal(w)] && Filled(s, params)[0] == Literal(w);
      }
  }

  lemma {:induction false} PathConcat(a: seq<string>, b: seq<string>)
    ensures Path(a + b) == Path(a) + Path(b)
  {
    if a == [] {
      assert a + b == b;
    } else {
      assert (a + b)[1..] == a[1..] + b;
      PathConcat(a[1..], b);
    }
  }

  lemma FilledOwn(route: seq<Segment>, params: Params)
    requires route != []
    ensures Text(FillAll(route, params)) == OwnText(route[0], params) + Text(FillAll(route[1..], params))
  {
    var rest := FillAll(route[1..], params);
    if Filled(route[0], params) == [] {
      assert [] + rest == rest && [] + Text(rest) == Text(rest);
    } else {
      var x := Filled(route[0], params)[0];
      assert Filled(route[0], params) == [x];
      TextCons(x, rest);
      TextCons(x, []);
      assert [x] + [] == [x] && ['/'] + Show(x) + [] == ['/'] + Show(x);
    }
  }

  lemma {:induction false} PathOfValues(route: seq<Segment>, params: Params)
    requires AllSuit(route, params)
    ensures Path(Values(route, params)) == Text(FillAll(route, params))
    ensures forall k :: 0 <= k < |Values(route, params)| ==> '/' !in Values(route, params)[k]
  {
    if route != [] {
      assert forall i :: 0 <= i < |route| - 1 ==> route[1..][i] == route[i + 1];
      PathOfValues(route[1..], params);
      FilledOwn(route, params);
      OwnPath(route[0], params);
      PathConcat(ValuesOf(route[0], params), Values(route[1..], params));
    }
  }

  /** The filled URL matches the route's pattern in any case. */
  lemma {:induction false} OwnValuesFit(route: seq<Segment>, params: Params)
    requires RestLast(route) && AllSuit(route, params)
    ensures Fits(route, Values(route, params))
  {
    if route != [] {
      var s := route[0];
      Below(route, params);
      if s.Rest? {
        var v := if s.name in params then params[s.name] else [];
        RestPath(v);
        assert Values(route, params) == Split(v, '/') + [] == Split(v, '/');
      } else {
        OwnValuesFit(route[1..], params);
        var ws := Values(route, params);
        assert ValuesOf(s, params) != [] ==> ws[0] == ValuesOf(s, params)[0] && ws[1..] == Values(route[1..], params);
        assert ValuesOf(s, params) == [] ==> ws == Values(route[1..], params);
      }
    }
  }

  predicate LeftOut(s: Segment, params: Params) { s.Optional? && s.name !in params }

  /** A left-out optional segment takes a value meant for a segment behind it: without its first
      segment what follows still fits the pattern behind. */
  ghost predicate Grabs(route: seq<Segment>, params: Params)
    requires route != []
  {
    var ws := Values(route[1..], params);
    LeftOut(route[0], params) && ws != [] && ws[0] != [] && Fits(route[1..], ws[1..])
  }

  ghost predicate NoneGrabs(route: seq<Segment>, params: Params)
  {
    forall i :: 0 <= i < |route| ==> !Grabs(route[i..], params)
  }

  lemma NoneGrabsBelow(route: seq<Segment>, params: Params)
    requires route != []
    ensures NoneGrabs(route, params) <==> !Grabs(route, params) && NoneGrabs(route[1..], params)
  {
    assert route[0..] == route;
    assert forall i :: 0 <= i < |route| - 1 ==> route[1..][i..] == route[i + 1..];
    if !Grabs(route, params) && NoneGrabs(route[1..], params) {
      forall i | 0 <= i < |route| ensures !Grabs(route[i..], params) {
        assert i > 0 ==> !Grabs(route[1..][i - 1..], params);
      }
    }
    if NoneGrabs(route, params) {
      forall i | 0 <= i < |route| - 1 ensures !Grabs(route[1..][i..], params) {
        assert !Grabs(route[i + 1..], params);
      }
    }
  }

  /** The pattern behind a segment, tried on the values behind it, and on all but the first. */
  lemma BehindFits(route: seq<Segment>, params: Params)
    requires RestLast(route) && AllSuit(route, params)
    ensures var ws, tail := Values(route, params), Text(FillAll(route, params));
            Match(route, tail).Some? && tail == Path(ws) &&
            (ws != [] ==> '/' !in ws[0] && (Match(route, Path(ws[1..])).Some? <==> Fits(route, ws[1..])))
  {
    var ws := Values(route, params);
    PathOfValues(route, params);
    OwnValuesFit(route, params);
    assert forall i :: 0 <= i < |route| ==> Suits(route[i], params);
    MatchFits(route, ws);
    if ws != [] { MatchFits(route, ws[1..]); }
  }

  predicate Begins(m: Option<Captures>, present: bool)
  {
    m.Some? && m.value != [] && m.value[0].Some? == present
  }

  lemma OptionalMatch(route: seq<Segment>, w: string, rest: string)
    requires route != [] && route[0].Optional? && '/' !in w && Starts(rest)
    ensures Match(route, ['/'] + w + rest) ==
            if w != [] && Match(route[1..], rest).Some? then Captured(Some(w), Match(route[1..], rest))
            else Captured(None, Match(route[1..], ['/'] + w + rest))
  {
    assert (['/'] + w + rest)[1..] == w + rest;
    GreedyFits(route[1..], w, rest);
  }

  lemma OptionalAtEnd(route: seq<Segment>)
    requires route != [] && route[0].Optional?
    ensures Match(route, []) == Captured(None, Match(route[1..], []))
  {}

  lemma LeftOutReads(route: seq<Segment>, params: Params)
    requires route != [] && RestLast(route) && AllSuit(route, params) && LeftOut(route[0], params)
    ensures var tail := Text(FillAll(route[1..], params));
            Match(route[1..], tail).Some? &&
            if Grabs(route, params) then Begins(Match(route, tail), true)
            else Match(route, tail) == Some([None] + Match(route[1..], tail).value)
  {
    hide Match, Fits, Values, FillAll, Text;
    var ws := Values(route[1..], params);
    Below(route, params);
    BehindFits(route[1..], params);
    if ws == [] {
      OptionalAtEnd(route);
    } else {
      PathStarts(ws[1..]);
      OptionalMatch(route, ws[0], Path(ws[1..]));
    }
  }

  /** The filled URL of a route, whatever optional and rest segments it has, matches the route's
      pattern; and the captures are the values exactly if no left-out optional segment takes a
      value meant for a segment behind it. */
  lemma {:induction false} ReadsBackExactly(route: seq<Segment>, params: Params)
    requires RestLast(route) && AllSuit(route, params)
    ensures Match(route, Text(FillAll(route, params))).Some?
    ensures Match(route, Text(FillAll(route, params))) == Some(ReadsAll(route, params)) <==> NoneGrabs(route, params)
  {
    if route != [] {
      var s := route[0];
      Below(route, params);
      ReadsBackExactly(route[1..], params);
      NoneGrabsBelow(route, params);
      FilledText(s, route, params);
      var tail := Text(FillAll(route[1..], params));
      TextStarts(FillAll(route[1..], params));
      if s.Rest? {
        RestTakesAll(s.name, Show(Filled(s, params)[0]));
        assert route == [s] && ['/'] + Show(Filled(s, params)[0]) + tail == ['/'] + Show(Filled(s, params)[0]);
        assert ReadsAll(route, params) == Reads(s, params);
      } else if LeftOut(s, params) {
        LeftOutReads(route, params);
        assert [] + tail == tail;
        assert Reads(s, params) == [None];
        SamePrefix([None], Match(route[1..], tail).value, ReadsAll(route[1..], params));
      } else {
        TakesValue(s, route, params, tail);
        SamePrefix(Reads(s, params), Match(route[1..], tail).value, ReadsAll(route[1..], params));
      }
    }
  }

  lemma SamePrefix(a: Captures, b: Captures, c: Captures)
    ensures a + b == a + c <==> b == c
  {
    assert (a + b)[|a|..] == b && (a + c)[|a|..] == c;
  }

  // ---------------------------------------------------------------------------
  // One and two open segments
  // ---------------------------------------------------------------------------

  /** Fixed segments take the first of the list, one each. */
  lemma {:induction false} FixedFits(f: seq<Segment>, g: seq<Segment>, ws: seq<string>)
    requires AllFixed(f)
    ensures Fits(f + g, ws) <==>
            |f| <= |ws| && (forall i :: 0 <= i < |f| ==> Takes(f[i], ws[i])) && Fits(g, ws[|f|..])
    decreases |f|
  {
    if f == [] {
      assert f + g == g && ws[0..] == ws;
    } else {
      assert (f + g)[0] == f[0] && (f + g)[1..] == f[1..] + g && Fixed(f[0]);
      assert AllFixed(f[1..]) by { assert forall i :: 0 <= i < |f| - 1 ==> f[1..][i] == f[i + 1]; }
      if ws != [] {
        FixedFits(f[1..], g, ws[1..]);
        FixedRest(f, g, ws);
      }
    }
  }

  lemma FixedRest(f: seq<Segment>, g: seq<Segment>, ws: seq<string>)
    requires f != [] && ws != []
    ensures (|f| <= |ws| && (forall i :: 0 <= i < |f| ==> Takes(f[i], ws[i])) && Fits(g, ws[|f|..])) <==>
            Takes(f[0], ws[0]) && |f[1..]| <= |ws[1..]| &&
            (forall i :: 0 <= i < |f[1..]| ==> Takes(f[1..][i], ws[1..][i])) && Fits(g, ws[1..][|f[1..]|..])
  {
    if |f| <= |ws| {
      assert ws[1..][|f| - 1..] == ws[|f|..];
      assert forall i :: 0 < i < |f| ==> f[i] == f[1..][i - 1] && ws[i] == ws[1..][i - 1];
    }
  }

  lemma {:induction false} FixedValues(f: seq<Segment>, g: seq<Segment>, params: Params)
    requires AllFixed(f)
    ensures Values(f + g, params) == Values(f, params) + Values(g, params) && |Values(f, params)| == |f|
  {
    if f == [] {
      assert f + g == g;
    } else {
      assert (f + g)[0] == f[0] && (f + g)[1..] == f[1..] + g && Fixed(f[0]);
      FixedValues(f[1..], g, params);
    }
  }

  /** Fixed segments grab nothing. */
  lemma {:induction false} FixedGrabNone(f: seq<Segment>, g: seq<Segment>, params: Params)
    requires AllFixed(f)
    ensures NoneGrabs(f + g, params) <==> NoneGrabs(g, params)
  {
    if f == [] {
      assert f + g == g;
    } else {
      assert (f + g)[0] == f[0] && (f + g)[1..] == f[1..] + g && Fixed(f[0]);
      FixedGrabNone(f[1..], g, params);
      NoneGrabsBelow(f + g, params);
    }
  }

  /** At most one segment is open: all but one are fixed. */
  ghost predicate Shaped(route: seq<Segment>)
  {
    forall i, j :: 0 <= i < j < |route| && !Fixed(route[i]) ==> Fixed(route[j])
  }

  /** With at most one optional or rest segment the captures are always the values. */
  lemma ReadsBack(route: seq<Segment>, params: Params)
    requires RestLast(route) && Shaped(route) && AllSuit(route, params)
    ensures Match(route, Text(FillAll(route, params))) == Some(ReadsAll(route, params))
  {
    forall i | 0 <= i < |route| ensures !Grabs(route[i..], params) {
      var behind := route[i + 1..];
      assert route[i..][0] == route[i] && route[i..][1..] == behind;
      if LeftOut(route[i], params) {
        assert forall j :: 0 <= j < |behind| ==> behind[j] == route[i + 1 + j];
        assert behind + [] == behind && AllFixed(behind);
        FixedValues(behind, [], params);
        if behind != [] { FixedFits(behind, [], Values(behind, params)[1..]); }
      }
    }
    ReadsBackExactly(route, params);
  }

  /** The values behind an optional segment also fit when each moves up by one. */
  ghost predicate Shifts(f: seq<Segment>, ws: seq<string>)
  {
    |ws| > |f| && ws[0] != [] && forall i :: 0 <= i < |f| ==> Takes(f[i], ws[i + 1])
  }

  lemma LastFits(last: Segment, params: Params, ws: seq<string>)
    requires Suits(last, params) && (last.Rest? || last.Optional?) && ValuesOf(last, params) != []
    requires ws == ValuesOf(last, params)[1..]
    ensures Fits([last], ws)
  {
    OwnPath(last, params);
    var all := ValuesOf(last, params);
    if last.Rest? {
      var v := if last.name in params then params[last.name] else [];
      RestPath(v);
      assert forall i :: 0 <= i < |Path(ws)| ==> Path(ws)[i] == Path(all)[1 + |all[0]| + i];
    } else {
      assert ws == [] && [last][1..] == [];
    }
  }

  lemma OptionalGrabs(o: string, f: seq<Segment>, last: Segment, params: Params)
    requires AllFixed(f) && (last.Rest? || last.Optional?) && Suits(last, params) && o !in params
    ensures Grabs([Optional(o)] + (f + [last]), params) <==> Shifts(f, Values(f + [last], params))
  {
    var route := [Optional(o)] + (f + [last]);
    var ws := Values(f + [last], params);
    assert route[1..] == f + [last];
    FixedValues(f, [last], params);
    assert Values([last], params) == ValuesOf(last, params) + [];
    if ws != [] {
      FixedFits(f, [last], ws[1..]);
      if |ws| > |f| {
        assert ws[1..][|f|..] == ValuesOf(last, params)[1..];
        LastFits(last, params, ws[1..][|f|..]);
      }
    }
  }

  lemma LastGrabsNone(f: seq<Segment>, last: Segment, params: Params)
    requires AllFixed(f)
    ensures NoneGrabs(f + [last], params)
  {
    FixedGrabNone(f, [last], params);
    assert [last][0..] == [last] && [last][1..] == [];
  }

  lemma FixedBeforeRest(f: seq<Segment>, g: seq<Segment>)
    requires AllFixed(f) && RestLast(g)
    ensures RestLast(f + g)
  {
    assert forall i :: 0 <= i < |f| ==> (f + g)[i] == f[i] && Fixed(f[i]);
    assert forall i :: 0 <= i < |g| ==> (f + g)[|f| + i] == g[i];
  }

  /** An optional segment, fixed ones, and an optional or rest segment, behind any fixed ones: the
      URL reads back right exactly if the first optional value is there, or the values behind it
      do not fit when each moves up by one. */
  lemma TwoOpenExact(p: seq<Segment>, o: string, f: seq<Segment>, last: Segment, params: Params)
    requires AllFixed(p) && AllFixed(f) && (last.Rest? || last.Optional?)
    requires AllSuit(p + ([Optional(o)] + (f + [last])), params)
    ensures var route := p + ([Optional(o)] + (f + [last]));
            Match(route, Text(FillAll(route, params))) == Some(ReadsAll(route, params)) <==>
            o in params || !Shifts(f, Values(f + [last], params))
  {
    var open := [Optional(o)] + (f + [last]);
    var route := p + open;
    assert route[|p|] == Optional(o) && route[|route| - 1] == last && Suits(route[|route| - 1], params);
    FixedBeforeRest(f, [last]);
    assert forall i :: 0 <= i < |open| - 1 ==> open[i + 1] == (f + [last])[i];
    FixedBeforeRest(p, open);
    ReadsBackExactly(route, params);
    FixedGrabNone(p, open, params);
    NoneGrabsBelow(open, params);
    assert open[1..] == f + [last];
    LastGrabsNone(f, last, params);
    if o !in params { OptionalGrabs(o, f, last, params); }
  }

  /** An optional segment directly before a rest segment: the rest value must not begin with a
      segment the optional one could take. */
  lemma OptionalRestExact(p: seq<Segment>, o: string, r: string, params: Params)
    requires AllFixed(p) && AllSuit(p + [Optional(o), Rest(r)], params)
    ensures var route := p + [Optional(o), Rest(r)];
            Match(route, Text(FillAll(route, params))) == Some(ReadsAll(route, params)) <==>
            o in params || r !in params || Starts(params[r])
  {
    var none: seq<Segment> := [];
    assert [Optional(o)] + (none + [Rest(r)]) == [Optional(o), Rest(r)] && none + [Rest(r)] == [Rest(r)];
    TwoOpenExact(p, o, none, Rest(r), params);
    var v := if r in params then params[r] else [];
    assert Values([Rest(r)], params) == Split(v, '/') + [];
    assert Split(v, '/')[0] != [] <==> v != [] && v[0] != '/';
  }

  /** Of two adjacent optional segments the second one's value alone is read back as the first's. */
  lemma SecondReadAsFirst(a: string, b: string, v: string)
    requires a != b && v != [] && '/' !in v
    ensures var route := [Optional(a), Optional(b)];
            var params := map[b := v];
            ReadsAll(route, params) == [None, Some(v)] &&
            Match(route, Text(FillAll(route, params))) == Some([Some(v), None])
  {
    var route := [Optional(a), Optional(b)];
    var params := map[b := v];
    assert route[1..] == [Optional(b)] && [Optional(b)][1..] == [];
    assert ReadsAll([Optional(b)], params) == [Some(v)] + [] && ReadsAll(route, params) == [None] + [Some(v)];
    assert FillAll([Optional(b)], params) == [Literal(v)] + [] && FillAll(route, params) == [] + [Literal(v)];
    TextCons(Literal(v), []);
    assert [Literal(v)] + [] == [Literal(v)] && ['/'] + v + [] == ['/'] + v;
    OptionalMatch(route, v, []);
    var none: Captures := [];
    assert Match([], []) == Some(none) && [None] + none == [None];
    assert Match([Optional(b)], []) == Some([None]) && [Some(v)] + [None] == [Some(v), None];
  }
}
