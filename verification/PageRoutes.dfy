// From a page's URL to its pattern and back to its parameters
// (packages/houdini-react/plugin/runtime.go, packages/houdini/src/router/match.ts).
module PageRoutes {
  import opened Wrappers
  import opened Strings
  import opened Hrefs
  import opened RoutePatterns

  datatype RouteParam = RouteParam(name: string, optional: bool, rest: bool, chained: bool)

  datatype Pattern = Root | Route(segments: seq<Segment>)

  // ---------------------------------------------------------------------------
  // Segments of a URL
  // ---------------------------------------------------------------------------

  /** A route group, as (auth): it names no part of the path. */
  predicate IsGroup(p: string) { p != [] && p[0] == '(' && p[|p| - 1] == ')' }

  predicate Counts(p: string) { p != [] && !IsGroup(p) }

  function Kept(parts: seq<string>): seq<string>
  {
    if parts == [] then []
    else
      var last := parts[|parts| - 1];
      Kept(parts[..|parts| - 1]) + if Counts(last) then [last] else []
  }

  function Trimmed(url: string): string { if url != [] && url[0] == '/' then url[1..] else url }

  function SegmentsOf(url: string): seq<string> { Kept(Split(Trimmed(url), '/')) }

  function WithoutGroups(url: string): string { ['/'] + Join(Kept(Split(url, '/')), ['/']) }

  method KeepReal(parts: seq<string>) returns (out: seq<string>)
    ensures out == Kept(parts)
  {
    out := [];
    for i := 0 to |parts|
      invariant out == Kept(parts[..i])
    {
      assert parts[..i + 1][..i] == parts[..i];
      if parts[i] == [] { continue; }
      if IsGroup(parts[i]) { continue; }
      out := out + [parts[i]];
    }
    assert parts[..|parts|] == parts;
  }

  /** The pieces at these places, in this order, and no others that have text and are not in
      parentheses. */
  ghost predicate Picks(pieces: seq<string>, at: seq<nat>, out: seq<string>)
  {
    && |at| == |out| && (forall j :: 0 <= j < |at| ==> at[j] < |pieces| && out[j] == pieces[at[j]])
    && (forall i, j :: 0 <= i < j < |at| ==> at[i] < at[j])
    && forall i: nat :: i < |pieces| ==>
         (i in at <==> pieces[i] != "" && !(pieces[i][0] == '(' && pieces[i][|pieces[i]| - 1] == ')'))
  }

  lemma {:induction false} KeptPicks(parts: seq<string>) returns (at: seq<nat>)
    ensures Picks(parts, at, Kept(parts))
  {
    if parts == [] {
      at := [];
    } else {
      var n := |parts| - 1;
      at := KeptPicks(parts[..n]);
      assert parts == parts[..n] + [parts[n]];
      if Counts(parts[n]) {
        PicksMore(parts[..n], at, Kept(parts[..n]), parts[n]);
        at := at + [n];
      } else {
        PicksSame(parts[..n], at, Kept(parts[..n]), parts[n]);
        assert Kept(parts[..n]) + [] == Kept(parts[..n]);
      }
    }
  }

  lemma PicksMore(parts: seq<string>, at: seq<nat>, out: seq<string>, p: string)
    requires Picks(parts, at, out) && Counts(p)
    ensures Picks(parts + [p], at + [|parts|], out + [p])
  {
    var all := parts + [p];
    forall i: nat | i < |all|
      ensures i in at + [|parts|] <==> all[i] != "" && !(all[i][0] == '(' && all[i][|all[i]| - 1] == ')')
    {
      assert i < |parts| ==> all[i] == parts[i];
    }
  }

  lemma PicksSame(parts: seq<string>, at: seq<nat>, out: seq<string>, p: string)
    requires Picks(parts, at, out) && !Counts(p)
    ensures Picks(parts + [p], at, out)
  {
    var all := parts + [p];
    forall i: nat | i < |all|
      ensures i in at <==> all[i] != "" && !(all[i][0] == '(' && all[i][|all[i]| - 1] == ')')
    {
      assert i < |parts| ==> all[i] == parts[i];
    }
  }

  /** In order exactly the pieces of the URL between slashes that are neither empty nor in
      parentheses. */
  method RouteSegments(url: string) returns (out: seq<string>)
    ensures out == SegmentsOf(url)
    ensures exists at :: Picks(Split(url, '/'), at, out)
  {
    out := KeepReal(Split(Trimmed(url), '/'));
    ghost var at := KeptPicks(Split(url, '/'));
    SplitLeading(url);
  }

  method StripRouteGroups(url: string) returns (out: string)
    ensures out == WithoutGroups(url)
    ensures exists at, parts :: Picks(Split(url, '/'), at, parts) && out == "/" + Join(parts, "/")
  {
    var parts := KeepReal(Split(url, '/'));
    ghost var at := KeptPicks(Split(url, '/'));
    out := ['/'] + Join(parts, ['/']);
  }

  lemma {:induction false} KeptCons(p: string, parts: seq<string>)
    ensures Kept([p] + parts) == (if Counts(p) then [p] else []) + Kept(parts)
  {
    var all := [p] + parts;
    if parts == [] {
      assert all[..0] == [];
      assert (if Counts(p) then [p] else []) + [] == if Counts(p) then [p] else [];
    } else {
      assert all[..|all| - 1] == [p] + parts[..|parts| - 1];
      KeptCons(p, parts[..|parts| - 1]);
    }
  }

  lemma SplitLeading(url: string)
    ensures Kept(Split(url, '/')) == SegmentsOf(url)
  {
    if url != [] && url[0] == '/' {
      KeptCons("", Split(url[1..], '/'));
      assert [] + Kept(Split(url[1..], '/')) == Kept(Split(url[1..], '/'));
    }
  }

  lemma {:induction false} KeptOnly(parts: seq<string>, k: nat)
    requires k < |Kept(parts)|
    ensures Counts(Kept(parts)[k]) && Kept(parts)[k] in parts
  {
    var init := parts[..|parts| - 1];
    if k < |Kept(init)| {
      KeptOnly(init, k);
    }
  }

  lemma {:induction false} KeptAll(parts: seq<string>)
    requires forall k :: 0 <= k < |parts| ==> Counts(parts[k])
    ensures Kept(parts) == parts
  {
    if parts != [] {
      KeptAll(parts[..|parts| - 1]);
    }
  }

  lemma SegmentsFree(url: string, k: nat)
    requires k < |SegmentsOf(url)|
    ensures '/' !in SegmentsOf(url)[k] && Counts(SegmentsOf(url)[k])
  {
    SplitJoin(Trimmed(url), '/');
    KeptOnly(Split(Trimmed(url), '/'), k);
  }

  /** Groups make no difference: the URL without them has the same segments. */
  lemma GroupsDoNotMatter(url: string)
    ensures SegmentsOf(WithoutGroups(url)) == SegmentsOf(url)
    ensures WithoutGroups(url) == ['/'] + Join(SegmentsOf(url), ['/'])
  {
    var segments := SegmentsOf(url);
    SplitLeading(url);
    forall k | 0 <= k < |segments| ensures '/' !in segments[k] && Counts(segments[k]) { SegmentsFree(url, k); }
    assert Trimmed(WithoutGroups(url)) == Join(segments, ['/']);
    if segments == [] {
      assert Kept([""]) == Kept([""][..0]) + [];
    } else {
      JoinSplit(segments, '/');
      KeptAll(segments);
    }
  }

  lemma {:induction false} KeptConcat(a: seq<string>, b: seq<string>)
    ensures Kept(a + b) == Kept(a) + Kept(b)
  {
    if b == [] {
      assert a + b == a;
    } else {
      var n := |b| - 1;
      assert (a + b)[..|a| + n] == a + b[..n];
      KeptConcat(a, b[..n]);
    }
  }

  lemma Reassociate(a: string, b: string, c: string, d: string)
    ensures a + b + c + d == a + b + (c + d)
  {}

  lemma {:induction false} SplitConcat(a: string, b: string)
    ensures Split(a + ['/'] + b, '/') == Split(a, '/') + Split(b, '/')
  {
    var parts := Split(a, '/');
    SplitJoin(a, '/');
    SplitAtSlash(parts, b);
  }

  lemma {:induction false} SplitAtSlash(parts: seq<string>, b: string)
    requires |parts| > 0 && Free(parts, '/')
    ensures Split(Join(parts, ['/']) + ['/'] + b, '/') == parts + Split(b, '/')
  {
    hide Split;
    if |parts| == 1 {
      SplitFirst(parts[0], '/', b);
      assert parts == [parts[0]];
    } else {
      var first, rest := parts[0], Join(parts[1..], ['/']);
      SplitAtSlash(parts[1..], b);
      SplitFirst(first, '/', rest + ['/'] + b);
      Reassociate(first, ['/'], rest, ['/'] + b);
      assert Join(parts, ['/']) == first + ['/'] + rest;
      assert rest + ['/'] + b == rest + (['/'] + b) && Join(parts, ['/']) + ['/'] + b == Join(parts, ['/']) + (['/'] + b);
      assert parts == [first] + parts[1..];
    }
  }

  /** A piece that is not kept, between slashes. */
  lemma DroppedPiece(a: string, piece: string, b: string)
    requires '/' !in piece && Kept([piece]) == [] && (b == "" || b[0] == '/')
    ensures Kept(Split(a + ['/'] + piece + b, '/')) == Kept(Split(a + b, '/'))
  {
    hide Split, Kept;
    if b == "" {
      DroppedLast(a, piece);
      assert a + ['/'] + piece + b == a + ['/'] + piece && a + b == a;
    } else {
      DroppedBefore(a, piece, b[1..]);
      SlashFront(a, piece, b);
    }
  }

  lemma SlashFront(a: string, piece: string, b: string)
    requires b != "" && b[0] == '/'
    ensures a + ['/'] + piece + b == a + ['/'] + (piece + ['/'] + b[1..]) && a + b == a + ['/'] + b[1..]
  {}

  lemma DroppedLast(a: string, piece: string)
    requires Kept([piece]) == [] && '/' !in piece
    ensures Kept(Split(a + ['/'] + piece, '/')) == Kept(Split(a, '/'))
  {
    hide Split, Kept;
    SplitFree(piece, '/');
    SplitConcat(a, piece);
    KeptConcat(Split(a, '/'), [piece]);
  }

  lemma DroppedBefore(a: string, piece: string, tail: string)
    requires Kept([piece]) == [] && '/' !in piece
    ensures Kept(Split(a + ['/'] + (piece + ['/'] + tail), '/')) == Kept(Split(a + ['/'] + tail, '/'))
  {
    hide Split, Kept;
    SplitFree(piece, '/');
    SplitConcat(piece, tail);
    SplitConcat(a, piece + ['/'] + tail);
    SplitConcat(a, tail);
    KeptConcat(Split(a, '/'), [piece] + Split(tail, '/'));
    KeptConcat([piece], Split(tail, '/'));
    KeptConcat(Split(a, '/'), Split(tail, '/'));
  }

  /** A group put in front of a slash or at the end of a URL changes neither its segments nor the
      stripped URL; nor the pattern, unless that is the root page's, which only the bare slash has. */
  lemma GroupInserted(a: string, g: string, b: string)
    requires '/' !in g && (b == "" || b[0] == '/')
    ensures var with, without := a + "/(" + g + ")" + b, a + b;
            SegmentsOf(with) == SegmentsOf(without) && WithoutGroups(with) == WithoutGroups(without) &&
            PatternOf(with) == Route(ParseAll(SegmentsOf(without))) &&
            (PatternOf(with) == PatternOf(without) <==> without != "/")
  {
    hide Split, Kept, ParseAll, SegmentsOf;
    var group := "(" + g + ")";
    var with, without := a + "/(" + g + ")" + b, a + b;
    KeptGroup(g);
    DroppedPiece(a, group, b);
    assert with == a + ['/'] + group + b;
    SplitLeading(with);
    SplitLeading(without);
    assert |with| > 1;
  }

  lemma KeptGroup(g: string)
    ensures Kept(["(" + g + ")"]) == []
  {
    assert ["(" + g + ")"][..0] == [];
  }

  // ---------------------------------------------------------------------------
  // Segments and patterns
  // ---------------------------------------------------------------------------

  /** The switch of parsePagePattern. */
  function ParseSegment(seg: string): Segment
  {
    if ['[', '.', '.', '.'] <= seg && Ends(seg, ']', 5) then Rest(seg[4..|seg| - 1])
    else if ['[', '['] <= seg && Ends(seg, ']', 4) && seg[|seg| - 2] == ']' then Optional(seg[2..|seg| - 2])
    else if ['['] <= seg && Ends(seg, ']', 2) then Param(seg[1..|seg| - 1])
    else Literal(seg)
  }

  predicate Ends(seg: string, c: char, least: nat) { |seg| >= least && least > 0 && seg[|seg| - 1] == c }

  function ParseAll(segments: seq<string>): seq<Segment>
  {
    if segments == [] then [] else [ParseSegment(segments[0])] + ParseAll(segments[1..])
  }

  /** Nothing of a segment is lost. */
  lemma ShowParsed(seg: string)
    ensures Show(ParseSegment(seg)) == seg
  {
    match ParseSegment(seg)
    case Rest(_) => Framed(['[', '.', '.', '.'], [']'], seg);
    case Optional(_) => Framed(['[', '['], [']', ']'], seg);
    case Param(_) => Framed(['['], [']'], seg);
    case Literal(_) =>
  }

  lemma Framed(open: string, close: string, seg: string)
    requires |open| + |close| <= |seg| && open <= seg && seg[|seg| - |close|..] == close
    ensures open + seg[|open|..|seg| - |close|] + close == seg
  {}

  /** Every segment the router knows is recognized as what it is. */
  lemma ParseShown(s: Segment)
    requires Tidy(s)
    ensures ParseSegment(Show(s)) == s
  {
    var seg := Show(s);
    match s
    case Literal(t) => assert t != [] ==> t[0] != '[';
    case Param(n) => assert seg[1..|seg| - 1] == n && seg[1] == n[0];
    case Optional(n) => assert seg[2..|seg| - 2] == n && seg[1] == '[';
    case Rest(n) => assert seg[4..|seg| - 1] == n && seg[..4] == ['[', '.', '.', '.'];
  }

  /** A segment is of the first kind whose brackets it has, whatever stands between them. */
  lemma ParsedExactly(seg: string, n: string)
    ensures ParseSegment(seg) == Rest(n) <==> seg == "[..." + n + "]"
    ensures ParseSegment(seg) == Optional(n) <==> seg == "[[" + n + "]]"
    ensures ParseSegment(seg) == Param(n) <==>
            seg == "[" + n + "]" && !("..." <= n) && !(|n| > 1 && n[0] == '[' && n[|n| - 1] == ']')
  {
    ShowParsed(seg);
    if seg == "[..." + n + "]" { assert seg[4..|seg| - 1] == n && seg[..4] == "[..." && seg[3] == '.'; }
    if seg == "[[" + n + "]]" { assert seg[2..|seg| - 2] == n && seg[1] == '['; }
    if seg == "[" + n + "]" {
      assert seg[1..|seg| - 1] == n && seg[|seg| - 1] == ']';
      if ParseSegment(seg).Rest? { assert n[..3] == seg[1..4] == "..."; }
      if ParseSegment(seg).Optional? { assert n[0] == seg[1] && n[|n| - 1] == seg[|seg| - 2]; }
      if "..." <= n { assert seg[..4] == "[" + n[..3] == "[..."; }
      if |n| > 1 { assert n[0] == seg[1] && n[|n| - 1] == seg[|seg| - 2]; }
    }
  }

  lemma {:induction false} TextOfParsed(segments: seq<string>)
    ensures Text(ParseAll(segments)) == if segments == [] then [] else ['/'] + Join(segments, ['/'])
  {
    if segments != [] {
      var seg, rest := segments[0], segments[1..];
      TextOfParsed(rest);
      ShowParsed(seg);
      TextCons(ParseSegment(seg), ParseAll(rest));
      if rest == [] {
        assert ['/'] + seg + [] == ['/'] + seg;
      } else {
        JoinFirst(seg, Join(rest, ['/']));
      }
    }
  }

  lemma JoinFirst(seg: string, rest: string)
    ensures ['/'] + (seg + ['/'] + rest) == ['/'] + seg + (['/'] + rest)
  {}

  function PatternOf(url: string): Pattern { if url == ['/'] then Root else Route(ParseAll(SegmentsOf(url))) }

  function ParamOf(s: Segment): seq<RouteParam>
  {
    match s
    case Literal(_) => []
    case Param(n) => [RouteParam(n, false, false, false)]
    case Optional(n) => [RouteParam(n, true, false, true)]
    case Rest(n) => [RouteParam(n, false, true, true)]
  }

  function ParamsOf(route: seq<Segment>): seq<RouteParam>
  {
    if route == [] then [] else ParamOf(route[0]) + ParamsOf(route[1..])
  }

  /** One parameter for each segment with a name, in their order, and what kind it is. */
  ghost predicate ParamsTell(route: seq<Segment>, at: seq<nat>, params: seq<RouteParam>)
  {
    && |at| == |params| && (forall i, j :: 0 <= i < j < |at| ==> at[i] < at[j])
    && (forall j :: 0 <= j < |at| ==> at[j] < |route| && Tells(route[at[j]], params[j]))
    && forall i: nat :: i < |route| && !route[i].Literal? ==> i in at
  }

  ghost predicate Tells(s: Segment, p: RouteParam)
  {
    !s.Literal? && p.name == s.name && p.optional == s.Optional? && p.rest == s.Rest? && p.chained == !s.Param?
  }

  lemma {:induction false} ParamsListed(route: seq<Segment>) returns (at: seq<nat>)
    ensures ParamsTell(route, at, ParamsOf(route))
  {
    if route == [] {
      at := [];
    } else {
      var n := |route| - 1;
      at := ParamsListed(route[..n]);
      assert route == route[..n] + [route[n]];
      ParamsSnoc(route[..n], route[n]);
      if route[n].Literal? {
        TextAdded(route[..n], at, ParamsOf(route[..n]), route[n]);
        assert ParamsOf(route[..n]) + [] == ParamsOf(route[..n]);
      } else {
        NameAdded(route[..n], at, ParamsOf(route[..n]), route[n], ParamOf(route[n])[0]);
        at := at + [n];
      }
    }
  }

  lemma TextAdded(route: seq<Segment>, at: seq<nat>, params: seq<RouteParam>, s: Segment)
    requires ParamsTell(route, at, params) && s.Literal?
    ensures ParamsTell(route + [s], at, params)
  {
    hide Tells;
    assert forall i :: 0 <= i < |route| ==> (route + [s])[i] == route[i];
  }

  lemma NameAdded(route: seq<Segment>, at: seq<nat>, params: seq<RouteParam>, s: Segment, p: RouteParam)
    requires ParamsTell(route, at, params) && Tells(s, p)
    ensures ParamsTell(route + [s], at + [|route|], params + [p])
  {
    hide Tells;
    var all, where, told := route + [s], at + [|route|], params + [p];
    assert forall i :: 0 <= i < |route| ==> all[i] == route[i];
    assert all[|route|] == s && where[|at|] == |route| && told[|at|] == p;
  }

  lemma {:induction false} ParamsSnoc(route: seq<Segment>, s: Segment)
    ensures ParamsOf(route + [s]) == ParamsOf(route) + ParamOf(s)
  {
    if route == [] {
      assert [] + [s] == [s] && [s][1..] == [];
      assert ParamOf(s) + [] == [] + ParamOf(s);
    } else {
      assert (route + [s])[1..] == route[1..] + [s];
      ParamsSnoc(route[1..], s);
    }
  }

  lemma {:induction false} ParseSnoc(segments: seq<string>, seg: string)
    ensures ParseAll(segments + [seg]) == ParseAll(segments) + [ParseSegment(seg)]
  {
    if segments == [] {
      assert [] + [seg] == [seg] && [seg][1..] == [];
    } else {
      assert (segments + [seg])[1..] == segments[1..] + [seg];
      ParseSnoc(segments[1..], seg);
    }
  }

  method ParsePagePattern(url: string) returns (pattern: Pattern, params: seq<RouteParam>)
    ensures pattern == PatternOf(url)
    ensures params == if url == ['/'] then [] else ParamsOf(ParseAll(SegmentsOf(url)))
    ensures pattern.Route? ==> exists at :: ParamsTell(pattern.segments, at, params)
  {
    if url == ['/'] {
      return Root, [];
    }
    var segments := RouteSegments(url);
    var parts: seq<Segment> := [];
    params := [];
    for i := 0 to |segments|
      invariant parts == ParseAll(segments[..i]) && params == ParamsOf(parts)
    {
      var s := ParseSegment(segments[i]);
      assert segments[..i + 1] == segments[..i] + [segments[i]];
      ParseSnoc(segments[..i], segments[i]);
      ParamsSnoc(parts, s);
      params := params + ParamOf(s);
      parts := parts + [s];
    }
    assert segments[..|segments|] == segments;
    pattern := Route(parts);
    ghost var at := ParamsListed(parts);
  }

  function MatchPattern(p: Pattern, path: string): Option<Captures>
  {
    match p
    case Root => if path == ['/'] then Some([]) else None
    case Route(segments) => Match(segments, path)
  }

  /** A page is found under exactly the paths of its pattern's language, the root page under the bare
      slash alone. */
  lemma PageMatches(url: string, path: string)
    ensures MatchPattern(PatternOf(url), path).Some? <==>
            if url == "/" then path == "/" else InLanguage(ParseAll(SegmentsOf(url)), path)
  {
    MatchesExactly(ParseAll(SegmentsOf(url)), path);
  }

  /** The bare slash has nothing to fill. */
  lemma SlashStays(params: Params)
    ensures ResolveHref(['/'], params) == ['/']
  {
    SlashCopied(OPTIONAL_OPEN, [']', ']'], OptionalText(params));
    SlashCopied(REST_OPEN, [']'], RestText(params));
    SlashCopied(PARAM_OPEN, [']'], ParamText(params));
  }

  lemma SlashCopied(open: string, close: string, render: string -> string)
    requires open != [] && !(open <= ['/'])
    ensures ReplaceAll(open, close, render, ['/']) == ['/']
  {
    assert ['/'][1..] == [];
  }

  /** Filling the URL a link is given gives the filled text of the page's segments; a page without
      any has the bare slash. */
  lemma FilledLink(url: string, params: Params)
    requires AllTidy(ParseAll(SegmentsOf(url))) && PlainParams(params)
    ensures var route := ParseAll(SegmentsOf(url));
            ResolveHref(WithoutGroups(url), params) == if route == [] then ['/'] else Text(FillAll(route, params))
  {
    var segments := SegmentsOf(url);
    GroupsDoNotMatter(url);
    if segments == [] {
      assert ['/'] + Join(segments, ['/']) == ['/'];
      SlashStays(params);
    } else {
      TextOfParsed(segments);
      ResolveIsSubstitution(ParseAll(segments), params);
    }
  }

  /** Filling the URL a link is given, and matching the result with the page's pattern, reads
      the parameters back exactly if no left-out optional parameter takes a later one's value. */
  lemma LinkReadsBack(url: string, params: Params)
    requires var route := ParseAll(SegmentsOf(url));
             AllTidy(route) && RestLast(route) && AllSuit(route, params)
    requires PlainParams(params)
    ensures var route := ParseAll(SegmentsOf(url));
            var m := MatchPattern(PatternOf(url), ResolveHref(WithoutGroups(url), params));
            m.Some? && (m == Some(ReadsAll(route, params)) <==> NoneGrabs(route, params))
  {
    var route := ParseAll(SegmentsOf(url));
    FilledLink(url, params);
    ReadsBackExactly(route, params);
    if url == ['/'] { assert Kept([""]) == Kept([""][..0]) + []; }
  }

  /** A segment of text and one bracketed name, as u-[id]. */
  function Mixed(pre: string, n: string): string { pre + (['['] + n + [']']) }

  /** Neither an optional nor a rest segment starts in it. */
  lemma MixedStartsNone(open: string, pre: string, n: string, i: nat)
    requires open == OPTIONAL_OPEN || open == REST_OPEN
    requires pre != [] && Plain(pre) && '/' !in pre && Word(n) && i < 1 + |Mixed(pre, n)|
    ensures !(open <= (['/'] + Mixed(pre, n))[i..])
  {
    var body := Mixed(pre, n);
    var u := ['/'] + body;
    assert forall j :: 0 <= j < |body| && j != |pre| ==> body[j] in pre + n + [']'];
    assert i > 0 ==> u[i..][0] == body[i - 1];
    assert i == 0 ==> u[i..][1] == pre[0];
    assert i == 1 + |pre| ==> u[i..][1] == n[0];
  }

  lemma MixedCopied(open: string, close: string, render: string -> string, pre: string, n: string)
    requires open == OPTIONAL_OPEN || open == REST_OPEN
    requires pre != [] && Plain(pre) && '/' !in pre && Word(n)
    ensures ReplaceAll(open, close, render, ['/'] + Mixed(pre, n)) == ['/'] + Mixed(pre, n)
  {
    var u := ['/'] + Mixed(pre, n);
    forall i | 0 <= i < |u| ensures !(open <= u[i..] + []) {
      assert u[i..] + [] == u[i..];
      MixedStartsNone(open, pre, n, i);
    }
    CopyPlain(open, close, render, u, []);
    assert u + [] == u;
  }

  lemma MixedParam(pre: string, n: string, params: Params)
    requires Plain(pre) && Word(n) && n in params
    ensures ReplaceAll(PARAM_OPEN, [']'], ParamText(params), ['/'] + Mixed(pre, n)) == ['/'] + pre + params[n]
  {
    hide ReplaceAll;
    var t, rest := ['/'] + pre, PARAM_OPEN + n + [']'] + [];
    forall i | 0 <= i < |t| ensures !(PARAM_OPEN <= t[i..] + rest) {
      assert (t[i..] + rest)[0] == t[i];
    }
    CopyPlain(PARAM_OPEN, [']'], ParamText(params), t, rest);
    ReplaceHere(PARAM_OPEN, [']'], ParamText(params), n, []);
    NothingReplaced(PARAM_OPEN, [']'], ParamText(params));
    assert ['/'] + Mixed(pre, n) == t + rest && t + (params[n] + []) == t + params[n];
  }

  lemma NothingReplaced(open: string, close: string, render: string -> string)
    requires open != []
    ensures ReplaceAll(open, close, render, []) == []
  {}

  lemma MixedFilled(pre: string, n: string, params: Params)
    requires pre != [] && Plain(pre) && '/' !in pre && Word(n) && n in params
    ensures ResolveHref(['/'] + Mixed(pre, n), params) == ['/'] + pre + params[n]
  {
    hide ReplaceAll, Mixed;
    MixedCopied(OPTIONAL_OPEN, [']', ']'], OptionalText(params), pre, n);
    MixedCopied(REST_OPEN, [']'], RestText(params), pre, n);
    MixedParam(pre, n, params);
  }

  /** The pattern takes such a segment as text, but a link fills the name: the link never matches. */
  lemma MixedNeverMatches(pre: string, n: string, params: Params)
    requires pre != [] && Plain(pre) && '/' !in pre && Word(n) && n in params && Plain(params[n])
    ensures ParseSegment(Mixed(pre, n)) == Literal(Mixed(pre, n))
    ensures Match([Literal(Mixed(pre, n))], ResolveHref(['/'] + Mixed(pre, n), params)).None?
  {
    var t, link := Mixed(pre, n), ['/'] + pre + params[n];
    MixedFilled(pre, n, params);
    assert t[0] == pre[0] && t[|pre|] == '[';
    assert '[' !in link;
    assert (['/'] + t)[1 + |pre|] == '[';
  }

  // ---------------------------------------------------------------------------
  // decodeURIComponent
  // ---------------------------------------------------------------------------

  function Hex(c: char): Option<nat>
  {
    if '0' <= c <= '9' then Some(c as int - '0' as int)
    else if 'a' <= c <= 'f' then Some(c as int - 'a' as int + 10)
    else if 'A' <= c <= 'F' then Some(c as int - 'A' as int + 10)
    else None
  }

  /** The octet an escape at position i stands for. */
  function Octet(s: string, i: nat): Option<nat>
  {
    if i + 2 < |s| && s[i] == '%' && Hex(s[i + 1]).Some? && Hex(s[i + 2]).Some?
    then Some(16 * Hex(s[i + 1]).value + Hex(s[i + 2]).value)
    else None
  }

  /** The six bits of a continuation octet at position i. */
  function Tail(s: string, i: nat): Option<nat>
  {
    var b := Octet(s, i);
    if b.Some? && 0x80 <= b.value < 0xC0 then Some(b.value - 0x80) else None
  }

  /** A code point in UTF-8, written in escapes at the start of s: the code point and how many
      octets it took. */
  function CodePoint(s: string): Option<(nat, nat)>
  {
    var b := Octet(s, 0);
    if b.None? then None
    else if b.value < 0x80 then Some((b.value, 1))
    else
      var t, u, v := Tail(s, 3), Tail(s, 6), Tail(s, 9);
      if 0xC0 <= b.value < 0xE0 && t.Some? then Some(((b.value - 0xC0) * 0x40 + t.value, 2))
      else if 0xE0 <= b.value < 0xF0 && t.Some? && u.Some? then
        Some(((b.value - 0xE0) * 0x1000 + t.value * 0x40 + u.value, 3))
      else if 0xF0 <= b.value < 0xF8 && t.Some? && u.Some? && v.Some? then
        Some(((b.value - 0xF0) * 0x4_0000 + t.value * 0x1000 + u.value * 0x40 + v.value, 4))
      else None
  }

  /** No shorter encoding, no surrogate, and nothing beyond the last code point. */
  predicate WellFormed(c: nat, octets: nat)
  {
    && (octets == 2 ==> c >= 0x80) && (octets == 3 ==> c >= 0x800) && (octets == 4 ==> c >= 0x1_0000)
    && (c < 0xD800 || 0xE000 <= c < 0x11_0000)
  }

  /** decodeURIComponent; None where it throws. */
  function Decode(s: string): Option<string>
  {
    if s == [] then Some([])
    else if s[0] != '%' then Before(s[0], Decode(s[1..]))
    else
      var c := CodePoint(s);
      if c.Some? && WellFormed(c.value.0, c.value.1) && 3 * c.value.1 <= |s|
      then Before(c.value.0 as char, Decode(s[3 * c.value.1..]))
      else None
  }

  function Before(c: char, rest: Option<string>): Option<string>
  {
    if rest.Some? then Some([c] + rest.value) else None
  }

  /** Every escape makes the text shorter. */
  lemma {:induction false} DecodedLength(s: string)
    ensures Decode(s).Some? ==> |Decode(s).value| <= |s| && ('%' in s ==> |Decode(s).value| < |s|)
  {
    if s != [] {
      if s[0] != '%' {
        DecodedLength(s[1..]);
        assert s == [s[0]] + s[1..];
      } else if CodePoint(s).Some? && 3 * CodePoint(s).value.1 <= |s| {
        DecodedLength(s[3 * CodePoint(s).value.1..]);
      }
    }
  }

  lemma {:induction false} PlainDecodes(s: string)
    requires '%' !in s
    ensures Decode(s) == Some(s)
  {
    if s != [] {
      PlainDecodes(s[1..]);
      assert s == [s[0]] + s[1..];
    }
  }

  /** Exactly the text without a percent sign decodes to itself. */
  lemma DecodesToItself(s: string)
    ensures Decode(s) == Some(s) <==> '%' !in s
  {
    if '%' in s { DecodedLength(s); } else { PlainDecodes(s); }
  }

  /** The octets of a code point in UTF-8 (section 3 of RFC 3629). */
  function Utf8(c: nat): seq<nat>
  {
    if c < 0x80 then [c]
    else if c < 0x800 then [0xC0 + c / 0x40, 0x80 + c % 0x40]
    else if c < 0x1_0000 then [0xE0 + c / 0x1000, 0x80 + c / 0x40 % 0x40, 0x80 + c % 0x40]
    else [0xF0 + c / 0x4_0000, 0x80 + c / 0x1000 % 0x40, 0x80 + c / 0x40 % 0x40, 0x80 + c % 0x40]
  }

  function Capital(c: char): char { if 'a' <= c <= 'f' then c - 32 as char else c }

  function Digit(h: nat): char requires h < 16 { "0123456789ABCDEF"[h] }

  /** An escape's two digits, in either case, are the octet in base sixteen. */
  lemma OctetReads(s: string, i: nat, b: nat)
    ensures Octet(s, i) == Some(b) <==>
            b < 256 && i + 2 < |s| && s[i] == '%' && Capital(s[i + 1]) == Digit(b / 16) && Capital(s[i + 2]) == Digit(b % 16)
  {
    hide Hex, Capital, Digit;
    if i + 2 < |s| {
      DigitReads(s[i + 1]);
      DigitReads(s[i + 2]);
      var h, l := Hex(s[i + 1]), Hex(s[i + 2]);
      if h.Some? && l.Some? { TwoDigits(h.value, l.value, b); }
    }
  }

  lemma TwoDigits(h: nat, l: nat, b: nat)
    requires h < 16 && l < 16
    ensures 16 * h + l == b <==> h == b / 16 && l == b % 16
  {}

  lemma DigitReads(c: char)
    ensures forall h: nat :: h < 16 ==> (Hex(c) == Some(h) <==> Capital(c) == Digit(h))
    ensures Hex(c).Some? ==> Hex(c).value < 16
  {}

  ghost predicate Escaped(s: string, octets: seq<nat>)
  {
    forall k :: 0 <= k < |octets| ==> Octet(s, 3 * k) == Some(octets[k])
  }

  /** Each character of t is written as itself or as the escapes of its octets. */
  ghost predicate Spells(s: string, t: string)
  {
    if t == [] then s == []
    else
      var octets := Utf8(t[0] as nat);
      || (s != [] && s[0] == t[0] != '%' && Spells(s[1..], t[1..]))
      || (3 * |octets| <= |s| && Escaped(s, octets) && Spells(s[3 * |octets|..], t[1..]))
  }

  lemma CodePointReads(s: string, c: nat)
    requires c < 0xD800 || 0xE000 <= c < 0x11_0000
    ensures Escaped(s, Utf8(c)) <==> CodePoint(s) == Some((c, |Utf8(c)|))
  {
    if Escaped(s, Utf8(c)) { EscapedReads(s, c); }
    if CodePoint(s) == Some((c, |Utf8(c)|)) { ReadsEscaped(s, c); }
  }

  lemma EscapedReads(s: string, c: nat)
    requires c < 0x11_0000 && Escaped(s, Utf8(c))
    ensures CodePoint(s) == Some((c, |Utf8(c)|))
  {
    hide Octet;
    var u := Utf8(c);
    assert Octet(s, 3 * 0) == Some(u[0]);
    assert |u| > 1 ==> Octet(s, 3 * 1) == Some(u[1]);
    assert |u| > 2 ==> Octet(s, 3 * 2) == Some(u[2]);
    assert |u| > 3 ==> Octet(s, 3 * 3) == Some(u[3]);
    SixBits(c);
  }

  lemma ReadsEscaped(s: string, c: nat)
    requires CodePoint(s) == Some((c, |Utf8(c)|))
    ensures Escaped(s, Utf8(c))
  {
    hide Octet, Utf8;
    var b, t, u, v := Octet(s, 0).value, Tail(s, 3), Tail(s, 6), Tail(s, 9);
    var n := |Utf8(c)|;
    OctetsTell(c);
    if b < 0x80 {
      OneOctet(b);
    }
    if n == 2 { TwoOctets(b, t.value); }
    if n == 3 { ThreeOctets(b, t.value, u.value); }
    if n == 4 { FourOctets(b, t.value, u.value, v.value); }
    forall k | 0 <= k < n ensures Octet(s, 3 * k) == Some(Utf8(c)[k]) {
      assert k == 0 || k == 1 || k == 2 || k == 3;
    }
  }

  lemma OctetsTell(c: nat)
    ensures var n := |Utf8(c)|; (n == 2 ==> c >= 0x80) && (n == 3 ==> c >= 0x800) && (n == 4 ==> c >= 0x1_0000)
  {}

  lemma OneOctet(b: nat)
    ensures b < 0x80 ==> Utf8(b) == [b]
  {}

  lemma TwoOctets(b: nat, t: nat)
    requires 0xC0 <= b < 0xE0 && t < 0x40
    ensures var c := (b - 0xC0) * 0x40 + t; c >= 0x80 ==> Utf8(c) == [b, 0x80 + t]
  {}

  lemma ThreeOctets(b: nat, t: nat, u: nat)
    requires 0xE0 <= b < 0xF0 && t < 0x40 && u < 0x40
    ensures var c := (b - 0xE0) * 0x1000 + t * 0x40 + u; c >= 0x800 ==> Utf8(c) == [b, 0x80 + t, 0x80 + u]
  {
    var top := b - 0xE0;
    SixMore(top, t);
    SixMore(top * 0x40 + t, u);
    SixBits((top * 0x40 + t) * 0x40 + u);
  }

  lemma FourOctets(b: nat, t: nat, u: nat, v: nat)
    requires 0xF0 <= b < 0xF8 && t < 0x40 && u < 0x40 && v < 0x40
    ensures var c := (b - 0xF0) * 0x4_0000 + t * 0x1000 + u * 0x40 + v;
            c >= 0x1_0000 ==> Utf8(c) == [b, 0x80 + t, 0x80 + u, 0x80 + v]
  {
    var top := b - 0xF0;
    SixMore(top, t);
    SixMore(top * 0x40 + t, u);
    SixMore((top * 0x40 + t) * 0x40 + u, v);
    SixBits(((top * 0x40 + t) * 0x40 + u) * 0x40 + v);
  }

  lemma SixMore(high: nat, low: nat)
    requires low < 0x40
    ensures (high * 0x40 + low) / 0x40 == high && (high * 0x40 + low) % 0x40 == low
  {}

  /** A number is its groups of six bits. */
  lemma SixBits(c: nat)
    ensures c == c / 0x40 * 0x40 + c % 0x40
    ensures c / 0x40 == c / 0x1000 * 0x40 + c / 0x40 % 0x40
    ensures c / 0x1000 == c / 0x4_0000 * 0x40 + c / 0x1000 % 0x40
  {}

  lemma CodePointWhole(s: string)
    ensures CodePoint(s).Some? && WellFormed(CodePoint(s).value.0, CodePoint(s).value.1) ==>
              CodePoint(s).value.1 == |Utf8(CodePoint(s).value.0)|
  {}

  /** decodeURIComponent gives a text exactly for its spellings: plain or in escapes of the
      shortest UTF-8 form. */
  lemma {:induction false} DecodeSpells(s: string, t: string)
    ensures Decode(s) == Some(t) <==> Spells(s, t)
    decreases |s|
  {
    hide CodePoint, Utf8, Escaped;
    if t != [] {
      var octets := Utf8(t[0] as nat);
      EscapesStart(s, t[0] as nat);
      if s == [] {
      } else if s[0] != '%' {
        DecodeSpells(s[1..], t[1..]);
        BeforeIs(s[0], Decode(s[1..]), t);
      } else {
        CodePointReads(s, t[0] as nat);
        CodePointWhole(s);
        CodePointFits(t[0]);
        if Escaped(s, octets) && 3 * |octets| <= |s| {
          DecodeSpells(s[3 * |octets|..], t[1..]);
          BeforeIs(t[0], Decode(s[3 * |octets|..]), t);
        }
      }
    }
  }

  lemma BeforeIs(c: char, rest: Option<string>, t: string)
    requires t != []
    ensures Before(c, rest) == Some(t) <==> c == t[0] && rest == Some(t[1..])
  {
    assert t == [t[0]] + t[1..];
    if rest.Some? { assert ([c] + rest.value)[1..] == rest.value; }
  }

  lemma EscapesStart(s: string, c: nat)
    ensures |Utf8(c)| > 0
    ensures Escaped(s, Utf8(c)) ==> s != [] && s[0] == '%'
  {
    var u := Utf8(c);
    if Escaped(s, u) { assert Octet(s, 3 * 0) == Some(u[0]); }
  }

  lemma CodePointFits(c: char)
    ensures WellFormed(c as nat, |Utf8(c as nat)|) && (c as nat < 0xD800 || 0xE000 <= c as nat < 0x11_0000)
  {}

  /** A percentage throws, and an escape comes back as another text. */
  lemma PercentFails()
    ensures Decode("100%").None? && Decode("%41") == Some("A")
  {
    assert "100%"[1..] == "00%" && "00%"[1..] == "0%" && "0%"[1..] == "%";
    assert Decode("%").None?;
    var s := "%41";
    assert s[1] == '4' && s[2] == '1' && s[3..] == [];
    assert CodePoint(s) == Some((65, 1));
    assert s[3 * 1..] == [] && Decode([]) == Some([]) && [65 as char] + [] == "A";
  }

  // ---------------------------------------------------------------------------
  // exec: captures become parameters
  // ---------------------------------------------------------------------------

  /** What one capture sets, unless decoding throws. */
  function Set(p: RouteParam, value: Option<string>): Option<map<string, string>>
  {
    if value.Some? then
      var d := Decode(value.value);
      if d.Some? then Some(map[p.name := d.value]) else None
    else if p.rest then Some(map[p.name := ""])
    else Some(map[])
  }

  function Joined(a: Option<map<string, string>>, b: Option<map<string, string>>): Option<map<string, string>>
  {
    if a.Some? && b.Some? then Some(a.value + b.value) else None
  }

  function SetAll(params: seq<RouteParam>, values: Captures): Option<map<string, string>>
    requires |params| == |values|
  {
    if params == [] then Some(map[]) else Joined(Set(params[0], values[0]), SetAll(params[1..], values[1..]))
  }

  lemma SetNext(params: seq<RouteParam>, values: Captures, i: nat, before: map<string, string>)
    requires |params| == |values| && i < |params|
    ensures Joined(Some(before), SetAll(params[i..], values[i..])) ==
            Joined(Joined(Some(before), Set(params[i], values[i])), SetAll(params[i + 1..], values[i + 1..]))
  {
    assert params[i..][1..] == params[i + 1..] && values[i..][1..] == values[i + 1..];
    var own, rest := Set(params[i], values[i]), SetAll(params[i + 1..], values[i + 1..]);
    if own.Some? && rest.Some? {
      assert before + (own.value + rest.value) == (before + own.value) + rest.value;
    }
  }

  method SetOne(p: RouteParam, value: Option<string>, before: map<string, string>)
    returns (result: Option<map<string, string>>)
    ensures result == Joined(Some(before), Set(p, value))
  {
    if value.None? {
      result := Some(if p.rest then before[p.name := ""] else before);
      assert before + map[] == before && before[p.name := ""] == before + map[p.name := ""];
    } else {
      var d := Decode(value.value);
      if d.None? {
        return None;
      }
      result := Some(before[p.name := d.value]);
      assert before[p.name := d.value] == before + map[p.name := d.value];
    }
  }

  /** None: a value made decodeURIComponent throw. */
  method Exec(values: Captures, params: seq<RouteParam>) returns (result: Option<map<string, string>>)
    requires |params| == |values|
    ensures result == SetAll(params, values)
  {
    result := Some(map[]);
    assert params[0..] == params && values[0..] == values;
    StartEmpty(SetAll(params, values));
    for i := 0 to |params|
      invariant result.Some? && Joined(result, SetAll(params[i..], values[i..])) == SetAll(params, values)
    {
      SetNext(params, values, i, result.value);
      result := SetOne(params[i], values[i], result.value);
      if result.None? {
        return;
      }
    }
    assert result.value + map[] == result.value;
  }

  lemma StartEmpty(r: Option<map<string, string>>)
    ensures Joined(Some(map[]), r) == r
  {
    if r.Some? { assert map[] + r.value == r.value; }
  }

  ghost predicate NamesDiffer(params: seq<RouteParam>)
  {
    forall i, j :: 0 <= i < j < |params| ==> params[i].name != params[j].name
  }

  /** exec throws exactly if decoding one of the captures does. */
  lemma {:induction false} ExecThrows(params: seq<RouteParam>, values: Captures)
    requires |params| == |values|
    ensures SetAll(params, values).None? <==>
            exists k :: 0 <= k < |values| && values[k].Some? && Decode(values[k].value).None?
  {
    if params != [] {
      ExecThrows(params[1..], values[1..]);
      assert forall k :: 0 <= k < |values| - 1 ==> values[1..][k] == values[k + 1];
      if Set(params[0], values[0]).None? { assert values[0].Some? && Decode(values[0].value).None?; }
    }
  }

  lemma {:induction false} ExecSetsNoOther(params: seq<RouteParam>, values: Captures, n: string)
    requires |params| == |values| && forall i :: 0 <= i < |params| ==> params[i].name != n
    ensures SetAll(params, values).Some? ==> n !in SetAll(params, values).value
  {
    if params != [] { ExecSetsNoOther(params[1..], values[1..], n); }
  }

  /** With distinct names every parameter has its own capture's decoded value, the empty one for a
      rest parameter without a capture, and none for another without. */
  lemma {:induction false} ExecReads(params: seq<RouteParam>, values: Captures, k: nat)
    requires |params| == |values| && NamesDiffer(params) && k < |params|
    ensures var r := SetAll(params, values);
            r.Some? ==>
              (params[k].name in r.value <==> values[k].Some? || params[k].rest) &&
              (values[k].Some? ==> Decode(values[k].value) == Some(r.value[params[k].name])) &&
              (values[k].None? && params[k].rest ==> r.value[params[k].name] == "")
  {
    var rest := params[1..];
    assert forall i :: 0 <= i < |rest| ==> rest[i] == params[i + 1];
    if k == 0 {
      ExecSetsNoOther(rest, values[1..], params[0].name);
    } else {
      ExecReads(rest, values[1..], k - 1);
    }
  }

  // ---------------------------------------------------------------------------
  // From link to parameters
  // ---------------------------------------------------------------------------

  /** The parameters a link was given, by name; a rest parameter is always there. */
  function Given(params: seq<RouteParam>, values: Captures): map<string, string>
    requires |params| == |values|
  {
    if params == [] then map[]
    else (if values[0].Some? then map[params[0].name := values[0].value] else map[]) + Given(params[1..], values[1..])
  }

  lemma {:induction false} GivenNoOther(params: seq<RouteParam>, values: Captures, n: string)
    requires |params| == |values| && forall i :: 0 <= i < |params| ==> params[i].name != n
    ensures n !in Given(params, values)
  {
    if params != [] { GivenNoOther(params[1..], values[1..], n); }
  }

  lemma {:induction false} GivenHas(params: seq<RouteParam>, values: Captures, k: nat)
    requires |params| == |values| && NamesDiffer(params) && k < |params|
    ensures var g := Given(params, values);
            (params[k].name in g <==> values[k].Some?) && (values[k].Some? ==> g[params[k].name] == values[k].value)
  {
    var rest := params[1..];
    assert forall i :: 0 <= i < |rest| ==> rest[i] == params[i + 1];
    if k == 0 {
      GivenNoOther(rest, values[1..], params[0].name);
    } else {
      GivenHas(rest, values[1..], k - 1);
    }
  }

  ghost predicate NoPercent(values: Captures)
  {
    forall k :: 0 <= k < |values| && values[k].Some? ==> '%' !in values[k].value
  }

  lemma {:induction false} PlainValuesRead(params: seq<RouteParam>, values: Captures)
    requires |params| == |values| && NoPercent(values)
    requires forall k :: 0 <= k < |values| && params[k].rest ==> values[k].Some?
    ensures SetAll(params, values) == Some(Given(params, values))
  {
    if params != [] {
      assert forall k :: 0 <= k < |values| - 1 ==> values[1..][k] == values[k + 1] && params[1..][k] == params[k + 1];
      PlainValuesRead(params[1..], values[1..]);
      if values[0].Some? { DecodesToItself(values[0].value); }
    }
  }

  /** A capture decodes to the value given; a missing one is that of an empty rest value, or of
      nothing. */
  predicate Agrees(p: RouteParam, value: Option<string>, given: Option<string>)
  {
    if value.Some? then given.Some? && Decode(value.value) == given
    else given.Some? ==> p.rest && given.value == ""
  }

  /** If the captures come out as what was given, each one agrees with the value given. */
  lemma ReadAsGiven(params: seq<RouteParam>, values: Captures, given: Captures, k: nat)
    requires |params| == |values| == |given| && NamesDiffer(params) && k < |params|
    requires SetAll(params, values) == Some(Given(params, given))
    ensures Agrees(params[k], values[k], given[k])
  {
    ExecReads(params, values, k);
    GivenHas(params, given, k);
  }

  lemma {:induction false} AsManyAsParams(route: seq<Segment>, params: Params)
    ensures |ParamsOf(route)| == |ReadsAll(route, params)|
    ensures forall k :: 0 <= k < |ParamsOf(route)| && ParamsOf(route)[k].rest ==> ReadsAll(route, params)[k].Some?
  {
    if route != [] {
      AsManyAsParams(route[1..], params);
    }
  }

  lemma {:induction false} AsManyCaptures(route: seq<Segment>, s: string)
    ensures Match(route, s).Some? ==> |Match(route, s).value| == |ParamsOf(route)|
    decreases |route|, 0, 0
  {
    if route != [] {
      match route[0]
      case Literal(t) => if ['/'] + t <= s { AsManyCaptures(route[1..], s[1 + |t|..]); }
      case Param(_) => if s != [] { LazyCaptures(route[1..], s[1..], 1); }
      case Optional(_) =>
        AsManyCaptures(route[1..], s);
        if s != [] { GreedyCaptures(route[1..], s[1..], RoutePatterns.Run(s[1..]), 1); }
      case Rest(_) =>
        AsManyCaptures(route[1..], s);
        if s != [] { GreedyCaptures(route[1..], s[1..], DotRun(s[1..]), 0); }
    }
  }

  lemma {:induction false} LazyCaptures(route: seq<Segment>, s: string, k: nat)
    ensures Lazy(route, s, k).Some? ==> |Lazy(route, s, k).value| == |ParamsOf(route)| + 1
    decreases |route|, 1, |s| - k
  {
    if k <= RoutePatterns.Run(s) {
      AsManyCaptures(route, s[k..]);
      LazyCaptures(route, s, k + 1);
    }
  }

  lemma {:induction false} GreedyCaptures(route: seq<Segment>, s: string, k: int, least: nat)
    requires k <= |s|
    ensures Greedy(route, s, k, least).Some? ==> |Greedy(route, s, k, least).value| == |ParamsOf(route)| + 1
    decreases |route|, 1, k
  {
    if k >= least {
      AsManyCaptures(route, s[k..]);
      GreedyCaptures(route, s, k - 1, least);
    }
  }

  lemma LeftOutText(route: seq<Segment>, params: Params)
    requires route != [] && LeftOut(route[0], params)
    ensures Text(FillAll(route, params)) == Text(FillAll(route[1..], params))
  {
    FilledText(route[0], route, params);
    assert [] + Text(FillAll(route[1..], params)) == Text(FillAll(route[1..], params));
  }

  lemma PresentText(route: seq<Segment>, params: Params)
    requires route != [] && AllSuit(route, params) && !route[0].Rest? && !LeftOut(route[0], params)
    requires Match(route[1..], Text(FillAll(route[1..], params))).Some?
    ensures Match(route, Text(FillAll(route, params))) ==
            Some(Reads(route[0], params) + Match(route[1..], Text(FillAll(route[1..], params))).value)
  {
    TextStarts(FillAll(route[1..], params));
    FilledText(route[0], route, params);
    TakesValue(route[0], route, params, Text(FillAll(route[1..], params)));
  }

  /** Where an optional segment takes a value of another, a parameter that was left out has one. */
  lemma {:induction false} GrabShows(route: seq<Segment>, params: Params) returns (k: nat)
    requires RestLast(route) && AllSuit(route, params) && !NoneGrabs(route, params)
    ensures var m := Match(route, Text(FillAll(route, params)));
            m.Some? && k < |m.value| && m.value[k].Some? && k < |ReadsAll(route, params)| && ReadsAll(route, params)[k].None?
  {
    hide Match, Fits, Values, FillAll, Text;
    var s := route[0];
    var tail := Text(FillAll(route[1..], params));
    Below(route, params);
    NoneGrabsBelow(route, params);
    if LeftOut(s, params) {
      LeftOutText(route, params);
      LeftOutReads(route, params);
      if Grabs(route, params) {
        k := 0;
      } else {
        k := GrabShows(route[1..], params);
        k := k + 1;
      }
    } else {
      var below := GrabShows(route[1..], params);
      k := below + |Reads(s, params)|;
      PresentText(route, params);
    }
  }

  /** The captures of a filled URL set the parameters as they were given exactly if no left-out
      optional parameter takes a later one's value and no value contains a percent sign. */
  lemma RouteComesBack(route: seq<Segment>, params: Params, m: Captures)
    requires RestLast(route) && AllSuit(route, params) && NamesDiffer(ParamsOf(route))
    requires Match(route, Text(FillAll(route, params))) == Some(m)
    ensures |m| == |ParamsOf(route)| == |ReadsAll(route, params)|
    ensures SetAll(ParamsOf(route), m) == Some(Given(ParamsOf(route), ReadsAll(route, params))) <==>
            NoneGrabs(route, params) && NoPercent(ReadsAll(route, params))
  {
    var ps, given := ParamsOf(route), ReadsAll(route, params);
    AsManyAsParams(route, params);
    AsManyCaptures(route, Text(FillAll(route, params)));
    ReadsBackExactly(route, params);
    if NoneGrabs(route, params) {
      if NoPercent(given) { PlainValuesRead(ps, given); }
      forall k | 0 <= k < |given| && given[k].Some?
        ensures SetAll(ps, m) == Some(Given(ps, given)) ==> '%' !in given[k].value
      {
        if SetAll(ps, m) == Some(Given(ps, given)) { ReadAsGiven(ps, m, given, k); }
        DecodesToItself(given[k].value);
      }
    } else {
      var k := GrabShows(route, params);
      ExecReads(ps, m, k);
      GivenHas(ps, given, k);
    }
  }

  // ---------------------------------------------------------------------------
  // find_match cuts the query string off first
  // ---------------------------------------------------------------------------

  /** The part of a URL in front of its first question mark. */
  function PathOf(current: string): (path: string)
    ensures path <= current && '?' !in path && (path != current ==> current[|path|] == '?')
  {
    if current == [] || current[0] == '?' then [] else [current[0]] + PathOf(current[1..])
  }

  lemma PathOfPlain(current: string)
    ensures PathOf(current) == current <==> '?' !in current
  {}

  /** What a page receives for a URL: nothing if its pattern does not match the path or a capture
      does not decode. */
  function Receives(url: string, current: string): Option<map<string, string>>
  {
    var m := MatchPattern(PatternOf(url), PathOf(current));
    var ps := if url == ['/'] then [] else ParamsOf(ParseAll(SegmentsOf(url)));
    if m.Some? && |m.value| == |ps| then SetAll(ps, m.value) else None
  }

  /** The characters of a path that a route takes with these captures. */
  function Taken(route: seq<Segment>, m: Captures): nat
  {
    if route == [] then 0
    else if route[0].Literal? then 1 + |route[0].text| + Taken(route[1..], m)
    else if m == [] then 0
    else (if m[0].Some? then 1 + |m[0].value| else 0) + Taken(route[1..], m[1..])
  }

  /** A match takes the whole path, but for a slash that may follow. */
  predicate TakesAll(route: seq<Segment>, s: string, m: Option<Captures>)
  {
    m.Some? ==> Taken(route, m.value) <= |s| <= Taken(route, m.value) + 1
  }

  predicate TakesBehind(route: seq<Segment>, s: string, m: Option<Captures>)
  {
    m.Some? ==> m.value != [] && m.value[0].Some? &&
                var n := |m.value[0].value| + Taken(route, m.value[1..]); n <= |s| <= n + 1
  }

  lemma {:induction false} MatchTakes(route: seq<Segment>, s: string)
    ensures TakesAll(route, s, Match(route, s))
    decreases |route|, 0, 0
  {
    if route != [] {
      var rest := route[1..];
      match route[0]
      case Literal(t) => if ['/'] + t <= s { MatchTakes(rest, s[1 + |t|..]); }
      case Param(_) => if s != [] { LazyTakes(rest, s[1..], 1); }
      case Optional(_) =>
        MatchTakes(rest, s);
        if s != [] { GreedyTakes(rest, s[1..], RoutePatterns.Run(s[1..]), 1); }
        OpenTakes(route, s);
      case Rest(_) =>
        MatchTakes(rest, s);
        if s != [] { GreedyTakes(rest, s[1..], DotRun(s[1..]), 0); }
        OpenTakes(route, s);
    }
  }

  /** An open segment that is skipped takes nothing. */
  lemma OpenTakes(route: seq<Segment>, s: string)
    requires route != [] && !route[0].Literal?
    ensures TakesAll(route[1..], s, Match(route[1..], s)) ==> TakesAll(route, s, Captured(None, Match(route[1..], s)))
  {
    var m := Match(route[1..], s);
    if m.Some? { assert ([None] + m.value)[1..] == m.value; }
  }

  lemma {:induction false} LazyTakes(route: seq<Segment>, s: string, k: nat)
    ensures TakesBehind(route, s, Lazy(route, s, k))
    decreases |route|, 1, |s| - k
  {
    if k <= RoutePatterns.Run(s) {
      MatchTakes(route, s[k..]);
      CapturedTakes(route, s, k);
      LazyTakes(route, s, k + 1);
    }
  }

  lemma {:induction false} GreedyTakes(route: seq<Segment>, s: string, k: int, least: nat)
    requires k <= |s|
    ensures TakesBehind(route, s, Greedy(route, s, k, least))
    decreases |route|, 1, k
  {
    if k >= least {
      MatchTakes(route, s[k..]);
      CapturedTakes(route, s, k);
      GreedyTakes(route, s, k - 1, least);
    }
  }

  lemma CapturedTakes(route: seq<Segment>, s: string, k: nat)
    requires k <= |s| && TakesAll(route, s[k..], Match(route, s[k..]))
    ensures TakesBehind(route, s, Captured(Some(s[..k]), Match(route, s[k..])))
  {
    var m := Match(route, s[k..]);
    if m.Some? { assert ([Some(s[..k])] + m.value)[1..] == m.value; }
  }

  lemma {:induction false} FilledTaken(route: seq<Segment>, params: Params)
    requires AllSuit(route, params)
    ensures |Text(FillAll(route, params))| == Taken(route, ReadsAll(route, params))
  {
    if route != [] {
      assert forall i :: 0 <= i < |route| - 1 ==> route[1..][i] == route[i + 1];
      assert Suits(route[0], params);
      FilledTaken(route[1..], params);
      FilledText(route[0], route, params);
      var values := ReadsAll(route, params);
      assert !route[0].Literal? ==> values[0] == Reads(route[0], params)[0] && values[1..] == ReadsAll(route[1..], params);
      assert route[0].Literal? ==> values == ReadsAll(route[1..], params);
    }
  }

  /** The rest value is there, and empty. */
  predicate EndsEmpty(route: seq<Segment>, given: Captures)
  {
    route != [] && route[|route| - 1].Rest? && given != [] && given[|given| - 1] == Some("")
  }

  /** Captures that agree with what was given take no less of a path, but for the slash of an empty
      rest value. */
  lemma {:induction false} AgreeingTakes(route: seq<Segment>, m: Captures, given: Captures)
    requires RestLast(route) && |m| == |given| == |ParamsOf(route)|
    requires forall k :: 0 <= k < |m| ==> Agrees(ParamsOf(route)[k], m[k], given[k])
    ensures Taken(route, given) <= Taken(route, m) + if EndsEmpty(route, given) then 1 else 0
  {
    if route != [] {
      var rest := route[1..];
      assert forall i :: 0 <= i < |route| - 1 ==> rest[i] == route[i + 1];
      if route[0].Literal? {
        assert ParamsOf(route) == ParamsOf(rest);
        AgreeingTakes(rest, m, given);
      } else {
        assert ParamsOf(route)[1..] == ParamsOf(rest);
        assert Agrees(ParamsOf(route)[0], m[0], given[0]);
        forall k | 0 <= k < |m| - 1 ensures Agrees(ParamsOf(rest)[k], m[1..][k], given[1..][k]) {
          assert Agrees(ParamsOf(route)[k + 1], m[k + 1], given[k + 1]);
        }
        AgreeingTakes(rest, m[1..], given[1..]);
        if m[0].Some? { DecodedLength(m[0].value); }
      }
    }
  }

  lemma ReadsOne(s: Segment, params: Params)
    requires s.Rest? && ReadsAll([s], params)[|ReadsAll([s], params)| - 1] == Some("")
    ensures Show(Filled(s, params)[0]) == ""
  {
    assert [s][1..] == [] && ReadsAll([s], params) == Reads(s, params) + [];
  }

  lemma LastReadsBelow(route: seq<Segment>, params: Params)
    requires |route| > 1 && EndsEmpty(route, ReadsAll(route, params))
    ensures EndsEmpty(route[1..], ReadsAll(route[1..], params))
  {
    var below := ReadsAll(route[1..], params);
    LastIsOpen(route[1..], params);
    assert (Reads(route[0], params) + below)[|Reads(route[0], params)| + |below| - 1] == below[|below| - 1];
  }

  lemma {:induction false} EndsInSlash(route: seq<Segment>, params: Params)
    requires RestLast(route) && AllSuit(route, params) && EndsEmpty(route, ReadsAll(route, params))
    ensures var text := Text(FillAll(route, params)); text != [] && text[|text| - 1] == '/'
  {
    hide Text, FillAll, ReadsAll;
    Below(route, params);
    FilledText(route[0], route, params);
    if |route| == 1 {
      assert route == [route[0]] && route[1..] == [];
      ReadsOne(route[0], params);
      NothingFilled(params);
    } else {
      LastReadsBelow(route, params);
      EndsInSlash(route[1..], params);
    }
  }

  lemma NothingFilled(params: Params)
    ensures Text(FillAll([], params)) == []
  {}

  lemma {:induction false} LastIsOpen(route: seq<Segment>, params: Params)
    requires route != [] && !route[|route| - 1].Literal?
    ensures ReadsAll(route, params) != []
  {
    if |route| > 1 { LastIsOpen(route[1..], params); }
  }

  /** A path that is cut off somewhere does not read back as given. */
  lemma CutIsNotGiven(route: seq<Segment>, params: Params, path: string, m: Captures)
    requires RestLast(route) && AllSuit(route, params) && NamesDiffer(ParamsOf(route)) && Match(route, path) == Some(m)
    requires var link := Text(FillAll(route, params)); path <= link && path != link && link[|path|] == '?'
    ensures |m| == |ParamsOf(route)| == |ReadsAll(route, params)|
    ensures SetAll(ParamsOf(route), m) != Some(Given(ParamsOf(route), ReadsAll(route, params)))
  {
    AsManyAsParams(route, params);
    AsManyCaptures(route, path);
    GivenIsLong(route, params, path, m);
  }

  lemma GivenIsLong(route: seq<Segment>, params: Params, path: string, m: Captures)
    requires RestLast(route) && AllSuit(route, params) && NamesDiffer(ParamsOf(route)) && Match(route, path) == Some(m)
    requires |m| == |ParamsOf(route)| == |ReadsAll(route, params)|
    ensures var link := Text(FillAll(route, params));
            SetAll(ParamsOf(route), m) == Some(Given(ParamsOf(route), ReadsAll(route, params))) ==>
              |link| <= |path| || (|link| <= |path| + 1 && link[|link| - 1] == '/')
  {
    var ps, given := ParamsOf(route), ReadsAll(route, params);
    if SetAll(ps, m) == Some(Given(ps, given)) {
      forall k | 0 <= k < |m| ensures Agrees(ps[k], m[k], given[k]) { ReadAsGiven(ps, m, given, k); }
      AgreeingTakes(route, m, given);
      MatchTakes(route, path);
      FilledTaken(route, params);
      if EndsEmpty(route, given) { EndsInSlash(route, params); }
    }
  }

  /** What comes through for a route that has segments. */
  lemma RouteReceives(route: seq<Segment>, params: Params)
    requires RestLast(route) && AllSuit(route, params) && NamesDiffer(ParamsOf(route))
    ensures var link := Text(FillAll(route, params));
            var m := Match(route, PathOf(link));
            |ParamsOf(route)| == |ReadsAll(route, params)| && (m.Some? ==> |m.value| == |ParamsOf(route)|) &&
            (m.Some? && SetAll(ParamsOf(route), m.value) == Some(Given(ParamsOf(route), ReadsAll(route, params))) <==>
             NoneGrabs(route, params) && NoPercent(ReadsAll(route, params)) && '?' !in link)
  {
    hide Match, Fits, Values, FillAll, Text, SetAll, Given, ReadsAll, ParamsOf, Grabs, PathOf;
    var link := Text(FillAll(route, params));
    AsManyAsParams(route, params);
    ReadsBackExactly(route, params);
    AsManyCaptures(route, PathOf(link));
    PathOfPlain(link);
    var m := Match(route, PathOf(link));
    if m.Some? {
      if '?' in link {
        CutIsNotGiven(route, params, PathOf(link), m.value);
      } else {
        RouteComesBack(route, params, m.value);
      }
    }
  }

  /** From link to parameters, for every page of plain segments: what the page receives is what the
      link was given exactly if no left-out optional parameter takes a later one's value, no value
      contains a percent sign, and the link no question mark: values are filled in as they are, but
      decoded, and the URL is cut, when they are read back. */
  lemma ParamsComeBack(url: string, params: Params)
    requires var route := ParseAll(SegmentsOf(url));
             AllTidy(route) && RestLast(route) && AllSuit(route, params) && NamesDiffer(ParamsOf(route))
    requires PlainParams(params)
    ensures var route := ParseAll(SegmentsOf(url));
            var link := ResolveHref(WithoutGroups(url), params);
            |ParamsOf(route)| == |ReadsAll(route, params)| &&
            (Receives(url, link) == Some(Given(ParamsOf(route), ReadsAll(route, params))) <==>
             NoneGrabs(route, params) && NoPercent(ReadsAll(route, params)) && '?' !in link)
  {
    hide ParseAll, SegmentsOf, WithoutGroups, ResolveHref, Match, FillAll, Text, SetAll, Fits, Values, PathOf, Grabs;
    var route := ParseAll(SegmentsOf(url));
    FilledLink(url, params);
    RouteReceives(route, params);
    if route == [] {
      BareReceives(url);
    } else {
      RootIsBare();
    }
  }

  lemma RootIsBare()
    ensures ParseAll(SegmentsOf(['/'])) == []
  {
    assert Kept([""]) == Kept([""][..0]) + [];
  }

  /** The root page, and a page whose URL holds only groups. */
  lemma BareReceives(url: string)
    requires ParseAll(SegmentsOf(url)) == []
    ensures Receives(url, ['/']) == Some(map[]) && '?' !in ['/']
  {
    assert PathOf(['/']) == ['/'] + PathOf(['/'][1..]);
  }

  lemma {:induction false} CutAtQuestion(w: string, b: string)
    requires '?' !in w
    ensures PathOf(w + ['?'] + b) == w
  {
    if w == [] {
      assert w + ['?'] + b == ['?'] + b;
    } else {
      CutAtQuestion(w[1..], b);
      assert (w + ['?'] + b)[1..] == w[1..] + ['?'] + b;
    }
  }

  lemma OneParamLink(n: string, v: string)
    ensures var route, params := [Param(n)], map[n := v];
            Text(FillAll(route, params)) == ['/'] + v && ReadsAll(route, params) == [Some(v)] && NoneGrabs(route, params)
  {
    var route, params := [Param(n)], map[n := v];
    assert route[1..] == [] && FillAll(route, params) == [Literal(v)] + [];
    TextCons(Literal(v), []);
    assert [Literal(v)] + [] == [Literal(v)] && ['/'] + v + [] == ['/'] + v;
  }

  /** Text that needs no escaping in a path. */
  predicate Safe(a: string) { '/' !in a && '?' !in a && '%' !in a }

  lemma QuestionSuits(n: string, v: string)
    requires v != [] && '/' !in v && '%' !in v
    ensures var route, params := [Param(n)], map[n := v];
            AllSuit(route, params) && NoneGrabs(route, params) && NoPercent(ReadsAll(route, params))
  {
    OneParamLink(n, v);
  }

  lemma OneParamMatch(n: string, a: string)
    requires a != [] && '/' !in a
    ensures Match([Param(n)], ['/'] + a) == Some([Some(a)])
  {
    var route, none: Captures := [Param(n)], [];
    ParamTakes(a, route, []);
    assert ['/'] + a + [] == ['/'] + a && Match([], []) == Some(none) && [Some(a)] + none == [Some(a)];
  }

  /** A question mark in a value cuts it off, though nothing else is wrong: the link /a?b of a page
      /[id] gives the page a. */
  lemma QuestionCuts(n: string, a: string, b: string)
    requires a != [] && Safe(a) && Safe(b)
    ensures var route, params := [Param(n)], map[n := a + ['?'] + b];
            AllSuit(route, params) && NoneGrabs(route, params) && NoPercent(ReadsAll(route, params)) &&
            Match(route, PathOf(Text(FillAll(route, params)))) == Some([Some(a)]) && Decode(a) == Some(a)
  {
    hide Match, FillAll, Text, ReadsAll, NoneGrabs, AllSuit, NoPercent, PathOf, Decode;
    var v := a + ['?'] + b;
    QuestionSuits(n, v);
    OneParamLink(n, v);
    assert ['/'] + v == (['/'] + a) + ['?'] + b;
    CutAtQuestion(['/'] + a, b);
    DecodesToItself(a);
    OneParamMatch(n, a);
  }
}
