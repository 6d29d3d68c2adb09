// Filling the parameters of a route into its URL
// (packages/houdini-react/runtime/resolve-href.ts): three replacements, one after the other.
module Hrefs {
  /** A path segment of a route: text, [name], [[name]] or [...name]. */
  datatype Segment = Literal(text: string) | Param(name: string) | Optional(name: string) | Rest(name: string)

  /** The parameter values that are present, as they are written into the URL. */
  type Params = map<string, string>

  function Show(s: Segment): string
  {
    match s
    case Literal(t) => t
    case Param(n) => ['['] + n + [']']
    case Optional(n) => ['[', '['] + n + [']', ']']
    case Rest(n) => ['[', '.', '.', '.'] + n + [']']
  }

  function Text(route: seq<Segment>): string
  {
    if route == [] then [] else ['/'] + Show(route[0]) + Text(route[1..])
  }

  // ---------------------------------------------------------------------------
  // Replacing bracketed names in a string
  // ---------------------------------------------------------------------------

  /** The longest prefix without a closing bracket. */
  function UpToBracket(s: string): (r: string)
    ensures |r| <= |s|
  {
    if s == [] || s[0] == ']' then [] else [s[0]] + UpToBracket(s[1..])
  }

  /** What the brackets of an expression open, any name without a closing bracket, close match at
      the start of s: the length of the name, or 0. */
  function NameAt(open: string, close: string, s: string): (n: nat)
    ensures n > 0 ==> |open| + n <= |s|
  {
    if !(open <= s) then 0
    else
      var name := UpToBracket(s[|open|..]);
      if close <= s[|open| + |name|..] then |name| else 0
  }

  /** String.replace with a global expression: the first match from the left, and so on behind it. */
  function ReplaceAll(open: string, close: string, render: string -> string, s: string): string
    requires open != []
    decreases |s|
  {
    if s == [] then []
    else
      var n := NameAt(open, close, s);
      if n == 0 then [s[0]] + ReplaceAll(open, close, render, s[1..])
      else
        render(s[|open|..|open| + n]) +
        ReplaceAll(open, close, render, if |open| + n + |close| <= |s| then s[|open| + n + |close|..] else [])
  }

  const OPTIONAL_OPEN := ['/', '[', '[']
  const REST_OPEN := ['[', '.', '.', '.']
  const PARAM_OPEN := ['[']

  function OptionalText(params: Params): string -> string { k => if k in params then ['/'] + params[k] else [] }

  function RestText(params: Params): string -> string { k => if k in params then params[k] else [] }

  function ParamText(params: Params): string -> string { k => if k in params then params[k] else k }

  /** resolveHref. */
  function ResolveHref(href: string, params: Params): string
  {
    var optional := ReplaceAll(OPTIONAL_OPEN, [']', ']'], OptionalText(params), href);
    var rest := ReplaceAll(REST_OPEN, [']'], RestText(params), optional);
    ReplaceAll(PARAM_OPEN, [']'], ParamText(params), rest)
  }

  // ---------------------------------------------------------------------------
  // One simultaneous substitution
  // ---------------------------------------------------------------------------

  function Filled(s: Segment, params: Params): seq<Segment>
  {
    match s
    case Literal(t) => [s]
    case Param(n) => [Literal(if n in params then params[n] else n)]
    case Optional(n) => if n in params then [Literal(params[n])] else []
    case Rest(n) => [Literal(if n in params then params[n] else [])]
  }

  function FillAll(route: seq<Segment>, params: Params): seq<Segment>
  {
    if route == [] then [] else Filled(route[0], params) + FillAll(route[1..], params)
  }

  /** The same, for one kind of segment. */
  function FillOnly(route: seq<Segment>, params: Params, kind: Segment -> bool): seq<Segment>
  {
    if route == [] then []
    else (if kind(route[0]) then Filled(route[0], params) else [route[0]]) + FillOnly(route[1..], params, kind)
  }

  predicate Plain(t: string) { '[' !in t && ']' !in t }

  predicate Word(n: string) { n != [] && Plain(n) && '.' !in n && '/' !in n }

  predicate Tidy(s: Segment) { if s.Literal? then Plain(s.text) else Word(s.name) }

  ghost predicate AllTidy(route: seq<Segment>) { forall i :: 0 <= i < |route| ==> Tidy(route[i]) }

  ghost predicate PlainParams(params: Params) { forall k :: k in params ==> Plain(params[k]) }

  // ---------------------------------------------------------------------------
  // A replacement, segment by segment
  // ---------------------------------------------------------------------------

  predicate Starts(s: string) { s == [] || s[0] == '/' }

  lemma {:induction false} UpToClosing(n: string, rest: string)
    requires ']' !in n
    ensures UpToBracket(n + [']'] + rest) == n
  {
    var s := n + [']'] + rest;
    if n != [] {
      assert s[1..] == n[1..] + [']'] + rest;
      UpToClosing(n[1..], rest);
    }
  }

  lemma NameHere(open: string, close: string, n: string, rest: string)
    requires n != [] && ']' !in n && close != [] && close[0] == ']'
    ensures NameAt(open, close, open + n + close + rest) == |n|
  {
    var s := open + n + close + rest;
    assert s[|open|..] == n + [']'] + (close[1..] + rest);
    UpToClosing(n, close[1..] + rest);
    assert s[|open| + |n|..] == close + rest;
    assert s[..|open|] == open;
  }

  lemma Slices(a: string, b: string, c: string, d: string)
    ensures var s := a + b + c + d; s[|a|..|a| + |b|] == b && s[|a| + |b| + |c|..] == d
  {}

  /** A match at the start of s. */
  lemma ReplaceHere(open: string, close: string, render: string -> string, n: string, rest: string)
    requires open != [] && n != [] && ']' !in n && close != [] && close[0] == ']'
    ensures ReplaceAll(open, close, render, open + n + close + rest) ==
            render(n) + ReplaceAll(open, close, render, rest)
  {
    NameHere(open, close, n, rest);
    Slices(open, n, close, rest);
  }

  lemma ReplaceLater(open: string, close: string, render: string -> string, c: char, rest: string)
    requires open != [] && NameAt(open, close, [c] + rest) == 0
    ensures ReplaceAll(open, close, render, [c] + rest) == [c] + ReplaceAll(open, close, render, rest)
  {
    assert ([c] + rest)[1..] == rest;
  }

  /** Text in which the expression cannot start is copied. */
  lemma {:induction false} CopyPlain(open: string, close: string, render: string -> string, t: string, rest: string)
    requires open != [] && forall i :: 0 <= i < |t| ==> !(open <= t[i..] + rest)
    ensures ReplaceAll(open, close, render, t + rest) == t + ReplaceAll(open, close, render, rest)
  {
    if t == [] {
      assert t + rest == rest;
    } else {
      assert t[0..] == t;
      assert t + rest == [t[0]] + (t[1..] + rest);
      ReplaceLater(open, close, render, t[0], t[1..] + rest);
      assert forall i :: 0 <= i < |t| - 1 ==> t[1..][i..] == t[i + 1..];
      CopyPlain(open, close, render, t[1..], rest);
      assert t == [t[0]] + t[1..];
    }
  }

  /** A bracketed name stands at the start of s. */
  ghost predicate Bracketed(open: string, close: string, s: string, n: string)
  {
    n != [] && ']' !in n && open + n + close <= s
  }

  ghost predicate NoNameAt(open: string, close: string, s: string) { forall n :: !Bracketed(open, close, s, n) }

  lemma {:induction false} UpToFree(s: string)
    ensures ']' !in UpToBracket(s) && UpToBracket(s) <= s
  {
    if s != [] && s[0] != ']' { UpToFree(s[1..]); }
  }

  lemma NoNameFound(open: string, close: string, s: string)
    requires NoNameAt(open, close, s)
    ensures NameAt(open, close, s) == 0
  {
    if open <= s {
      var n := UpToBracket(s[|open|..]);
      UpToFree(s[|open|..]);
      assert !Bracketed(open, close, s, n);
      if close <= s[|open| + |n|..] { assert s == open + n + close + s[|open| + |n| + |close|..]; }
    }
  }

  /** Text without a bracketed name stays, up to the first bracketed name that is there or the end. */
  lemma {:induction false} CopiedUpTo(open: string, close: string, render: string -> string, pre: string, rest: string)
    requires open != [] && forall i :: 0 <= i < |pre| ==> NoNameAt(open, close, pre[i..] + rest)
    ensures ReplaceAll(open, close, render, pre + rest) == pre + ReplaceAll(open, close, render, rest)
  {
    hide NoNameAt, ReplaceAll;
    if pre == [] {
      assert pre + rest == rest;
    } else {
      var c, more := pre[0], pre[1..];
      assert pre == [c] + more && NoNameAt(open, close, pre[0..] + rest) && pre[0..] == pre;
      OneCopied(open, close, render, c, more, rest);
      assert forall i :: 0 <= i < |more| ==> more[i..] == pre[i + 1..];
      CopiedUpTo(open, close, render, more, rest);
      Regrouped(c, more, ReplaceAll(open, close, render, rest));
    }
  }

  lemma OneCopied(open: string, close: string, render: string -> string, c: char, more: string, rest: string)
    requires open != [] && NoNameAt(open, close, [c] + more + rest)
    ensures ReplaceAll(open, close, render, [c] + more + rest) == [c] + ReplaceAll(open, close, render, more + rest)
  {
    hide NoNameAt, ReplaceAll;
    Regrouped(c, more, rest);
    NoNameFound(open, close, [c] + (more + rest));
    ReplaceLater(open, close, render, c, more + rest);
  }

  lemma Regrouped(c: char, more: string, rest: string)
    ensures [c] + more + rest == [c] + (more + rest)
  {}

  /** For every text: the first bracketed name from the left is rendered, what comes before it stays,
      and what comes behind is treated likewise; without one the text stays. */
  lemma ReplacesFirst(open: string, close: string, render: string -> string, pre: string, n: string, rest: string)
    requires open != [] && close != [] && close[0] == ']' && n != [] && ']' !in n
    ensures (forall i :: 0 <= i < |pre| ==> NoNameAt(open, close, pre[i..] + (open + n + close + rest))) ==>
              ReplaceAll(open, close, render, pre + (open + n + close + rest)) ==
              pre + (render(n) + ReplaceAll(open, close, render, rest))
    ensures (forall i :: 0 <= i < |pre| ==> NoNameAt(open, close, pre[i..] + [])) ==>
              ReplaceAll(open, close, render, pre) == pre
  {
    hide NoNameAt, ReplaceAll;
    if forall i :: 0 <= i < |pre| ==> NoNameAt(open, close, pre[i..] + (open + n + close + rest)) {
      CopiedUpTo(open, close, render, pre, open + n + close + rest);
      ReplaceHere(open, close, render, n, rest);
    }
    if forall i :: 0 <= i < |pre| ==> NoNameAt(open, close, pre[i..] + []) {
      CopiedUpTo(open, close, render, pre, []);
      EmptyStays(open, close, render);
      assert pre + [] == pre;
    }
  }

  lemma EmptyStays(open: string, close: string, render: string -> string)
    requires open != []
    ensures ReplaceAll(open, close, render, []) == []
  {}

  /** Where the rest is a sequence of segments, only an optional segment lets the first
      expression start. */
  lemma NoOptionalStart(s: Segment, rest: string, i: nat)
    requires Tidy(s) && !s.Optional? && Starts(rest) && i < 1 + |Show(s)|
    ensures !(OPTIONAL_OPEN <= (['/'] + Show(s))[i..] + rest)
  {
    var t := ['/'] + Show(s);
    var u := t[i..] + rest;
    assert u[0] == t[i];
    assert i + 1 < |t| ==> u[1] == t[i + 1];
    assert i + 2 < |t| ==> u[2] == t[i + 2];
    assert i + 1 == |t| && rest != [] ==> u[1] == rest[0];
  }

  lemma OptionalStep(s: Segment, params: Params, rest: string)
    requires Tidy(s) && Starts(rest)
    ensures ReplaceAll(OPTIONAL_OPEN, [']', ']'], OptionalText(params), ['/'] + Show(s) + rest) ==
            (if s.Optional? then OptionalText(params)(s.name) else ['/'] + Show(s)) +
            ReplaceAll(OPTIONAL_OPEN, [']', ']'], OptionalText(params), rest)
  {
    hide ReplaceAll;
    if s.Optional? {
      assert ['/'] + Show(s) + rest == OPTIONAL_OPEN + s.name + [']', ']'] + rest;
      ReplaceHere(OPTIONAL_OPEN, [']', ']'], OptionalText(params), s.name, rest);
    } else {
      forall i | 0 <= i < |['/'] + Show(s)| ensures !(OPTIONAL_OPEN <= (['/'] + Show(s))[i..] + rest) {
        NoOptionalStart(s, rest, i);
      }
      CopyPlain(OPTIONAL_OPEN, [']', ']'], OptionalText(params), ['/'] + Show(s), rest);
    }
  }

  /** Once the optional segments are gone only a rest segment lets the second expression start. */
  lemma NoRestStart(s: Segment, rest: string, i: nat)
    requires Tidy(s) && (s.Literal? || s.Param?) && i < 1 + |Show(s)|
    ensures !(REST_OPEN <= (['/'] + Show(s))[i..] + rest)
  {
    var t := ['/'] + Show(s);
    var u := t[i..] + rest;
    assert u[0] == t[i];
    assert i + 1 < |t| ==> u[1] == t[i + 1];
  }

  lemma RestReplaced(n: string, params: Params, rest: string)
    requires Word(n)
    ensures ReplaceAll(REST_OPEN, [']'], RestText(params), ['/'] + (REST_OPEN + n + [']'] + rest)) ==
            ['/'] + (RestText(params)(n) + ReplaceAll(REST_OPEN, [']'], RestText(params), rest))
  {
    ReplaceLater(REST_OPEN, [']'], RestText(params), '/', REST_OPEN + n + [']'] + rest);
    ReplaceHere(REST_OPEN, [']'], RestText(params), n, rest);
  }

  lemma RestCopied(s: Segment, params: Params, rest: string)
    requires Tidy(s) && (s.Literal? || s.Param?)
    ensures ReplaceAll(REST_OPEN, [']'], RestText(params), ['/'] + Show(s) + rest) ==
            ['/'] + Show(s) + ReplaceAll(REST_OPEN, [']'], RestText(params), rest)
  {
    forall i | 0 <= i < |['/'] + Show(s)| ensures !(REST_OPEN <= (['/'] + Show(s))[i..] + rest) {
      NoRestStart(s, rest, i);
    }
    CopyPlain(REST_OPEN, [']'], RestText(params), ['/'] + Show(s), rest);
  }

  lemma RestStep(s: Segment, params: Params, rest: string)
    requires Tidy(s) && !s.Optional?
    ensures ReplaceAll(REST_OPEN, [']'], RestText(params), ['/'] + Show(s) + rest) ==
            (if s.Rest? then ['/'] + RestText(params)(s.name) else ['/'] + Show(s)) +
            ReplaceAll(REST_OPEN, [']'], RestText(params), rest)
  {
    hide ReplaceAll;
    if s.Rest? {
      assert ['/'] + Show(s) + rest == ['/'] + (REST_OPEN + s.name + [']'] + rest);
      RestReplaced(s.name, params, rest);
    } else {
      RestCopied(s, params, rest);
    }
  }

  lemma ParamStep(s: Segment, params: Params, rest: string)
    requires Tidy(s) && (s.Literal? || s.Param?)
    ensures ReplaceAll(PARAM_OPEN, [']'], ParamText(params), ['/'] + Show(s) + rest) ==
            (if s.Param? then ['/'] + ParamText(params)(s.name) else ['/'] + Show(s)) +
            ReplaceAll(PARAM_OPEN, [']'], ParamText(params), rest)
  {
    if s.Param? {
      var tail := PARAM_OPEN + s.name + [']'] + rest;
      assert ['/'] + Show(s) + rest == ['/'] + tail;
      ReplaceLater(PARAM_OPEN, [']'], ParamText(params), '/', tail);
      ReplaceHere(PARAM_OPEN, [']'], ParamText(params), s.name, rest);
    } else {
      var t := ['/'] + s.text;
      forall i | 0 <= i < |t| ensures !(PARAM_OPEN <= t[i..] + rest) {
        assert (t[i..] + rest)[0] == t[i];
      }
      CopyPlain(PARAM_OPEN, [']'], ParamText(params), t, rest);
    }
  }

  // ---------------------------------------------------------------------------
  // The three replacements are one substitution
  // ---------------------------------------------------------------------------

  lemma TextStarts(route: seq<Segment>)
    ensures Starts(Text(route))
  {}

  lemma TextCons(s: Segment, route: seq<Segment>)
    ensures Text([s] + route) == ['/'] + Show(s) + Text(route)
  {
    assert ([s] + route)[1..] == route;
  }

  const IS_OPTIONAL := (s: Segment) => s.Optional?
  const IS_REST := (s: Segment) => s.Rest?
  const IS_PARAM := (s: Segment) => s.Param?

  lemma {:induction false} OptionalsFilled(route: seq<Segment>, params: Params)
    requires AllTidy(route)
    ensures ReplaceAll(OPTIONAL_OPEN, [']', ']'], OptionalText(params), Text(route)) ==
            Text(FillOnly(route, params, IS_OPTIONAL))
  {
    if route != [] {
      var s, rest := route[0], route[1..];
      TextStarts(rest);
      OptionalStep(s, params, Text(rest));
      OptionalsFilled(rest, params);
      var after := FillOnly(rest, params, IS_OPTIONAL);
      if s.Optional? && s.name !in params {
        assert [] + after == after;
      } else {
        TextCons(if s.Optional? then Literal(params[s.name]) else s, after);
      }
    }
  }

  lemma {:induction false} RestsFilled(route: seq<Segment>, params: Params)
    requires AllTidy(route) && forall i :: 0 <= i < |route| ==> !route[i].Optional?
    ensures ReplaceAll(REST_OPEN, [']'], RestText(params), Text(route)) == Text(FillOnly(route, params, IS_REST))
  {
    if route != [] {
      var s, rest := route[0], route[1..];
      RestStep(s, params, Text(rest));
      RestsFilled(rest, params);
      TextCons(if s.Rest? then Filled(s, params)[0] else s, FillOnly(rest, params, IS_REST));
    }
  }

  lemma {:induction false} ParamsFilled(route: seq<Segment>, params: Params)
    requires AllTidy(route) && forall i :: 0 <= i < |route| ==> route[i].Literal? || route[i].Param?
    ensures ReplaceAll(PARAM_OPEN, [']'], ParamText(params), Text(route)) == Text(FillOnly(route, params, IS_PARAM))
  {
    if route != [] {
      var s, rest := route[0], route[1..];
      ParamStep(s, params, Text(rest));
      ParamsFilled(rest, params);
      TextCons(if s.Param? then Filled(s, params)[0] else s, FillOnly(rest, params, IS_PARAM));
    }
  }

  /** What a step leaves: segments of the kind are text now, and everything is still tidy. */
  lemma {:induction false} FillOnlyKeeps(route: seq<Segment>, params: Params, kind: Segment -> bool, i: nat)
    requires AllTidy(route) && PlainParams(params) && i < |FillOnly(route, params, kind)|
    ensures Tidy(FillOnly(route, params, kind)[i])
    ensures FillOnly(route, params, kind)[i].Literal? ||
            (FillOnly(route, params, kind)[i] in route && !kind(FillOnly(route, params, kind)[i]))
  {
    var first := if kind(route[0]) then Filled(route[0], params) else [route[0]];
    if i < |first| {
      assert FillOnly(route, params, kind)[i] == first[i];
    } else {
      FillOnlyKeeps(route[1..], params, kind, i - |first|);
      assert FillOnly(route, params, kind)[i] == FillOnly(route[1..], params, kind)[i - |first|];
    }
  }

  lemma {:induction false} FillSteps(route: seq<Segment>, params: Params)
    ensures FillOnly(FillOnly(FillOnly(route, params, IS_OPTIONAL), params, IS_REST), params, IS_PARAM) ==
            FillAll(route, params)
  {
    if route != [] {
      FillSteps(route[1..], params);
      var rest := FillOnly(route[1..], params, IS_OPTIONAL);
      var s := route[0];
      if s.Optional? && s.name !in params {
        assert [] + rest == rest;
        assert [] + FillAll(route[1..], params) == FillAll(route[1..], params);
      } else {
        var one := if s.Optional? then Literal(params[s.name]) else s;
        assert ([one] + rest)[1..] == rest;
        var two := if one.Rest? then Filled(one, params)[0] else one;
        var after := FillOnly(rest, params, IS_REST);
        assert FillOnly([one] + rest, params, IS_REST) == [two] + after;
        assert ([two] + after)[1..] == after;
      }
    }
  }

  /** For tidy routes and values without brackets the three replacements, each on what the one
      before left, are the simultaneous substitution of all segments. */
  lemma ResolveIsSubstitution(route: seq<Segment>, params: Params)
    requires AllTidy(route) && PlainParams(params)
    ensures ResolveHref(Text(route), params) == Text(FillAll(route, params))
  {
    var one := FillOnly(route, params, IS_OPTIONAL);
    forall i | 0 <= i < |one| ensures Tidy(one[i]) && !one[i].Optional? { FillOnlyKeeps(route, params, IS_OPTIONAL, i); }
    var two := FillOnly(one, params, IS_REST);
    forall i | 0 <= i < |two| ensures Tidy(two[i]) && (two[i].Literal? || two[i].Param?) {
      FillOnlyKeeps(one, params, IS_REST, i);
    }
    OptionalsFilled(route, params);
    RestsFilled(one, params);
    ParamsFilled(two, params);
    FillSteps(route, params);
  }
}
