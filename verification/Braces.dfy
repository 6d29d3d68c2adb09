// Brace expansion of plugins/glob/walker.go: the first brace group is replaced by each of
// its options in turn and the results are expanded again.
module Braces {
  import opened Strings

  /** The first position of c in s, or -1. */
  function IndexOf(s: string, c: char): (i: int)
    ensures -1 <= i < |s|
  {
    if s == [] then -1
    else if s[0] == c then 0
    else
      var i := IndexOf(s[1..], c);
      if i == -1 then -1 else i + 1
  }

  lemma {:induction false} IndexOfFinds(s: string, c: char)
    ensures var i := IndexOf(s, c);
            if i == -1 then c !in s else s[i] == c && c !in s[..i]
  {
    if s != [] && s[0] != c {
      IndexOfFinds(s[1..], c);
      var i := IndexOf(s[1..], c);
      if i >= 0 {
        assert s[..i + 1] == [s[0]] + s[1..][..i];
      }
    }
  }

  /** The number of closing braces: every expansion uses one up. */
  function Closers(s: string): nat
  {
    if s == [] then 0 else (if s[0] == '}' then 1 else 0) + Closers(s[1..])
  }

  lemma {:induction false} ClosersConcat(s: string, t: string)
    ensures Closers(s + t) == Closers(s) + Closers(t)
  {
    if s == [] {
      assert s + t == t;
    } else {
      ClosersConcat(s[1..], t);
      assert (s + t)[1..] == s[1..] + t;
    }
  }

  lemma {:induction false} NoClosers(s: string)
    requires '}' !in s
    ensures Closers(s) == 0
  {
    if s != [] { NoClosers(s[1..]); }
  }

  lemma {:induction false} SplitWithout(s: string, sep: char, c: char)
    requires c !in s
    ensures forall k :: 0 <= k < |Split(s, sep)| ==> c !in Split(s, sep)[k]
  {
    if s != [] { SplitWithout(s[1..], sep, c); }
  }

  datatype Group = NoGroup | Group(prefix: string, options: string, suffix: string)

  /** No closing brace follows an opening one. */
  ghost predicate Expanded(s: string)
  {
    forall i, j :: 0 <= i < j < |s| && s[i] == '{' ==> s[j] != '}'
  }

  /** The first opening brace, the first closing brace after it, and what lies around them. */
  function FirstGroup(pattern: string): Group
  {
    var start := IndexOf(pattern, '{');
    if start == -1 then NoGroup
    else
      var close := IndexOf(pattern[start..], '}');
      if close <= 0 then NoGroup
      else Group(pattern[..start], pattern[start + 1..start + close], pattern[start + close + 1..])
  }

  ghost predicate Splits(pattern: string, g: Group)
  {
    if g.Group? then
      && pattern == g.prefix + ("{" + g.options + "}" + g.suffix)
      && '{' !in g.prefix && '}' !in g.options
      && Closers(g.prefix + g.suffix) < Closers(pattern)
    else Expanded(pattern)
  }

  lemma FirstGroupSplits(pattern: string)
    ensures Splits(pattern, FirstGroup(pattern))
  {
    hide IndexOf, Closers, Expanded;
    var start := IndexOf(pattern, '{');
    IndexOfFinds(pattern, '{');
    if start >= 0 {
      var close := IndexOf(pattern[start..], '}');
      IndexOfFinds(pattern[start..], '}');
      if close >= 0 {
        GroupSplits(pattern, start, close);
      } else {
        OpenOnly(pattern, start);
      }
    } else {
      assert pattern[..|pattern|] == pattern && pattern[|pattern|..] == [];
      OpenOnly(pattern, |pattern|);
    }
  }

  lemma GroupSplits(p: string, a: nat, b: nat)
    requires a + b < |p| && p[a] == '{' && '{' !in p[..a] && p[a + b] == '}' && '}' !in p[a..][..b]
    ensures b > 0 && Splits(p, Group(p[..a], p[a + 1..a + b], p[a + b + 1..]))
  {
    Reassemble(p, a, b);
    GroupClosers(p[..a], p[a + 1..a + b], p[a + b + 1..]);
  }

  lemma OpenOnly(p: string, start: nat)
    requires start <= |p| && '{' !in p[..start] && '}' !in p[start..]
    ensures Expanded(p)
  {
    assert forall i :: 0 <= i < start ==> p[..start][i] == p[i];
    assert forall j :: start <= j < |p| ==> p[start..][j - start] == p[j];
  }

  lemma Reassemble(p: string, start: nat, close: nat)
    requires start + close < |p| && p[start] == '{' && p[start + close] == '}' && '}' !in p[start..][..close]
    ensures close > 0 && p == p[..start] + ("{" + p[start + 1..start + close] + "}" + p[start + close + 1..])
    ensures '}' !in p[start + 1..start + close]
  {
    var options := p[start + 1..start + close];
    assert forall k :: 0 <= k < |options| ==> options[k] == p[start..][..close][k + 1];
  }

  lemma GroupClosers(prefix: string, options: string, suffix: string)
    ensures Closers(prefix + suffix) < Closers(prefix + ("{" + options + "}" + suffix))
  {
    ClosersConcat(prefix, "{" + options + "}" + suffix);
    ClosersConcat("{" + options + "}", suffix);
    ClosersConcat("{" + options, "}");
    ClosersConcat(prefix, suffix);
  }

  lemma FirstGroupIs(prefix: string, options: string, suffix: string)
    requires '{' !in prefix && '}' !in options
    ensures FirstGroup(prefix + ("{" + options + "}" + suffix)) == Group(prefix, options, suffix)
  {
    CutGroup(prefix, options, suffix);
    FirstGroupAt(prefix + ("{" + options + "}" + suffix), |prefix|, 1 + |options|);
  }

  lemma FirstGroupAt(p: string, a: nat, b: nat)
    requires 0 < b && a + b < |p| && p[a] == '{' && '{' !in p[..a]
    requires p[a..][b] == '}' && '}' !in p[a..][..b]
    ensures FirstGroup(p) == Group(p[..a], p[a + 1..a + b], p[a + b + 1..])
  {
    IndexOfAt(p, '{', a);
    IndexOfAt(p[a..], '}', b);
  }

  lemma CutGroup(prefix: string, options: string, suffix: string)
    ensures var p, a, b := prefix + ("{" + options + "}" + suffix), |prefix|, 1 + |options|;
            && p[a] == '{' && p[..a] == prefix
            && p[a..][b] == '}' && p[a..][..b] == "{" + options
            && p[a + 1..a + b] == options && p[a + b + 1..] == suffix
  {
  }

  lemma {:induction false} IndexOfAt(s: string, c: char, k: nat)
    requires k < |s| && s[k] == c && c !in s[..k]
    ensures IndexOf(s, c) == k
  {
    if k > 0 {
      assert s[..k] == [s[0]] + s[1..][..k - 1];
      IndexOfAt(s[1..], c, k - 1);
    }
  }

  /** expandBraces */
  function ExpandBraces(pattern: string): seq<string>
    decreases Closers(pattern), 0, 0
  {
    FirstGroupSplits(pattern);
    match FirstGroup(pattern)
    case NoGroup => [pattern]
    case Group(prefix, options, suffix) =>
      SplitWithout(options, ',', '}');
      ExpandOptions(prefix, Split(options, ','), suffix)
  }

  function ExpandOptions(prefix: string, options: seq<string>, suffix: string): seq<string>
    requires forall k :: 0 <= k < |options| ==> '}' !in options[k]
    decreases Closers(prefix + suffix), 1, |options|
  {
    if options == [] then []
    else
      OptionClosers(prefix, options[0], suffix);
      ExpandBraces(prefix + options[0] + suffix) + ExpandOptions(prefix, options[1..], suffix)
  }

  lemma OptionClosers(prefix: string, option: string, suffix: string)
    requires '}' !in option
    ensures Closers(prefix + option + suffix) == Closers(prefix + suffix)
  {
    NoClosers(option);
    ClosersConcat(prefix, suffix);
    ClosersConcat(prefix + option, suffix);
    ClosersConcat(prefix, option);
  }

  // ---------------------------------------------------------------------------
  // What a pattern without nested braces expands to
  // ---------------------------------------------------------------------------

  datatype Piece = Literal(text: string) | Choice(options: seq<string>)

  ghost predicate Plain(s: string) { '{' !in s && '}' !in s }

  ghost predicate Flat(pieces: seq<Piece>)
  {
    forall k :: 0 <= k < |pieces| ==> FlatPiece(pieces[k])
  }

  ghost predicate FlatPiece(p: Piece)
  {
    match p
    case Literal(text) => Plain(text)
    case Choice(options) => |options| > 0 && Free(options, ',') && forall k :: 0 <= k < |options| ==> Plain(options[k])
  }

  function Render(pieces: seq<Piece>): string
  {
    if pieces == [] then ""
    else
      match pieces[0]
      case Literal(text) => text + Render(pieces[1..])
      case Choice(options) => "{" + Join(options, ",") + "}" + Render(pieces[1..])
  }

  function Prepend(s: string, words: seq<string>): (r: seq<string>)
    ensures |r| == |words| && forall k :: 0 <= k < |r| ==> r[k] == s + words[k]
  {
    seq(|words|, k requires 0 <= k < |words| => s + words[k])
  }

  /** All ways to pick one option per choice, leftmost choice varying slowest. */
  function Product(pieces: seq<Piece>): seq<string>
    decreases |pieces|, 0
  {
    if pieces == [] then [""]
    else
      match pieces[0]
      case Literal(text) => Prepend(text, Product(pieces[1..]))
      case Choice(options) => ProductOptions(options, Product(pieces[1..]))
  }

  function ProductOptions(options: seq<string>, rest: seq<string>): seq<string>
  {
    if options == [] then [] else Prepend(options[0], rest) + ProductOptions(options[1..], rest)
  }

  lemma {:induction false} JoinPlain(options: seq<string>)
    requires forall k :: 0 <= k < |options| ==> Plain(options[k])
    ensures Plain(Join(options, ","))
  {
    if |options| > 1 { JoinPlain(options[1..]); }
  }

  /** A pattern of literals and un-nested choices expands to the product of its choices, in order. */
  lemma {:induction false} ExpandIsProduct(pre: string, pieces: seq<Piece>)
    requires Plain(pre) && Flat(pieces)
    ensures ExpandBraces(pre + Render(pieces)) == Prepend(pre, Product(pieces))
    decreases |pieces|, 0, 0
  {
    if pieces == [] {
      IndexOfFinds(pre, '{');
      assert pre + Render(pieces) == pre;
    } else {
      var rest := Render(pieces[1..]);
      assert FlatPiece(pieces[0]) && Flat(pieces[1..]);
      match pieces[0]
      case Literal(text) =>
        assert pre + Render(pieces) == (pre + text) + rest;
        ExpandIsProduct(pre + text, pieces[1..]);
        PrependTwice(pre, text, Product(pieces[1..]));
      case Choice(options) =>
        var inside := Join(options, ",");
        assert pre + Render(pieces) == pre + ("{" + inside + "}" + rest);
        JoinPlain(options);
        FirstGroupIs(pre, inside, rest);
        JoinSplit(options, ',');
        ExpandOptionsIsProduct(pre, options, pieces[1..]);
    }
  }

  lemma {:induction false} ExpandOptionsIsProduct(pre: string, options: seq<string>, pieces: seq<Piece>)
    requires Plain(pre) && Flat(pieces) && forall k :: 0 <= k < |options| ==> Plain(options[k])
    ensures forall k :: 0 <= k < |options| ==> '}' !in options[k]
    ensures ExpandOptions(pre, options, Render(pieces)) == Prepend(pre, ProductOptions(options, Product(pieces)))
    decreases |pieces|, 1, |options|
  {
    if options != [] {
      assert Plain(options[0]);
      ExpandIsProduct(pre + options[0], pieces);
      ExpandOptionsIsProduct(pre, options[1..], pieces);
      PrependTwice(pre, options[0], Product(pieces));
      PrependConcat(pre, Prepend(options[0], Product(pieces)), ProductOptions(options[1..], Product(pieces)));
    }
  }

  lemma PrependTwice(a: string, b: string, words: seq<string>)
    ensures Prepend(a + b, words) == Prepend(a, Prepend(b, words))
  {
    assert forall k :: 0 <= k < |words| ==> (a + b) + words[k] == a + (b + words[k]);
  }

  lemma PrependConcat(a: string, v: seq<string>, w: seq<string>)
    ensures Prepend(a, v + w) == Prepend(a, v) + Prepend(a, w)
  {
  }

  /** Whatever the pattern, nothing is left to expand in any result. */
  lemma {:induction false} ExpandedFully(pattern: string)
    ensures forall s :: s in ExpandBraces(pattern) ==> Expanded(s)
    decreases Closers(pattern), 0, 0
  {
    FirstGroupSplits(pattern);
    var g := FirstGroup(pattern);
    if g.Group? {
      SplitWithout(g.options, ',', '}');
      OptionsExpandedFully(g.prefix, Split(g.options, ','), g.suffix);
    }
  }

  lemma {:induction false} OptionsExpandedFully(prefix: string, options: seq<string>, suffix: string)
    requires forall k :: 0 <= k < |options| ==> '}' !in options[k]
    ensures forall s :: s in ExpandOptions(prefix, options, suffix) ==> Expanded(s)
    decreases Closers(prefix + suffix), 1, |options|
  {
    if options != [] {
      OptionClosers(prefix, options[0], suffix);
      ExpandedFully(prefix + options[0] + suffix);
      OptionsExpandedFully(prefix, options[1..], suffix);
    }
  }
}
