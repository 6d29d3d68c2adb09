// Laws for each kind of piece a text can begin with: what blanking comments makes of the piece, and
// that behind it the text is blanked as if it began there.
module CommentLaws {
  import opened Comments

  /** Behind a place that is in code, the text is lexed as if it began there. */
  lemma {:induction false} LexedAfresh(src: string, n: nat, k: nat)
    requires n + k <= |src| && ModeAt(src, n) == Code
    ensures ModeAt(src, n + k) == ModeAt(src[n..], k)
  {
    if k > 0 {
      LexedAfresh(src, n, k - 1);
      assert src[n..][k - 1] == src[n + k - 1];
    }
  }

  lemma SplitsInCode(src: string, n: nat)
    requires n <= |src| && ModeAt(src, n) == Code
    ensures Stripped(src)[n..] == Stripped(src[n..])
  {
    forall k | 0 <= k < |src| - n ensures Stripped(src)[n + k] == Stripped(src[n..])[k] {
      LexedAfresh(src, n, k);
      assert src[n..][k] == src[n + k];
    }
  }

  /** A piece that ends in code, and what becomes of it. */
  lemma PieceThen(piece: string, rest: string, blanked: string)
    requires |blanked| == |piece| && ModeAt(piece + rest, |piece|) == Code
    requires forall k :: 0 <= k < |piece| ==> Blanked(piece + rest, k) == blanked[k]
    ensures Stripped(piece + rest) == blanked + Stripped(rest)
  {
    var src := piece + rest;
    SplitsInCode(src, |piece|);
    assert src[|piece|..] == rest;
    assert Stripped(src)[..|piece|] == blanked;
    assert Stripped(src) == Stripped(src)[..|piece|] + Stripped(src)[|piece|..];
  }

  /** Spaces for all but newlines. */
  function Spaces(t: string): (r: string)
    ensures |r| == |t| && forall k :: 0 <= k < |t| ==> r[k] == if t[k] == '\n' then '\n' else ' '
  {
    seq(|t|, k requires 0 <= k < |t| => if t[k] == '\n' then '\n' else ' ')
  }

  // ---------------------------------------------------------------------------
  // Code
  // ---------------------------------------------------------------------------

  /** A character that opens nothing stays. */
  lemma PlainStays(c: char, rest: string)
    requires c !in {'\'', '\"', '`'} && !(c == '/' && rest != [] && rest[0] in {'/', '*'})
    ensures Stripped([c] + rest) == [c] + Stripped(rest)
  {
    var src := [c] + rest;
    assert rest != [] ==> src[1] == rest[0];
    assert ModeAt(src, 0) == Code && ModeAt(src, 1) == Code;
    PieceThen([c], rest, [c]);
  }

  // ---------------------------------------------------------------------------
  // Comments
  // ---------------------------------------------------------------------------

  /** A line comment becomes spaces up to the end of its line. */
  lemma LineBlanked(body: string, rest: string)
    requires '\n' !in body && (rest == [] || rest[0] == '\n')
    ensures Stripped(['/', '/'] + body + rest) == Spaces(['/', '/'] + body) + Stripped(rest)
  {
    var piece := ['/', '/'] + body;
    if rest == [] {
      LineToEnd(body);
      assert piece + rest == piece && Spaces(piece) + Stripped(rest) == Spaces(piece);
    } else {
      LineToEnd(body);
      NewlineEnds(body, rest);
    }
  }

  lemma {:induction false} LineMode(body: string, rest: string, k: nat)
    requires '\n' !in body && 0 < k <= 2 + |body|
    ensures ModeAt(['/', '/'] + body + rest, k) == Line
  {
    var src := ['/', '/'] + body + rest;
    if k > 1 {
      LineMode(body, rest, k - 1);
      assert k > 2 ==> src[k - 1] == body[k - 3] && body[k - 3] in body;
    } else {
      assert ModeAt(src, 0) == Code;
    }
  }

  lemma LineToEnd(body: string)
    requires '\n' !in body
    ensures Stripped(['/', '/'] + body) == Spaces(['/', '/'] + body)
  {
    var src := ['/', '/'] + body;
    assert src + [] == src;
    forall k | 0 <= k < |src| ensures Blanked(src, k) == ' ' && src[k] != '\n' {
      if k > 0 { LineMode(body, [], k); }
      assert k >= 2 ==> src[k] == body[k - 2] && body[k - 2] in body;
    }
  }

  /** The newline behind it is code again. */
  lemma NewlineEnds(body: string, rest: string)
    requires '\n' !in body && rest != [] && rest[0] == '\n'
    ensures Stripped(['/', '/'] + body + rest) == Spaces(['/', '/'] + body) + Stripped(rest)
  {
    var piece, tail := ['/', '/'] + body, rest[1..];
    var src := piece + rest;
    assert src == (piece + ['\n']) + tail && src[|piece|] == '\n';
    LineMode(body, rest, |piece|);
    forall k | 0 <= k < |piece| + 1 ensures Blanked(src, k) == (Spaces(piece) + ['\n'])[k] {
      if 0 < k < |piece| { LineMode(body, rest, k); }
      assert 2 <= k < |piece| ==> src[k] == body[k - 2] && body[k - 2] in body;
    }
    PieceThen(piece + ['\n'], tail, Spaces(piece) + ['\n']);
    PlainStays('\n', tail);
    assert rest == ['\n'] + tail;
    assert Spaces(piece) + ['\n'] + Stripped(tail) == Spaces(piece) + (['\n'] + Stripped(tail));
  }

  /** No star and slash one behind the other. */
  predicate Unclosed(t: string) { forall i :: 0 <= i < |t| - 1 ==> !(t[i] == '*' && t[i + 1] == '/') }

  lemma {:induction false} BlockMode(body: string, rest: string, k: nat)
    requires Unclosed(body) && k <= |body| && (k == |body| > 0 && rest != [] ==> !(body[k - 1] == '*' && rest[0] == '/'))
    ensures ModeAt(['/', '*'] + body + rest, 2 + k) == Block
  {
    var src := ['/', '*'] + body + rest;
    if k > 0 {
      BlockMode(body, rest, k - 1);
      assert src[1 + k] == body[k - 1];
      assert k < |body| ==> src[2 + k] == body[k];
      assert k == |body| && rest != [] ==> src[2 + k] == rest[0];
    } else {
      assert ModeAt(src, 0) == Code && ModeAt(src, 1) == Opening;
    }
  }

  lemma BlockChar(body: string, rest: string, k: nat)
    requires Unclosed(body) && k < 2 + |body|
    ensures var src := ['/', '*'] + body + rest; Blanked(src, k) == if src[k] == '\n' then '\n' else ' '
  {
    var src := ['/', '*'] + body + rest;
    assert ModeAt(src, 0) == Code && ModeAt(src, 1) == Opening;
    if k >= 2 { BlockMode(body, rest, k - 2); }
  }

  /** A block comment becomes spaces, its newlines excepted, up to the first star and slash behind
      its opening. */
  lemma BlockBlanked(body: string, rest: string)
    requires Unclosed(body + ['*'])
    ensures Stripped(['/', '*'] + body + ['*', '/'] + rest) == Spaces(['/', '*'] + body + ['*', '/']) + Stripped(rest)
  {
    hide ModeAt;
    var inside, tail := body + ['*'], ['/'] + rest;
    var piece := ['/', '*'] + body + ['*', '/'];
    var src := piece + rest;
    assert src == ['/', '*'] + inside + tail;
    forall k | 0 <= k < |piece| ensures Blanked(src, k) == Spaces(piece)[k] {
      assert src[k] == piece[k];
      if k < 2 + |inside| { BlockChar(inside, tail, k); } else { BlockEnd(body, rest); }
    }
    BlockEnd(body, rest);
    PieceThen(piece, rest, Spaces(piece));
  }

  lemma ClosesAt(src: string, n: nat)
    requires n + 1 < |src| && ModeAt(src, n) == Block && Pair(src, n, '*', '/')
    ensures ModeAt(src, n + 1) == Closing && ModeAt(src, n + 2) == Code && Blanked(src, n + 1) == ' '
  {}

  lemma BlockEnd(body: string, rest: string)
    requires Unclosed(body + ['*'])
    ensures var src := ['/', '*'] + body + ['*', '/'] + rest;
            ModeAt(src, 3 + |body|) == Closing && ModeAt(src, 4 + |body|) == Code && Blanked(src, 3 + |body|) == ' '
  {
    hide ModeAt, Unclosed;
    var inside, tail := body + ['*'], ['/'] + rest;
    var src := ['/', '*'] + body + ['*', '/'] + rest;
    assert src == ['/', '*'] + inside + tail;
    BlockMode(inside, tail, |body|);
    assert Pair(src, 2 + |body|, '*', '/');
    ClosesAt(src, 2 + |body|);
  }

  /** One that is not closed reaches to the end. */
  lemma OpenBlockBlanked(body: string)
    requires Unclosed(body)
    ensures Stripped(['/', '*'] + body) == Spaces(['/', '*'] + body)
  {
    var src := ['/', '*'] + body;
    assert src + [] == src;
    forall k | 0 <= k < |src| ensures Blanked(src, k) == Spaces(src)[k] { BlockChar(body, [], k); }
  }

  // ---------------------------------------------------------------------------
  // String and template literals
  // ---------------------------------------------------------------------------

  /** How many backslashes stand directly before a place. */
  function Backslashes(t: string, i: nat): nat
    requires i <= |t|
  {
    if i == 0 || t[i - 1] != '\\' then 0 else 1 + Backslashes(t, i - 1)
  }

  /** No quote in t but behind an odd run of backslashes. */
  predicate Inside(t: string, q: char)
  {
    forall i :: 0 <= i < |t| && t[i] == q ==> Backslashes(t, i) % 2 == 1
  }

  lemma {:induction false} QuotedMode(q: char, t: string, rest: string, k: nat)
    requires q in {'\'', '\"', '`'} && Inside(t, q) && k <= |t|
    ensures ModeAt([q] + t + rest, 1 + k) == if Backslashes(t, k) % 2 == 1 then Escaped(q) else Quoted(q)
  {
    var src := [q] + t + rest;
    if k > 0 {
      QuotedMode(q, t, rest, k - 1);
      assert src[k] == t[k - 1];
    } else {
      assert ModeAt(src, 0) == Code;
    }
  }

  lemma QuotedChar(q: char, t: string, rest: string, k: nat)
    requires q in {'\'', '\"', '`'} && Inside(t, q) && k <= |t|
    ensures var src := [q] + t + rest; Blanked(src, k) == src[k]
  {
    var src := [q] + t + rest;
    assert ModeAt(src, 0) == Code && !Pair(src, 0, '/', '/') && !Pair(src, 0, '/', '*');
    if k > 0 { QuotedMode(q, t, rest, k - 1); }
  }

  /** A literal stays as it is, from its quote up to the first such quote that is not behind an odd
      run of backslashes inside it; behind that quote the text is code. */
  lemma LiteralStays(q: char, t: string, rest: string)
    requires q in {'\'', '\"', '`'} && Inside(t, q) && Backslashes(t, |t|) % 2 == 0
    ensures Stripped([q] + t + [q] + rest) == [q] + t + [q] + Stripped(rest)
  {
    hide ModeAt, Inside, Backslashes;
    var piece, tail := [q] + t + [q], [q] + rest;
    var src := piece + rest;
    assert src == [q] + t + tail;
    forall k | 0 <= k < |piece| ensures Blanked(src, k) == piece[k] {
      assert src[k] == piece[k];
      if k <= |t| { QuotedChar(q, t, tail, k); } else { LiteralEnd(q, t, rest); }
    }
    LiteralEnd(q, t, rest);
    PieceThen(piece, rest, piece);
  }

  lemma LiteralEnd(q: char, t: string, rest: string)
    requires q in {'\'', '\"', '`'} && Inside(t, q) && Backslashes(t, |t|) % 2 == 0
    ensures var src := [q] + t + [q] + rest;
            ModeAt(src, 2 + |t|) == Code && Blanked(src, 1 + |t|) == q
  {
    var src := [q] + t + [q] + rest;
    assert src == [q] + t + ([q] + rest) && src[1 + |t|] == q;
    QuotedMode(q, t, [q] + rest, |t|);
  }

  /** One that is not closed stays to the end. */
  lemma OpenLiteralStays(q: char, t: string)
    requires q in {'\'', '\"', '`'} && Inside(t, q)
    ensures Stripped([q] + t) == [q] + t
  {
    var src := [q] + t;
    assert src + [] == src;
    forall k | 0 <= k < |src| ensures Blanked(src, k) == src[k] { QuotedChar(q, t, [], k); }
  }
}
