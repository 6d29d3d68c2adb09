// Blanking comments before documents are searched
// (packages/houdini-core/plugin/documents/processFile.go, packages/houdini-lsp/src/extract.ts).
module Comments {
  // ---------------------------------------------------------------------------
  // A lexer that knows comments, strings and template literals
  // ---------------------------------------------------------------------------

  datatype Mode =
    | Code
    | Line             // in a line comment
    | Opening          // at the star that opens a block comment
    | Block            // in a block comment
    | Closing          // at the slash that closes it
    | Quoted(q: char)  // in a string or template literal
    | Escaped(q: char) // after a backslash in one

  predicate Pair(src: string, k: int, a: char, b: char)
  {
    0 <= k && k + 1 < |src| && src[k] == a && src[k + 1] == b
  }

  /** The mode after the k-th character. */
  function After(src: string, k: nat, mode: Mode): Mode
    requires k < |src|
  {
    match mode
    case Code =>
      if Pair(src, k, '/', '/') then Line
      else if Pair(src, k, '/', '*') then Opening
      else if src[k] in {'\'', '\"', '`'} then Quoted(src[k])
      else Code
    case Line => if src[k] == '\n' then Code else Line
    case Opening => Block
    case Block => if Pair(src, k, '*', '/') then Closing else Block
    case Closing => Code
    case Quoted(q) => if src[k] == '\\' then Escaped(q) else if src[k] == q then Code else Quoted(q)
    case Escaped(q) => Quoted(q)
  }

  function ModeAt(src: string, k: nat): Mode
    requires k <= |src|
  {
    if k == 0 then Code else After(src, k - 1, ModeAt(src, k - 1))
  }

  /** The k-th character belongs to a comment. */
  predicate InComment(src: string, k: nat)
    requires k < |src|
  {
    var mode := ModeAt(src, k);
    mode in {Opening, Block, Closing} || (mode == Line && src[k] != '\n') ||
    (mode == Code && (Pair(src, k, '/', '/') || Pair(src, k, '/', '*')))
  }

  /** A line comment reaches exactly to the end of its line. */
  lemma {:induction false} LineSpan(src: string, k: nat, m: nat)
    requires k < m <= |src| && ModeAt(src, k) == Code && Pair(src, k, '/', '/')
    requires forall i :: k <= i < m ==> src[i] != '\n'
    ensures ModeAt(src, m) == Line && InComment(src, m - 1) && (m < |src| ==> (InComment(src, m) <==> src[m] != '\n'))
  {
    if m > k + 1 { LineSpan(src, k, m - 1); }
  }

  /** A block comment reaches exactly to the first closing pair after its opening one. */
  lemma {:induction false} BlockSpan(src: string, k: nat, m: nat)
    requires k + 2 <= m <= |src| && ModeAt(src, k) == Code && Pair(src, k, '/', '*')
    requires forall i :: k + 2 <= i < m ==> !Pair(src, i, '*', '/')
    ensures ModeAt(src, m) == Block && (m < |src| ==> InComment(src, m))
    ensures Pair(src, m, '*', '/') ==> InComment(src, m + 1) && ModeAt(src, m + 2) == Code
  {
    if m > k + 2 { BlockSpan(src, k, m - 1); }
  }

  function Blanked(src: string, k: nat): char
    requires k < |src|
  {
    if InComment(src, k) && src[k] != '\n' then ' ' else src[k]
  }

  /** Blanks exactly the characters of comments, except newlines. */
  function Stripped(src: string): (out: string)
    ensures |out| == |src|
    ensures forall k :: 0 <= k < |src| ==> out[k] == Blanked(src, k)
  {
    seq(|src|, k requires 0 <= k < |src| => Blanked(src, k))
  }

  /** Comments become code; everything else is lexed as before. */
  function Plain(mode: Mode): Mode
  {
    if mode in {Line, Opening, Block, Closing} then Code else mode
  }

  lemma {:induction false} StrippedModes(src: string, k: nat)
    requires k <= |src|
    ensures ModeAt(Stripped(src), k) == Plain(ModeAt(src, k))
  {
    if k > 0 {
      StrippedModes(src, k - 1);
      NoNewComment(src, k - 1);
    }
  }

  /** What the stripped text has at a place never starts a comment. */
  lemma NoNewComment(src: string, k: nat)
    requires k < |src| && ModeAt(Stripped(src), k) == Plain(ModeAt(src, k))
    ensures ModeAt(Stripped(src), k) == Code ==>
              !Pair(Stripped(src), k, '/', '/') && !Pair(Stripped(src), k, '/', '*')
  {
    var out := Stripped(src);
    assert out[k] == Blanked(src, k);
    if ModeAt(src, k) == Code && k + 1 < |src| {
      assert out[k + 1] == Blanked(src, k + 1);
    }
  }

  /** Nothing of the stripped text is in a comment. */
  lemma NoCommentsLeft(src: string, k: nat)
    requires k < |src|
    ensures !InComment(Stripped(src), k)
  {
    StrippedModes(src, k);
    NoNewComment(src, k);
  }

  /** Stripping twice is stripping once. */
  lemma StripsOnce(src: string)
    ensures Stripped(Stripped(src)) == Stripped(src)
  {
    forall k | 0 <= k < |src| ensures Stripped(Stripped(src))[k] == Stripped(src)[k] {
      NoCommentsLeft(src, k);
    }
  }

  // ---------------------------------------------------------------------------
  // The code
  // ---------------------------------------------------------------------------

  /** The first i characters are done, the others untouched. */
  ghost predicate Done(src: string, b: array<char>, i: int)
    reads b
  {
    && b.Length == |src|
    && (forall k :: 0 <= k < i && k < |src| ==> b[k] == Blanked(src, k))
    && (forall k :: 0 <= i <= k < |src| ==> b[k] == src[k])
  }

  /** Between comments and literals: in code, or at the newline that ends a line comment. */
  predicate Outside(src: string, i: nat)
  {
    i < |src| ==> ModeAt(src, i) == Code || (ModeAt(src, i) == Line && src[i] == '\n')
  }

  lemma StepOver(src: string, i: nat)
    requires i < |src| && Outside(src, i)
    requires !Pair(src, i, '/', '/') && !Pair(src, i, '/', '*') && src[i] !in {'\'', '\"', '`'}
    ensures Outside(src, i + 1) && Blanked(src, i) == src[i]
  {}

  method StripLine(src: string, b: array<char>, start: nat) returns (i: nat)
    requires start < |src| && Done(src, b, start) && ModeAt(src, start) == Code && Pair(src, start, '/', '/')
    modifies b
    ensures start < i <= |src| && Done(src, b, i) && Outside(src, i)
  {
    i := start;
    while i < b.Length && b[i] != '\n'
      invariant start <= i <= |src| && Done(src, b, i)
      invariant ModeAt(src, i) == if i == start then Code else Line
    {
      b[i] := ' ';
      i := i + 1;
    }
  }

  method StripBlock(src: string, b: array<char>, start: nat) returns (i: nat)
    requires start < |src| && Done(src, b, start) && ModeAt(src, start) == Code && Pair(src, start, '/', '*')
    modifies b
    ensures start < i <= |src| && Done(src, b, i) && Outside(src, i)
  {
    b[start] := ' ';
    b[start + 1] := ' ';
    i := start + 2;
    while i < b.Length
      invariant start < i <= |src| && Done(src, b, i) && ModeAt(src, i) == Block
    {
      if b[i] == '*' && i + 1 < b.Length && b[i + 1] == '/' {
        b[i] := ' ';
        b[i + 1] := ' ';
        i := i + 2;
        break;
      }
      if b[i] != '\n' {
        b[i] := ' ';
      }
      i := i + 1;
    }
  }

  /** Skips a string or template literal; a backslash at the end steps over the end. */
  method SkipQuoted(src: string, b: array<char>, start: nat) returns (i: nat)
    requires start < |src| && Done(src, b, start) && ModeAt(src, start) == Code
    requires src[start] in {'\'', '\"', '`'}
    ensures start < i <= |src| + 1 && Done(src, b, i) && Outside(src, i)
  {
    var q := b[start];
    i := start + 1;
    while i < b.Length
      invariant start < i <= |src| + 1 && Done(src, b, i) && (i < |src| ==> ModeAt(src, i) == Quoted(q))
    {
      if b[i] == '\\' {
        i := i + 2;
        continue;
      }
      if b[i] == q {
        i := i + 1;
        break;
      }
      i := i + 1;
    }
  }

  lemma StartsOutside(src: string)
    ensures Outside(src, 0)
  {}

  method StripComments(src: string) returns (out: string)
    ensures out == Stripped(src)
  {
    hide ModeAt, Blanked;
    var b := new char[|src|](k requires 0 <= k < |src| => src[k]);
    var i := 0;
    StartsOutside(src);
    while i < b.Length
      invariant 0 <= i <= |src| + 1 && Done(src, b, i) && Outside(src, i)
    {
      if b[i] == '/' && i + 1 < b.Length && b[i + 1] == '/' {
        i := StripLine(src, b, i);
      } else if b[i] == '/' && i + 1 < b.Length && b[i + 1] == '*' {
        i := StripBlock(src, b, i);
      } else if b[i] == '\'' || b[i] == '\"' || b[i] == '`' {
        i := SkipQuoted(src, b, i);
      } else {
        StepOver(src, i);
        i := i + 1;
      }
    }
    out := b[..];
    assert forall k :: 0 <= k < |src| ==> out[k] == Blanked(src, k);
  }
}
