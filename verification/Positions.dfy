// Text indices, line and column positions, and the blocks of GraphQL inside a host file
// (packages/houdini-lsp/src/extract.ts, validation.ts and diagnostics.ts,
// packages/houdini-core/plugin/documents/processFile.go).
module Positions {
  import opened Wrappers
  import opened Strings

  datatype Position = Position(line: int, character: int)

  /** Where one is after reading a character. */
  function Step(p: Position, c: char): Position
  {
    if c == '\n' then Position(p.line + 1, 0) else Position(p.line, p.character + 1)
  }

  /** Where one is after reading i characters from p on. */
  function Walk(text: string, i: nat, p: Position): Position
    requires i <= |text|
  {
    if i == 0 then p else Step(Walk(text, i - 1, p), text[i - 1])
  }

  function Place(text: string, i: nat): Position
    requires i <= |text|
  {
    Walk(text, i, Position(0, 0))
  }

  predicate Before(p: Position, q: Position)
  {
    p.line < q.line || (p.line == q.line && p.character < q.character)
  }

  lemma {:induction false} WalkOn(text: string, a: nat, b: nat, p: Position)
    requires a + b <= |text|
    ensures Walk(text, a + b, p) == Walk(text[a..], b, Walk(text, a, p))
  {
    if b > 0 { WalkOn(text, a, b - 1, p); }
  }

  lemma {:induction false} WalkPart(text: string, part: string, i: nat, p: Position)
    requires i <= |part| <= |text| && text[..|part|] == part
    ensures Walk(text, i, p) == Walk(part, i, p)
  {
    if i > 0 {
      assert text[i - 1] == part[i - 1];
      WalkPart(text, part, i - 1, p);
    }
  }

  /** Positions come in the order of the indices, so different indices have different positions. */
  lemma {:induction false} PlacesOrdered(text: string, i: nat, j: nat)
    requires i <= |text| && j <= |text|
    ensures Before(Place(text, i), Place(text, j)) <==> i < j
  {
    if i < j {
      PlacesRise(text, i, j);
    } else if j < i {
      PlacesRise(text, j, i);
    }
  }

  lemma {:induction false} PlacesRise(text: string, i: nat, j: nat)
    requires i < j <= |text|
    ensures Before(Place(text, i), Place(text, j)) && Place(text, j).character >= 0
  {
    if i + 1 < j {
      PlacesRise(text, i, j - 1);
    } else {
      NaturalPlace(text, i);
    }
  }

  lemma {:induction false} NaturalPlace(text: string, i: nat)
    requires i <= |text|
    ensures Place(text, i).line >= 0 && Place(text, i).character >= 0
  {
    if i > 0 { NaturalPlace(text, i - 1); }
  }

  // ---------------------------------------------------------------------------
  // Index to position, by binary search and by a scan
  // ---------------------------------------------------------------------------

  /** The indices of the newlines before n. */
  function Newlines(text: string, n: nat): (r: seq<int>)
    requires n <= |text|
  {
    if n == 0 then []
    else if text[n - 1] == '\n' then Newlines(text, n - 1) + [n - 1]
    else Newlines(text, n - 1)
  }

  /** The newlines before an index say where it is. */
  lemma {:induction false} NewlinesPlace(text: string, i: nat)
    requires i <= |text|
    ensures var before := Newlines(text, i);
            Place(text, i) == Position(|before|, if before == [] then i else i - before[|before| - 1] - 1)
    ensures forall k :: 0 <= k < |Newlines(text, i)| ==> Newlines(text, i)[k] < i
  {
    if i > 0 { NewlinesPlace(text, i - 1); }
  }

  lemma {:induction false} NewlinesAfter(text: string, i: nat, n: nat)
    requires i <= n <= |text|
    ensures Newlines(text, i) <= Newlines(text, n)
    ensures forall k :: |Newlines(text, i)| <= k < |Newlines(text, n)| ==> i <= Newlines(text, n)[k]
  {
    if i < n { NewlinesAfter(text, i, n - 1); }
  }

  method NewlinePositions(text: string) returns (newlines: seq<int>)
    ensures newlines == Newlines(text, |text|)
  {
    newlines := [];
    for i := 0 to |text|
      invariant newlines == Newlines(text, i)
    {
      if text[i] == '\n' {
        newlines := newlines + [i];
      }
    }
  }

  /** index_position and getLineAndColumn: the binary search finds the position of the index. */
  method IndexPosition(ghost text: string, newlines: seq<int>, index: nat) returns (p: Position)
    requires index <= |text| && newlines == Newlines(text, |text|)
    ensures p == Place(text, index)
  {
    ghost var before := Newlines(text, index);
    NewlinesPlace(text, index);
    NewlinesAfter(text, index, |text|);
    var lo, hi := 0, |newlines|;
    while lo < hi
      invariant 0 <= lo <= |before| <= hi <= |newlines|
    {
      var mid := (lo + hi) / 2;
      if newlines[mid] < index {
        lo := mid + 1;
      } else {
        hi := mid;
      }
    }
    p := Position(lo, if lo == 0 then index else index - newlines[lo - 1] - 1);
  }

  /** offset_position: the scan finds the same; past the end the column goes on. */
  method OffsetPosition(content: string, offset: nat) returns (p: Position)
    ensures offset <= |content| ==> p == Place(content, offset)
    ensures offset > |content| ==>
              p == Position(Place(content, |content|).line, Place(content, |content|).character + offset - |content|)
  {
    var line, lineStart, i := 0, 0, 0;
    while i < offset && i < |content|
      invariant i <= offset && i <= |content|
      invariant Place(content, i) == Position(line, i - lineStart)
    {
      if content[i] == '\n' {
        line := line + 1;
        lineStart := i + 1;
      }
      i := i + 1;
    }
    p := Position(line, offset - lineStart);
  }

  // ---------------------------------------------------------------------------
  // Blocks
  // ---------------------------------------------------------------------------

  datatype Block = Block(content: string, offset: Position)

  function ToLocal(b: Block, p: Position): Position
  {
    Position(p.line - b.offset.line, if p.line == b.offset.line then p.character - b.offset.character else p.character)
  }

  function ToHost(b: Block, p: Position): Position
  {
    Position(b.offset.line + p.line, if p.line == 0 then b.offset.character + p.character else p.character)
  }

  /** The two mappings undo each other. */
  lemma LocalHost(b: Block, p: Position)
    ensures ToHost(b, ToLocal(b, p)) == p && ToLocal(b, ToHost(b, p)) == p
  {}

  /** Reading from the block's offset on gives the host position of the local one. */
  lemma {:induction false} WalkIsToHost(b: Block, i: nat)
    requires i <= |b.content|
    ensures Walk(b.content, i, b.offset) == ToHost(b, Place(b.content, i))
  {
    if i > 0 {
      WalkIsToHost(b, i - 1);
      NaturalPlace(b.content, i - 1);
    }
  }

  /** Escaped backticks become backticks. */
  function Unescape(s: string): string
  {
    if s == [] then []
    else if Escape(s) then ['`'] + Unescape(s[2..])
    else [s[0]] + Unescape(s[1..])
  }

  predicate Escape(s: string) { |s| >= 2 && s[0] == '\\' && s[1] == '`' }

  /** A document as it has to be written in a template literal. */
  function InTemplate(s: string): string
  {
    if s == [] then [] else (if s[0] == '`' then ['\\', '`'] else [s[0]]) + InTemplate(s[1..])
  }

  /** Whatever the document, it is read back from the template literal. */
  lemma {:induction false} UnescapeUndoes(s: string)
    ensures Unescape(InTemplate(s)) == s && (InTemplate(s) != [] ==> InTemplate(s)[0] != '`')
  {
    if s != [] {
      var rest := InTemplate(s[1..]);
      UnescapeUndoes(s[1..]);
      if s[0] == '`' {
        assert InTemplate(s)[2..] == rest;
      } else {
        assert InTemplate(s)[1..] == rest && InTemplate(s)[0] == s[0];
      }
      assert s == [s[0]] + s[1..];
    }
  }

  /** extract_blocks: the block between two indices of the host text. */
  function BlockOf(text: string, start: nat, end: nat): Block
    requires start <= end <= |text|
  {
    Block(Unescape(text[start..end]), Place(text, start))
  }

  /** The index in s of the j-th character of its unescaped form. */
  function Raw(s: string, j: nat): (r: nat)
    requires j <= |Unescape(s)|
    ensures r <= |s|
  {
    if j == 0 then 0 else if Escape(s) then 2 + Raw(s[2..], j - 1) else 1 + Raw(s[1..], j - 1)
  }

  /** The escapes before the j-th character on its line; already counts those before s. */
  function Drift(s: string, j: nat, already: nat): nat
    requires j <= |Unescape(s)|
  {
    if j == 0 then already
    else if Escape(s) then Drift(s[2..], j - 1, already + 1)
    else Drift(s[1..], j - 1, if s[0] == '\n' then 0 else already)
  }

  lemma WalkAfterOne(s: string, r: nat, p: Position)
    requires 1 + r <= |s|
    ensures Walk(s, 1 + r, p) == Walk(s[1..], r, Step(p, s[0]))
  {
    WalkOn(s, 1, r, p);
    assert Walk(s, 1, p) == Step(Walk(s, 0, p), s[0]);
  }

  lemma WalkAfterTwo(s: string, r: nat, p: Position)
    requires 2 + r <= |s|
    ensures Walk(s, 2 + r, p) == Walk(s[2..], r, Step(Step(p, s[0]), s[1]))
  {
    WalkAfterOne(s, 1 + r, p);
    WalkAfterOne(s[1..], r, Step(p, s[0]));
    assert s[1..][1..] == s[2..];
  }

  lemma {:induction false} RawDrifts(s: string, j: nat, p: Position, already: nat)
    requires j <= |Unescape(s)|
    ensures var q := Walk(Unescape(s), j, p);
            Walk(s, Raw(s, j), Position(p.line, p.character + already)) ==
            Position(q.line, q.character + Drift(s, j, already))
  {
    if j > 0 {
      var at := Position(p.line, p.character + already);
      WalkAfterOne(Unescape(s), j - 1, p);
      if Escape(s) {
        var rest := s[2..];
        assert Unescape(s)[1..] == Unescape(rest);
        WalkAfterTwo(s, Raw(rest, j - 1), at);
        RawDrifts(rest, j - 1, Step(p, '`'), already + 1);
      } else {
        var rest := s[1..];
        assert Unescape(s)[1..] == Unescape(rest);
        WalkAfterOne(s, Raw(rest, j - 1), at);
        RawDrifts(rest, j - 1, Step(p, s[0]), if s[0] == '\n' then 0 else already);
      }
    }
  }

  /** A character of a block maps to its place in the host text exactly if no escaped backtick
      comes before it on its line; otherwise the column is short by the number of these. */
  lemma HostPlace(text: string, start: nat, end: nat, j: nat)
    requires start <= end <= |text| && j <= |BlockOf(text, start, end).content|
    ensures var b := BlockOf(text, start, end);
            var slice := text[start..end];
            var mapped := ToHost(b, Place(b.content, j));
            var there := Place(text, start + Raw(slice, j));
            mapped.line == there.line && there.character == mapped.character + Drift(slice, j, 0) &&
            (mapped == there <==> Drift(slice, j, 0) == 0)
  {
    var b := BlockOf(text, start, end);
    var slice := text[start..end];
    WalkIsToHost(b, j);
    RawDrifts(slice, j, b.offset, 0);
    WalkOn(text, start, Raw(slice, j), Position(0, 0));
    assert text[start..][..|slice|] == slice;
    WalkPart(text[start..], slice, Raw(slice, j), b.offset);
  }

  /** A character for each on its line. */
  lemma {:induction false} OneLine(s: string, i: nat, p: Position)
    requires i <= |s| && '\n' !in s[..i]
    ensures Walk(s, i, p) == Position(p.line, p.character + i)
  {
    if i > 0 {
      assert s[..i] == s[..i - 1] + [s[i - 1]];
      OneLine(s, i - 1, p);
    }
  }

  const OPENING := "graphql(`"

  /** Behind two escaped backticks of a block the column is two short. */
  lemma TwoEscapesBefore()
    ensures var inside := ['\\', '`', '\\', '`', 'x'];
            var text := OPENING + inside + "`)";
            var b := BlockOf(text, 9, 14);
            b.content == ['`', '`', 'x'] && ToHost(b, Place(b.content, 2)) == Position(0, 11) &&
            Place(text, 9 + Raw(inside, 2)) == Position(0, 13) && text[9 + Raw(inside, 2)] == 'x'
  {
    var inside := ['\\', '`', '\\', '`', 'x'];
    var text := OPENING + inside + "`)";
    assert text[9..14] == inside && inside[2..] == ['\\', '`', 'x'] && inside[2..][2..] == ['x'] && ['x'][1..] == [];
    assert Unescape(['x']) == ['x'] && Unescape(inside[2..]) == ['`', 'x'] && Unescape(inside) == ['`', '`', 'x'];
    assert Raw(inside[2..], 1) == 2 && Raw(inside, 2) == 4;
    OneLine(text, 9, Position(0, 0));
    OneLine(text, 13, Position(0, 0));
    OneLine(['`', '`', 'x'], 2, Position(0, 0));
  }

  predicate NoEscapes(s: string) { forall i :: 0 <= i < |s| - 1 ==> !(s[i] == '\\' && s[i + 1] == '`') }

  lemma {:induction false} NothingToUnescape(s: string, j: nat)
    requires NoEscapes(s) && j <= |s|
    ensures Unescape(s) == s && Raw(s, j) == j && Drift(s, j, 0) == 0
  {
    if s != [] {
      assert forall i :: 0 <= i < |s| - 1 ==> s[1..][i] == s[i + 1];
      NothingToUnescape(s[1..], if j > 0 then j - 1 else 0);
    }
  }

  /** In a block without escapes the j-th character maps to the place of host index start + j. */
  lemma PlainHostPlace(text: string, start: nat, end: nat, j: nat)
    requires start <= end <= |text| && NoEscapes(text[start..end]) && j <= end - start
    ensures var b := BlockOf(text, start, end);
            b.content == text[start..end] && ToHost(b, Place(b.content, j)) == Place(text, start + j) &&
            ToLocal(b, Place(text, start + j)) == Place(b.content, j)
  {
    hide Unescape, Raw, Drift, Place, NoEscapes;
    NothingToUnescape(text[start..end], j);
    HostPlace(text, start, end, j);
    LocalHost(BlockOf(text, start, end), Place(text[start..end], j));
  }

  // ---------------------------------------------------------------------------
  // Finding the block at a position
  // ---------------------------------------------------------------------------

  /** The block's last position, as block_at computes it from the lines of the content. */
  function EndOf(b: Block): Position
  {
    var lines := Split(b.content, '\n');
    Position(b.offset.line + |lines| - 1,
      if |lines| == 1 then b.offset.character + |lines[0]| else |lines[|lines| - 1]|)
  }

  lemma PlaceBehindFirst(s: string)
    requires s != []
    ensures var p := Place(s[1..], |s| - 1);
            Place(s, |s|) == if s[0] == '\n' then Position(p.line + 1, p.character)
                             else if p.line == 0 then Position(0, p.character + 1) else p
  {
    WalkAfterOne(s, |s| - 1, Position(0, 0));
    WalkIsToHost(Block(s[1..], Step(Position(0, 0), s[0])), |s| - 1);
  }

  lemma {:induction false} LastLine(s: string)
    ensures var lines := Split(s, '\n'); Place(s, |s|) == Position(|lines| - 1, |lines[|lines| - 1]|)
  {
    if s != [] {
      LastLine(s[1..]);
      PlaceBehindFirst(s);
    }
  }

  lemma EndIsPlace(b: Block)
    ensures EndOf(b) == ToHost(b, Place(b.content, |b.content|))
  {
    LastLine(b.content);
  }

  predicate Covers(b: Block, p: Position) { !Before(p, b.offset) && !Before(EndOf(b), p) }

  method BlockAt(blocks: seq<Block>, p: Position) returns (found: Option<Block>)
    ensures found.Some? ==>
              exists k :: 0 <= k < |blocks| && found.value == blocks[k] && Covers(blocks[k], p) &&
                          forall m :: 0 <= m < k ==> !Covers(blocks[m], p)
    ensures found.None? ==> forall m :: 0 <= m < |blocks| ==> !Covers(blocks[m], p)
  {
    var i := 0;
    while i < |blocks|
      invariant i <= |blocks| && forall m :: 0 <= m < i ==> !Covers(blocks[m], p)
    {
      var block := blocks[i];
      var end := EndOf(block);
      i := i + 1;
      if p.line < block.offset.line || p.line > end.line { continue; }
      if p.line == block.offset.line && p.character < block.offset.character { continue; }
      if p.line == end.line && p.character > end.character { continue; }
      return Some(block);
    }
    found := None;
  }

  /** A block without escapes covers exactly the places of the indices it was cut from. */
  lemma CoversExactly(text: string, start: nat, end: nat, x: nat)
    requires start <= end <= |text| && NoEscapes(text[start..end]) && x <= |text|
    ensures Covers(BlockOf(text, start, end), Place(text, x)) <==> start <= x <= end
  {
    var b := BlockOf(text, start, end);
    PlainHostPlace(text, start, end, end - start);
    EndIsPlace(b);
    PlacesOrdered(text, x, start);
    PlacesOrdered(text, end, x);
  }

  /** Where blocks lie: pairs of start and end index. */
  ghost predicate Disjoint(spans: seq<(nat, nat)>)
  {
    forall i, j :: 0 <= i < |spans| && 0 <= j < |spans| && i != j ==> spans[i].1 < spans[j].0 || spans[j].1 < spans[i].0
  }

  /** For disjoint blocks the block found at an index inside one of them is that block, and none
      is found outside. */
  method FindBlock(text: string, ghost spans: seq<(nat, nat)>, blocks: seq<Block>, x: nat) returns (found: Option<Block>)
    requires |blocks| == |spans| && x <= |text| && Disjoint(spans)
    requires forall i :: 0 <= i < |spans| ==> CutFrom(text, spans[i], blocks[i])
    ensures forall i :: 0 <= i < |spans| && spans[i].0 <= x <= spans[i].1 ==> found == Some(blocks[i])
    ensures (forall i :: 0 <= i < |spans| ==> x < spans[i].0 || spans[i].1 < x) ==> found == None
  {
    found := BlockAt(blocks, Place(text, x));
    forall i | 0 <= i < |spans|
      ensures Covers(blocks[i], Place(text, x)) <==> spans[i].0 <= x <= spans[i].1
    {
      CoversExactly(text, spans[i].0, spans[i].1, x);
    }
  }

  ghost predicate CutFrom(text: string, span: (nat, nat), b: Block)
  {
    span.0 <= span.1 <= |text| && NoEscapes(text[span.0..span.1]) && b == BlockOf(text, span.0, span.1)
  }

  // ---------------------------------------------------------------------------
  // Error positions of the pipeline
  // ---------------------------------------------------------------------------

  predicate OnLines(b: Block, line: int) { b.offset.line <= line <= EndOf(b).line }

  /** Every line up to the one of index i is that of some index before. */
  lemma {:induction false} LineReached(s: string, i: nat, line: nat) returns (j: nat)
    requires i <= |s| && line <= Place(s, i).line
    ensures j <= i && Place(s, j).line == line
  {
    if Place(s, i).line == line {
      j := i;
    } else {
      j := LineReached(s, i - 1, line);
    }
  }

  /** Whether the block's character j is on this line of the host. */
  predicate MapsOnto(b: Block, j: int, line: int)
  {
    0 <= j <= |b.content| && ToHost(b, Place(b.content, j)).line == line
  }

  /** A block's lines are exactly those its characters, or its end, map to. */
  lemma OwnLines(b: Block, line: int)
    ensures OnLines(b, line) <==> exists j :: MapsOnto(b, j, line)
  {
    var n := |b.content|;
    EndIsPlace(b);
    PlacesFrom(b.content, n);
    if OnLines(b, line) {
      var j := LineReached(b.content, n, line - b.offset.line);
      assert MapsOnto(b, j, line);
    }
    if j :| MapsOnto(b, j, line) {
      PlacesOrdered(b.content, n, j);
      PlacesFrom(b.content, j);
    }
  }

  lemma {:induction false} PlacesFrom(s: string, i: nat)
    requires i <= |s|
    ensures Place(s, i).line >= 0
  {
    if i > 0 { PlacesFrom(s, i - 1); }
  }

  predicate FirstOn(blocks: seq<Block>, k: int, line: int)
  {
    0 <= k < |blocks| && OnLines(blocks[k], line) && forall m :: 0 <= m < k ==> !OnLines(blocks[m], line)
  }

  /** The part of pipeline_range that takes the column offset back off later lines. */
  method PipelinePosition(blocks: seq<Block>, reported: Position) returns (p: Position)
    ensures forall k: int :: FirstOn(blocks, k, reported.line) ==> p == Undone(blocks[k], reported)
    ensures (forall k :: 0 <= k < |blocks| ==> !OnLines(blocks[k], reported.line)) ==> p == reported
  {
    for i := 0 to |blocks|
      invariant forall m :: 0 <= m < i ==> !OnLines(blocks[m], reported.line)
    {
      if OnLines(blocks[i], reported.line) {
        return if reported.line > blocks[i].offset.line
               then Position(reported.line, Max(0, reported.character - blocks[i].offset.character))
               else reported;
      }
    }
    p := reported;
  }

  function Max(a: int, b: int): int { if a > b then a else b }

  function Undone(b: Block, p: Position): Position
  {
    if p.line > b.offset.line then Position(p.line, Max(0, p.character - b.offset.character)) else p
  }

  /** The pipeline adds the block's column to the column on every line: undoing that where it
      does not belong gives the host position. */
  lemma UndoneIsHost(b: Block, q: Position)
    requires q.line >= 0 && q.character >= 0
    ensures Undone(b, Position(b.offset.line + q.line, b.offset.character + q.character)) == ToHost(b, q)
  {}

  /** What the pipeline reports for a position of a block. */
  function Report(b: Block, q: Position): Position
  {
    Position(b.offset.line + q.line, b.offset.character + q.character)
  }

  /** When the first block on the reported line is first, a report from block b comes out right: on
      b's own first line nothing must be taken away, on a later one b's column. */
  predicate TakesRight(first: Block, b: Block, q: Position)
  {
    var behindFirst := b.offset.line + q.line > first.offset.line;
    if q.line == 0 then
      !behindFirst || first.offset.character == 0 || b.offset.character + q.character == 0
    else if behindFirst then
      b.offset.character == first.offset.character || (q.character == 0 && b.offset.character <= first.offset.character)
    else b.offset.character == 0
  }

  /** A report from block k becomes the host position exactly if the first block on its line takes
      the right column away, as block k itself does. */
  lemma ReportIsHost(blocks: seq<Block>, m: int, k: int, q: Position)
    requires 0 <= k < |blocks| && FirstOn(blocks, m, Report(blocks[k], q).line)
    requires q.line >= 0 && q.character >= 0 && blocks[k].offset.character >= 0 && blocks[m].offset.character >= 0
    ensures Undone(blocks[m], Report(blocks[k], q)) == ToHost(blocks[k], q) <==> TakesRight(blocks[m], blocks[k], q)
    ensures TakesRight(blocks[k], blocks[k], q)
  {
    UndoneIsHost(blocks[k], q);
  }

  lemma MiddlePart(a: string, b: string, c: string, d: string, e: string)
    ensures (a + (b + c) + d + e)[|a| + |b|..][..|c| + |d|] == c + d
  {
    assert a + (b + c) + d + e == (a + b) + ((c + d) + e);
  }

  /** A block that ends on the line where the next one begins takes its own column from the next
      one's report. */
  lemma EarlierBlockDecides()
    ensures var text := OPENING + "\n`)" + OPENING + "x`)";
            var blocks := [BlockOf(text, 9, 10), BlockOf(text, 21, 22)];
            FirstOn(blocks, 0, 1) && Report(blocks[1], Position(0, 0)) == Position(1, 11) &&
            Undone(blocks[0], Position(1, 11)) == Position(1, 2) &&
            ToHost(blocks[1], Position(0, 0)) == Position(1, 11) == Place(text, 21)
  {
    var text := OPENING + "\n`)" + OPENING + "x`)";
    assert text[9..10] == "\n" && text[21..22] == "x";
    MiddlePart(OPENING, "\n", "`)", OPENING, "x`)");
    assert "\n" + "`)" == "\n`)";
    assert Unescape("\n") == ['\n'] + Unescape("\n"[1..]) && "\n"[1..] == "";
    OneLine(text, 9, Position(0, 0));
    assert Place(text, 10) == Position(1, 0);
    WalkOn(text, 10, 11, Position(0, 0));
    OneLine(text[10..], 11, Position(1, 0));
    assert Split("\n", '\n') == [""] + [""];
  }
}
