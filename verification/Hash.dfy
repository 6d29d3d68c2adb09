// The 32-bit hash of fragment arguments
// (packages/houdini-core/plugin/fragmentArguments/hash.go): MurmurHash3 over UTF-16 code units,
// written in base 62.
module Hash {
  import opened Words

  type Unit = u: nat | u < 0x10000

  // ---------------------------------------------------------------------------
  // Reversible steps
  // ---------------------------------------------------------------------------

  /** A change of a word and the one that takes it back. */
  datatype Step = Step(apply: Word -> Word, undo: Word -> Word)

  ghost predicate Reversible(s: Step)
  {
    forall w: Word :: s.undo(s.apply(w)) == w && s.apply(s.undo(w)) == w
  }

  ghost predicate AllReversible(steps: seq<Step>) { forall s :: s in steps ==> Reversible(s) }

  function Run(steps: seq<Step>, w: Word): Word
  {
    if steps == [] then w else Run(steps[1..], steps[0].apply(w))
  }

  function Back(steps: seq<Step>, w: Word): Word
  {
    if steps == [] then w else steps[0].undo(Back(steps[1..], w))
  }

  /** Reversible steps, one after the other, are a bijection on words. */
  lemma {:induction false} StepsInvert(steps: seq<Step>, w: Word)
    requires AllReversible(steps)
    ensures Back(steps, Run(steps, w)) == w && Run(steps, Back(steps, w)) == w
  {
    if steps != [] {
      assert steps[0] in steps && forall s :: s in steps[1..] ==> s in steps;
      StepsInvert(steps[1..], steps[0].apply(w));
      StepsInvert(steps[1..], w);
    }
  }

  /** Multiplication by a constant, and by its inverse. */
  function Times(c: nat, d: nat): Step { Step(w => Mul(w, c), w => Mul(w, d)) }

  function Fold16(): Step { Step(w => Folded(w, 16), w => Folded(w, 16)) }

  function Fold13(): Step { Step(w => Folded(w, 13), w => Unfolded13(w)) }

  function Turn15(): Step { Step(w => Rotated15(w), w => Back15(w)) }

  function Turn13(): Step { Step(w => Rotated13(w), w => Back13(w)) }

  function Plus(): Step { Step(w => Add(w, 0xe6546b64), w => Add(w, 0x19ab949c)) }

  lemma TimesReversible(c: nat, d: nat)
    requires Inverse(c, d)
    ensures Reversible(Times(c, d))
  {
    hide Mul;
    assert Inverse(d, c) by { assert c * d == d * c; }
    forall w: Word ensures Mul(Mul(w, c), d) == w && Mul(Mul(w, d), c) == w {
      MulUndone(w, c, d);
      MulUndone(w, d, c);
    }
  }

  lemma FoldsReversible()
    ensures Reversible(Fold16()) && Reversible(Fold13())
  {
    hide Folded, Unfolded13;
    forall w: Word ensures Folded(Folded(w, 16), 16) == w { FoldTwice(w, 16); }
    forall w: Word ensures Unfolded13(Folded(w, 13)) == w && Folded(Unfolded13(w), 13) == w { Fold13Undone(w); }
  }

  lemma TurnsReversible()
    ensures Reversible(Turn15()) && Reversible(Turn13()) && Reversible(Plus())
  {
    hide Rotated15, Rotated13, Back15, Back13, Add;
    forall w: Word ensures Back15(Rotated15(w)) == w && Rotated15(Back15(w)) == w { RotatedBack15(w); }
    forall w: Word ensures Back13(Rotated13(w)) == w && Rotated13(Back13(w)) == w { RotatedBack13(w); }
    forall w: Word ensures Add(Add(w, 0xe6546b64), 0x19ab949c) == w && Add(Add(w, 0x19ab949c), 0xe6546b64) == w {
      AddUndone(w);
    }
  }

  // ---------------------------------------------------------------------------
  // The hash with full 32-bit multiplications
  // ---------------------------------------------------------------------------

  function Scrambling(): seq<Step> { [Times(0xcc9e2d51, 0xdee13bb1), Turn15(), Times(0x1b873593, 0x56ed309b)] }

  function Mixing(): seq<Step> { [Turn13(), Times(5, 0xcccccccd), Plus()] }

  function Finalization(): seq<Step>
  {
    [Fold16(), Times(0x85ebca6b, 0xa5cb9243), Fold13(), Times(0xc2b2ae35, 0x7ed1b41d), Fold16()]
  }

  lemma AllStepsReversible()
    ensures AllReversible(Scrambling()) && AllReversible(Mixing()) && AllReversible(Finalization())
  {
    TimesReversible(0xcc9e2d51, 0xdee13bb1);
    TimesReversible(0x1b873593, 0x56ed309b);
    TimesReversible(5, 0xcccccccd);
    TimesReversible(0x85ebca6b, 0xa5cb9243);
    TimesReversible(0xc2b2ae35, 0x7ed1b41d);
    FoldsReversible();
    TurnsReversible();
  }

  function Scrambled(k: Word): Word { Run(Scrambling(), k) }

  function MixedIn(h: Word, k: Word): Word { Run(Mixing(), XorWord(h, Scrambled(k))) }

  function Finalized(h: Word): Word { Run(Finalization(), h) }

  /** Four code units in one word; the upper half of the last is folded onto the lowest byte. */
  function Group(a: Unit, b: Unit, c: Unit, d: Unit): Word
  {
    XorWord(XorWord(XorWord(XorWord(a, b * 0x100), c * 0x10000), d % 0x100 * 0x1000000), d / 0x100)
  }

  function FirstWord(units: seq<Unit>): Word
    requires |units| >= 4
  {
    Group(units[0], units[1], units[2], units[3])
  }

  /** The state after all groups of four. */
  function Absorbed(units: seq<Unit>, h: Word): Word
  {
    if |units| < 4 then h else Absorbed(units[4..], MixedIn(h, FirstWord(units)))
  }

  /** The one to three code units that are left. */
  function TailWord(tail: seq<Unit>): Word
    requires 0 < |tail| < 4
  {
    var third: Word := if |tail| > 2 then tail[2] as int * 0x10000 else 0;
    var second: Word := if |tail| > 1 then tail[1] as int * 0x100 else 0;
    XorWord(XorWord(third, second), tail[0])
  }

  function WithTail(h: Word, tail: seq<Unit>): Word
    requires |tail| < 4
  {
    if tail == [] then h else XorWord(h, Scrambled(TailWord(tail)))
  }

  /** What goes into the finalization, from whole groups, the rest, and the length of both. */
  function StateSplit(groups: seq<Unit>, tail: seq<Unit>, length: nat): Word
    requires |tail| < 4
  {
    XorWord(WithTail(Absorbed(groups, 0), tail), length % 0x1_0000_0000)
  }

  function WholeLength(n: nat): (r: nat)
    ensures r <= n && n - r < 4 && r % 4 == 0
  {
    n - n % 4
  }

  function StateOf(units: seq<Unit>): Word
  {
    StateSplit(units[..WholeLength(|units|)], units[WholeLength(|units|)..], |units|)
  }

  // ---------------------------------------------------------------------------
  // Nothing is lost
  // ---------------------------------------------------------------------------

  /** The finalization is a bijection on words. */
  lemma FinalizationInverts(h: Word)
    ensures Back(Finalization(), Finalized(h)) == h && Finalized(Back(Finalization(), h)) == h
  {
    AllStepsReversible();
    StepsInvert(Finalization(), h);
  }

  /** One of state and word decides the other. */
  lemma MixDiffers(h: Word, k: Word, g: Word, l: Word)
    requires MixedIn(h, k) == MixedIn(g, l)
    ensures k == l <==> h == g
  {
    hide Run, Back, Scrambling, Mixing, XorWord;
    AllStepsReversible();
    StepsInvert(Mixing(), XorWord(h, Scrambled(k)));
    StepsInvert(Mixing(), XorWord(g, Scrambled(l)));
    StepsInvert(Scrambling(), k);
    StepsInvert(Scrambling(), l);
    XorTwice(h, Scrambled(k));
    XorTwice(g, Scrambled(l));
    XorTwice(Scrambled(k), h);
    XorTwice(Scrambled(l), g);
    XorCommutes(h, Scrambled(k));
    XorCommutes(g, Scrambled(l));
  }

  lemma {:induction false} AbsorbDiffers(units: seq<Unit>, h: Word, g: Word)
    ensures Absorbed(units, h) == Absorbed(units, g) ==> h == g
  {
    if |units| >= 4 {
      var k := FirstWord(units);
      AbsorbDiffers(units[4..], MixedIn(h, k), MixedIn(g, k));
      if MixedIn(h, k) == MixedIn(g, k) { MixDiffers(h, k, g, k); }
    }
  }

  lemma {:induction false} AbsorbConcat(a: seq<Unit>, b: seq<Unit>, h: Word)
    requires |a| % 4 == 0
    ensures Absorbed(a + b, h) == Absorbed(b, Absorbed(a, h))
  {
    hide MixedIn, Group;
    if a == [] {
      assert a + b == b;
    } else {
      assert (a + b)[4..] == a[4..] + b && FirstWord(a + b) == FirstWord(a);
      AbsorbConcat(a[4..], b, MixedIn(h, FirstWord(a)));
    }
  }

  // ---------------------------------------------------------------------------
  // Base 62
  // ---------------------------------------------------------------------------

  function Digit(d: nat): char
    requires d < 62
  {
    if d < 10 then ('0' as int + d) as char
    else if d < 36 then ('a' as int + d - 10) as char
    else ('A' as int + d - 36) as char
  }

  function ValueOf(c: char): nat
  {
    if '0' <= c <= '9' then c as int - '0' as int
    else if 'a' <= c <= 'z' then c as int - 'a' as int + 10
    else if 'A' <= c <= 'Z' then c as int - 'A' as int + 36
    else 0
  }

  function Base62(n: nat): string
  {
    if n < 62 then [Digit(n)] else Base62(n / 62) + [Digit(n % 62)]
  }

  function Decoded(s: string): nat
  {
    if s == [] then 0 else 62 * Decoded(s[..|s| - 1]) + ValueOf(s[|s| - 1])
  }

  /** The number can be read off again, and its numeral begins with 0 only if it is 0. */
  lemma {:induction false} Base62Decodes(n: nat)
    ensures Decoded(Base62(n)) == n && Base62(n) != [] && (Base62(n)[0] == '0' <==> n == 0)
  {
    if n >= 62 {
      Base62Decodes(n / 62);
      var s := Base62(n / 62) + [Digit(n % 62)];
      assert s[..|s| - 1] == Base62(n / 62) && s[|s| - 1] == Digit(n % 62);
    } else {
      assert [Digit(n)][..0] == [];
    }
  }

  function Power62(digits: nat): nat { if digits == 0 then 1 else 62 * Power62(digits - 1) }

  /** As many digits as the size of the number needs. */
  lemma {:induction false} Base62Length(n: nat, digits: nat)
    requires digits > 0 && n < Power62(digits)
    ensures |Base62(n)| <= digits
  {
    if n >= 62 {
      assert Power62(1) == 62 * Power62(0);
      Base62Length(n / 62, digits - 1);
    }
  }

  /** A word has at most six digits. */
  lemma WordLength(h: Word)
    ensures |Base62(h)| <= 6
  {
    assert Power62(2) == 62 * 62;
    assert Power62(4) == 62 * 62 * Power62(2);
    assert Power62(6) == 62 * 62 * Power62(4);
    Base62Length(h, 6);
  }

  // ---------------------------------------------------------------------------
  // The hash
  // ---------------------------------------------------------------------------

  function Murmur(units: seq<Unit>): string { Base62(Finalized(StateOf(units))) }

  /** Two inputs have the same hash exactly if they reach the finalization with the same word. */
  lemma SameHash(s: seq<Unit>, t: seq<Unit>)
    ensures Murmur(s) == Murmur(t) <==> StateOf(s) == StateOf(t)
  {
    if Murmur(s) == Murmur(t) {
      Base62Decodes(Finalized(StateOf(s)));
      Base62Decodes(Finalized(StateOf(t)));
      FinalizationInverts(StateOf(s));
      FinalizationInverts(StateOf(t));
    }
  }

  /** Inputs that differ in a single group of four at most have the same hash exactly if the group's
      word is the same. */
  lemma OneWordDiffers(before: seq<Unit>, a: seq<Unit>, b: seq<Unit>, after: seq<Unit>)
    requires |before| % 4 == 0 && |a| == 4 && |b| == 4
    ensures Murmur(before + a + after) == Murmur(before + b + after) <==> FirstWord(a) == FirstWord(b)
  {
    hide StateSplit, MixedIn, Group;
    var n := WholeLength(|after|);
    OneWordState(before, a, after);
    OneWordState(before, b, after);
    SplitDiffers(before, a, b, after[..n], after[n..], |before| + 4 + |after|);
    SameHash(before + a + after, before + b + after);
  }

  lemma SplitDiffers(before: seq<Unit>, a: seq<Unit>, b: seq<Unit>, groups: seq<Unit>, tail: seq<Unit>, length: nat)
    requires |before| % 4 == 0 && |a| == 4 && |b| == 4 && |tail| < 4
    ensures StateSplit(before + (a + groups), tail, length) == StateSplit(before + (b + groups), tail, length) <==>
            FirstWord(a) == FirstWord(b)
  {
    hide MixedIn, Group, WithTail, XorWord;
    var h := Absorbed(before, 0);
    var x, y := MixedIn(h, FirstWord(a)), MixedIn(h, FirstWord(b));
    if x == y { MixDiffers(h, FirstWord(a), h, FirstWord(b)); }
    AbsorbConcat(before, a + groups, 0);
    AbsorbConcat(before, b + groups, 0);
    AbsorbConcat(a, groups, h);
    AbsorbConcat(b, groups, h);
    assert a[4..] == [] && b[4..] == [];
    AbsorbDiffers(groups, x, y);
    TailDiffers(Absorbed(groups, x), Absorbed(groups, y), tail);
    XorKeepsApart(WithTail(Absorbed(groups, x), tail), WithTail(Absorbed(groups, y), tail), length % 0x1_0000_0000);
  }

  lemma XorKeepsApart(h: Word, g: Word, w: Word)
    ensures XorWord(h, w) == XorWord(g, w) <==> h == g
  {
    XorTwice(h, w);
    XorTwice(g, w);
  }

  lemma TailDiffers(h: Word, g: Word, tail: seq<Unit>)
    requires |tail| < 4
    ensures WithTail(h, tail) == WithTail(g, tail) <==> h == g
  {
    if tail != [] { XorKeepsApart(h, g, Scrambled(TailWord(tail))); }
  }

  /** Inputs that differ in the one to three code units after the last group of four at most have the
      same hash exactly if these make the same word. */
  lemma OneTailDiffers(before: seq<Unit>, a: seq<Unit>, b: seq<Unit>)
    requires |before| % 4 == 0 && 0 < |a| == |b| < 4
    ensures Murmur(before + a) == Murmur(before + b) <==> TailWord(a) == TailWord(b)
  {
    hide StateSplit, TailWord;
    TailState(before, a);
    TailState(before, b);
    TailsDiffer(before, a, b, |before| + |a|);
    SameHash(before + a, before + b);
  }

  lemma TailState(before: seq<Unit>, a: seq<Unit>)
    requires |before| % 4 == 0 && |a| < 4
    ensures StateOf(before + a) == StateSplit(before, a, |before| + |a|)
  {
    hide StateSplit;
    var units := before + a;
    assert WholeLength(|units|) == |before|;
    assert units[..|before|] == before && units[|before|..] == a;
  }

  lemma TailsDiffer(before: seq<Unit>, a: seq<Unit>, b: seq<Unit>, length: nat)
    requires 0 < |a| == |b| < 4
    ensures StateSplit(before, a, length) == StateSplit(before, b, length) <==> TailWord(a) == TailWord(b)
  {
    hide TailWord, XorWord, Absorbed, Run, Back, Scrambling;
    var h := Absorbed(before, 0);
    var k, l := TailWord(a), TailWord(b);
    XorKeepsApart(WithTail(h, a), WithTail(h, b), length % 0x1_0000_0000);
    XorCommutes(h, Scrambled(k));
    XorCommutes(h, Scrambled(l));
    XorKeepsApart(Scrambled(k), Scrambled(l), h);
    AllStepsReversible();
    StepsInvert(Scrambling(), k);
    StepsInvert(Scrambling(), l);
  }

  lemma OneWordState(before: seq<Unit>, a: seq<Unit>, after: seq<Unit>)
    requires |before| % 4 == 0 && |a| == 4
    ensures StateOf(before + a + after) ==
            StateSplit(before + (a + after[..WholeLength(|after|)]), after[WholeLength(|after|)..], |before| + 4 + |after|)
  {
    hide StateSplit;
    WholeGroups(|before|, |after|);
    OneWordSlices(before, a, after, WholeLength(|after|));
  }

  lemma WholeGroups(b: nat, n: nat)
    requires b % 4 == 0
    ensures WholeLength(b + 4 + n) == b + 4 + WholeLength(n)
  {}

  lemma OneWordSlices(before: seq<Unit>, a: seq<Unit>, after: seq<Unit>, len4: nat)
    requires |a| == 4 && len4 <= |after|
    ensures var units := before + a + after; var n := |before| + 4 + len4;
            units[..n] == before + (a + after[..len4]) && units[n..] == after[len4..]
  {}

  // ---------------------------------------------------------------------------
  // The words
  // ---------------------------------------------------------------------------

  /** The bits of a group are those of its units, one octet further up each, and for the last one's
      upper half back at the bottom, added without carry. */
  lemma GroupBits(a: Unit, b: Unit, c: Unit, d: Unit, i: nat)
    ensures Bit(Group(a, b, c, d), i) ==
            (Bit(a, i) + Bit(b as int * 0x100, i) + Bit(c as int * 0x10000, i) + Bit(d as int % 0x100 * 0x1000000, i) +
             Bit(d as int / 0x100, i)) % 2
  {
    FiveBits(a, b * 0x100, c * 0x10000, d % 0x100 * 0x1000000, d / 0x100, i);
  }

  lemma FiveBits(a: Word, b: Word, c: Word, d: Word, e: Word, i: nat)
    ensures Bit(XorWord(XorWord(XorWord(XorWord(a, b), c), d), e), i) ==
            (Bit(a, i) + Bit(b, i) + Bit(c, i) + Bit(d, i) + Bit(e, i)) % 2
  {
    hide Bit, Xor;
    XorBit(a, b, i);
    XorBit(XorWord(a, b), c, i);
    XorBit(XorWord(XorWord(a, b), c), d, i);
    XorBit(XorWord(XorWord(XorWord(a, b), c), d), e, i);
  }

  lemma TailBits(tail: seq<Unit>, i: nat)
    requires 0 < |tail| < 4
    ensures Bit(TailWord(tail), i) ==
            (Bit(tail[0], i) + (if |tail| > 1 then Bit(tail[1] as int * 0x100, i) else 0) +
             (if |tail| > 2 then Bit(tail[2] as int * 0x10000, i) else 0)) % 2
  {
    hide Bit, Xor;
    var third: Word := if |tail| > 2 then tail[2] as int * 0x10000 else 0;
    var second: Word := if |tail| > 1 then tail[1] as int * 0x100 else 0;
    ZeroBit(i);
    XorBit(third, second, i);
    XorBit(XorWord(third, second), tail[0], i);
  }

  lemma XorBit(a: nat, b: nat, i: nat)
    ensures Bit(Xor(a, b), i) == (Bit(a, i) + Bit(b, i)) % 2
  {
    XorIs(a, b);
  }

  lemma {:induction false} ZeroBit(i: nat)
    ensures Bit(0, i) == 0
  {
    assert Down(0, i) <= 0;
  }

  ghost predicate Octets(units: seq<Unit>) { forall k :: 0 <= k < |units| ==> units[k] < 0x100 }

  /** The number whose digits in base 256 these are, the first one lowest. */
  function LittleEndian(units: seq<Unit>): nat
  {
    if units == [] then 0 else units[0] as int + 0x100 * LittleEndian(units[1..])
  }

  lemma {:induction false} LittleEndianTells(a: seq<Unit>, b: seq<Unit>)
    requires |a| == |b| && Octets(a) && Octets(b)
    ensures LittleEndian(a) == LittleEndian(b) <==> a == b
  {
    if a != [] {
      assert forall k :: 0 <= k < |a| - 1 ==> a[1..][k] == a[k + 1] && b[1..][k] == b[k + 1];
      LittleEndianTells(a[1..], b[1..]);
      assert a == [a[0]] + a[1..] && b == [b[0]] + b[1..];
    }
  }

  lemma Powers()
    ensures Power(8) == 0x100 && Power(16) == 0x10000 && Power(24) == 0x1000000
  {
    assert Power(8) == 256;
    PowerSum(8, 8);
    PowerSum(16, 8);
  }

  lemma FourApart(a: nat, b: nat, c: nat, d: nat)
    requires a < 0x100 && b < 0x100 && c < 0x100
    ensures Xor(Xor(Xor(Xor(a, b * 0x100), c * 0x10000), d * 0x1000000), 0) ==
            a + b * 0x100 + c * 0x10000 + d * 0x1000000
  {
    hide Xor, Power;
    Powers();
    XorApart(a, b, 8);
    XorApart(a + b * 0x100, c, 16);
    XorApart(a + b * 0x100 + c * 0x10000, d, 24);
    XorZero(a + b * 0x100 + c * 0x10000 + d * 0x1000000);
  }

  lemma ThreeApart(a: nat, b: nat, c: nat)
    requires a < 0x100 && b < 0x100
    ensures Xor(Xor(c * 0x10000, b * 0x100), a) == a + b * 0x100 + c * 0x10000
  {
    hide Xor, Power;
    Powers();
    XorApart(b * 0x100, c, 16);
    XorApart(a, b + 0x100 * c, 8);
    assert b * 0x100 + c * 0x10000 == (b + 0x100 * c) * 0x100;
  }

  lemma ThreeOctets(tail: seq<Unit>)
    requires 0 < |tail| < 4 && Octets(tail)
    ensures TailWord(tail) == LittleEndian(tail)
  {
    hide Xor;
    ThreeApart(tail[0], if |tail| > 1 then tail[1] else 0, if |tail| > 2 then tail[2] else 0);
    if |tail| == 2 {
      assert tail == [tail[0], tail[1]];
      LittleTwo(tail[0], tail[1]);
    } else if |tail| == 3 {
      assert tail == [tail[0], tail[1], tail[2]];
      LittleThree(tail[0], tail[1], tail[2]);
    }
  }

  lemma LittleTwo(a: Unit, b: Unit)
    ensures LittleEndian([a, b]) == a as int + b as int * 0x100
  {
    assert [a, b][1..] == [b] && [b][1..] == [];
    assert LittleEndian([b]) == b;
  }

  lemma LittleThree(a: Unit, b: Unit, c: Unit)
    ensures LittleEndian([a, b, c]) == a as int + b as int * 0x100 + c as int * 0x10000
  {
    assert [a, b, c][1..] == [b, c];
    LittleTwo(b, c);
  }

  lemma LittleFour(a: Unit, b: Unit, c: Unit, d: Unit)
    ensures LittleEndian([a, b, c, d]) == a as int + b as int * 0x100 + c as int * 0x10000 + d as int * 0x1000000
  {
    assert [a, b, c, d][1..] == [b, c, d];
    LittleThree(b, c, d);
  }

  /** Inputs of octets that differ in a single group of four have different hashes. */
  lemma OctetGroupsDiffer(before: seq<Unit>, a: seq<Unit>, b: seq<Unit>, after: seq<Unit>)
    requires |before| % 4 == 0 && |a| == 4 && |b| == 4 && Octets(a) && Octets(b)
    ensures FirstWord(a) == LittleEndian(a)
    ensures Murmur(before + a + after) == Murmur(before + b + after) <==> a == b
  {
    hide Group, Murmur;
    OneWordDiffers(before, a, b, after);
    LittleEndianTells(a, b);
    FirstOctets(a);
    FirstOctets(b);
  }

  lemma FirstOctets(a: seq<Unit>)
    requires |a| == 4 && Octets(a)
    ensures FirstWord(a) == LittleEndian(a)
  {
    hide Xor;
    FourApart(a[0], a[1], a[2], a[3]);
    LittleFour(a[0], a[1], a[2], a[3]);
    assert a == [a[0], a[1], a[2], a[3]];
    assert a[3] % 0x100 == a[3] && a[3] / 0x100 == 0;
  }

  /** And so do those that differ in the octets after the last group. */
  lemma OctetTailsDiffer(before: seq<Unit>, a: seq<Unit>, b: seq<Unit>)
    requires |before| % 4 == 0 && 0 < |a| == |b| < 4 && Octets(a) && Octets(b)
    ensures TailWord(a) == LittleEndian(a)
    ensures Murmur(before + a) == Murmur(before + b) <==> a == b
  {
    hide TailWord, Murmur;
    OneTailDiffers(before, a, b);
    LittleEndianTells(a, b);
    ThreeOctets(a);
    ThreeOctets(b);
  }

  function Zeros(n: nat): seq<Unit> { seq(n, _ => 0) }

  lemma ScrambledZero()
    ensures Scrambled(0) == 0
  {
    hide Mul, Rotated15;
    TurnsZero();
    RunThree(Times(0xcc9e2d51, 0xdee13bb1), Turn15(), Times(0x1b873593, 0x56ed309b), 0);
  }

  lemma TurnsZero()
    ensures Mul(0, 0xcc9e2d51) == 0 && Rotated15(0) == 0 && Mul(0, 0x1b873593) == 0
  {}

  lemma ZeroTail(h: Word, n: nat)
    requires n < 4
    ensures WithTail(h, Zeros(n)) == h
  {
    hide TailWord, Scrambled;
    if n > 0 {
      ThreeOctets(Zeros(n));
      LittleZeros(n);
      ScrambledZero();
      XorZero(h);
    }
  }

  lemma {:induction false} LittleZeros(n: nat)
    ensures LittleEndian(Zeros(n)) == 0
  {
    if n > 0 {
      assert Zeros(n)[1..] == Zeros(n - 1);
      LittleZeros(n - 1);
    }
  }

  lemma ZerosState(before: seq<Unit>, n: nat)
    requires |before| % 4 == 0 && n < 4 && |before| + 3 < 0x1_0000_0000
    ensures StateOf(before + Zeros(n)) == XorWord(Absorbed(before, 0), |before| + n)
  {
    hide WithTail, StateOf, XorWord, Absorbed;
    TailState(before, Zeros(n));
    ZeroTail(Absorbed(before, 0), n);
  }

  /** Zeros at the end add nothing but their number to the state, and that tells them apart. */
  lemma ZerosDiffer(before: seq<Unit>, m: nat, n: nat)
    requires |before| % 4 == 0 && m < 4 && n < 4 && |before| + 3 < 0x1_0000_0000
    ensures Murmur(before + Zeros(m)) == Murmur(before + Zeros(n)) <==> m == n
  {
    hide Murmur, Xor, Absorbed, StateOf, Zeros;
    var h, p, q := Absorbed(before, 0), |before| + m, |before| + n;
    ZerosState(before, m);
    ZerosState(before, n);
    SameHash(before + Zeros(m), before + Zeros(n));
    XorCommutes(h, p);
    XorCommutes(h, q);
    XorKeepsApart(p, q, h);
  }

  // ---------------------------------------------------------------------------
  // The code
  // ---------------------------------------------------------------------------

  lemma RunOne(a: Step, w: Word)
    ensures Run([a], w) == a.apply(w)
  {
    assert [a][1..] == [];
  }

  lemma RunTwo(a: Step, b: Step, w: Word)
    ensures Run([a, b], w) == b.apply(a.apply(w))
  {
    assert [a, b][1..] == [b];
    RunOne(b, a.apply(w));
  }

  lemma RunThree(a: Step, b: Step, c: Step, w: Word)
    ensures Run([a, b, c], w) == c.apply(b.apply(a.apply(w)))
  {
    assert [a, b, c][1..] == [b, c];
    RunTwo(b, c, a.apply(w));
  }

  lemma RunConcat(a: seq<Step>, b: seq<Step>, w: Word)
    ensures Run(a + b, w) == Run(b, Run(a, w))
  {
    if a == [] {
      assert a + b == b;
    } else {
      assert (a + b)[1..] == a[1..] + b;
      RunConcat(a[1..], b, a[0].apply(w));
    }
  }

  method Scramble(k0: Word) returns (k: Word)
    ensures k == Scrambled(k0)
  {
    hide Mul, SplitMul, Rotated15;
    SplitIsWhole(k0, 0x2d51, 0xcc9e);
    k := SplitMul(k0, 0x2d51, 0xcc9e);
    k := Rotated15(k);
    SplitIsWhole(k, 0x3593, 0x1b87);
    k := SplitMul(k, 0x3593, 0x1b87);
    RunThree(Times(0xcc9e2d51, 0xdee13bb1), Turn15(), Times(0x1b873593, 0x56ed309b), k0);
  }

  /** The last two lines of a round of the loop. */
  method Mix(h0: Word, k: Word) returns (h: Word)
    ensures h == MixedIn(h0, k)
  {
    hide Mul, Add, Rotated13, XorWord, Scrambled;
    h := XorWord(h0, Scrambled(k));
    h := Rotated13(h);
    h := Add(Mul(h, 5), 0xe6546b64);
    RunThree(Turn13(), Times(5, 0xcccccccd), Plus(), XorWord(h0, Scrambled(k)));
  }

  method Finalize(h0: Word) returns (h: Word)
    ensures h == Finalized(h0)
  {
    hide Mul, SplitMul, Folded;
    h := Folded(h0, 16);
    SplitIsWhole(h, 0xca6b, 0x85eb);
    h := SplitMul(h, 0xca6b, 0x85eb);
    h := Folded(h, 13);
    ghost var half := h;
    SplitIsWhole(h, 0xae35, 0xc2b2);
    h := SplitMul(h, 0xae35, 0xc2b2);
    h := Folded(h, 16);
    RunThree(Fold16(), Times(0x85ebca6b, 0xa5cb9243), Fold13(), h0);
    ghost var first, second := [Fold16(), Times(0x85ebca6b, 0xa5cb9243), Fold13()], [Times(0xc2b2ae35, 0x7ed1b41d), Fold16()];
    RunConcat(first, second, h0);
    assert first + second == Finalization();
    RunTwo(Times(0xc2b2ae35, 0x7ed1b41d), Fold16(), half);
  }

  method WriteBase62(h: nat) returns (result: string)
    ensures result == Base62(h)
  {
    if h == 0 {
      return [Digit(0)];
    }
    result := [];
    var n := h;
    while n > 0
      invariant Numeral(n) + result == Base62(h)
    {
      NumeralStep(n, result);
      result := [Digit(n % 62)] + result;
      n := n / 62;
    }
  }

  /** The numeral, empty for 0: what the loop has still to write. */
  function Numeral(n: nat): string { if n == 0 then [] else Base62(n) }

  lemma NumeralStep(n: nat, result: string)
    requires n > 0
    ensures Numeral(n) + result == Numeral(n / 62) + ([Digit(n % 62)] + result)
  {}

  /** The loop over the groups of four. */
  method AbsorbGroups(units: seq<Unit>, len4: nat) returns (h: Word)
    requires len4 <= |units| && len4 % 4 == 0
    ensures h == Absorbed(units[..len4], 0)
  {
    hide Group, MixedIn;
    h := 0;
    var i := 0;
    ghost var groups := units[..len4];
    assert groups[0..] == groups;
    while i < len4
      invariant 0 <= i <= len4 && i % 4 == 0
      invariant Absorbed(groups[i..], h) == Absorbed(groups, 0)
    {
      var k := Group(units[i], units[i + 1], units[i + 2], units[i + 3]);
      assert groups[i..][4..] == groups[i + 4..] && FirstWord(groups[i..]) == k;
      i := i + 4;
      h := Mix(h, k);
    }
  }

  /** The switch over the remaining code units. */
  method AbsorbTail(tail: seq<Unit>, h0: Word) returns (h: Word)
    requires |tail| < 4
    ensures h == WithTail(h0, tail)
  {
    h := h0;
    if tail == [] {
      return;
    }
    var k: Word := 0;
    if |tail| > 2 {
      var third: Word := tail[2] as int * 0x10000;
      XorZero(third);
      k := XorWord(k, third);
    }
    if |tail| > 1 {
      var second: Word := tail[1] as int * 0x100;
      k := XorWord(k, second);
    } else {
      XorZero(0);
    }
    k := XorWord(k, tail[0]);
    assert k == TailWord(tail);
    k := Scramble(k);
    h := XorWord(h, k);
  }

  method MurmurHash(units: seq<Unit>) returns (result: string)
    ensures result == Murmur(units)
  {
    var rem := |units| % 4;
    var len4 := |units| - rem;
    assert len4 == WholeLength(|units|);
    var h := AbsorbGroups(units, len4);
    h := AbsorbTail(units[len4..], h);
    h := XorWord(h, |units| % 0x1_0000_0000);
    h := Finalize(h);
    result := WriteBase62(h);
  }
}
