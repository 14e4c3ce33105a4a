/** Truncating UTF-8 text without cutting a character: byte and character budgets
    over the encoding of RFC 3629, section 3. */
module Text {

  type Byte = b: int | 0 <= b < 256
  type Bytes = seq<Byte>

  /** A Unicode scalar value: any code point but the surrogates. */
  type Scalar = c: int | 0 <= c <= 0xD7FF || 0xE000 <= c <= 0x10FFFF

  function Encode(c: Scalar): (e: Bytes)
    ensures 1 <= |e| <= 4
    ensures !IsContinuation(e[0]) && |e| == Width(e[0])
    ensures forall i | 1 <= i < |e| :: IsContinuation(e[i])
  {
    if c < 0x80 then [c]
    else if c < 0x800 then [0xC0 + c / 64, 0x80 + c % 64]
    else if c < 0x1_0000 then [0xE0 + c / 4096, 0x80 + c / 64 % 64, 0x80 + c % 64]
    else [0xF0 + c / 262_144, 0x80 + c / 4096 % 64, 0x80 + c / 64 % 64, 0x80 + c % 64]
  }

  predicate IsContinuation(b: Byte) {
    0x80 <= b < 0xC0
  }

  /** How many bytes the character starting with this byte takes. */
  function Width(lead: Byte): (w: nat)
    ensures w >= 1
  {
    if lead < 0x80 then 1 else if lead < 0xE0 then 2 else if lead < 0xF0 then 3 else 4
  }

  function EncodeAll(cs: seq<Scalar>): Bytes {
    if cs == [] then [] else EncodeAll(cs[..|cs| - 1]) + Encode(cs[|cs| - 1])
  }

  predicate IsCharBoundary(s: Bytes, i: nat) {
    i == 0 || i == |s| || (i < |s| && !IsContinuation(s[i]))
  }

  /** Where character k of the encoded text begins. */
  function Offset(cs: seq<Scalar>, k: nat): nat
    requires k <= |cs|
  {
    |EncodeAll(cs[..k])|
  }

  lemma OffsetStep(cs: seq<Scalar>, k: nat)
    requires k < |cs|
    ensures EncodeAll(cs[..k + 1]) == EncodeAll(cs[..k]) + Encode(cs[k])
    ensures Offset(cs, k) < Offset(cs, k + 1) <= Offset(cs, k) + 4
  {
    assert cs[..k + 1][..k] == cs[..k];
  }

  lemma {:induction false} OffsetPrefix(cs: seq<Scalar>, k: nat)
    requires k <= |cs|
    ensures Offset(cs, k) <= |EncodeAll(cs)|
    ensures EncodeAll(cs)[..Offset(cs, k)] == EncodeAll(cs[..k])
    decreases |cs|
  {
    if k == |cs| {
      assert cs[..k] == cs;
    } else {
      var front := cs[..|cs| - 1];
      assert front[..k] == cs[..k];
      OffsetPrefix(front, k);
    }
  }

  lemma {:induction false} OffsetMonotone(cs: seq<Scalar>, j: nat, k: nat)
    requires j <= k <= |cs|
    ensures Offset(cs, j) <= Offset(cs, k)
    ensures j < k ==> Offset(cs, j) < Offset(cs, k)
    decreases k
  {
    if j < k {
      OffsetStep(cs, k - 1);
      OffsetMonotone(cs, j, k - 1);
    }
  }

  /** The bytes that may start a slice are exactly the starts of characters. */
  lemma {:induction false} BoundariesAreOffsets(cs: seq<Scalar>, i: nat) returns (k: nat)
    requires i <= |EncodeAll(cs)| && IsCharBoundary(EncodeAll(cs), i)
    ensures k <= |cs| && Offset(cs, k) == i
    decreases |cs|
  {
    if i == |EncodeAll(cs)| {
      k := |cs|;
      assert cs[..k] == cs;
    } else {
      var front := cs[..|cs| - 1];
      if i <= |EncodeAll(front)| {
        k := BoundariesAreOffsets(front, i);
        assert front[..k] == cs[..k];
      } else {
        assert false;
      }
    }
  }

  lemma OffsetsAreBoundaries(cs: seq<Scalar>, k: nat)
    requires k <= |cs|
    ensures Offset(cs, k) <= |EncodeAll(cs)| && IsCharBoundary(EncodeAll(cs), Offset(cs, k))
  {
    OffsetPrefix(cs, k);
    if k < |cs| {
      OffsetStep(cs, k);
      OffsetPrefix(cs, k + 1);
      assert EncodeAll(cs)[..Offset(cs, k + 1)][Offset(cs, k)] == Encode(cs[k])[0];
    } else {
      assert cs[..k] == cs;
    }
  }

  /** The longest run of leading characters whose encoding fits in `max` bytes. */
  function Fit(cs: seq<Scalar>, max: nat): (k: nat)
    ensures k <= |cs| && Offset(cs, k) <= max
    ensures k < |cs| ==> Offset(cs, k + 1) > max
  {
    FitFrom(cs, max, 0)
  }

  function FitFrom(cs: seq<Scalar>, max: nat, j: nat): (k: nat)
    requires j <= |cs| && Offset(cs, j) <= max
    ensures j <= k <= |cs| && Offset(cs, k) <= max
    ensures k < |cs| ==> Offset(cs, k + 1) > max
    decreases |cs| - j
  {
    if j == |cs| || Offset(cs, j + 1) > max then j else FitFrom(cs, max, j + 1)
  }

  lemma FitIsLongest(cs: seq<Scalar>, max: nat, j: nat)
    requires j <= |cs| && Offset(cs, j) <= max
    ensures j <= Fit(cs, max)
  {
    if j > Fit(cs, max) {
      OffsetMonotone(cs, Fit(cs, max) + 1, j);
    }
  }

  /** Byte budget: steps back from the budget to the nearest boundary. For every
      text that is the longest prefix of whole characters that fits, and the loop
      gives up at most three bytes. */
  method BytePrefix(s: Bytes, max: nat, ghost cs: seq<Scalar>) returns (r: Bytes)
    requires s == EncodeAll(cs)
    ensures r == EncodeAll(cs[..Fit(cs, max)])
    ensures |r| <= max && (|s| > max ==> max - |r| <= 3)
  {
    if |s| <= max {
      WholeFits(cs, max);
      return s;
    }
    var end := max;
    while end > 0 && !IsCharBoundary(s, end)
      invariant 0 <= end <= max
      invariant forall i | end < i <= max :: !IsCharBoundary(s, i)
    {
      end := end - 1;
    }
    BoundaryBelow(cs, max, end);
    r := s[..end];
  }

  lemma WholeFits(cs: seq<Scalar>, max: nat)
    requires |EncodeAll(cs)| <= max
    ensures cs[..Fit(cs, max)] == cs
  {
    assert cs[..|cs|] == cs;
    FitIsLongest(cs, max, |cs|);
  }

  /** The last boundary at or below the budget is where the longest fit ends. */
  lemma BoundaryBelow(cs: seq<Scalar>, max: nat, end: nat)
    requires end <= max < |EncodeAll(cs)| && IsCharBoundary(EncodeAll(cs), end)
    requires forall i | end < i <= max :: !IsCharBoundary(EncodeAll(cs), i)
    ensures end == Offset(cs, Fit(cs, max)) && max - end <= 3
    ensures EncodeAll(cs)[..end] == EncodeAll(cs[..Fit(cs, max)])
  {
    var k := BoundariesAreOffsets(cs, end);
    FitIsLongest(cs, max, k);
    OffsetMonotone(cs, k, Fit(cs, max));
    OffsetsAreBoundaries(cs, Fit(cs, max));
    OffsetPrefix(cs, Fit(cs, max));
    assert cs[..|cs|] == cs;
    OffsetStep(cs, Fit(cs, max));
  }

  // ---- Character budgets ----

  /** Byte offset of the character `n` after the one at `i`, or the end. */
  function NthOffset(s: Bytes, i: nat, n: nat): (j: nat)
    requires i <= |s|
    ensures i <= j <= |s|
    decreases n
  {
    if n == 0 || i == |s| then i
    else if i + Width(s[i]) > |s| then |s|
    else NthOffset(s, i + Width(s[i]), n - 1)
  }

  function CharPrefix(s: Bytes, maxChars: nat): Bytes {
    s[..NthOffset(s, 0, maxChars)]
  }

  const DOTS: Bytes := [46, 46, 46]

  function TruncateEllipsis(s: Bytes, maxChars: nat): Bytes {
    var prefix := CharPrefix(s, maxChars);
    if |prefix| == |s| then s else prefix + DOTS
  }

  function Min(a: nat, b: nat): nat {
    if a <= b then a else b
  }

  /** The lead byte of character j says where character j + 1 begins. */
  lemma LeadByte(cs: seq<Scalar>, j: nat)
    requires j < |cs|
    ensures Offset(cs, j) < Offset(cs, j + 1) <= |EncodeAll(cs)|
    ensures Offset(cs, j) + Width(EncodeAll(cs)[Offset(cs, j)]) == Offset(cs, j + 1)
  {
    OffsetStep(cs, j);
    OffsetPrefix(cs, j + 1);
    assert EncodeAll(cs)[..Offset(cs, j + 1)][Offset(cs, j)] == Encode(cs[j])[0];
  }

  lemma {:induction false} NthIsOffset(cs: seq<Scalar>, j: nat, n: nat, s: Bytes, i: nat)
    requires j <= |cs| && s == EncodeAll(cs) && i == Offset(cs, j) && i <= |s|
    ensures NthOffset(s, i, n) == Offset(cs, Min(j + n, |cs|))
    decreases n
  {
    if j == |cs| {
      assert cs[..|cs|] == cs;
    } else if n > 0 {
      LeadByte(cs, j);
      NthIsOffset(cs, j + 1, n - 1, s, Offset(cs, j + 1));
    }
  }

  /** A character budget keeps exactly the first so many characters. */
  lemma CharPrefixExact(cs: seq<Scalar>, maxChars: nat)
    ensures CharPrefix(EncodeAll(cs), maxChars) == EncodeAll(cs[..Min(maxChars, |cs|)])
  {
    assert cs[..0] == [];
    NthIsOffset(cs, 0, maxChars, EncodeAll(cs), 0);
    OffsetPrefix(cs, Min(maxChars, |cs|));
  }

  lemma {:induction false} EncodeConcat(a: seq<Scalar>, b: seq<Scalar>)
    ensures EncodeAll(a + b) == EncodeAll(a) + EncodeAll(b)
    decreases |b|
  {
    if b == [] {
      assert a + b == a;
    } else {
      assert (a + b)[..|a + b| - 1] == a + b[..|b| - 1];
      EncodeConcat(a, b[..|b| - 1]);
    }
  }

  /** The ellipsis is there exactly when something was cut. */
  lemma EllipsisExact(cs: seq<Scalar>, maxChars: nat)
    ensures TruncateEllipsis(EncodeAll(cs), maxChars) ==
            EncodeAll(if |cs| <= maxChars then cs else cs[..maxChars] + [46, 46, 46])
  {
    CharPrefixExact(cs, maxChars);
    if |cs| <= maxChars {
      assert cs[..|cs|] == cs;
    } else {
      assert cs[..|cs|] == cs;
      OffsetMonotone(cs, maxChars, |cs|);
      EncodeConcat(cs[..maxChars], [46, 46, 46]);
      DotsEncode();
    }
  }

  lemma DotsEncode()
    ensures EncodeAll([46, 46, 46]) == DOTS
  {
    assert [46, 46, 46][..2] == [46, 46] && [46, 46][..1] == [46] && [46][..0] == [];
    assert EncodeAll([46]) == [46] && EncodeAll([46, 46]) == [46, 46];
  }
}
