/** The 64-bit FNV-1a digest in its two forms, a loop over one body and a state
    that is written to, and that they agree. */
module Fnv {
  import opened Sequences

  type Byte = b: int | 0 <= b < 256
  type Bytes = seq<Byte>

  /** A 64-bit word; multiplication wraps. */
  type Word = w: int | 0 <= w < WORD_SIZE

  const WORD_SIZE := 0x1_0000_0000_0000_0000
  const OFFSET: Word := 0xcbf2_9ce4_8422_2325
  const PRIME: Word := 0x100_0000_01b3
  const BYTE_BITS: nat := 8
  const DIGITS: nat := 16

  /** Exclusive or of the low `bits` bits of two numbers. */
  function Xor(a: nat, b: nat, bits: nat): (x: nat)
    decreases bits, a, b
  {
    if bits == 0 then 0
    else 2 * Xor(a / 2, b / 2, bits - 1) + (if a % 2 == b % 2 then 0 else 1)
  }

  /** `h ^= b` touches only the low byte of the word. */
  function XorByte(h: Word, b: Byte): Word {
    (h - h % 256 + Xor(h % 256, b, BYTE_BITS)) % WORD_SIZE
  }

  function WrappingMul(a: Word, b: Word): Word {
    (a * b) % WORD_SIZE
  }

  function Absorb(h: Word, bytes: Bytes): Word
    decreases |bytes|
  {
    if bytes == [] then h
    else WrappingMul(XorByte(Absorb(h, bytes[..|bytes| - 1]), bytes[|bytes| - 1]), PRIME)
  }

  lemma AbsorbOne(h: Word, a: Bytes, b: Byte)
    ensures Absorb(h, a + [b]) == WrappingMul(XorByte(Absorb(h, a), b), PRIME)
  {
    assert (a + [b])[..|a + [b]| - 1] == a;
  }

  /** Folding two fields one after the other is folding their concatenation. */
  lemma {:induction false} AbsorbConcat(h: Word, a: Bytes, b: Bytes)
    ensures Absorb(h, a + b) == Absorb(Absorb(h, a), b)
    decreases |b|
  {
    if b == [] {
      assert a + b == a;
    } else {
      var front := b[..|b| - 1];
      assert (a + b)[..|a + b| - 1] == a + front;
      AbsorbConcat(h, a, front);
    }
  }

  function HexDigit(d: nat): char
    requires d < 16
  {
    "0123456789abcdef"[d]
  }

  /** Lower-case hexadecimal, zero-padded to `width` digits. */
  function Hex(n: nat, width: nat): (s: string)
    ensures |s| == width
    decreases width, n
  {
    if width == 0 then "" else Hex(n / 16, width - 1) + [HexDigit(n % 16)]
  }

  function Digest(h: Word): (s: string)
    ensures |s| == 16
  {
    Hex(h, DIGITS)
  }

  function ContentHash(bytes: Bytes): (s: string)
    ensures |s| == 16
  {
    Digest(Absorb(OFFSET, bytes))
  }

  // ---- What the hash keeps apart ----

  /** Bit `i` of a number. */
  predicate Bit(a: nat, i: nat) {
    if i == 0 then a % 2 == 1 else Bit(a / 2, i - 1)
  }

  lemma {:induction false} XorBits(a: nat, b: nat, bits: nat, i: nat)
    requires i < bits
    ensures Bit(Xor(a, b, bits), i) <==> Bit(a, i) != Bit(b, i)
    decreases bits
  {
    if i > 0 {
      XorBits(a / 2, b / 2, bits - 1, i - 1);
    }
  }

  function Pow2(bits: nat): (p: nat) {
    if bits == 0 then 1 else 2 * Pow2(bits - 1)
  }

  lemma {:induction false} XorFits(a: nat, b: nat, bits: nat)
    ensures Xor(a, b, bits) < Pow2(bits)
    decreases bits
  {
    if bits > 0 {
      XorFits(a / 2, b / 2, bits - 1);
    }
  }

  lemma {:induction false} LowBits(q: nat, low: nat, bits: nat, i: nat)
    requires i < bits && low < Pow2(bits)
    ensures Bit(q * Pow2(bits) + low, i) <==> Bit(low, i)
    decreases bits
  {
    var a, p := q * Pow2(bits) + low, Pow2(bits - 1);
    assert a == 2 * (q * p) + low;
    if i > 0 {
      assert a / 2 == q * p + low / 2;
      LowBits(q, low / 2, bits - 1, i - 1);
    }
  }

  lemma LowByte(h: Word, i: nat)
    requires i < BYTE_BITS
    ensures Bit(h, i) <==> Bit(h % 256, i)
  {
    ByteBits();
    LowBits(h / 256, h % 256, BYTE_BITS, i);
  }

  lemma ByteBits()
    ensures Pow2(BYTE_BITS) == 256
  {
    assert Pow2(4) == 16;
    assert Pow2(8) == 16 * Pow2(4);
  }

  lemma XorByteParts(h: Word, b: Byte)
    ensures XorByte(h, b) / 256 == h / 256
    ensures XorByte(h, b) % 256 == Xor(h % 256, b, BYTE_BITS)
  {
    XorFits(h % 256, b, BYTE_BITS);
    ByteBits();
    LowReplaced(h, Xor(h % 256, b, BYTE_BITS));
  }

  lemma LowReplaced(h: Word, x: nat)
    requires x < 256
    ensures (h - h % 256 + x) % WORD_SIZE == h / 256 * 256 + x
  {
    assert h / 256 < WORD_SIZE / 256;
  }

  lemma XorByteBit(h: Word, mixed: Word, low: nat, b: Byte, x: nat, i: nat)
    requires i < BYTE_BITS && low == h % 256 && x == mixed % 256 && x == Xor(low, b, BYTE_BITS)
    ensures Bit(mixed, i) <==> Bit(h, i) != Bit(b, i)
  {
    LowByte(mixed, i);
    LowByte(h, i);
    XorBits(low, b, BYTE_BITS, i);
  }

  /** Mixing a byte in flips exactly its bits, and no bit above the low eight. */
  lemma XorByteBits(h: Word, b: Byte)
    ensures XorByte(h, b) / 256 == h / 256
    ensures forall i | 0 <= i < BYTE_BITS :: Bit(XorByte(h, b), i) <==> Bit(h, i) != Bit(b, i)
  {
    XorByteParts(h, b);
    forall i | 0 <= i < BYTE_BITS
      ensures Bit(XorByte(h, b), i) <==> Bit(h, i) != Bit(b, i)
    {
      XorByteBit(h, XorByte(h, b), h % 256, b, Xor(h % 256, b, BYTE_BITS), i);
    }
  }

  lemma {:induction false} SameBits(a: nat, b: nat, bits: nat)
    requires a < Pow2(bits) && b < Pow2(bits)
    requires forall i | 0 <= i < bits :: Bit(a, i) <==> Bit(b, i)
    ensures a == b
    decreases bits
  {
    if bits > 0 {
      assert Bit(a, 0) <==> Bit(b, 0);
      forall i | 0 <= i < bits - 1
        ensures Bit(a / 2, i) <==> Bit(b / 2, i)
      {
        assert Bit(a, i + 1) <==> Bit(b, i + 1);
      }
      SameBits(a / 2, b / 2, bits - 1);
    }
  }

  /** Into one state, different bytes are mixed differently. */
  lemma XorByteTellsBytes(h: Word, a: Byte, b: Byte)
    ensures XorByte(h, a) == XorByte(h, b) <==> a == b
  {
    if XorByte(h, a) == XorByte(h, b) {
      XorByteBits(h, a);
      XorByteBits(h, b);
      ByteBits();
      SameBits(a, b, BYTE_BITS);
    }
  }

  /** And one byte is mixed differently into different states. */
  lemma XorByteTellsStates(g: Word, h: Word, b: Byte)
    ensures XorByte(g, b) == XorByte(h, b) <==> g == h
  {
    if XorByte(g, b) == XorByte(h, b) {
      XorByteBits(g, b);
      XorByteBits(h, b);
      var low, low' := g % 256, h % 256;
      ByteBits();
      forall i | 0 <= i < BYTE_BITS
        ensures Bit(low, i) <==> Bit(low', i)
      {
        LowByte(g, i);
        LowByte(h, i);
      }
      SameBits(low, low', BYTE_BITS);
    }
  }

  /** What the multiplier is multiplied by to give one. */
  const INVERSE: Word := 0xce96_5057_aff6_957b

  /** The multiplier is odd, so multiplying loses nothing. */
  lemma MulTells(g: Word, h: Word)
    ensures WrappingMul(g, PRIME) == WrappingMul(h, PRIME) <==> g == h
  {
    if WrappingMul(g, PRIME) == WrappingMul(h, PRIME) {
      var q := g * PRIME / WORD_SIZE - h * PRIME / WORD_SIZE;
      assert (g - h) * PRIME == q * WORD_SIZE;
      assert PRIME * INVERSE == 887_285_111_055 * WORD_SIZE + 1;
      assert (g - h) * PRIME * INVERSE == q * WORD_SIZE * INVERSE;
      assert g - h == (q * INVERSE - 887_285_111_055 * (g - h)) * WORD_SIZE;
    }
  }

  /** Different states stay different, whatever is folded into both. */
  lemma {:induction false} AbsorbTellsStates(g: Word, h: Word, bytes: Bytes)
    ensures Absorb(g, bytes) == Absorb(h, bytes) <==> g == h
    decreases |bytes|
  {
    if bytes != [] {
      var front, last := bytes[..|bytes| - 1], bytes[|bytes| - 1];
      var a, b := Absorb(g, front), Absorb(h, front);
      AbsorbTellsStates(g, h, front);
      XorByteTellsStates(a, b, last);
      MulTells(XorByte(a, last), XorByte(b, last));
    }
  }

  lemma AbsorbTellsBytes(h: Word, before: Bytes, a: Byte, b: Byte, after: Bytes)
    ensures Absorb(h, before + [a] + after) == Absorb(h, before + [b] + after) <==> a == b
  {
    var mid := Absorb(h, before);
    AbsorbConcat(h, before + [a], after);
    AbsorbConcat(h, before + [b], after);
    AbsorbOne(h, before, a);
    AbsorbOne(h, before, b);
    AbsorbTellsStates(Absorb(h, before + [a]), Absorb(h, before + [b]), after);
    MulTells(XorByte(mid, a), XorByte(mid, b));
    XorByteTellsBytes(mid, a, b);
  }

  lemma HexDigitsDiffer(a: nat, b: nat)
    requires a < 16 && b < 16 && HexDigit(a) == HexDigit(b)
    ensures a == b
  {
  }

  function Pow16(width: nat): (p: nat) {
    if width == 0 then 1 else 16 * Pow16(width - 1)
  }

  lemma {:induction false} HexTells(a: nat, b: nat, width: nat)
    requires a < Pow16(width) && b < Pow16(width) && Hex(a, width) == Hex(b, width)
    ensures a == b
    decreases width
  {
    if width > 0 {
      var x, y := Hex(a / 16, width - 1), Hex(b / 16, width - 1);
      var s, t := x + [HexDigit(a % 16)], y + [HexDigit(b % 16)];
      assert s == t && x == s[..width - 1] && y == t[..width - 1];
      assert HexDigit(a % 16) == s[width - 1] == t[width - 1] == HexDigit(b % 16);
      HexDigitsDiffer(a % 16, b % 16);
      HexTells(a / 16, b / 16, width - 1);
    }
  }

  lemma WideEnough()
    ensures Pow16(4) == 0x1_0000 && Pow16(8) == 0x1_0000_0000 && Pow16(16) == WORD_SIZE
  {
    assert Pow16(8) == 0x1_0000 * Pow16(4);
    assert Pow16(12) == 0x1_0000 * Pow16(8);
    assert Pow16(16) == 0x1_0000 * Pow16(12);
  }

  /** Sixteen digits hold a whole word. */
  lemma DigestTells(g: Word, h: Word)
    ensures Digest(g) == Digest(h) <==> g == h
  {
    if Digest(g) == Digest(h) {
      WideEnough();
      HexTells(g, h, DIGITS);
    }
  }

  /** Two contents of one length that differ in exactly one byte have different
      digests, wherever the byte is. */
  lemma OneByteShows(before: Bytes, a: Byte, b: Byte, after: Bytes)
    ensures ContentHash(before + [a] + after) == ContentHash(before + [b] + after) <==> a == b
  {
    AbsorbTellsBytes(OFFSET, before, a, b, after);
    DigestTells(Absorb(OFFSET, before + [a] + after), Absorb(OFFSET, before + [b] + after));
  }

  /** One length, and every byte but this one the same. */
  predicate DifferOnce(s: Bytes, t: Bytes, k: nat) {
    |s| == |t| && k < |s| && s[k] != t[k] && s[..k] == t[..k] && s[k + 1..] == t[k + 1..]
  }

  lemma DifferOnceShows(s: Bytes, t: Bytes, k: nat)
    requires DifferOnce(s, t, k)
    ensures ContentHash(s) != ContentHash(t)
  {
    OneByteShows(s[..k], s[k], t[k], s[k + 1..]);
    assert s == s[..k] + [s[k]] + s[k + 1..];
    assert t == s[..k] + [t[k]] + s[k + 1..];
  }

  lemma DifferOnceInside(a: Bytes, s: Bytes, t: Bytes, b: Bytes, k: nat)
    requires DifferOnce(s, t, k)
    ensures DifferOnce(a + s + b, a + t + b, |a| + k)
  {
    var x, y := a + s + b, a + t + b;
    assert x[..|a| + k] == a + s[..k] && y[..|a| + k] == a + t[..k];
    assert x[|a| + k + 1..] == s[k + 1..] + b && y[|a| + k + 1..] == t[k + 1..] + b;
  }

  lemma {:induction false} HexConcat(high: nat, low: nat, width: nat, more: nat)
    requires low < Pow16(more)
    ensures Hex(high * Pow16(more) + low, width + more) == Hex(high, width) + Hex(low, more)
    decreases more
  {
    if more > 0 {
      NextDigit(high, low, Pow16(more - 1));
      HexConcat(high, low / 16, width, more - 1);
      Assoc(Hex(high, width), Hex(low / 16, more - 1), [HexDigit(low % 16)]);
    }
  }

  lemma NextDigit(high: nat, low: nat, p: nat)
    ensures (high * (16 * p) + low) / 16 == high * p + low / 16
    ensures (high * (16 * p) + low) % 16 == low % 16
  {
    assert high * (16 * p) == 16 * (high * p);
  }

  lemma HexHalves(high: nat, low: nat, p: nat, n: nat, width: nat, digits: nat, s: string, t: string)
    requires p == Pow16(width) && low < p && n == high * p + low && digits == 2 * width
    requires Hex(high, width) == s && Hex(low, width) == t
    ensures Hex(n, digits) == s + t
  {
    HexConcat(high, low, width, width);
  }

  lemma HexPair(a: nat, b: nat, width: nat, p: string, q: string)
    requires width == 4 && a < 0x1_0000 && b < 0x1_0000 && Hex(a, width) == p && Hex(b, width) == q
    ensures Hex(0x1_0000 * a + b, 2 * width) == p + q
  {
    WideEnough();
    HexHalves(a, b, 0x1_0000, 0x1_0000 * a + b, width, 2 * width, p, q);
  }

  lemma HexPairs(high: nat, low: nat, width: nat, p: string, q: string)
    requires width == 8 && low < 0x1_0000_0000 && Hex(high, width) == p && Hex(low, width) == q
    ensures Hex(0x1_0000_0000 * high + low, 2 * width) == p + q
  {
    WideEnough();
    HexHalves(high, low, 0x1_0000_0000, 0x1_0000_0000 * high + low, width, 2 * width, p, q);
  }

  lemma HexQuarters(a: nat, b: nat, c: nat, d: nat, width: nat, p: string, q: string, r: string, s: string)
    requires width == 4 && a < 0x1_0000 && b < 0x1_0000 && c < 0x1_0000 && d < 0x1_0000
    requires Hex(a, width) == p && Hex(b, width) == q && Hex(c, width) == r && Hex(d, width) == s
    ensures Hex(0x1_0000_0000 * (0x1_0000 * a + b) + (0x1_0000 * c + d), 4 * width) == (p + q) + (r + s)
  {
    HexPair(a, b, width, p, q);
    HexPair(c, d, width, r, s);
    HexPairs(0x1_0000 * a + b, 0x1_0000 * c + d, 2 * width, p + q, r + s);
  }

  lemma DigestSpelled(h: Word, a: nat, b: nat, c: nat, d: nat, p: string, q: string, r: string, s: string)
    requires a < 0x1_0000 && b < 0x1_0000 && c < 0x1_0000 && d < 0x1_0000
    requires h == 0x1_0000_0000 * (0x1_0000 * a + b) + (0x1_0000 * c + d)
    requires Spells(a, 4, p) && Spells(b, 4, q) && Spells(c, 4, r) && Spells(d, 4, s)
    ensures Digest(h) == (p + q) + (r + s)
  {
    HexQuarters(a, b, c, d, 4, p, q, r, s);
  }

  predicate Spells(n: nat, width: nat, s: string) {
    Hex(n, width) == s
  }

  lemma MoreDigits(n: nat, digit: nat, width: nat, s: string)
    requires Spells(n, width, s) && digit < 16
    ensures Spells(n * 16 + digit, width + 1, s + [HexDigit(digit)])
  {
    assert (n * 16 + digit) / 16 == n;
  }

  lemma TwoDigits(n: nat, width: nat, s: string, a: nat, b: nat)
    requires Spells(n, width, s) && a < 16 && b < 16
    ensures Spells(n * 256 + a * 16 + b, width + 2, s + [HexDigit(a)] + [HexDigit(b)])
  {
    MoreDigits(n, a, width, s);
    MoreDigits(n * 16 + a, b, width + 1, s + [HexDigit(a)]);
    assert (n * 16 + a) * 16 + b == n * 256 + a * 16 + b;
  }

  lemma FourDigits(a: nat, b: nat, c: nat, d: nat, s: string)
    requires a < 16 && b < 16 && c < 16 && d < 16 && s == ""
    ensures Spells(a * 4096 + b * 256 + c * 16 + d, 4,
                   s + [HexDigit(a)] + [HexDigit(b)] + [HexDigit(c)] + [HexDigit(d)])
  {
    TwoDigits(0, 0, s, a, b);
    TwoDigits(a * 16 + b, 2, s + [HexDigit(a)] + [HexDigit(b)], c, d);
  }

  lemma FourChars(s: string, p: char, q: char, r: char, t: char)
    requires |s| == 4 && s[0] == p && s[1] == q && s[2] == r && s[3] == t
    ensures s == "" + [p] + [q] + [r] + [t]
  {
  }

  lemma Quarter(n: nat, a: nat, b: nat, c: nat, d: nat, s: string)
    requires a < 16 && b < 16 && c < 16 && d < 16 && n == a * 4096 + b * 256 + c * 16 + d
    requires |s| == 4 && s[0] == HexDigit(a) && s[1] == HexDigit(b) && s[2] == HexDigit(c) && s[3] == HexDigit(d)
    ensures Spells(n, 4, s)
  {
    FourDigits(a, b, c, d, "");
    FourChars(s, HexDigit(a), HexDigit(b), HexDigit(c), HexDigit(d));
  }

  lemma EmptyQuarters()
    ensures Spells(0xcbf2, 4, "cbf2") && Spells(0x9ce4, 4, "9ce4")
    ensures Spells(0x8422, 4, "8422") && Spells(0x2325, 4, "2325")
  {
    Quarter(0xcbf2, 12, 11, 15, 2, "cbf2");
    Quarter(0x9ce4, 9, 12, 14, 4, "9ce4");
    Quarter(0x8422, 8, 4, 2, 2, "8422");
    Quarter(0x2325, 2, 3, 2, 5, "2325");
  }

  lemma EmptyText()
    ensures ("cbf2" + "9ce4") + ("8422" + "2325") == "cbf29ce484222325"
  {
  }

  /** The published digest of the empty text. */
  lemma EmptyDigest()
    ensures ContentHash([]) == "cbf29ce484222325"
  {
    assert Absorb(OFFSET, []) == OFFSET;
    EmptyQuarters();
    DigestSpelled(OFFSET, 0xcbf2, 0x9ce4, 0x8422, 0x2325, "cbf2", "9ce4", "8422", "2325");
    EmptyText();
  }

  lemma LetterQuarters()
    ensures Spells(0xaf63, 4, "af63") && Spells(0xdc4c, 4, "dc4c")
    ensures Spells(0x8601, 4, "8601") && Spells(0xec8c, 4, "ec8c")
  {
    Quarter(0xaf63, 10, 15, 6, 3, "af63");
    Quarter(0xdc4c, 13, 12, 4, 12, "dc4c");
    Quarter(0x8601, 8, 6, 0, 1, "8601");
    Quarter(0xec8c, 14, 12, 8, 12, "ec8c");
  }

  lemma LetterText()
    ensures ("af63" + "dc4c") + ("8601" + "ec8c") == "af63dc4c8601ec8c"
  {
  }

  lemma LetterXor()
    ensures Xor(0x25, 97, 8) == 0x44
  {
    assert Xor(0x2, 6, 4) == 0x4;
  }

  lemma MixedInto(h: Word, low: nat, b: Byte, x: nat)
    requires low == h % 256 && x == Xor(low, b, BYTE_BITS) && x < 256
    ensures XorByte(h, b) == h / 256 * 256 + x
  {
    LowReplaced(h, x);
  }

  lemma LetterMixed(h: Word, b: Byte, low: nat)
    requires h == OFFSET && b == 97 && low == 0x25
    ensures XorByte(h, b) == 0xcbf2_9ce4_8422_2344
  {
    LetterXor();
    MixedInto(h, low, b, 0x44);
  }

  lemma AbsorbFirst(h: Word, b: Byte)
    ensures Absorb(h, [b]) == WrappingMul(XorByte(h, b), PRIME)
  {
    AbsorbOne(h, [], b);
    assert [] + [b] == [b];
  }

  lemma LetterMultiplied(x: Word)
    requires x == 0xcbf2_9ce4_8422_2344
    ensures WrappingMul(x, PRIME) == 0xaf63_dc4c_8601_ec8c
  {
  }

  lemma LetterAbsorbed(h: Word, b: Byte, x: Word)
    requires h == OFFSET && x == XorByte(h, b) && b == 97
    ensures Absorb(h, [b]) == 0xaf63_dc4c_8601_ec8c
  {
    AbsorbFirst(h, b);
    LetterMixed(h, b, 0x25);
    LetterMultiplied(x);
  }

  /** The published digest of the letter a. */
  lemma LetterDigest()
    ensures ContentHash([97]) == "af63dc4c8601ec8c"
  {
    LetterAbsorbed(OFFSET, 97, XorByte(OFFSET, 97));
    LetterQuarters();
    DigestSpelled(0xaf63_dc4c_8601_ec8c, 0xaf63, 0xdc4c, 0x8601, 0xec8c, "af63", "dc4c", "8601", "ec8c");
    LetterText();
  }

  /** The crawler's one-call form of the hash. */
  method ComputeContentHash(bytes: Bytes) returns (s: string)
    ensures s == ContentHash(bytes)
  {
    var h := OFFSET;
    for i := 0 to |bytes|
      invariant h == Absorb(OFFSET, bytes[..i])
    {
      AbsorbOne(OFFSET, bytes[..i], bytes[i]);
      assert bytes[..i + 1] == bytes[..i] + [bytes[i]];
      h := XorByte(h, bytes[i]);
      h := WrappingMul(h, PRIME);
    }
    assert bytes[..|bytes|] == bytes;
    s := Digest(h);
  }

  /** The kept-state form: writing fields in turn hashes their concatenation. */
  class Fnv1a {
    var state: Word
    ghost var written: Bytes

    ghost predicate Valid()
      reads this
    {
      state == Absorb(OFFSET, written)
    }

    constructor ()
      ensures Valid() && written == []
    {
      state := OFFSET;
      written := [];
    }

    method Mix(b: Byte)
      requires Valid()
      modifies this
      ensures Valid() && written == old(written) + [b]
    {
      AbsorbOne(OFFSET, written, b);
      var mixed := XorByte(state, b);
      state := WrappingMul(mixed, PRIME);
      written := written + [b];
    }

    method Write(bytes: Bytes)
      requires Valid()
      modifies this
      ensures Valid() && written == old(written) + bytes
    {
      for i := 0 to |bytes|
        invariant Valid() && written == old(written) + bytes[..i]
      {
        Mix(bytes[i]);
      }
    }

    method Finish() returns (s: string)
      requires Valid()
      ensures s == ContentHash(written)
    {
      s := Digest(state);
    }
  }
}
