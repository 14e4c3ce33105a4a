/** Stripping `<private>` blocks before text is stored. Byte offsets are found in
    a lower-cased copy and used on the original, so both are modelled as the bytes
    of UTF-8 text, and a slice off a character boundary is a panic. */
module Redact {
  import opened Wrappers
  import opened Sequences
  import opened Words
  import opened Text

  const LT: Byte := 60
  const GT: Byte := 62
  const OPEN: Bytes := [LT, 112, 114, 105, 118, 97, 116, 101, GT]
  const CLOSE: Bytes := [LT, 47, 112, 114, 105, 118, 97, 116, 101, GT]
  const MARKER: Bytes := [91, 114, 101, 100, 97, 99, 116, 101, 100, 93]

  // ---- The loop ----

  /** The first occurrence at or after `from`. */
  function Find(s: Bytes, pattern: Bytes, from: nat): (at: Option<nat>)
    ensures at.Some? ==> from <= at.value && OccursAt(s, pattern, at.value)
    ensures at.Some? ==> forall i | from <= i < at.value :: !OccursAt(s, pattern, i)
    ensures at.None? ==> forall i | from <= i :: !OccursAt(s, pattern, i)
    decreases |s| - from
  {
    if from + |pattern| > |s| then None
    else if OccursAt(s, pattern, from) then Some(from)
    else Find(s, pattern, from + 1)
  }

  /** What the loop emits: a stretch of the original text, or a marker. */
  datatype Piece = Kept(from: nat, to: nat) | Marker

  predicate InRange(input: Bytes, pieces: seq<Piece>) {
    forall i | 0 <= i < |pieces| :: pieces[i].Kept? ==> pieces[i].from <= pieces[i].to <= |input|
  }

  /** The pieces emitted from a cursor on; None is a slice out of range or off a
      character boundary, which panics. */
  function StripFrom(input: Bytes, lowered: Bytes, cursor: nat): (r: Option<seq<Piece>>)
    ensures r.Some? ==> InRange(input, r.value)
    decreases |input| - cursor
  {
    if cursor >= |input| then Some([])
    else if !IsCharBoundary(lowered, cursor) || !IsCharBoundary(input, cursor) then None
    else
      match Find(lowered, OPEN, cursor)
      case None => Some([Kept(cursor, |input|)])
      case Some(at) =>
        if !IsCharBoundary(input, at) then None
        else
          match StripFrom(input, lowered, Resume(input, lowered, at))
          case None => None
          case Some(rest) => Some([Kept(cursor, at), Marker] + rest)
  }

  /** Where the cursor lands after the block that opens at `at`. */
  function Resume(input: Bytes, lowered: Bytes, at: nat): (cursor: nat)
    ensures cursor > at || cursor == |input|
  {
    match Find(lowered, CLOSE, at + |OPEN|)
    case Some(close) => close + |CLOSE|
    case None => |input|
  }

  function Render(input: Bytes, pieces: seq<Piece>): Bytes
    requires InRange(input, pieces)
  {
    if pieces == [] then []
    else
      var last := pieces[|pieces| - 1];
      Render(input, pieces[..|pieces| - 1]) + if last.Kept? then input[last.from..last.to] else MARKER
  }

  function Markers(pieces: seq<Piece>): nat {
    if pieces == [] then 0
    else Markers(pieces[..|pieces| - 1]) + if pieces[|pieces| - 1].Marker? then 1 else 0
  }

  /** The whole strip: the text and how many blocks were redacted, or a panic. */
  function Strip(input: Bytes, lowered: Bytes): Option<(Bytes, nat)> {
    match StripFrom(input, lowered, 0)
    case None => None
    case Some(pieces) => Some((Render(input, pieces), Markers(pieces)))
  }

  /** The loop: emit up to the tag, skip to the end of the block, repeat. */
  method StripPrivate(input: Bytes, lowered: Bytes) returns (result: Option<(Bytes, nat)>)
    ensures result == Strip(input, lowered)
  {
    if Find(lowered, OPEN, 0).None? {
      Untagged(input, lowered);
      return Some((input, 0));
    }
    var out, count, cursor := [], 0, 0;
    ghost var done: seq<Piece> := [];
    AfterNothing(StripFrom(input, lowered, 0));
    while cursor < |input|
      invariant Emitted(input, done, out, count)
      invariant StripFrom(input, lowered, 0) == After(done, StripFrom(input, lowered, cursor))
      decreases |input| - cursor
    {
      // A slice of either text from the cursor must start on a boundary.
      if !IsCharBoundary(lowered, cursor) || !IsCharBoundary(input, cursor) {
        return None;
      }
      var open := Find(lowered, OPEN, cursor);
      if open.None? {
        EmitTail(input, done, out, count, cursor);
        return Some((out + input[cursor..], count));
      }
      var at := open.value;
      if !IsCharBoundary(input, at) {
        return None;
      }
      EmitBlock(input, done, out, count, cursor, at);
      out := out + input[cursor..at];
      out := out + MARKER;
      count := count + 1;
      AfterStep(done, Kept(cursor, at), StripFrom(input, lowered, Resume(input, lowered, at)));
      done := done + [Kept(cursor, at), Marker];
      cursor := Resume(input, lowered, at);
    }
    assert done + [] == done;
    result := Some((out, count));
  }

  ghost predicate Emitted(input: Bytes, done: seq<Piece>, out: Bytes, count: nat) {
    InRange(input, done) && out == Render(input, done) && count == Markers(done)
  }

  function After(done: seq<Piece>, rest: Option<seq<Piece>>): Option<seq<Piece>> {
    if rest.None? then None else Some(done + rest.value)
  }

  lemma AfterNothing(rest: Option<seq<Piece>>)
    ensures After([], rest) == rest
  {
    if rest.Some? {
      assert [] + rest.value == rest.value;
    }
  }

  lemma AfterStep(done: seq<Piece>, kept: Piece, rest: Option<seq<Piece>>)
    ensures After(done, After([kept, Marker], rest)) == After(done + [kept, Marker], rest)
  {
    if rest.Some? {
      assert done + ([kept, Marker] + rest.value) == done + [kept, Marker] + rest.value;
    }
  }

  lemma EmitTail(input: Bytes, done: seq<Piece>, out: Bytes, count: nat, cursor: nat)
    requires Emitted(input, done, out, count) && cursor <= |input|
    ensures Emitted(input, done + [Kept(cursor, |input|)], out + input[cursor..], count)
  {
    RenderSnoc(input, done, Kept(cursor, |input|));
    assert input[cursor..|input|] == input[cursor..];
  }

  lemma EmitBlock(input: Bytes, done: seq<Piece>, out: Bytes, count: nat, cursor: nat, at: nat)
    requires Emitted(input, done, out, count) && cursor <= at <= |input|
    ensures Emitted(input, done + [Kept(cursor, at), Marker], out + input[cursor..at] + MARKER, count + 1)
  {
    RenderSnoc(input, done, Kept(cursor, at));
    RenderSnoc(input, done + [Kept(cursor, at)], Marker);
    assert done + [Kept(cursor, at)] + [Marker] == done + [Kept(cursor, at), Marker];
  }

  lemma RenderSnoc(input: Bytes, pieces: seq<Piece>, p: Piece)
    requires InRange(input, pieces)
    requires p.Kept? ==> p.from <= p.to <= |input|
    ensures InRange(input, pieces + [p])
    ensures Render(input, pieces + [p]) == Render(input, pieces) + if p.Kept? then input[p.from..p.to] else MARKER
    ensures Markers(pieces + [p]) == Markers(pieces) + if p.Marker? then 1 else 0
  {
    assert (pieces + [p])[..|pieces|] == pieces;
  }

  /** The short cut for text without a tag is what the loop would do. */
  lemma Untagged(input: Bytes, lowered: Bytes)
    requires Find(lowered, OPEN, 0).None?
    ensures Strip(input, lowered) == Some((input, 0))
  {
    if input == [] {
      assert Render(input, []) == input;
    } else {
      RenderSnoc(input, [], Kept(0, |input|));
      assert [] + [Kept(0, |input|)] == [Kept(0, |input|)];
      assert [] + input[0..|input|] == input;
    }
  }

  // ---- Lower-casing, scalar by scalar ----

  type Lowering = Scalar -> seq<Scalar>

  function AsciiLower(c: Scalar): Scalar
    requires c < 128
  {
    if 65 <= c <= 90 then c + 32 else c
  }

  /** True of Unicode: ASCII lower-cases within itself, and nothing else
      lower-cases to a bracket of a tag. */
  ghost predicate Sensible(lower: Lowering) {
    && (forall c: Scalar | c < 128 :: lower(c) == [AsciiLower(c)])
    && (forall c: Scalar | c >= 128 :: LT !in lower(c) && GT !in lower(c))
  }

  function LowerAll(lower: Lowering, cs: seq<Scalar>): seq<Scalar> {
    if cs == [] then [] else LowerAll(lower, cs[..|cs| - 1]) + lower(cs[|cs| - 1])
  }

  /** The lower-cased copy, as bytes. */
  function Lowered(lower: Lowering, cs: seq<Scalar>): Bytes {
    EncodeAll(LowerAll(lower, cs))
  }

  /** Where what character k lower-cases to begins in the copy. */
  function LowOffset(lower: Lowering, cs: seq<Scalar>, k: nat): nat
    requires k <= |cs|
  {
    |Lowered(lower, cs[..k])|
  }

  lemma LoweredSnoc(lower: Lowering, cs: seq<Scalar>, c: Scalar)
    ensures Lowered(lower, cs + [c]) == Lowered(lower, cs) + EncodeAll(lower(c))
  {
    assert (cs + [c])[..|cs|] == cs;
    EncodeConcat(LowerAll(lower, cs), lower(c));
  }

  lemma {:induction false} LowerConcat(lower: Lowering, a: seq<Scalar>, b: seq<Scalar>)
    ensures LowerAll(lower, a + b) == LowerAll(lower, a) + LowerAll(lower, b)
    decreases |b|
  {
    if b == [] {
      assert a + b == a;
    } else {
      assert (a + b)[..|a + b| - 1] == a + b[..|b| - 1];
      LowerConcat(lower, a, b[..|b| - 1]);
    }
  }

  lemma LoweredConcat(lower: Lowering, a: seq<Scalar>, b: seq<Scalar>)
    ensures Lowered(lower, a + b) == Lowered(lower, a) + Lowered(lower, b)
  {
    LowerConcat(lower, a, b);
    EncodeConcat(LowerAll(lower, a), LowerAll(lower, b));
  }

  /** A stretch of characters lower-cases to the stretch between their offsets. */
  lemma LowSlice(lower: Lowering, cs: seq<Scalar>, i: nat, j: nat)
    requires i <= j <= |cs|
    ensures LowOffset(lower, cs, i) <= LowOffset(lower, cs, j) <= |Lowered(lower, cs)|
    ensures Lowered(lower, cs)[LowOffset(lower, cs, i)..LowOffset(lower, cs, j)] == Lowered(lower, cs[i..j])
  {
    LoweredConcat(lower, cs[..j], cs[j..]);
    LoweredConcat(lower, cs[..i], cs[i..j]);
    assert cs[..j] + cs[j..] == cs && cs[..i] + cs[i..j] == cs[..j];
    Middle(Lowered(lower, cs), Lowered(lower, cs[..j]),
      Lowered(lower, cs[..i]), Lowered(lower, cs[i..j]), Lowered(lower, cs[j..]));
  }

  lemma Middle(all: Bytes, front: Bytes, a: Bytes, b: Bytes, c: Bytes)
    requires all == front + c && front == a + b
    ensures |a| <= |front| <= |all| && all[|a|..|front|] == b
  {
  }

  lemma OffsetSlice(cs: seq<Scalar>, i: nat, j: nat)
    requires i <= j <= |cs|
    ensures Offset(cs, i) <= Offset(cs, j) <= |EncodeAll(cs)|
    ensures EncodeAll(cs)[Offset(cs, i)..Offset(cs, j)] == EncodeAll(cs[i..j])
  {
    assert cs[..i] + cs[i..j] == cs[..j] && cs[..j] + cs[j..] == cs;
    EncodedMiddle(cs[..i], cs[i..j], cs[j..]);
  }

  lemma EncodedMiddle(a: seq<Scalar>, b: seq<Scalar>, c: seq<Scalar>)
    ensures |EncodeAll(a)| <= |EncodeAll(a + b)| <= |EncodeAll(a + b + c)|
    ensures EncodeAll(a + b + c)[|EncodeAll(a)|..|EncodeAll(a + b)|] == EncodeAll(b)
  {
    EncodeConcat(a + b, c);
    EncodeConcat(a, b);
    Middle(EncodeAll(a + b + c), EncodeAll(a + b), EncodeAll(a), EncodeAll(b), EncodeAll(c));
  }

  lemma LowBoundary(lower: Lowering, cs: seq<Scalar>, k: nat)
    requires k <= |cs|
    ensures IsCharBoundary(Lowered(lower, cs), LowOffset(lower, cs, k))
  {
    LowerConcat(lower, cs[..k], cs[k..]);
    assert cs[..k] + cs[k..] == cs;
    var all, m := LowerAll(lower, cs), |LowerAll(lower, cs[..k])|;
    assert all[..m] == LowerAll(lower, cs[..k]);
    OffsetsAreBoundaries(all, m);
  }

  // ---- Brackets stand for themselves ----

  lemma {:induction false} NoAsciiByte(cs: seq<Scalar>, b: Byte)
    requires b < 128 && b !in cs
    ensures b !in EncodeAll(cs)
    decreases |cs|
  {
    if cs != [] {
      NoAsciiByte(cs[..|cs| - 1], b);
      var c := cs[|cs| - 1];
      assert c in cs;
      assert c >= 128 ==> forall i | 0 <= i < |Encode(c)| :: Encode(c)[i] >= 128;
    }
  }

  lemma OneScalar(c: Scalar)
    ensures EncodeAll([c]) == Encode(c)
  {
    assert [c][..0] == [];
    assert EncodeAll([]) == [];
  }

  lemma LowOffsetFront(lower: Lowering, front: seq<Scalar>, c: Scalar, k: nat)
    requires k <= |front|
    ensures LowOffset(lower, front + [c], k) == LowOffset(lower, front, k)
  {
    assert (front + [c])[..k] == front[..k];
  }

  /** A bracket in the copy is a bracket of the text, and keeps one byte. */
  lemma {:induction false} BracketIndex(lower: Lowering, cs: seq<Scalar>, i: nat) returns (k: nat)
    requires Sensible(lower) && i < |Lowered(lower, cs)|
    requires Lowered(lower, cs)[i] == LT || Lowered(lower, cs)[i] == GT
    ensures k < |cs| && cs[k] == Lowered(lower, cs)[i]
    ensures LowOffset(lower, cs, k) == i && LowOffset(lower, cs, k + 1) == i + 1
    decreases |cs|
  {
    var front, c := cs[..|cs| - 1], cs[|cs| - 1];
    assert front + [c] == cs;
    LoweredSnoc(lower, front, c);
    var low, n := Lowered(lower, front), |Lowered(lower, front)|;
    if i < n {
      assert Lowered(lower, cs)[i] == low[i];
      k := BracketIndex(lower, front, i);
      LowOffsetFront(lower, front, c, k);
      LowOffsetFront(lower, front, c, k + 1);
    } else {
      k := |cs| - 1;
      assert Lowered(lower, cs)[i] == EncodeAll(lower(c))[i - n];
      BracketOnly(lower, c, i - n);
      assert cs[..k] == front && cs[..k + 1] == cs;
    }
  }

  lemma BracketOnly(lower: Lowering, c: Scalar, j: nat)
    requires Sensible(lower) && j < |EncodeAll(lower(c))|
    requires EncodeAll(lower(c))[j] == LT || EncodeAll(lower(c))[j] == GT
    ensures j == 0 && |EncodeAll(lower(c))| == 1 && c == EncodeAll(lower(c))[0]
  {
    assert EncodeAll(lower(c))[j] in EncodeAll(lower(c));
    if c >= 128 {
      NoAsciiByte(lower(c), LT);
      NoAsciiByte(lower(c), GT);
    } else {
      OneScalar(AsciiLower(c));
    }
  }

  // ---- Blocks, in characters of the text ----

  /** A private block: the characters from its opening tag to past its closing one,
      or to the end when none follows. */
  datatype Block = Block(start: nat, end: nat, closed: bool)

  /** `blocks` are the private blocks from character `from` on: each opens at the
      first opening tag left in any case, runs past the first closing tag after it
      or to the end, and nothing after the last one opens. */
  ghost predicate AreBlocks(lower: Lowering, cs: seq<Scalar>, from: nat, blocks: seq<Block>)
    requires from <= |cs|
    decreases |blocks|
  {
    if blocks == [] then Find(Lowered(lower, cs), OPEN, LowOffset(lower, cs, from)).None?
    else IsBlock(lower, cs, from, blocks[0]) && AreBlocks(lower, cs, blocks[0].end, blocks[1..])
  }

  ghost predicate IsBlock(lower: Lowering, cs: seq<Scalar>, from: nat, b: Block)
    requires from <= |cs|
  {
    && from <= b.start < b.end <= |cs|
    && Find(Lowered(lower, cs), OPEN, LowOffset(lower, cs, from)) == Some(LowOffset(lower, cs, b.start))
    && Ends(lower, cs, LowOffset(lower, cs, b.start) + |OPEN|, b)
  }

  /** The block ends past the first closing tag of the copy from `inside` on. */
  predicate Ends(lower: Lowering, cs: seq<Scalar>, inside: nat, b: Block)
    requires b.end <= |cs|
  {
    match Find(Lowered(lower, cs), CLOSE, inside)
    case Some(at) => b.closed && LowOffset(lower, cs, b.end) == at + |CLOSE|
    case None => !b.closed && b.end == |cs|
  }

  lemma LowMonotone(lower: Lowering, cs: seq<Scalar>, i: nat, j: nat)
    requires i <= |cs| && j <= |cs| && LowOffset(lower, cs, i) < LowOffset(lower, cs, j)
    ensures i < j
  {
    if j <= i {
      LowSlice(lower, cs, j, i);
    }
  }

  lemma OccurrenceEnds(s: Bytes, pattern: Bytes, at: nat)
    requires OccursAt(s, pattern, at) && pattern != []
    ensures at + |pattern| <= |s| && s[at] == pattern[0] && s[at + |pattern| - 1] == pattern[|pattern| - 1]
  {
    assert s[at..at + |pattern|][0] == s[at];
    assert s[at..at + |pattern|][|pattern| - 1] == s[at + |pattern| - 1];
  }

  /** The block that opens first from character `from` on. */
  lemma FirstBlock(lower: Lowering, cs: seq<Scalar>, from: nat) returns (b: Block)
    requires Sensible(lower) && from <= |cs|
    requires Find(Lowered(lower, cs), OPEN, LowOffset(lower, cs, from)).Some?
    ensures IsBlock(lower, cs, from, b)
  {
    var low := Lowered(lower, cs);
    var at := Find(low, OPEN, LowOffset(lower, cs, from)).value;
    OccurrenceEnds(low, OPEN, at);
    var start := BracketIndex(lower, cs, at);
    LowMonotone(lower, cs, from, start + 1);
    var end, closed := BlockEnd(lower, cs, start, at + |OPEN|);
    b := Block(start, end, closed);
  }

  lemma BlockEnd(lower: Lowering, cs: seq<Scalar>, start: nat, inside: nat) returns (end: nat, closed: bool)
    requires Sensible(lower) && start < |cs| && LowOffset(lower, cs, start) < inside
    ensures start < end <= |cs| && Ends(lower, cs, inside, Block(start, end, closed))
  {
    match Find(Lowered(lower, cs), CLOSE, inside)
    case None =>
      end, closed := |cs|, false;
    case Some(at) =>
      var last := CloseIndex(lower, cs, at);
      end, closed := last + 1, true;
      LowMonotone(lower, cs, start, end);
  }

  lemma CloseIndex(lower: Lowering, cs: seq<Scalar>, at: nat) returns (last: nat)
    requires Sensible(lower) && OccursAt(Lowered(lower, cs), CLOSE, at)
    ensures last < |cs| && LowOffset(lower, cs, last + 1) == at + |CLOSE|
  {
    OccurrenceEnds(Lowered(lower, cs), CLOSE, at);
    last := BracketIndex(lower, cs, at + |CLOSE| - 1);
  }

  /** Every text has its blocks. */
  lemma {:induction false} BlocksExist(lower: Lowering, cs: seq<Scalar>, from: nat) returns (blocks: seq<Block>)
    requires Sensible(lower) && from <= |cs|
    ensures AreBlocks(lower, cs, from, blocks)
    decreases |cs| - from
  {
    if Find(Lowered(lower, cs), OPEN, LowOffset(lower, cs, from)).None? {
      blocks := [];
    } else {
      var b := FirstBlock(lower, cs, from);
      var rest := BlocksExist(lower, cs, b.end);
      blocks := [b] + rest;
      assert blocks[1..] == rest;
    }
  }

  /** The characters outside the blocks, with one marker in place of each. */
  function Outside(cs: seq<Scalar>, from: nat, blocks: seq<Block>): seq<Scalar>
    requires InOrder(cs, from, blocks)
    decreases |blocks|
  {
    if blocks == [] then cs[from..]
    else cs[from..blocks[0].start] + MARKER + Outside(cs, blocks[0].end, blocks[1..])
  }

  predicate InOrder(cs: seq<Scalar>, from: nat, blocks: seq<Block>)
    decreases |blocks|
  {
    if blocks == [] then from <= |cs|
    else from <= blocks[0].start < blocks[0].end <= |cs| && InOrder(cs, blocks[0].end, blocks[1..])
  }

  lemma {:induction false} BlocksInOrder(lower: Lowering, cs: seq<Scalar>, from: nat, blocks: seq<Block>)
    requires from <= |cs| && AreBlocks(lower, cs, from, blocks)
    ensures InOrder(cs, from, blocks)
    decreases |blocks|
  {
    if blocks != [] {
      BlocksInOrder(lower, cs, blocks[0].end, blocks[1..]);
    }
  }

  /** What the loop should emit: exactly the bytes outside the blocks, and a marker
      for each. */
  function Intended(cs: seq<Scalar>, from: nat, blocks: seq<Block>): seq<Piece>
    requires InOrder(cs, from, blocks)
    decreases |blocks|
  {
    if blocks == [] then (if from == |cs| then [] else [Kept(Offset(cs, from), |EncodeAll(cs)|)])
    else [Kept(Offset(cs, from), Offset(cs, blocks[0].start)), Marker] + Intended(cs, blocks[0].end, blocks[1..])
  }

  // ---- Exactly when it does ----

  /** The text up to character k lower-cases to as many bytes as it has. */
  predicate Level(lower: Lowering, cs: seq<Scalar>, k: nat)
    requires k <= |cs|
  {
    LowOffset(lower, cs, k) == Offset(cs, k)
  }

  /** A block whose offsets in the copy can be used on the text: level at both its
      edges; at the end of the text it is enough that the copy is no shorter. */
  predicate Aligned(lower: Lowering, cs: seq<Scalar>, b: Block)
    requires b.start <= b.end <= |cs|
  {
    && Level(lower, cs, b.start)
    && (b.end < |cs| ==> Level(lower, cs, b.end))
    && (b.end == |cs| && b.closed ==> |Lowered(lower, cs)| >= |EncodeAll(cs)|)
  }

  predicate AllAligned(lower: Lowering, cs: seq<Scalar>, from: nat, blocks: seq<Block>)
    requires InOrder(cs, from, blocks)
    decreases |blocks|
  {
    blocks == [] || (Aligned(lower, cs, blocks[0]) && AllAligned(lower, cs, blocks[0].end, blocks[1..]))
  }

  lemma OffsetsInRange(cs: seq<Scalar>, k: nat)
    requires k <= |cs|
    ensures Offset(cs, k) <= |EncodeAll(cs)| && IsCharBoundary(EncodeAll(cs), Offset(cs, k))
    ensures Offset(cs, k) == |EncodeAll(cs)| <==> k == |cs|
  {
    OffsetsAreBoundaries(cs, k);
    assert cs[..|cs|] == cs;
    if k < |cs| {
      OffsetMonotone(cs, k, |cs|);
    }
  }

  /** What is emitted first says where the cursor stood. */
  lemma FirstFrom(input: Bytes, lowered: Bytes, cursor: nat, pieces: seq<Piece>)
    requires StripFrom(input, lowered, cursor) == Some(pieces)
    ensures pieces == [] <==> cursor >= |input|
    ensures pieces != [] ==> pieces[0].Kept? && pieces[0].from == cursor
  {
  }

  lemma IntendedFrom(cs: seq<Scalar>, from: nat, blocks: seq<Block>)
    requires InOrder(cs, from, blocks)
    ensures Intended(cs, from, blocks) == [] <==> from == |cs|
    ensures from < |cs| ==>
      var first := Intended(cs, from, blocks)[0]; first.Kept? && first.from == Offset(cs, from)
  {
  }

  /** After a block: the rest comes out as intended exactly when the block's end is
      aligned and the rest would. */
  lemma RestExactly(lower: Lowering, cs: seq<Scalar>, b: Block, rest: seq<Block>, cursor: nat)
    requires b.start < b.end <= |cs| && InOrder(cs, b.end, rest)
    requires cursor == if b.closed then LowOffset(lower, cs, b.end) else |EncodeAll(cs)|
    requires !b.closed ==> b.end == |cs|
    requires b.end < |cs| && Level(lower, cs, b.end) ==>
      (StripFrom(EncodeAll(cs), Lowered(lower, cs), Offset(cs, b.end)) == Some(Intended(cs, b.end, rest)) <==>
       AllAligned(lower, cs, b.end, rest))
    ensures StripFrom(EncodeAll(cs), Lowered(lower, cs), cursor) == Some(Intended(cs, b.end, rest)) <==>
      && (b.end < |cs| ==> Level(lower, cs, b.end))
      && (b.end == |cs| && b.closed ==> |Lowered(lower, cs)| >= |EncodeAll(cs)|)
      && AllAligned(lower, cs, b.end, rest)
  {
    IntendedFrom(cs, b.end, rest);
    OffsetsInRange(cs, b.end);
    if b.end == |cs| {
      assert rest == [];
      assert cs[..|cs|] == cs;
    }
    var r := StripFrom(EncodeAll(cs), Lowered(lower, cs), cursor);
    if r.Some? {
      FirstFrom(EncodeAll(cs), Lowered(lower, cs), cursor, r.value);
    }
  }

  /** What the loop emits of a block, at the offsets it found in the copy. */
  function Head(lower: Lowering, cs: seq<Scalar>, from: nat, b: Block): seq<Piece>
    requires from <= |cs| && b.start <= |cs|
  {
    [Kept(Offset(cs, from), LowOffset(lower, cs, b.start)), Marker]
  }

  /** One turn of the loop; off a boundary there is no next one. */
  lemma HeadExactly(lower: Lowering, cs: seq<Scalar>, from: nat, b: Block, cursor: nat)
    returns (rest: Option<seq<Piece>>)
    requires from < |cs| && IsBlock(lower, cs, from, b) && Level(lower, cs, from)
    requires cursor == if b.closed then LowOffset(lower, cs, b.end) else |EncodeAll(cs)|
    ensures StripFrom(EncodeAll(cs), Lowered(lower, cs), Offset(cs, from)) == After(Head(lower, cs, from, b), rest)
    ensures rest == if IsCharBoundary(EncodeAll(cs), LowOffset(lower, cs, b.start))
                    then StripFrom(EncodeAll(cs), Lowered(lower, cs), cursor) else None
  {
    OffsetsInRange(cs, from);
    LowBoundary(lower, cs, from);
    var input, lowered, at := EncodeAll(cs), Lowered(lower, cs), LowOffset(lower, cs, b.start);
    assert cursor == Resume(input, lowered, at);
    rest := if IsCharBoundary(input, at) then StripFrom(input, lowered, cursor) else None;
  }

  /** From a level character on, the loop emits exactly the bytes outside the blocks
      if and only if every block is aligned; otherwise it panics, loses text, or
      lets bytes of a block out. */
  lemma {:induction false} EmitsExactly(lower: Lowering, cs: seq<Scalar>, from: nat, blocks: seq<Block>)
    requires from <= |cs| && AreBlocks(lower, cs, from, blocks) && InOrder(cs, from, blocks)
    requires Level(lower, cs, from)
    ensures StripFrom(EncodeAll(cs), Lowered(lower, cs), Offset(cs, from)) == Some(Intended(cs, from, blocks)) <==>
            AllAligned(lower, cs, from, blocks)
    decreases |blocks|
  {
    OffsetsInRange(cs, from);
    if blocks == [] {
      LowBoundary(lower, cs, from);
    } else {
      var b, rest := blocks[0], blocks[1..];
      if b.end < |cs| && Level(lower, cs, b.end) {
        EmitsExactly(lower, cs, b.end, rest);
      }
      var cursor := if b.closed then LowOffset(lower, cs, b.end) else |EncodeAll(cs)|;
      OffsetsInRange(cs, b.start);
      var r := HeadExactly(lower, cs, from, b, cursor);
      RestExactly(lower, cs, b, rest, cursor);
      HeadMatches(lower, cs, from, blocks, r);
    }
  }

  lemma HeadMatches(lower: Lowering, cs: seq<Scalar>, from: nat, blocks: seq<Block>, rest: Option<seq<Piece>>)
    requires blocks != [] && InOrder(cs, from, blocks)
    ensures After(Head(lower, cs, from, blocks[0]), rest) == Some(Intended(cs, from, blocks)) <==>
            Level(lower, cs, blocks[0].start) && rest == Some(Intended(cs, blocks[0].end, blocks[1..]))
  {
    var b, head := Intended(cs, from, blocks), Head(lower, cs, from, blocks[0]);
    assert b[2..] == Intended(cs, blocks[0].end, blocks[1..]);
    assert b[0] == Kept(Offset(cs, from), Offset(cs, blocks[0].start));
    if rest.Some? {
      var a := head + rest.value;
      assert a[2..] == rest.value && a[0] == head[0] && a[1] == Marker;
      assert b == [b[0], Marker] + b[2..];
    }
  }

  // ---- What an aligned text comes out as ----

  lemma {:induction false} RenderConcat(input: Bytes, a: seq<Piece>, b: seq<Piece>)
    requires InRange(input, a) && InRange(input, b)
    ensures InRange(input, a + b)
    ensures Render(input, a + b) == Render(input, a) + Render(input, b)
    ensures Markers(a + b) == Markers(a) + Markers(b)
    decreases |b|
  {
    if b == [] {
      assert a + b == a;
    } else {
      var front, last := b[..|b| - 1], b[|b| - 1];
      RenderConcat(input, a, front);
      assert (a + b)[..|a + b| - 1] == a + front && a + b == a + front + [last];
      RenderSnoc(input, a + front, last);
      Assoc(Render(input, a), Render(input, front), if last.Kept? then input[last.from..last.to] else MARKER);
    }
  }

  lemma RenderOne(input: Bytes, p: Piece)
    requires p.Kept? ==> p.from <= p.to <= |input|
    ensures InRange(input, [p])
    ensures Render(input, [p]) == if p.Kept? then input[p.from..p.to] else MARKER
    ensures Markers([p]) == if p.Marker? then 1 else 0
  {
    var none: seq<Piece> := [];
    assert Render(input, none) == [] && Markers(none) == 0;
    RenderSnoc(input, none, p);
    assert none + [p] == [p];
  }

  lemma {:induction false} AsciiEncodes(cs: seq<Byte>)
    requires forall i | 0 <= i < |cs| :: cs[i] < 128
    ensures EncodeAll(cs) == cs
  {
    if cs != [] {
      var front, last := cs[..|cs| - 1], cs[|cs| - 1];
      AsciiEncodes(front);
      assert EncodeAll(cs) == EncodeAll(front) + [last];
      assert front + [last] == cs;
    }
  }

  /** The pieces kept and the markers between them are the characters outside the
      blocks, encoded. */
  lemma {:induction false} IntendedRenders(cs: seq<Scalar>, from: nat, blocks: seq<Block>)
    requires InOrder(cs, from, blocks)
    ensures InRange(EncodeAll(cs), Intended(cs, from, blocks))
    ensures Render(EncodeAll(cs), Intended(cs, from, blocks)) == EncodeAll(Outside(cs, from, blocks))
    ensures Markers(Intended(cs, from, blocks)) == |blocks|
    decreases |blocks|
  {
    if blocks == [] {
      TailRenders(cs, from);
    } else {
      IntendedRenders(cs, blocks[0].end, blocks[1..]);
      HeadRenders(cs, from, blocks[0].start);
      var head := [Kept(Offset(cs, from), Offset(cs, blocks[0].start)), Marker];
      RenderConcat(EncodeAll(cs), head, Intended(cs, blocks[0].end, blocks[1..]));
      EncodeConcat(cs[from..blocks[0].start] + MARKER, Outside(cs, blocks[0].end, blocks[1..]));
    }
  }

  lemma TailRenders(cs: seq<Scalar>, from: nat)
    requires from <= |cs|
    ensures InRange(EncodeAll(cs), Intended(cs, from, []))
    ensures Render(EncodeAll(cs), Intended(cs, from, [])) == EncodeAll(cs[from..])
    ensures Markers(Intended(cs, from, [])) == 0
  {
    OffsetSlice(cs, from, |cs|);
    assert cs[..|cs|] == cs && cs[from..|cs|] == cs[from..];
    if from < |cs| {
      RenderOne(EncodeAll(cs), Kept(Offset(cs, from), |EncodeAll(cs)|));
    } else {
      assert cs[from..] == [] && EncodeAll([]) == [];
    }
  }

  lemma HeadRenders(cs: seq<Scalar>, from: nat, start: nat)
    requires from <= start <= |cs|
    ensures var head := [Kept(Offset(cs, from), Offset(cs, start)), Marker];
      && InRange(EncodeAll(cs), head) && Markers(head) == 1
      && Render(EncodeAll(cs), head) == EncodeAll(cs[from..start] + MARKER)
  {
    OffsetSlice(cs, from, start);
    BlockRenders(EncodeAll(cs), Offset(cs, from), Offset(cs, start));
    MarkerEncodes(cs[from..start]);
  }

  lemma BlockRenders(input: Bytes, from: nat, to: nat)
    requires from <= to <= |input|
    ensures var head := [Kept(from, to), Marker];
      InRange(input, head) && Markers(head) == 1 && Render(input, head) == input[from..to] + MARKER
  {
    RenderOne(input, Kept(from, to));
    RenderSnoc(input, [Kept(from, to)], Marker);
    assert [Kept(from, to)] + [Marker] == [Kept(from, to), Marker];
  }

  lemma MarkerEncodes(cs: seq<Scalar>)
    ensures EncodeAll(cs + MARKER) == EncodeAll(cs) + MARKER
  {
    AsciiEncodes(MARKER);
    EncodeConcat(cs, MARKER);
  }

  /** For every text whose blocks are aligned: no panic, and out comes the text
      outside the blocks with one marker for each, and their number. */
  lemma AlignedStrip(lower: Lowering, cs: seq<Scalar>, blocks: seq<Block>)
    requires AreBlocks(lower, cs, 0, blocks) && InOrder(cs, 0, blocks) && AllAligned(lower, cs, 0, blocks)
    ensures Strip(EncodeAll(cs), Lowered(lower, cs)) == Some((EncodeAll(Outside(cs, 0, blocks)), |blocks|))
  {
    StartLevel(lower, cs);
    EmitsExactly(lower, cs, 0, blocks);
    IntendedRenders(cs, 0, blocks);
  }

  /** For every text, the pieces emitted are exactly the bytes outside its private
      blocks with a marker for each, if and only if every block is aligned: what a
      caller can see beforehand by lower-casing the text up to each tag. */
  lemma StripExactly(lower: Lowering, cs: seq<Scalar>) returns (blocks: seq<Block>)
    requires Sensible(lower)
    ensures AreBlocks(lower, cs, 0, blocks) && InOrder(cs, 0, blocks)
    ensures StripFrom(EncodeAll(cs), Lowered(lower, cs), 0) == Some(Intended(cs, 0, blocks)) <==>
            AllAligned(lower, cs, 0, blocks)
    ensures AllAligned(lower, cs, 0, blocks) ==>
      Strip(EncodeAll(cs), Lowered(lower, cs)) == Some((EncodeAll(Outside(cs, 0, blocks)), |blocks|))
  {
    blocks := BlocksExist(lower, cs, 0);
    BlocksInOrder(lower, cs, 0, blocks);
    StartLevel(lower, cs);
    EmitsExactly(lower, cs, 0, blocks);
    if AllAligned(lower, cs, 0, blocks) {
      AlignedStrip(lower, cs, blocks);
    }
  }

  lemma StartLevel(lower: Lowering, cs: seq<Scalar>)
    ensures Level(lower, cs, 0) && Offset(cs, 0) == 0
  {
    assert cs[..0] == [];
    assert LowerAll(lower, []) == [] && EncodeAll([]) == [];
  }

  // ---- Texts whose every character keeps its encoded length ----

  ghost predicate KeepsLengths(lower: Lowering, cs: seq<Scalar>) {
    forall c | c in cs :: |EncodeAll(lower(c))| == |Encode(c)|
  }

  lemma {:induction false} LevelThroughout(lower: Lowering, cs: seq<Scalar>, k: nat)
    requires KeepsLengths(lower, cs) && k <= |cs|
    ensures Level(lower, cs, k)
  {
    if k == 0 {
      StartLevel(lower, cs);
    } else {
      LevelThroughout(lower, cs, k - 1);
      assert cs[..k - 1] + [cs[k - 1]] == cs[..k] && cs[..k][..k - 1] == cs[..k - 1];
      LoweredSnoc(lower, cs[..k - 1], cs[k - 1]);
      assert cs[k - 1] in cs;
    }
  }

  lemma {:induction false} AlignedThroughout(lower: Lowering, cs: seq<Scalar>, from: nat, blocks: seq<Block>)
    requires KeepsLengths(lower, cs) && InOrder(cs, from, blocks)
    ensures AllAligned(lower, cs, from, blocks)
    decreases |blocks|
  {
    if blocks != [] {
      LevelThroughout(lower, cs, blocks[0].start);
      LevelThroughout(lower, cs, blocks[0].end);
      LevelThroughout(lower, cs, |cs|);
      assert cs[..|cs|] == cs;
      AlignedThroughout(lower, cs, blocks[0].end, blocks[1..]);
    }
  }

  predicate HasTag(lower: Lowering, cs: seq<Scalar>) {
    Find(Lowered(lower, cs), OPEN, 0).Some?
  }

  /** A pattern avoiding the ends of a short enough middle cannot straddle it. */
  lemma NoStraddle(a: Bytes, m: Bytes, b: Bytes, pattern: Bytes, i: nat) returns (inA: bool, k: nat)
    requires 2 <= |m| <= |pattern| + 1 && m[0] !in pattern && m[|m| - 1] !in pattern
    requires OccursAt(a + m + b, pattern, i)
    ensures OccursAt(if inA then a else b, pattern, k)
  {
    var s := a + m + b;
    inA, k := i + |pattern| <= |a|, i;
    if inA {
      assert a[i..i + |pattern|] == s[i..i + |pattern|];
    } else if i >= |a| + |m| {
      k := i - |a| - |m|;
      assert b[k..k + |pattern|] == s[i..i + |pattern|];
    } else {
      var end := if i <= |a| then |a| else |a| + |m| - 1;
      ByteOf(s, pattern, i, end - i);
    }
  }

  lemma ByteOf(s: Bytes, pattern: Bytes, i: nat, j: nat)
    requires OccursAt(s, pattern, i) && j < |pattern|
    ensures s[i + j] == pattern[j]
  {
    assert s[i..i + |pattern|][j] == pattern[j];
  }

  lemma AsciiStays(lower: Lowering, c: Scalar)
    requires Sensible(lower) && (c < 65 || 91 <= c < 128)
    ensures lower(c) == [c]
  {
  }

  lemma {:induction false} SmallStays(lower: Lowering, cs: seq<Scalar>, n: nat)
    requires Sensible(lower) && n <= |cs| && forall i | 0 <= i < |cs| :: cs[i] < 65 || 91 <= cs[i] < 128
    ensures LowerAll(lower, cs[..n]) == cs[..n]
  {
    if n > 0 {
      SmallStays(lower, cs, n - 1);
      AsciiStays(lower, cs[n - 1]);
      assert cs[..n][..n - 1] == cs[..n - 1];
      assert cs[..n - 1] + [cs[n - 1]] == cs[..n];
    }
  }

  lemma AllSmallStay(lower: Lowering, cs: seq<Scalar>)
    requires Sensible(lower) && forall i | 0 <= i < |cs| :: cs[i] < 65 || 91 <= cs[i] < 128
    ensures LowerAll(lower, cs) == cs
  {
    SmallStays(lower, cs, |cs|);
    assert cs[..|cs|] == cs;
  }

  lemma MarkerStays(lower: Lowering)
    requires Sensible(lower)
    ensures Lowered(lower, MARKER) == MARKER
  {
    AllSmallStay(lower, MARKER);
    AsciiEncodes(MARKER);
  }

  /** No tag can straddle a marker. */
  lemma NoTagAcrossMarker(lower: Lowering, a: seq<Scalar>, b: seq<Scalar>)
    requires Sensible(lower) && !HasTag(lower, a) && !HasTag(lower, b)
    ensures !HasTag(lower, a + MARKER + b)
  {
    MarkerStays(lower);
    LoweredConcat(lower, a + MARKER, b);
    LoweredConcat(lower, a, MARKER);
    NoneAcross(Lowered(lower, a), Lowered(lower, b));
  }

  lemma NoneAcross(a: Bytes, b: Bytes)
    requires Find(a, OPEN, 0).None? && Find(b, OPEN, 0).None?
    ensures Find(a + MARKER + b, OPEN, 0).None?
  {
    var at := Find(a + MARKER + b, OPEN, 0);
    if at.Some? {
      var inA, k := NoStraddle(a, MARKER, b, OPEN, at.value);
    }
  }

  lemma OccursInside(s: Bytes, from: nat, to: nat, pattern: Bytes, i: nat)
    requires from <= to <= |s| && OccursAt(s[from..to], pattern, i)
    ensures OccursAt(s, pattern, from + i) && from + i + |pattern| <= to
  {
    var t, found := s[from..to], s[from..to][i..i + |pattern|];
    assert |t| == to - from && |found| == |pattern|;
    assert forall j | 0 <= j < |pattern| :: found[j] == t[i + j] == s[from + i + j];
    assert found == s[from + i..from + i + |pattern|];
  }

  /** No tag in a stretch in which none of the copy's tags lies. */
  lemma PieceHasNoTag(lower: Lowering, cs: seq<Scalar>, from: nat, to: nat)
    requires from <= to <= |cs|
    requires forall i | LowOffset(lower, cs, from) <= i && i + |OPEN| <= LowOffset(lower, cs, to) ::
      !OccursAt(Lowered(lower, cs), OPEN, i)
    ensures !HasTag(lower, cs[from..to])
  {
    LowSlice(lower, cs, from, to);
    var at := Find(Lowered(lower, cs[from..to]), OPEN, 0);
    if at.Some? {
      OccursInside(Lowered(lower, cs), LowOffset(lower, cs, from), LowOffset(lower, cs, to), OPEN, at.value);
    }
  }

  lemma {:induction false} OutsideHasNoTag(lower: Lowering, cs: seq<Scalar>, from: nat, blocks: seq<Block>)
    requires Sensible(lower) && from <= |cs|
    requires AreBlocks(lower, cs, from, blocks) && InOrder(cs, from, blocks)
    ensures !HasTag(lower, Outside(cs, from, blocks))
    decreases |blocks|
  {
    if blocks == [] {
      PieceHasNoTag(lower, cs, from, |cs|);
      assert cs[from..|cs|] == cs[from..];
    } else {
      PieceHasNoTag(lower, cs, from, blocks[0].start);
      OutsideHasNoTag(lower, cs, blocks[0].end, blocks[1..]);
      NoTagAcrossMarker(lower, cs[from..blocks[0].start], Outside(cs, blocks[0].end, blocks[1..]));
    }
  }

  /** For every text each of whose characters lower-cases to as many bytes as it
      has: no panic, out comes the text outside the private blocks with one marker
      for each, no opening tag in any case is left in it, and stripping it again
      changes nothing and counts nothing. */
  lemma StripExact(lower: Lowering, cs: seq<Scalar>) returns (blocks: seq<Block>, out: seq<Scalar>)
    requires Sensible(lower) && KeepsLengths(lower, cs)
    ensures AreBlocks(lower, cs, 0, blocks) && InOrder(cs, 0, blocks) && out == Outside(cs, 0, blocks)
    ensures Strip(EncodeAll(cs), Lowered(lower, cs)) == Some((EncodeAll(out), |blocks|))
    ensures !HasTag(lower, out)
    ensures Strip(EncodeAll(out), Lowered(lower, out)) == Some((EncodeAll(out), 0))
  {
    blocks := StripExactly(lower, cs);
    out := Outside(cs, 0, blocks);
    AlignedThroughout(lower, cs, 0, blocks);
    OutsideHasNoTag(lower, cs, 0, blocks);
    Untagged(EncodeAll(out), Lowered(lower, out));
  }

  // ---- The first tag, when the text before it changes length ----

  /** `before` holds no tag, `tag` is an opening tag in some case. */
  ghost predicate FirstTagAt(lower: Lowering, before: seq<Scalar>, tag: seq<Scalar>) {
    !HasTag(lower, before) && Lowered(lower, tag) == OPEN
  }

  lemma OccursBefore(s: Bytes, to: nat, pattern: Bytes, i: nat)
    requires to <= |s| && OccursAt(s, pattern, i) && i + |pattern| <= to
    ensures OccursAt(s[..to], pattern, i)
  {
    assert s[..to][i..i + |pattern|] == s[i..i + |pattern|];
  }

  lemma InsideTag(s: Bytes, at: nat, i: nat)
    requires OccursAt(s, OPEN, at) && at < i < at + |OPEN|
    ensures s[i] != LT
  {
    ByteOf(s, OPEN, at, i - at);
  }

  lemma TagFound(low: Bytes, rest: Bytes)
    requires Find(low, OPEN, 0).None?
    ensures Find(low + OPEN + rest, OPEN, 0) == Some(|low|)
  {
    var s := low + OPEN + rest;
    assert s[|low|..|low| + |OPEN|] == OPEN;
    assert OccursAt(s, OPEN, |low|) && s[..|low|] == low && s[|low|] == LT;
    var at := Find(s, OPEN, 0).value;
    if at < |low| {
      if at + |OPEN| <= |low| {
        OccursBefore(s, |low|, OPEN, at);
      } else {
        InsideTag(s, at, |low|);
      }
    }
  }

  /** The loop cuts the text where the copy has its first tag: if that is no
      character boundary of the text it panics; if it goes through, the first piece
      kept ends there. */
  lemma FirstCut(lower: Lowering, before: seq<Scalar>, tag: seq<Scalar>, rest: seq<Scalar>)
    requires FirstTagAt(lower, before, tag)
    ensures var input, lowered := EncodeAll(before + tag + rest), Lowered(lower, before + tag + rest);
      var at := |Lowered(lower, before)|;
      && Find(lowered, OPEN, 0) == Some(at)
      && StripFrom(input, lowered, 0) ==
           if !IsCharBoundary(input, at) then None
           else After([Kept(0, at), Marker], StripFrom(input, lowered, Resume(input, lowered, at)))
  {
    var cs := before + tag + rest;
    LoweredConcat(lower, before + tag, rest);
    LoweredConcat(lower, before, tag);
    TagFound(Lowered(lower, before), Lowered(lower, rest));
    EncodeConcat(before + tag, rest);
    EncodeConcat(before, tag);
    TagNotEmpty(lower, tag);
  }

  lemma TagNotEmpty(lower: Lowering, tag: seq<Scalar>)
    requires Lowered(lower, tag) == OPEN
    ensures EncodeAll(tag) != []
  {
    assert LowerAll(lower, []) == [] && EncodeAll([]) == [];
  }

  /** A text whose first private block is never closed: it panics exactly when the
      place of the tag in the copy is no character boundary of the text; otherwise
      everything up to that place gets out. So it is exact if and only if the text
      before the tag lower-cases to as many bytes as it has; when it lower-cases to
      more and there is no panic, bytes of the tag, and then of the secret, get out. */
  lemma UnclosedExactly(lower: Lowering, before: seq<Scalar>, tag: seq<Scalar>, secret: seq<Scalar>)
    returns (leaked: Bytes)
    requires FirstTagAt(lower, before, tag)
    requires Find(Lowered(lower, before + tag + secret), CLOSE, |Lowered(lower, before)| + |OPEN|).None?
    ensures var input, at, length := EncodeAll(before + tag + secret), |Lowered(lower, before)|, |EncodeAll(before)|;
      var r := Strip(input, Lowered(lower, before + tag + secret));
      && (r == if IsCharBoundary(input, at) then Some((input[..at] + MARKER, 1)) else None)
      && (r == Some((EncodeAll(before) + MARKER, 1)) <==> at == length)
      && (r.Some? && at > length ==>
            && |leaked| == at - length && leaked <= EncodeAll(tag + secret)
            && r.value.0 == EncodeAll(before) + leaked + MARKER)
  {
    var cs := before + tag + secret;
    var input, at := EncodeAll(cs), |Lowered(lower, before)|;
    FirstCut(lower, before, tag, secret);
    assert before + (tag + secret) == cs;
    EncodeConcat(before, tag + secret);
    CutUnclosed(input, Lowered(lower, cs), at);
    BeforeIsBoundary(before, tag + secret);
    leaked := SplitAt(EncodeAll(before), EncodeAll(tag + secret), input, at);
  }

  lemma CutUnclosed(input: Bytes, lowered: Bytes, at: nat)
    requires Find(lowered, CLOSE, at + |OPEN|).None?
    requires StripFrom(input, lowered, 0) ==
      if !IsCharBoundary(input, at) then None
      else After([Kept(0, at), Marker], StripFrom(input, lowered, Resume(input, lowered, at)))
    ensures Strip(input, lowered) == if IsCharBoundary(input, at) then Some((input[..at] + MARKER, 1)) else None
  {
    if IsCharBoundary(input, at) {
      assert StripFrom(input, lowered, |input|) == Some([]);
      assert [Kept(0, at), Marker] + [] == [Kept(0, at), Marker];
      assert Render(input, []) == [] && Markers([]) == 0 && InRange(input, []);
      EmitBlock(input, [], [], 0, 0, at);
      assert [] + [Kept(0, at), Marker] == [Kept(0, at), Marker] && [] + input[0..at] == input[..at];
    }
  }

  lemma BeforeIsBoundary(before: seq<Scalar>, after: seq<Scalar>)
    ensures IsCharBoundary(EncodeAll(before + after), |EncodeAll(before)|)
  {
    assert (before + after)[..|before|] == before;
    OffsetsAreBoundaries(before + after, |before|);
  }

  lemma SplitAt(a: Bytes, b: Bytes, s: Bytes, at: nat) returns (more: Bytes)
    requires s == a + b
    ensures at <= |s| ==> (s[..at] + MARKER == a + MARKER <==> at == |a|)
    ensures |a| <= at <= |s| ==> |more| == at - |a| && more <= b && s[..at] == a + more
  {
    more := [];
    if |a| <= at <= |s| {
      more := b[..at - |a|];
      assert s[..at] == a + more;
    }
    if at <= |s| {
      assert |s[..at] + MARKER| == at + |MARKER|;
      assert at == |a| ==> s[..at] == a;
    }
  }

  // ---- Two characters that change length ----

  const KELVIN: Scalar := 0x212A  // three bytes; lower-cases to an ASCII k
  const STROKE: Scalar := 0x23A   // two bytes; lower-cases to U+2C65, three bytes

  lemma KelvinBytes()
    ensures Encode(KELVIN) == [0xE2, 0x84, 0xAA] && EncodeAll([KELVIN]) == [0xE2, 0x84, 0xAA]
  {
    OneScalar(KELVIN);
  }

  lemma StrokeBytes()
    ensures EncodeAll([STROKE]) == [0xC8, 0xBA] && |EncodeAll([0x2C65])| == 3
  {
    OneScalar(STROKE);
    OneScalar(0x2C65);
  }

  lemma LowerOne(lower: Lowering, c: Scalar)
    ensures LowerAll(lower, [c]) == lower(c)
  {
    assert [c][..0] == [];
    assert LowerAll(lower, []) == [];
    assert [] + lower(c) == lower(c);
  }

  lemma OpenLowers(lower: Lowering)
    requires Sensible(lower)
    ensures Lowered(lower, OPEN) == OPEN
  {
    AllSmallStay(lower, OPEN);
    AsciiEncodes(OPEN);
  }

  lemma ShortHasNoTag(s: Bytes)
    requires |s| < |OPEN|
    ensures Find(s, OPEN, 0).None?
  {
  }

  /** A Kelvin sign before a tag: the copy's tag is at byte 1, inside the sign, and
      the program panics, closed block or not, whatever follows; also when later
      characters make the lengths of the whole text and its copy agree. */
  lemma KelvinPanics(lower: Lowering, rest: seq<Scalar>)
    requires Sensible(lower) && lower(KELVIN) == [0x6B]
    ensures Strip(EncodeAll([KELVIN] + OPEN + rest), Lowered(lower, [KELVIN] + OPEN + rest)) == None
  {
    KelvinCopy(lower);
    KelvinInput(rest);
    FirstCut(lower, [KELVIN], OPEN, rest);
  }

  lemma KelvinCopy(lower: Lowering)
    requires Sensible(lower) && lower(KELVIN) == [0x6B]
    ensures |Lowered(lower, [KELVIN])| == 1 && FirstTagAt(lower, [KELVIN], OPEN)
  {
    LowerOne(lower, KELVIN);
    OneScalar(0x6B);
    ShortHasNoTag(Lowered(lower, [KELVIN]));
    OpenLowers(lower);
  }

  lemma KelvinInput(rest: seq<Scalar>)
    ensures !IsCharBoundary(EncodeAll([KELVIN] + OPEN + rest), 1)
  {
    KelvinBytes();
    EncodeConcat([KELVIN], OPEN + rest);
    assert [KELVIN] + (OPEN + rest) == [KELVIN] + OPEN + rest;
    var input := EncodeAll([KELVIN] + OPEN + rest);
    assert input[1] == EncodeAll([KELVIN])[1] && |input| >= 3;
  }

  /** Three bytes for two before the tag: the copy's tag is one byte further on, and
      the tag's own bracket gets out. */
  lemma StrokeLeaks(lower: Lowering)
    requires Sensible(lower) && lower(STROKE) == [0x2C65]
    ensures Strip(EncodeAll([STROKE] + OPEN + [120]), Lowered(lower, [STROKE] + OPEN + [120])) ==
            Some((EncodeAll([STROKE]) + [LT] + MARKER, 1))
  {
    StrokeBytes();
    StrokeCopy(lower);
    TooShortToClose(lower);
    var input := EncodeAll([STROKE] + OPEN + [120]);
    StrokeInput(input);
    var leaked := UnclosedExactly(lower, [STROKE], OPEN, [120]);
    OpenFirst();
    assert leaked == [LT];
  }

  lemma TooShortToClose(lower: Lowering)
    requires Sensible(lower) && lower(STROKE) == [0x2C65]
    ensures Find(Lowered(lower, [STROKE] + OPEN + [120]), CLOSE, |Lowered(lower, [STROKE])| + |OPEN|).None?
  {
    StrokeCopy(lower);
    OneByte(lower);
    var a, b := [STROKE], [120];
    CopyLength(lower, a, OPEN, b);
    TooShort(Lowered(lower, a + OPEN + b), 12);
  }

  lemma CopyLength(lower: Lowering, a: seq<Scalar>, b: seq<Scalar>, c: seq<Scalar>)
    ensures |Lowered(lower, a + b + c)| == |Lowered(lower, a)| + |Lowered(lower, b)| + |Lowered(lower, c)|
  {
    LoweredConcat(lower, a + b, c);
    LoweredConcat(lower, a, b);
  }

  lemma OneByte(lower: Lowering)
    requires Sensible(lower)
    ensures |Lowered(lower, [120])| == 1
  {
    LowerOne(lower, 120);
    OneScalar(120);
  }

  lemma StrokeCopy(lower: Lowering)
    requires Sensible(lower) && lower(STROKE) == [0x2C65]
    ensures |Lowered(lower, [STROKE])| == 3 && FirstTagAt(lower, [STROKE], OPEN)
  {
    LowerOne(lower, STROKE);
    StrokeBytes();
    ShortHasNoTag(Lowered(lower, [STROKE]));
    OpenLowers(lower);
  }

  lemma TooShort(s: Bytes, from: nat)
    requires from + |CLOSE| > |s|
    ensures Find(s, CLOSE, from).None?
  {
  }

  lemma OpenFirst()
    ensures EncodeAll(OPEN + [120]) == OPEN + [120]
  {
    AsciiEncodes(OPEN + [120]);
  }

  lemma StrokeInput(input: Bytes)
    requires input == EncodeAll([STROKE] + OPEN + [120])
    ensures |input| == 12 && input[3] == 112 && IsCharBoundary(input, 3)
  {
    StrokeBytes();
    OpenFirst();
    EncodeConcat([STROKE], OPEN + [120]);
    assert [STROKE] + (OPEN + [120]) == [STROKE] + OPEN + [120];
  }
}
