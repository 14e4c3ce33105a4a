/** Cutting one section's body into parts that fit the content cap, on paragraph
    boundaries where there are some. */
module PlanChunks {
  import opened Wrappers
  import opened Sequences

  /** Carried by every part cut off before the end of the section. */
  const MARKER: string := "\n\n\U{2026} [continues in the next part]"
  const MARKER_CHARS := 32

  lemma MarkerLength()
    ensures |MARKER| == MARKER_CHARS
  {
  }

  predicate Blank(white: char -> bool, s: string) {
    forall i | 0 <= i < |s| :: white(s[i])
  }

  /** Where the last line break in `s[..n]` starts that is followed by another. */
  function LastParagraphBreak(s: string, n: nat): (at: Option<nat>)
    requires n <= |s|
    ensures at.Some? ==> at.value + 1 < n && s[at.value] == s[at.value + 1] == '\n'
    ensures at.None? ==> forall i | 0 <= i < n - 1 :: !(s[i] == s[i + 1] == '\n')
    ensures at.Some? ==> forall i | at.value < i < n - 1 :: !(s[i] == s[i + 1] == '\n')
  {
    if n < 2 then None
    else if s[n - 2] == s[n - 1] == '\n' then Some(n - 2)
    else LastParagraphBreak(s, n - 1)
  }

  function LastLineBreak(s: string, n: nat): (at: Option<nat>)
    requires n <= |s|
    ensures at.Some? ==> at.value < n && s[at.value] == '\n'
    ensures at.None? ==> forall i | 0 <= i < n :: s[i] != '\n'
    ensures at.Some? ==> forall i | at.value < i < n :: s[i] != '\n'
  {
    if n == 0 then None
    else if s[n - 1] == '\n' then Some(n - 1)
    else LastLineBreak(s, n - 1)
  }

  /** Room for text in a part that carries the marker, at least one character. */
  function Budget(limit: nat): (budget: nat)
    ensures budget >= 1
    ensures budget + MARKER_CHARS <= limit <==> limit >= MARKER_CHARS + 1
  {
    if limit > MARKER_CHARS + 2 then limit - (MARKER_CHARS + 1) else 1
  }

  /** Where to cut a head: at its last paragraph break, or at its last line break
      when it has none, but only past a quarter of the budget. */
  function CutAt(head: string, budget: nat): (cut: nat)
    requires head != ""
    ensures 0 < cut <= |head|
    ensures cut < |head| ==> head[cut] == '\n' && cut > budget / 4
  {
    var paragraph := LastParagraphBreak(head, |head|);
    var found := if paragraph.Some? then paragraph else LastLineBreak(head, |head|);
    if found.Some? && found.value > budget / 4 then found.value else |head|
  }

  function TrimEnd(white: char -> bool, s: string): (kept: string)
    ensures kept <= s && Blank(white, s[|kept|..])
  {
    if s == "" || !white(s[|s| - 1]) then s else TrimEnd(white, s[..|s| - 1])
  }

  function TrimNewlines(s: string): (kept: string)
    ensures |kept| <= |s| && s[|s| - |kept|..] == kept
    ensures forall i | 0 <= i < |s| - |kept| :: s[i] == '\n'
    ensures kept != "" ==> kept[0] != '\n'
  {
    if s == "" || s[0] != '\n' then s else TrimNewlines(s[1..])
  }

  function Head(rest: string, limit: nat): (head: string)
    requires |rest| > limit
    ensures head <= rest && |head| == Budget(limit)
  {
    rest[..Budget(limit)]
  }

  /** The first part cut off, and what follows it. */
  function Chunk(rest: string, limit: nat): (chunk: string)
    requires |rest| > limit
    ensures chunk <= rest && chunk != ""
  {
    var head := Head(rest, limit);
    head[..CutAt(head, Budget(limit))]
  }

  function After(rest: string, limit: nat): (after: string)
    requires |rest| > limit
    ensures |after| < |rest|
  {
    TrimNewlines(rest[|Chunk(rest, limit)|..])
  }

  function FirstBody(white: char -> bool, rest: string, limit: nat): string
    requires |rest| > limit
  {
    TrimEnd(white, Chunk(rest, limit))
  }

  function Parts(white: char -> bool, rest: string, limit: nat): seq<string>
    decreases |rest|
  {
    if |rest| > limit then [FirstBody(white, rest, limit) + MARKER] + Parts(white, After(rest, limit), limit)
    else if Blank(white, rest) then []
    else [rest]
  }

  function Split(white: char -> bool, content: string, limit: nat): seq<string> {
    if |content| <= limit then [content] else Parts(white, content, limit)
  }

  /** Content within the limit is one part, as it is. Otherwise heads are cut off
      until the rest fits; a rest of nothing but white space is dropped. */
  method SplitSection(white: char -> bool, content: string, limit: nat) returns (parts: seq<string>)
    ensures parts == Split(white, content, limit)
  {
    if |content| <= limit {
      return [content];
    }
    var budget := Budget(limit);
    parts := [];
    var rest := content;
    ghost var todo := Parts(white, content, limit);
    while |rest| > limit
      invariant todo == Parts(white, rest, limit)
      invariant parts + todo == Parts(white, content, limit)
      decreases |rest|
    {
      var head := rest[..budget];
      var cut := CutAt(head, budget);
      var chunk := head[..cut];
      var part := TrimEnd(white, chunk) + MARKER;
      assert chunk == Chunk(rest, limit);
      todo := Parts(white, After(rest, limit), limit);
      Assoc(parts, [part], todo);
      parts := parts + [part];
      rest := rest[|chunk|..];
      rest := TrimNewlines(rest);
    }
    if !Blank(white, rest) {
      parts := parts + [rest];
    }
  }

  lemma SplitNonEmpty(white: char -> bool, content: string, limit: nat)
    ensures |Split(white, content, limit)| > 0
  {
  }

  // ---- Where a section is cut ----

  predicate PairAt(s: string, at: nat) {
    at + 1 < |s| && s[at] == '\n' && s[at + 1] == '\n'
  }

  predicate LastPair(s: string, at: nat) {
    PairAt(s, at) && forall i | at < i < |s| :: !PairAt(s, i)
  }

  predicate LastLine(s: string, at: nat) {
    at < |s| && s[at] == '\n' && forall i | at < i < |s| :: s[i] != '\n'
  }

  /** A break is taken unless it lies in the first quarter. */
  function Taken(head: string, at: nat): nat {
    if at > |head| / 4 then at else |head|
  }

  /** A head is cut at its last empty line, or at its last line break if no line is
      empty, or not at all. */
  ghost predicate BreaksAt(head: string, n: nat) {
    && (forall at: nat | LastPair(head, at) :: n == Taken(head, at))
    && ((forall at: nat | at < |head| :: !PairAt(head, at)) ==>
          && (forall at: nat | LastLine(head, at) :: n == Taken(head, at))
          && ('\n' !in head ==> n == |head|))
  }

  /** How much goes into a first part of at most `limit` characters, before its
      trailing white space is dropped: as much as the marker leaves room for, or what
      comes before a break in it. */
  ghost predicate CutsAt(rest: string, limit: nat, n: nat)
    requires |rest| > limit
  {
    BreaksAt(rest[..if limit >= 34 then limit - 33 else 1], n)
  }

  /** What is left of a text without its trailing white space. */
  ghost predicate Trimmed(white: char -> bool, text: string, kept: string) {
    && kept <= text && Blank(white, text[|kept|..]) && (kept != "" ==> !white(kept[|kept| - 1]))
  }

  /** `parts` is a run of cuts: each takes the front of what is left up to where it is
      cut, leaves out trailing white space, and skips the line breaks that follow. What
      fits the limit is the last part, unless it is blank. */
  ghost predicate CutUp(white: char -> bool, rest: string, limit: nat, parts: seq<string>)
    decreases |parts|
  {
    if |rest| <= limit then parts == if Blank(white, rest) then [] else [rest]
    else
      && parts != []
      && exists n: nat, skip: nat, body ::
           && n + skip <= |rest| && CutsAt(rest, limit, n)
           && Trimmed(white, rest[..n], body) && parts[0] == body + MARKER
           && SkipsBreaks(rest, n, skip)
           && CutUp(white, rest[n + skip..], limit, parts[1..])
  }

  predicate SkipsBreaks(rest: string, n: nat, skip: nat) {
    && n + skip <= |rest|
    && (forall i | n <= i < n + skip :: rest[i] == '\n')
    && (n + skip < |rest| ==> rest[n + skip] != '\n')
  }

  lemma PairFound(head: string, at: nat)
    requires LastPair(head, at)
    ensures LastParagraphBreak(head, |head|) == Some(at)
  {
    var pair := LastParagraphBreak(head, |head|);
    if pair.Some? {
      assert PairAt(head, pair.value);
    }
  }

  lemma NoPairFound(head: string)
    requires forall at: nat | at < |head| :: !PairAt(head, at)
    ensures LastParagraphBreak(head, |head|) == None
  {
    var pair := LastParagraphBreak(head, |head|);
    if pair.Some? {
      assert PairAt(head, pair.value);
    }
  }

  lemma LineFound(head: string)
    ensures forall at: nat | LastLine(head, at) :: LastLineBreak(head, |head|) == Some(at)
    ensures '\n' !in head ==> LastLineBreak(head, |head|) == None
  {
  }

  lemma BreaksFound(head: string)
    requires head != ""
    ensures BreaksAt(head, CutAt(head, |head|))
  {
    forall at: nat | LastPair(head, at)
      ensures CutAt(head, |head|) == Taken(head, at)
    {
      PairFound(head, at);
    }
    LineFound(head);
    if forall at: nat | at < |head| :: !PairAt(head, at) {
      NoPairFound(head);
    }
  }

  /** Cuts fall where the last break past the first quarter is, or where the room ends. */
  lemma CutPlace(rest: string, limit: nat)
    requires |rest| > limit
    ensures CutsAt(rest, limit, |Chunk(rest, limit)|)
  {
    BreaksFound(Head(rest, limit));
  }

  lemma CutUpStep(white: char -> bool, rest: string, limit: nat, parts: seq<string>, n: nat, skip: nat, body: string)
    requires |rest| > limit && n + skip <= |rest| && CutsAt(rest, limit, n) && Trimmed(white, rest[..n], body)
    requires SkipsBreaks(rest, n, skip) && CutUp(white, rest[n + skip..], limit, parts)
    ensures CutUp(white, rest, limit, [body + MARKER] + parts)
  {
    var all := [body + MARKER] + parts;
    assert all[1..] == parts;
  }

  lemma {:induction false} TrimEndStops(white: char -> bool, s: string)
    ensures Trimmed(white, s, TrimEnd(white, s))
    decreases |s|
  {
    if s != "" && white(s[|s| - 1]) {
      TrimEndStops(white, s[..|s| - 1]);
    }
  }

  lemma CutOnce(white: char -> bool, rest: string, limit: nat) returns (n: nat, skip: nat, body: string)
    requires |rest| > limit
    ensures n == |Chunk(rest, limit)| && n + skip <= |rest| && Trimmed(white, rest[..n], body)
    ensures SkipsBreaks(rest, n, skip) && rest[n + skip..] == After(rest, limit)
    ensures body == FirstBody(white, rest, limit)
  {
    n, body := |Chunk(rest, limit)|, FirstBody(white, rest, limit);
    assert rest[..n] == Chunk(rest, limit);
    TrimEndStops(white, rest[..n]);
    skip := |rest| - n - |After(rest, limit)|;
    BreaksSkipped(rest, n, rest[n..], After(rest, limit));
  }

  lemma {:induction false} PartsCutUp(white: char -> bool, rest: string, limit: nat)
    ensures CutUp(white, rest, limit, Parts(white, rest, limit))
    decreases |rest|
  {
    if |rest| > limit {
      var after := After(rest, limit);
      PartsCutUp(white, after, limit);
      CutPlace(rest, limit);
      var n, skip, body := CutOnce(white, rest, limit);
      CutUpStep(white, rest, limit, Parts(white, after, limit), n, skip, body);
    }
  }

  lemma BreaksSkipped(rest: string, n: nat, left: string, after: string)
    requires n <= |rest| && left == rest[n..] && |after| <= |left| && left[|left| - |after|..] == after
    requires forall i | 0 <= i < |left| - |after| :: left[i] == '\n'
    requires after != "" ==> after[0] != '\n'
    ensures var skip := |left| - |after|;
      SkipsBreaks(rest, n, skip) && rest[n + skip..] == after
  {
    var skip := |left| - |after|;
    assert rest[n + skip..] == left[skip..];
    forall i | n <= i < n + skip
      ensures rest[i] == '\n'
    {
      assert left[i - n] == rest[i];
    }
  }

  /** How every section is cut: whole within the limit, and otherwise cut up. */
  lemma SplitCutsUp(white: char -> bool, content: string, limit: nat)
    ensures |content| <= limit ==> Split(white, content, limit) == [content]
    ensures |content| > limit ==> CutUp(white, content, limit, Split(white, content, limit))
  {
    PartsCutUp(white, content, limit);
  }

  /** A section without line breaks, at the default limit: ten thousand characters
      leave room for 9,967. */
  lemma UnbrokenCut(white: char -> bool, content: string)
    requires |content| > 10_000 && '\n' !in content && !white(content[9_966])
    ensures Split(white, content, 10_000)[0] == content[..9_967] + MARKER
  {
    CutPlace(content, 10_000);
    var head := content[..9_967];
    assert forall at | 0 <= at < |head| :: head[at] in content;
    assert forall at: nat | at < |head| :: !PairAt(head, at);
    assert Chunk(content, 10_000) == head;
    assert head[|head| - 1] == content[9_966];
  }

  // ---- Conservation ----

  /** Bodies and what was dropped after each, in order. */
  function Weave(bodies: seq<string>, gaps: seq<string>): string
    requires |bodies| == |gaps|
  {
    if bodies == [] then "" else bodies[0] + gaps[0] + Weave(bodies[1..], gaps[1..])
  }

  function Marked(bodies: seq<string>): (parts: seq<string>)
    ensures |parts| == |bodies| && forall i | 0 <= i < |bodies| :: parts[i] == bodies[i] + MARKER
  {
    seq(|bodies|, i requires 0 <= i < |bodies| => bodies[i] + MARKER)
  }

  /** The content is the bodies and the tail, with white space after each body. */
  ghost predicate Woven(white: char -> bool, content: string, bodies: seq<string>, gaps: seq<string>, tail: string) {
    && |gaps| == |bodies| && (forall g | g in gaps :: Blank(white, g))
    && content == Weave(bodies, gaps) + tail
  }

  /** The parts are marked bodies and at most one unmarked tail; the content is the
      bodies and the tail verbatim and in order, with only white space dropped
      after each body, and nothing dropped but white space at the end. */
  ghost predicate Conserves(white: char -> bool, content: string, parts: seq<string>,
                            bodies: seq<string>, gaps: seq<string>, tail: string) {
    && Woven(white, content, bodies, gaps, tail)
    && parts == Marked(bodies) + (if Blank(white, tail) then [] else [tail])
  }

  lemma {:induction false} PartsConserve(white: char -> bool, rest: string, limit: nat)
    returns (bodies: seq<string>, gaps: seq<string>, tail: string)
    requires white('\n')
    ensures Conserves(white, rest, Parts(white, rest, limit), bodies, gaps, tail)
    ensures |tail| <= limit && (bodies == [] <==> |rest| <= limit)
    decreases |rest|
  {
    if |rest| > limit {
      var bs, gs, t := PartsConserve(white, After(rest, limit), limit);
      var gap := CutGap(white, rest, limit);
      bodies, gaps, tail := [FirstBody(white, rest, limit)] + bs, [gap] + gs, t;
      Conserved(white, bodies[0], gap, After(rest, limit), Parts(white, After(rest, limit), limit), bs, gs, t);
    } else {
      bodies, gaps, tail := [], [], rest;
      assert Marked([]) == [] && "" + rest == rest;
    }
  }

  lemma Conserved(white: char -> bool, body: string, gap: string, content: string, parts: seq<string>,
                  bodies: seq<string>, gaps: seq<string>, tail: string)
    requires Conserves(white, content, parts, bodies, gaps, tail) && Blank(white, gap)
    ensures Conserves(white, body + gap + content, [body + MARKER] + parts, [body] + bodies, [gap] + gaps, tail)
  {
    var bs, gs := [body] + bodies, [gap] + gaps;
    assert bs[1..] == bodies && gs[1..] == gaps;
    var woven := Weave(bodies, gaps);
    assert Weave(bs, gs) == body + gap + woven;
    Assoc(body + gap, woven, tail);
    assert Marked(bs) == [body + MARKER] + Marked(bodies);
    Assoc([body + MARKER], Marked(bodies), if Blank(white, tail) then [] else [tail]);
  }

  /** Between a body and what follows it, only white space is lost. */
  lemma CutGap(white: char -> bool, rest: string, limit: nat) returns (gap: string)
    requires white('\n') && |rest| > limit
    ensures Blank(white, gap) && rest == FirstBody(white, rest, limit) + gap + After(rest, limit)
  {
    var chunk := Chunk(rest, limit);
    var left := rest[|chunk|..];
    Halves(rest, chunk);
    var body, after := FirstBody(white, rest, limit), After(rest, limit);
    gap := chunk[|body|..] + left[..|left| - |after|];
    Halves(chunk, body);
    SkippedBlank(white, left);
    Regroup(body, chunk[|body|..], left[..|left| - |after|], after);
  }

  lemma Halves(s: string, front: string)
    requires front <= s
    ensures s == front + s[|front|..]
  {
  }

  lemma SkippedBlank(white: char -> bool, left: string)
    requires white('\n')
    ensures var skipped := left[..|left| - |TrimNewlines(left)|];
      Blank(white, skipped) && left == skipped + TrimNewlines(left)
  {
    NewlinesBlank(white, left, TrimNewlines(left));
  }

  lemma NewlinesBlank(white: char -> bool, left: string, after: string)
    requires white('\n') && |after| <= |left| && left[|left| - |after|..] == after
    requires forall i | 0 <= i < |left| - |after| :: left[i] == '\n'
    ensures Blank(white, left[..|left| - |after|]) && left == left[..|left| - |after|] + after
  {
  }

  lemma Regroup(a: string, b: string, c: string, d: string)
    ensures a + b + (c + d) == a + (b + c) + d
  {
  }

  /** For every content and limit: nothing but white space around cuts is lost, and
      nothing at all where nothing is cut. */
  lemma SplitConserves(white: char -> bool, content: string, limit: nat)
    returns (bodies: seq<string>, gaps: seq<string>, tail: string)
    requires white('\n')
    ensures Woven(white, content, bodies, gaps, tail) && |tail| <= limit
    ensures Split(white, content, limit) ==
            Marked(bodies) + (if bodies != [] && Blank(white, tail) then [] else [tail])
    ensures bodies == [] <==> |content| <= limit
  {
    bodies, gaps, tail := PartsConserve(white, content, limit);
    if bodies == [] {
      assert Marked([]) == [] && Weave([], []) + tail == tail;
    }
  }

  // ---- The size bound ----

  lemma {:induction false} PartsBounded(white: char -> bool, rest: string, limit: nat, part: string)
    requires limit >= MARKER_CHARS + 1 && part in Parts(white, rest, limit)
    ensures |part| <= limit
    decreases |rest|
  {
    if |rest| > limit && part != FirstBody(white, rest, limit) + MARKER {
      PartsBounded(white, After(rest, limit), limit, part);
    } else {
      MarkerLength();
    }
  }

  /** Below the marker's own length every content that is cut at all breaks the bound. */
  lemma TooLong(white: char -> bool, content: string, limit: nat)
    requires limit < MARKER_CHARS && |content| > limit
    ensures |Split(white, content, limit)[0]| > limit
  {
    MarkerLength();
  }

  /** Every part of every content fits the limit, exactly from 33 characters on. */
  lemma SizeBoundExactly(white: char -> bool, limit: nat)
    requires !white('x')
    ensures (forall content, part | part in Split(white, content, limit) :: |part| <= limit) <==>
            limit >= MARKER_CHARS + 1
  {
    if limit >= MARKER_CHARS + 1 {
      forall content, part | part in Split(white, content, limit)
        ensures |part| <= limit
      {
        if |content| > limit {
          PartsBounded(white, content, limit, part);
        }
      }
    } else {
      var content := seq(limit + 1, i => 'x');
      SolidTooLong(white, content, limit);
    }
  }

  lemma SolidTooLong(white: char -> bool, content: string, limit: nat)
    requires limit <= MARKER_CHARS && |content| > limit && !white(content[0])
    ensures exists part | part in Split(white, content, limit) :: |part| > limit
  {
    var part := FirstBody(white, content, limit) + MARKER;
    MarkerLength();
    assert Budget(limit) == 1;
    OneCharCut(Head(content, limit));
    assert FirstBody(white, content, limit) == content[..1];
    assert part == Split(white, content, limit)[0];
  }

  lemma OneCharCut(head: string)
    requires |head| == 1
    ensures CutAt(head, 1) == 1
  {
  }
}
