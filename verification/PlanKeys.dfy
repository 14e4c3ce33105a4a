/** Plan keys: `plan:<slug>` for a plan and `plan:<slug>:NN-name[--pNN]` for the
    parts of its sections. Their text order is meant to be reading order. */
module PlanKeys {
  import opened Wrappers
  import opened Words
  import opened Sequences
  import opened TextOrder

  const PLAN_PREFIX := "plan:"
  const PART_SEP := "--p"
  const MAX_SLUG := 64

  // ---- Slugs ----

  /** Facts about `char::is_alphanumeric` the keys rely on. */
  ghost predicate Sensible(alnum: char -> bool) {
    && !alnum('-') && !alnum(':')
    && forall c | 'a' <= c <= 'z' :: alnum(c)
  }

  predicate EndsWithDash(s: string) {
    s != "" && s[|s| - 1] == '-'
  }

  /** Words joined by single dashes, maybe one dash at the end. */
  function Dashed(alnum: char -> bool, s: string): (r: string)
    ensures |r| <= |s|
    decreases |s|
  {
    if s == "" then ""
    else
      DashedStep(alnum, Dashed(alnum, s[..|s| - 1]), s[|s| - 1])
  }

  function DashedStep(alnum: char -> bool, front: string, c: char): (r: string)
    ensures front <= r && |r| <= |front| + 1
  {
    if alnum(c) then front + [c]
    else if front != "" && !EndsWithDash(front) then front + ['-']
    else front
  }

  function TrimDashes(s: string): (kept: string)
    ensures kept <= s && !EndsWithDash(kept)
  {
    if EndsWithDash(s) then TrimDashes(s[..|s| - 1]) else s
  }

  function Capped(s: string): string {
    if |s| > MAX_SLUG then s[..MAX_SLUG] else s
  }

  function OrUntitled(s: string): string {
    if s == "" then "untitled" else s
  }

  /** The slug of a lower-cased title. */
  function Slug(alnum: char -> bool, lowered: string): string {
    OrUntitled(TrimDashes(Capped(Dashed(alnum, lowered))))
  }

  method Slugify(alnum: char -> bool, lowered: string) returns (out: string)
    requires Sensible(alnum)
    ensures out == Slug(alnum, lowered)
  {
    out := "";
    var last_dash := true;
    for i := 0 to |lowered|
      invariant out == Dashed(alnum, lowered[..i]) && |out| < MAX_SLUG
      invariant last_dash == (out == "" || EndsWithDash(out))
    {
      var ch := lowered[i];
      DashedSnoc(alnum, lowered, i);
      if alnum(ch) {
        out := out + [ch];
        last_dash := false;
      } else if !last_dash {
        out := out + ['-'];
        last_dash := true;
      }
      if |out| >= MAX_SLUG {
        DashedPrefix(alnum, lowered, i + 1);
        break;
      }
    }
    assert lowered[..|lowered|] == lowered;
    assert out == Capped(Dashed(alnum, lowered));
    ghost var whole := out;
    while EndsWithDash(out)
      invariant TrimDashes(out) == TrimDashes(whole)
      decreases |out|
    {
      out := out[..|out| - 1];
    }
    if out == "" {
      out := "untitled";
    }
  }

  lemma DashedSnoc(alnum: char -> bool, s: string, i: nat)
    requires i < |s|
    ensures Dashed(alnum, s[..i + 1]) == DashedStep(alnum, Dashed(alnum, s[..i]), s[i])
  {
    assert s[..i + 1][..i] == s[..i];
  }

  lemma {:induction false} DashedPrefix(alnum: char -> bool, s: string, i: nat)
    requires i <= |s|
    ensures Dashed(alnum, s[..i]) <= Dashed(alnum, s)
    decreases |s| - i
  {
    if i < |s| {
      DashedPrefix(alnum, s, i + 1);
      DashedSnoc(alnum, s, i);
    } else {
      assert s[..i] == s;
    }
  }

  /** Words of letters and digits joined by single dashes. */
  predicate Kebab(alnum: char -> bool, s: string) {
    && (forall i | 0 <= i < |s| :: alnum(s[i]) || s[i] == '-')
    && (s != "" ==> s[0] != '-')
    && forall i | 0 <= i < |s| - 1 :: s[i] == '-' ==> s[i + 1] != '-'
  }

  predicate WellFormed(alnum: char -> bool, slug: string) {
    slug != "" && Kebab(alnum, slug) && !EndsWithDash(slug) && |slug| <= 64
  }

  lemma {:induction false} DashedKebab(alnum: char -> bool, s: string)
    requires Sensible(alnum)
    ensures Kebab(alnum, Dashed(alnum, s))
    decreases |s|
  {
    if s != "" {
      DashedKebab(alnum, s[..|s| - 1]);
    }
  }

  lemma {:induction false} KebabUnchanged(alnum: char -> bool, s: string)
    requires Sensible(alnum) && Kebab(alnum, s)
    ensures Dashed(alnum, s) == s
    decreases |s|
  {
    if s != "" {
      KebabUnchanged(alnum, s[..|s| - 1]);
    }
  }

  lemma UntitledKebab(alnum: char -> bool)
    requires Sensible(alnum)
    ensures WellFormed(alnum, "untitled")
  {
  }

  /** Every title yields a well-formed slug, and a slug typed back is itself. */
  lemma SlugExact(alnum: char -> bool, lowered: string)
    requires Sensible(alnum)
    ensures WellFormed(alnum, Slug(alnum, lowered))
    ensures WellFormed(alnum, lowered) ==> Slug(alnum, lowered) == lowered
  {
    DashedKebab(alnum, lowered);
    UntitledKebab(alnum);
    if WellFormed(alnum, lowered) {
      KebabUnchanged(alnum, lowered);
    }
  }

  /** The letters and digits of a text, in order. */
  function Letters(alnum: char -> bool, s: string): string {
    if s == "" then ""
    else Letters(alnum, s[..|s| - 1]) + (if alnum(s[|s| - 1]) then [s[|s| - 1]] else [])
  }

  lemma LettersSnoc(alnum: char -> bool, s: string, c: char)
    ensures Letters(alnum, s + [c]) == Letters(alnum, s) + if alnum(c) then [c] else []
  {
    assert (s + [c])[..|s|] == s;
  }

  lemma {:induction false} LettersPrefix(alnum: char -> bool, s: string, k: nat)
    requires k <= |s|
    ensures Letters(alnum, s[..k]) <= Letters(alnum, s)
    decreases |s|
  {
    if k == |s| {
      assert s[..k] == s;
    } else {
      var front := s[..|s| - 1];
      assert front[..k] == s[..k];
      LettersPrefix(alnum, front, k);
    }
  }

  /** Dashes replace only what is neither letter nor digit. */
  lemma {:induction false} DashedKeepsLetters(alnum: char -> bool, s: string)
    requires Sensible(alnum)
    ensures Letters(alnum, Dashed(alnum, s)) == Letters(alnum, s)
    decreases |s|
  {
    if s != "" {
      var front, c := s[..|s| - 1], s[|s| - 1];
      DashedKeepsLetters(alnum, front);
      LettersSnoc(alnum, Dashed(alnum, front), c);
      LettersSnoc(alnum, Dashed(alnum, front), '-');
    }
  }

  lemma {:induction false} TrimKeepsLetters(alnum: char -> bool, s: string)
    requires Sensible(alnum)
    ensures Letters(alnum, TrimDashes(s)) == Letters(alnum, s)
    decreases |s|
  {
    if EndsWithDash(s) {
      TrimKeepsLetters(alnum, s[..|s| - 1]);
    }
  }

  /** A slug spells the title: its letters and digits are the title's, in order and
      from the start, and all of them when the dashed title fits the cap. A title
      with none of either is called untitled. */
  lemma SlugSpells(alnum: char -> bool, lowered: string)
    requires Sensible(alnum)
    ensures Letters(alnum, lowered) == "" ==> Slug(alnum, lowered) == "untitled"
    ensures Letters(alnum, lowered) != "" ==> Letters(alnum, Slug(alnum, lowered)) <= Letters(alnum, lowered)
    ensures Letters(alnum, lowered) != "" && |Dashed(alnum, lowered)| <= MAX_SLUG ==>
      Letters(alnum, Slug(alnum, lowered)) == Letters(alnum, lowered)
  {
    if Letters(alnum, lowered) == "" {
      DashedEmpty(alnum, lowered);
    } else {
      LetteredSlug(alnum, lowered);
    }
  }

  lemma DashedEmpty(alnum: char -> bool, lowered: string)
    requires Sensible(alnum) && Letters(alnum, lowered) == ""
    ensures Dashed(alnum, lowered) == ""
  {
    var dashed := Dashed(alnum, lowered);
    DashedKeepsLetters(alnum, lowered);
    DashedKebab(alnum, lowered);
    if dashed != "" {
      LettersStart(alnum, dashed);
    }
  }

  lemma LettersStart(alnum: char -> bool, s: string)
    requires s != "" && alnum(s[0])
    ensures Letters(alnum, s) != ""
  {
    LettersPrefix(alnum, s, 1);
    assert s[..1][..0] == "" && Letters(alnum, s[..1]) == [s[0]];
  }

  lemma LetteredSlug(alnum: char -> bool, lowered: string)
    requires Sensible(alnum) && Letters(alnum, lowered) != ""
    ensures Letters(alnum, Slug(alnum, lowered)) <= Letters(alnum, lowered)
    ensures |Dashed(alnum, lowered)| <= MAX_SLUG ==> Letters(alnum, Slug(alnum, lowered)) == Letters(alnum, lowered)
  {
    var dashed := Dashed(alnum, lowered);
    DashedKeepsLetters(alnum, lowered);
    TrimKeepsLetters(alnum, Capped(dashed));
    if |dashed| > MAX_SLUG {
      LettersPrefix(alnum, dashed, MAX_SLUG);
    }
    if TrimDashes(Capped(dashed)) == "" {
      CappedSpeaks(alnum, lowered);
    }
  }

  /** A dashed text starts with a letter, so no cap or trim empties it. */
  lemma CappedSpeaks(alnum: char -> bool, lowered: string)
    requires Sensible(alnum) && Letters(alnum, lowered) != ""
    ensures TrimDashes(Capped(Dashed(alnum, lowered))) != ""
  {
    var dashed := Dashed(alnum, lowered);
    DashedKeepsLetters(alnum, lowered);
    DashedKebab(alnum, lowered);
    TrimStops(Capped(dashed));
  }

  lemma {:induction false} TrimStops(s: string)
    requires s != "" && s[0] != '-'
    ensures TrimDashes(s) != ""
  {
    if EndsWithDash(s) {
      TrimStops(s[..|s| - 1]);
    }
  }

  // ---- A slug is the title's words joined by dashes ----

  function NotAlnum(alnum: char -> bool): char -> bool {
    c => !alnum(c)
  }

  /** The runs of letters and digits, joined by single dashes. */
  function Joined(alnum: char -> bool, s: string): string {
    Join(SplitWhitespace(s, NotAlnum(alnum)), "-")
  }

  lemma {:induction false} JoinLonger(words: seq<string>, w: string, c: char)
    ensures Join(words + [w + [c]], "-") == Join(words + [w], "-") + [c]
  {
    if words == [] {
      assert [] + [w + [c]] == [w + [c]] && [] + [w] == [w];
    } else {
      JoinSnoc(words, w + [c], "-");
      JoinSnoc(words, w, "-");
      Assoc(Join(words, "-") + "-", w, [c]);
    }
  }

  /** After one more character: a word goes on, a word starts, or nothing changes. */
  lemma JoinedSnoc(alnum: char -> bool, s: string, c: char)
    ensures Joined(alnum, s + [c]) ==
      if !alnum(c) then Joined(alnum, s)
      else if s != "" && alnum(s[|s| - 1]) then Joined(alnum, s) + [c]
      else if Joined(alnum, s) == "" then [c]
      else Joined(alnum, s) + "-" + [c]
  {
    var pieces := Split(s, NotAlnum(alnum));
    var front, last := pieces[..|pieces| - 1], pieces[|pieces| - 1];
    SplitSnoc(s, c, NotAlnum(alnum));
    LastPiece(s, NotAlnum(alnum));
    assert pieces == front + [last];
    NonEmptySnoc(front, last);
    if !alnum(c) {
      NonEmptySnoc(pieces, "");
      assert NonEmpty(pieces) + [] == NonEmpty(pieces);
    } else {
      NonEmptySnoc(front, last + [c]);
      if last != "" {
        JoinLonger(NonEmpty(front), last, c);
      } else {
        forall w | w in NonEmpty(front)
          ensures w != ""
        {
          PieceOf(front, w);
        }
        NewWord(NonEmpty(front), c);
        assert "" + [c] == [c] && NonEmpty(front) + [] == NonEmpty(front);
      }
    }
  }

  lemma NewWord(words: seq<string>, c: char)
    requires forall w | w in words :: w != ""
    ensures Join(words + [[c]], "-") == if Join(words, "-") == "" then [c] else Join(words, "-") + "-" + [c]
  {
    if words == [] {
      assert [] + [[c]] == [[c]];
    } else {
      JoinSnoc(words, [c], "-");
      assert words[0] in words;
    }
  }

  lemma {:induction false} JoinedEnds(alnum: char -> bool, s: string)
    requires Sensible(alnum)
    ensures !EndsWithDash(Joined(alnum, s))
    decreases |s|
  {
    if s == "" {
      assert NonEmpty([""]) == NonEmpty([""][1..]) == [];
    } else {
      var front, c := s[..|s| - 1], s[|s| - 1];
      assert s == front + [c];
      JoinedEnds(alnum, front);
      JoinedSnoc(alnum, front, c);
    }
  }

  lemma {:induction false} DashedJoins(alnum: char -> bool, s: string)
    requires Sensible(alnum)
    ensures Dashed(alnum, s) == Joined(alnum, s) +
              if s != "" && !alnum(s[|s| - 1]) && Joined(alnum, s) != "" then "-" else ""
    decreases |s|
  {
    if s == "" {
      assert NonEmpty([""]) == NonEmpty([""][1..]) == [];
    } else {
      var front, c := s[..|s| - 1], s[|s| - 1];
      assert s == front + [c];
      DashedJoins(alnum, front);
      JoinedEnds(alnum, front);
      JoinedSnoc(alnum, front, c);
      assert "-" == ['-'];
      assert Joined(alnum, front) + "" == Joined(alnum, front);
    }
  }

  lemma SameSeparators(alnum: char -> bool, lowered: string)
    ensures Join(SplitWhitespace(lowered, c => !alnum(c)), "-") == Joined(alnum, lowered)
  {
    SplitAlike(lowered, c => !alnum(c), NotAlnum(alnum));
  }

  lemma {:induction false} SplitAlike(s: string, p: char -> bool, q: char -> bool)
    requires forall c :: p(c) == q(c)
    ensures Split(s, p) == Split(s, q)
  {
    if s != "" {
      SplitAlike(s[1..], p, q);
    }
  }

  lemma TrimOneDash(s: string)
    requires !EndsWithDash(s)
    ensures TrimDashes(s) == s && TrimDashes(s + "-") == s && TrimDashes(s + "") == s
  {
    assert (s + "-")[..|s|] == s && s + "" == s;
  }

  lemma TrimCut(s: string)
    requires |s| == 64 && (s[62] == '-' ==> s[63] != '-')
    ensures TrimDashes(s) == if s[63] == '-' then s[..63] else s
  {
    assert s[..63][62] == s[62];
  }

  /** A slug is the runs of letters and digits of its title joined by single dashes,
      cut to 64 characters, of which the last is dropped if it is a dash. */
  lemma SlugJoins(alnum: char -> bool, lowered: string)
    requires Sensible(alnum)
    ensures var joined := Join(SplitWhitespace(lowered, c => !alnum(c)), "-");
      Slug(alnum, lowered) ==
        if joined == "" then "untitled"
        else if |joined| <= 64 then joined
        else if joined[63] == '-' then joined[..63]
        else joined[..64]
  {
    var joined, dashed := Joined(alnum, lowered), Dashed(alnum, lowered);
    SameSeparators(alnum, lowered);
    DashedJoins(alnum, lowered);
    JoinedEnds(alnum, lowered);
    DashedKebab(alnum, lowered);
    if |joined| <= 64 {
      assert |joined| == 64 ==> dashed[..64] == joined;
      TrimOneDash(joined);
    } else {
      assert dashed[..64] == joined[..64];
      assert joined[..64][..63] == joined[..63];
      TrimCut(joined[..64]);
    }
  }

  // ---- Numbers ----

  function Digit(d: nat): (c: char)
    requires d < 10
    ensures '0' <= c <= '9'
  {
    ('0' as int + d) as char
  }

  function Decimal(n: nat): (s: string)
    ensures |s| > 0 && (n >= 10 ==> |s| > 1)
    ensures forall i | 0 <= i < |s| :: '0' <= s[i] <= '9'
  {
    if n < 10 then [Digit(n)] else Decimal(n / 10) + [Digit(n % 10)]
  }

  /** `{:02}`. */
  function Pad2(n: nat): (s: string)
    ensures |s| > 1
    ensures forall i | 0 <= i < |s| :: '0' <= s[i] <= '9'
  {
    if n < 10 then [Digit(0)] + [Digit(n)] else Decimal(n)
  }

  const USIZE_LIMIT := 0x1_0000_0000_0000_0000

  function Value(digits: string): nat
    requires forall i | 0 <= i < |digits| :: '0' <= digits[i] <= '9'
  {
    if digits == "" then 0
    else 10 * Value(digits[..|digits| - 1]) + (digits[|digits| - 1] as int - '0' as int)
  }

  /** `str::parse::<usize>`: digits, after one optional plus sign, in range. */
  function ParseUsize(s: string): Option<nat> {
    var digits := if s != "" && s[0] == '+' then s[1..] else s;
    if digits == "" || exists i | 0 <= i < |digits| :: !('0' <= digits[i] <= '9') then None
    else if Value(digits) >= USIZE_LIMIT then None
    else Some(Value(digits))
  }

  lemma {:induction false} DecimalValue(n: nat)
    ensures Value(Decimal(n)) == n
  {
    if n < 10 {
      assert Value([]) == 0;
      assert Decimal(n)[..0] == [];
    } else {
      DecimalValue(n / 10);
      assert Decimal(n)[..|Decimal(n)| - 1] == Decimal(n / 10);
    }
  }

  lemma Pad2Value(n: nat)
    ensures Value(Pad2(n)) == n
  {
    DecimalValue(n);
    if n < 10 {
      DecimalValue(0);
      assert Pad2(n)[..1] == Decimal(0);
    }
  }

  lemma NumberReadBack(n: nat)
    requires n < USIZE_LIMIT
    ensures ParseUsize(Pad2(n)) == Some(n)
  {
    Pad2Value(n);
  }

  // ---- Keys ----

  function MetaKey(slug: string): string {
    PLAN_PREFIX + slug
  }

  function SectionKey(slug: string, index: nat, name: string): string {
    MetaKey(slug) + ":" + SectionRest(index, name)
  }

  function SectionRest(index: nat, name: string): string {
    Pad2(index) + "-" + name
  }

  /** What a part adds to its section's key; a single part adds nothing. */
  function PartSuffix(part: nat, parts: nat): string {
    if parts <= 1 then "" else PART_SEP + Pad2(part)
  }

  function PartKey(section: string, part: nat, parts: nat): string {
    if parts <= 1 then section else section + PART_SEP + Pad2(part)
  }

  function FindChar(s: string, c: char, from: nat): (at: Option<nat>)
    ensures at.Some? ==> from <= at.value < |s| && s[at.value] == c
    ensures at.Some? ==> forall i | from <= i < at.value :: s[i] != c
    ensures at.None? ==> forall i | from <= i < |s| :: s[i] != c
    decreases |s| - from
  {
    if from >= |s| then None else if s[from] == c then Some(from) else FindChar(s, c, from + 1)
  }

  /** `split_once`. */
  function SplitOnce(s: string, c: char): Option<(string, string)> {
    var at := FindChar(s, c, 0);
    if at.None? then None else Some((s[..at.value], s[at.value + 1..]))
  }

  function StripPrefix(s: string, prefix: string): Option<string> {
    if prefix <= s then Some(s[|prefix|..]) else None
  }

  /** A key's plan, and the section remainder if it has one. */
  function ParsePlanKey(key: string): Option<(string, Option<string>)> {
    match StripPrefix(key, PLAN_PREFIX)
    case None => None
    case Some(rest) =>
      match SplitOnce(rest, ':')
      case None => Some((rest, None))
      case Some(split) => Some((split.0, Some(split.1)))
  }

  /** The section number a key is read back as. */
  function IndexOf(key: string): Option<nat> {
    match ParsePlanKey(key)
    case None => None
    case Some(parsed) =>
      if parsed.1.None? then None
      else
        var split := SplitOnce(parsed.1.value, '-');
        if split.None? then None else ParseUsize(split.value.0)
  }

  lemma FirstAt(s: string, c: char, k: nat)
    requires k < |s| && s[k] == c && forall i | 0 <= i < k :: s[i] != c
    ensures FindChar(s, c, 0) == Some(k)
  {
  }

  lemma SplitAtFirst(front: string, c: char, back: string)
    requires c !in front
    ensures SplitOnce(front + [c] + back, c) == Some((front, back))
  {
    var s := front + [c] + back;
    forall i | 0 <= i < |front|
      ensures s[i] != c
    {
      assert s[i] == front[i];
    }
    FirstAt(s, c, |front|);
    assert s[..|front|] == front && s[|front| + 1..] == back;
  }

  lemma NoSplit(s: string, c: char)
    requires c !in s
    ensures SplitOnce(s, c) == None
  {
  }

  lemma Stripped(prefix: string, rest: string)
    ensures StripPrefix(prefix + rest, prefix) == Some(rest)
  {
  }

  lemma KeyShape(slug: string, index: nat, name: string, part: nat, parts: nat)
    ensures PartKey(SectionKey(slug, index, name), part, parts) ==
            PLAN_PREFIX + (slug + ":" + (Pad2(index) + "-" + (name + PartSuffix(part, parts))))
  {
    var tail, suffix := Pad2(index) + "-", PartSuffix(part, parts);
    assert SectionKey(slug, index, name) + suffix ==
           PLAN_PREFIX + (slug + ":" + (tail + (name + suffix)));
    assert SectionKey(slug, index, name) + PART_SEP + Pad2(part) ==
           SectionKey(slug, index, name) + (PART_SEP + Pad2(part));
    assert SectionKey(slug, index, name) + "" == SectionKey(slug, index, name);
  }

  /** Every key written is read back as the plan and the section number it was
      written for; the plan's own key as the plan alone. */
  lemma KeyReadBack(alnum: char -> bool, slug: string, index: nat, name: string, part: nat, parts: nat)
    requires Sensible(alnum) && WellFormed(alnum, slug) && index < USIZE_LIMIT
    ensures var key := PartKey(SectionKey(slug, index, name), part, parts);
      IndexOf(key) == Some(index) && ParsePlanKey(key).value.0 == slug && ParsePlanKey(key).value.1.Some?
  {
    var tail := name + PartSuffix(part, parts);
    KeyShape(slug, index, name, part, parts);
    var rest := Pad2(index) + ['-'] + tail;
    assert slug + ":" + (Pad2(index) + "-" + tail) == slug + [':'] + rest;
    Stripped(PLAN_PREFIX, slug + [':'] + rest);
    SplitAtFirst(slug, ':', rest);
    SplitAtFirst(Pad2(index), '-', tail);
    NumberReadBack(index);
  }

  lemma MetaReadBack(alnum: char -> bool, slug: string)
    requires Sensible(alnum) && WellFormed(alnum, slug)
    ensures ParsePlanKey(MetaKey(slug)) == Some((slug, None))
  {
    Stripped(PLAN_PREFIX, slug);
    NoSplit(slug, ':');
  }

  // ---- Distinct keys ----

  predicate StartsDashDash(x: string) {
    |x| >= 2 && x[0] == '-' && x[1] == '-'
  }

  /** A name ends where the part separator starts, whatever follows. */
  lemma NameEnds(alnum: char -> bool, a: string, b: string, x: string, y: string)
    requires WellFormed(alnum, a) && WellFormed(alnum, b)
    requires x == "" || StartsDashDash(x)
    requires y == "" || StartsDashDash(y)
    requires a + x == b + y
    ensures a == b && x == y
  {
    if |a| < |b| {
      DashesInside(a, b, x, y);
    } else if |b| < |a| {
      DashesInside(b, a, y, x);
    } else {
      assert a == (a + x)[..|a|] && x == (a + x)[|a|..];
    }
  }

  lemma DashesInside(a: string, b: string, x: string, y: string)
    requires |a| < |b| && a + x == b + y && StartsDashDash(x)
    ensures b[|a|] == '-' && (|a| + 1 < |b| ==> b[|a| + 1] == '-')
  {
    var s := a + x;
    assert s[|a|] == x[0] && s[|a| + 1] == x[1];
  }

  lemma SuffixRead(p: nat, n: nat, q: nat, m: nat)
    requires PartSuffix(p, n) == PartSuffix(q, m)
    ensures (n <= 1) == (m <= 1) && (n > 1 ==> p == q)
  {
    if n > 1 && m > 1 {
      assert PartSuffix(p, n)[|PART_SEP|..] == Pad2(p) && PartSuffix(q, m)[|PART_SEP|..] == Pad2(q);
      Pad2Value(p);
      Pad2Value(q);
    }
  }

  lemma SuffixShape(p: nat, n: nat)
    ensures PartSuffix(p, n) == "" || StartsDashDash(PartSuffix(p, n))
  {
    if n > 1 {
      assert PartSuffix(p, n)[0] == PART_SEP[0] && PartSuffix(p, n)[1] == PART_SEP[1];
    }
  }

  /** What one key stands for. */
  datatype Place = Place(slug: string, index: nat, name: string, part: nat, parts: nat)

  predicate InRange(alnum: char -> bool, p: Place) {
    WellFormed(alnum, p.slug) && WellFormed(alnum, p.name) && p.index < USIZE_LIMIT
  }

  function KeyOf(p: Place): string {
    PartKey(SectionKey(p.slug, p.index, p.name), p.part, p.parts)
  }

  function Rest(p: Place): string {
    Pad2(p.index) + "-" + (p.name + PartSuffix(p.part, p.parts))
  }

  /** A key tells its plan, section, section name and part apart from all others. */
  lemma KeyInjective(alnum: char -> bool, p: Place, q: Place)
    requires Sensible(alnum) && InRange(alnum, p) && InRange(alnum, q)
    requires KeyOf(p) == KeyOf(q)
    ensures p.slug == q.slug && p.index == q.index && p.name == q.name
    ensures (p.parts <= 1) == (q.parts <= 1) && (p.parts > 1 ==> p.part == q.part)
  {
    KeyReadBack(alnum, p.slug, p.index, p.name, p.part, p.parts);
    KeyReadBack(alnum, q.slug, q.index, q.name, q.part, q.parts);
    TailsAgree(p, q);
    SuffixShape(p.part, p.parts);
    SuffixShape(q.part, q.parts);
    NameEnds(alnum, p.name, q.name, PartSuffix(p.part, p.parts), PartSuffix(q.part, q.parts));
    SuffixRead(p.part, p.parts, q.part, q.parts);
  }

  lemma TailsAgree(p: Place, q: Place)
    requires KeyOf(p) == KeyOf(q) && p.slug == q.slug && p.index == q.index
    ensures p.name + PartSuffix(p.part, p.parts) == q.name + PartSuffix(q.part, q.parts)
  {
    KeyShape(p.slug, p.index, p.name, p.part, p.parts);
    KeyShape(q.slug, q.index, q.name, q.part, q.parts);
    Stripped(PLAN_PREFIX, p.slug + ":" + Rest(p));
    Stripped(PLAN_PREFIX, q.slug + ":" + Rest(q));
    Stripped(p.slug + ":", Rest(p));
    Stripped(p.slug + ":", Rest(q));
    Stripped(Pad2(p.index) + "-", p.name + PartSuffix(p.part, p.parts));
    Stripped(Pad2(p.index) + "-", q.name + PartSuffix(q.part, q.parts));
  }

  // ---- Text order ----

  lemma TwoDigits(n: nat)
    requires n < 100
    ensures Pad2(n) == [Digit(n / 10)] + [Digit(n % 10)]
  {
    assert n >= 10 ==> Decimal(n / 10) == [Digit(n / 10)];
  }

  lemma FirstDiffers(a: char, b: char, x: string, y: string)
    ensures a < b ==> Before([a] + x, [b] + y)
    ensures a > b ==> !Before([a] + x, [b] + y)
  {
  }

  /** Two-digit numbers stand in numeric order, whatever follows them. */
  lemma PaddedOrder(i: nat, j: nat, x: string, y: string)
    requires i < j < 100
    ensures Before(Pad2(i) + x, Pad2(j) + y)
  {
    TwoDigits(i);
    TwoDigits(j);
    var a, b := [Digit(i % 10)] + x, [Digit(j % 10)] + y;
    assert Pad2(i) + x == [Digit(i / 10)] + a && Pad2(j) + y == [Digit(j / 10)] + b;
    FirstDiffers(Digit(i / 10), Digit(j / 10), a, b);
    if i / 10 == j / 10 {
      FirstDiffers(Digit(i % 10), Digit(j % 10), x, y);
      AfterPrefix([Digit(i / 10)], a, b);
    }
  }

  /** One hundred sorts before eleven. */
  lemma HundredBeforeEleven(x: string, y: string)
    ensures !Before(Pad2(11) + x, Pad2(100) + y)
  {
    TwoDigits(11);
    TwoDigits(10);
    var one, zero := Digit(1), Digit(0);
    assert Decimal(100) == Decimal(10) + [zero];
    var a, b := [one] + x, [zero] + ([zero] + y);
    assert Pad2(11) + x == [one] + a && Pad2(100) + y == [one] + b;
    FirstDiffers(one, zero, x, [zero] + y);
    AfterPrefix([one], a, b);
  }

  lemma SectionOrder(slug: string, i: nat, j: nat, a: string, b: string)
    ensures Before(SectionKey(slug, i, a), SectionKey(slug, j, b)) <==>
            Before(Pad2(i) + ("-" + a), Pad2(j) + ("-" + b))
  {
    AfterPrefix(MetaKey(slug) + ":", SectionRest(i, a), SectionRest(j, b));
    Assoc(Pad2(i), "-", a);
    Assoc(Pad2(j), "-", b);
  }

  /** Sections sort by number, whatever their names and parts, exactly in plans of
      at most a hundred sections. */
  lemma SectionOrderExactly(slug: string, sections: nat)
    ensures (forall i: nat, j: nat, a, b | i < j < sections ::
              Before(SectionKey(slug, i, a), SectionKey(slug, j, b))) <==>
            sections <= 100
  {
    if sections <= 100 {
      forall i: nat, j: nat, a, b | i < j < sections
        ensures Before(SectionKey(slug, i, a), SectionKey(slug, j, b))
      {
        SectionOrder(slug, i, j, a, b);
        PaddedOrder(i, j, "-" + a, "-" + b);
      }
    } else {
      SectionOrder(slug, 11, 100, "a", "b");
      HundredBeforeEleven("-" + "a", "-" + "b");
      assert !Before(SectionKey(slug, 11, "a"), SectionKey(slug, 100, "b"));
    }
  }

  lemma PartOrder(section: string, p: nat, q: nat, parts: nat)
    requires parts > 1
    ensures Before(PartKey(section, p, parts), PartKey(section, q, parts)) <==> Before(Pad2(p) + "", Pad2(q) + "")
  {
    AfterPrefix(section + PART_SEP, Pad2(p), Pad2(q));
    assert Pad2(p) + "" == Pad2(p) && Pad2(q) + "" == Pad2(q);
  }

  /** The parts of a section sort by number exactly when there are at most 99. */
  lemma PartOrderExactly(section: string, parts: nat)
    ensures (forall p: nat, q: nat | 1 <= p < q <= parts ::
              Before(PartKey(section, p, parts), PartKey(section, q, parts))) <==>
            parts <= 99
  {
    if parts <= 99 {
      forall p: nat, q: nat | 1 <= p < q <= parts
        ensures Before(PartKey(section, p, parts), PartKey(section, q, parts))
      {
        PartOrder(section, p, q, parts);
        PaddedOrder(p, q, "", "");
      }
    } else {
      PartOrder(section, 11, 100, parts);
      HundredBeforeEleven("", "");
      assert !Before(PartKey(section, 11, parts), PartKey(section, 100, parts));
    }
  }

  /** Keys of one plan read back and sort in reading order: by section, then by part. */
  lemma ReadingOrder(p: Place, q: Place)
    requires p.slug == q.slug && p.index <= q.index < 100
    requires p.index == q.index ==> p.name == q.name && p.parts == q.parts && 1 <= p.part < q.part <= p.parts <= 99
    ensures Before(KeyOf(p), KeyOf(q))
  {
    if p.index == q.index {
      PartOrder(SectionKey(p.slug, p.index, p.name), p.part, q.part, p.parts);
      PaddedOrder(p.part, q.part, "", "");
    } else {
      KeyIsSection(p);
      KeyIsSection(q);
      var a, b := p.name + PartSuffix(p.part, p.parts), q.name + PartSuffix(q.part, q.parts);
      SectionOrder(p.slug, p.index, q.index, a, b);
      PaddedOrder(p.index, q.index, "-" + a, "-" + b);
    }
  }

  lemma KeyIsSection(p: Place)
    ensures KeyOf(p) == SectionKey(p.slug, p.index, p.name + PartSuffix(p.part, p.parts))
  {
    KeyShape(p.slug, p.index, p.name, p.part, p.parts);
    KeyShape(p.slug, p.index, p.name + PartSuffix(p.part, p.parts), 1, 1);
    assert p.name + PartSuffix(p.part, p.parts) + "" == p.name + PartSuffix(p.part, p.parts);
  }
}
