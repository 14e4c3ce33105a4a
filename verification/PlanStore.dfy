/** Plans kept as entries under text keys: writing a whole plan and retiring what
    an earlier version left behind, and reading it back. */
module PlanStore {
  import opened Wrappers
  import opened Sequences
  import opened PlanKeys
  import opened TextOrder
  import PlanChunks

  // ---- Entries ----

  datatype PlanStatus = Draft | Approved | Executing | Completed | Abandoned
  datatype PhaseStatus = Pending | InProgress | Done

  datatype Entry = Entry(title: string, content: string, tags: seq<string>)
  datatype Row = Row(key: string, entry: Entry)

  datatype SectionInput = SectionInput(title: string, content: string, phase: Option<nat>, status: PhaseStatus)

  datatype PlanSection = PlanSection(
    key: string, index: nat, title: string, content: string, phase: Option<nat>, status: PhaseStatus)
  datatype Document = Document(
    slug: string, title: string, overview: string, status: PlanStatus, sections: seq<PlanSection>)

  /** What the standard library says about characters; `normal` trims and lower-cases. */
  datatype Chars = Chars(
    alnum: char -> bool, white: char -> bool, lower: string -> string, normal: string -> string)

  ghost predicate Plain(c: Chars) {
    && Sensible(c.alnum)
    && (forall s :: c.normal(PlanText(s)) == PlanText(s))
    && (forall s :: c.normal(PhaseText(s)) == PhaseText(s))
  }

  function PlanText(s: PlanStatus): string {
    match s
    case Draft => "draft"
    case Approved => "approved"
    case Executing => "in-progress"
    case Completed => "completed"
    case Abandoned => "abandoned"
  }

  function PhaseText(s: PhaseStatus): string {
    match s
    case Pending => "pending"
    case InProgress => "in-progress"
    case Done => "done"
  }

  function ParsePlanStatus(c: Chars, text: string): Option<PlanStatus> {
    var t := c.normal(text);
    if t == PlanText(Draft) then Some(Draft)
    else if t == PlanText(Approved) then Some(Approved)
    else if t == PlanText(Executing) then Some(Executing)
    else if t == PlanText(Completed) then Some(Completed)
    else if t == PlanText(Abandoned) then Some(Abandoned)
    else None
  }

  function ParsePhaseStatus(c: Chars, text: string): Option<PhaseStatus> {
    var t := c.normal(text);
    if t == PhaseText(Pending) then Some(Pending)
    else if t == PhaseText(InProgress) then Some(InProgress)
    else if t == PhaseText(Done) then Some(Done)
    else None
  }

  lemma StatusReadBack(c: Chars, plan: PlanStatus, phase: PhaseStatus)
    requires Plain(c)
    ensures ParsePlanStatus(c, PlanText(plan)) == Some(plan)
    ensures ParsePhaseStatus(c, PhaseText(phase)) == Some(phase)
  {
  }

  // ---- Tags ----

  const STATUS_TAG := "status:"
  const PHASE_TAG := "phase:"
  const PHASE_STATUS_TAG := "phase-status:"

  /** The value of the first tag with the prefix; an empty one counts as none. */
  function TagValue(tags: seq<string>, prefix: string): Option<string> {
    if tags == [] then None
    else if prefix <= tags[0] then (if |tags[0]| == |prefix| then None else Some(tags[0][|prefix|..]))
    else TagValue(tags[1..], prefix)
  }

  function Retain(tags: seq<string>, prefix: string): seq<string> {
    if tags == [] then []
    else (if prefix <= tags[0] then [] else [tags[0]]) + Retain(tags[1..], prefix)
  }

  function SetTag(tags: seq<string>, prefix: string, value: string): seq<string> {
    Retain(tags, prefix) + [prefix + value]
  }

  /** No text starts with both. */
  predicate Clash(p: string, q: string) {
    exists i | 0 <= i < |p| && i < |q| :: p[i] != q[i]
  }

  lemma {:induction false} SetTagRead(tags: seq<string>, prefix: string, value: string)
    requires value != ""
    ensures TagValue(SetTag(tags, prefix, value), prefix) == Some(value)
  {
    var all := SetTag(tags, prefix, value);
    if tags == [] {
      assert all == [prefix + value];
    } else {
      SetTagRead(tags[1..], prefix, value);
      if !(prefix <= tags[0]) {
        assert all == [tags[0]] + SetTag(tags[1..], prefix, value);
      } else {
        assert all == SetTag(tags[1..], prefix, value);
      }
    }
  }

  lemma {:induction false} SetTagKeeps(tags: seq<string>, prefix: string, value: string, other: string)
    requires Clash(prefix, other)
    ensures TagValue(SetTag(tags, prefix, value), other) == TagValue(tags, other)
  {
    var all := SetTag(tags, prefix, value);
    var i :| 0 <= i < |prefix| && i < |other| && prefix[i] != other[i];
    if tags == [] {
      assert all == [prefix + value] && all[1..] == [];
      assert (prefix + value)[i] == prefix[i];
    } else {
      SetTagKeeps(tags[1..], prefix, value, other);
      if !(prefix <= tags[0]) {
        assert all == [tags[0]] + SetTag(tags[1..], prefix, value);
      } else {
        assert all == SetTag(tags[1..], prefix, value);
        assert tags[0][i] == prefix[i];
      }
    }
  }

  // ---- The rows of a plan ----

  function MetaRow(slug: string, title: string, overview: string, status: PlanStatus): Row {
    Row(MetaKey(slug), Entry(title, overview, SetTag(["plan"], STATUS_TAG, PlanText(status))))
  }

  function SectionTags(slug: string, phase: Option<nat>, status: PhaseStatus): seq<string> {
    var tags := ["plan", PLAN_PREFIX + slug];
    match phase
    case None => tags
    case Some(n) => SetTag(SetTag(tags, PHASE_TAG, Decimal(n)), PHASE_STATUS_TAG, PhaseText(status))
  }

  function PartTitle(title: string, part: nat, parts: nat): string {
    if parts > 1 then title + " (part " + Decimal(part) + "/" + Decimal(parts) + ")" else title
  }

  function Name(c: Chars, section: SectionInput): string {
    Slug(c.alnum, c.lower(section.title))
  }

  function PartRow(c: Chars, slug: string, index: nat, section: SectionInput, parts: seq<string>, k: nat): Row
    requires k < |parts|
  {
    Row(
      KeyOf(Place(slug, index, Name(c, section), k + 1, |parts|)),
      Entry(PartTitle(section.title, k + 1, |parts|), parts[k], SectionTags(slug, section.phase, section.status)))
  }

  function PartsOf(c: Chars, section: SectionInput, limit: nat): seq<string> {
    PlanChunks.Split(c.white, section.content, limit)
  }

  function PartRows(c: Chars, slug: string, index: nat, section: SectionInput, parts: seq<string>): (rows: seq<Row>)
    ensures |rows| == |parts|
    ensures forall k | 0 <= k < |rows| :: rows[k] == PartRow(c, slug, index, section, parts, k)
  {
    seq(|parts|, k requires 0 <= k < |parts| => PartRow(c, slug, index, section, parts, k))
  }

  /** The rows of the sections from `index` on. */
  function RowsFrom(c: Chars, slug: string, sections: seq<SectionInput>, index: nat, limit: nat): seq<Row>
    decreases |sections| - index
  {
    if index >= |sections| then []
    else
      PartRows(c, slug, index, sections[index], PartsOf(c, sections[index], limit)) +
      RowsFrom(c, slug, sections, index + 1, limit)
  }

  // ---- Places of rows ----

  ghost predicate IsPlace(c: Chars, slug: string, sections: seq<SectionInput>, limit: nat, p: Place) {
    && p.slug == slug && p.index < |sections|
    && p.name == Name(c, sections[p.index]) && p.parts == |PartsOf(c, sections[p.index], limit)|
    && 1 <= p.part <= p.parts
  }

  /** Two places of a plan in reading order. */
  ghost predicate Earlier(c: Chars, slug: string, sections: seq<SectionInput>, limit: nat, p: Place, q: Place) {
    && IsPlace(c, slug, sections, limit, p) && IsPlace(c, slug, sections, limit, q)
    && (p.index < q.index || (p.index == q.index && p.part < q.part))
  }

  function PlaceAt(c: Chars, slug: string, sections: seq<SectionInput>, index: nat, limit: nat, k: nat): Place
    requires index < |sections|
  {
    Place(slug, index, Name(c, sections[index]), k + 1, |PartsOf(c, sections[index], limit)|)
  }

  lemma {:induction false} PlaceOf(
    c: Chars, slug: string, sections: seq<SectionInput>, index: nat, limit: nat, k: nat)
    returns (p: Place)
    requires k < |RowsFrom(c, slug, sections, index, limit)|
    ensures IsPlace(c, slug, sections, limit, p) && p.index >= index
    ensures RowsFrom(c, slug, sections, index, limit)[k].key == KeyOf(p)
    decreases |sections| - index
  {
    var parts := PartsOf(c, sections[index], limit);
    if k < |parts| {
      p := PlaceAt(c, slug, sections, index, limit, k);
    } else {
      p := PlaceOf(c, slug, sections, index + 1, limit, k - |parts|);
    }
  }

  /** `holds` relates every key to every later one. */
  ghost predicate Pairwise(rows: seq<Row>, holds: (string, string) -> bool) {
    forall a, b | 0 <= a < b < |rows| :: holds(rows[a].key, rows[b].key)
  }

  predicate Differ(a: string, b: string) {
    a != b
  }

  lemma PairwiseConcat(x: seq<Row>, y: seq<Row>, holds: (string, string) -> bool)
    requires Pairwise(x, holds) && Pairwise(y, holds)
    requires forall a, b | 0 <= a < |x| && 0 <= b < |y| :: holds(x[a].key, y[b].key)
    ensures Pairwise(x + y, holds)
  {
  }

  /** What holds of places in reading order holds of the rows in writing order. */
  lemma {:induction false} RowsPairwise(
    c: Chars, slug: string, sections: seq<SectionInput>, index: nat, limit: nat, holds: (string, string) -> bool)
    requires forall p, q | Earlier(c, slug, sections, limit, p, q) :: holds(KeyOf(p), KeyOf(q))
    ensures Pairwise(RowsFrom(c, slug, sections, index, limit), holds)
    decreases |sections| - index
  {
    if index < |sections| {
      var x := PartRows(c, slug, index, sections[index], PartsOf(c, sections[index], limit));
      var y := RowsFrom(c, slug, sections, index + 1, limit);
      RowsPairwise(c, slug, sections, index + 1, limit, holds);
      forall a, b | 0 <= a < b < |x|
        ensures holds(x[a].key, x[b].key)
      {
        KeyAt(c, slug, sections, index, limit, a);
        KeyAt(c, slug, sections, index, limit, b);
        var p, q := PlaceAt(c, slug, sections, index, limit, a), PlaceAt(c, slug, sections, index, limit, b);
        assert Earlier(c, slug, sections, limit, p, q);
      }
      forall a, b | 0 <= a < |x| && 0 <= b < |y|
        ensures holds(x[a].key, y[b].key)
      {
        KeyAt(c, slug, sections, index, limit, a);
        var q := PlaceOf(c, slug, sections, index + 1, limit, b);
        assert Earlier(c, slug, sections, limit, PlaceAt(c, slug, sections, index, limit, a), q);
      }
      PairwiseConcat(x, y, holds);
    }
  }

  lemma KeyAt(c: Chars, slug: string, sections: seq<SectionInput>, index: nat, limit: nat, a: nat)
    requires index < |sections| && a < |PartsOf(c, sections[index], limit)|
    ensures IsPlace(c, slug, sections, limit, PlaceAt(c, slug, sections, index, limit, a))
    ensures PartRows(c, slug, index, sections[index], PartsOf(c, sections[index], limit))[a].key ==
            KeyOf(PlaceAt(c, slug, sections, index, limit, a))
  {
  }

  /** Rows of different sections, or different parts of one, have different keys. */
  lemma RowsDiffer(c: Chars, slug: string, sections: seq<SectionInput>, limit: nat)
    requires Plain(c) && WellFormed(c.alnum, slug) && |sections| <= USIZE_LIMIT
    ensures Pairwise(RowsFrom(c, slug, sections, 0, limit), Differ)
  {
    forall p, q | Earlier(c, slug, sections, limit, p, q)
      ensures Differ(KeyOf(p), KeyOf(q))
    {
      if KeyOf(p) == KeyOf(q) {
        SlugExact(c.alnum, c.lower(sections[p.index].title));
        SlugExact(c.alnum, c.lower(sections[q.index].title));
        KeyInjective(c.alnum, p, q);
      }
    }
    RowsPairwise(c, slug, sections, 0, limit, Differ);
  }

  /** At most a hundred sections, none of more than 99 parts. */
  ghost predicate Sortable(c: Chars, sections: seq<SectionInput>, limit: nat) {
    |sections| <= 100 && forall s | s in sections :: |PartsOf(c, s, limit)| <= 99
  }

  /** In a sortable plan the keys are written in text order. */
  lemma RowsAscend(c: Chars, slug: string, sections: seq<SectionInput>, limit: nat)
    requires Sortable(c, sections, limit)
    ensures Pairwise(RowsFrom(c, slug, sections, 0, limit), Before)
  {
    forall p, q | Earlier(c, slug, sections, limit, p, q)
      ensures Before(KeyOf(p), KeyOf(q))
    {
      assert sections[p.index] in sections;
      ReadingOrder(p, q);
    }
    RowsPairwise(c, slug, sections, 0, limit, Before);
  }

  // ---- The store ----

  /** Every key a query for this plan's prefix returns. */
  predicate Scoped(slug: string, key: string) {
    MetaKey(slug) <= key
  }

  /** A key of this plan: its own entry or one of its sections. */
  predicate BelongsTo(slug: string, key: string) {
    key == MetaKey(slug) || MetaKey(slug) + ":" <= key
  }

  ghost predicate HasKey(rows: seq<Row>, key: string) {
    exists i | 0 <= i < |rows| :: rows[i].key == key
  }

  /** The outcome of writing `rows` as the whole plan `slug`: under its prefix
      exactly these rows are live, and nothing else has changed. */
  ghost predicate Reconciled(before: map<string, Entry>, slug: string, rows: seq<Row>, after: map<string, Entry>) {
    && (forall k | Scoped(slug, k) :: k in after <==> HasKey(rows, k))
    && (forall i | 0 <= i < |rows| :: rows[i].key in after && after[rows[i].key] == rows[i].entry)
    && (forall k | !Scoped(slug, k) :: k in after <==> k in before)
    && (forall k | !Scoped(slug, k) && k in before :: after[k] == before[k])
  }

  function PutAll(m: map<string, Entry>, rows: seq<Row>): map<string, Entry>
    decreases |rows|
  {
    if rows == [] then m
    else PutAll(m, rows[..|rows| - 1])[rows[|rows| - 1].key := rows[|rows| - 1].entry]
  }

  lemma PutSnoc(m: map<string, Entry>, rows: seq<Row>, row: Row)
    ensures PutAll(m, rows + [row]) == PutAll(m, rows)[row.key := row.entry]
  {
    assert (rows + [row])[..|rows|] == rows;
  }

  /** After distinct puts each row is there, and every other key is as before. */
  lemma {:induction false} PutAllExact(m: map<string, Entry>, rows: seq<Row>, k: string)
    requires Pairwise(rows, Differ)
    ensures forall i | 0 <= i < |rows| ::
      rows[i].key in PutAll(m, rows) && PutAll(m, rows)[rows[i].key] == rows[i].entry
    ensures !HasKey(rows, k) ==> (k in PutAll(m, rows) <==> k in m)
    ensures !HasKey(rows, k) && k in m ==> PutAll(m, rows)[k] == m[k]
    decreases |rows|
  {
    if rows != [] {
      var front, last := rows[..|rows| - 1], rows[|rows| - 1];
      PutAllExact(m, front, k);
      forall i | 0 <= i < |front|
        ensures front[i] == rows[i] && rows[i].key != last.key
      {
        assert Differ(rows[i].key, rows[|rows| - 1].key);
      }
      assert !HasKey(rows, k) ==> last.key != k && !HasKey(front, k);
    }
  }

  lemma {:induction false} PutConcat(m: map<string, Entry>, a: seq<Row>, b: seq<Row>)
    ensures PutAll(m, a + b) == PutAll(PutAll(m, a), b)
    decreases |b|
  {
    if b == [] {
      assert a + b == a;
    } else {
      assert (a + b)[..|a + b| - 1] == a + b[..|b| - 1];
      PutConcat(m, a, b[..|b| - 1]);
    }
  }

  function Keys(rows: seq<Row>): (keys: seq<string>)
    ensures |keys| == |rows| && forall i | 0 <= i < |rows| :: keys[i] == rows[i].key
  {
    seq(|rows|, i requires 0 <= i < |rows| => rows[i].key)
  }

  lemma PutStep(m: map<string, Entry>, rows: seq<Row>, k: nat)
    requires k < |rows|
    ensures PutAll(m, rows[..k + 1]) == PutAll(m, rows[..k])[rows[k].key := rows[k].entry]
    ensures Keys(rows[..k + 1]) == Keys(rows[..k]) + [rows[k].key]
  {
    PutSnoc(m, rows[..k], rows[k]);
    assert rows[..k + 1] == rows[..k] + [rows[k]];
  }

  lemma PutNone(m: map<string, Entry>, rows: seq<Row>)
    ensures PutAll(m, rows[..0]) == m && Keys(rows[..0]) == []
  {
    assert rows[..0] == [];
  }

  /** Everything one write of a plan puts. */
  function AllRows(c: Chars, slug: string, title: string, overview: string,
                   sections: seq<SectionInput>, status: PlanStatus, limit: nat): seq<Row> {
    [MetaRow(slug, title, overview, status)] + RowsFrom(c, slug, sections, 0, limit)
  }

  // ---- What the written keys look like ----

  lemma {:induction false} UnderOwnPrefix(p: Place)
    ensures MetaKey(p.slug) + ":" <= KeyOf(p)
    ensures Scoped(p.slug, KeyOf(p)) && KeyOf(p) != MetaKey(p.slug)
  {
    KeyIsSection(p);
    var front := MetaKey(p.slug) + ":";
    assert KeyOf(p) == front + SectionRest(p.index, p.name + PartSuffix(p.part, p.parts));
    assert KeyOf(p)[..|front|] == front;
    assert KeyOf(p)[..|MetaKey(p.slug)|] == MetaKey(p.slug);
  }

  lemma AllRowsScoped(c: Chars, slug: string, title: string, overview: string,
                      sections: seq<SectionInput>, status: PlanStatus, limit: nat)
    requires Plain(c) && WellFormed(c.alnum, slug) && |sections| <= USIZE_LIMIT
    ensures var rows := AllRows(c, slug, title, overview, sections, status, limit);
      Pairwise(rows, Differ) && forall i | 0 <= i < |rows| :: Scoped(slug, rows[i].key) && BelongsTo(slug, rows[i].key)
  {
    var meta, rest := [MetaRow(slug, title, overview, status)], RowsFrom(c, slug, sections, 0, limit);
    RowsDiffer(c, slug, sections, limit);
    forall b | 0 <= b < |rest|
      ensures Differ(meta[0].key, rest[b].key) && Scoped(slug, rest[b].key) && BelongsTo(slug, rest[b].key)
    {
      var p := PlaceOf(c, slug, sections, 0, limit, b);
      UnderOwnPrefix(p);
    }
    PairwiseConcat(meta, rest, Differ);
  }

  /** Puts followed by the retirement of everything else under the prefix. */
  ghost predicate Retired(before: map<string, Entry>, slug: string, written: seq<string>, after: map<string, Entry>) {
    && (forall k :: k in after <==> k in before && (Scoped(slug, k) ==> k in written))
    && (forall k | k in after :: after[k] == before[k])
  }

  lemma PutAndRetire(before: map<string, Entry>, slug: string, rows: seq<Row>, after: map<string, Entry>)
    requires Pairwise(rows, Differ) && forall i | 0 <= i < |rows| :: Scoped(slug, rows[i].key)
    requires Retired(PutAll(before, rows), slug, Keys(rows), after)
    ensures Reconciled(before, slug, rows, after)
  {
    var put := PutAll(before, rows);
    assert forall i | 0 <= i < |rows| :: Keys(rows)[i] == rows[i].key;
    forall k
      ensures k in Keys(rows) <==> HasKey(rows, k)
      ensures !HasKey(rows, k) ==> (k in put <==> k in before) && (k in before ==> put[k] == before[k])
      ensures HasKey(rows, k) ==> k in put
    {
      PutAllExact(before, rows, k);
    }
    PutAllExact(before, rows, "");
    forall i | 0 <= i < |rows|
      ensures rows[i].key in after && after[rows[i].key] == rows[i].entry
    {
      assert HasKey(rows, rows[i].key);
    }
  }

  // ---- The operations ----

  class Store {
    var live: map<string, Entry>

    constructor ()
      ensures live == map[]
    {
      live := map[];
    }

    method Propose(key: string, entry: Entry)
      modifies this
      ensures live == old(live)[key := entry]
    {
      live := live[key := entry];
    }

    method Deprecate(key: string)
      modifies this
      ensures live == old(live) - {key}
    {
      live := live - {key};
    }

    /** The live entries whose key starts with `prefix`, each once. */
    method EntriesUnder(prefix: string) returns (rows: seq<Row>)
      ensures Lists(rows, live, prefix)
    {
      rows := [];
      var todo := set k | k in live && prefix <= k;
      while todo != {}
        invariant forall k | k in todo :: k in live && prefix <= k && !HasKey(rows, k)
        invariant Pairwise(rows, Differ)
        invariant forall r | r in rows :: r.key in live && prefix <= r.key && r.entry == live[r.key]
        invariant forall k | k in live && prefix <= k :: k in todo || HasKey(rows, k)
        decreases todo
      {
        var key :| key in todo;
        ghost var before := rows;
        rows := rows + [Row(key, live[key])];
        todo := todo - {key};
        HasKeySnoc(before, rows[|before|]);
      }
    }

    method WriteSection(c: Chars, slug: string, index: nat, section: SectionInput, limit: nat)
      returns (written: seq<string>)
      modifies this
      ensures var rows := PartRows(c, slug, index, section, PartsOf(c, section, limit));
        live == PutAll(old(live), rows) && written == Keys(rows)
    {
      var parts := PlanChunks.SplitSection(c.white, section.content, limit);
      ghost var rows := PartRows(c, slug, index, section, parts);
      written := [];
      PutNone(live, rows);
      for k := 0 to |parts|
        invariant live == PutAll(old(live), rows[..k])
        invariant written == Keys(rows[..k])
      {
        var row := PartRow(c, slug, index, section, parts, k);
        assert row == rows[k];
        PutStep(old(live), rows, k);
        Propose(row.key, row.entry);
        written := written + [row.key];
      }
      assert rows[..|parts|] == rows;
    }

    /** Drop what is under the plan's prefix and was not just written. */
    method RetireStale(slug: string, written: seq<string>)
      modifies this
      ensures Retired(old(live), slug, written, live)
    {
      var rows := EntriesUnder(MetaKey(slug));
      for i := 0 to |rows|
        invariant forall k :: k in live <==> k in old(live) && (HasKey(rows[..i], k) ==> k in written)
        invariant forall k | k in live :: live[k] == old(live)[k]
      {
        assert rows[..i + 1] == rows[..i] + [rows[i]];
        HasKeySnoc(rows[..i], rows[i]);
        if rows[i].key !in written {
          Deprecate(rows[i].key);
        }
      }
      assert rows[..|rows|] == rows;
    }

    /** Put a plan's own entry and those of its sections. */
    method WritePlan(c: Chars, slug: string, title: string, overview: string,
                     sections: seq<SectionInput>, status: PlanStatus, limit: nat)
      returns (written: seq<string>)
      modifies this
      ensures var rows := AllRows(c, slug, title, overview, sections, status, limit);
        live == PutAll(old(live), rows) && written == Keys(rows)
    {
      var meta := MetaRow(slug, title, overview, status);
      ghost var done, todo := [meta], RowsFrom(c, slug, sections, 0, limit);
      PutStep(live, [meta], 0);
      assert [meta][..1] == [meta] && [meta][..0] == [];
      Propose(meta.key, meta.entry);
      written := [meta.key];
      for index := 0 to |sections|
        invariant live == PutAll(old(live), done) && written == Keys(done)
        invariant todo == RowsFrom(c, slug, sections, index, limit)
        invariant done + todo == AllRows(c, slug, title, overview, sections, status, limit)
      {
        ghost var rows := PartRows(c, slug, index, sections[index], PartsOf(c, sections[index], limit));
        todo := RowsFrom(c, slug, sections, index + 1, limit);
        Assoc(done, rows, todo);
        PutConcat(old(live), done, rows);
        var keys := WriteSection(c, slug, index, sections[index], limit);
        written := written + keys;
        KeysConcat(done, rows);
        done := done + rows;
      }
      assert done + [] == done;
    }

    /** Create or replace a plan. Whatever was live before: under the plan's prefix
        exactly the entries of this version are live, and no other key changes. */
    method CreatePlan(c: Chars, title: string, slug: Option<string>, overview: string,
                      sections: seq<SectionInput>, status: PlanStatus, limit: nat)
      returns (used: string, count: nat)
      requires Plain(c) && |sections| <= USIZE_LIMIT
      modifies this
      ensures used == Slug(c.alnum, c.lower(if slug.Some? then slug.value else title))
      ensures var rows := AllRows(c, used, title, overview, sections, status, limit);
        count == |rows| && Reconciled(old(live), used, rows, live)
    {
      used := Slugify(c.alnum, c.lower(if slug.Some? then slug.value else title));
      var written := WritePlan(c, used, title, overview, sections, status, limit);
      RetireStale(used, written);
      count := |written|;
      SlugExact(c.alnum, c.lower(if slug.Some? then slug.value else title));
      AllRowsScoped(c, used, title, overview, sections, status, limit);
      PutAndRetire(old(live), used, AllRows(c, used, title, overview, sections, status, limit), live);
    }

    /** Read one plan back. */
    method GetPlan(c: Chars, slug: string) returns (doc: Option<Document>)
      ensures IsPlan(c, slug, live, doc)
    {
      var rows := EntriesUnder(MetaKey(slug));
      doc := PlanFromEntries(c, slug, rows, live, MetaKey(slug));
    }
  }

  lemma KeysConcat(a: seq<Row>, b: seq<Row>)
    ensures Keys(a + b) == Keys(a) + Keys(b)
  {
  }

  /** `rows` are the entries of `live` under `prefix`, each once. */
  ghost predicate Lists(rows: seq<Row>, live: map<string, Entry>, prefix: string) {
    && Pairwise(rows, Differ)
    && (forall r | r in rows :: r.key in live && prefix <= r.key && r.entry == live[r.key])
    && (forall k | k in live && prefix <= k :: HasKey(rows, k))
  }

  lemma HasKeySnoc(rows: seq<Row>, row: Row)
    ensures forall k :: HasKey(rows + [row], k) <==> HasKey(rows, k) || k == row.key
  {
    var more := rows + [row];
    forall k
      ensures HasKey(more, k) <==> HasKey(rows, k) || k == row.key
    {
      if HasKey(rows, k) {
        var i :| 0 <= i < |rows| && rows[i].key == k;
        assert more[i].key == k;
      }
      assert more[|rows|].key == row.key;
    }
  }

  // ---- Reading ----

  function PhaseOf(tags: seq<string>): Option<nat> {
    match TagValue(tags, PHASE_TAG)
    case None => None
    case Some(text) => ParseUsize(text)
  }

  function StatusOf(c: Chars, tags: seq<string>): PhaseStatus {
    match TagValue(tags, PHASE_STATUS_TAG)
    case None => Pending
    case Some(text) => if ParsePhaseStatus(c, text).Some? then ParsePhaseStatus(c, text).value else Pending
  }

  function PlanStatusOf(c: Chars, tags: seq<string>): PlanStatus {
    match TagValue(tags, STATUS_TAG)
    case None => Draft
    case Some(text) => if ParsePlanStatus(c, text).Some? then ParsePlanStatus(c, text).value else Draft
  }

  /** None for a key with no section number in it, such as a plan's own key. */
  function SectionFrom(c: Chars, key: string, entry: Entry): Option<PlanSection> {
    match IndexOf(key)
    case None => None
    case Some(index) =>
      Some(PlanSection(key, index, entry.title, entry.content, PhaseOf(entry.tags), StatusOf(c, entry.tags)))
  }

  ghost predicate Ascending(sections: seq<PlanSection>) {
    forall i, j | 0 <= i < j < |sections| :: Before(sections[i].key, sections[j].key)
  }

  ghost predicate IsSection(c: Chars, slug: string, live: map<string, Entry>, s: PlanSection) {
    s.key in live && BelongsTo(slug, s.key) && SectionFrom(c, s.key, live[s.key]) == Some(s)
  }

  /** What the live entries say about a plan: nothing without its own entry; else
      that entry's fields and its sections, all of them, in text order of keys. */
  ghost predicate IsPlan(c: Chars, slug: string, live: map<string, Entry>, doc: Option<Document>) {
    match doc
    case None => MetaKey(slug) !in live
    case Some(d) =>
      && MetaKey(slug) in live && d.slug == slug
      && d.title == live[MetaKey(slug)].title && d.overview == live[MetaKey(slug)].content
      && d.status == PlanStatusOf(c, live[MetaKey(slug)].tags)
      && Ascending(d.sections)
      && forall s :: s in d.sections <==> IsSection(c, slug, live, s)
  }

  function Insert(sections: seq<PlanSection>, s: PlanSection): seq<PlanSection> {
    if sections == [] || Before(s.key, sections[0].key) then [s] + sections
    else [sections[0]] + Insert(sections[1..], s)
  }

  lemma HeadAscending(s: PlanSection, rest: seq<PlanSection>)
    requires Ascending(rest) && forall t | t in rest :: Before(s.key, t.key)
    ensures Ascending([s] + rest)
  {
    var all := [s] + rest;
    assert forall i | 0 < i < |all| :: all[i] == rest[i - 1] && all[i] in rest;
  }

  lemma BeforeTail(sections: seq<PlanSection>)
    requires Ascending(sections) && sections != []
    ensures Ascending(sections[1..]) && forall t | t in sections[1..] :: Before(sections[0].key, t.key)
  {
  }

  lemma {:induction false} InsertHolds(sections: seq<PlanSection>, s: PlanSection, t: PlanSection)
    ensures t in Insert(sections, s) <==> t == s || t in sections
  {
    if sections != [] && !Before(s.key, sections[0].key) {
      InsertHolds(sections[1..], s, t);
      assert sections == [sections[0]] + sections[1..];
    }
  }

  lemma {:induction false} InsertAscending(sections: seq<PlanSection>, s: PlanSection)
    requires Ascending(sections) && forall t | t in sections :: t.key != s.key
    ensures Ascending(Insert(sections, s))
  {
    if sections == [] {
    } else if Before(s.key, sections[0].key) {
      BeforeTail(sections);
      forall t | t in sections
        ensures Before(s.key, t.key)
      {
        if t != sections[0] {
          BeforeTransitive(s.key, sections[0].key, t.key);
        }
      }
      HeadAscending(s, sections);
    } else {
      var head, rest := sections[0], sections[1..];
      BeforeTail(sections);
      assert forall t | t in rest :: t in sections;
      InsertAscending(rest, s);
      BeforeTotal(s.key, head.key);
      forall t | t in Insert(rest, s)
        ensures Before(head.key, t.key)
      {
        InsertHolds(rest, s, t);
      }
      HeadAscending(head, Insert(rest, s));
    }
  }

  /** Take a row in if it is a section of this plan, in key order. */
  function Gather(c: Chars, slug: string, row: Row, sections: seq<PlanSection>): seq<PlanSection> {
    var found := if BelongsTo(slug, row.key) then SectionFrom(c, row.key, row.entry) else None;
    if found.Some? then Insert(sections, found.value) else sections
  }

  method CollectSections(c: Chars, slug: string, rows: seq<Row>, ghost live: map<string, Entry>, ghost prefix: string)
    returns (sections: seq<PlanSection>)
    requires Lists(rows, live, prefix)
    ensures Collected(c, slug, live, rows, |rows|, sections)
  {
    sections := [];
    for i := 0 to |rows|
      invariant Collected(c, slug, live, rows, i, sections)
    {
      CollectStep(c, slug, live, prefix, rows, i, sections);
      sections := Gather(c, slug, rows[i], sections);
    }
  }

  ghost predicate Collected(c: Chars, slug: string, live: map<string, Entry>, rows: seq<Row>, i: nat,
                            sections: seq<PlanSection>)
    requires i <= |rows|
  {
    && Ascending(sections)
    && (forall s | s in sections :: IsSection(c, slug, live, s) && HasKey(rows[..i], s.key))
    && forall j | 0 <= j < i :: Gathered(c, slug, rows[j], sections)
  }

  lemma CollectStep(c: Chars, slug: string, live: map<string, Entry>, prefix: string, rows: seq<Row>, i: nat,
                    sections: seq<PlanSection>)
    requires i < |rows| && Collected(c, slug, live, rows, i, sections) && Lists(rows, live, prefix)
    ensures Collected(c, slug, live, rows, i + 1, Gather(c, slug, rows[i], sections))
  {
    KeySeen(rows, i);
    var found := SectionFrom(c, rows[i].key, rows[i].entry);
    if BelongsTo(slug, rows[i].key) && found.Some? {
      InsertAscending(sections, found.value);
      forall t
        ensures t in Insert(sections, found.value) <==> t == found.value || t in sections
      {
        InsertHolds(sections, found.value, t);
      }
    }
  }

  lemma KeySeen(rows: seq<Row>, i: nat)
    requires i < |rows| && Pairwise(rows, Differ)
    ensures !HasKey(rows[..i], rows[i].key) && HasKey(rows[..i + 1], rows[i].key) && rows[i] in rows
    ensures forall k :: HasKey(rows[..i], k) ==> HasKey(rows[..i + 1], k)
  {
    forall j | 0 <= j < i
      ensures rows[j].key != rows[i].key
    {
      assert Differ(rows[j].key, rows[i].key);
    }
    HasKeySnoc(rows[..i], rows[i]);
    assert rows[..i + 1] == rows[..i] + [rows[i]];
  }

  method PlanFromEntries(c: Chars, slug: string, rows: seq<Row>, ghost live: map<string, Entry>, ghost prefix: string)
    returns (doc: Option<Document>)
    requires Lists(rows, live, prefix) && prefix <= MetaKey(slug)
    ensures IsPlan(c, slug, live, doc)
  {
    var m := 0;
    while m < |rows| && rows[m].key != MetaKey(slug)
      invariant m <= |rows| && forall i | 0 <= i < m :: rows[i].key != MetaKey(slug)
    {
      m := m + 1;
    }
    if m == |rows| {
      return None;
    }
    var meta := rows[m].entry;
    var sections := CollectSections(c, slug, rows, live, prefix);
    assert rows[m] in rows;
    forall s | IsSection(c, slug, live, s)
      ensures s in sections
    {
      AllGathered(c, slug, rows, live, prefix, sections, s);
    }
    doc := Some(Document(slug, meta.title, meta.content, PlanStatusOf(c, meta.tags), sections));
  }

  lemma AllGathered(c: Chars, slug: string, rows: seq<Row>, live: map<string, Entry>, prefix: string,
                    sections: seq<PlanSection>, s: PlanSection)
    requires Lists(rows, live, prefix) && prefix <= MetaKey(slug)
    requires Collected(c, slug, live, rows, |rows|, sections) && IsSection(c, slug, live, s)
    ensures s in sections
  {
    KeyUnderPrefix(slug, s.key, prefix);
    var j :| 0 <= j < |rows| && rows[j].key == s.key;
    assert rows[j] in rows;
  }

  ghost predicate Gathered(c: Chars, slug: string, row: Row, sections: seq<PlanSection>) {
    BelongsTo(slug, row.key) && SectionFrom(c, row.key, row.entry).Some? ==>
      SectionFrom(c, row.key, row.entry).value in sections
  }

  lemma KeyUnderPrefix(slug: string, key: string, prefix: string)
    requires BelongsTo(slug, key) && prefix <= MetaKey(slug)
    ensures prefix <= key
  {
    assert MetaKey(slug) <= MetaKey(slug) + ":";
  }

  // ---- What is written is what is read ----

  lemma {:induction false} AscendingUnique(x: seq<PlanSection>, y: seq<PlanSection>)
    requires Ascending(x) && Ascending(y) && forall s :: s in x <==> s in y
    ensures x == y
    decreases |x|
  {
    assert x != [] ==> x[0] in x;
    assert y != [] ==> y[0] in y;
    if x != [] {
      BeforeTail(x);
      BeforeTail(y);
      SameLeast(x, y);
      forall s
        ensures s in x[1..] <==> s in x && s != x[0]
        ensures s in y[1..] <==> s in y && s != y[0]
      {
        BeforeIrreflexive(x[0].key);
        assert x == [x[0]] + x[1..] && y == [y[0]] + y[1..];
      }
      AscendingUnique(x[1..], y[1..]);
      assert x == [x[0]] + x[1..] && y == [y[0]] + y[1..];
    }
  }

  lemma SameLeast(x: seq<PlanSection>, y: seq<PlanSection>)
    requires x != [] && y != [] && Ascending(x) && Ascending(y)
    requires x[0] in y && y[0] in x
    ensures x[0] == y[0]
  {
    var i :| 0 <= i < |x| && x[i] == y[0];
    var j :| 0 <= j < |y| && y[j] == x[0];
    if i > 0 {
      BeforeAsymmetric(x[0].key, x[i].key);
    }
  }

  /** The live entries of a plan's own keys decide how it is read. */
  lemma PlanUnique(c: Chars, slug: string, live: map<string, Entry>, other: map<string, Entry>,
                   a: Option<Document>, b: Option<Document>)
    requires IsPlan(c, slug, live, a) && IsPlan(c, slug, other, b)
    requires forall k | BelongsTo(slug, k) :: (k in live <==> k in other) && (k in live ==> live[k] == other[k])
    ensures a == b
  {
    assert BelongsTo(slug, MetaKey(slug));
    if a.Some? {
      AscendingUnique(a.value.sections, b.value.sections);
    }
  }

  /** What a section input should come back as, one document section for each part. */
  function Expected(c: Chars, slug: string, sections: seq<SectionInput>, index: nat, limit: nat): seq<PlanSection>
    decreases |sections| - index
  {
    if index >= |sections| then []
    else
      var parts := PartsOf(c, sections[index], limit);
      ExpectedParts(c, slug, index, sections[index], parts) + Expected(c, slug, sections, index + 1, limit)
  }

  function ExpectedParts(c: Chars, slug: string, index: nat, section: SectionInput, parts: seq<string>)
    : (read: seq<PlanSection>)
    ensures |read| == |parts|
    ensures forall k | 0 <= k < |read| :: read[k] == ExpectedPart(c, slug, index, section, parts, k)
  {
    seq(|parts|, k requires 0 <= k < |parts| => ExpectedPart(c, slug, index, section, parts, k))
  }

  function ExpectedPart(c: Chars, slug: string, index: nat, section: SectionInput, parts: seq<string>, k: nat)
    : PlanSection
    requires k < |parts|
  {
    PlanSection(
      KeyOf(Place(slug, index, Name(c, section), k + 1, |parts|)), index,
      PartTitle(section.title, k + 1, |parts|), parts[k],
      section.phase, if section.phase.Some? then section.status else Pending)
  }

  /** The tags written for a section say its phase and, if it has one, its status. */
  lemma TagsReadBack(c: Chars, slug: string, phase: Option<nat>, status: PhaseStatus)
    requires Plain(c) && (phase.Some? ==> phase.value < USIZE_LIMIT)
    ensures PhaseOf(SectionTags(slug, phase, status)) == phase
    ensures StatusOf(c, SectionTags(slug, phase, status)) == if phase.Some? then status else Pending
  {
    if phase.Some? {
      PhaseTagRead(slug, phase.value, status);
      StatusTagRead(c, slug, phase.value, status);
    } else {
      BaseTagsSilent(slug);
    }
  }

  lemma PhaseTagRead(slug: string, n: nat, status: PhaseStatus)
    requires n < USIZE_LIMIT
    ensures PhaseOf(SectionTags(slug, Some(n), status)) == Some(n)
  {
    var base := ["plan", PLAN_PREFIX + slug];
    SetTagRead(base, PHASE_TAG, Decimal(n));
    TagsClash();
    SetTagKeeps(SetTag(base, PHASE_TAG, Decimal(n)), PHASE_STATUS_TAG, PhaseText(status), PHASE_TAG);
    DecimalValue(n);
  }

  lemma StatusTagRead(c: Chars, slug: string, n: nat, status: PhaseStatus)
    requires Plain(c)
    ensures StatusOf(c, SectionTags(slug, Some(n), status)) == status
  {
    var one := SetTag(["plan", PLAN_PREFIX + slug], PHASE_TAG, Decimal(n));
    SetTagRead(one, PHASE_STATUS_TAG, PhaseText(status));
    StatusReadBack(c, Draft, status);
  }

  lemma TagsClash()
    ensures Clash(PHASE_STATUS_TAG, PHASE_TAG)
  {
    assert PHASE_STATUS_TAG[5] == '-' && PHASE_TAG[5] == ':';
  }

  lemma BaseTagsSilent(slug: string)
    ensures TagValue(["plan", PLAN_PREFIX + slug], PHASE_TAG) == None
    ensures TagValue(["plan", PLAN_PREFIX + slug], PHASE_STATUS_TAG) == None
  {
    var one := PLAN_PREFIX + slug;
    assert one[1] == PLAN_PREFIX[1];
    NoTag("plan", one, PHASE_TAG);
    NoTag("plan", one, PHASE_STATUS_TAG);
  }

  lemma NoTag(a: string, b: string, prefix: string)
    requires |a| > 1 && |b| > 1 && |prefix| > 1 && a[1] != prefix[1] && b[1] != prefix[1]
    ensures TagValue([a, b], prefix) == None
  {
    assert [a, b][1..] == [b] && [b][1..] == [];
    assert TagValue([b], prefix) == TagValue([], prefix);
  }

  lemma PartReadBack(c: Chars, slug: string, index: nat, section: SectionInput, parts: seq<string>, k: nat)
    requires Plain(c) && WellFormed(c.alnum, slug) && index < USIZE_LIMIT && k < |parts|
    requires section.phase.Some? ==> section.phase.value < USIZE_LIMIT
    ensures var row := PartRow(c, slug, index, section, parts, k);
      SectionFrom(c, row.key, row.entry) == Some(ExpectedPart(c, slug, index, section, parts, k))
  {
    KeyReadBack(c.alnum, slug, index, Name(c, section), k + 1, |parts|);
    TagsReadBack(c, slug, section.phase, section.status);
  }

  /** Phase numbers are machine integers. */
  predicate PhasesFit(sections: seq<SectionInput>) {
    forall s | s in sections :: s.phase.Some? ==> s.phase.value < USIZE_LIMIT
  }

  lemma {:induction false} RowsReadBack(c: Chars, slug: string, sections: seq<SectionInput>, index: nat, limit: nat)
    requires Plain(c) && WellFormed(c.alnum, slug) && |sections| <= USIZE_LIMIT && PhasesFit(sections)
    ensures var rows, read := RowsFrom(c, slug, sections, index, limit), Expected(c, slug, sections, index, limit);
      |rows| == |read| &&
      forall k | 0 <= k < |rows| :: SectionFrom(c, rows[k].key, rows[k].entry) == Some(read[k])
    decreases |sections| - index
  {
    if index < |sections| {
      RowsReadBack(c, slug, sections, index + 1, limit);
      var parts := PartsOf(c, sections[index], limit);
      assert sections[index] in sections;
      forall k | 0 <= k < |parts|
        ensures var row := PartRow(c, slug, index, sections[index], parts, k);
          SectionFrom(c, row.key, row.entry) == Some(ExpectedPart(c, slug, index, sections[index], parts, k))
      {
        PartReadBack(c, slug, index, sections[index], parts, k);
      }
    }
  }

  lemma MetaIsNoSection(c: Chars, slug: string, entry: Entry)
    requires Plain(c) && WellFormed(c.alnum, slug)
    ensures SectionFrom(c, MetaKey(slug), entry) == None
  {
    MetaReadBack(c.alnum, slug);
  }

  lemma MetaTagsReadBack(c: Chars, slug: string, title: string, overview: string, status: PlanStatus)
    requires Plain(c)
    ensures PlanStatusOf(c, MetaRow(slug, title, overview, status).entry.tags) == status
  {
    SetTagRead(["plan"], STATUS_TAG, PlanText(status));
    StatusReadBack(c, status, Pending);
  }

  lemma ReadIsExpected(c: Chars, slug: string, sections: seq<SectionInput>, limit: nat, meta: Row,
                       before: map<string, Entry>, after: map<string, Entry>, s: PlanSection)
    requires Plain(c) && WellFormed(c.alnum, slug) && |sections| <= USIZE_LIMIT && PhasesFit(sections)
    requires meta.key == MetaKey(slug)
    requires Reconciled(before, slug, [meta] + RowsFrom(c, slug, sections, 0, limit), after)
    requires IsSection(c, slug, after, s)
    ensures s in Expected(c, slug, sections, 0, limit)
  {
    var rest, read := RowsFrom(c, slug, sections, 0, limit), Expected(c, slug, sections, 0, limit);
    var rows := [meta] + rest;
    KeyUnderPrefix(slug, s.key, MetaKey(slug));
    MetaIsNoSection(c, slug, meta.entry);
    var i := RowOf(slug, rows, before, after, s.key);
    RowsReadBack(c, slug, sections, 0, limit);
    assert i > 0 ==> rows[i] == rest[i - 1];
    assert Some(read[i - 1]) == Some(s);
  }

  lemma RowOf(slug: string, rows: seq<Row>, before: map<string, Entry>, after: map<string, Entry>, key: string)
    returns (i: nat)
    requires Reconciled(before, slug, rows, after) && Scoped(slug, key) && key in after
    ensures i < |rows| && rows[i].key == key && after[key] == rows[i].entry
  {
    i :| 0 <= i < |rows| && rows[i].key == key;
  }

  lemma ExpectedIsRead(c: Chars, slug: string, sections: seq<SectionInput>, limit: nat, meta: Row,
                       before: map<string, Entry>, after: map<string, Entry>, k: nat)
    requires Plain(c) && WellFormed(c.alnum, slug) && |sections| <= USIZE_LIMIT && PhasesFit(sections)
    requires Reconciled(before, slug, [meta] + RowsFrom(c, slug, sections, 0, limit), after)
    requires k < |Expected(c, slug, sections, 0, limit)|
    ensures IsSection(c, slug, after, Expected(c, slug, sections, 0, limit)[k])
  {
    var rest := RowsFrom(c, slug, sections, 0, limit);
    var rows := [meta] + rest;
    RowsReadBack(c, slug, sections, 0, limit);
    assert rows[k + 1] == rest[k];
    RowLive(slug, rows, before, after, k + 1);
    var p := PlaceOf(c, slug, sections, 0, limit, k);
    UnderOwnPrefix(p);
  }

  /** The sections read after a write are the ones written, in any order. */
  lemma SectionsAreExpected(c: Chars, slug: string, sections: seq<SectionInput>, limit: nat, meta: Row,
                            before: map<string, Entry>, after: map<string, Entry>, s: PlanSection)
    requires Plain(c) && WellFormed(c.alnum, slug) && |sections| <= USIZE_LIMIT && PhasesFit(sections)
    requires meta.key == MetaKey(slug)
    requires Reconciled(before, slug, [meta] + RowsFrom(c, slug, sections, 0, limit), after)
    ensures IsSection(c, slug, after, s) <==> s in Expected(c, slug, sections, 0, limit)
  {
    var read := Expected(c, slug, sections, 0, limit);
    if IsSection(c, slug, after, s) {
      ReadIsExpected(c, slug, sections, limit, meta, before, after, s);
    }
    if s in read {
      var k :| 0 <= k < |read| && read[k] == s;
      ExpectedIsRead(c, slug, sections, limit, meta, before, after, k);
    }
  }

  lemma RowLive(slug: string, rows: seq<Row>, before: map<string, Entry>, after: map<string, Entry>, i: nat)
    requires i < |rows| && Reconciled(before, slug, rows, after)
    ensures rows[i].key in after && after[rows[i].key] == rows[i].entry
  {
  }

  /** Reading a plan right after writing it, over any earlier contents: every part
      of every section comes back, and nothing else; and in a sortable plan they
      come back in the order they were written in. */
  lemma WrittenIsRead(c: Chars, slug: string, title: string, overview: string, sections: seq<SectionInput>,
                      status: PlanStatus, limit: nat, before: map<string, Entry>, after: map<string, Entry>,
                      doc: Option<Document>)
    requires Plain(c) && WellFormed(c.alnum, slug) && |sections| <= USIZE_LIMIT && PhasesFit(sections)
    requires Reconciled(before, slug, AllRows(c, slug, title, overview, sections, status, limit), after)
    requires IsPlan(c, slug, after, doc)
    ensures doc.Some? && doc.value.title == title && doc.value.overview == overview && doc.value.status == status
    ensures forall s :: s in doc.value.sections <==> s in Expected(c, slug, sections, 0, limit)
    ensures Sortable(c, sections, limit) ==>
      doc == Some(Document(slug, title, overview, status, Expected(c, slug, sections, 0, limit)))
  {
    var meta, rest := MetaRow(slug, title, overview, status), RowsFrom(c, slug, sections, 0, limit);
    var rows := AllRows(c, slug, title, overview, sections, status, limit);
    assert rows[0] == meta;
    assert HasKey(rows, MetaKey(slug)) && after[rows[0].key] == rows[0].entry;
    MetaTagsReadBack(c, slug, title, overview, status);
    forall s
      ensures s in doc.value.sections <==> s in Expected(c, slug, sections, 0, limit)
    {
      SectionsAreExpected(c, slug, sections, limit, meta, before, after, s);
    }
    if Sortable(c, sections, limit) {
      ExpectedAscends(c, slug, sections, limit);
      AscendingUnique(doc.value.sections, Expected(c, slug, sections, 0, limit));
    }
  }

  lemma ExpectedAscends(c: Chars, slug: string, sections: seq<SectionInput>, limit: nat)
    requires Plain(c) && WellFormed(c.alnum, slug) && Sortable(c, sections, limit) && PhasesFit(sections)
    ensures Ascending(Expected(c, slug, sections, 0, limit))
  {
    var rows, read := RowsFrom(c, slug, sections, 0, limit), Expected(c, slug, sections, 0, limit);
    RowsAscend(c, slug, sections, limit);
    RowsReadBack(c, slug, sections, 0, limit);
    forall i, j | 0 <= i < j < |read|
      ensures Before(read[i].key, read[j].key)
    {
      assert read[i].key == rows[i].key && read[j].key == rows[j].key;
    }
  }

  // ---- Spelled out ----

  function PhaseWord(status: PhaseStatus): string {
    if status.Pending? then "pending" else if status.Done? then "done" else "in-progress"
  }

  /** One part of one section, as it is stored. */
  predicate StoredAs(c: Chars, slug: string, index: nat, section: SectionInput, parts: seq<string>, k: nat, row: Row)
    requires k < |parts|
  {
    && row.key == "plan:" + slug + ":" + (if index < 10 then "0" else "") + Decimal(index) + "-" +
                  Slug(c.alnum, c.lower(section.title)) +
                  (if |parts| > 1 then "--p" + (if k + 1 < 10 then "0" else "") + Decimal(k + 1) else "")
    && row.entry.title ==
         (if |parts| > 1 then section.title + " (part " + Decimal(k + 1) + "/" + Decimal(|parts|) + ")"
          else section.title)
    && row.entry.content == parts[k]
    && row.entry.tags == ["plan", "plan:" + slug] +
         (if section.phase.None? then []
          else ["phase:" + Decimal(section.phase.value), "phase-status:" + PhaseWord(section.status)])
  }

  /** And as it is read. */
  predicate ReadAs(index: nat, section: SectionInput, parts: seq<string>, k: nat, row: Row, read: PlanSection)
    requires k < |parts|
  {
    && read.key == row.key && read.index == index && read.title == row.entry.title && read.content == parts[k]
    && read.phase == section.phase
    && read.status == (if section.phase.Some? then section.status else Pending)
  }

  lemma PaddedSpelled(n: nat)
    ensures Pad2(n) == (if n < 10 then "0" else "") + Decimal(n)
  {
    assert [Digit(0)] == "0";
  }

  lemma KeySpelled(c: Chars, slug: string, index: nat, name: string, k: nat, parts: nat)
    ensures KeyOf(Place(slug, index, name, k + 1, parts)) ==
            "plan:" + slug + ":" + (if index < 10 then "0" else "") + Decimal(index) + "-" + name +
            (if parts > 1 then "--p" + (if k + 1 < 10 then "0" else "") + Decimal(k + 1) else "")
  {
    PaddedSpelled(index);
    PaddedSpelled(k + 1);
    var pad := if index < 10 then "0" else "";
    var front := "plan:" + slug + ":";
    Assoc(front, pad + Decimal(index) + "-", name);
    Assoc(front, pad + Decimal(index), "-");
    Assoc(front, pad, Decimal(index));
    Assoc(front + pad + Decimal(index) + "-" + name, "--p", Pad2(k + 1));
    var more := if k + 1 < 10 then "0" else "";
    Assoc("--p", more, Decimal(k + 1));
  }

  lemma NoneRetained(a: string, b: string, prefix: string)
    requires !(prefix <= a) && !(prefix <= b)
    ensures Retain([a, b], prefix) == [a, b]
  {
    assert [a, b][1..] == [b] && [b][1..] == [];
    assert Retain([b], prefix) == [b] + Retain([], prefix);
  }

  lemma TagsSpelled(slug: string, n: nat, status: PhaseStatus)
    ensures SectionTags(slug, Some(n), status) ==
            ["plan", "plan:" + slug] + ["phase:" + Decimal(n), "phase-status:" + PhaseWord(status)]
    ensures SectionTags(slug, None, status) == ["plan", "plan:" + slug]
  {
    var a, b, phase := "plan", "plan:" + slug, PHASE_TAG + Decimal(n);
    assert b[1] == 'l' && PHASE_TAG[1] == 'h' && PHASE_STATUS_TAG[1] == 'h';
    assert phase[5] == ':' && PHASE_STATUS_TAG[5] == '-';
    TwoTags(a, b, PHASE_TAG, Decimal(n), PHASE_STATUS_TAG, PhaseText(status));
  }

  lemma TwoTags(a: string, b: string, first: string, v: string, second: string, w: string)
    requires !(first <= a) && !(first <= b) && !(second <= a) && !(second <= b) && !(second <= first + v)
    ensures SetTag(SetTag([a, b], first, v), second, w) == [a, b] + [first + v, second + w]
  {
    var one := first + v;
    NoneRetained(a, b, first);
    assert [a, b] + [one] == [a, b, one] && [a, b, one][1..] == [b, one];
    NoneRetained(b, one, second);
    assert Retain([a, b, one], second) == [a] + [b, one];
  }

  lemma RowSpelled(c: Chars, slug: string, index: nat, section: SectionInput, parts: seq<string>, k: nat)
    requires k < |parts|
    ensures StoredAs(c, slug, index, section, parts, k, PartRow(c, slug, index, section, parts, k))
    ensures ReadAs(index, section, parts, k, PartRow(c, slug, index, section, parts, k),
                   ExpectedPart(c, slug, index, section, parts, k))
  {
    KeySpelled(c, slug, index, Name(c, section), k, |parts|);
    if section.phase.Some? {
      TagsSpelled(slug, section.phase.value, section.status);
    } else {
      TagsSpelled(slug, 0, section.status);
    }
  }

  /** One part of a section, as it is stored and as it is read, in the two lists. */
  ghost predicate Listed(c: Chars, slug: string, index: nat, section: SectionInput, parts: seq<string>, k: nat,
                         rows: seq<Row>, read: seq<PlanSection>, r: nat)
    requires k < |parts|
  {
    && r < |rows| == |read|
    && StoredAs(c, slug, index, section, parts, k, rows[r])
    && ReadAs(index, section, parts, k, rows[r], read[r])
  }

  lemma ListedHere(c: Chars, slug: string, sections: seq<SectionInput>, index: nat, limit: nat,
                   parts: seq<string>, k: nat)
    requires index < |sections| && parts == PartsOf(c, sections[index], limit) && k < |parts|
    requires |RowsFrom(c, slug, sections, index + 1, limit)| == |Expected(c, slug, sections, index + 1, limit)|
    ensures Listed(c, slug, index, sections[index], parts, k,
                   RowsFrom(c, slug, sections, index, limit), Expected(c, slug, sections, index, limit), k)
  {
    RowSpelled(c, slug, index, sections[index], parts, k);
    assert RowsFrom(c, slug, sections, index, limit)[k] == PartRow(c, slug, index, sections[index], parts, k);
    assert Expected(c, slug, sections, index, limit)[k] == ExpectedPart(c, slug, index, sections[index], parts, k);
  }

  lemma ListedLater(c: Chars, slug: string, index: nat, section: SectionInput, parts: seq<string>, k: nat,
                    x: seq<Row>, rows: seq<Row>, y: seq<PlanSection>, read: seq<PlanSection>, r: nat)
    requires k < |parts| && |x| == |y| && Listed(c, slug, index, section, parts, k, rows, read, r)
    ensures Listed(c, slug, index, section, parts, k, x + rows, y + read, |x| + r)
  {
    assert (x + rows)[|x| + r] == rows[r] && (y + read)[|x| + r] == read[r];
  }

  lemma Unrolled(c: Chars, slug: string, sections: seq<SectionInput>, from: nat, limit: nat, x: seq<Row>,
                 y: seq<PlanSection>)
    requires from < |sections|
    requires x == PartRows(c, slug, from, sections[from], PartsOf(c, sections[from], limit))
    requires y == ExpectedParts(c, slug, from, sections[from], PartsOf(c, sections[from], limit))
    ensures RowsFrom(c, slug, sections, from, limit) == x + RowsFrom(c, slug, sections, from + 1, limit)
    ensures Expected(c, slug, sections, from, limit) == y + Expected(c, slug, sections, from + 1, limit)
    ensures |x| == |y|
  {
  }

  /** Every part of every section is among what is written, under the key, title and
      tags its place calls for, and among what is read. */
  lemma {:induction false} PartSpelled(
    c: Chars, slug: string, sections: seq<SectionInput>, from: nat, limit: nat, index: nat, parts: seq<string>, k: nat)
    returns (r: nat)
    requires from <= index < |sections|
    requires parts == PlanChunks.Split(c.white, sections[index].content, limit) && k < |parts|
    ensures Listed(c, slug, index, sections[index], parts, k,
                   RowsFrom(c, slug, sections, from, limit), Expected(c, slug, sections, from, limit), r)
    decreases |sections| - from
  {
    if index == from {
      SameLengths(c, slug, sections, from + 1, limit);
      ListedHere(c, slug, sections, from, limit, parts, k);
      r := k;
    } else {
      var later := PartSpelled(c, slug, sections, from + 1, limit, index, parts, k);
      r := ListedNext(c, slug, sections, from, limit, index, sections[index], parts, k, later,
        RowsFrom(c, slug, sections, from, limit), Expected(c, slug, sections, from, limit),
        RowsFrom(c, slug, sections, from + 1, limit), Expected(c, slug, sections, from + 1, limit));
    }
  }

  lemma ListedNext(c: Chars, slug: string, sections: seq<SectionInput>, from: nat, limit: nat, index: nat,
                   section: SectionInput, parts: seq<string>, k: nat, later: nat, rows: seq<Row>,
                   read: seq<PlanSection>, laterRows: seq<Row>, laterRead: seq<PlanSection>)
    returns (r: nat)
    requires from < |sections| && k < |parts| && Listed(c, slug, index, section, parts, k, laterRows, laterRead, later)
    requires rows == RowsFrom(c, slug, sections, from, limit) && read == Expected(c, slug, sections, from, limit)
    requires laterRows == RowsFrom(c, slug, sections, from + 1, limit)
    requires laterRead == Expected(c, slug, sections, from + 1, limit)
    ensures Listed(c, slug, index, section, parts, k, rows, read, r)
  {
    var here := PartsOf(c, sections[from], limit);
    var x, y := PartRows(c, slug, from, sections[from], here), ExpectedParts(c, slug, from, sections[from], here);
    Unrolled(c, slug, sections, from, limit, x, y);
    ListedLater(c, slug, index, section, parts, k, x, laterRows, y, laterRead, later);
    r := |x| + later;
  }

  lemma {:induction false} SameLengths(c: Chars, slug: string, sections: seq<SectionInput>, from: nat, limit: nat)
    ensures |RowsFrom(c, slug, sections, from, limit)| == |Expected(c, slug, sections, from, limit)|
    decreases |sections| - from
  {
    if from < |sections| {
      SameLengths(c, slug, sections, from + 1, limit);
    }
  }

  /** And every row comes from one part. */
  lemma {:induction false} RowIsPart(
    c: Chars, slug: string, sections: seq<SectionInput>, from: nat, limit: nat, r: nat)
    returns (index: nat, k: nat)
    requires r < |RowsFrom(c, slug, sections, from, limit)|
    ensures index < |sections| && k < |PlanChunks.Split(c.white, sections[index].content, limit)|
    ensures StoredAs(c, slug, index, sections[index], PlanChunks.Split(c.white, sections[index].content, limit), k,
                     RowsFrom(c, slug, sections, from, limit)[r])
    decreases |sections| - from
  {
    var here := PartsOf(c, sections[from], limit);
    if r < |here| {
      index, k := from, r;
      RowSpelled(c, slug, from, sections[from], here, r);
    } else {
      index, k := RowIsPart(c, slug, sections, from + 1, limit, r - |here|);
    }
  }

  /** A plan's own entry, as it is stored. */
  lemma MetaSpelled(c: Chars, slug: string, title: string, overview: string, sections: seq<SectionInput>,
                    status: PlanStatus, limit: nat)
    ensures AllRows(c, slug, title, overview, sections, status, limit)[0] ==
            Row("plan:" + slug, Entry(title, overview, ["plan", "status:" +
              match status
              case Draft => "draft"
              case Approved => "approved"
              case Executing => "in-progress"
              case Completed => "completed"
              case Abandoned => "abandoned"]))
  {
    assert "plan"[0] == 'p' && STATUS_TAG[0] == 's';
    assert ["plan"][1..] == [];
    assert Retain(["plan"], STATUS_TAG) == ["plan"] + Retain([], STATUS_TAG);
  }

  lemma {:induction false} NoSuchTag(tags: seq<string>, prefix: string)
    requires forall t | t in tags :: !(prefix <= t)
    ensures TagValue(tags, prefix) == None
  {
    if tags != [] {
      assert tags[0] in tags && forall t | t in tags[1..] :: t in tags;
      NoSuchTag(tags[1..], prefix);
    }
  }

  /** What is read where nothing is said: a draft, no phase, and pending. */
  lemma Unsaid(c: Chars, tags: seq<string>)
    ensures (forall t | t in tags :: !("status:" <= t)) ==> PlanStatusOf(c, tags) == Draft
    ensures (forall t | t in tags :: !("phase:" <= t)) ==> PhaseOf(tags) == None
    ensures (forall t | t in tags :: !("phase-status:" <= t)) ==> StatusOf(c, tags) == Pending
  {
    if forall t | t in tags :: !("status:" <= t) {
      NoSuchTag(tags, STATUS_TAG);
    }
    if forall t | t in tags :: !("phase:" <= t) {
      NoSuchTag(tags, PHASE_TAG);
    }
    if forall t | t in tags :: !("phase-status:" <= t) {
      NoSuchTag(tags, PHASE_STATUS_TAG);
    }
  }

  // ---- Other plans ----

  ghost predicate Untouched(slug: string, before: map<string, Entry>, after: map<string, Entry>) {
    forall k | BelongsTo(slug, k) :: (k in after <==> k in before) && (k in after ==> after[k] == before[k])
  }

  ghost predicate Absent(slug: string, live: map<string, Entry>) {
    forall k | BelongsTo(slug, k) :: k !in live
  }

  /** A write of `slug` leaves another plan as it was, exactly when that plan's slug
      does not extend this one or has nothing live: the scope is a bare text
      prefix, so writing `auth` retires all of `auth-flow`. */
  lemma OthersExactly(c: Chars, slug: string, title: string, overview: string, sections: seq<SectionInput>,
                      status: PlanStatus, limit: nat, before: map<string, Entry>, after: map<string, Entry>,
                      other: string)
    requires Plain(c) && WellFormed(c.alnum, slug) && |sections| <= USIZE_LIMIT
    requires Reconciled(before, slug, AllRows(c, slug, title, overview, sections, status, limit), after)
    requires WellFormed(c.alnum, other) && other != slug
    ensures Untouched(other, before, after) <==> !(slug <= other) || Absent(other, before)
    ensures slug <= other ==> Absent(other, after)
  {
    var rows := AllRows(c, slug, title, overview, sections, status, limit);
    AllRowsScoped(c, slug, title, overview, sections, status, limit);
    forall k | BelongsTo(other, k)
      ensures Scoped(slug, k) <==> slug <= other
      ensures slug <= other ==> k !in after
    {
      ScopeOfOther(c.alnum, slug, other, k);
      forall i | 0 <= i < |rows|
        ensures rows[i].key != k
      {
        assert BelongsTo(slug, rows[i].key);
      }
    }
  }

  /** One plan each, with no sections: writing `slug` over a store that holds only
      `other`, whose slug extends it. */
  lemma ExtensionRetired(c: Chars, slug: string, other: string, limit: nat)
    returns (before: map<string, Entry>, after: map<string, Entry>)
    requires Plain(c) && WellFormed(c.alnum, slug) && WellFormed(c.alnum, other) && other != slug && slug <= other
    ensures before == PutAll(map[], AllRows(c, other, other, "", [], Draft, limit)) && MetaKey(other) in before
    ensures Reconciled(before, slug, AllRows(c, slug, slug, "", [], Draft, limit), after)
    ensures Absent(other, after)
  {
    var former, row := MetaRow(other, other, "", Draft), MetaRow(slug, slug, "", Draft);
    OnlyMeta(c, other, limit);
    OnlyMeta(c, slug, limit);
    PutSnoc(map[], [], former);
    assert [] + [former] == [former];
    before := map[MetaKey(other) := former.entry];
    after := map[MetaKey(slug) := row.entry];
    assert BelongsTo(other, MetaKey(other));
    ScopeOfOther(c.alnum, slug, other, MetaKey(other));
    assert [row][0].key == MetaKey(slug);
    assert HasKey([row], MetaKey(slug)) && Scoped(slug, MetaKey(slug));
    assert Reconciled(before, slug, [row], after);
    OthersExactly(c, slug, slug, "", [], Draft, limit, before, after, other);
  }

  lemma OnlyMeta(c: Chars, slug: string, limit: nat)
    ensures AllRows(c, slug, slug, "", [], Draft, limit) == [MetaRow(slug, slug, "", Draft)]
  {
    assert RowsFrom(c, slug, [], 0, limit) == [];
  }

  /** Writing the plan `auth` retires the plan `auth-flow`. */
  lemma AuthRetiresAuthFlow(c: Chars, limit: nat) returns (before: map<string, Entry>, after: map<string, Entry>)
    requires Plain(c)
    ensures before == PutAll(map[], AllRows(c, "auth-flow", "auth-flow", "", [], Draft, limit))
    ensures MetaKey("auth-flow") in before
    ensures Reconciled(before, "auth", AllRows(c, "auth", "auth", "", [], Draft, limit), after)
    ensures Absent("auth-flow", after)
  {
    var slug, other := "auth", "auth-flow";
    assert other[..4] == slug && other[4] == '-';
    before, after := ExtensionRetired(c, slug, other, limit);
  }

  /** Colons end slugs: another plan's key is under this prefix exactly when its slug extends this one. */
  lemma ScopeOfOther(alnum: char -> bool, slug: string, other: string, k: string)
    requires Sensible(alnum) && WellFormed(alnum, slug) && WellFormed(alnum, other) && other != slug
    requires BelongsTo(other, k)
    ensures Scoped(slug, k) <==> slug <= other
    ensures !BelongsTo(slug, k)
  {
    var rest := k[|PLAN_PREFIX|..];
    var tail := rest[|other|..];
    assert MetaKey(other) <= k;
    assert k == PLAN_PREFIX + rest && rest == other + tail && (tail == "" || tail[0] == ':');
    assert Scoped(slug, k) <==> slug <= rest;
    assert BelongsTo(slug, k) <==> rest == slug || (slug <= rest && |slug| < |rest| && rest[|slug|] == ':');
    if |slug| > |other| {
      assert slug[|other|] != ':';
      assert |rest| > |other| ==> rest[|other|] == ':';
    } else {
      assert rest[..|slug|] == other[..|slug|];
      if |slug| < |other| {
        assert rest[|slug|] == other[|slug|] && other[|slug|] != ':';
      }
    }
  }
}
