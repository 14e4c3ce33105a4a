/** Turning a scanned inventory into a stored graph: what one pass asks of the
    store, call by call, and why an incremental pass agrees with a full rebuild
    from every store any history of passes, finished or cut short, can leave. */
module Index {
  import opened Wrappers
  import opened Fnv
  import opened GraphStore
  import opened Freshness

  /** What reading one file from disk gave. */
  datatype ReadResult = Unread(message: string) | Read(bytes: Bytes)

  datatype Resolved = Resolved(edges: set<Edge>, unresolved: map<Path, nat>)

  /** The parts of the program this model takes as given: the language a path's
      extension names, if it is a supported one, the content hash (Fnv.ContentHash
      is one), UTF-8 decoding, the parser, and the resolver, which sees every
      file's facts and which paths exist on disk. */
  datatype Tools = Tools(
    language: Path -> Option<Lang>,
    hash: Bytes -> string,
    decode: Bytes -> Option<string>,
    extract: (string, Lang, Path) -> FileExtract,
    resolve: (map<Path, FileExtract>, set<Path>) -> Resolved)
  {
    /** The extraction of one file, when it can be parsed at all. */
    function Extraction(p: Path, r: ReadResult): Option<FileExtract> {
      if language(p).Some? && r.Read? && decode(r.bytes).Some?
      then Some(extract(decode(r.bytes).value, language(p).value, p))
      else None
    }

    /** Everything a freshly read file contributes to the store. */
    function Contribute(p: Path, r: ReadResult): (c: Contribution)
      ensures c.row.unresolvedCalls == 0
      ensures Parsed(c.row.status) <==> Extraction(p, r).Some?
    {
      match language(p)
      case None =>
        Contribution(FileRow(None, "", SkippedLang, NoDetail, 0, 0), [], NO_FACTS)
      case Some(lang) =>
        match r
        case Unread(message) =>
          Contribution(FileRow(Some(lang), "", Error, Unreadable(message), 0, 0), [], NO_FACTS)
        case Read(bytes) =>
          var hash := hash(bytes);
          match decode(bytes)
          case None =>
            Contribution(FileRow(Some(lang), hash, Error, NotUtf8, 0, 0), [], NO_FACTS)
          case Some(source) =>
            var e := extract(source, lang, p);
            var (status, detail) := if e.hadErrors then (Partial, SyntaxErrors) else (Indexed, NoDetail);
            Contribution(FileRow(Some(lang), hash, status, detail, |e.symbols|, 0), e.symbols, e.raw)
    }

    /** The file's stored hash names the content just read. */
    predicate Reused(known: map<Path, string>, p: Path, r: ReadResult) {
      Extraction(p, r).Some? && p in known && known[p] == hash(r.bytes)
    }
  }

  /** One pass's view of the world: the inventory, what each read returned, what
      is on disk when resolving, and the snapshot the pass will record. */
  datatype Input = Input(
    files: seq<Path>,
    results: seq<ReadResult>,
    onDisk: set<Path>,
    observed: Snapshot)
  {
    ghost predicate Valid() {
      && |results| == |files|
      && forall i, j | 0 <= i < j < |files| :: Differ(i, j)
    }

    /** No path is listed twice. */
    ghost predicate Differ(i: nat, j: nat)
      requires i < |files| && j < |files|
    {
      files[i] != files[j]
    }

    function Paths(k: nat): set<Path>
      requires k <= |files|
    {
      set i | 0 <= i < k :: files[i]
    }
  }

  // ---- The store calls of one pass, in order ----

  function Known(g: Graph, full: bool): map<Path, string> {
    if full then map[] else FileHashes(g)
  }

  function FileOps(t: Tools, known: map<Path, string>, input: Input, k: nat): seq<Op>
    requires k <= |input.files| && |input.results| == |input.files|
  {
    if k == 0 then []
    else
      var p, r := input.files[k - 1], input.results[k - 1];
      FileOps(t, known, input, k - 1) +
      if t.Reused(known, p, r) then [] else [Replace(p, t.Contribute(p, r))]
  }

  /** Facts parsed by this pass: the files read, parseable and not reused. */
  function FreshFacts(t: Tools, known: map<Path, string>, input: Input, k: nat): map<Path, FileExtract>
    requires k <= |input.files| && |input.results| == |input.files|
  {
    if k == 0 then map[]
    else
      var p, r := input.files[k - 1], input.results[k - 1];
      var facts := FreshFacts(t, known, input, k - 1);
      if t.Extraction(p, r).Some? && !t.Reused(known, p, r) then facts[p := t.Extraction(p, r).value]
      else facts
  }

  function ForgetOps(stale: seq<Path>): seq<Op> {
    seq(|stale|, i requires 0 <= i < |stale| => Forget(stale[i]))
  }

  function UnresolvedOps(order: seq<(Path, nat)>): seq<Op> {
    seq(|order|, i requires 0 <= i < |order| => SetUnresolved(order[i].0, order[i].1))
  }

  function ApplyAll(g: Graph, ops: seq<Op>): Graph {
    if ops == [] then g else Apply(ApplyAll(g, ops[..|ops| - 1]), ops[|ops| - 1])
  }

  /** Calls up to the point where the stored facts are read back. */
  function ParseOps(t: Tools, g: Graph, input: Input, full: bool, stale: seq<Path>): seq<Op>
    requires |input.results| == |input.files|
  {
    [Begin(full)] + FileOps(t, Known(g, full), input, |input.files|) + ForgetOps(stale)
  }

  /** What the resolver is handed: this pass's facts and the stored ones it did not touch. */
  function PassFacts(t: Tools, g: Graph, input: Input, full: bool, stale: seq<Path>): map<Path, FileExtract>
    requires |input.results| == |input.files|
  {
    var parsed := FreshFacts(t, Known(g, full), input, |input.files|);
    parsed + LoadExtracts(ApplyAll(g, ParseOps(t, g, input, full, stale)), parsed.Keys)
  }

  function PassOps(
    t: Tools, g: Graph, input: Input, full: bool, stale: seq<Path>, counts: seq<(Path, nat)>): seq<Op>
    requires |input.results| == |input.files|
  {
    ParseOps(t, g, input, full, stale) +
    [Rebuild(t.resolve(PassFacts(t, g, input, full, stale), input.onDisk).edges)] +
    UnresolvedOps(counts) +
    [SetFreshness(BaselineOf(input.observed))]
  }

  /** `ops` is a complete pass. The stale paths and the unresolved counts come out
      of hash maps, so any order of each is possible. */
  ghost predicate IsPass(
    t: Tools, g: Graph, input: Input, full: bool, stale: seq<Path>, counts: seq<(Path, nat)>)
  {
    && input.Valid()
    && (set p <- stale) == Known(g, full).Keys - input.Paths(|input.files|)
    && (set c <- counts) == t.resolve(PassFacts(t, g, input, full, stale), input.onDisk).unresolved.Items
  }

  // ---- The reference: what an index of these files holds, with no history ----

  function Image(input: Input): map<Path, ReadResult>
    requires |input.results| == |input.files|
  {
    ImageUpTo(input, |input.files|)
  }

  function ImageUpTo(input: Input, k: nat): map<Path, ReadResult>
    requires k <= |input.files| && |input.results| == |input.files|
  {
    if k == 0 then map[]
    else
      ImageUpTo(input, k - 1)[input.files[k - 1] := input.results[k - 1]]
  }

  function ImageNodes(t: Tools, image: map<Path, ReadResult>): map<Path, seq<Symbol>> {
    map p <- image :: t.Contribute(p, image[p]).symbols
  }

  function ImageFacts(t: Tools, image: map<Path, ReadResult>): map<Path, FileExtract> {
    map p <- image | t.Extraction(p, image[p]).Some? :: t.Extraction(p, image[p]).value
  }

  function ImageResolved(t: Tools, image: map<Path, ReadResult>, onDisk: set<Path>): Resolved {
    t.resolve(ImageFacts(t, image), onDisk)
  }

  /** The whole graph of a set of files, built from nothing. */
  function Rebuilt(t: Tools, image: map<Path, ReadResult>, onDisk: set<Path>): Graph {
    Graph(
      map p <- image :: t.Contribute(p, image[p]).row,
      ImageNodes(t, image),
      map p <- image :: t.Contribute(p, image[p]).raw,
      Grounded(ImageResolved(t, image, onDisk).edges, ImageNodes(t, image)),
      None)
  }

  /** What a query can see of a graph: raw facts only of files that have a row,
      no baseline, and the unresolved counts (stated on their own) blanked out. */
  function View(g: Graph): Graph {
    Graph(
      map p <- g.files :: g.files[p].(unresolvedCalls := 0),
      g.nodes,
      map p <- g.raw | p in g.files :: g.raw[p],
      g.edges,
      None)
  }

  ghost predicate Current(t: Tools, g: Graph, image: map<Path, ReadResult>, onDisk: set<Path>) {
    View(g) == Rebuilt(t, image, onDisk)
  }

  // ---- The invariant every store call keeps ----

  /** A read whose bytes are among those hashing is trusted to tell apart. */
  ghost predicate Trusted(trusted: iset<Bytes>, r: ReadResult) {
    r.Read? ==> r.bytes in trusted
  }

  ghost predicate CollisionFree(t: Tools, trusted: iset<Bytes>) {
    && (forall a <- trusted :: t.hash(a) != "")
    && (forall a, b :: a in trusted && b in trusted && t.hash(a) == t.hash(b) ==> a == b)
  }

  ghost predicate Holds(g: Graph, p: Path, c: Contribution) {
    && p in g.files && g.files[p].(unresolvedCalls := 0) == c.row
    && p in g.nodes && g.nodes[p] == c.symbols
    && p in g.raw && g.raw[p] == c.raw
  }

  ghost predicate RowSound(t: Tools, trusted: iset<Bytes>, g: Graph, p: Path) {
    exists r: ReadResult :: Trusted(trusted, r) && Holds(g, p, t.Contribute(p, r))
  }

  /** Every row is what some trusted read of its file contributes, definitions
      belong to files that have rows, and edges join stored definitions. */
  ghost predicate Sound(t: Tools, trusted: iset<Bytes>, g: Graph) {
    && g.nodes.Keys == g.files.Keys
    && (forall p <- g.files :: RowSound(t, trusted, g, p))
    && NoneDangles(g)
  }

  /** What the store holds of a file says what became of reading it: no supported
      language, no readable text, or a parse with or without syntax errors. */
  ghost predicate Recorded(t: Tools, g: Graph, p: Path, r: ReadResult) {
    && p in g.files && p in g.nodes && p in g.raw
    && var row, lang := g.files[p], t.language(p);
    && row.lang == lang
    && row.symbolCount == |g.nodes[p]|
    && row.contentHash == (if lang.Some? && r.Read? then t.hash(r.bytes) else "")
    && (if lang.None? then
          row.status == SkippedLang && row.detail == NoDetail && g.nodes[p] == [] && g.raw[p] == NO_FACTS
        else if r.Unread? then
          row.status == Error && row.detail == Unreadable(r.message) && g.nodes[p] == [] && g.raw[p] == NO_FACTS
        else if t.decode(r.bytes).None? then
          row.status == Error && row.detail == NotUtf8 && g.nodes[p] == [] && g.raw[p] == NO_FACTS
        else
          var e := t.extract(t.decode(r.bytes).value, lang.value, p);
          && row.status == (if e.hadErrors then Partial else Indexed)
          && row.detail == (if e.hadErrors then SyntaxErrors else NoDetail)
          && g.nodes[p] == e.symbols && g.raw[p] == e.raw)
  }

  lemma HeldIsRecorded(t: Tools, g: Graph, p: Path, r: ReadResult)
    requires Holds(g, p, t.Contribute(p, r))
    ensures Recorded(t, g, p, r)
  {
    assert g.files[p].(unresolvedCalls := 0) == t.Contribute(p, r).row;
  }

  /** A file written is recorded. */
  lemma WrittenIsRecorded(t: Tools, g: Graph, p: Path, r: ReadResult)
    ensures Recorded(t, Apply(g, Replace(p, t.Contribute(p, r))), p, r)
  {
    HeldIsRecorded(t, Apply(g, Replace(p, t.Contribute(p, r))), p, r);
  }

  /** A call some pass can make. */
  ghost predicate Benign(t: Tools, trusted: iset<Bytes>, op: Op) {
    op.Replace? ==> exists r: ReadResult :: Trusted(trusted, r) && op.file == t.Contribute(op.path, r)
  }

  lemma GroundedStep(g: Graph, op: Op)
    requires NoneDangles(g)
    ensures NoneDangles(Apply(g, op))
  {
    var g' := Apply(g, op);
    forall e | e in g'.edges
      ensures Defines(g'.nodes, e.source) && Defines(g'.nodes, e.target)
    {
      if op.Replace? || op.Forget? {
        assert e in g.edges;
      }
    }
  }

  lemma RowSoundStep(t: Tools, trusted: iset<Bytes>, g: Graph, op: Op, p: Path)
    requires p in Apply(g, op).files
    requires p in g.files ==> RowSound(t, trusted, g, p)
    requires Benign(t, trusted, op)
    ensures RowSound(t, trusted, Apply(g, op), p)
  {
    var g' := Apply(g, op);
    if op.Replace? && op.path == p {
      var r: ReadResult :| Trusted(trusted, r) && op.file == t.Contribute(op.path, r);
      assert Holds(g', p, t.Contribute(p, r));
    } else {
      var r: ReadResult :| Trusted(trusted, r) && Holds(g, p, t.Contribute(p, r));
      assert Holds(g', p, t.Contribute(p, r));
    }
  }

  lemma SoundStep(t: Tools, trusted: iset<Bytes>, g: Graph, op: Op)
    requires Sound(t, trusted, g) && Benign(t, trusted, op)
    ensures Sound(t, trusted, Apply(g, op))
  {
    GroundedStep(g, op);
    forall p | p in Apply(g, op).files
      ensures RowSound(t, trusted, Apply(g, op), p)
    {
      RowSoundStep(t, trusted, g, op, p);
    }
  }

  lemma {:induction false} SoundAll(t: Tools, trusted: iset<Bytes>, g: Graph, ops: seq<Op>)
    requires Sound(t, trusted, g)
    requires forall op <- ops :: Benign(t, trusted, op)
    ensures Sound(t, trusted, ApplyAll(g, ops))
    decreases |ops|
  {
    if ops != [] {
      SoundAll(t, trusted, g, ops[..|ops| - 1]);
      SoundStep(t, trusted, ApplyAll(g, ops[..|ops| - 1]), ops[|ops| - 1]);
    }
  }

  lemma {:induction false} ApplyConcat(g: Graph, a: seq<Op>, b: seq<Op>)
    ensures ApplyAll(g, a + b) == ApplyAll(ApplyAll(g, a), b)
    decreases |b|
  {
    if b == [] {
      assert a + b == a;
    } else {
      assert (a + b)[..|a + b| - 1] == a + b[..|b| - 1];
      ApplyConcat(g, a, b[..|b| - 1]);
    }
  }

  // ---- What a complete pass leaves ----

  ghost predicate Ready(t: Tools, trusted: iset<Bytes>, g: Graph, input: Input) {
    && input.Valid()
    && CollisionFree(t, trusted)
    && Sound(t, trusted, g)
    && forall r <- input.results :: Trusted(trusted, r)
  }

  /** A reused row already is what this read would have contributed. */
  lemma ReuseSound(t: Tools, trusted: iset<Bytes>, g: Graph, p: Path, r: ReadResult)
    requires CollisionFree(t, trusted) && Sound(t, trusted, g) && Trusted(trusted, r)
    requires t.Reused(FileHashes(g), p, r)
    ensures Holds(g, p, t.Contribute(p, r))
  {
    assert RowSound(t, trusted, g, p);
    var r': ReadResult :| Trusted(trusted, r') && Holds(g, p, t.Contribute(p, r'));
    assert t.Contribute(p, r').row.contentHash == t.hash(r.bytes);
    assert r'.Read?;
  }

  /** The row is the one the pass started from. */
  ghost predicate Untouched(g: Graph, h: Graph, p: Path) {
    && p in h.files && p in h.nodes
    && p in g.files && h.files[p] == g.files[p]
    && p in g.nodes && h.nodes[p] == g.nodes[p]
    && (p in g.raw <==> p in h.raw) && (p in g.raw ==> h.raw[p] == g.raw[p])
  }

  /** The first `k` files hold what is wanted of them; the rest is as it was. */
  ghost predicate FilesDone(g: Graph, h: Graph, input: Input, want: seq<Contribution>, kept: set<Path>, k: nat)
    requires k <= |input.files| == |want|
  {
    && h.files.Keys == kept + input.Paths(k)
    && h.nodes.Keys == h.files.Keys
    && (forall i | 0 <= i < k :: Holds(h, input.files[i], want[i]))
    && (forall p | p in kept && p !in input.Paths(k) :: Untouched(g, h, p))
  }

  function Wanted(t: Tools, input: Input): (want: seq<Contribution>)
    requires |input.results| == |input.files|
    ensures |want| == |input.files|
    ensures forall c <- want :: c.row.unresolvedCalls == 0
    ensures forall i | 0 <= i < |want| :: want[i] == t.Contribute(input.files[i], input.results[i])
  {
    seq(|input.files|, i requires 0 <= i < |input.files| => t.Contribute(input.files[i], input.results[i]))
  }

  lemma PathsStep(input: Input, k: nat)
    requires input.Valid() && 0 < k <= |input.files|
    ensures input.Paths(k) == input.Paths(k - 1) + {input.files[k - 1]}
    ensures input.files[k - 1] !in input.Paths(k - 1)
  {
    forall i | 0 <= i < k - 1
      ensures input.files[i] != input.files[k - 1]
    {
      assert input.Differ(i, k - 1);
    }
  }

  /** File `i` was parsed by this pass, and its facts are its extraction. */
  ghost predicate FactDone(t: Tools, facts: map<Path, FileExtract>, known: map<Path, string>, p: Path, r: ReadResult) {
    && (p in facts <==> t.Extraction(p, r).Some? && !t.Reused(known, p, r))
    && (p in facts ==> facts[p] == t.Extraction(p, r).value)
  }

  lemma {:induction false} FactsUpTo(t: Tools, known: map<Path, string>, input: Input, k: nat)
    requires input.Valid() && k <= |input.files|
    ensures FreshFacts(t, known, input, k).Keys <= input.Paths(k)
    ensures forall i | 0 <= i < k ::
              FactDone(t, FreshFacts(t, known, input, k), known, input.files[i], input.results[i])
  {
    if k > 0 {
      var before, after := FreshFacts(t, known, input, k - 1), FreshFacts(t, known, input, k);
      FactsUpTo(t, known, input, k - 1);
      PathsStep(input, k);
      forall i | 0 <= i < k
        ensures FactDone(t, after, known, input.files[i], input.results[i])
      {
        if i < k - 1 {
          assert input.files[i] in input.Paths(k - 1);
          assert FactDone(t, before, known, input.files[i], input.results[i]);
        }
      }
    }
  }

  lemma HoldsStep(h: Graph, p: Path, c: Contribution, q: Path, d: Contribution)
    requires q != p ==> Holds(h, q, d)
    requires q == p ==> d == c && c.row.unresolvedCalls == 0
    ensures Holds(Apply(h, Replace(p, c)), q, d)
  {
  }

  /** Reusing a row that already holds what is wanted finishes one more file. */
  lemma FileReused(g: Graph, h: Graph, input: Input, want: seq<Contribution>, kept: set<Path>, k: nat)
    requires input.Valid() && 0 < k <= |input.files| == |want|
    requires FilesDone(g, h, input, want, kept, k - 1)
    requires input.files[k - 1] in kept && Holds(g, input.files[k - 1], want[k - 1])
    ensures FilesDone(g, h, input, want, kept, k)
  {
    PathsStep(input, k);
    assert Untouched(g, h, input.files[k - 1]);
  }

  /** So does replacing it. */
  lemma FileReplaced(g: Graph, h: Graph, input: Input, want: seq<Contribution>, kept: set<Path>, k: nat)
    requires input.Valid() && 0 < k <= |input.files| == |want|
    requires FilesDone(g, h, input, want, kept, k - 1)
    requires want[k - 1].row.unresolvedCalls == 0
    ensures FilesDone(g, Apply(h, Replace(input.files[k - 1], want[k - 1])), input, want, kept, k)
  {
    var p, c := input.files[k - 1], want[k - 1];
    PathsStep(input, k);
    forall i | 0 <= i < k
      ensures Holds(Apply(h, Replace(p, c)), input.files[i], want[i])
    {
      if i < k - 1 {
        assert input.files[i] in input.Paths(k - 1);
      }
      HoldsStep(h, p, c, input.files[i], want[i]);
    }
    forall q | q in kept && q !in input.Paths(k)
      ensures Untouched(g, Apply(h, Replace(p, c)), q)
    {
      assert Untouched(g, h, q);
    }
  }

  lemma FileAdvances(
    g: Graph, h: Graph, input: Input, want: seq<Contribution>, kept: set<Path>, k: nat, reused: bool)
    requires input.Valid() && 0 < k <= |input.files| == |want|
    requires FilesDone(g, h, input, want, kept, k - 1)
    requires want[k - 1].row.unresolvedCalls == 0
    requires reused ==> input.files[k - 1] in kept && Holds(g, input.files[k - 1], want[k - 1])
    ensures FilesDone(g,
              if reused then h else Apply(h, Replace(input.files[k - 1], want[k - 1])), input, want, kept, k)
  {
    if reused {
      FileReused(g, h, input, want, kept, k);
    } else {
      FileReplaced(g, h, input, want, kept, k);
    }
  }

  /** The store after the first `k` files, as the loop builds it. */
  function AfterFiles(t: Tools, known: map<Path, string>, g: Graph, input: Input, k: nat): Graph
    requires k <= |input.files| && |input.results| == |input.files|
  {
    if k == 0 then g
    else
      var p, r := input.files[k - 1], input.results[k - 1];
      var before := AfterFiles(t, known, g, input, k - 1);
      if t.Reused(known, p, r) then before else Apply(before, Replace(p, t.Contribute(p, r)))
  }

  lemma {:induction false} FileOpsRun(t: Tools, known: map<Path, string>, g: Graph, input: Input, k: nat)
    requires input.Valid() && k <= |input.files|
    ensures ApplyAll(g, FileOps(t, known, input, k)) == AfterFiles(t, known, g, input, k)
    ensures AfterFiles(t, known, g, input, k).baseline == g.baseline
  {
    if k > 0 {
      var p, r := input.files[k - 1], input.results[k - 1];
      var before := FileOps(t, known, input, k - 1);
      FileOpsRun(t, known, g, input, k - 1);
      if t.Reused(known, p, r) {
        assert before + [] == before;
      } else {
        ApplySnoc(g, before, Replace(p, t.Contribute(p, r)));
      }
    }
  }

  lemma ApplySnoc(g: Graph, ops: seq<Op>, op: Op)
    ensures ApplyAll(g, ops + [op]) == Apply(ApplyAll(g, ops), op)
  {
    assert (ops + [op])[..|ops|] == ops;
  }

  /** What is read back after a file's rows are written is the extraction they were
      written from, and nothing for a file that cannot be parsed; whatever else is
      read back stays as it was. */
  lemma ExtractReadBack(t: Tools, g: Graph, p: Path, r: ReadResult, skip: set<Path>)
    requires p !in skip
    ensures var before, after := LoadExtracts(g, skip), LoadExtracts(Apply(g, Replace(p, t.Contribute(p, r))), skip);
      match t.Extraction(p, r)
      case Some(e) => after == before[p := e]
      case None => after == before - {p}
  {
    var before, after := LoadExtracts(g, skip), LoadExtracts(Apply(g, Replace(p, t.Contribute(p, r))), skip);
    forall q | q != p
      ensures (q in after <==> q in before) && (q in after ==> after[q] == before[q])
    {
    }
  }

  /** Every row the pass will reuse already holds what is wanted of it. */
  ghost predicate ReusesHold(t: Tools, known: map<Path, string>, g: Graph, input: Input, want: seq<Contribution>)
    requires |input.results| == |input.files| == |want|
  {
    forall i | 0 <= i < |want| && t.Reused(known, input.files[i], input.results[i]) ::
      Holds(g, input.files[i], want[i])
  }

  lemma ReusesAreSound(t: Tools, trusted: iset<Bytes>, g: Graph, input: Input, full: bool)
    requires Ready(t, trusted, g, input)
    ensures ReusesHold(t, Known(g, full), g, input, Wanted(t, input))
  {
    forall i | 0 <= i < |input.files| && t.Reused(Known(g, full), input.files[i], input.results[i])
      ensures Holds(g, input.files[i], Wanted(t, input)[i])
    {
      ReuseSound(t, trusted, g, input.files[i], input.results[i]);
    }
  }

  lemma {:induction false} FilesUpTo(
    t: Tools, known: map<Path, string>, g: Graph, start: Graph, input: Input, want: seq<Contribution>, k: nat,
    h: Graph)
    requires input.Valid() && k <= |input.files| == |want|
    requires h == AfterFiles(t, known, start, input, k)
    requires forall i | 0 <= i < |want| :: want[i] == t.Contribute(input.files[i], input.results[i])
    requires ReusesHold(t, known, g, input, want)
    requires FilesDone(g, start, input, want, known.Keys, 0)
    ensures FilesDone(g, h, input, want, known.Keys, k)
  {
    if k > 0 {
      var before := AfterFiles(t, known, start, input, k - 1);
      FilesUpTo(t, known, g, start, input, want, k - 1, before);
      assert want[k - 1] == t.Contribute(input.files[k - 1], input.results[k - 1]);
      FileAdvances(g, before, input, want, known.Keys, k,
        t.Reused(known, input.files[k - 1], input.results[k - 1]));
    }
  }

  lemma BeginDone(t: Tools, trusted: iset<Bytes>, g: Graph, input: Input, full: bool)
    requires Ready(t, trusted, g, input)
    ensures FilesDone(g, Apply(g, Begin(full)), input, Wanted(t, input), Known(g, full).Keys, 0)
  {
    assert input.Paths(0) == {};
  }

  lemma {:induction false} ForgetAll(h: Graph, stale: seq<Path>)
    ensures var g := ApplyAll(h, ForgetOps(stale));
            && g.files == h.files - (set p <- stale)
            && g.nodes == h.nodes - (set p <- stale)
            && g.raw == h.raw && g.baseline == h.baseline
    decreases |stale|
  {
    if stale != [] {
      var front := stale[..|stale| - 1];
      assert ForgetOps(stale)[..|stale| - 1] == ForgetOps(front);
      assert (set p <- stale) == (set p <- front) + {stale[|stale| - 1]};
      ForgetAll(h, front);
    } else {
      assert h.files - (set p <- stale) == h.files;
      assert h.nodes - (set p <- stale) == h.nodes;
    }
  }

  lemma {:induction false} ImageAt(input: Input, k: nat)
    requires input.Valid() && k <= |input.files|
    ensures ImageUpTo(input, k).Keys == input.Paths(k)
    ensures forall i | 0 <= i < k :: ImageUpTo(input, k)[input.files[i]] == input.results[i]
  {
    if k > 0 {
      ImageAt(input, k - 1);
      PathsStep(input, k);
      forall i | 0 <= i < k
        ensures ImageUpTo(input, k)[input.files[i]] == input.results[i]
      {
        if i < k - 1 {
          assert input.files[i] in input.Paths(k - 1);
        }
      }
    }
  }

  lemma ParseStages(t: Tools, g: Graph, input: Input, full: bool, stale: seq<Path>)
    requires input.Valid()
    ensures ApplyAll(g, ParseOps(t, g, input, full, stale)) ==
            ApplyAll(
              AfterFiles(t, Known(g, full), Apply(g, Begin(full)), input, |input.files|),
              ForgetOps(stale))
  {
    FileOpsRun(t, Known(g, full), Apply(g, Begin(full)), input, |input.files|);
    var fileOps := FileOps(t, Known(g, full), input, |input.files|);
    assert ApplyAll(g, [Begin(full)]) == Apply(g, Begin(full)) by {
      assert [Begin(full)][..0] == [];
    }
    ApplyConcat(g, [Begin(full)], fileOps);
    ApplyConcat(g, [Begin(full)] + fileOps, ForgetOps(stale));
  }

  /** The first `k` files hold what is wanted of them, and nothing else is stored. */
  ghost predicate Holding(h: Graph, input: Input, want: seq<Contribution>)
    requires |input.files| == |want|
  {
    && h.files.Keys == input.Paths(|input.files|)
    && h.nodes.Keys == input.Paths(|input.files|)
    && forall i | 0 <= i < |want| :: Holds(h, input.files[i], want[i])
  }

  lemma ForgetRest(g: Graph, mid: Graph, input: Input, want: seq<Contribution>, kept: set<Path>, stale: seq<Path>)
    requires |input.files| == |want| && FilesDone(g, mid, input, want, kept, |want|)
    requires (set p <- stale) == kept - input.Paths(|input.files|)
    ensures Holding(ApplyAll(mid, ForgetOps(stale)), input, want)
  {
    ForgetAll(mid, stale);
    forall i | 0 <= i < |want|
      ensures Holds(ApplyAll(mid, ForgetOps(stale)), input.files[i], want[i])
    {
      assert input.files[i] in input.Paths(|want|);
      assert Holds(mid, input.files[i], want[i]);
    }
  }

  /** After parsing and forgetting, the rows are exactly the inventory's. */
  lemma ParsedRows(t: Tools, trusted: iset<Bytes>, g: Graph, input: Input, full: bool, stale: seq<Path>)
    requires Ready(t, trusted, g, input)
    requires (set p <- stale) == Known(g, full).Keys - input.Paths(|input.files|)
    ensures Holding(ApplyAll(g, ParseOps(t, g, input, full, stale)), input, Wanted(t, input))
  {
    var n := |input.files|;
    var mid := AfterFiles(t, Known(g, full), Apply(g, Begin(full)), input, n);
    ParseStages(t, g, input, full, stale);
    ReusesAreSound(t, trusted, g, input, full);
    BeginDone(t, trusted, g, input, full);
    FilesUpTo(t, Known(g, full), g, Apply(g, Begin(full)), input, Wanted(t, input), n, mid);
    ForgetRest(g, mid, input, Wanted(t, input), Known(g, full).Keys, stale);
  }

  // ---- Facts, edges and counts ----

  /** Parsed now or stored earlier, one file's facts are its extraction. */
  lemma FactEitherWay(
    t: Tools, h: Graph, parsed: map<Path, FileExtract>, known: map<Path, string>, p: Path, r: ReadResult)
    requires FactDone(t, parsed, known, p, r)
    requires Holds(h, p, t.Contribute(p, r))
    ensures var all := parsed + LoadExtracts(h, parsed.Keys);
            && (p in all <==> t.Extraction(p, r).Some?)
            && (p in all ==> all[p] == t.Extraction(p, r).value)
  {
    if p !in parsed && t.Extraction(p, r).Some? {
      assert StoredExtract(h, p) == t.Extraction(p, r).value;
    }
  }

  /** What the resolver is handed does not depend on what was reused. */
  lemma PassFactsAreImageFacts(t: Tools, trusted: iset<Bytes>, g: Graph, input: Input, full: bool, stale: seq<Path>)
    requires Ready(t, trusted, g, input)
    requires (set p <- stale) == Known(g, full).Keys - input.Paths(|input.files|)
    ensures PassFacts(t, g, input, full, stale) == ImageFacts(t, Image(input))
  {
    ParsedRows(t, trusted, g, input, full, stale);
    FactsUpTo(t, Known(g, full), input, |input.files|);
    FactsOfHolding(t, ApplyAll(g, ParseOps(t, g, input, full, stale)),
      FreshFacts(t, Known(g, full), input, |input.files|), Known(g, full), input);
  }

  lemma FactsOfHolding(
    t: Tools, h: Graph, parsed: map<Path, FileExtract>, known: map<Path, string>, input: Input)
    requires input.Valid() && Holding(h, input, Wanted(t, input))
    requires parsed.Keys <= input.Paths(|input.files|)
    requires forall i | 0 <= i < |input.files| :: FactDone(t, parsed, known, input.files[i], input.results[i])
    ensures parsed + LoadExtracts(h, parsed.Keys) == ImageFacts(t, Image(input))
  {
    var all := parsed + LoadExtracts(h, parsed.Keys);
    ImageAt(input, |input.files|);
    forall i | 0 <= i < |input.files|
      ensures AgreeAt(all, ImageFacts(t, Image(input)), input.files[i])
    {
      assert Holds(h, input.files[i], Wanted(t, input)[i]);
      FactEitherWay(t, h, parsed, known, input.files[i], input.results[i]);
    }
    AgreeEverywhere(all, ImageFacts(t, Image(input)), input);
  }

  ghost predicate AgreeAt(a: map<Path, FileExtract>, b: map<Path, FileExtract>, p: Path) {
    (p in a <==> p in b) && (p in a ==> a[p] == b[p])
  }

  lemma AgreeEverywhere(a: map<Path, FileExtract>, b: map<Path, FileExtract>, input: Input)
    requires a.Keys <= input.Paths(|input.files|) && b.Keys <= input.Paths(|input.files|)
    requires forall i | 0 <= i < |input.files| :: AgreeAt(a, b, input.files[i])
    ensures a == b
  {
    forall p | p in input.Paths(|input.files|)
      ensures AgreeAt(a, b, p)
    {
      var i :| 0 <= i < |input.files| && input.files[i] == p;
    }
  }

  function CountsOf(order: seq<(Path, nat)>): map<Path, nat> {
    if order == [] then map[]
    else CountsOf(order[..|order| - 1])[order[|order| - 1].0 := order[|order| - 1].1]
  }

  /** Recording counts touches only the rows they name. */
  function WithCounts(files: map<Path, FileRow>, counts: map<Path, nat>): map<Path, FileRow> {
    map p <- files :: if p in counts then files[p].(unresolvedCalls := counts[p]) else files[p]
  }

  lemma {:induction false} CountsApplied(h: Graph, order: seq<(Path, nat)>)
    ensures ApplyAll(h, UnresolvedOps(order)) == h.(files := WithCounts(h.files, CountsOf(order)))
    decreases |order|
  {
    if order == [] {
      assert WithCounts(h.files, map[]) == h.files;
    } else {
      var front, last := order[..|order| - 1], order[|order| - 1];
      assert UnresolvedOps(order)[..|order| - 1] == UnresolvedOps(front);
      CountsApplied(h, front);
      assert Apply(h.(files := WithCounts(h.files, CountsOf(front))), SetUnresolved(last.0, last.1)).files
          == WithCounts(h.files, CountsOf(order));
    }
  }

  /** Any order of a map's entries gives the map back. */
  lemma {:induction false} CountsOfItems(order: seq<(Path, nat)>, counts: map<Path, nat>)
    requires (set c <- order) == counts.Items
    ensures CountsOf(order) == counts
  {
    CountsSubset(order, counts);
    forall p | p in counts
      ensures p in CountsOf(order)
    {
      assert (p, counts[p]) in counts.Items;
      CountsMember(order, (p, counts[p]));
    }
  }

  lemma {:induction false} CountsMember(order: seq<(Path, nat)>, c: (Path, nat))
    requires c in order
    ensures c.0 in CountsOf(order)
  {
    if order[|order| - 1] != c {
      CountsMember(order[..|order| - 1], c);
    }
  }

  lemma {:induction false} CountsSubset(order: seq<(Path, nat)>, counts: map<Path, nat>)
    requires forall c <- order :: c in counts.Items
    ensures forall p <- CountsOf(order) :: p in counts && CountsOf(order)[p] == counts[p]
  {
    if order != [] {
      assert order[|order| - 1] in counts.Items;
      CountsSubset(order[..|order| - 1], counts);
    }
  }

  // ---- Main results ----

  lemma PassStages(t: Tools, g: Graph, input: Input, full: bool, stale: seq<Path>, counts: seq<(Path, nat)>)
    requires input.Valid()
    ensures var h := ApplyAll(g, ParseOps(t, g, input, full, stale));
            var edges := t.resolve(PassFacts(t, g, input, full, stale), input.onDisk).edges;
            ApplyAll(g, PassOps(t, g, input, full, stale, counts)) ==
            h.(edges := Grounded(edges, h.nodes),
               files := WithCounts(h.files, CountsOf(counts)),
               baseline := Some(BaselineOf(input.observed)))
  {
    var h := ApplyAll(g, ParseOps(t, g, input, full, stale));
    PassRuns(t, g, input, full, stale, counts);
    CountsApplied(Apply(h, Rebuild(t.resolve(PassFacts(t, g, input, full, stale), input.onDisk).edges)), counts);
  }

  lemma ViewOfHolding(t: Tools, h: Graph, input: Input)
    requires input.Valid() && Holding(h, input, Wanted(t, input))
    ensures forall p <- Image(input) :: Holds(h, p, t.Contribute(p, Image(input)[p]))
    ensures Image(input).Keys == h.files.Keys == h.nodes.Keys
  {
    ImageAt(input, |input.files|);
    forall p | p in Image(input)
      ensures Holds(h, p, t.Contribute(p, Image(input)[p]))
    {
      var i :| 0 <= i < |input.files| && input.files[i] == p;
      assert Holds(h, p, Wanted(t, input)[i]);
    }
  }

  lemma SameContributions(t: Tools, h: Graph, image: map<Path, ReadResult>)
    requires image.Keys == h.files.Keys == h.nodes.Keys
    requires forall p <- image :: Holds(h, p, t.Contribute(p, image[p]))
    ensures h.nodes == ImageNodes(t, image)
    ensures (map p <- h.files :: h.files[p].(unresolvedCalls := 0)) == Rebuilt(t, image, {}).files
    ensures (map p <- h.raw | p in h.files :: h.raw[p]) == Rebuilt(t, image, {}).raw
  {
    forall p | p in image
      ensures Holds(h, p, t.Contribute(p, image[p]))
    {
    }
  }

  lemma CurrentWhenHolding(
    t: Tools, h: Graph, image: map<Path, ReadResult>, onDisk: set<Path>,
    counts: map<Path, nat>, baseline: Option<Baseline>)
    requires image.Keys == h.files.Keys == h.nodes.Keys
    requires forall p <- image :: Holds(h, p, t.Contribute(p, image[p]))
    ensures Current(t,
              h.(edges := Grounded(ImageResolved(t, image, onDisk).edges, h.nodes),
                 files := WithCounts(h.files, counts), baseline := baseline),
              image, onDisk)
  {
    SameContributions(t, h, image);
    var files := WithCounts(h.files, counts);
    assert (map p <- files :: files[p].(unresolvedCalls := 0)) ==
           (map p <- h.files :: h.files[p].(unresolvedCalls := 0));
  }

  /** A complete pass, incremental or full, from any sound store, leaves exactly
      the graph built from nothing out of what it read. */
  lemma PassLeavesRebuiltGraph(
    t: Tools, trusted: iset<Bytes>, g: Graph, input: Input, full: bool,
    stale: seq<Path>, counts: seq<(Path, nat)>)
    requires Ready(t, trusted, g, input) && IsPass(t, g, input, full, stale, counts)
    ensures var g' := ApplyAll(g, PassOps(t, g, input, full, stale, counts));
            && Current(t, g', Image(input), input.onDisk)
            && g'.baseline == Some(BaselineOf(input.observed))
  {
    var h := ApplyAll(g, ParseOps(t, g, input, full, stale));
    PassStages(t, g, input, full, stale, counts);
    PassFactsAreImageFacts(t, trusted, g, input, full, stale);
    ParsedRows(t, trusted, g, input, full, stale);
    ViewOfHolding(t, h, input);
    CurrentWhenHolding(t, h, Image(input), input.onDisk, CountsOf(counts), Some(BaselineOf(input.observed)));
  }

  lemma CountsKeepRows(t: Tools, h: Graph, counts: map<Path, nat>, edges: set<Edge>, baseline: Option<Baseline>,
                       p: Path, c: Contribution)
    requires Holds(h, p, c)
    ensures Holds(h.(edges := edges, files := WithCounts(h.files, counts), baseline := baseline), p, c)
  {
  }

  /** Every file of the inventory is recorded as what became of reading it, whatever
      the store held of it before. */
  lemma PassRecords(
    t: Tools, trusted: iset<Bytes>, g: Graph, input: Input, full: bool,
    stale: seq<Path>, counts: seq<(Path, nat)>)
    requires Ready(t, trusted, g, input) && IsPass(t, g, input, full, stale, counts)
    ensures var g' := ApplyAll(g, PassOps(t, g, input, full, stale, counts));
            && g'.files.Keys == (set p <- input.files)
            && forall i | 0 <= i < |input.files| :: Recorded(t, g', input.files[i], input.results[i])
  {
    var h := ApplyAll(g, ParseOps(t, g, input, full, stale));
    var g' := ApplyAll(g, PassOps(t, g, input, full, stale, counts));
    PassStages(t, g, input, full, stale, counts);
    ParsedRows(t, trusted, g, input, full, stale);
    assert g'.files.Keys == h.files.Keys;
    forall i | 0 <= i < |input.files|
      ensures Recorded(t, g', input.files[i], input.results[i])
    {
      var p, r := input.files[i], input.results[i];
      assert Holds(h, p, Wanted(t, input)[i]);
      CountsKeepRows(t, h, CountsOf(counts), g'.edges, g'.baseline, p, t.Contribute(p, r));
      HeldIsRecorded(t, g', p, r);
    }
  }

  /** The edges after a pass: those the resolver derives from what can be parsed of
      the inventory, as far as both ends are symbols the store holds. */
  lemma PassEdges(
    t: Tools, trusted: iset<Bytes>, g: Graph, input: Input, full: bool,
    stale: seq<Path>, counts: seq<(Path, nat)>, e: Edge)
    requires Ready(t, trusted, g, input) && IsPass(t, g, input, full, stale, counts)
    ensures var g' := ApplyAll(g, PassOps(t, g, input, full, stale, counts));
            e in g'.edges <==>
              && e in t.resolve(ImageFacts(t, Image(input)), input.onDisk).edges
              && e.source.path in g'.nodes && (exists s <- g'.nodes[e.source.path] :: s.local == e.source.local)
              && e.target.path in g'.nodes && (exists s <- g'.nodes[e.target.path] :: s.local == e.target.local)
  {
    PassStages(t, g, input, full, stale, counts);
    PassFactsAreImageFacts(t, trusted, g, input, full, stale);
  }

  /** The facts are the extractions of the files of a supported language that could
      be read as text, and of no others. */
  lemma FactsAreParses(t: Tools, input: Input, i: nat)
    requires input.Valid() && i < |input.files|
    ensures var facts, p, r := ImageFacts(t, Image(input)), input.files[i], input.results[i];
            && facts.Keys <= (set q <- input.files)
            && (p in facts <==> t.language(p).Some? && r.Read? && t.decode(r.bytes).Some?)
            && (p in facts ==> facts[p] == t.extract(t.decode(r.bytes).value, t.language(p).value, p))
  {
    ImageAt(input, |input.files|);
    assert input.files[i] in input.Paths(|input.files|);
  }

  /** One pass of a history, cut short after its first `done` store calls. */
  datatype Attempt = Attempt(
    input: Input, full: bool, stale: seq<Path>, counts: seq<(Path, nat)>, done: nat)

  function CutOps(t: Tools, g: Graph, a: Attempt): seq<Op>
    requires |a.input.results| == |a.input.files|
  {
    var ops := PassOps(t, g, a.input, a.full, a.stale, a.counts);
    if a.done <= |ops| then ops[..a.done] else ops
  }

  ghost predicate Legal(t: Tools, trusted: iset<Bytes>, history: seq<Attempt>)
    decreases |history|, 0
  {
    history != [] ==>
      var front, last := history[..|history| - 1], history[|history| - 1];
      && Legal(t, trusted, front)
      && IsPass(t, Run(t, trusted, front), last.input, last.full, last.stale, last.counts)
      && forall r <- last.input.results :: Trusted(trusted, r)
  }

  /** The store any history of passes, each possibly dying half way, leaves. */
  ghost function Run(t: Tools, trusted: iset<Bytes>, history: seq<Attempt>): Graph
    requires Legal(t, trusted, history)
    decreases |history|, 1
  {
    if history == [] then EMPTY
    else
      var front, last := history[..|history| - 1], history[|history| - 1];
      var g := Run(t, trusted, front);
      ApplyAll(g, CutOps(t, g, last))
  }

  lemma {:induction false} FileOpsBenign(t: Tools, trusted: iset<Bytes>, known: map<Path, string>, input: Input, k: nat)
    requires input.Valid() && k <= |input.files|
    requires forall r <- input.results :: Trusted(trusted, r)
    ensures forall op <- FileOps(t, known, input, k) :: Benign(t, trusted, op)
  {
    if k > 0 {
      FileOpsBenign(t, trusted, known, input, k - 1);
      assert Trusted(trusted, input.results[k - 1]);
      assert Benign(t, trusted, Replace(input.files[k - 1], t.Contribute(input.files[k - 1], input.results[k - 1])));
    }
  }

  lemma CutBenign(t: Tools, trusted: iset<Bytes>, g: Graph, a: Attempt)
    requires a.input.Valid() && forall r <- a.input.results :: Trusted(trusted, r)
    ensures forall op <- CutOps(t, g, a) :: Benign(t, trusted, op)
  {
    FileOpsBenign(t, trusted, Known(g, a.full), a.input, |a.input.files|);
    var ops := PassOps(t, g, a.input, a.full, a.stale, a.counts);
    forall op | op in ops
      ensures Benign(t, trusted, op)
    {
      if op.Replace? {
        assert op in FileOps(t, Known(g, a.full), a.input, |a.input.files|);
      }
    }
  }

  lemma {:induction false} HistorySound(t: Tools, trusted: iset<Bytes>, history: seq<Attempt>)
    requires Legal(t, trusted, history)
    ensures Sound(t, trusted, Run(t, trusted, history))
    decreases |history|
  {
    if history != [] {
      var front, last := history[..|history| - 1], history[|history| - 1];
      HistorySound(t, trusted, front);
      CutBenign(t, trusted, Run(t, trusted, front), last);
      SoundAll(t, trusted, Run(t, trusted, front), CutOps(t, Run(t, trusted, front), last));
    }
  }

  /** Incremental equals full: after any two histories of finished and dead
      passes, one incremental pass after the first and one full pass after the
      second, over the same reads, leave the same files, definitions, facts,
      edges and baseline. */
  lemma IncrementalEqualsFull(
    t: Tools, trusted: iset<Bytes>, one: seq<Attempt>, other: seq<Attempt>, input: Input,
    stale: seq<Path>, counts: seq<(Path, nat)>, counts': seq<(Path, nat)>)
    requires CollisionFree(t, trusted) && forall r <- input.results :: Trusted(trusted, r)
    requires Legal(t, trusted, one) && Legal(t, trusted, other)
    requires IsPass(t, Run(t, trusted, one), input, false, stale, counts)
    requires IsPass(t, Run(t, trusted, other), input, true, [], counts')
    ensures var inc := ApplyAll(Run(t, trusted, one), PassOps(t, Run(t, trusted, one), input, false, stale, counts));
            var full := ApplyAll(Run(t, trusted, other), PassOps(t, Run(t, trusted, other), input, true, [], counts'));
            && View(inc) == View(full) == Rebuilt(t, Image(input), input.onDisk)
            && inc.baseline == full.baseline
  {
    HistorySound(t, trusted, one);
    HistorySound(t, trusted, other);
    PassLeavesRebuiltGraph(t, trusted, Run(t, trusted, one), input, false, stale, counts);
    PassLeavesRebuiltGraph(t, trusted, Run(t, trusted, other), input, true, [], counts');
  }

  // ---- The pass itself ----

  /** What became of one file of the inventory. */
  datatype Fate = WasIndexed | WasPartial | WasSkipped | Failed | WasReused

  /** A reused file is one whose stored hash still names its content; any other
      parseable file is parsed again, completely or with syntax errors. */
  ghost predicate FateRight(t: Tools, known: map<Path, string>, p: Path, r: ReadResult, fate: Fate) {
    var lang := t.language(p);
    if lang.None? then fate == WasSkipped
    else if r.Unread? || t.decode(r.bytes).None? then fate == Failed
    else if p in known && known[p] == t.hash(r.bytes) then fate == WasReused
    else fate == if t.extract(t.decode(r.bytes).value, lang.value, p).hadErrors then WasPartial else WasIndexed
  }

  lemma ForgetOne(h: Graph, stale: seq<Path>, p: Path)
    ensures ApplyAll(h, ForgetOps(stale + [p])) == Apply(ApplyAll(h, ForgetOps(stale)), Forget(p))
  {
    assert ForgetOps(stale + [p])[..|stale|] == ForgetOps(stale);
  }

  lemma CountOne(h: Graph, counts: seq<(Path, nat)>, c: (Path, nat))
    ensures ApplyAll(h, UnresolvedOps(counts + [c])) ==
            Apply(ApplyAll(h, UnresolvedOps(counts)), SetUnresolved(c.0, c.1))
  {
    assert UnresolvedOps(counts + [c])[..|counts|] == UnresolvedOps(counts);
  }

  /** One file of the inventory: skip it, record why it cannot be read, reuse its
      row, or re-parse it. */
  method ParseFile(store: CodeGraphStore, t: Tools, known: map<Path, string>, p: Path, r: ReadResult)
    returns (parsed: Option<FileExtract>, fate: Fate)
    modifies store
    ensures t.Reused(known, p, r) ==> store.Contents() == old(store.Contents()) && parsed == None
    ensures !t.Reused(known, p, r) ==>
              && store.Contents() == Apply(old(store.Contents()), Replace(p, t.Contribute(p, r)))
              && parsed == t.Extraction(p, r)
    ensures FateRight(t, known, p, r, fate)
  {
    parsed := None;
    if t.language(p).None? {
      store.ReplaceFile(p, t.Contribute(p, r));
      fate := WasSkipped;
    } else if r.Unread? || t.decode(r.bytes).None? {
      store.ReplaceFile(p, t.Contribute(p, r));
      fate := Failed;
    } else if p in known && known[p] == t.hash(r.bytes) {
      fate := WasReused;
    } else {
      var extract := t.extract(t.decode(r.bytes).value, t.language(p).value, p);
      fate := if extract.hadErrors then WasPartial else WasIndexed;
      store.ReplaceFile(p, t.Contribute(p, r));
      parsed := Some(extract);
    }
  }

  /** The per-file loop: replace what changed, keep what the stored hash still names. */
  method ParseFiles(store: CodeGraphStore, t: Tools, known: map<Path, string>, input: Input)
    returns (facts: map<Path, FileExtract>, fates: seq<Fate>)
    requires input.Valid()
    modifies store
    ensures store.Contents() == AfterFiles(t, known, old(store.Contents()), input, |input.files|)
    ensures facts == FreshFacts(t, known, input, |input.files|)
    ensures |fates| == |input.files|
    ensures forall i | 0 <= i < |fates| :: FateRight(t, known, input.files[i], input.results[i], fates[i])
  {
    facts, fates := map[], [];
    for i := 0 to |input.files|
      invariant store.Contents() == AfterFiles(t, known, old(store.Contents()), input, i)
      invariant facts == FreshFacts(t, known, input, i)
      invariant |fates| == i
      invariant forall j | 0 <= j < i :: FateRight(t, known, input.files[j], input.results[j], fates[j])
    {
      var parsed, fate := ParseFile(store, t, known, input.files[i], input.results[i]);
      fates := fates + [fate];
      if parsed.Some? {
        facts := facts[input.files[i] := parsed.value];
      }
    }
  }

  /** A vanished file takes its row, symbols and edges with it. */
  method ForgetVanished(store: CodeGraphStore, vanished: set<Path>) returns (ghost stale: seq<Path>)
    modifies store
    ensures store.Contents() == ApplyAll(old(store.Contents()), ForgetOps(stale))
    ensures (set p <- stale) == vanished
  {
    stale := [];
    var remaining := vanished;
    while remaining != {}
      invariant store.Contents() == ApplyAll(old(store.Contents()), ForgetOps(stale))
      invariant remaining <= vanished && (set p <- stale) == vanished - remaining
      decreases remaining
    {
      var p :| p in remaining;
      store.ForgetFile(p);
      ForgetOne(old(store.Contents()), stale, p);
      assert (set q <- stale + [p]) == (set q <- stale) + {p};
      stale := stale + [p];
      remaining := remaining - {p};
    }
  }

  method RecordCounts(store: CodeGraphStore, unresolved: map<Path, nat>) returns (ghost counts: seq<(Path, nat)>)
    modifies store
    ensures store.Contents() == ApplyAll(old(store.Contents()), UnresolvedOps(counts))
    ensures (set c <- counts) == unresolved.Items
  {
    counts := [];
    var remaining := unresolved.Items;
    while remaining != {}
      invariant store.Contents() == ApplyAll(old(store.Contents()), UnresolvedOps(counts))
      invariant remaining <= unresolved.Items && (set c <- counts) == unresolved.Items - remaining
      decreases remaining
    {
      var c :| c in remaining;
      store.SetUnresolvedCount(c.0, c.1);
      CountOne(old(store.Contents()), counts, c);
      assert (set d <- counts + [c]) == (set d <- counts) + {c};
      counts := counts + [c];
      remaining := remaining - {c};
    }
  }

  /** The half of a pass that makes the stored rows describe the inventory. */
  method RefreshRows(store: CodeGraphStore, t: Tools, input: Input, full: bool)
    returns (parsed: map<Path, FileExtract>, fates: seq<Fate>, ghost stale: seq<Path>)
    requires input.Valid()
    modifies store
    ensures (set p <- stale) == Known(old(store.Contents()), full).Keys - input.Paths(|input.files|)
    ensures store.Contents() == ApplyAll(old(store.Contents()), ParseOps(t, old(store.Contents()), input, full, stale))
    ensures parsed == FreshFacts(t, Known(old(store.Contents()), full), input, |input.files|)
    ensures |fates| == |input.files|
    ensures forall i | 0 <= i < |fates| ::
              FateRight(t, Known(old(store.Contents()), full), input.files[i], input.results[i], fates[i])
  {
    ghost var g := store.Contents();
    store.BeginProject(full);
    var known := if full then map[] else store.ReadHashes();
    parsed, fates := ParseFiles(store, t, known, input);
    var present := set p <- input.files;
    assert present == input.Paths(|input.files|);
    stale := ForgetVanished(store, known.Keys - present);
    ParseStages(t, g, input, full, stale);
  }

  /** The half that rederives every edge and count from the facts. */
  method ResolveProject(store: CodeGraphStore, t: Tools, facts: map<Path, FileExtract>, onDisk: set<Path>)
    returns (ghost counts: seq<(Path, nat)>)
    modifies store
    ensures (set c <- counts) == t.resolve(facts, onDisk).unresolved.Items
    ensures store.Contents() ==
            ApplyAll(Apply(old(store.Contents()), Rebuild(t.resolve(facts, onDisk).edges)), UnresolvedOps(counts))
  {
    var resolved := t.resolve(facts, onDisk);
    store.RebuildEdges(resolved.edges);
    counts := RecordCounts(store, resolved.unresolved);
  }

  /** One whole pass. The store ends in the state its calls, taken in order, give;
      PassLeavesRebuiltGraph says what that state is. */
  method IndexProject(store: CodeGraphStore, t: Tools, input: Input, full: bool)
    returns (fates: seq<Fate>, ghost stale: seq<Path>, ghost counts: seq<(Path, nat)>)
    requires input.Valid()
    modifies store
    ensures IsPass(t, old(store.Contents()), input, full, stale, counts)
    ensures store.Contents() ==
            ApplyAll(old(store.Contents()), PassOps(t, old(store.Contents()), input, full, stale, counts))
    ensures |fates| == |input.files|
    ensures forall i | 0 <= i < |fates| ::
              FateRight(t, Known(old(store.Contents()), full), input.files[i], input.results[i], fates[i])
    ensures forall trusted | Ready(t, trusted, old(store.Contents()), input) ::
              forall i | 0 <= i < |input.files| :: Recorded(t, store.Contents(), input.files[i], input.results[i])
  {
    ghost var g := store.Contents();
    var parsed;
    parsed, fates, stale := RefreshRows(store, t, input, full);
    counts := ResolveProject(store, t, parsed + store.ReadExtracts(parsed.Keys), input.onDisk);
    store.RecordFreshness(BaselineOf(input.observed));
    PassRuns(t, g, input, full, stale, counts);
    forall trusted | Ready(t, trusted, g, input)
      ensures forall i | 0 <= i < |input.files| :: Recorded(t, store.Contents(), input.files[i], input.results[i])
    {
      PassRecords(t, trusted, g, input, full, stale, counts);
    }
  }

  lemma PassRuns(t: Tools, g: Graph, input: Input, full: bool, stale: seq<Path>, counts: seq<(Path, nat)>)
    requires input.Valid()
    ensures var rebuild := Rebuild(t.resolve(PassFacts(t, g, input, full, stale), input.onDisk).edges);
            ApplyAll(g, PassOps(t, g, input, full, stale, counts)) ==
            Apply(
              ApplyAll(Apply(ApplyAll(g, ParseOps(t, g, input, full, stale)), rebuild), UnresolvedOps(counts)),
              SetFreshness(BaselineOf(input.observed)))
  {
    var parse := ParseOps(t, g, input, full, stale);
    var rebuild := Rebuild(t.resolve(PassFacts(t, g, input, full, stale), input.onDisk).edges);
    assert (parse + [rebuild])[..|parse|] == parse;
    ApplyConcat(g, parse + [rebuild], UnresolvedOps(counts));
    var ops := parse + [rebuild] + UnresolvedOps(counts);
    var stamp := SetFreshness(BaselineOf(input.observed));
    assert (ops + [stamp])[..|ops|] == ops;
  }

  // ---- The one column an incremental pass can leave behind ----

  /** The unresolved count file `i` has once the inventory is parsed. */
  function ParsedCount(t: Tools, known: map<Path, string>, start: Graph, input: Input, i: nat): nat
    requires i < |input.files| == |input.results|
  {
    var p := input.files[i];
    if t.Reused(known, p, input.results[i]) && p in start.files then start.files[p].unresolvedCalls else 0
  }

  ghost predicate CountsDone(t: Tools, known: map<Path, string>, start: Graph, h: Graph, input: Input, k: nat)
    requires k <= |input.files| == |input.results|
  {
    && (forall p | p in start.files && p !in input.Paths(k) :: p in h.files && h.files[p] == start.files[p])
    && (forall i | 0 <= i < k :: input.files[i] in h.files
          && h.files[input.files[i]].unresolvedCalls == ParsedCount(t, known, start, input, i))
  }

  lemma CountsStep(t: Tools, known: map<Path, string>, start: Graph, before: Graph, input: Input, k: nat)
    requires input.Valid() && 0 < k <= |input.files| && known.Keys <= start.files.Keys
    requires CountsDone(t, known, start, before, input, k - 1)
    ensures var p, r := input.files[k - 1], input.results[k - 1];
            CountsDone(t, known, start,
              if t.Reused(known, p, r) then before else Apply(before, Replace(p, t.Contribute(p, r))), input, k)
  {
    PathsStep(input, k);
    forall i | 0 <= i < k - 1
      ensures input.files[i] != input.files[k - 1]
    {
      assert input.files[i] in input.Paths(k - 1);
    }
  }

  lemma {:induction false} CountsUpTo(
    t: Tools, known: map<Path, string>, start: Graph, input: Input, k: nat, h: Graph)
    requires input.Valid() && k <= |input.files| && known.Keys <= start.files.Keys
    requires h == AfterFiles(t, known, start, input, k)
    ensures CountsDone(t, known, start, h, input, k)
  {
    if k > 0 {
      var before := AfterFiles(t, known, start, input, k - 1);
      CountsUpTo(t, known, start, input, k - 1, before);
      CountsStep(t, known, start, before, input, k);
    }
  }

  /** A pass records a count only for files that have an unresolved call, so a
      reused row whose last unresolved call went away keeps its old count. */
  lemma CountAfterPass(
    t: Tools, trusted: iset<Bytes>, g: Graph, input: Input, full: bool,
    stale: seq<Path>, counts: seq<(Path, nat)>, i: nat)
    requires Ready(t, trusted, g, input) && IsPass(t, g, input, full, stale, counts)
    requires i < |input.files|
    ensures var p := input.files[i];
            var g' := ApplyAll(g, PassOps(t, g, input, full, stale, counts));
            var unresolved := ImageResolved(t, Image(input), input.onDisk).unresolved;
            && p in g'.files
            && g'.files[p].unresolvedCalls ==
                 if p in unresolved then unresolved[p]
                 else if t.Reused(Known(g, full), p, input.results[i]) then g.files[p].unresolvedCalls
                 else 0
  {
    var n := |input.files|;
    var start := Apply(g, Begin(full));
    var mid := AfterFiles(t, Known(g, full), start, input, n);
    CountsUpTo(t, Known(g, full), start, input, n, mid);
    ParseStages(t, g, input, full, stale);
    ForgetAll(mid, stale);
    assert input.files[i] in input.Paths(n);
    PassStages(t, g, input, full, stale, counts);
    PassFactsAreImageFacts(t, trusted, g, input, full, stale);
    CountsOfItems(counts, ImageResolved(t, Image(input), input.onDisk).unresolved);
  }

  /** Exactly when the incremental and the full pass also agree on a file's
      unresolved count: it still has an unresolved call, or it was re-parsed, or
      its stored count was already zero. */
  lemma CountsAgreeExactly(
    t: Tools, trusted: iset<Bytes>, g: Graph, g0: Graph, input: Input,
    stale: seq<Path>, counts: seq<(Path, nat)>, counts': seq<(Path, nat)>, i: nat)
    requires Ready(t, trusted, g, input) && IsPass(t, g, input, false, stale, counts)
    requires Ready(t, trusted, g0, input) && IsPass(t, g0, input, true, [], counts')
    requires i < |input.files|
    ensures var p := input.files[i];
            var inc := ApplyAll(g, PassOps(t, g, input, false, stale, counts));
            var full := ApplyAll(g0, PassOps(t, g0, input, true, [], counts'));
            && p in inc.files && p in full.files
            && (inc.files[p].unresolvedCalls == full.files[p].unresolvedCalls <==>
                || p in ImageResolved(t, Image(input), input.onDisk).unresolved
                || !t.Reused(FileHashes(g), p, input.results[i])
                || g.files[p].unresolvedCalls == 0)
  {
    CountAfterPass(t, trusted, g, input, false, stale, counts, i);
    CountAfterPass(t, trusted, g0, input, true, [], counts', i);
  }

  const A_RS := Path("a.rs")
  const B_RS := Path("b.rs")

  /** The tools of the counter-example: every file is empty Rust, and a.rs has one
      call that resolves only once b.rs is in the project. */
  function OneCallTools(): Tools {
    Tools(
      p => Some(Rust), b => "h", b => Some(""),
      (source, lang, p) => FileExtract([], NO_FACTS, false),
      (facts: map<Path, FileExtract>, onDisk) => Resolved({}, if B_RS in facts then map[] else map[A_RS := 1]))
  }

  function OneCallInput(files: seq<Path>): Input {
    Input(files, seq(|files|, i => Read([])), {}, Snapshot(None, None))
  }

  lemma WithBothFiles(trusted: iset<Bytes>, g: Graph, full: bool)
    requires Ready(OneCallTools(), trusted, g, OneCallInput([A_RS, B_RS]))
    requires g.files.Keys <= {A_RS}
    ensures IsPass(OneCallTools(), g, OneCallInput([A_RS, B_RS]), full, [], [])
    ensures A_RS !in ImageResolved(OneCallTools(), Image(OneCallInput([A_RS, B_RS])), {}).unresolved
  {
    var t, input := OneCallTools(), OneCallInput([A_RS, B_RS]);
    assert input.Paths(2) == {A_RS, B_RS} by {
      assert input.files[0] == A_RS && input.files[1] == B_RS;
    }
    ImageAt(input, 2);
    PassFactsAreImageFacts(t, trusted, g, input, full, []);
    assert B_RS in ImageFacts(t, Image(input));
  }

  lemma FirstPassIsPass()
    ensures IsPass(OneCallTools(), EMPTY, OneCallInput([A_RS]), true, [], [(A_RS, 1)])
    ensures Image(OneCallInput([A_RS])) == map[A_RS := Read([])]
    ensures ImageResolved(OneCallTools(), map[A_RS := Read([])], {}).unresolved == map[A_RS := 1]
  {
    var t, input := OneCallTools(), OneCallInput([A_RS]);
    assert input.Paths(1) == {A_RS} by {
      assert input.files[0] == A_RS;
    }
    ImageAt(input, 1);
    PassFactsAreImageFacts(t, iset{[]}, EMPTY, input, true, []);
    var counts := [(A_RS, 1)];
    var m: map<Path, nat> := map[A_RS := 1];
    assert ImageResolved(t, Image(input), {}).unresolved == m;
    assert forall c <- m.Items :: c == counts[0];
    assert counts[0] in m.Items;
  }

  lemma FirstPassStores(g: Graph)
    requires g == ApplyAll(EMPTY, PassOps(OneCallTools(), EMPTY, OneCallInput([A_RS]), true, [], [(A_RS, 1)]))
    ensures g.files.Keys == {A_RS}
    ensures g.files[A_RS].contentHash == "h" && g.files[A_RS].unresolvedCalls == 1
  {
    var t, input, counts := OneCallTools(), OneCallInput([A_RS]), [(A_RS, 1)];
    FirstPassIsPass();
    PassLeavesRebuiltGraph(t, iset{[]}, EMPTY, input, true, [], counts);
    assert View(g).files.Keys == g.files.Keys;
    assert View(g).files[A_RS] == t.Contribute(A_RS, Read([])).row;
    CountAfterPass(t, iset{[]}, EMPTY, input, true, [], counts, 0);
  }

  lemma WithFirstFile(trusted: iset<Bytes>) returns (g: Graph)
    requires trusted == iset{[]}
    ensures Sound(OneCallTools(), trusted, g)
    ensures g.files.Keys == {A_RS}
    ensures g.files[A_RS].contentHash == "h" && g.files[A_RS].unresolvedCalls == 1
  {
    var t, input, counts := OneCallTools(), OneCallInput([A_RS]), [(A_RS, 1)];
    var ops := PassOps(t, EMPTY, input, true, [], counts);
    g := ApplyAll(EMPTY, ops);
    FirstPassStores(g);
    var whole := Attempt(input, true, [], counts, |ops|);
    assert CutOps(t, EMPTY, whole) == ops;
    CutBenign(t, trusted, EMPTY, whole);
    SoundAll(t, trusted, EMPTY, ops);
  }

  lemma FirstFileReused(g: Graph, full: bool)
    requires !full ==> A_RS in g.files && g.files[A_RS].contentHash == "h"
    ensures var input := OneCallInput([A_RS, B_RS]);
            && input.files[0] == A_RS && input.results[0] == Read([])
            && (OneCallTools().Reused(Known(g, full), A_RS, Read([])) <==> !full)
  {
  }

  lemma SecondCount(trusted: iset<Bytes>, g: Graph, full: bool)
    requires Ready(OneCallTools(), trusted, g, OneCallInput([A_RS, B_RS]))
    requires g.files.Keys <= {A_RS}
    requires !full ==> A_RS in g.files && g.files[A_RS].contentHash == "h"
    ensures var input := OneCallInput([A_RS, B_RS]);
            var g' := ApplyAll(g, PassOps(OneCallTools(), g, input, full, [], []));
            && IsPass(OneCallTools(), g, input, full, [], [])
            && A_RS in g'.files
            && g'.files[A_RS].unresolvedCalls == if full then 0 else g.files[A_RS].unresolvedCalls
  {
    var t, input := OneCallTools(), OneCallInput([A_RS, B_RS]);
    WithBothFiles(trusted, g, full);
    FirstFileReused(g, full);
    CountAfterPass(t, trusted, g, input, full, [], [], 0);
  }

  /** The agreement does fail: index a.rs, add b.rs, refresh incrementally. The
      call in a.rs now resolves, yet its row still reports one unresolved call. */
  lemma StaleCountSurvives() returns (t: Tools, trusted: iset<Bytes>, g: Graph, input: Input)
    ensures Ready(t, trusted, g, input) && IsPass(t, g, input, false, [], [])
    ensures Ready(t, trusted, EMPTY, input) && IsPass(t, EMPTY, input, true, [], [])
    ensures var inc := ApplyAll(g, PassOps(t, g, input, false, [], []));
            var full := ApplyAll(EMPTY, PassOps(t, EMPTY, input, true, [], []));
            && A_RS in inc.files && inc.files[A_RS].unresolvedCalls == 1
            && A_RS in full.files && full.files[A_RS].unresolvedCalls == 0
  {
    t, trusted, input := OneCallTools(), iset{[]}, OneCallInput([A_RS, B_RS]);
    g := WithFirstFile(trusted);
    assert Ready(t, trusted, g, input);
    assert Ready(t, trusted, EMPTY, input);
    SecondCount(trusted, g, false);
    SecondCount(trusted, EMPTY, true);
  }
}
