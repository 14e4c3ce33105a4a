/** Refreshers at work on a live tree: edits may fall between any two steps, a
    refresher may die at any step, and readers judge the graph at every moment.
    The lock is taken as given here (RefreshLock earns it). */
module RefreshProtocol {
  import opened Wrappers
  import opened GraphStore
  import opened Freshness
  import opened Index
  import opened Fnv

  /** The tree's signals at each version, and the tools. `trusted` are the file
      contents the hash is trusted to tell apart. */
  datatype World = World(tools: Tools, head: nat -> string, dirty: nat -> string)

  type Tree = map<Path, ReadResult>

  /** The pair of signals never comes back once the tree has moved. */
  ghost predicate Separates(w: World) {
    forall u: nat, v: nat :: w.head(u) == w.head(v) && w.dirty(u) == w.dirty(v) ==> u == v
  }

  /** What git says when both signals can be read. */
  function Signals(w: World, v: nat): Snapshot {
    Snapshot(Some(w.head(v)), Some(w.dirty(v)))
  }

  /** A snapshot of version `v`, either signal of which may have been unreadable. */
  predicate Taken(w: World, snap: Snapshot, v: nat) {
    && (snap.head == None || snap.head == Some(w.head(v)))
    && (snap.dirty == None || snap.dirty == Some(w.dirty(v)))
  }

  /** Work not yet holding the lock: an automatic child that has taken its
      snapshot, or a crawl that has scanned its inventory. */
  datatype Waiting =
    | Watched(snap: Snapshot, at: nat)
    | Scanned(files: seq<Path>, full: bool)

  datatype Phase =
    | Locked       // by hand: nothing observed yet
    | Watching     // has its snapshot, no inventory
    | Inventoried  // a crawl: has its inventory, no snapshot
    | Prepared     // has both
    | Parsing      // `done` files finished
    | Writing      // file `done` read, not yet written
    | Rebuilding   // facts resolved, edges not yet written
    | Counting     // edges written

  /** The holder of the lock. `mark` is the tree's version at its last step:
      whatever a step reads is exact when nothing moved since then, and
      arbitrary otherwise. */
  datatype Run = Run(
    full: bool, phase: Phase, mark: nat,
    observed: Snapshot, snapAt: nat,
    files: seq<Path>, listedAt: nat, trusty: bool,
    base: Graph, results: seq<ReadResult>, done: nat,
    stale: seq<Path>, onDisk: set<Path>, counts: seq<(Path, nat)>)
  {
    function Input(): Input {
      Index.Input(files, results, onDisk, observed)
    }

    predicate Begun() {
      phase == Parsing || phase == Writing || phase == Rebuilding || phase == Counting
    }

    predicate HasSnapshot() {
      phase != Locked && phase != Inventoried
    }

    predicate HasBoth() {
      phase == Prepared || Begun()
    }
  }

  /** `stampedAt` is the version whose signals the baseline records. `doubt` is
      raised when a pass clears the project or starts from an inventory that was
      already wrong when its snapshot was taken, and settled by the next stamp. */
  datatype State = State(
    tree: Tree, version: nat, graph: Graph, stampedAt: nat, doubt: bool,
    waiting: set<Waiting>, run: Option<Run>)

  predicate Distinct(files: seq<Path>) {
    forall i, j | 0 <= i < j < |files| :: files[i] != files[j]
  }

  /** Reading a path that is not there fails. */
  predicate Reads(tree: Tree, p: Path, r: ReadResult) {
    if p in tree then r == tree[p] else r.Unread?
  }

  // ---- Steps ----

  datatype Event =
    | Edit(tree: Tree)
    | Watch(snap: Snapshot)
    | Scan(files: seq<Path>, full: bool)
    | LockByHand(full: bool)
    | LockAuto(snap: Snapshot, at: nat)
    | LockCrawl(files: seq<Path>, full: bool)
    | Observe(snap: Snapshot)
    | Walk(files: seq<Path>)
    | BeginPass
    | ReadFile(r: ReadResult)
    | WriteFile
    | ForgetOne(path: Path)
    | Resolve(onDisk: set<Path>)
    | WriteEdges
    | CountOne(count: (Path, nat))
    | Stamp
    | Die

  function NewRun(full: bool, phase: Phase, mark: nat): Run {
    Run(full, phase, mark, Snapshot(None, None), 0, [], 0, true, EMPTY, [], 0, [], {}, [])
  }

  function Paths(files: seq<Path>): set<Path> {
    set p <- files
  }

  function RunKnown(run: Run): map<Path, string> {
    Known(run.base, run.full)
  }

  /** No file read yet. */
  function Unstarted(n: nat): (results: seq<ReadResult>)
    ensures |results| == n && forall i | 0 <= i < n :: results[i] == Unread("")
  {
    seq(n, i => Unread(""))
  }

  function RunResolved(t: Tools, run: Run): Resolved
    requires |run.results| == |run.files|
  {
    t.resolve(PassFacts(t, run.base, run.Input(), run.full, run.stale), run.onDisk)
  }

  ghost predicate Step(w: World, trusted: iset<Bytes>, s: State, e: Event, s': State) {
    match e
    case Edit(tree) =>
      && (forall p <- tree :: Trusted(trusted, tree[p]))
      && s' == s.(tree := tree, version := s.version + 1)
    case Watch(snap) =>
      // The child's gates: both signals readable, and no baseline or a stale one.
      && Taken(w, snap, s.version) && snap.head.Some? && snap.dirty.Some?
      && (s.graph.baseline.None? || Judge(s.graph.baseline, snap).Stale?)
      && s' == s.(waiting := s.waiting + {Watched(snap, s.version)})
    case Scan(files, full) =>
      && Distinct(files)
      && s' == s.(waiting := s.waiting + {Scanned(files, full)})
    case LockByHand(full) =>
      && s.run.None?
      && s' == s.(run := Some(NewRun(full, Locked, s.version)))
    case LockAuto(snap, at) =>
      && s.run.None? && Watched(snap, at) in s.waiting
      && s' == s.(waiting := s.waiting - {Watched(snap, at)},
                  run := Some(NewRun(false, Watching, s.version).(observed := snap, snapAt := at)))
    case LockCrawl(files, full) =>
      && s.run.None? && Scanned(files, full) in s.waiting
      && s' == s.(waiting := s.waiting - {Scanned(files, full)},
                  run := Some(NewRun(full, Inventoried, s.version).(files := files)))
    case Die =>
      && s.run.Some?
      && s' == s.(run := None)
    case _ =>
      s.run.Some? && RunStep(w, trusted, s, s.run.value, e, s')
  }

  ghost predicate RunStep(w: World, trusted: iset<Bytes>, s: State, run: Run, e: Event, s': State) {
    var t := w.tools;
    var exact := s.version == run.mark;
    match e
    case Observe(snap) =>
      && Taken(w, snap, s.version)
      && ((run.phase == Locked
           && s' == s.(run := Some(run.(phase := Watching, observed := snap, snapAt := s.version, mark := s.version))))
          || (run.phase == Inventoried
              && s' == s.(run := Some(run.(phase := Prepared, observed := snap, snapAt := s.version, mark := s.version,
                                           listedAt := s.version, trusty := Paths(run.files) == s.tree.Keys)))))
    case Walk(files) =>
      && run.phase == Watching && Distinct(files)
      && (exact ==> Paths(files) == s.tree.Keys)
      && s' == s.(run := Some(run.(phase := Prepared, files := files, listedAt := run.mark, mark := s.version)))
    case BeginPass =>
      && run.phase == Prepared
      && s' == s.(graph := Apply(s.graph, Begin(run.full)), doubt := s.doubt || run.full || !run.trusty,
                  run := Some(run.(phase := Parsing, base := s.graph, done := 0, mark := s.version,
                                   results := Unstarted(|run.files|))))
    case ReadFile(r) =>
      && run.phase == Parsing && run.done < |run.files| == |run.results|
      && Trusted(trusted, r)
      && (exact ==> Reads(s.tree, run.files[run.done], r))
      && s' == s.(run := Some(run.(phase := Writing, results := run.results[run.done := r], mark := s.version)))
    case WriteFile =>
      && run.phase == Writing && run.done < |run.files| == |run.results|
      && var p, r := run.files[run.done], run.results[run.done];
         s' == s.(graph := if t.Reused(RunKnown(run), p, r) then s.graph
                           else Apply(s.graph, Replace(p, t.Contribute(p, r))),
                  run := Some(run.(phase := Parsing, done := run.done + 1, mark := s.version)))
    case ForgetOne(p) =>
      && run.phase == Parsing && run.done == |run.files|
      && p in RunKnown(run).Keys - Paths(run.files) - Paths(run.stale)
      && s' == s.(graph := Apply(s.graph, Forget(p)), run := Some(run.(stale := run.stale + [p], mark := s.version)))
    case Resolve(onDisk) =>
      && run.phase == Parsing && run.done == |run.files|
      && Paths(run.stale) == RunKnown(run).Keys - Paths(run.files)
      && (exact ==> onDisk == s.tree.Keys)
      && s' == s.(run := Some(run.(phase := Rebuilding, onDisk := onDisk, mark := s.version)))
    case WriteEdges =>
      && run.phase == Rebuilding && |run.results| == |run.files|
      && s' == s.(graph := Apply(s.graph, Rebuild(RunResolved(t, run).edges)),
                  run := Some(run.(phase := Counting, mark := s.version)))
    case CountOne(c) =>
      && run.phase == Counting && |run.results| == |run.files|
      && c in RunResolved(t, run).unresolved.Items && c !in run.counts
      && s' == s.(graph := Apply(s.graph, SetUnresolved(c.0, c.1)),
                  run := Some(run.(counts := run.counts + [c], mark := s.version)))
    case Stamp =>
      && run.phase == Counting && |run.results| == |run.files|
      && (set c <- run.counts) == RunResolved(t, run).unresolved.Items
      && s' == s.(graph := Apply(s.graph, SetFreshness(BaselineOf(run.observed))), stampedAt := run.snapAt,
                  doubt := !run.trusty, run := None)
    case _ => false
  }

  ghost predicate Init(trusted: iset<Bytes>, s: State) {
    && (forall p <- s.tree :: Trusted(trusted, s.tree[p]))
    && s == State(s.tree, 0, EMPTY, 0, false, {}, None)
  }

  /** What a reader is told right now. */
  predicate SaysFresh(w: World, s: State) {
    Judge(s.graph.baseline, Signals(w, s.version)) == Fresh
  }

  ghost predicate UpToDate(w: World, s: State) {
    Current(w.tools, s.graph, s.tree, s.tree.Keys)
  }

  // ---- The invariant ----

  /** The graph is what the run's calls so far made of the graph it began from. */
  ghost predicate Progress(t: Tools, g: Graph, run: Run)
    requires run.Begun() && |run.results| == |run.files| && run.done <= |run.files|
  {
    var input := run.Input();
    if run.phase == Counting then
      g == ApplyAll(Apply(ApplyAll(run.base, ParseOps(t, run.base, input, run.full, run.stale)),
                          Rebuild(RunResolved(t, run).edges)), UnresolvedOps(run.counts))
    else
      g == ApplyAll(AfterFiles(t, RunKnown(run), Apply(run.base, Begin(run.full)), input, run.done),
                    ForgetOps(run.stale))
  }

  /** How far into the inventory reads have happened. */
  function ReadSoFar(run: Run): nat {
    if run.phase == Writing then run.done + 1 else run.done
  }

  /** Nothing has moved since the run's inventory was right. */
  predicate Quiet(s: State, run: Run) {
    run.trusty && s.version == run.listedAt
  }

  /** Version stamps never run ahead of what happened under the lock. */
  ghost predicate Timely(w: World, s: State, run: Run) {
    && run.mark <= s.version
    && (s.graph.baseline.Some? ==> s.stampedAt <= run.mark)
    && (run.HasSnapshot() ==> run.snapAt <= run.mark && Taken(w, run.observed, run.snapAt))
    && (run.HasBoth() ==>
          && run.snapAt <= run.listedAt <= run.mark
          && (s.graph.baseline.Some? ==> s.stampedAt <= run.listedAt)
          && (Quiet(s, run) ==> Paths(run.files) == s.tree.Keys)
          && (!run.trusty && s.version == run.snapAt ==> Paths(run.files) != s.tree.Keys))
    && (run.HasBoth() || run.phase == Inventoried ==> Distinct(run.files))
    && (!run.HasBoth() ==> run.trusty)
    && (!run.Begun() ==> run.stale == [] && run.counts == [])
  }

  ghost predicate Underway(w: World, trusted: iset<Bytes>, s: State, run: Run)
    requires run.Begun()
  {
    && Shaped(run)
    && Sound(w.tools, trusted, run.base)
    && (forall r <- run.results :: Trusted(trusted, r))
    && Progress(w.tools, s.graph, run)
    && (run.phase == Counting ==> (set c <- run.counts) <= RunResolved(w.tools, run).unresolved.Items)
    && Exact(s, run)
    && (run.full || !run.trusty ==> s.doubt)
  }

  /** How far the run's lists have got at each phase. */
  predicate Shaped(run: Run) {
    && |run.results| == |run.files| && run.done <= |run.files|
    && (run.phase == Writing ==> run.done < |run.files|)
    && (run.phase == Rebuilding || run.phase == Counting ==> run.done == |run.files|)
    && (run.done < |run.files| ==> run.stale == [])
    && (run.phase != Counting ==> run.counts == [])
    && Paths(run.stale) <= RunKnown(run).Keys - Paths(run.files)
    && (run.phase == Rebuilding || run.phase == Counting ==> Paths(run.stale) == RunKnown(run).Keys - Paths(run.files))
  }

  /** While nothing moves, what was read is the tree. */
  predicate Exact(s: State, run: Run)
    requires |run.results| == |run.files| && run.done <= |run.files|
    requires run.phase == Writing ==> run.done < |run.files|
  {
    && (Quiet(s, run) ==> forall i | 0 <= i < ReadSoFar(run) :: Reads(s.tree, run.files[i], run.results[i]))
    && (Quiet(s, run) && (run.phase == Rebuilding || run.phase == Counting) ==> run.onDisk == s.tree.Keys)
  }

  /** The baseline records signals of version `stampedAt`, as far as they could be read. */
  ghost predicate Stamped(w: World, s: State) {
    s.graph.baseline.Some? ==>
      && s.stampedAt <= s.version
      && exists snap: Snapshot :: Taken(w, snap, s.stampedAt) && s.graph.baseline == Some(BaselineOf(snap))
  }

  /** No doubt, and nothing moved since the stamped version. */
  predicate Settled(s: State) {
    !s.doubt && s.graph.baseline.Some? && s.stampedAt == s.version
  }

  ghost predicate Inv(w: World, trusted: iset<Bytes>, s: State) {
    && (forall p <- s.tree :: Trusted(trusted, s.tree[p]))
    && Sound(w.tools, trusted, s.graph)
    && Stamped(w, s)
    && (Settled(s) ==> UpToDate(w, s))
    && (forall wt <- s.waiting :: WaitingOk(w, s, wt))
    && (s.run.Some? ==>
          && Timely(w, s, s.run.value)
          && (s.run.value.Begun() ==>
                && Underway(w, trusted, s, s.run.value)
                && (Settled(s) ==> Current(w.tools, s.run.value.base, s.tree, s.tree.Keys))))
  }

  ghost predicate WaitingOk(w: World, s: State, wt: Waiting) {
    match wt
    case Watched(snap, at) => at <= s.version && Taken(w, snap, at)
    case Scanned(files, _) => Distinct(files)
  }

  /** A pass over an unmoved tree read exactly the tree. */
  lemma ImageIsTree(input: Input, tree: Tree)
    requires input.Valid() && Paths(input.files) == tree.Keys
    requires forall i | 0 <= i < |input.files| :: Reads(tree, input.files[i], input.results[i])
    ensures Image(input) == tree
  {
    ImageAt(input, |input.files|);
    assert input.Paths(|input.files|) == Paths(input.files);
    forall p | p in tree
      ensures Image(input)[p] == tree[p]
    {
      var i :| 0 <= i < |input.files| && input.files[i] == p;
    }
  }

  lemma DistinctValid(input: Input)
    requires |input.results| == |input.files| && Distinct(input.files)
    ensures input.Valid()
    ensures input.Paths(|input.files|) == Paths(input.files)
  {
    forall i, j | 0 <= i < j < |input.files|
      ensures input.Differ(i, j)
    {
    }
  }

  // ---- Store calls that leave an up-to-date graph up to date ----

  /** On an unmoved tree, only files that cannot be parsed are written again, and
      writing one changes nothing a reader sees. */
  lemma WriteKeepsCurrent(t: Tools, g: Graph, base: Graph, tree: Tree, p: Path)
    requires Current(t, g, tree, tree.Keys) && Current(t, base, tree, tree.Keys)
    requires NoneDangles(g) && g.nodes.Keys == g.files.Keys
    requires p in tree && !t.Reused(FileHashes(base), p, tree[p])
    ensures Current(t, Apply(g, Replace(p, t.Contribute(p, tree[p]))), tree, tree.Keys)
  {
    var c := t.Contribute(p, tree[p]);
    NotParsed(t, base, tree, p);
    assert View(g).nodes[p] == c.symbols == [];
    UntouchedEdges(g, p);
    SameWritten(t, g, tree, p);
  }

  /** No edge touches a file without symbols. */
  lemma UntouchedEdges(g: Graph, p: Path)
    requires NoneDangles(g) && p in g.nodes && g.nodes[p] == []
    ensures Cascade(g.edges, p) == g.edges
  {
    assert forall e <- g.edges :: Defines(g.nodes, e.source) && Defines(g.nodes, e.target);
  }

  /** A file of an up-to-date graph that is not reused cannot be parsed. */
  lemma NotParsed(t: Tools, base: Graph, tree: Tree, p: Path)
    requires Current(t, base, tree, tree.Keys) && p in tree && !t.Reused(FileHashes(base), p, tree[p])
    ensures t.Extraction(p, tree[p]).None?
  {
    assert View(base).files[p] == t.Contribute(p, tree[p]).row;
  }

  /** Writing what is there changes nothing a reader sees but the edges it cascades to. */
  lemma SameWritten(t: Tools, g: Graph, tree: Tree, p: Path)
    requires Current(t, g, tree, tree.Keys) && p in tree && Cascade(g.edges, p) == g.edges
    ensures Current(t, Apply(g, Replace(p, t.Contribute(p, tree[p]))), tree, tree.Keys)
  {
    var c := t.Contribute(p, tree[p]);
    var g' := Apply(g, Replace(p, c));
    assert View(g).files[p] == c.row && View(g).nodes[p] == c.symbols;
    assert View(g').files == View(g).files;
    assert View(g').nodes == View(g).nodes;
    assert View(g).raw == Rebuilt(t, tree, tree.Keys).raw;
    assert View(g').raw == View(g).raw;
  }

  lemma RebuildKeepsCurrent(t: Tools, g: Graph, tree: Tree)
    requires Current(t, g, tree, tree.Keys)
    ensures Current(t, Apply(g, Rebuild(ImageResolved(t, tree, tree.Keys).edges)), tree, tree.Keys)
  {
    assert View(g).nodes == g.nodes;
  }

  lemma CountKeepsCurrent(t: Tools, g: Graph, tree: Tree, p: Path, n: nat)
    requires Current(t, g, tree, tree.Keys)
    ensures Current(t, Apply(g, SetUnresolved(p, n)), tree, tree.Keys)
  {
    var g' := Apply(g, SetUnresolved(p, n));
    assert View(g').files == View(g).files;
    assert View(g').raw == View(g).raw;
  }

  // ---- Every step keeps the invariant ----

  lemma EditKeeps(w: World, trusted: iset<Bytes>, s: State, e: Event, s': State)
    requires Inv(w, trusted, s) && Step(w, trusted, s, e, s') && e.Edit?
    ensures Inv(w, trusted, s')
  {
    assert forall wt <- s.waiting :: WaitingOk(w, s, wt);
  }

  lemma WaitingKeeps(w: World, trusted: iset<Bytes>, s: State, e: Event, s': State)
    requires Inv(w, trusted, s) && Step(w, trusted, s, e, s')
    requires e.Watch? || e.Scan? || e.Die?
    ensures Inv(w, trusted, s')
  {
    forall wt | wt in s'.waiting
      ensures WaitingOk(w, s', wt)
    {
      if wt in s.waiting {
        assert WaitingOk(w, s, wt);
      }
    }
  }

  lemma LockKeeps(w: World, trusted: iset<Bytes>, s: State, e: Event, s': State)
    requires Inv(w, trusted, s) && Step(w, trusted, s, e, s')
    requires e.LockByHand? || e.LockAuto? || e.LockCrawl?
    ensures Inv(w, trusted, s')
  {
    var run' := s'.run.value;
    assert s' == s.(waiting := s'.waiting, run := Some(run')) && s'.waiting <= s.waiting;
    LockTimely(w, trusted, s, e, s');
    NotBegunKeeps(w, trusted, s, s'.waiting, run');
  }

  lemma LockTimely(w: World, trusted: iset<Bytes>, s: State, e: Event, s': State)
    requires Inv(w, trusted, s) && Step(w, trusted, s, e, s')
    requires e.LockByHand? || e.LockAuto? || e.LockCrawl?
    ensures !s'.run.value.Begun() && Timely(w, s, s'.run.value)
  {
    match e
    case LockAuto(snap, at) => assert WaitingOk(w, s, Watched(snap, at));
    case LockCrawl(files, full) => assert WaitingOk(w, s, Scanned(files, full));
    case _ =>
  }

  lemma ObserveTimely(w: World, s: State, snap: Snapshot, run: Run, run': Run)
    requires Timely(w, s, run) && Taken(w, snap, s.version)
    requires run.phase == Locked || run.phase == Inventoried
    requires run' == if run.phase == Locked then
        run.(phase := Watching, observed := snap, snapAt := s.version, mark := s.version)
      else
        run.(phase := Prepared, observed := snap, snapAt := s.version, mark := s.version,
             listedAt := s.version, trusty := Paths(run.files) == s.tree.Keys)
    ensures Timely(w, s, run')
  {
  }

  lemma ObserveKeeps(w: World, trusted: iset<Bytes>, s: State, e: Event, s': State)
    requires Inv(w, trusted, s) && Step(w, trusted, s, e, s') && e.Observe?
    ensures Inv(w, trusted, s')
  {
    var run, run' := s.run.value, s'.run.value;
    ObserveTimely(w, s, e.snap, run, run');
    NotBegunKeeps(w, trusted, s, s.waiting, run');
  }

  /** Before the pass begins only the run's timing matters. */
  lemma NotBegunKeeps(w: World, trusted: iset<Bytes>, s: State, waiting: set<Waiting>, run': Run)
    requires Inv(w, trusted, s) && !run'.Begun() && Timely(w, s, run') && waiting <= s.waiting
    ensures Inv(w, trusted, s.(waiting := waiting, run := Some(run')))
  {
    assert forall wt <- waiting :: WaitingOk(w, s, wt);
  }

  lemma WalkKeeps(w: World, trusted: iset<Bytes>, s: State, e: Event, s': State)
    requires Inv(w, trusted, s) && Step(w, trusted, s, e, s') && e.Walk?
    ensures Inv(w, trusted, s')
  {
    assert forall wt <- s.waiting :: WaitingOk(w, s, wt);
    assert Timely(w, s', s'.run.value);
  }

  lemma BeginKeeps(w: World, trusted: iset<Bytes>, s: State, e: Event, s': State)
    requires Inv(w, trusted, s) && Step(w, trusted, s, e, s') && e.BeginPass?
    ensures Inv(w, trusted, s')
  {
    var run, run' := s.run.value, s'.run.value;
    SoundStep(w.tools, trusted, s.graph, Begin(run.full));
    assert ForgetOps([]) == [];
    assert Progress(w.tools, s'.graph, run');
  }

  lemma {:induction false} AfterFilesUpdate(
    t: Tools, known: map<Path, string>, start: Graph, a: Input, b: Input, k: nat)
    requires |a.results| == |a.files| && b.files == a.files && |b.results| == |b.files| && k <= |a.files|
    requires forall i | 0 <= i < k :: a.results[i] == b.results[i]
    ensures AfterFiles(t, known, start, a, k) == AfterFiles(t, known, start, b, k)
  {
    if k > 0 {
      AfterFilesUpdate(t, known, start, a, b, k - 1);
    }
  }

  lemma ReadKeeps(w: World, trusted: iset<Bytes>, s: State, e: Event, s': State)
    requires Inv(w, trusted, s) && Step(w, trusted, s, e, s') && e.ReadFile?
    ensures Inv(w, trusted, s')
  {
    var run, run' := s.run.value, s'.run.value;
    AfterFilesUpdate(w.tools, RunKnown(run), Apply(run.base, Begin(run.full)), run.Input(), run'.Input(), run.done);
    assert Progress(w.tools, s'.graph, run');
  }

  lemma CurrentKeys(t: Tools, g: Graph, tree: Tree)
    requires Current(t, g, tree, tree.Keys)
    ensures FileHashes(g).Keys == tree.Keys
  {
    assert View(g).files.Keys == g.files.Keys;
    assert Rebuilt(t, tree, tree.Keys).files.Keys == tree.Keys;
  }

  /** Settled and under way means quiet: the run saw exactly this tree. */
  lemma SettledIsQuiet(w: World, trusted: iset<Bytes>, s: State)
    requires Inv(w, trusted, s) && Settled(s) && s.run.Some? && s.run.value.Begun()
    ensures Quiet(s, s.run.value) && !s.run.value.full
    ensures s.run.value.mark == s.version
    ensures RunKnown(s.run.value).Keys == s.tree.Keys == Paths(s.run.value.files)
  {
    var run := s.run.value;
    assert Timely(w, s, run);
    CurrentKeys(w.tools, run.base, s.tree);
  }

  lemma WriteProgress(t: Tools, g: Graph, run: Run, mark: nat)
    requires run.phase == Writing && run.done < |run.files| == |run.results| && run.stale == []
    requires Progress(t, g, run)
    ensures var p, r := run.files[run.done], run.results[run.done];
            Progress(t,
              if t.Reused(RunKnown(run), p, r) then g else Apply(g, Replace(p, t.Contribute(p, r))),
              run.(phase := Parsing, done := run.done + 1, mark := mark))
  {
    assert ForgetOps([]) == [];
  }

  /** On a settled graph the file a run is about to write was read as it is. */
  lemma SettledRead(w: World, trusted: iset<Bytes>, s: State, run: Run)
    requires Inv(w, trusted, s) && Settled(s) && s.run == Some(run) && run.phase == Writing
    ensures run.done < |run.files| == |run.results| && run.files[run.done] in s.tree
    ensures run.results[run.done] == s.tree[run.files[run.done]] && RunKnown(run) == FileHashes(run.base)
  {
    SettledIsQuiet(w, trusted, s);
    assert run.files[run.done] in Paths(run.files);
    assert Reads(s.tree, run.files[run.done], run.results[run.done]);
  }

  lemma WriteCurrent(w: World, trusted: iset<Bytes>, s: State)
    requires Inv(w, trusted, s) && Settled(s)
    requires s.run.Some? && s.run.value.phase == Writing
    ensures var run := s.run.value;
            var p, r := run.files[run.done], run.results[run.done];
            !w.tools.Reused(RunKnown(run), p, r) ==>
            Current(w.tools, Apply(s.graph, Replace(p, w.tools.Contribute(p, r))), s.tree, s.tree.Keys)
  {
    var run := s.run.value;
    SettledRead(w, trusted, s, run);
    if !w.tools.Reused(RunKnown(run), run.files[run.done], run.results[run.done]) {
      SoundWriteKeeps(w.tools, trusted, s.graph, run.base, s.tree, run.files[run.done]);
    }
  }

  lemma SoundWriteKeeps(t: Tools, trusted: iset<Bytes>, g: Graph, base: Graph, tree: Tree, p: Path)
    requires Current(t, g, tree, tree.Keys) && Current(t, base, tree, tree.Keys)
    requires Sound(t, trusted, g) && p in tree && !t.Reused(FileHashes(base), p, tree[p])
    ensures Current(t, Apply(g, Replace(p, t.Contribute(p, tree[p]))), tree, tree.Keys)
  {
    WriteKeepsCurrent(t, g, base, tree, p);
  }

  /** A store call of the run that keeps the baseline: what is left to show. */
  lemma CallKeeps(w: World, trusted: iset<Bytes>, s: State, s': State)
    requires Inv(w, trusted, s) && s.run.Some? && s.run.value.Begun()
    requires s'.run.Some? && s'.run.value.Begun() && s'.run.value.base == s.run.value.base
    requires s' == s.(graph := s'.graph, run := s'.run)
    requires Sound(w.tools, trusted, s'.graph) && s'.graph.baseline == s.graph.baseline
    requires Timely(w, s', s'.run.value) && Underway(w, trusted, s', s'.run.value)
    requires Settled(s) ==> UpToDate(w, s')
    ensures Inv(w, trusted, s')
  {
    assert forall wt <- s.waiting :: WaitingOk(w, s, wt);
  }

  lemma WriteUnderway(w: World, trusted: iset<Bytes>, s: State, run: Run, s': State)
    requires run.phase == Writing && Underway(w, trusted, s, run)
    requires var p, r := run.files[run.done], run.results[run.done];
             s'.graph == if w.tools.Reused(RunKnown(run), p, r) then s.graph
                         else Apply(s.graph, Replace(p, w.tools.Contribute(p, r)))
    requires s'.doubt == s.doubt && s'.version == s.version && s'.tree == s.tree
    ensures Underway(w, trusted, s', run.(phase := Parsing, done := run.done + 1, mark := s.version))
  {
    WriteProgress(w.tools, s.graph, run, s.version);
  }

  lemma WriteSound(t: Tools, trusted: iset<Bytes>, g: Graph, p: Path, r: ReadResult)
    requires Sound(t, trusted, g) && Trusted(trusted, r)
    ensures Sound(t, trusted, Apply(g, Replace(p, t.Contribute(p, r))))
  {
    assert Benign(t, trusted, Replace(p, t.Contribute(p, r)));
    SoundStep(t, trusted, g, Replace(p, t.Contribute(p, r)));
  }

  lemma WriteTimely(w: World, s: State, run: Run, s': State, run': Run)
    requires Timely(w, s, run) && run.Begun() && run'.Begun()
    requires run' == run.(phase := run'.phase, done := run'.done, mark := s.version)
    requires s'.version == s.version && s'.tree == s.tree && s'.stampedAt == s.stampedAt
    requires s'.graph.baseline == s.graph.baseline
    ensures Timely(w, s', run')
  {
  }

  lemma WriteStaysCurrent(w: World, trusted: iset<Bytes>, s: State, e: Event, s': State)
    requires Inv(w, trusted, s) && Step(w, trusted, s, e, s') && e.WriteFile?
    ensures Settled(s) ==> UpToDate(w, s')
  {
    if Settled(s) {
      WriteCurrent(w, trusted, s);
    }
  }

  lemma WriteStaysSound(w: World, trusted: iset<Bytes>, s: State, e: Event, s': State)
    requires Inv(w, trusted, s) && Step(w, trusted, s, e, s') && e.WriteFile?
    ensures Sound(w.tools, trusted, s'.graph)
  {
    var run := s.run.value;
    assert Trusted(trusted, run.results[run.done]);
    WriteSound(w.tools, trusted, s.graph, run.files[run.done], run.results[run.done]);
  }

  lemma WriteKeeps(w: World, trusted: iset<Bytes>, s: State, e: Event, s': State)
    requires Inv(w, trusted, s) && Step(w, trusted, s, e, s') && e.WriteFile?
    ensures Inv(w, trusted, s')
  {
    var run := s.run.value;
    assert Sound(w.tools, trusted, s'.graph) by {
      WriteStaysSound(w, trusted, s, e, s');
    }
    assert Settled(s) ==> UpToDate(w, s') by {
      WriteStaysCurrent(w, trusted, s, e, s');
    }
    assert s' == s.(
      graph := s'.graph, run := Some(run.(phase := Parsing, done := run.done + 1, mark := s.version)));
    WriteDone(w, trusted, s, run, s');
  }

  lemma WriteDone(w: World, trusted: iset<Bytes>, s: State, run: Run, s': State)
    requires Inv(w, trusted, s) && s.run == Some(run) && run.phase == Writing
    requires s' == s.(graph := s'.graph, run := Some(run.(phase := Parsing, done := run.done + 1, mark := s.version)))
    requires run.done < |run.files| == |run.results|
    requires var p, r := run.files[run.done], run.results[run.done];
             s'.graph == if w.tools.Reused(RunKnown(run), p, r) then s.graph
                         else Apply(s.graph, Replace(p, w.tools.Contribute(p, r)))
    requires Sound(w.tools, trusted, s'.graph) && (Settled(s) ==> UpToDate(w, s'))
    ensures Inv(w, trusted, s')
  {
    WriteUnderway(w, trusted, s, run, s');
    WriteTimely(w, s, run, s', s'.run.value);
    CallKeeps(w, trusted, s, s');
  }

  lemma ForgetProgress(t: Tools, g: Graph, run: Run, p: Path, mark: nat)
    requires run.phase == Parsing && run.done == |run.files| == |run.results|
    requires Progress(t, g, run)
    ensures Progress(t, Apply(g, Forget(p)), run.(stale := run.stale + [p], mark := mark))
    ensures Paths(run.stale + [p]) == Paths(run.stale) + {p}
  {
    var h := AfterFiles(t, RunKnown(run), Apply(run.base, Begin(run.full)), run.Input(), run.done);
    Index.ForgetOne(h, run.stale, p);
  }

  lemma ForgetShaped(run: Run, p: Path, mark: nat)
    requires run.phase == Parsing && run.done == |run.files| && Shaped(run)
    requires p in RunKnown(run).Keys - Paths(run.files)
    ensures Shaped(run.(stale := run.stale + [p], mark := mark))
  {
    assert Paths(run.stale + [p]) == Paths(run.stale) + {p};
  }

  lemma ForgetUnderway(w: World, trusted: iset<Bytes>, s: State, run: Run, p: Path, s': State)
    requires run.phase == Parsing && run.done == |run.files|
    requires Underway(w, trusted, s, run)
    requires p in RunKnown(run).Keys - Paths(run.files)
    requires s'.graph == Apply(s.graph, Forget(p)) && s'.doubt == s.doubt
    requires s'.version == s.version && s'.tree == s.tree
    ensures Underway(w, trusted, s', run.(stale := run.stale + [p], mark := s.version))
  {
    ForgetProgress(w.tools, s.graph, run, p, s.version);
    ForgetShaped(run, p, s.version);
  }

  lemma ForgetKeeps(w: World, trusted: iset<Bytes>, s: State, e: Event, s': State)
    requires Inv(w, trusted, s) && Step(w, trusted, s, e, s') && e.ForgetOne?
    ensures Inv(w, trusted, s')
  {
    var run := s.run.value;
    if Settled(s) {
      SettledIsQuiet(w, trusted, s);
    }
    assert s' == s.(graph := s'.graph, run := Some(run.(stale := run.stale + [e.path], mark := s.version)));
    ForgetDone(w, trusted, s, run, e.path, s');
  }

  lemma ForgetDone(w: World, trusted: iset<Bytes>, s: State, run: Run, p: Path, s': State)
    requires Inv(w, trusted, s) && s.run == Some(run) && !Settled(s)
    requires run.phase == Parsing && run.done == |run.files| && p in RunKnown(run).Keys - Paths(run.files)
    requires s' == s.(graph := Apply(s.graph, Forget(p)),
                      run := Some(run.(stale := run.stale + [p], mark := s.version)))
    ensures Inv(w, trusted, s')
  {
    SoundStep(w.tools, trusted, s.graph, Forget(p));
    ForgetUnderway(w, trusted, s, run, p, s');
    CallKeeps(w, trusted, s, s');
  }

  lemma ResolveKeeps(w: World, trusted: iset<Bytes>, s: State, e: Event, s': State)
    requires Inv(w, trusted, s) && Step(w, trusted, s, e, s') && e.Resolve?
    ensures Inv(w, trusted, s')
  {
    var run, run' := s.run.value, s'.run.value;
    AfterFilesUpdate(w.tools, RunKnown(run), Apply(run.base, Begin(run.full)), run.Input(), run'.Input(), run.done);
    assert Progress(w.tools, s'.graph, run');
  }

  // ---- Edges, counts and the stamp ----

  lemma EdgesProgress(t: Tools, g: Graph, run: Run, mark: nat)
    requires run.phase == Rebuilding && run.done == |run.files| == |run.results| && run.counts == []
    requires Distinct(run.files) && Progress(t, g, run)
    ensures Progress(t, Apply(g, Rebuild(RunResolved(t, run).edges)), run.(phase := Counting, mark := mark))
  {
    DistinctValid(run.Input());
    ParseStages(t, run.base, run.Input(), run.full, run.stale);
    assert UnresolvedOps([]) == [];
  }

  lemma EdgesUnderway(w: World, trusted: iset<Bytes>, s: State, run: Run, s': State)
    requires run.phase == Rebuilding && run.counts == [] && Distinct(run.files)
    requires Underway(w, trusted, s, run)
    requires s'.graph == Apply(s.graph, Rebuild(RunResolved(w.tools, run).edges))
    requires s'.doubt == s.doubt && s'.version == s.version && s'.tree == s.tree
    ensures Underway(w, trusted, s', run.(phase := Counting, mark := s.version))
  {
    EdgesProgress(w.tools, s.graph, run, s.version);
  }

  /** A quiet run hands the resolver exactly the tree's facts. */
  lemma QuietResolves(w: World, trusted: iset<Bytes>, s: State, run: Run)
    requires CollisionFree(w.tools, trusted)
    requires run.phase == Rebuilding || run.phase == Counting
    requires Timely(w, s, run) && Underway(w, trusted, s, run) && Quiet(s, run)
    ensures run.Input().Valid() && Ready(w.tools, trusted, run.base, run.Input())
    ensures Image(run.Input()) == s.tree
    ensures RunResolved(w.tools, run) == ImageResolved(w.tools, s.tree, s.tree.Keys)
  {
    DistinctValid(run.Input());
    assert Paths(run.files) == s.tree.Keys;
    assert forall i | 0 <= i < |run.files| :: Reads(s.tree, run.files[i], run.results[i]);
    ImageIsTree(run.Input(), s.tree);
    PassFactsAreImageFacts(w.tools, trusted, run.base, run.Input(), run.full, run.stale);
  }

  lemma EdgesKeeps(w: World, trusted: iset<Bytes>, s: State, e: Event, s': State)
    requires CollisionFree(w.tools, trusted)
    requires Inv(w, trusted, s) && Step(w, trusted, s, e, s') && e.WriteEdges?
    ensures Inv(w, trusted, s')
  {
    var run := s.run.value;
    assert Settled(s) ==> UpToDate(w, s') by {
      if Settled(s) {
        SettledIsQuiet(w, trusted, s);
        QuietResolves(w, trusted, s, run);
        RebuildKeepsCurrent(w.tools, s.graph, s.tree);
      }
    }
    assert Sound(w.tools, trusted, s'.graph) by {
      SoundStep(w.tools, trusted, s.graph, Rebuild(RunResolved(w.tools, run).edges));
    }
    assert Underway(w, trusted, s', s'.run.value) by {
      EdgesUnderway(w, trusted, s, run, s');
    }
    CallKeeps(w, trusted, s, s');
  }

  lemma CountUnderway(w: World, trusted: iset<Bytes>, s: State, run: Run, c: (Path, nat), s': State)
    requires run.phase == Counting && Underway(w, trusted, s, run)
    requires c in RunResolved(w.tools, run).unresolved.Items
    requires s'.graph == Apply(s.graph, SetUnresolved(c.0, c.1))
    requires s'.doubt == s.doubt && s'.version == s.version && s'.tree == s.tree
    ensures Underway(w, trusted, s', run.(counts := run.counts + [c], mark := s.version))
  {
    var h := Apply(ApplyAll(run.base, ParseOps(w.tools, run.base, run.Input(), run.full, run.stale)),
                   Rebuild(RunResolved(w.tools, run).edges));
    Index.CountOne(h, run.counts, c);
    assert (set d <- run.counts + [c]) == (set d <- run.counts) + {c};
  }

  lemma CountKeeps(w: World, trusted: iset<Bytes>, s: State, e: Event, s': State)
    requires Inv(w, trusted, s) && Step(w, trusted, s, e, s') && e.CountOne?
    ensures Inv(w, trusted, s')
  {
    var run, c := s.run.value, e.count;
    assert s' == s.(graph := s'.graph, run := Some(run.(counts := run.counts + [c], mark := s.version)));
    if Settled(s) {
      CountKeepsCurrent(w.tools, s.graph, s.tree, c.0, c.1);
    }
    CountDone(w, trusted, s, run, c, s');
  }

  lemma CountDone(w: World, trusted: iset<Bytes>, s: State, run: Run, c: (Path, nat), s': State)
    requires Inv(w, trusted, s) && s.run == Some(run) && run.phase == Counting
    requires |run.results| == |run.files| && c in RunResolved(w.tools, run).unresolved.Items
    requires s' == s.(graph := Apply(s.graph, SetUnresolved(c.0, c.1)),
                      run := Some(run.(counts := run.counts + [c], mark := s.version)))
    requires Settled(s) ==> UpToDate(w, s')
    ensures Inv(w, trusted, s')
  {
    SoundStep(w.tools, trusted, s.graph, SetUnresolved(c.0, c.1));
    CountUnderway(w, trusted, s, run, c, s');
    CallKeeps(w, trusted, s, s');
  }

  /** A run that stamps has made exactly the calls of a complete pass. */
  lemma StampCompletes(w: World, trusted: iset<Bytes>, s: State, run: Run)
    requires run.phase == Counting && Distinct(run.files) && Underway(w, trusted, s, run)
    requires (set c <- run.counts) == RunResolved(w.tools, run).unresolved.Items
    ensures run.Input().Valid()
    ensures IsPass(w.tools, run.base, run.Input(), run.full, run.stale, run.counts)
    ensures Apply(s.graph, SetFreshness(BaselineOf(run.observed))) ==
            ApplyAll(run.base, PassOps(w.tools, run.base, run.Input(), run.full, run.stale, run.counts))
  {
    DistinctValid(run.Input());
    PassRuns(w.tools, run.base, run.Input(), run.full, run.stale, run.counts);
  }

  lemma StampCurrent(w: World, trusted: iset<Bytes>, s: State, run: Run)
    requires CollisionFree(w.tools, trusted)
    requires run.phase == Counting && Timely(w, s, run) && Underway(w, trusted, s, run) && Quiet(s, run)
    requires (set c <- run.counts) == RunResolved(w.tools, run).unresolved.Items
    ensures Current(w.tools, Apply(s.graph, SetFreshness(BaselineOf(run.observed))), s.tree, s.tree.Keys)
  {
    QuietResolves(w, trusted, s, run);
    StampCompletes(w, trusted, s, run);
    PassLeavesRebuiltGraph(w.tools, trusted, run.base, run.Input(), run.full, run.stale, run.counts);
  }

  /** A run that stamps settles only a graph that is up to date. */
  lemma StampSettles(w: World, trusted: iset<Bytes>, s: State, e: Event, s': State)
    requires CollisionFree(w.tools, trusted)
    requires Inv(w, trusted, s) && Step(w, trusted, s, e, s') && e.Stamp?
    ensures Settled(s') ==> UpToDate(w, s')
  {
    if Settled(s') {
      StampCurrent(w, trusted, s, s.run.value);
    }
  }

  lemma StampStays(w: World, trusted: iset<Bytes>, s: State, e: Event, s': State)
    requires Inv(w, trusted, s) && Step(w, trusted, s, e, s') && e.Stamp?
    ensures Sound(w.tools, trusted, s'.graph) && Stamped(w, s')
  {
    var run := s.run.value;
    SoundStep(w.tools, trusted, s.graph, SetFreshness(BaselineOf(run.observed)));
    assert Taken(w, run.observed, s'.stampedAt);
  }

  lemma StampKeeps(w: World, trusted: iset<Bytes>, s: State, e: Event, s': State)
    requires CollisionFree(w.tools, trusted)
    requires Inv(w, trusted, s) && Step(w, trusted, s, e, s') && e.Stamp?
    ensures Inv(w, trusted, s')
  {
    StampSettles(w, trusted, s, e, s');
    StampStays(w, trusted, s, e, s');
    assert s'.run == None && s'.waiting == s.waiting && s'.tree == s.tree && s'.version == s.version;
    assert forall wt <- s.waiting :: WaitingOk(w, s, wt);
  }

  lemma EarlyStepKeeps(w: World, trusted: iset<Bytes>, s: State, e: Event, s': State)
    requires Inv(w, trusted, s) && Step(w, trusted, s, e, s')
    requires e.Edit? || e.Watch? || e.Scan? || e.Die? || e.LockByHand? || e.LockAuto? || e.LockCrawl?
             || e.Observe? || e.Walk?
    ensures Inv(w, trusted, s')
  {
    if e.Edit? {
      EditKeeps(w, trusted, s, e, s');
    } else if e.LockByHand? || e.LockAuto? || e.LockCrawl? {
      LockKeeps(w, trusted, s, e, s');
    } else if e.Observe? {
      ObserveKeeps(w, trusted, s, e, s');
    } else if e.Walk? {
      WalkKeeps(w, trusted, s, e, s');
    } else {
      WaitingKeeps(w, trusted, s, e, s');
    }
  }

  lemma StoreStepKeeps(w: World, trusted: iset<Bytes>, s: State, e: Event, s': State)
    requires CollisionFree(w.tools, trusted)
    requires Inv(w, trusted, s) && Step(w, trusted, s, e, s')
    requires e.WriteFile? || e.ForgetOne? || e.WriteEdges? || e.CountOne? || e.Stamp?
    ensures Inv(w, trusted, s')
  {
    if e.WriteFile? {
      WriteKeeps(w, trusted, s, e, s');
    } else if e.ForgetOne? {
      ForgetKeeps(w, trusted, s, e, s');
    } else if e.WriteEdges? {
      EdgesKeeps(w, trusted, s, e, s');
    } else if e.CountOne? {
      CountKeeps(w, trusted, s, e, s');
    } else {
      StampKeeps(w, trusted, s, e, s');
    }
  }

  lemma StepKeeps(w: World, trusted: iset<Bytes>, s: State, e: Event, s': State)
    requires CollisionFree(w.tools, trusted)
    requires Inv(w, trusted, s) && Step(w, trusted, s, e, s')
    ensures Inv(w, trusted, s')
  {
    if e.WriteFile? || e.ForgetOne? || e.WriteEdges? || e.CountOne? || e.Stamp? {
      StoreStepKeeps(w, trusted, s, e, s');
    } else if e.BeginPass? {
      BeginKeeps(w, trusted, s, e, s');
    } else if e.ReadFile? {
      ReadKeeps(w, trusted, s, e, s');
    } else if e.Resolve? {
      ResolveKeeps(w, trusted, s, e, s');
    } else {
      EarlyStepKeeps(w, trusted, s, e, s');
    }
  }

  // ---- Over whole runs ----

  /** `states` is a behaviour of the refreshers, the tree and the readers. */
  ghost predicate Behaviour(w: World, trusted: iset<Bytes>, states: seq<State>, events: seq<Event>) {
    && |states| == |events| + 1
    && Init(trusted, states[0])
    && forall i | 0 <= i < |events| :: Step(w, trusted, states[i], events[i], states[i + 1])
  }

  lemma {:induction false} BehaviourKeeps(w: World, trusted: iset<Bytes>, states: seq<State>, events: seq<Event>,
                                          n: nat)
    requires CollisionFree(w.tools, trusted)
    requires Behaviour(w, trusted, states, events) && n < |states|
    ensures Inv(w, trusted, states[n])
  {
    if n > 0 {
      BehaviourKeeps(w, trusted, states, events, n - 1);
      StepKeeps(w, trusted, states[n - 1], events[n - 1], states[n]);
    }
  }

  /** Fresh is only ever said of the version the baseline was stamped at. */
  lemma FreshIsStampedVersion(w: World, s: State)
    requires Separates(w) && Stamped(w, s) && SaysFresh(w, s)
    ensures s.graph.baseline.Some? && s.stampedAt == s.version
  {
    var snap: Snapshot :| Taken(w, snap, s.stampedAt) && s.graph.baseline == Some(BaselineOf(snap));
    FreshExactly(snap, Signals(w, s.version));
  }

  /** Freshness soundness: at every moment of every behaviour, with any number of
      refreshers, edits between any two of their steps and deaths at any step,
      a graph that reads Fresh and is not in doubt is exactly the index of the
      tree as it is now. */
  lemma FreshIsCurrent(w: World, trusted: iset<Bytes>, states: seq<State>, events: seq<Event>, n: nat)
    requires Separates(w) && CollisionFree(w.tools, trusted)
    requires Behaviour(w, trusted, states, events) && n < |states|
    requires SaysFresh(w, states[n]) && !states[n].doubt
    ensures UpToDate(w, states[n])
  {
    BehaviourKeeps(w, trusted, states, events, n);
    FreshIsStampedVersion(w, states[n]);
  }

  /** A full pass between clearing the project and stamping it. */
  predicate FullAtWork(s: State) {
    s.run.Some? && s.run.value.full && s.run.value.Begun()
  }

  /** What keeps the refreshers honest: no full pass is given up half way, and a
      crawl takes its snapshot of a tree its inventory still lists. */
  predicate Careful(s: State, e: Event) {
    && (e.Die? ==> !FullAtWork(s))
    && (e.Observe? && s.run.Some? && s.run.value.phase == Inventoried ==> Paths(s.run.value.files) == s.tree.Keys)
  }

  ghost predicate Calm(s: State) {
    && (s.doubt ==> FullAtWork(s))
    && (s.run.Some? ==> s.run.value.trusty)
  }

  lemma CalmStep(w: World, trusted: iset<Bytes>, s: State, e: Event, s': State)
    requires Calm(s) && Careful(s, e) && Step(w, trusted, s, e, s')
    ensures Calm(s')
  {
    match e
    case BeginPass => assert s'.run.value.full == s.run.value.full;
    case _ =>
  }

  /** The empty store, or the moment after a run has stamped whose inventory was right
      when it took its snapshot, as a refresh's always is: whatever went wrong before
      is made good. */
  predicate FreshStart(states: seq<State>, events: seq<Event>, m: nat)
    requires |states| == |events| + 1 && m < |states|
  {
    m == 0 || (events[m - 1].Stamp? && states[m - 1].run.Some? && states[m - 1].run.value.trusty)
  }

  lemma {:induction false} CalmKeeps(
    w: World, trusted: iset<Bytes>, states: seq<State>, events: seq<Event>, m: nat, n: nat)
    requires Behaviour(w, trusted, states, events) && m <= n < |states| && FreshStart(states, events, m)
    requires forall i | m <= i < n :: Careful(states[i], events[i])
    ensures Calm(states[n])
  {
    if n > m {
      CalmKeeps(w, trusted, states, events, m, n - 1);
      CalmNext(w, trusted, states, events, n - 1);
    } else {
      StartCalm(w, trusted, states, events, m);
    }
  }

  lemma CalmNext(w: World, trusted: iset<Bytes>, states: seq<State>, events: seq<Event>, k: nat)
    requires Behaviour(w, trusted, states, events) && k < |events|
    requires Calm(states[k]) && Careful(states[k], events[k])
    ensures Calm(states[k + 1])
  {
    assert Step(w, trusted, states[k], events[k], states[k + 1]);
    CalmStep(w, trusted, states[k], events[k], states[k + 1]);
  }

  lemma StartCalm(w: World, trusted: iset<Bytes>, states: seq<State>, events: seq<Event>, m: nat)
    requires Behaviour(w, trusted, states, events) && m < |states| && FreshStart(states, events, m)
    ensures Calm(states[m])
  {
    if m > 0 {
      var k := m - 1;
      assert Step(w, trusted, states[k], events[k], states[k + 1]);
      StampCalm(w, trusted, states[k], events[k], states[k + 1]);
    }
  }

  lemma StampCalm(w: World, trusted: iset<Bytes>, s: State, e: Event, s': State)
    requires Step(w, trusted, s, e, s') && e.Stamp? && s.run.Some? && s.run.value.trusty
    ensures Calm(s')
  {
  }

  /** Freshness soundness: any number of refreshers, incremental, full and crawling,
      edits between any two of their steps, incremental passes and waiting children
      dying anywhere. Except while a full pass is at work, Fresh is only ever said of
      a graph that is the index of the tree as it is now. Care is only needed since
      the last good stamp. */
  lemma FreshNeverLies(w: World, trusted: iset<Bytes>, states: seq<State>, events: seq<Event>, m: nat, n: nat)
    requires Separates(w) && CollisionFree(w.tools, trusted)
    requires Behaviour(w, trusted, states, events) && m <= n < |states| && FreshStart(states, events, m)
    requires forall i | m <= i < n :: Careful(states[i], events[i])
    ensures !FullAtWork(states[n]) && SaysFresh(w, states[n]) ==> UpToDate(w, states[n])
  {
    CalmKeeps(w, trusted, states, events, m, n);
    if !FullAtWork(states[n]) && SaysFresh(w, states[n]) {
      FreshIsCurrent(w, trusted, states, events, n);
    }
  }

  // ---- Where the doubt is, and that it is all needed ----

  /** A full pass clears the rows and keeps the baseline. From a settled graph,
      the moment it begins the graph still reads Fresh, and is still right exactly
      when the pass is incremental or there was nothing to clear. */
  lemma ClearingLies(w: World, trusted: iset<Bytes>, s: State, e: Event, s': State)
    requires Inv(w, trusted, s) && Settled(s) && SaysFresh(w, s)
    requires Step(w, trusted, s, e, s') && e.BeginPass?
    ensures SaysFresh(w, s')
    ensures UpToDate(w, s') <==> !s.run.value.full || s.tree == map[]
  {
    if s.run.value.full {
      ClearedExactly(w.tools, s.graph, s.tree);
    }
  }

  /** A current graph stays current when it is cleared exactly if nothing was in it. */
  lemma ClearedExactly(t: Tools, g: Graph, tree: Tree)
    requires Current(t, g, tree, tree.Keys)
    ensures Current(t, Apply(g, Begin(true)), tree, tree.Keys) <==> tree == map[]
  {
    var g' := Apply(g, Begin(true));
    assert View(g').files == map[];
    if Current(t, g', tree, tree.Keys) {
      assert Rebuilt(t, tree, tree.Keys).files.Keys == tree.Keys;
    }
    if tree == map[] {
      assert View(g).nodes == map[];
      assert View(g') == View(g);
    }
  }

  // ---- While a full pass is at work ----

  lemma {:induction false} NoEdgesYet(t: Tools, known: map<Path, string>, start: Graph, input: Input, k: nat, h: Graph)
    requires |input.results| == |input.files| && k <= |input.files| && start.edges == {}
    requires h == AfterFiles(t, known, start, input, k)
    ensures h.edges == {}
  {
    if k > 0 {
      NoEdgesYet(t, known, start, input, k - 1, AfterFiles(t, known, start, input, k - 1));
    }
  }

  lemma NonEmptyPaths(files: seq<Path>)
    ensures files != [] ==> Paths(files) != {}
  {
    if files != [] {
      assert files[0] in Paths(files);
    }
  }

  /** A full pass that has not rebuilt the edges holds the files done so far, and
      nothing else. */
  lemma FullRows(t: Tools, g: Graph, run: Run)
    requires run.Begun() && run.full && run.phase != Counting && Distinct(run.files)
    requires Shaped(run) && Progress(t, g, run)
    ensures run.Input().Valid() && g.edges == {}
    ensures FilesDone(run.base, g, run.Input(), Wanted(t, run.Input()), {}, run.done)
  {
    var input, start := run.Input(), Apply(run.base, Begin(true));
    DistinctValid(input);
    NonEmptyPaths(run.stale);
    assert ForgetOps(run.stale) == [];
    ClearedStart(t, run.base, input);
    FilesUpTo(t, map[], run.base, start, input, Wanted(t, input), run.done, g);
    NoEdgesYet(t, map[], start, input, run.done, g);
  }

  lemma ClearedStart(t: Tools, base: Graph, input: Input)
    requires input.Valid()
    ensures FilesDone(base, Apply(base, Begin(true)), input, Wanted(t, input), {}, 0)
    ensures ReusesHold(t, map[], base, input, Wanted(t, input))
  {
    assert input.Paths(0) == {};
  }

  /** Too few rows are never a current graph. */
  lemma RowsMissing(t: Tools, g: Graph, run: Run, tree: Tree)
    requires run.Input().Valid() && Shaped(run) && run.done < |run.files| && Paths(run.files) == tree.Keys
    requires FilesDone(run.base, g, run.Input(), Wanted(t, run.Input()), {}, run.done)
    ensures !Current(t, g, tree, tree.Keys)
  {
    var p := run.files[run.done];
    assert p in Paths(run.files);
    forall i | 0 <= i < run.done
      ensures run.files[i] != p
    {
      assert run.Input().Differ(i, run.done);
    }
    assert p !in run.Input().Paths(run.done);
    if Current(t, g, tree, tree.Keys) {
      CurrentKeys(t, g, tree);
    }
  }

  /** All rows and no edges are a current graph exactly when there are none to have. */
  lemma RowsOnly(t: Tools, g: Graph, input: Input, tree: Tree)
    requires input.Valid() && Image(input) == tree && g.edges == {}
    requires Holding(g, input, Wanted(t, input))
    ensures Current(t, g, tree, tree.Keys) <==> Rebuilt(t, tree, tree.Keys).edges == {}
  {
    ViewOfHolding(t, g, input);
    SameContributions(t, g, tree);
    assert View(g).files == Rebuilt(t, tree, tree.Keys).files;
  }

  /** Once the edges are written the graph is current, whatever counts are missing. */
  lemma CountingCurrent(w: World, trusted: iset<Bytes>, s: State, run: Run)
    requires CollisionFree(w.tools, trusted) && run.phase == Counting
    requires Timely(w, s, run) && Underway(w, trusted, s, run) && Quiet(s, run)
    ensures UpToDate(w, s)
  {
    var t, input := w.tools, run.Input();
    QuietResolves(w, trusted, s, run);
    DistinctValid(input);
    var h := ApplyAll(run.base, ParseOps(t, run.base, input, run.full, run.stale));
    ParsedRows(t, trusted, run.base, input, run.full, run.stale);
    ViewOfHolding(t, h, input);
    CountsApplied(Apply(h, Rebuild(RunResolved(t, run).edges)), run.counts);
    CurrentWhenHolding(t, h, s.tree, s.tree.Keys, CountsOf(run.counts), h.baseline);
  }

  /** Everything a reader can see is there: the edges are written, or all rows are
      and there are no edges to write. */
  ghost predicate Complete(w: World, s: State, run: Run) {
    run.phase == Counting || (run.done == |run.files| && Rebuilt(w.tools, s.tree, s.tree.Keys).edges == {})
  }

  lemma FullPassExactly(w: World, trusted: iset<Bytes>, s: State, run: Run)
    requires CollisionFree(w.tools, trusted) && run.Begun() && run.full
    requires Timely(w, s, run) && Underway(w, trusted, s, run) && Quiet(s, run)
    ensures UpToDate(w, s) <==> Complete(w, s, run)
  {
    if run.phase == Counting {
      CountingCurrent(w, trusted, s, run);
    } else {
      FullRows(w.tools, s.graph, run);
      if run.done < |run.files| {
        RowsMissing(w.tools, s.graph, run, s.tree);
      } else {
        ImageIsTree(run.Input(), s.tree);
        AllRowsHeld(w.tools, s.graph, run);
        RowsOnly(w.tools, s.graph, run.Input(), s.tree);
      }
    }
  }

  lemma AllRowsHeld(t: Tools, g: Graph, run: Run)
    requires run.Input().Valid() && run.done == |run.files|
    requires FilesDone(run.base, g, run.Input(), Wanted(t, run.Input()), {}, run.done)
    ensures Holding(g, run.Input(), Wanted(t, run.Input()))
  {
  }

  /** What Fresh is worth at every moment: outside full passes the graph is current;
      inside one it is current exactly when the pass has made it complete. And a pass
      that dies leaves the graph, and the answer, as they are. */
  lemma FreshExactlyCurrent(w: World, trusted: iset<Bytes>, states: seq<State>, events: seq<Event>, m: nat, n: nat)
    requires Separates(w) && CollisionFree(w.tools, trusted)
    requires Behaviour(w, trusted, states, events) && m <= n < |states| && FreshStart(states, events, m)
    requires forall i | m <= i < n :: Careful(states[i], events[i])
    requires SaysFresh(w, states[n])
    ensures UpToDate(w, states[n]) <==> !FullAtWork(states[n]) || Complete(w, states[n], states[n].run.value)
  {
    var s := states[n];
    CalmKeeps(w, trusted, states, events, m, n);
    BehaviourKeeps(w, trusted, states, events, n);
    if FullAtWork(s) {
      FreshIsStampedVersion(w, s);
      FullPassExactly(w, trusted, s, s.run.value);
    } else {
      FreshNeverLies(w, trusted, states, events, m, n);
    }
  }

  /** And what the death of a full pass leaves: a graph that, as long as it reads Fresh,
      is current exactly when the pass had made it complete. */
  lemma DeathExactlyCurrent(w: World, trusted: iset<Bytes>, states: seq<State>, events: seq<Event>, m: nat, n: nat,
                            s': State)
    requires Separates(w) && CollisionFree(w.tools, trusted)
    requires Behaviour(w, trusted, states, events) && m <= n < |states| && FreshStart(states, events, m)
    requires forall i | m <= i < n :: Careful(states[i], events[i])
    requires FullAtWork(states[n]) && Step(w, trusted, states[n], Die, s') && SaysFresh(w, s')
    ensures UpToDate(w, s') <==> Complete(w, states[n], states[n].run.value)
  {
    FreshExactlyCurrent(w, trusted, states, events, m, n);
  }

  /** Nor does dying repair it: the false Fresh survives the run, and as long as
      the tree does not move the automatic refresher declines to look again. */
  lemma NothingHealsIt(w: World, trusted: iset<Bytes>, s: State, e: Event, s': State)
    requires SaysFresh(w, s) && Step(w, trusted, s, e, s')
    ensures e.Die? ==> SaysFresh(w, s') && s'.graph == s.graph && s'.tree == s.tree
    ensures !e.Watch?
  {
  }

  /** When nothing moved between a run's snapshot and its stamp, the stamped
      graph is right exactly when the inventory it worked from was: a refresh,
      which walks after its snapshot, always; a crawl, which scans before, only
      if the set of files did not change in between. */
  lemma StampExactly(w: World, trusted: iset<Bytes>, s: State, e: Event, s': State)
    requires CollisionFree(w.tools, trusted)
    requires Inv(w, trusted, s) && Step(w, trusted, s, e, s') && e.Stamp?
    requires s.version == s.run.value.snapAt
    ensures UpToDate(w, s') <==> Paths(s.run.value.files) == s.tree.Keys
    ensures s'.doubt <==> Paths(s.run.value.files) != s.tree.Keys
  {
    var run := s.run.value;
    if run.trusty {
      StampCurrent(w, trusted, s, run);
    } else {
      StampCompletes(w, trusted, s, run);
      PassLeavesRebuiltGraph(w.tools, trusted, run.base, run.Input(), run.full, run.stale, run.counts);
      StampedFiles(w.tools, trusted, s'.graph, run.Input());
      if UpToDate(w, s') {
        CurrentKeys(w.tools, s'.graph, s.tree);
      }
    }
  }

  lemma StampedFiles(t: Tools, trusted: iset<Bytes>, g: Graph, input: Input)
    requires input.Valid() && Current(t, g, Image(input), input.onDisk)
    ensures FileHashes(g).Keys == Paths(input.files)
  {
    ImageAt(input, |input.files|);
    assert input.Paths(|input.files|) == Paths(input.files);
    assert View(g).files.Keys == g.files.Keys;
  }

  // ---- No run is ever stuck ----

  lemma {:induction false} Listing(paths: set<Path>) returns (files: seq<Path>)
    ensures Distinct(files) && Paths(files) == paths
    decreases |paths|
  {
    files := [];
    if paths != {} {
      var p :| p in paths;
      var rest := Listing(paths - {p});
      files := [p] + rest;
      assert p !in Paths(rest) && Paths(files) == {p} + Paths(rest);
    }
  }

  /** What a run does next by itself, whatever the tree has done meanwhile. */
  predicate OwnStep(e: Event) {
    || e.Observe? || e.Walk? || e.BeginPass? || e.ReadFile? || e.WriteFile? || e.ForgetOne? || e.Resolve?
    || e.WriteEdges? || e.CountOne? || e.Stamp?
  }

  /** From every state the invariant allows, the holder of the lock has a step to
      take; so as long as it lives it goes on to its stamp. */
  lemma NeverStuck(w: World, trusted: iset<Bytes>, s: State) returns (e: Event, s': State)
    requires Inv(w, trusted, s) && s.run.Some?
    ensures OwnStep(e) && Step(w, trusted, s, e, s')
  {
    var run := s.run.value;
    match run.phase
    case Locked | Inventoried => e, s' := ObservesNext(w, trusted, s, run);
    case Watching | Prepared => e, s' := BeginsNext(w, trusted, s, run);
    case Parsing => e, s' := ParsingGoesOn(w, trusted, s, run);
    case Writing | Rebuilding => e, s' := WritesNext(w, trusted, s, run);
    case Counting => e, s' := CountingGoesOn(w, trusted, s, run);
  }

  lemma ObservesNext(w: World, trusted: iset<Bytes>, s: State, run: Run) returns (e: Event, s': State)
    requires s.run == Some(run) && (run.phase == Locked || run.phase == Inventoried)
    ensures OwnStep(e) && Step(w, trusted, s, e, s')
  {
    var seen := run.(observed := Signals(w, s.version), snapAt := s.version, mark := s.version);
    e := Observe(Signals(w, s.version));
    s' := s.(run := Some(
      if run.phase == Locked then seen.(phase := Watching)
      else seen.(phase := Prepared, listedAt := s.version, trusty := Paths(run.files) == s.tree.Keys)));
  }

  lemma BeginsNext(w: World, trusted: iset<Bytes>, s: State, run: Run) returns (e: Event, s': State)
    requires s.run == Some(run) && (run.phase == Watching || run.phase == Prepared)
    ensures OwnStep(e) && Step(w, trusted, s, e, s')
  {
    if run.phase == Watching {
      var files := Listing(s.tree.Keys);
      e, s' := Walk(files),
        s.(run := Some(run.(phase := Prepared, files := files, listedAt := run.mark, mark := s.version)));
    } else {
      e, s' := BeginPass,
        s.(graph := Apply(s.graph, Begin(run.full)), doubt := s.doubt || run.full || !run.trusty,
           run := Some(run.(phase := Parsing, base := s.graph, done := 0, mark := s.version,
                            results := Unstarted(|run.files|))));
    }
  }

  lemma WritesNext(w: World, trusted: iset<Bytes>, s: State, run: Run) returns (e: Event, s': State)
    requires s.run == Some(run) && (run.phase == Writing || run.phase == Rebuilding) && Shaped(run)
    ensures OwnStep(e) && Step(w, trusted, s, e, s')
  {
    if run.phase == Writing {
      var p, r := run.files[run.done], run.results[run.done];
      e, s' := WriteFile,
        s.(graph := if w.tools.Reused(RunKnown(run), p, r) then s.graph
                    else Apply(s.graph, Replace(p, w.tools.Contribute(p, r))),
           run := Some(run.(phase := Parsing, done := run.done + 1, mark := s.version)));
    } else {
      e, s' := WriteEdges,
        s.(graph := Apply(s.graph, Rebuild(RunResolved(w.tools, run).edges)),
           run := Some(run.(phase := Counting, mark := s.version)));
    }
  }

  lemma ParsingGoesOn(w: World, trusted: iset<Bytes>, s: State, run: Run) returns (e: Event, s': State)
    requires s.run == Some(run) && run.phase == Parsing && Shaped(run)
    requires forall p <- s.tree :: Trusted(trusted, s.tree[p])
    ensures OwnStep(e) && Step(w, trusted, s, e, s')
  {
    var vanished := RunKnown(run).Keys - Paths(run.files) - Paths(run.stale);
    if run.done < |run.files| {
      var p := run.files[run.done];
      var r := if p in s.tree then s.tree[p] else Unread("");
      e, s' := ReadFile(r),
        s.(run := Some(run.(phase := Writing, results := run.results[run.done := r], mark := s.version)));
    } else if vanished != {} {
      var p :| p in vanished;
      e, s' := ForgetOne(p),
        s.(graph := Apply(s.graph, Forget(p)), run := Some(run.(stale := run.stale + [p], mark := s.version)));
    } else {
      AllForgotten(run);
      e, s' := Resolve(s.tree.Keys),
        s.(run := Some(run.(phase := Rebuilding, onDisk := s.tree.Keys, mark := s.version)));
    }
  }

  lemma AllForgotten(run: Run)
    requires Shaped(run) && RunKnown(run).Keys - Paths(run.files) - Paths(run.stale) == {}
    ensures Paths(run.stale) == RunKnown(run).Keys - Paths(run.files)
  {
    forall p | p in RunKnown(run).Keys - Paths(run.files)
      ensures p in Paths(run.stale)
    {
      assert p !in RunKnown(run).Keys - Paths(run.files) - Paths(run.stale);
    }
  }

  lemma CountingGoesOn(w: World, trusted: iset<Bytes>, s: State, run: Run) returns (e: Event, s': State)
    requires s.run == Some(run) && run.phase == Counting && Shaped(run)
    requires (set c <- run.counts) <= RunResolved(w.tools, run).unresolved.Items
    ensures OwnStep(e) && Step(w, trusted, s, e, s')
  {
    var left := RunResolved(w.tools, run).unresolved.Items - (set c <- run.counts);
    if left != {} {
      var c :| c in left;
      e, s' := CountOne(c),
        s.(graph := Apply(s.graph, SetUnresolved(c.0, c.1)),
           run := Some(run.(counts := run.counts + [c], mark := s.version)));
    } else {
      AllCounted(RunResolved(w.tools, run).unresolved.Items, set c <- run.counts);
      e, s' := Stamp,
        s.(graph := Apply(s.graph, SetFreshness(BaselineOf(run.observed))), stampedAt := run.snapAt,
           doubt := !run.trusty, run := None);
    }
  }

  lemma AllCounted<T>(all: set<T>, done: set<T>)
    requires done <= all && all - done == {}
    ensures done == all
  {
    forall c | c in all
      ensures c in done
    {
      assert c !in all - done;
    }
  }

  // ---- The false Fresh is reached ----

  ghost predicate Reached(w: World, trusted: iset<Bytes>, s: State) {
    exists states: seq<State>, events: seq<Event> ::
      Behaviour(w, trusted, states, events) && states[|states| - 1] == s
  }

  lemma Reach(w: World, trusted: iset<Bytes>, s: State, e: Event, s': State)
    requires Reached(w, trusted, s) && Step(w, trusted, s, e, s')
    ensures Reached(w, trusted, s')
  {
    var states: seq<State>, events: seq<Event> :|
      Behaviour(w, trusted, states, events) && states[|states| - 1] == s;
    var more, onward := states + [s'], events + [e];
    forall i | 0 <= i < |onward|
      ensures Step(w, trusted, more[i], onward[i], more[i + 1])
    {
      if i < |events| {
        assert more[i] == states[i] && more[i + 1] == states[i + 1];
      }
    }
    assert Behaviour(w, trusted, more, onward);
  }

  lemma ReachInit(w: World, trusted: iset<Bytes>, s: State)
    requires Init(trusted, s)
    ensures Reached(w, trusted, s)
  {
    assert Behaviour(w, trusted, [s], []);
  }

  ghost predicate Idle(w: World, trusted: iset<Bytes>, s: State) {
    Reached(w, trusted, s) && s.run.None?
  }

  /** The run of a refresh by hand over one file, its pass just begun. */
  function BegunRun(w: World, p: Path, full: bool, v: nat, base: Graph): Run {
    NewRun(full, Parsing, v).(observed := Signals(w, v), snapAt := v, files := [p], listedAt := v,
                              base := base, results := Unstarted(1))
  }

  /** A state that differs from an idle one by that run alone. */
  ghost predicate JustBegun(w: World, trusted: iset<Bytes>, p: Path, s: State, full: bool, s': State) {
    && Reached(w, trusted, s')
    && s' == s.(graph := Apply(s.graph, Begin(full)), doubt := s.doubt || full,
                run := Some(BegunRun(w, p, full, s.version, s.graph)))
  }

  lemma StartPass(w: World, trusted: iset<Bytes>, s: State, run: Run) returns (s': State)
    requires Reached(w, trusted, s) && s.run == Some(run) && run.phase == Prepared
    ensures Reached(w, trusted, s')
    ensures s' == s.(graph := Apply(s.graph, Begin(run.full)), doubt := s.doubt || run.full || !run.trusty,
                     run := Some(run.(phase := Parsing, base := s.graph, done := 0, mark := s.version,
                                      results := Unstarted(|run.files|))))
  {
    s' := s.(graph := Apply(s.graph, Begin(run.full)), doubt := s.doubt || run.full || !run.trusty,
             run := Some(run.(phase := Parsing, base := s.graph, done := 0, mark := s.version,
                              results := Unstarted(|run.files|))));
    Reach(w, trusted, s, BeginPass, s');
  }

  lemma BeginByHand(w: World, trusted: iset<Bytes>, p: Path, s: State, full: bool) returns (s': State)
    requires Idle(w, trusted, s) && s.tree.Keys == {p}
    ensures JustBegun(w, trusted, p, s, full, s')
  {
    var v := s.version;
    var locked := NewRun(full, Locked, v);
    var s1 := s.(run := Some(locked));
    Reach(w, trusted, s, LockByHand(full), s1);
    var watching := locked.(phase := Watching, observed := Signals(w, v), snapAt := v, mark := v);
    var s2 := s1.(run := Some(watching));
    Reach(w, trusted, s1, Observe(Signals(w, v)), s2);
    var s3 := s2.(run := Some(watching.(phase := Prepared, files := [p], listedAt := v, mark := v)));
    assert Paths([p]) == {p};
    Reach(w, trusted, s2, Walk([p]), s3);
    s' := StartPass(w, trusted, s3, s3.run.value);
  }

  /** Tools that find nothing to resolve. */
  ghost predicate NothingToResolve(w: World) {
    forall facts, disk :: w.tools.resolve(facts, disk) == Resolved({}, map[])
  }

  /** From the last file on to the stamp. */
  lemma CloseRun(w: World, trusted: iset<Bytes>, s: State, run: Run) returns (s': State)
    requires Reached(w, trusted, s) && s.run == Some(run) && run.phase == Parsing
    requires run.done == |run.files| == |run.results| && run.counts == []
    requires Paths(run.stale) == RunKnown(run).Keys - Paths(run.files) && NothingToResolve(w)
    ensures Idle(w, trusted, s')
    ensures s' == s.(
      graph := Apply(Apply(s.graph, Rebuild({})), SetFreshness(BaselineOf(run.observed))), stampedAt := run.snapAt,
      doubt := !run.trusty, run := None)
  {
    var counting := run.(phase := Counting, onDisk := s.tree.Keys, mark := s.version);
    var s2 := EdgesDone(w, trusted, s, run, counting);
    assert RunResolved(w.tools, counting) == Resolved({}, map[]);
    s' := s2.(graph := Apply(s2.graph, SetFreshness(BaselineOf(run.observed))), stampedAt := run.snapAt,
              doubt := !run.trusty, run := None);
    Reach(w, trusted, s2, Stamp, s');
  }

  lemma EdgesDone(w: World, trusted: iset<Bytes>, s: State, run: Run, counting: Run) returns (s': State)
    requires Reached(w, trusted, s) && s.run == Some(run) && run.phase == Parsing
    requires run.done == |run.files| == |run.results|
    requires Paths(run.stale) == RunKnown(run).Keys - Paths(run.files) && NothingToResolve(w)
    requires counting == run.(phase := Counting, onDisk := s.tree.Keys, mark := s.version)
    ensures Reached(w, trusted, s') && s' == s.(graph := Apply(s.graph, Rebuild({})), run := Some(counting))
  {
    var resolved := run.(phase := Rebuilding, onDisk := s.tree.Keys, mark := s.version);
    var s1 := s.(run := Some(resolved));
    Reach(w, trusted, s, Resolve(s.tree.Keys), s1);
    assert RunResolved(w.tools, resolved) == Resolved({}, map[]);
    s' := s1.(graph := Apply(s.graph, Rebuild({})), run := Some(counting));
    Reach(w, trusted, s1, WriteEdges, s');
  }

  lemma OneFileDone(w: World, trusted: iset<Bytes>, p: Path, s: State, run: Run) returns (s': State)
    requires Reached(w, trusted, s) && s.run == Some(run) && run.phase == Parsing && run.done == 0
    requires run.files == [p] && |run.results| == 1 && p in s.tree && Trusted(trusted, s.tree[p])
    requires w.tools.language(p).None?
    ensures Reached(w, trusted, s')
    ensures s'.graph == Apply(s.graph, Replace(p, w.tools.Contribute(p, s.tree[p])))
    ensures s' == s.(graph := s'.graph, run := s'.run)
    ensures s'.run == Some(run.(phase := Parsing, done := 1, results := run.results[0 := s.tree[p]], mark := s.version))
  {
    var read := run.(phase := Writing, results := run.results[0 := s.tree[p]], mark := s.version);
    var s1 := s.(run := Some(read));
    Reach(w, trusted, s, ReadFile(s.tree[p]), s1);
    s' := s1.(graph := Apply(s.graph, Replace(p, w.tools.Contribute(p, s.tree[p]))),
              run := Some(read.(phase := Parsing, done := 1)));
    Reach(w, trusted, s1, WriteFile, s');
  }

  /** The rest of a pass over one file of no supported language. */
  lemma FinishOne(w: World, trusted: iset<Bytes>, p: Path, s: State, s1: State) returns (s': State)
    requires JustBegun(w, trusted, p, s, false, s1) && s.graph == EMPTY
    requires s.tree.Keys == {p} && Trusted(trusted, s.tree[p])
    requires w.tools.language(p).None? && NothingToResolve(w)
    ensures Idle(w, trusted, s') && s'.tree == s.tree && s'.version == s.version
    ensures s'.graph.baseline == Some(BaselineOf(Signals(w, s.version)))
    ensures s'.graph.files.Keys == {p}
  {
    var s3 := OneFileDone(w, trusted, p, s1, s1.run.value);
    NothingStale(s3.run.value);
    s' := CloseRun(w, trusted, s3, s3.run.value);
  }

  lemma NothingStale(run: Run)
    requires run.base == EMPTY && run.stale == []
    ensures Paths(run.stale) == RunKnown(run).Keys - Paths(run.files)
  {
    assert RunKnown(run) == map[];
  }

  /** Signals that can be judged. */
  predicate Readable(w: World, v: nat) {
    w.head(v) != "no-git" && w.dirty(v) != ""
  }

  /** A false Fresh is reached: index a tree of one file, begin a full pass on it by
      hand, die. Nothing moved; the graph has no row left, and reads Fresh. */
  lemma DeadFullPassReached(w: World, trusted: iset<Bytes>, p: Path, r: ReadResult) returns (s': State)
    requires Trusted(trusted, r) && w.tools.language(p).None? && NothingToResolve(w) && Readable(w, 0)
    ensures Reached(w, trusted, s') && s'.run.None? && s'.tree == map[p := r]
    ensures SaysFresh(w, s') && s'.graph.files == map[] && !UpToDate(w, s')
  {
    var s := State(map[p := r], 0, EMPTY, 0, false, {}, None);
    ReachInit(w, trusted, s);
    var s1 := BeginByHand(w, trusted, p, s, false);
    var s2 := FinishOne(w, trusted, p, s, s1);
    var s3 := BeginByHand(w, trusted, p, s2, true);
    s' := s3.(run := None);
    Reach(w, trusted, s3, Die, s');
    NoRows(w, s');
  }

  /** The child's gates open exactly when there is no baseline, or one that can be
      compared and differs. */
  lemma GateOpensExactly(w: World, trusted: iset<Bytes>, s: State)
    ensures (exists s' :: Step(w, trusted, s, Watch(Signals(w, s.version)), s')) <==>
            || s.graph.baseline.None?
            || (s.graph.baseline.value.head != "no-git" && s.graph.baseline.value.dirty != ""
                && (s.graph.baseline.value.head != w.head(s.version)
                    || s.graph.baseline.value.dirty != w.dirty(s.version)))
  {
    var snap := Signals(w, s.version);
    VerdictExactly(s.graph.baseline, snap);
    if s.graph.baseline.None? || Judge(s.graph.baseline, snap).Stale? {
      assert Step(w, trusted, s, Watch(snap), s.(waiting := s.waiting + {Watched(snap, s.version)}));
    }
  }

  lemma BeginByItself(w: World, trusted: iset<Bytes>, p: Path, s: State) returns (s': State)
    requires Idle(w, trusted, s) && s.tree.Keys == {p} && s.graph.baseline.None? && s.waiting == {}
    ensures JustBegun(w, trusted, p, s, false, s')
  {
    var v, snap := s.version, Signals(w, s.version);
    var s1 := s.(waiting := {Watched(snap, v)});
    Reach(w, trusted, s, Watch(snap), s1);
    var watching := NewRun(false, Watching, v).(observed := snap, snapAt := v);
    var s2 := s1.(waiting := {}, run := Some(watching));
    Reach(w, trusted, s1, LockAuto(snap, v), s2);
    var s3 := s2.(run := Some(watching.(phase := Prepared, files := [p], listedAt := v, mark := v)));
    assert Paths([p]) == {p};
    Reach(w, trusted, s2, Walk([p]), s3);
    s' := StartPass(w, trusted, s3, s3.run.value);
  }

  /** Automatic refreshes do run: one finds a tree of one file that was never indexed,
      and leaves a graph that has its row and reads Fresh. */
  lemma AutoRefreshReached(w: World, trusted: iset<Bytes>, p: Path, r: ReadResult) returns (s': State)
    requires Trusted(trusted, r) && w.tools.language(p).None? && NothingToResolve(w) && Readable(w, 0)
    ensures Reached(w, trusted, s') && s'.run.None? && s'.tree == map[p := r]
    ensures SaysFresh(w, s') && s'.graph.files.Keys == {p}
  {
    var s := State(map[p := r], 0, EMPTY, 0, false, {}, None);
    ReachInit(w, trusted, s);
    var s1 := BeginByItself(w, trusted, p, s);
    s' := FinishOne(w, trusted, p, s, s1);
  }

  lemma NoRows(w: World, s: State)
    requires s.graph.files == map[] && s.tree != map[]
    ensures !UpToDate(w, s)
  {
    if UpToDate(w, s) {
      CurrentKeys(w.tools, s.graph, s.tree);
    }
  }

  /** And a second one, without a death: a crawl scans an empty tree, a file is
      added, the crawl takes its snapshot and stamps. The file has no row. */
  lemma EarlyScanReached(w: World, trusted: iset<Bytes>, p: Path, r: ReadResult) returns (s': State)
    requires Trusted(trusted, r) && NothingToResolve(w) && Readable(w, 1)
    ensures Reached(w, trusted, s') && s'.run.None? && s'.tree == map[p := r]
    ensures SaysFresh(w, s') && s'.graph.files == map[] && !UpToDate(w, s')
  {
    var s := State(map[], 0, EMPTY, 0, false, {}, None);
    ReachInit(w, trusted, s);
    var s1 := s.(waiting := {Scanned([], false)});
    Reach(w, trusted, s, Scan([], false), s1);
    var s2 := s1.(tree := map[p := r], version := 1);
    Reach(w, trusted, s1, Edit(map[p := r]), s2);
    s' := CrawlFinishes(w, trusted, s2);
    assert p in s'.tree;
    NoRows(w, s');
  }

  lemma CrawlFinishes(w: World, trusted: iset<Bytes>, s: State) returns (s': State)
    requires Idle(w, trusted, s) && Scanned([], false) in s.waiting && s.graph == EMPTY && NothingToResolve(w)
    ensures Idle(w, trusted, s') && s'.tree == s.tree && s'.version == s.version
    ensures s'.graph.baseline == Some(BaselineOf(Signals(w, s.version))) && s'.graph.files == map[]
  {
    var v, listed := s.version, NewRun(false, Inventoried, s.version);
    var s3 := s.(waiting := s.waiting - {Scanned([], false)}, run := Some(listed));
    Reach(w, trusted, s, LockCrawl([], false), s3);
    var s4 := s3.(run := Some(listed.(phase := Prepared, observed := Signals(w, v), snapAt := v, mark := v,
                                      listedAt := v, trusty := Paths([]) == s.tree.Keys)));
    Reach(w, trusted, s3, Observe(Signals(w, v)), s4);
    var s5 := StartPass(w, trusted, s4, s4.run.value);
    NothingStale(s5.run.value);
    s' := CloseRun(w, trusted, s5, s5.run.value);
  }

  /** Tools that support no language: every file is listed and none is parsed. */
  function NoLanguages(): Tools {
    Tools(
      _ => None, _ => "0", _ => None, (_, _, _) => FileExtract([], NO_FACTS, false),
      (_, _) => Resolved({}, map[]))
  }

  /** A tree whose signature changes with every edit. */
  function Unary(v: nat): string {
    if v == 0 then "1" else "1" + Unary(v - 1)
  }

  lemma {:induction false} UnaryLength(v: nat)
    ensures |Unary(v)| == v + 1
  {
    if v > 0 {
      UnaryLength(v - 1);
    }
  }

  function Plain(): World {
    World(NoLanguages(), _ => "c0ffee", (v: nat) => Unary(v))
  }

  lemma PlainSeparates()
    ensures Separates(Plain()) && CollisionFree(NoLanguages(), iset{[]})
  {
    forall u: nat, v: nat | Plain().head(u) == Plain().head(v) && Plain().dirty(u) == Plain().dirty(v)
      ensures u == v
    {
      UnaryLength(u);
      UnaryLength(v);
    }
  }

  /** The two at one concrete file, in a world whose signals never recur. */
  lemma FalseFreshReached() returns (w: World, trusted: iset<Bytes>, dead: State, early: State)
    ensures Separates(w) && CollisionFree(w.tools, trusted)
    ensures Reached(w, trusted, dead) && dead.run.None? && dead.tree == map[Path("a.txt") := Read([])]
    ensures SaysFresh(w, dead) && !UpToDate(w, dead)
    ensures Reached(w, trusted, early) && early.run.None? && early.tree == map[Path("a.txt") := Read([])]
    ensures SaysFresh(w, early) && !UpToDate(w, early)
  {
    w, trusted := Plain(), iset{[]};
    PlainSeparates();
    dead := DeadFullPassReached(w, trusted, Path("a.txt"), Read([]));
    early := EarlyScanReached(w, trusted, Path("a.txt"), Read([]));
  }
}
