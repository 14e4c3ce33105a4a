/** The stored code graph of one project: what its tables hold, what each
    transaction does to them, and the class whose methods run those transactions. */
module GraphStore {
  import opened Wrappers

  /** A path relative to the project root. */
  datatype Path = Path(name: string)

  datatype FileStatus = Indexed | Partial | SkippedLang | Error

  datatype Lang = TypeScript | Tsx | JavaScript | Python | Rust | Go

  /** Why a file's row is not a clean index of it. */
  datatype Detail = NoDetail | Unreadable(message: string) | NotUtf8 | SyntaxErrors

  datatype FileRow = FileRow(
    lang: Option<Lang>,
    contentHash: string,
    status: FileStatus,
    detail: Detail,
    symbolCount: nat,
    unresolvedCalls: nat)

  /** A definition: its name inside the file, and every other stored column. */
  datatype Symbol = Symbol(local: string, columns: string)

  /** The qualified name `path:local`, kept as a pair. */
  datatype SymbolId = SymbolId(path: Path, local: string)

  datatype RawFacts = RawFacts(calls: seq<string>, imports: seq<string>, relations: seq<string>)

  const NO_FACTS := RawFacts([], [], [])

  datatype FileExtract = FileExtract(symbols: seq<Symbol>, raw: RawFacts, hadErrors: bool)

  datatype Edge = Edge(source: SymbolId, target: SymbolId, kind: string, line: nat)

  datatype Baseline = Baseline(head: string, dirty: string)

  /** `raw` may keep rows for paths that have no file row: neither clearing the
      project nor forgetting a file deletes them. */
  datatype Graph = Graph(
    files: map<Path, FileRow>,
    nodes: map<Path, seq<Symbol>>,
    raw: map<Path, RawFacts>,
    edges: set<Edge>,
    baseline: Option<Baseline>)

  const EMPTY := Graph(map[], map[], map[], {}, None)

  /** One file's row, definitions and raw facts, written in one transaction. */
  datatype Contribution = Contribution(row: FileRow, symbols: seq<Symbol>, raw: RawFacts)

  datatype Op =
    | Begin(full: bool)
    | Replace(path: Path, file: Contribution)
    | Forget(path: Path)
    | Rebuild(edges: set<Edge>)
    | SetUnresolved(path: Path, count: nat)
    | SetFreshness(baseline: Baseline)

  predicate Defines(nodes: map<Path, seq<Symbol>>, id: SymbolId) {
    id.path in nodes && exists s <- nodes[id.path] :: s.local == id.local
  }

  /** Deleting a file's definitions cascades to every edge that touches them. */
  function Cascade(edges: set<Edge>, path: Path): set<Edge> {
    set e <- edges | e.source.path != path && e.target.path != path
  }

  /** Both ends of every edge are stored definitions. */
  ghost predicate NoneDangles(g: Graph) {
    forall e <- g.edges ::
      && e.source.path in g.nodes && (exists s <- g.nodes[e.source.path] :: s.local == e.source.local)
      && e.target.path in g.nodes && (exists s <- g.nodes[e.target.path] :: s.local == e.target.local)
  }

  /** Only edges between two stored definitions can be inserted. */
  function Grounded(edges: set<Edge>, nodes: map<Path, seq<Symbol>>): set<Edge> {
    set e <- edges | Defines(nodes, e.source) && Defines(nodes, e.target)
  }

  function Apply(g: Graph, op: Op): Graph {
    match op
    case Begin(full) =>
      if full then g.(files := map[], nodes := map[], edges := {}) else g
    case Replace(p, f) =>
      g.(files := g.files[p := f.row], nodes := g.nodes[p := f.symbols],
         raw := g.raw[p := f.raw], edges := Cascade(g.edges, p))
    case Forget(p) =>
      g.(files := g.files - {p}, nodes := g.nodes - {p}, edges := Cascade(g.edges, p))
    case Rebuild(edges) =>
      g.(edges := Grounded(edges, g.nodes))
    case SetUnresolved(p, n) =>
      if p in g.files then g.(files := g.files[p := g.files[p].(unresolvedCalls := n)]) else g
    case SetFreshness(b) =>
      g.(baseline := Some(b))
  }

  function FileHashes(g: Graph): map<Path, string> {
    map p <- g.files :: g.files[p].contentHash
  }

  predicate Parsed(status: FileStatus) {
    status == Indexed || status == Partial
  }

  /** The stored extraction of one file, as `load_extracts` reassembles it. */
  function StoredExtract(g: Graph, p: Path): FileExtract
    requires p in g.files
  {
    FileExtract(
      if p in g.nodes then g.nodes[p] else [],
      if p in g.raw then g.raw[p] else NO_FACTS,
      g.files[p].status == Partial)
  }

  function LoadExtracts(g: Graph, skip: set<Path>): map<Path, FileExtract> {
    map p <- g.files | Parsed(g.files[p].status) && p !in skip :: StoredExtract(g, p)
  }

  class CodeGraphStore {
    var files: map<Path, FileRow>
    var nodes: map<Path, seq<Symbol>>
    var raw: map<Path, RawFacts>
    var edges: set<Edge>
    var freshness: Option<Baseline>

    ghost function Contents(): Graph
      reads this
    {
      Graph(files, nodes, raw, edges, freshness)
    }

    /** The hash each recorded file last had. */
    function ReadHashes(): (hashes: map<Path, string>)
      reads this
      ensures hashes == FileHashes(Contents())
    {
      map p <- files :: files[p].contentHash
    }

    /** The facts of the parsed files outside `skip`, as recorded. */
    function ReadExtracts(skip: set<Path>): (extracts: map<Path, FileExtract>)
      reads this
      ensures extracts == LoadExtracts(Contents(), skip)
      ensures forall p :: p in extracts <==> p in files && Parsed(files[p].status) && p !in skip
      ensures forall p <- extracts ::
        && extracts[p].symbols == (if p in nodes then nodes[p] else [])
        && extracts[p].raw == (if p in raw then raw[p] else NO_FACTS)
        && (extracts[p].hadErrors <==> files[p].status == Partial)
    {
      LoadExtracts(Graph(files, nodes, raw, edges, freshness), skip)
    }

    constructor ()
      ensures Contents() == EMPTY
    {
      files, nodes, raw, edges, freshness := map[], map[], map[], {}, None;
    }

    method BeginProject(full: bool)
      modifies this
      ensures Contents() == Apply(old(Contents()), Begin(full))
      ensures full ==> files == map[] && nodes == map[] && edges == {}
      ensures !full ==> files == old(files) && nodes == old(nodes) && edges == old(edges)
      ensures raw == old(raw) && freshness == old(freshness)
    {
      if full {
        files := map[];
        nodes := map[];
        edges := {};
      }
    }

    method ReplaceFile(path: Path, file: Contribution)
      modifies this
      ensures Contents() == Apply(old(Contents()), Replace(path, file))
      ensures files == old(files)[path := file.row] && nodes == old(nodes)[path := file.symbols]
      ensures raw == old(raw)[path := file.raw] && freshness == old(freshness)
      ensures forall e :: e in edges <==> e in old(edges) && e.source.path != path && e.target.path != path
    {
      edges := Cascade(edges, path);
      files := files[path := file.row];
      nodes := nodes[path := file.symbols];
      raw := raw[path := file.raw];
    }

    method ForgetFile(path: Path)
      modifies this
      ensures Contents() == Apply(old(Contents()), Forget(path))
      ensures files == old(files) - {path} && nodes == old(nodes) - {path}
      ensures raw == old(raw) && freshness == old(freshness)
      ensures forall e :: e in edges <==> e in old(edges) && e.source.path != path && e.target.path != path
    {
      edges := Cascade(edges, path);
      nodes := nodes - {path};
      files := files - {path};
    }

    method RebuildEdges(resolved: set<Edge>)
      modifies this
      ensures Contents() == Apply(old(Contents()), Rebuild(resolved))
      ensures files == old(files) && nodes == old(nodes) && raw == old(raw) && freshness == old(freshness)
      ensures forall e :: e in edges <==>
                && e in resolved
                && e.source.path in nodes && (exists s <- nodes[e.source.path] :: s.local == e.source.local)
                && e.target.path in nodes && (exists s <- nodes[e.target.path] :: s.local == e.target.local)
    {
      edges := Grounded(resolved, nodes);
    }

    method SetUnresolvedCount(path: Path, count: nat)
      modifies this
      ensures Contents() == Apply(old(Contents()), SetUnresolved(path, count))
      ensures nodes == old(nodes) && raw == old(raw) && edges == old(edges) && freshness == old(freshness)
      ensures files.Keys == old(files).Keys
      ensures forall p | p in files ::
        files[p] == if p == path then old(files)[p].(unresolvedCalls := count) else old(files)[p]
    {
      if path in files {
        files := files[path := files[path].(unresolvedCalls := count)];
      }
    }

    method RecordFreshness(baseline: Baseline)
      modifies this
      ensures Contents() == Apply(old(Contents()), SetFreshness(baseline))
      ensures freshness == Some(baseline)
      ensures files == old(files) && nodes == old(nodes) && raw == old(raw) && edges == old(edges)
    {
      freshness := Some(baseline);
    }
  }
}
