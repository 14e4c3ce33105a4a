/** Per-symbol complexity: one budgeted depth-first walk over an explicit stack,
    against the recursive measures it approximates. */
module Metrics {

  datatype Kind = Kind(name: string)

  /** A syntax node: what kind it is, and its children in order. */
  datatype Tree = Node(kind: Kind, children: seq<Tree>)

  /** Which kinds count as branches and which as loops. */
  datatype LangSpec = LangSpec(branchKinds: set<Kind>, loopKinds: set<Kind>)

  const NODE_BUDGET := 50_000
  const U32_MAX := 0xffff_ffff

  type U32 = n: int | 0 <= n <= U32_MAX

  function Sat(n: nat): U32 {
    if n <= U32_MAX then n else U32_MAX
  }

  /** `saturating_add`. Saturating in steps is saturating once: if the operands
      stand for the true counts n and m, the sum stands for n + m. */
  method SaturatingAdd(a: U32, b: U32, ghost n: nat, ghost m: nat) returns (sum: U32)
    requires a == Sat(n) && b == Sat(m)
    ensures sum == Sat(n + m)
    ensures a + b <= U32_MAX ==> sum == a + b
  {
    sum := if a + b <= U32_MAX then a + b else U32_MAX;
  }

  function Max(a: nat, b: nat): nat {
    if a >= b then a else b
  }

  // ---- The recursive measures ----

  predicate IsBranch(spec: LangSpec, t: Tree) {
    t.kind in spec.branchKinds
  }

  predicate IsLoop(spec: LangSpec, t: Tree) {
    t.kind in spec.loopKinds
  }

  /** A branch or loop nests what is below it. */
  function Below(spec: LangSpec, t: Tree, nesting: nat): nat {
    if IsBranch(spec, t) || IsLoop(spec, t) then nesting + 1 else nesting
  }

  function LoopsBelow(spec: LangSpec, t: Tree, loops: nat): nat {
    if IsLoop(spec, t) then loops + 1 else loops
  }

  function Size(t: Tree): (n: nat)
    ensures n >= 1
  {
    1 + SizeAll(t.children)
  }

  function SizeAll(ts: seq<Tree>): nat {
    if ts == [] then 0 else SizeAll(ts[..|ts| - 1]) + Size(ts[|ts| - 1])
  }

  /** Number of branch nodes. */
  function Branches(spec: LangSpec, t: Tree): nat {
    (if IsBranch(spec, t) then 1 else 0) + BranchesAll(spec, t.children)
  }

  function BranchesAll(spec: LangSpec, ts: seq<Tree>): nat {
    if ts == [] then 0 else BranchesAll(spec, ts[..|ts| - 1]) + Branches(spec, ts[|ts| - 1])
  }

  /** Each branch or loop costs one more than the branches and loops around it. */
  function Cognitive(spec: LangSpec, t: Tree, nesting: nat): nat {
    (if IsBranch(spec, t) || IsLoop(spec, t) then 1 + nesting else 0) +
    CognitiveAll(spec, t.children, Below(spec, t, nesting))
  }

  function CognitiveAll(spec: LangSpec, ts: seq<Tree>, nesting: nat): nat {
    if ts == [] then 0
    else CognitiveAll(spec, ts[..|ts| - 1], nesting) + Cognitive(spec, ts[|ts| - 1], nesting)
  }

  /** Deepest loop nesting reached at a loop, counting `loops` around the tree. */
  function LoopDepth(spec: LangSpec, t: Tree, loops: nat): nat {
    Max(if IsLoop(spec, t) then loops + 1 else 0,
        LoopDepthAll(spec, t.children, LoopsBelow(spec, t, loops)))
  }

  function LoopDepthAll(spec: LangSpec, ts: seq<Tree>, loops: nat): nat {
    if ts == [] then 0
    else Max(LoopDepthAll(spec, ts[..|ts| - 1], loops), LoopDepth(spec, ts[|ts| - 1], loops))
  }

  // ---- The stack ----

  /** A node still to visit, and the branches/loops and the loops around it. */
  datatype Frame = Frame(node: Tree, nesting: nat, loops: nat) {
    /** The frame as the walk stores it, in saturating 32-bit counters. */
    function Stored(): Frame {
      Frame(node, Sat(nesting), Sat(loops))
    }
  }

  /** What the frames of a stack still have to contribute. */
  datatype Totals = Totals(size: nat, branches: nat, cognitive: nat, loopDepth: nat) {
    function Plus(other: Totals): Totals {
      Totals(size + other.size, branches + other.branches, cognitive + other.cognitive, Max(loopDepth, other.loopDepth))
    }
  }

  function Measure(spec: LangSpec, t: Tree, nesting: nat, loops: nat): Totals {
    Totals(Size(t), Branches(spec, t), Cognitive(spec, t, nesting), LoopDepth(spec, t, loops))
  }

  function MeasureAll(spec: LangSpec, ts: seq<Tree>, nesting: nat, loops: nat): Totals {
    Totals(SizeAll(ts), BranchesAll(spec, ts), CognitiveAll(spec, ts, nesting), LoopDepthAll(spec, ts, loops))
  }

  function Pending(spec: LangSpec, frames: seq<Frame>): Totals {
    if frames == [] then Totals(0, 0, 0, 0)
    else
      var top := frames[|frames| - 1];
      Pending(spec, frames[..|frames| - 1]).Plus(Measure(spec, top.node, top.nesting, top.loops))
  }

  ghost predicate Stores(stack: seq<Frame>, ideal: seq<Frame>) {
    |stack| == |ideal| && forall i | 0 <= i < |stack| :: stack[i] == ideal[i].Stored()
  }

  /** Nesting never exceeds the nodes visited so far: every enclosing node is one of them. */
  ghost predicate Shallow(frames: seq<Frame>, visited: nat) {
    forall f <- frames :: f.nesting <= visited && f.loops <= visited
  }

  method PushChildren(
    spec: LangSpec, stack: seq<Frame>, node: Tree, nesting: U32, loops: U32,
    ghost ideal: seq<Frame>, ghost n: nat, ghost l: nat)
    returns (pushed: seq<Frame>, ghost ideal': seq<Frame>)
    requires Stores(stack, ideal) && nesting == Sat(n) && loops == Sat(l)
    ensures Stores(pushed, ideal')
    ensures Pending(spec, ideal') == Pending(spec, ideal).Plus(MeasureAll(spec, node.children, n, l))
    ensures forall f <- ideal' :: f in ideal || (f.nesting == n && f.loops == l)
  {
    pushed, ideal' := stack, ideal;
    for i := 0 to |node.children|
      invariant Stores(pushed, ideal')
      invariant Pending(spec, ideal') == Pending(spec, ideal).Plus(MeasureAll(spec, node.children[..i], n, l))
      invariant forall f <- ideal' :: f in ideal || (f.nesting == n && f.loops == l)
    {
      ghost var frame := Frame(node.children[i], n, l);
      assert (ideal' + [frame])[..|ideal'|] == ideal';
      assert node.children[..i + 1][..i] == node.children[..i];
      pushed, ideal' := pushed + [Frame(node.children[i], nesting, loops)], ideal' + [frame];
    }
    assert node.children[..|node.children|] == node.children;
  }

  // ---- The walk ----

  function Triangle(n: nat): nat {
    if n == 0 then 0 else Triangle(n - 1) + n
  }

  lemma {:induction false} TriangleClosed(n: nat)
    ensures 2 * Triangle(n) == n * (n + 1)
  {
    if n > 0 {
      TriangleClosed(n - 1);
    }
  }

  lemma {:induction false} TriangleMonotone(m: nat, n: nat)
    requires m <= n
    ensures Triangle(m) <= Triangle(n)
    decreases n
  {
    if m < n {
      TriangleMonotone(m, n - 1);
    }
  }

  /** The largest cognitive score any tree can get under the node budget. */
  lemma BudgetBound()
    ensures Triangle(NODE_BUDGET) == 1_250_025_000
    ensures Triangle(NODE_BUDGET) < U32_MAX
  {
    TriangleClosed(NODE_BUDGET);
  }

  /** What one visited node contributes by itself. */
  function Own(spec: LangSpec, f: Frame): Totals {
    Totals(1,
      if IsBranch(spec, f.node) then 1 else 0,
      if IsBranch(spec, f.node) || IsLoop(spec, f.node) then 1 + f.nesting else 0,
      if IsLoop(spec, f.node) then f.loops + 1 else 0)
  }

  lemma MeasureSplits(spec: LangSpec, f: Frame)
    ensures Measure(spec, f.node, f.nesting, f.loops) ==
            Own(spec, f).Plus(MeasureAll(spec, f.node.children,
              Below(spec, f.node, f.nesting), LoopsBelow(spec, f.node, f.loops)))
  {
  }

  lemma PlusRegroups(seen: Totals, own: Totals, rest: Totals, below: Totals)
    ensures seen.Plus(rest.Plus(own.Plus(below))) == seen.Plus(own).Plus(rest.Plus(below))
  {
  }

  /** Popping a node and pushing its children moves its own charge from what is
      pending to what is seen. */
  lemma PopRegroups(spec: LangSpec, ideal: seq<Frame>, seen: Totals)
    requires ideal != []
    ensures var f, rest := ideal[|ideal| - 1], ideal[..|ideal| - 1];
            seen.Plus(Pending(spec, ideal)) ==
            seen.Plus(Own(spec, f)).Plus(Pending(spec, rest).Plus(
              MeasureAll(spec, f.node.children, Below(spec, f.node, f.nesting), LoopsBelow(spec, f.node, f.loops))))
  {
    var f, rest := ideal[|ideal| - 1], ideal[..|ideal| - 1];
    MeasureSplits(spec, f);
    PlusRegroups(seen, Own(spec, f), Pending(spec, rest),
      MeasureAll(spec, f.node.children, Below(spec, f.node, f.nesting), LoopsBelow(spec, f.node, f.loops)));
  }

  datatype Counters = Counters(complexity: U32, cognitive: U32, loopDepth: U32)

  /** The counters that have seen these totals: saturating, complexity from one. */
  function Counted(seen: Totals): Counters {
    Counters(Sat(1 + seen.branches), Sat(seen.cognitive), Sat(seen.loopDepth))
  }

  /** Some saturating add that visiting this frame could make would saturate. */
  predicate Clips(counters: Counters, stored: Frame) {
    || counters.complexity + 1 > U32_MAX
    || counters.cognitive + 1 + stored.nesting > U32_MAX
    || stored.nesting + 1 > U32_MAX
    || stored.loops + 1 > U32_MAX
  }

  /** Totals of at most `visited` nodes, none nested deeper than nodes before it. */
  predicate Within(seen: Totals, visited: nat) {
    && seen.size == visited && seen.branches <= visited && seen.loopDepth <= visited
    && seen.cognitive <= Triangle(visited)
  }

  /** One node: charge it, and say what nests below it. */
  method Visit(spec: LangSpec, counters: Counters, stored: Frame, ghost seen: Totals, ghost f: Frame)
    returns (after: Counters, nesting: U32, loops: U32)
    requires stored == f.Stored() && counters == Counted(seen)
    ensures after == Counted(seen.Plus(Own(spec, f)))
    ensures nesting == Sat(Below(spec, f.node, f.nesting)) && loops == Sat(LoopsBelow(spec, f.node, f.loops))
  {
    var isBranch, isLoop := IsBranch(spec, stored.node), IsLoop(spec, stored.node);
    var complexity, cognitive, loopDepth := counters.complexity, counters.cognitive, counters.loopDepth;
    nesting, loops := stored.nesting, stored.loops;
    if isBranch {
      complexity := SaturatingAdd(complexity, 1, 1 + seen.branches, 1);
    }
    if isBranch || isLoop {
      cognitive := SaturatingAdd(cognitive, 1, seen.cognitive, 1);
      cognitive := SaturatingAdd(cognitive, nesting, seen.cognitive + 1, f.nesting);
      nesting := SaturatingAdd(nesting, 1, f.nesting, 1);
      if isLoop {
        loops := SaturatingAdd(loops, 1, f.loops, 1);
      }
    }
    if isLoop {
      loopDepth := Max(loopDepth, loops);
    }
    after := Counters(complexity, cognitive, loopDepth);
  }

  /** Bounds survive a visit, and inside the program's budget they leave room
      for every add the visit makes. */
  lemma StaysWithin(spec: LangSpec, seen: Totals, f: Frame, visited: nat)
    requires Within(seen, visited) && f.nesting <= visited && f.loops <= visited
    ensures Within(seen.Plus(Own(spec, f)), visited + 1)
    ensures visited < NODE_BUDGET ==> !Clips(Counted(seen), f.Stored())
  {
    if visited < NODE_BUDGET {
      TriangleMonotone(visited + 1, NODE_BUDGET);
      BudgetBound();
    }
  }

  /** One turn of the loop: pop a node, charge it, push its children. */
  method Advance(
    spec: LangSpec, counters: Counters, stack: seq<Frame>,
    ghost ideal: seq<Frame>, ghost seen: Totals, ghost visited: nat)
    returns (c: Counters, pushed: seq<Frame>, ghost ideal': seq<Frame>, ghost seen': Totals, ghost clipped: bool)
    requires stack != [] && Stores(stack, ideal) && Shallow(ideal, visited)
    requires Within(seen, visited) && counters == Counted(seen)
    ensures Stores(pushed, ideal') && Shallow(ideal', visited + 1)
    ensures seen'.Plus(Pending(spec, ideal')) == seen.Plus(Pending(spec, ideal))
    ensures Within(seen', visited + 1) && c == Counted(seen')
    ensures visited < NODE_BUDGET ==> !clipped
  {
    var stored := stack[|stack| - 1];
    ghost var f, rest := ideal[|ideal| - 1], ideal[..|ideal| - 1];
    ghost var n, l := Below(spec, f.node, f.nesting), LoopsBelow(spec, f.node, f.loops);
    PopRegroups(spec, ideal, seen);
    StaysWithin(spec, seen, f, visited);
    clipped := Clips(counters, stored);
    seen' := seen.Plus(Own(spec, f));
    var nesting, loops;
    c, nesting, loops := Visit(spec, counters, stored, seen, f);
    pushed, ideal' := PushChildren(spec, stack[..|stack| - 1], stored.node, nesting, loops, rest, n, l);
  }

  /** The budgeted walk. Within the budget it computes the recursive measures;
      past it, each count is a lower bound; and under the program's own budget no
      saturating add in the loop ever clips, whatever the tree. */
  method Walk(body: Tree, spec: LangSpec, budget: nat) returns (c: Counters, ghost clipped: bool)
    ensures Size(body) <= budget ==> c == Counted(Measure(spec, body, 0, 0))
    ensures c.complexity <= 1 + Branches(spec, body)
    ensures c.cognitive <= Cognitive(spec, body, 0)
    ensures c.loopDepth <= LoopDepth(spec, body, 0)
    ensures c.complexity <= 1 + budget && c.loopDepth <= budget && c.cognitive <= Triangle(budget)
    ensures budget <= NODE_BUDGET ==> !clipped
  {
    var visited := 0;
    var stack := [Frame(body, 0, 0)];
    ghost var ideal, seen := stack, Totals(0, 0, 0, 0);
    c, clipped := Counters(1, 0, 0), false;
    PendingStarts(spec, ideal[0]);
    while stack != []
      invariant Stores(stack, ideal) && Shallow(ideal, visited)
      invariant seen.Plus(Pending(spec, ideal)) == Measure(spec, body, 0, 0)
      invariant Within(seen, visited) && visited <= budget
      invariant c == Counted(seen)
      invariant budget <= NODE_BUDGET ==> !clipped
      decreases Size(body) - visited
    {
      PendingSize(spec, ideal);
      if visited >= budget {
        break;
      }
      ghost var clips;
      c, stack, ideal, seen, clips := Advance(spec, c, stack, ideal, seen, visited);
      clipped := clipped || clips;
      visited := visited + 1;
    }
    WalkEnds(spec, body, budget, visited, ideal, seen);
  }

  lemma PendingStarts(spec: LangSpec, f: Frame)
    ensures Pending(spec, [f]) == Measure(spec, f.node, f.nesting, f.loops)
  {
    assert [f][..0] == [];
  }

  lemma PendingSize(spec: LangSpec, frames: seq<Frame>)
    requires frames != []
    ensures Pending(spec, frames).size >= 1
  {
  }

  /** What the totals seen say when the walk stops, at the end or at the budget. */
  lemma WalkEnds(spec: LangSpec, body: Tree, budget: nat, visited: nat, ideal: seq<Frame>, seen: Totals)
    requires seen.Plus(Pending(spec, ideal)) == Measure(spec, body, 0, 0)
    requires Within(seen, visited) && visited <= budget && (ideal != [] ==> visited == budget)
    ensures Size(body) <= budget ==> seen == Measure(spec, body, 0, 0)
    ensures seen.branches <= Branches(spec, body) && seen.cognitive <= Cognitive(spec, body, 0)
    ensures seen.loopDepth <= LoopDepth(spec, body, 0) && seen.cognitive <= Triangle(budget)
  {
    TriangleMonotone(visited, budget);
    if ideal != [] {
      PendingSize(spec, ideal);
    }
  }

  // ---- The measures, node by node ----

  /** A node of the tree: its kind, and the kinds it stands inside, outermost first. */
  datatype Place = Place(kind: Kind, around: seq<Kind>)

  /** Every node of a tree that stands inside `around`, each once. */
  function Places(t: Tree, around: seq<Kind>): seq<Place> {
    [Place(t.kind, around)] + PlacesAll(t.children, around + [t.kind])
  }

  function PlacesAll(ts: seq<Tree>, around: seq<Kind>): seq<Place> {
    if ts == [] then [] else PlacesAll(ts[..|ts| - 1], around) + Places(ts[|ts| - 1], around)
  }

  /** How many of the kinds are in one of the sets. */
  function HowMany(kinds: seq<Kind>, these: set<Kind>): nat {
    if kinds == [] then 0 else HowMany(kinds[..|kinds| - 1], these) + if kinds[|kinds| - 1] in these then 1 else 0
  }

  lemma HowManySnoc(kinds: seq<Kind>, kind: Kind, these: set<Kind>)
    ensures HowMany(kinds + [kind], these) == HowMany(kinds, these) + if kind in these then 1 else 0
  {
    assert (kinds + [kind])[..|kinds|] == kinds;
  }

  /** One for each branch. */
  function BranchCount(spec: LangSpec, places: seq<Place>): nat {
    if places == [] then 0
    else BranchCount(spec, places[..|places| - 1]) + if places[|places| - 1].kind in spec.branchKinds then 1 else 0
  }

  /** For each branch or loop, one, and one more for each branch or loop around it. */
  function NestingCost(spec: LangSpec, places: seq<Place>): nat {
    if places == [] then 0
    else
      var p, both := places[|places| - 1], spec.branchKinds + spec.loopKinds;
      NestingCost(spec, places[..|places| - 1]) + if p.kind in both then 1 + HowMany(p.around, both) else 0
  }

  /** The most loops any loop stands in, itself included. */
  function DeepestLoop(spec: LangSpec, places: seq<Place>): nat {
    if places == [] then 0
    else
      var p, rest := places[|places| - 1], DeepestLoop(spec, places[..|places| - 1]);
      if p.kind in spec.loopKinds then Max(rest, 1 + HowMany(p.around, spec.loopKinds)) else rest
  }

  function Tally(spec: LangSpec, places: seq<Place>): Totals {
    Totals(|places|, BranchCount(spec, places), NestingCost(spec, places), DeepestLoop(spec, places))
  }

  /** What one node costs by where it stands. */
  function Charge(spec: LangSpec, p: Place): Totals {
    var both := spec.branchKinds + spec.loopKinds;
    Totals(1,
      if p.kind in spec.branchKinds then 1 else 0,
      if p.kind in both then 1 + HowMany(p.around, both) else 0,
      if p.kind in spec.loopKinds then 1 + HowMany(p.around, spec.loopKinds) else 0)
  }

  lemma TallySnoc(spec: LangSpec, places: seq<Place>, p: Place)
    ensures Tally(spec, places + [p]) == Tally(spec, places).Plus(Charge(spec, p))
  {
    assert (places + [p])[..|places|] == places;
  }

  lemma PlusAssociates(a: Totals, b: Totals, c: Totals)
    ensures a.Plus(b.Plus(c)) == a.Plus(b).Plus(c)
  {
  }

  lemma {:induction false} TallyConcat(spec: LangSpec, a: seq<Place>, b: seq<Place>)
    ensures Tally(spec, a + b) == Tally(spec, a).Plus(Tally(spec, b))
    decreases |b|
  {
    if b == [] {
      assert a + b == a;
    } else {
      var front, last := b[..|b| - 1], b[|b| - 1];
      TallyConcat(spec, a, front);
      TallySnoc(spec, a + front, last);
      TallySnoc(spec, front, last);
      PlusAssociates(Tally(spec, a), Tally(spec, front), Charge(spec, last));
      assert a + b == a + front + [last] && b == front + [last];
    }
  }

  lemma TallyOne(spec: LangSpec, p: Place)
    ensures Tally(spec, [p]) == Charge(spec, p)
  {
    TallySnoc(spec, [], p);
    assert [] + [p] == [p];
  }

  lemma ChargeIsOwn(spec: LangSpec, t: Tree, around: seq<Kind>, n: nat, l: nat)
    requires n == HowMany(around, spec.branchKinds + spec.loopKinds) && l == HowMany(around, spec.loopKinds)
    ensures Charge(spec, Place(t.kind, around)) == Own(spec, Frame(t, n, l))
  {
  }

  /** The recursive measures are what every node costs by where it stands. */
  lemma {:induction false} MeasureTallies(spec: LangSpec, t: Tree, around: seq<Kind>, n: nat, l: nat)
    requires n == HowMany(around, spec.branchKinds + spec.loopKinds) && l == HowMany(around, spec.loopKinds)
    ensures Measure(spec, t, n, l) == Tally(spec, Places(t, around))
    decreases t, 0
  {
    HowManySnoc(around, t.kind, spec.branchKinds + spec.loopKinds);
    HowManySnoc(around, t.kind, spec.loopKinds);
    MeasureTalliesAll(spec, t.children, around + [t.kind], Below(spec, t, n), LoopsBelow(spec, t, l));
    MeasureSplits(spec, Frame(t, n, l));
    TallyOne(spec, Place(t.kind, around));
    ChargeIsOwn(spec, t, around, n, l);
    TallyConcat(spec, [Place(t.kind, around)], PlacesAll(t.children, around + [t.kind]));
  }

  lemma {:induction false} MeasureTalliesAll(spec: LangSpec, ts: seq<Tree>, around: seq<Kind>, n: nat, l: nat)
    requires n == HowMany(around, spec.branchKinds + spec.loopKinds) && l == HowMany(around, spec.loopKinds)
    ensures MeasureAll(spec, ts, n, l) == Tally(spec, PlacesAll(ts, around))
    decreases ts, 1
  {
    if ts != [] {
      var front, last := ts[..|ts| - 1], ts[|ts| - 1];
      MeasureTalliesAll(spec, front, around, n, l);
      MeasureTallies(spec, last, around, n, l);
      TallyConcat(spec, PlacesAll(front, around), Places(last, around));
      MeasureLast(spec, ts, n, l);
    }
  }

  lemma MeasureLast(spec: LangSpec, ts: seq<Tree>, n: nat, l: nat)
    requires ts != []
    ensures MeasureAll(spec, ts, n, l) ==
            MeasureAll(spec, ts[..|ts| - 1], n, l).Plus(Measure(spec, ts[|ts| - 1], n, l))
  {
  }

  /** What the walk returns for a body of at most `budget` nodes. */
  lemma WalkTallies(body: Tree, spec: LangSpec, budget: nat, c: Counters)
    requires Size(body) <= budget ==> c == Counted(Measure(spec, body, 0, 0))
    ensures var nodes := Places(body, []);
      |nodes| <= budget ==>
        && c.complexity == Sat(1 + BranchCount(spec, nodes))
        && c.cognitive == Sat(NestingCost(spec, nodes))
        && c.loopDepth == Sat(DeepestLoop(spec, nodes))
  {
    MeasureTallies(spec, body, [], 0, 0);
  }

  // ---- Child order does not matter ----

  /** The same tree up to the order of children, at every level. */
  ghost predicate Reordered(t: Tree, u: Tree)
    decreases t, 0
  {
    t.kind == u.kind && ReorderedAll(t.children, u.children)
  }

  ghost predicate ReorderedAll(ts: seq<Tree>, us: seq<Tree>)
    decreases ts, 1
  {
    if ts == [] then us == []
    else exists i :: 0 <= i < |us| && Reordered(ts[|ts| - 1], us[i]) && ReorderedAll(ts[..|ts| - 1], Without(us, i))
  }

  function Without(us: seq<Tree>, i: nat): seq<Tree>
    requires i < |us|
  {
    us[..i] + us[i + 1..]
  }

  lemma MeasureOneMore(spec: LangSpec, ts: seq<Tree>, t: Tree, n: nat, l: nat)
    ensures MeasureAll(spec, ts + [t], n, l) == MeasureAll(spec, ts, n, l).Plus(Measure(spec, t, n, l))
  {
    assert (ts + [t])[..|ts|] == ts;
  }

  lemma {:induction false} MeasureConcat(spec: LangSpec, a: seq<Tree>, b: seq<Tree>, n: nat, l: nat)
    ensures MeasureAll(spec, a + b, n, l) == MeasureAll(spec, a, n, l).Plus(MeasureAll(spec, b, n, l))
    decreases |b|
  {
    if b == [] {
      assert a + b == a;
    } else {
      var front, last := b[..|b| - 1], b[|b| - 1];
      MeasureConcat(spec, a, front, n, l);
      MeasureOneMore(spec, a + front, last, n, l);
      MeasureOneMore(spec, front, last, n, l);
      assert a + b == a + front + [last] && b == front + [last];
    }
  }

  lemma MeasureWithout(spec: LangSpec, us: seq<Tree>, i: nat, n: nat, l: nat)
    requires i < |us|
    ensures MeasureAll(spec, us, n, l) == MeasureAll(spec, Without(us, i), n, l).Plus(Measure(spec, us[i], n, l))
  {
    var low, high := us[..i], us[i + 1..];
    assert us == low + [us[i]] + high;
    assert [us[i]][..0] == [];
    MeasureConcat(spec, low + [us[i]], high, n, l);
    MeasureConcat(spec, low, [us[i]], n, l);
    MeasureConcat(spec, low, high, n, l);
  }

  /** Reordering children anywhere in the tree changes no measure, so within the
      budget it changes nothing the walk returns. */
  lemma {:induction false} OrderIrrelevant(spec: LangSpec, t: Tree, u: Tree, n: nat, l: nat)
    requires Reordered(t, u)
    ensures Measure(spec, t, n, l) == Measure(spec, u, n, l)
    decreases t, 0
  {
    OrderIrrelevantAll(spec, t.children, u.children, Below(spec, t, n), LoopsBelow(spec, t, l));
    MeasureSplits(spec, Frame(t, n, l));
    MeasureSplits(spec, Frame(u, n, l));
  }

  lemma {:induction false} OrderIrrelevantAll(spec: LangSpec, ts: seq<Tree>, us: seq<Tree>, n: nat, l: nat)
    requires ReorderedAll(ts, us)
    ensures MeasureAll(spec, ts, n, l) == MeasureAll(spec, us, n, l)
    decreases ts, 1
  {
    if ts != [] {
      var i :| 0 <= i < |us| && Reordered(ts[|ts| - 1], us[i]) && ReorderedAll(ts[..|ts| - 1], Without(us, i));
      OrderIrrelevant(spec, ts[|ts| - 1], us[i], n, l);
      OrderIrrelevantAll(spec, ts[..|ts| - 1], Without(us, i), n, l);
      MeasureWithout(spec, us, i, n, l);
    }
  }
}
