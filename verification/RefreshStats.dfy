/** What the recorded rows of automatic refreshes can answer: counts, and
    nearest-rank percentiles of the durations. */
module RefreshStats {
  import opened Wrappers

  /** One line of the statistics file, split into its columns. */
  datatype Row = Row(project: string, outcome: string, duration: Option<int>, reparsed: Option<nat>)

  datatype Kind = Spawn | Debounce | Done | Errored | Other

  predicate StartsWith(s: string, prefix: string) {
    prefix <= s
  }

  /** How a row is booked; anything unrecognised counts as a child that found nothing to do. */
  function KindOf(outcome: string): Kind {
    if outcome == "spawn" then Spawn
    else if outcome == "debounce" then Debounce
    else if outcome == "done" then Done
    else if StartsWith(outcome, "error") then Errored
    else Other
  }

  function ReasonOf(outcome: string): string {
    if StartsWith(outcome, "skip: ") then outcome[6..] else outcome
  }

  function CountKind(rows: seq<Row>, kind: Kind): (n: nat)
    ensures n <= |rows|
  {
    if rows == [] then 0
    else CountKind(rows[..|rows| - 1], kind) + if KindOf(rows[|rows| - 1].outcome) == kind then 1 else 0
  }

  /** How many rows are booked as having done nothing, for one reason. */
  function CountReason(rows: seq<Row>, reason: string): (n: nat)
    ensures n <= |rows|
  {
    if rows == [] then 0
    else CountReason(rows[..|rows| - 1], reason) + if Idled(rows[|rows| - 1], reason) then 1 else 0
  }

  predicate Idled(row: Row, reason: string) {
    KindOf(row.outcome) == Other && ReasonOf(row.outcome) == reason
  }

  /** Files parsed again, over all refreshes. */
  function Reparsed(rows: seq<Row>): nat {
    if rows == [] then 0
    else Reparsed(rows[..|rows| - 1]) + ReparsedBy(rows[|rows| - 1])
  }

  function ReparsedBy(row: Row): nat {
    if KindOf(row.outcome) == Done && row.reparsed.Some? then row.reparsed.value else 0
  }

  /** The outcome of the last row that reports an error. */
  function LastError(rows: seq<Row>): Option<string> {
    if rows == [] then None
    else if KindOf(rows[|rows| - 1].outcome) == Errored then Some(rows[|rows| - 1].outcome)
    else LastError(rows[..|rows| - 1])
  }

  /** Durations of the rows that report a refresh, in file order. */
  function Durations(rows: seq<Row>): seq<int> {
    if rows == [] then []
    else
      var last := rows[|rows| - 1];
      Durations(rows[..|rows| - 1]) +
      if KindOf(last.outcome) == Done && last.duration.Some? then [last.duration.value] else []
  }

  // ---- Sorting and counting ----

  predicate Sorted(s: seq<int>) {
    forall i, j | 0 <= i < j < |s| :: s[i] <= s[j]
  }

  /** Where values of at least `v` begin. */
  function FirstAtLeast(s: seq<int>, v: int): (k: nat)
    requires Sorted(s)
    ensures k <= |s|
    ensures forall i | 0 <= i < k :: s[i] < v
    ensures forall i | k <= i < |s| :: s[i] >= v
    decreases |s|
  {
    if s == [] || s[|s| - 1] < v then |s| else FirstAtLeast(s[..|s| - 1], v)
  }

  function Insert(x: int, s: seq<int>): (r: seq<int>)
    requires Sorted(s)
    ensures Sorted(r) && |r| == |s| + 1
    ensures multiset(r) == multiset(s) + multiset{x}
  {
    var k := FirstAtLeast(s, x);
    assert s == s[..k] + s[k..];
    s[..k] + [x] + s[k..]
  }

  function Sort(s: seq<int>): (r: seq<int>)
    ensures Sorted(r) && |r| == |s|
    ensures multiset(r) == multiset(s)
    decreases |s|
  {
    if s == [] then []
    else
      assert s == s[..|s| - 1] + [s[|s| - 1]];
      Insert(s[|s| - 1], Sort(s[..|s| - 1]))
  }

  function CountBelow(s: seq<int>, v: int): nat {
    if s == [] then 0 else CountBelow(s[..|s| - 1], v) + if s[|s| - 1] < v then 1 else 0
  }

  function CountUpTo(s: seq<int>, v: int): nat {
    CountBelow(s, v + 1)
  }

  lemma {:induction false} CountConcat(a: seq<int>, b: seq<int>, v: int)
    ensures CountBelow(a + b, v) == CountBelow(a, v) + CountBelow(b, v)
    decreases |b|
  {
    if b == [] {
      assert a + b == a;
    } else {
      assert (a + b)[..|a + b| - 1] == a + b[..|b| - 1];
      CountConcat(a, b[..|b| - 1], v);
    }
  }

  lemma CountInsert(x: int, s: seq<int>, v: int)
    requires Sorted(s)
    ensures CountBelow(Insert(x, s), v) == CountBelow(s, v) + if x < v then 1 else 0
  {
    var k := FirstAtLeast(s, x);
    var low, high := s[..k], s[k..];
    assert s == low + high;
    CountConcat(low, high, v);
    CountConcat(low, [x], v);
    CountConcat(low + [x], high, v);
    assert CountBelow([x], v) == if x < v then 1 else 0 by {
      assert [x][..0] == [];
    }
  }

  lemma {:induction false} CountSort(s: seq<int>, v: int)
    ensures CountBelow(Sort(s), v) == CountBelow(s, v)
    decreases |s|
  {
    if s != [] {
      CountSort(s[..|s| - 1], v);
      CountInsert(s[|s| - 1], Sort(s[..|s| - 1]), v);
    }
  }

  /** In a sorted sequence, what lies below position k's value lies below position k. */
  lemma {:induction false} CountSorted(s: seq<int>, k: nat, v: int)
    requires Sorted(s) && k <= |s|
    requires forall i | 0 <= i < k :: s[i] < v
    requires forall i | k <= i < |s| :: s[i] >= v
    ensures CountBelow(s, v) == k
    decreases |s|
  {
    if s != [] {
      if k == |s| {
        CountSorted(s[..|s| - 1], k - 1, v);
      } else {
        CountSorted(s[..|s| - 1], k, v);
      }
    }
  }

  /** At most k values lie below position k's value, at least k + 1 up to it. */
  lemma RankBounds(s: seq<int>, k: nat)
    requires Sorted(s) && k < |s|
    ensures CountBelow(s, s[k]) <= k
    ensures CountUpTo(s, s[k]) >= k + 1
  {
    var lo := FirstAtLeast(s, s[k]);
    CountSorted(s, lo, s[k]);
    var hi := FirstAtLeast(s, s[k] + 1);
    CountSorted(s, hi, s[k] + 1);
  }

  // ---- Percentiles ----

  function CeilDiv(a: nat, b: nat): (q: nat)
    requires b > 0
    ensures b * q >= a && b * q < a + b
  {
    (a + b - 1) / b
  }

  function Rank(n: nat, p: nat): nat {
    var r := CeilDiv(n * p, 100);
    if r < 1 then 1 else r
  }

  function PercentileMs(sorted: seq<int>, p: nat): Option<int> {
    if sorted == [] then None
    else if Rank(|sorted|, p) - 1 < |sorted| then Some(sorted[Rank(|sorted|, p) - 1])
    else None
  }

  lemma MulMonotone(n: nat, p: nat, q: nat)
    requires p <= q
    ensures n * p <= n * q
  {
  }

  lemma RankInRange(n: nat, p: nat)
    requires n > 0
    ensures 1 <= Rank(n, p)
    ensures Rank(n, p) <= n <==> p <= 100
    ensures p > 0 ==> 100 * Rank(n, p) >= p * n && 100 * (Rank(n, p) - 1) < p * n
  {
    if p <= 100 {
      MulMonotone(n, p, 100);
    } else {
      MulMonotone(n, 101, p);
    }
    if p > 0 {
      MulMonotone(n, 1, p);
    }
  }

  lemma RankMonotone(n: nat, p: nat, q: nat)
    requires p <= q
    ensures Rank(n, p) <= Rank(n, q)
  {
    MulMonotone(n, p, q);
  }

  /** `sorted` holds exactly the recorded durations, ascending. */
  ghost predicate SortedFrom(recorded: seq<int>, sorted: seq<int>) {
    && Sorted(sorted)
    && |sorted| == |recorded| && (forall v <- sorted :: v in recorded)
    && forall v :: CountBelow(sorted, v) == CountBelow(recorded, v)
  }

  lemma SortSorts(recorded: seq<int>)
    ensures SortedFrom(recorded, Sort(recorded))
  {
    forall v
      ensures CountBelow(Sort(recorded), v) == CountBelow(recorded, v)
    {
      CountSort(recorded, v);
    }
    forall v | v in Sort(recorded)
      ensures v in recorded
    {
      assert v in multiset(Sort(recorded));
    }
  }

  /** Nearest rank: the percentile of the recorded durations is one of them; at
      least p percent of them are no longer, and fewer than p percent are
      shorter. It exists exactly for p up to 100. */
  lemma NearestRank(recorded: seq<int>, sorted: seq<int>, p: nat)
    requires recorded != [] && SortedFrom(recorded, sorted)
    ensures PercentileMs(sorted, p).Some? <==> p <= 100
    ensures 1 <= p <= 100 ==>
              var v := PercentileMs(sorted, p).value;
              && v in recorded
              && 100 * CountUpTo(recorded, v) >= p * |recorded|
              && 100 * CountBelow(recorded, v) < p * |recorded|
  {
    RankInRange(|recorded|, p);
    if 1 <= p <= 100 {
      RankBounds(sorted, Rank(|recorded|, p) - 1);
    }
  }

  /** A higher percentile is never a shorter duration. */
  lemma PercentileMonotone(sorted: seq<int>, p: nat, q: nat)
    requires sorted != [] && Sorted(sorted) && p <= q <= 100
    ensures PercentileMs(sorted, p).Some? && PercentileMs(sorted, q).Some?
    ensures PercentileMs(sorted, p).value <= PercentileMs(sorted, q).value
  {
    RankInRange(|sorted|, p);
    RankInRange(|sorted|, q);
    RankMonotone(|sorted|, p, q);
  }

  // ---- Reading the file ----

  lemma BookedOnce(before: seq<Row>, row: Row)
    ensures forall kind :: CountKind(before + [row], kind) ==
              CountKind(before, kind) + if KindOf(row.outcome) == kind then 1 else 0
    ensures forall reason :: CountReason(before + [row], reason) ==
              CountReason(before, reason) + if Idled(row, reason) then 1 else 0
    ensures Reparsed(before + [row]) == Reparsed(before) + ReparsedBy(row)
    ensures LastError(before + [row]) == if KindOf(row.outcome) == Errored then Some(row.outcome) else LastError(before)
    ensures Projects(before + [row]) == Projects(before) + {row.project}
  {
    assert (before + [row])[..|before|] == before;
  }

  function Projects(rows: seq<Row>): set<string> {
    set r <- rows :: r.project
  }

  /** Every row is booked under exactly one heading. */
  lemma {:induction false} HeadingsPartition(rows: seq<Row>)
    ensures CountKind(rows, Spawn) + CountKind(rows, Debounce) + CountKind(rows, Done) + CountKind(rows, Errored) +
            CountKind(rows, Other) == |rows|
  {
    if rows != [] {
      HeadingsPartition(rows[..|rows| - 1]);
    }
  }

  // ---- The counters by the text of the outcomes ----

  /** The numbers of the rows whose outcome satisfies `p`. */
  ghost function RowsWith(rows: seq<Row>, p: string -> bool): set<nat> {
    set i: nat | i < |rows| && p(rows[i].outcome)
  }

  predicate IsSpawn(outcome: string) {
    outcome == "spawn"
  }

  predicate IsDebounce(outcome: string) {
    outcome == "debounce"
  }

  predicate IsDone(outcome: string) {
    outcome == "done"
  }

  predicate IsError(outcome: string) {
    "error" <= outcome
  }

  predicate IsIdle(outcome: string) {
    !IsSpawn(outcome) && !IsDebounce(outcome) && !IsDone(outcome) && !IsError(outcome)
  }

  function Idle(reason: string): string -> bool {
    outcome => IsIdle(outcome) && (outcome == "skip: " + reason || (!("skip: " <= outcome) && outcome == reason))
  }

  lemma RowsWithSnoc(rows: seq<Row>, p: string -> bool)
    requires rows != []
    ensures var n := |rows| - 1;
      |RowsWith(rows, p)| == |RowsWith(rows[..n], p)| + if p(rows[n].outcome) then 1 else 0
  {
    var n := |rows| - 1;
    var before, after := RowsWith(rows[..n], p), RowsWith(rows, p);
    if p(rows[n].outcome) {
      assert after == before + {n};
    } else {
      assert after == before;
    }
  }

  lemma KindByText(outcome: string)
    ensures KindOf(outcome) == Spawn <==> IsSpawn(outcome)
    ensures KindOf(outcome) == Debounce <==> IsDebounce(outcome)
    ensures KindOf(outcome) == Done <==> IsDone(outcome)
    ensures KindOf(outcome) == Errored <==> IsError(outcome)
    ensures KindOf(outcome) == Other <==> IsIdle(outcome)
  {
    TextsDiffer();
  }

  lemma TextsDiffer()
    ensures "spawn" != "debounce" && "spawn" != "done" && "debounce" != "done"
    ensures !("error" <= "spawn") && !("error" <= "debounce") && !("error" <= "done")
  {
    assert "error"[0] == 'e' && "spawn"[0] == 's' && "debounce"[0] == 'd' && "done"[0] == 'd';
  }

  lemma {:induction false} CountByText(rows: seq<Row>, kind: Kind, p: string -> bool)
    requires forall outcome :: p(outcome) <==> KindOf(outcome) == kind
    ensures CountKind(rows, kind) == |RowsWith(rows, p)|
  {
    if rows != [] {
      CountByText(rows[..|rows| - 1], kind, p);
      RowsWithSnoc(rows, p);
    } else {
      assert RowsWith(rows, p) == {};
    }
  }

  lemma ReasonByText(row: Row, reason: string)
    ensures Idled(row, reason) <==> Idle(reason)(row.outcome)
  {
    KindByText(row.outcome);
    var skip := "skip: ";
    if skip <= row.outcome {
      assert row.outcome == skip + row.outcome[6..];
    }
    if row.outcome == skip + reason {
      assert row.outcome[6..] == reason;
    }
  }

  lemma {:induction false} ReasonsByText(rows: seq<Row>, reason: string)
    ensures CountReason(rows, reason) == |RowsWith(rows, Idle(reason))|
  {
    if rows != [] {
      ReasonsByText(rows[..|rows| - 1], reason);
      RowsWithSnoc(rows, Idle(reason));
      ReasonByText(rows[|rows| - 1], reason);
    } else {
      assert RowsWith(rows, Idle(reason)) == {};
    }
  }

  /** What the counters of a file of rows are, by the text of the outcomes. */
  lemma CountedByText(rows: seq<Row>)
    ensures CountKind(rows, Spawn) == |RowsWith(rows, IsSpawn)|
    ensures CountKind(rows, Debounce) == |RowsWith(rows, IsDebounce)|
    ensures CountKind(rows, Done) == |RowsWith(rows, IsDone)|
    ensures CountKind(rows, Errored) == |RowsWith(rows, IsError)|
    ensures forall reason :: CountReason(rows, reason) == |RowsWith(rows, Idle(reason))|
  {
    forall outcome
      ensures KindOf(outcome) == Spawn <==> IsSpawn(outcome)
      ensures KindOf(outcome) == Debounce <==> IsDebounce(outcome)
      ensures KindOf(outcome) == Done <==> IsDone(outcome)
      ensures KindOf(outcome) == Errored <==> IsError(outcome)
    {
      KindByText(outcome);
    }
    CountByText(rows, Spawn, IsSpawn);
    CountByText(rows, Debounce, IsDebounce);
    CountByText(rows, Done, IsDone);
    CountByText(rows, Errored, IsError);
    forall reason
      ensures CountReason(rows, reason) == |RowsWith(rows, Idle(reason))|
    {
      ReasonsByText(rows, reason);
    }
  }

  /** The last error is the outcome of the last row that starts with the word. */
  lemma {:induction false} LastErrorByText(rows: seq<Row>, i: nat)
    requires i < |rows| && "error" <= rows[i].outcome
    requires forall j | i < j < |rows| :: !("error" <= rows[j].outcome)
    ensures LastError(rows) == Some(rows[i].outcome)
    decreases |rows|
  {
    KindByText(rows[|rows| - 1].outcome);
    if i < |rows| - 1 {
      LastErrorByText(rows[..|rows| - 1], i);
    }
  }

  /** Durations and files parsed again come from rows that say done, and no others. */
  lemma CostByText(rows: seq<Row>, row: Row)
    ensures Durations(rows + [row]) ==
      Durations(rows) + if row.outcome == "done" && row.duration.Some? then [row.duration.value] else []
    ensures Reparsed(rows + [row]) ==
      Reparsed(rows) + if row.outcome == "done" && row.reparsed.Some? then row.reparsed.value else 0
    ensures Durations([]) == [] && Reparsed([]) == 0
  {
    KindByText(row.outcome);
    assert (rows + [row])[..|rows|] == rows;
  }

  function Tally(skipped: map<string, nat>, reason: string): nat {
    if reason in skipped then skipped[reason] else 0
  }

  class Stats {
    var spawns: nat
    var debounced: nat
    var refreshes: nat
    var skipped: map<string, nat>
    var errors: nat
    var lastError: Option<string>
    var reparsed: nat
    var durations: seq<int>
    var projects: set<string>

    constructor ()
      ensures Describes([]) && durations == []
    {
      spawns, debounced, refreshes, skipped, errors := 0, 0, 0, map[], 0;
      lastError, reparsed, durations, projects := None, 0, [], {};
    }

    /** The counters of exactly these rows. */
    ghost predicate Describes(rows: seq<Row>)
      reads this
    {
      && spawns == CountKind(rows, Spawn)
      && debounced == CountKind(rows, Debounce)
      && refreshes == CountKind(rows, Done)
      && errors == CountKind(rows, Errored)
      && lastError == LastError(rows)
      && reparsed == Reparsed(rows)
      && projects == Projects(rows)
      && forall reason :: Tally(skipped, reason) == CountReason(rows, reason)
    }

    method Book(ghost before: seq<Row>, row: Row)
      requires Describes(before)
      modifies this
      ensures Describes(before + [row])
      ensures durations == old(durations) +
                if KindOf(row.outcome) == Done && row.duration.Some? then [row.duration.value] else []
    {
      BookedOnce(before, row);
      projects := projects + {row.project};
      var kind := KindOf(row.outcome);
      if kind == Spawn {
        spawns := spawns + 1;
      } else if kind == Debounce {
        debounced := debounced + 1;
      } else if kind == Done {
        refreshes := refreshes + 1;
        if row.duration.Some? {
          durations := durations + [row.duration.value];
        }
        reparsed := reparsed + row.reparsed.GetOr(0);
      } else if kind == Errored {
        errors := errors + 1;
        lastError := Some(row.outcome);
      } else {
        var reason := ReasonOf(row.outcome);
        skipped := skipped[reason := Tally(skipped, reason) + 1];
      }
    }

    method ReadRows(rows: seq<Row>)
      requires Describes([]) && durations == []
      modifies this
      ensures Describes(rows)
      ensures SortedFrom(Durations(rows), durations)
    {
      for i := 0 to |rows|
        invariant Describes(rows[..i]) && durations == Durations(rows[..i])
      {
        assert rows[..i + 1] == rows[..i] + [rows[i]];
        assert rows[..i + 1][..i] == rows[..i];
        Book(rows[..i], rows[i]);
      }
      assert rows[..|rows|] == rows;
      SortSorts(durations);
      durations := Sort(durations);
    }
  }
}
