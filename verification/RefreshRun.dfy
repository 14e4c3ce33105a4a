/** One automatic refresh from end to end: the gates in order, the lock, the pass,
    and the stamp that holds the next attempt off. */
module RefreshRun {
  import opened Wrappers
  import opened GraphStore
  import opened Freshness
  import opened Index
  import RefreshLock
  import AutoRefresh

  /** What the child finds around it; each is a gate. */
  datatype Setting = Setting(
    hooksDisabled: bool, hasGraph: bool, hasRoot: bool, rootIsThere: bool, ceiling: nat, opens: bool)

  /** There is a graph and a tree, and git answers. */
  predicate Observes(setting: Setting, snap: Snapshot) {
    && !setting.hooksDisabled && setting.hasGraph && setting.hasRoot && setting.rootIsThere
    && snap.head.Some? && snap.dirty.Some?
  }

  /** Nothing tells this snapshot from the one recorded, or what was recorded cannot
      be compared. */
  predicate NothingNew(baseline: Option<Baseline>, snap: Snapshot) {
    && baseline.Some?
    && (baseline.value.head == "no-git" || baseline.value.dirty == ""
        || (snap.head == Some(baseline.value.head) && snap.dirty == Some(baseline.value.dirty)))
  }

  /** Whether a child with this snapshot would go for the lock at all. */
  predicate Wants(setting: Setting, baseline: Option<Baseline>, snap: Snapshot) {
    Observes(setting, snap) && !NothingNew(baseline, snap)
  }

  /** Which gate a child that wants nothing stopped at. */
  ghost predicate TurnedBack(setting: Setting, input: Input, baseline: Option<Baseline>, reason: AutoRefresh.Reason) {
    match reason
    case HooksDisabled => setting.hooksDisabled
    case NoGraph => !setting.hooksDisabled && !setting.hasGraph
    case NoRoot => !setting.hooksDisabled && setting.hasGraph && !setting.hasRoot
    case RootGone => !setting.hooksDisabled && setting.hasGraph && setting.hasRoot && !setting.rootIsThere
    case NotGit =>
      && !setting.hooksDisabled && setting.hasGraph && setting.hasRoot && setting.rootIsThere
      && (input.observed.head.None? || input.observed.dirty.None?)
    case NothingChanged => Observes(setting, input.observed) && NothingNew(baseline, input.observed)
    case _ => false
  }

  /** The outcome, gate by gate: `free` says whether the lock could be taken. */
  ghost predicate Decided(setting: Setting, input: Input, baseline: Option<Baseline>, free: bool, elapsed: nat,
                          outcome: AutoRefresh.Outcome) {
    var wants := Wants(setting, baseline, input.observed);
    match outcome
    case Skipped(AlreadyRunning) => wants && !free
    case Skipped(EmptyScan) => wants && free && |input.files| == 0
    case Skipped(OverCeiling) => wants && free && |input.files| > 0 && |input.files| > setting.ceiling
    case Skipped(reason) => TurnedBack(setting, input, baseline, reason)
    case Failed => wants && free && 0 < |input.files| <= setting.ceiling && !setting.opens
    case Refreshed(duration) =>
      wants && free && 0 < |input.files| <= setting.ceiling && setting.opens && duration == elapsed
  }

  /** The gates leave exactly one outcome for every run. */
  lemma DecidedOnce(setting: Setting, input: Input, baseline: Option<Baseline>, free: bool, elapsed: nat,
                    a: AutoRefresh.Outcome, b: AutoRefresh.Outcome)
    requires Decided(setting, input, baseline, free, elapsed, a)
    requires Decided(setting, input, baseline, free, elapsed, b)
    ensures a == b
  {
  }

  /** The gates, cheapest first, then one incremental pass under the lock. The store
      changes exactly when a refresh is reported, and then by one complete pass that
      leaves a graph this very snapshot judges fresh; whatever happens, a lock that
      was somebody else's is left alone and one that was taken is released. */
  method DecideAndRun(
    store: CodeGraphStore, lock: RefreshLock.LockPath, t: Tools, setting: Setting, input: Input,
    token: nat, now: int, elapsed: nat)
    returns (outcome: AutoRefresh.Outcome, ghost stale: seq<Path>, ghost counts: seq<(Path, nat)>)
    requires input.Valid()
    modifies store, lock
    ensures Decided(setting, input, old(store.Contents()).baseline,
                    RefreshLock.Attempt(old(lock.file), token, now).1, elapsed, outcome)
    ensures !outcome.Refreshed? ==> store.Contents() == old(store.Contents())
    ensures outcome.Refreshed? ==>
      && IsPass(t, old(store.Contents()), input, false, stale, counts)
      && store.Contents() ==
           ApplyAll(old(store.Contents()), PassOps(t, old(store.Contents()), input, false, stale, counts))
    ensures lock.file ==
      if && Wants(setting, old(store.Contents()).baseline, input.observed)
         && RefreshLock.Attempt(old(lock.file), token, now).1
      then None else old(lock.file)
  {
    stale, counts := [], [];
    if setting.hooksDisabled {
      return AutoRefresh.Skipped(AutoRefresh.HooksDisabled), stale, counts;
    }
    if !setting.hasGraph {
      return AutoRefresh.Skipped(AutoRefresh.NoGraph), stale, counts;
    }
    if !setting.hasRoot {
      return AutoRefresh.Skipped(AutoRefresh.NoRoot), stale, counts;
    }
    if !setting.rootIsThere {
      return AutoRefresh.Skipped(AutoRefresh.RootGone), stale, counts;
    }
    var observed := input.observed;
    if observed.head.None? || observed.dirty.None? {
      return AutoRefresh.Skipped(AutoRefresh.NotGit), stale, counts;
    }
    if store.freshness.Some? {
      var verdict := Judge(store.freshness, observed);
      if verdict.Fresh? || verdict.Unknown? {
        return AutoRefresh.Skipped(AutoRefresh.NothingChanged), stale, counts;
      }
    }
    var held := lock.TryAcquire(token, now);
    if !held {
      return AutoRefresh.Skipped(AutoRefresh.AlreadyRunning), stale, counts;
    }
    if |input.files| == 0 {
      outcome := AutoRefresh.Skipped(AutoRefresh.EmptyScan);
    } else if |input.files| > setting.ceiling {
      outcome := AutoRefresh.Skipped(AutoRefresh.OverCeiling);
    } else if !setting.opens {
      outcome := AutoRefresh.Failed;
    } else {
      var fates;
      fates, stale, counts := IndexProject(store, t, input, false);
      outcome := AutoRefresh.Refreshed(elapsed);
    }
    lock.Remove();
  }

  lemma PassStamps(t: Tools, g: Graph, input: Input, stale: seq<Path>, counts: seq<(Path, nat)>)
    requires input.Valid()
    ensures ApplyAll(g, PassOps(t, g, input, false, stale, counts)).baseline == Some(BaselineOf(input.observed))
  {
    PassRuns(t, g, input, false, stale, counts);
  }

  /** A refresh settles: with the same snapshot a second child declines, unless a
      signal happens to be one of the markers for "cannot judge" — and then it
      declines too, for good: it never works twice on an unmoved tree. */
  lemma RefreshSettles(t: Tools, setting: Setting, g: Graph, input: Input, stale: seq<Path>, counts: seq<(Path, nat)>)
    requires input.Valid() && Wants(setting, g.baseline, input.observed)
    ensures var g' := ApplyAll(g, PassOps(t, g, input, false, stale, counts));
      !Wants(setting, g'.baseline, input.observed)
  {
    PassStamps(t, g, input, stale, counts);
  }

  /** The stamp lets the next child start from this instant on, and not before. */
  ghost predicate DueFrom(stamp: Option<AutoRefresh.Stamp>, at: int) {
    forall later :: AutoRefresh.ShouldSpawn(stamp, later) <==> later >= at
  }

  /** How long a run keeps the next one away: thirty seconds where things clear by
      themselves, ten minutes where they need a person, an hour where they stay, five
      minutes after a failure, and otherwise twenty times what the refresh took,
      within thirty seconds and ten minutes. */
  ghost predicate KeepsAway(stamp: Option<AutoRefresh.Stamp>, from: int, outcome: AutoRefresh.Outcome) {
    match outcome
    case Skipped(reason) =>
      (match reason
       case HooksDisabled | NothingChanged | AlreadyRunning => DueFrom(stamp, from + 30_000)
       case EmptyScan | OverCeiling => DueFrom(stamp, from + 600_000)
       case NoGraph | NoRoot | RootGone | NotGit => DueFrom(stamp, from + 3_600_000))
    case Failed => DueFrom(stamp, from + 300_000)
    case Refreshed(d) =>
      DueFrom(stamp, from + if d <= 1_500 then 30_000 else if d >= 30_000 then 600_000 else 20 * d)
  }

  /** Every run stamps, and the stamp keeps the next child away for the backoff its
      outcome earned, whatever the outcome was. */
  method RunAuto(
    store: CodeGraphStore, lock: RefreshLock.LockPath, stamp: AutoRefresh.StampFile, t: Tools, setting: Setting,
    input: Input, token: nat, now: int, elapsed: nat)
    returns (outcome: AutoRefresh.Outcome)
    requires input.Valid()
    modifies store, lock, stamp
    ensures Decided(setting, input, old(store.Contents()).baseline,
                    RefreshLock.Attempt(old(lock.file), token, now).1, elapsed, outcome)
    ensures KeepsAway(stamp.stamp, now + elapsed, outcome)
    ensures outcome.Refreshed? ==>
      !Wants(setting, store.Contents().baseline, input.observed)
  {
    ghost var g := store.Contents();
    ghost var stale, counts;
    outcome, stale, counts := DecideAndRun(store, lock, t, setting, input, token, now, elapsed);
    stamp.Finish(now + elapsed, outcome);
    if outcome.Refreshed? {
      RefreshSettles(t, setting, g, input, stale, counts);
    }
  }
}
