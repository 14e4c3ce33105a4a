/** The automatic refresh's debounce and duty cycle: a hook that fires on every
    write reads one stamp, claims a window and starts a child; the child, if it
    lives, leaves a stamp that holds the next one off. Times are milliseconds. */
module AutoRefresh {
  import opened Wrappers

  const AUTO_MIN_GAP_MS := 30_000
  const AUTO_MAX_GAP_MS := 600_000
  const AUTO_DUTY_FACTOR := 20
  const AUTO_BACKOFF_SETTLED_MS := 3_600_000
  const AUTO_BACKOFF_BLOCKED_MS := 600_000
  const AUTO_BACKOFF_TRANSIENT_MS := 30_000
  const AUTO_BACKOFF_ERROR_MS := 300_000
  const CLAIM_MS := 15_000

  /** When the next attempt may start; the other columns only inform a reader. */
  datatype Stamp = Stamp(lastAttempt: int, notBefore: int)

  predicate ShouldSpawn(stamp: Option<Stamp>, now: int) {
    stamp.None? || now >= stamp.value.notBefore
  }

  function NextGap(duration: nat): (gap: nat)
    ensures 30_000 <= gap <= 600_000
    ensures gap >= 20 * duration <==> duration <= 30_000
    ensures gap < 20 * duration ==> gap == 600_000
    ensures gap > 20 * duration ==> gap == 30_000
  {
    var wanted := duration * AUTO_DUTY_FACTOR;
    if wanted < AUTO_MIN_GAP_MS then AUTO_MIN_GAP_MS
    else if wanted > AUTO_MAX_GAP_MS then AUTO_MAX_GAP_MS
    else wanted
  }

  /** Why a child decided there was nothing to do. */
  datatype Reason =
    | HooksDisabled | NoGraph | NoRoot | RootGone | NotGit | NothingChanged | AlreadyRunning
    | EmptyScan | OverCeiling

  datatype Outcome = Refreshed(duration: nat) | Skipped(reason: Reason) | Failed

  function Backoff(outcome: Outcome): (ms: nat)
    ensures ms >= 2 * CLAIM_MS
    ensures outcome.Refreshed? ==> ms == NextGap(outcome.duration)
  {
    match outcome
    case Refreshed(d) => NextGap(d)
    case Skipped(reason) => SkipBackoff(reason)
    case Failed => AUTO_BACKOFF_ERROR_MS
  }

  /** States that clear by themselves, that need a person, and that stay. */
  function SkipBackoff(reason: Reason): (ms: nat)
    ensures ms >= 2 * CLAIM_MS
  {
    match reason
    case HooksDisabled | NothingChanged | AlreadyRunning => AUTO_BACKOFF_TRANSIENT_MS
    case EmptyScan | OverCeiling => AUTO_BACKOFF_BLOCKED_MS
    case NoGraph | NoRoot | RootGone | NotGit => AUTO_BACKOFF_SETTLED_MS
  }

  /** What a hook records about itself. */
  datatype Fired = Debounced | Spawned | SpawnFailed

  /** A child's stamp file, as the hook and the children write it. */
  class StampFile {
    var stamp: Option<Stamp>

    constructor ()
      ensures stamp == None
    {
      stamp := None;
    }

    /** The hook: too early, it leaves the stamp alone; otherwise it claims the window
        first and keeps the claim even if the child `starts` not. */
    method Hook(now: int, starts: bool) returns (fired: Fired)
      modifies this
      ensures fired == Debounced <==> old(stamp).Some? && now < old(stamp).value.notBefore
      ensures fired == SpawnFailed <==> fired != Debounced && !starts
      ensures fired == Debounced ==> stamp == old(stamp)
      ensures fired != Debounced ==>
        stamp == Some(Stamp(now, now + 15_000)) && forall later | later < now + 15_000 :: !ShouldSpawn(stamp, later)
    {
      if !ShouldSpawn(stamp, now) {
        return Debounced;
      }
      stamp := Some(Stamp(now, now + CLAIM_MS));
      fired := if starts then Spawned else SpawnFailed;
    }

    /** The child's last act. */
    method Finish(now: int, outcome: Outcome)
      modifies this
      ensures stamp == Some(Stamp(now, now + Backoff(outcome)))
      ensures forall later :: ShouldSpawn(stamp, later) <==> later >= now + Backoff(outcome)
    {
      stamp := Some(Stamp(now, now + Backoff(outcome)));
    }
  }

  // ---- Many hooks, many children ----

  /** A refresh that ran: when its hook claimed, when it stamped, what it measured. */
  datatype Cycle = Cycle(spawned: int, finished: int, duration: nat)

  /** A spawn: when its hook read the clock, and when it started the child. */
  datatype Spawn = Spawn(read: int, at: int)

  /** `pending` hooks have found a refresh due at the noted time and not yet
      claimed; `children` were started at the noted times and still run. */
  datatype State = State(
    now: int, stamp: Option<Stamp>, pending: map<nat, int>, children: map<nat, int>,
    spawns: seq<Spawn>, cycles: seq<Cycle>)

  datatype Event =
    | Tick(ms: nat)
    | HookReads(h: nat)
    | HookClaims(h: nat)
    | ChildDone(c: nat, outcome: Outcome)
    | ChildDies(c: nat)

  predicate Enabled(s: State, e: Event) {
    match e
    case Tick(_) => true
    case HookReads(h) => h !in s.pending
    case HookClaims(h) => h in s.pending
    case ChildDone(c, outcome) =>
      c in s.children && (outcome.Refreshed? ==> s.children[c] + outcome.duration <= s.now)
    case ChildDies(c) => c in s.children
  }

  function Next(s: State, e: Event): State
    requires Enabled(s, e)
  {
    match e
    case Tick(ms) => s.(now := s.now + ms)
    case HookReads(h) =>
      if ShouldSpawn(s.stamp, s.now) then s.(pending := s.pending[h := s.now]) else s
    case HookClaims(h) =>
      var at := s.pending[h];
      s.(pending := s.pending - {h}, stamp := Some(Stamp(at, at + CLAIM_MS)),
         children := s.children[|s.spawns| := s.now], spawns := s.spawns + [Spawn(at, s.now)])
    case ChildDone(c, outcome) =>
      s.(children := s.children - {c}, stamp := Some(Stamp(s.now, s.now + Backoff(outcome))),
         cycles := if outcome.Refreshed? then s.cycles + [Cycle(s.children[c], s.now, outcome.duration)] else s.cycles)
    case ChildDies(c) => s.(children := s.children - {c})
  }

  ghost predicate Init(s: State) {
    s == State(s.now, None, map[], map[], [], [])
  }

  ghost predicate Behaviour(states: seq<State>, events: seq<Event>) {
    && |states| == |events| + 1
    && Init(states[0])
    && forall i | 0 <= i < |events| :: Enabled(states[i], events[i]) && states[i + 1] == Next(states[i], events[i])
  }

  /** Hooks take turns: none reads the stamp between another's reading and claiming. */
  ghost predicate Sequential(s: State) {
    forall h, k | h in s.pending && k in s.pending :: h == k
  }

  /** A hook that is not interrupted does what the method does, in two steps. */
  lemma UninterruptedHook(s: State, h: nat)
    requires h !in s.pending
    ensures var read := Next(s, HookReads(h));
      if s.stamp.Some? && s.now < s.stamp.value.notBefore then read == s
      else
        && Enabled(read, HookClaims(h))
        && var claimed := Next(read, HookClaims(h));
           && claimed.stamp == Some(Stamp(s.now, s.now + 15_000)) && claimed.pending == s.pending
           && claimed.spawns == s.spawns + [Spawn(s.now, s.now)]
  {
    var read := Next(s, HookReads(h));
    if read != s {
      assert Next(read, HookClaims(h)).pending == s.pending;
    }
  }

  // ---- Spacing ----

  /** Hooks read the clock at least a claim's length apart, and then spawn. */
  ghost predicate Spaced(spawns: seq<Spawn>) {
    && (forall i | 0 <= i < |spawns| :: spawns[i].read <= spawns[i].at)
    && forall i | 0 <= i < |spawns| - 1 :: spawns[i + 1].read >= spawns[i].read + CLAIM_MS
  }

  ghost predicate SpacingInv(s: State) {
    && Spaced(s.spawns)
    && (forall h <- s.pending :: s.pending[h] <= s.now)
    && (s.spawns != [] ==>
          var last := s.spawns[|s.spawns| - 1];
          && last.at <= s.now
          && s.stamp.Some? && s.stamp.value.notBefore >= last.read + CLAIM_MS
          && forall h <- s.pending :: s.pending[h] >= last.read + CLAIM_MS)
  }

  lemma SpacingStep(s: State, e: Event)
    requires SpacingInv(s) && Sequential(s) && Enabled(s, e)
    ensures SpacingInv(Next(s, e))
  {
    if e.HookClaims? {
      assert Next(s, e).pending == map[];
    }
  }

  lemma {:induction false} SpacingKeeps(states: seq<State>, events: seq<Event>, n: nat)
    requires Behaviour(states, events) && n < |states|
    requires forall i | 0 <= i < n :: Sequential(states[i])
    ensures SpacingInv(states[n])
  {
    if n > 0 {
      SpacingKeeps(states, events, n - 1);
      SpacingStep(states[n - 1], events[n - 1]);
    }
  }

  lemma {:induction false} SpacedFar(spawns: seq<Spawn>, i: nat, j: nat)
    requires Spaced(spawns) && i <= j < |spawns|
    ensures spawns[j].read >= spawns[i].read + (j - i) * CLAIM_MS
    decreases j - i
  {
    if i < j {
      SpacedFar(spawns, i, j - 1);
      assert spawns[j - 1 + 1].read >= spawns[j - 1].read + CLAIM_MS;
    }
  }

  /** With sequential hooks, k further spawns take at least k times 15 seconds, less
      the time the first of these hooks took to spawn, however many children
      overlap, finish late or die without a stamp. */
  lemma SpawnsAreSpaced(states: seq<State>, events: seq<Event>, n: nat, i: nat, j: nat)
    requires Behaviour(states, events) && n < |states|
    requires forall k | 0 <= k < n :: Sequential(states[k])
    requires i <= j < |states[n].spawns|
    ensures states[n].spawns[j].at >=
            states[n].spawns[i].at + (j - i) * 15_000 - (states[n].spawns[i].at - states[n].spawns[i].read)
  {
    SpacingKeeps(states, events, n);
    SpacedFar(states[n].spawns, i, j);
  }

  /** That time does count, whatever it is up to a claim's length: hooks that take
      turns, a first that stalls that long between reading and claiming, and a second
      that spawns a claim's length after the first one's reading. */
  lemma StalledHook(s: State, h: nat, k: nat, stall: nat)
    requires s == State(0, None, map[], map[], [], []) && stall <= CLAIM_MS
    ensures var s1 := Next(s, HookReads(h));
            var s2 := Next(s1, Tick(stall));
            var s3 := Next(s2, HookClaims(h));
            var s4 := Next(s3, Tick(CLAIM_MS - stall));
            var s5 := Next(s4, HookReads(k));
            && Sequential(s1) && Sequential(s2) && Sequential(s3) && Sequential(s4) && Sequential(s5)
            && Enabled(s5, HookClaims(k))
            && Next(s5, HookClaims(k)).spawns == [Spawn(0, stall), Spawn(CLAIM_MS, CLAIM_MS)]
  {
    var s1 := Next(s, HookReads(h));
    var s2 := Next(s1, Tick(stall));
    var s3 := Next(s2, HookClaims(h));
    assert s3.pending == map[];
    var s4 := Next(s3, Tick(CLAIM_MS - stall));
    var s5 := Next(s4, HookReads(k));
    assert s5.pending == map[k := CLAIM_MS];
    assert [Spawn(0, stall)] + [Spawn(CLAIM_MS, CLAIM_MS)] == [Spawn(0, stall), Spawn(CLAIM_MS, CLAIM_MS)];
  }

  /** Two hooks that read before either claims both spawn, at the same instant. */
  lemma OverlappingHooksBothSpawn(s: State, h: nat, k: nat)
    requires h != k && h !in s.pending && k !in s.pending && ShouldSpawn(s.stamp, s.now)
    ensures var s1 := Next(s, HookReads(h));
            var s2 := Next(s1, HookReads(k));
            var s3 := Next(s2, HookClaims(h));
            Next(s3, HookClaims(k)).spawns == s.spawns + [Spawn(s.now, s.now), Spawn(s.now, s.now)]
  {
    var s1 := Next(s, HookReads(h));
    var s2 := Next(s1, HookReads(k));
    var s3 := Next(s2, HookClaims(h));
    assert Next(s3, HookClaims(k)).spawns == s.spawns + [Spawn(s.now, s.now)] + [Spawn(s.now, s.now)];
  }

  // ---- Duty cycle ----

  /** Each child stamps, or dies, before the next hook even reads. */
  ghost predicate Orderly(s: State) {
    && Sequential(s)
    && (forall c, d | c in s.children && d in s.children :: c == d)
    && (s.pending != map[] ==> s.children == map[])
  }

  function Floor(c: Cycle): int {
    c.finished + NextGap(c.duration)
  }

  ghost predicate HeldOff(cycles: seq<Cycle>) {
    forall i | 0 <= i < |cycles| - 1 :: cycles[i + 1].spawned >= Floor(cycles[i])
  }

  ghost predicate DutyInv(s: State) {
    && HeldOff(s.cycles)
    && (forall c <- s.cycles :: c.spawned + c.duration <= c.finished)
    && (forall h <- s.pending :: s.pending[h] <= s.now)
    && (forall c <- s.children :: s.children[c] <= s.now)
    && (s.cycles != [] ==>
          var floor := Floor(s.cycles[|s.cycles| - 1]);
          && s.stamp.Some? && s.stamp.value.notBefore >= floor
          && (forall h <- s.pending :: s.pending[h] >= floor)
          && (forall c <- s.children :: s.children[c] >= floor))
  }

  lemma DutyStep(s: State, e: Event)
    requires DutyInv(s) && Orderly(s) && Enabled(s, e)
    ensures DutyInv(Next(s, e))
  {
    if e.ChildDone? {
      var s' := Next(s, e);
      assert s'.children == map[] && s'.pending == map[];
    }
  }

  lemma {:induction false} DutyKeeps(states: seq<State>, events: seq<Event>, n: nat)
    requires Behaviour(states, events) && n < |states|
    requires forall i | 0 <= i < n :: Orderly(states[i])
    ensures DutyInv(states[n])
  {
    if n > 0 {
      DutyKeeps(states, events, n - 1);
      DutyStep(states[n - 1], events[n - 1]);
    }
  }

  /** Time spent refreshing, over every cycle that another one followed. */
  function Work(cycles: seq<Cycle>): nat {
    if |cycles| <= 1 then 0 else Work(cycles[..|cycles| - 1]) + cycles[|cycles| - 2].duration
  }

  /** Time from each refresh's stamp to the next spawn. */
  function Idle(cycles: seq<Cycle>): int {
    if |cycles| <= 1 then 0
    else Idle(cycles[..|cycles| - 1]) + cycles[|cycles| - 1].spawned - cycles[|cycles| - 2].finished
  }

  lemma {:induction false} IdleCoversWork(cycles: seq<Cycle>)
    requires HeldOff(cycles) && forall c <- cycles :: c.duration <= 30_000
    ensures AUTO_DUTY_FACTOR * Work(cycles) <= Idle(cycles)
    decreases |cycles|
  {
    if |cycles| > 1 {
      var front := cycles[..|cycles| - 1];
      assert forall i | 0 <= i < |front| - 1 :: front[i + 1].spawned >= Floor(front[i]);
      IdleCoversWork(front);
      assert cycles[|cycles| - 2 + 1].spawned >= Floor(cycles[|cycles| - 2]);
      assert cycles[|cycles| - 2] in cycles;
    }
  }

  /** Over every orderly run, no refresh starts sooner after the last one than
      that one's gap; and while refreshes stay within 30 seconds, the time spent
      refreshing is at most a twentieth of the time left idle. */
  lemma DutyCycle(states: seq<State>, events: seq<Event>, n: nat)
    requires Behaviour(states, events) && n < |states|
    requires forall i | 0 <= i < n :: Orderly(states[i])
    ensures forall i | 0 <= i < |states[n].cycles| - 1 ::
              states[n].cycles[i + 1].spawned >= states[n].cycles[i].finished + NextGap(states[n].cycles[i].duration)
    ensures (forall c <- states[n].cycles :: c.duration <= 30_000) ==>
              20 * Work(states[n].cycles) <= Idle(states[n].cycles)
  {
    DutyKeeps(states, events, n);
    assert HeldOff(states[n].cycles);
    if forall c <- states[n].cycles :: c.duration <= 30_000 {
      IdleCoversWork(states[n].cycles);
    }
  }
}
