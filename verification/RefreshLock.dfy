/** The advisory lock file: created with create-new, judged stale by its age,
    removed on release. Processes interleave one file operation at a time and may
    die between any two. */
module RefreshLock {
  import opened Wrappers

  const LOCK_STALE := 600

  /** `token` names the creation; `mtime` is when it happened, in seconds. */
  datatype LockFile = LockFile(token: nat, mtime: int)

  predicate IsStale(file: Option<LockFile>, now: int) {
    file.Some? && now - file.value.mtime > LOCK_STALE
  }

  /** One whole attempt with nobody in between: the lock file afterwards, and
      whether the caller holds it. */
  function Attempt(file: Option<LockFile>, token: nat, now: int): (Option<LockFile>, bool) {
    if file.None? || IsStale(file, now) then (Some(LockFile(token, now)), true)
    else (file, false)
  }

  /** The lock file's directory entry, as one process uses it undisturbed. */
  class LockPath {
    var file: Option<LockFile>

    constructor ()
      ensures file == None
    {
      file := None;
    }

    method Create(token: nat, now: int) returns (ok: bool)
      modifies this
      ensures ok == old(file).None?
      ensures file == if ok then Some(LockFile(token, now)) else old(file)
    {
      ok := file.None?;
      if ok {
        file := Some(LockFile(token, now));
      }
    }

    method Remove()
      modifies this
      ensures file == None
    {
      file := None;
    }

    method TryAcquire(token: nat, now: int) returns (held: bool)
      modifies this
      ensures (file, held) == Attempt(old(file), token, now)
      ensures held <==> old(file).None? || now - old(file).value.mtime > 600
      ensures file == if held then Some(LockFile(token, now)) else old(file)
    {
      held := Create(token, now);
      if held {
        return;
      }
      if IsStale(file, now) {
        Remove();
        held := Create(token, now);
      }
    }
  }

  // ---- Interleaved ----

  type Pid = nat

  datatype Proc =
    | Idle
    | Refused                          // its first create failed
    | SawStale                         // it judged the file abandoned
    | Removed                          // it removed the file
    | Holding(token: nat, since: int)  // it has the guard
    | Dead

  datatype State = State(now: int, file: Option<LockFile>, procs: map<Pid, Proc>, next: nat)

  datatype Event =
    | Tick(seconds: nat)
    | TryCreate(p: Pid)
    | CheckStale(p: Pid)
    | Remove(p: Pid)
    | Recreate(p: Pid)
    | Release(p: Pid)
    | Crash(p: Pid)

  function Goes(s: State, p: Pid, to: Proc): State {
    s.(procs := s.procs[p := to])
  }

  /** Create-new succeeds for exactly one caller. */
  function Creates(s: State, p: Pid, otherwise: Proc): State {
    if s.file.None? then
      Goes(s, p, Holding(s.next, s.now)).(file := Some(LockFile(s.next, s.now)), next := s.next + 1)
    else Goes(s, p, otherwise)
  }

  predicate At(s: State, p: Pid, proc: Proc) {
    p in s.procs && s.procs[p] == proc
  }

  predicate Enabled(s: State, e: Event) {
    match e
    case Tick(_) => true
    case TryCreate(p) => At(s, p, Idle)
    case CheckStale(p) => At(s, p, Refused)
    case Remove(p) => At(s, p, SawStale)
    case Recreate(p) => At(s, p, Removed)
    case Release(p) => Holds(s, p)
    case Crash(p) => p in s.procs
  }

  function Next(s: State, e: Event): State {
    match e
    case Tick(seconds) => s.(now := s.now + seconds)
    case TryCreate(p) => Creates(s, p, Refused)
    case CheckStale(p) => Goes(s, p, if IsStale(s.file, s.now) then SawStale else Idle)
    case Remove(p) => Goes(s, p, Removed).(file := None)
    case Recreate(p) => Creates(s, p, Idle)
    case Release(p) => Goes(s, p, Idle).(file := None)
    case Crash(p) => Goes(s, p, Dead)
  }

  predicate Step(s: State, e: Event, s': State) {
    Enabled(s, e) && s' == Next(s, e)
  }

  ghost predicate Init(s: State) {
    s.file == None && forall p <- s.procs :: s.procs[p] == Idle
  }

  predicate Holds(s: State, p: Pid) {
    p in s.procs && s.procs[p].Holding?
  }

  /** Live holders finish within the staleness bound. */
  ghost predicate Prompt(s: State) {
    forall p | Holds(s, p) :: s.now - s.procs[p].since <= LOCK_STALE
  }

  /** No two processes sit between judging the file stale and removing it. */
  ghost predicate OneReclaimer(s: State) {
    forall p, q | p in s.procs && q in s.procs && s.procs[p] == SawStale && s.procs[q] == SawStale :: p == q
  }

  /** The file is the one this live guard created. */
  predicate Owns(s: State, p: Pid) {
    Holds(s, p) && s.file == Some(LockFile(s.procs[p].token, s.procs[p].since))
  }

  ghost predicate Exclusive(s: State) {
    forall p, q | Holds(s, p) && Holds(s, q) :: p == q
  }

  ghost predicate Inv(s: State) {
    && (s.file.Some? ==> s.file.value.token < s.next)
    && (forall p <- s.procs | s.procs[p].Holding? :: s.procs[p].token < s.next)
    && (forall p <- s.procs | s.procs[p].Holding? :: Owns(s, p))
    && (forall p, q | p in s.procs && q in s.procs && s.procs[p].Holding? && s.procs[q].Holding?
          && s.procs[p].token == s.procs[q].token :: p == q)
    && (forall p <- s.procs | s.procs[p] == SawStale :: s.file.Some? && forall q <- s.procs :: !s.procs[q].Holding?)
  }

  lemma CreateKeeps(s: State, p: Pid, otherwise: Proc)
    requires Inv(s) && p in s.procs && (s.procs[p] == Idle || s.procs[p] == Removed)
    requires otherwise == Idle || otherwise == Refused
    ensures Inv(Creates(s, p, otherwise))
  {
    var s' := Creates(s, p, otherwise);
    forall q | q in s'.procs && s'.procs[q].Holding?
      ensures Owns(s', q)
    {
      if q != p {
        assert Owns(s, q);
      }
    }
  }

  lemma StepKeeps(s: State, e: Event, s': State)
    requires Inv(s) && Prompt(s) && OneReclaimer(s) && Step(s, e, s')
    ensures Inv(s')
  {
    match e
    case TryCreate(p) => CreateKeeps(s, p, Refused);
    case Recreate(p) => CreateKeeps(s, p, Idle);
    case CheckStale(p) => CheckKeeps(s, p, s');
    case Tick(_) => assert forall q <- s.procs | s.procs[q].Holding? :: Owns(s, q) && Owns(s', q);
    case _ => RetreatKeeps(s, e, s');
  }

  lemma CheckKeeps(s: State, p: Pid, s': State)
    requires Inv(s) && Prompt(s) && Step(s, CheckStale(p), s')
    ensures Inv(s')
  {
    forall q | q in s.procs && s.procs[q].Holding?
      ensures Owns(s', q) && !IsStale(s.file, s.now)
    {
      assert Holds(s, q) && Owns(s, q);
    }
  }

  lemma RetreatKeeps(s: State, e: Event, s': State)
    requires Inv(s) && OneReclaimer(s) && Step(s, e, s')
    requires e.Remove? || e.Release? || e.Crash?
    ensures Inv(s')
  {
    forall q | q in s'.procs && s'.procs[q].Holding?
      ensures Owns(s', q)
    {
      assert Owns(s, q);
    }
  }

  ghost predicate Behaviour(states: seq<State>, events: seq<Event>) {
    && |states| == |events| + 1
    && Init(states[0])
    && forall i | 0 <= i < |events| :: Step(states[i], events[i], states[i + 1])
  }

  lemma {:induction false} BehaviourKeeps(states: seq<State>, events: seq<Event>, n: nat)
    requires Behaviour(states, events) && n < |states|
    requires forall i | 0 <= i < n :: Prompt(states[i]) && OneReclaimer(states[i])
    ensures Inv(states[n])
  {
    if n > 0 {
      BehaviourKeeps(states, events, n - 1);
      StepKeeps(states[n - 1], events[n - 1], states[n]);
    }
  }

  /** Mutual exclusion: whatever the interleaving and whoever dies, as long as
      holders are prompt and reclaims do not overlap, at most one process has a
      live guard, and the file on disk is the one that guard created. */
  lemma MutualExclusion(states: seq<State>, events: seq<Event>, n: nat)
    requires Behaviour(states, events) && n < |states|
    requires forall i | 0 <= i < n :: Prompt(states[i]) && OneReclaimer(states[i])
    ensures Exclusive(states[n])
    ensures forall p | Holds(states[n], p) :: Owns(states[n], p)
  {
    BehaviourKeeps(states, events, n);
    var s := states[n];
    forall p | Holds(s, p)
      ensures Owns(s, p)
    {
    }
  }

  /** The step both conditions exist for: removing the file keeps every guard's
      claim exactly when no guard is live. */
  lemma RemoveSafeExactly(s: State, p: Pid, s': State)
    requires Step(s, Remove(p), s') && forall q | Holds(s, q) :: Owns(s, q)
    ensures (forall q | Holds(s', q) :: Owns(s', q)) <==> (forall q <- s.procs :: !s.procs[q].Holding?)
  {
    if q :| q in s.procs && s.procs[q].Holding? {
      assert Holds(s', q) && !Owns(s', q);
    }
  }

  // ---- One attempt, and the two ways exclusion fails ----

  /** An attempt nobody interrupts is the undisturbed attempt: it takes a free
      lock, leaves one that may be alive untouched, and takes over one left by a
      crash as soon as it is stale. */
  lemma UninterruptedAttempt(s: State, p: Pid)
    requires At(s, p, Idle)
    ensures var s1 := Next(s, TryCreate(p));
            if s.file.None? then s1.file == Attempt(s.file, s.next, s.now).0 && Owns(s1, p)
            else
              var s2 := Next(s1, CheckStale(p));
              Enabled(s1, CheckStale(p)) &&
              if !IsStale(s.file, s.now) then
                Attempt(s.file, s.next, s.now) == (s2.file, false) && s2 == s
              else
                var s3 := Next(s2, Remove(p));
                var s4 := Next(s3, Recreate(p));
                && Enabled(s2, Remove(p)) && Enabled(s3, Recreate(p))
                && Attempt(s.file, s.next, s.now) == (s4.file, true) && Owns(s4, p)
  {
  }

  /** Without the second condition exclusion is lost: from any state in which two
      processes have judged the file stale, the slower one removes the lock the
      faster one has just taken. */
  lemma OverlappingReclaimsCollide(s: State, p: Pid, q: Pid)
    requires p != q && At(s, p, SawStale) && At(s, q, SawStale)
    ensures var s1 := Next(s, Remove(p));
            var s2 := Next(s1, Recreate(p));
            var s3 := Next(s2, Remove(q));
            var s4 := Next(s3, Recreate(q));
            && Enabled(s, Remove(p)) && Enabled(s1, Recreate(p)) && Enabled(s2, Remove(q)) && Enabled(s3, Recreate(q))
            && Owns(s2, p) && Holds(s4, p) && Holds(s4, q) && !Exclusive(s4)
  {
    var s1 := Next(s, Remove(p));
    var s2 := Next(s1, Recreate(p));
    var s3 := Next(s2, Remove(q));
    var s4 := Next(s3, Recreate(q));
    assert Holds(s4, p) && Holds(s4, q);
  }

  /** Without the first: from any state in which a holder has outlived the bound,
      one honest attempt by anybody else robs it. */
  lemma SlowHolderIsRobbed(s: State, p: Pid, q: Pid)
    requires p != q && Owns(s, p) && s.now - s.procs[p].since > LOCK_STALE && At(s, q, Idle)
    ensures var s1 := Next(s, TryCreate(q));
            var s2 := Next(s1, CheckStale(q));
            var s3 := Next(s2, Remove(q));
            var s4 := Next(s3, Recreate(q));
            && Enabled(s1, CheckStale(q)) && Enabled(s2, Remove(q)) && Enabled(s3, Recreate(q))
            && Holds(s4, p) && Holds(s4, q) && !Exclusive(s4)
  {
    var s1 := Next(s, TryCreate(q));
    var s2 := Next(s1, CheckStale(q));
    var s3 := Next(s2, Remove(q));
    var s4 := Next(s3, Recreate(q));
    assert Holds(s4, p) && Holds(s4, q);
  }
}
