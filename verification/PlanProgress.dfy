/** How far a plan has come: phases done out of phases there are. */
module PlanProgress {
  import opened Wrappers
  import opened PlanStore
  import PlanChunks

  /** The phases a plan has: sections without a phase are prose, not work. */
  function Phases(sections: seq<PlanSection>): set<nat> {
    set s | s in sections && s.phase.Some? :: s.phase.value
  }

  predicate PhaseDone(sections: seq<PlanSection>, phase: nat) {
    forall s | s in sections && s.phase == Some(phase) :: s.status == Done
  }

  /** A phase is done when every one of its parts is. */
  function DonePhases(sections: seq<PlanSection>): set<nat> {
    set p | p in Phases(sections) && PhaseDone(sections, p)
  }

  /** No section of the phase is still to do or being done. */
  predicate Finished(sections: seq<PlanSection>, phase: nat) {
    forall s | s in sections && s.phase == Some(phase) :: !s.status.Pending? && !s.status.InProgress?
  }

  lemma DoneAreFinished(sections: seq<PlanSection>)
    ensures DonePhases(sections) ==
            set s | s in sections && s.phase.Some? && Finished(sections, s.phase.value) :: s.phase.value
  {
    forall p: nat
      ensures PhaseDone(sections, p) <==> Finished(sections, p)
    {
    }
  }

  predicate Tallied(tally: seq<(nat, bool)>, phase: nat) {
    exists i | 0 <= i < |tally| :: tally[i].0 == phase
  }

  /** `tally` lists each phase seen so far once, with whether all of it is done. */
  ghost predicate Tallies(tally: seq<(nat, bool)>, sections: seq<PlanSection>) {
    && (forall i, j | 0 <= i < j < |tally| :: tally[i].0 != tally[j].0)
    && (forall p: nat :: p in Phases(sections) <==> Tallied(tally, p))
    && (forall i | 0 <= i < |tally| :: tally[i].1 <==> PhaseDone(sections, tally[i].0))
  }

  lemma PhasesSnoc(sections: seq<PlanSection>, s: PlanSection)
    ensures Phases(sections + [s]) == Phases(sections) + if s.phase.Some? then {s.phase.value} else {}
    ensures forall p: nat :: PhaseDone(sections + [s], p) <==>
      PhaseDone(sections, p) && (s.phase == Some(p) ==> s.status == Done)
  {
    var more := sections + [s];
    assert forall t :: t in more <==> t in sections || t == s;
  }

  /** The fold over the sections counts exactly the set of phases and of done ones. */
  method PhaseProgress(sections: seq<PlanSection>) returns (done: nat, total: nat)
    ensures done == |DonePhases(sections)| && total == |Phases(sections)|
    ensures total == |set s | s in sections && s.phase.Some? :: s.phase.value|
    ensures done == |set s | s in sections && s.phase.Some? && Finished(sections, s.phase.value) :: s.phase.value|
  {
    DoneAreFinished(sections);
    var tally: seq<(nat, bool)> := [];
    for n := 0 to |sections|
      invariant Tallies(tally, sections[..n])
    {
      var s := sections[n];
      PhasesSnoc(sections[..n], s);
      assert sections[..n + 1] == sections[..n] + [s];
      if s.phase.Some? {
        var phase, isDone := s.phase.value, s.status == Done;
        var i := 0;
        while i < |tally| && tally[i].0 != phase
          invariant i <= |tally| && forall j | 0 <= j < i :: tally[j].0 != phase
        {
          i := i + 1;
        }
        if i < |tally| {
          TallyOld(tally, sections[..n], s, i);
          tally := tally[i := (phase, tally[i].1 && isDone)];
        } else {
          TallyNew(tally, sections[..n], s);
          tally := tally + [(phase, isDone)];
        }
      }
    }
    assert sections[..|sections|] == sections;
    TallyTotal(tally, Phases(sections));
    done := 0;
    for i := 0 to |tally|
      invariant done == |DoneUpTo(tally, i)|
    {
      DoneUpToStep(tally, i);
      if tally[i].1 {
        done := done + 1;
      }
    }
    AllDone(tally, sections);
    total := |tally|;
  }

  lemma TallyOld(tally: seq<(nat, bool)>, sections: seq<PlanSection>, s: PlanSection, i: nat)
    requires Tallies(tally, sections) && i < |tally| && s.phase == Some(tally[i].0)
    ensures Tallies(tally[i := (tally[i].0, tally[i].1 && s.status == Done)], sections + [s])
  {
    PhasesSnoc(sections, s);
    var next := tally[i := (tally[i].0, tally[i].1 && s.status == Done)];
    assert forall j | 0 <= j < |tally| :: next[j].0 == tally[j].0;
  }

  lemma TallyNew(tally: seq<(nat, bool)>, sections: seq<PlanSection>, s: PlanSection)
    requires Tallies(tally, sections) && s.phase.Some?
    requires forall j | 0 <= j < |tally| :: tally[j].0 != s.phase.value
    ensures Tallies(tally + [(s.phase.value, s.status == Done)], sections + [s])
  {
    PhasesSnoc(sections, s);
    var next := tally + [(s.phase.value, s.status == Done)];
    assert s.phase.value !in Phases(sections);
    assert next[|tally|].0 == s.phase.value;
    assert forall j | 0 <= j < |tally| :: next[j] == tally[j];
  }

  /** A list without repetitions is as long as the set of what it lists. */
  lemma {:induction false} TallyTotal(tally: seq<(nat, bool)>, phases: set<nat>)
    requires forall i, j | 0 <= i < j < |tally| :: tally[i].0 != tally[j].0
    requires forall p: nat :: p in phases <==> Tallied(tally, p)
    ensures |tally| == |phases|
    decreases |tally|
  {
    if tally == [] {
      assert phases == {};
    } else {
      var last := |tally| - 1;
      var front, p := tally[..last], tally[last].0;
      assert Tallied(tally, p);
      forall q: nat
        ensures q in phases - {p} <==> Tallied(front, q)
      {
        if Tallied(tally, q) && q != p {
          var i :| 0 <= i < |tally| && tally[i].0 == q;
          assert front[i].0 == q;
        }
        assert forall i | 0 <= i < |front| :: front[i] == tally[i];
      }
      TallyTotal(front, phases - {p});
    }
  }

  function DoneUpTo(tally: seq<(nat, bool)>, n: nat): set<nat>
    requires n <= |tally|
  {
    set i | 0 <= i < n && tally[i].1 :: tally[i].0
  }

  lemma DoneUpToStep(tally: seq<(nat, bool)>, n: nat)
    requires n < |tally| && forall i, j | 0 <= i < j < |tally| :: tally[i].0 != tally[j].0
    ensures |DoneUpTo(tally, n + 1)| == |DoneUpTo(tally, n)| + if tally[n].1 then 1 else 0
  {
    var before, after := DoneUpTo(tally, n), DoneUpTo(tally, n + 1);
    if tally[n].1 {
      assert after == before + {tally[n].0};
      assert tally[n].0 !in before;
    } else {
      assert after == before;
    }
  }

  lemma AllDone(tally: seq<(nat, bool)>, sections: seq<PlanSection>)
    requires Tallies(tally, sections)
    ensures DoneUpTo(tally, |tally|) == DonePhases(sections)
  {
  }

  // ---- What does not change the count ----

  predicate Work(sections: seq<PlanSection>, phase: nat, status: PhaseStatus) {
    exists s | s in sections :: s.phase == Some(phase) && s.status == status
  }

  /** Two lists with the same phases in the same states. */
  ghost predicate SameWork(a: seq<PlanSection>, b: seq<PlanSection>) {
    forall phase: nat, status :: Work(a, phase, status) <==> Work(b, phase, status)
  }

  lemma PhaseWork(a: seq<PlanSection>, p: nat)
    ensures p in Phases(a) <==> exists status :: Work(a, p, status)
    ensures PhaseDone(a, p) <==> !Work(a, p, Pending) && !Work(a, p, InProgress)
  {
    if p in Phases(a) {
      var s :| s in a && s.phase == Some(p);
      assert Work(a, p, s.status);
    }
    if !Work(a, p, Pending) && !Work(a, p, InProgress) {
      forall s | s in a && s.phase == Some(p)
        ensures s.status == Done
      {
        assert Work(a, p, s.status);
      }
    }
  }

  /** The count depends on nothing else: not on order, not on repetition. */
  lemma SameWorkSameProgress(a: seq<PlanSection>, b: seq<PlanSection>)
    requires SameWork(a, b)
    ensures Phases(a) == Phases(b) && DonePhases(a) == DonePhases(b)
  {
    forall p: nat
      ensures p in Phases(a) <==> p in Phases(b)
      ensures PhaseDone(a, p) <==> PhaseDone(b, p)
    {
      PhaseWork(a, p);
      PhaseWork(b, p);
    }
  }

  lemma ReorderKeepsProgress(a: seq<PlanSection>, b: seq<PlanSection>)
    requires multiset(a) == multiset(b)
    ensures Phases(a) == Phases(b) && DonePhases(a) == DonePhases(b)
  {
    assert forall s :: s in a <==> s in multiset(a);
    assert forall s :: s in b <==> s in multiset(b);
  }

  /** A section in several parts of the same phase and status counts as one. */
  lemma SplittingKeepsProgress(x: seq<PlanSection>, s: PlanSection, y: seq<PlanSection>, parts: seq<PlanSection>)
    requires parts != [] && forall t | t in parts :: t.phase == s.phase && t.status == s.status
    ensures Phases(x + [s] + y) == Phases(x + parts + y) && DonePhases(x + [s] + y) == DonePhases(x + parts + y)
  {
    var a, b := x + [s] + y, x + parts + y;
    assert forall t :: t in a <==> t in x || t == s || t in y;
    assert forall t :: t in b <==> t in x || t in parts || t in y;
    assert parts[0] in b;
    assert s in a;
    forall phase: nat, status
      ensures Work(a, phase, status) <==> Work(b, phase, status)
    {
    }
    SameWorkSameProgress(a, b);
  }

  // ---- A plan written and read back ----

  /** The same measure on what was handed in. */
  predicate InputWork(sections: seq<SectionInput>, from: nat, phase: nat, status: PhaseStatus) {
    exists i | from <= i < |sections| :: sections[i].phase == Some(phase) && sections[i].status == status
  }

  /** However small the content limit, and so however many parts, the sections read
      back hold exactly the work that was written. */
  lemma {:induction false} ReadWork(
    c: Chars, slug: string, sections: seq<SectionInput>, index: nat, limit: nat, phase: nat, status: PhaseStatus)
    ensures Work(Expected(c, slug, sections, index, limit), phase, status) <==>
            InputWork(sections, index, phase, status)
    decreases |sections| - index
  {
    if index < |sections| {
      var section, parts := sections[index], PartsOf(c, sections[index], limit);
      var rest := Expected(c, slug, sections, index + 1, limit);
      var x := ExpectedParts(c, slug, index, section, parts);
      ReadWork(c, slug, sections, index + 1, limit, phase, status);
      PlanChunks.SplitNonEmpty(c.white, section.content, limit);
      WorkConcat(x, rest, phase, status);
      AlikeWork(x, section, phase, status);
      InputWorkStep(sections, index, phase, status);
    }
  }

  lemma AlikeWork(x: seq<PlanSection>, section: SectionInput, phase: nat, status: PhaseStatus)
    requires x != []
    requires forall k | 0 <= k < |x| ::
      x[k].phase == section.phase && (section.phase.Some? ==> x[k].status == section.status)
    ensures Work(x, phase, status) <==> section.phase == Some(phase) && section.status == status
  {
    assert x[0] in x;
  }

  lemma InputWorkStep(sections: seq<SectionInput>, index: nat, phase: nat, status: PhaseStatus)
    requires index < |sections|
    ensures InputWork(sections, index, phase, status) <==>
      (sections[index].phase == Some(phase) && sections[index].status == status) ||
      InputWork(sections, index + 1, phase, status)
  {
  }

  lemma WorkConcat(x: seq<PlanSection>, y: seq<PlanSection>, phase: nat, status: PhaseStatus)
    ensures Work(x + y, phase, status) <==> Work(x, phase, status) || Work(y, phase, status)
  {
    assert forall s :: s in x + y <==> s in x || s in y;
  }

  /** Progress does not depend on how sections were cut into parts. */
  lemma LimitKeepsProgress(c: Chars, slug: string, sections: seq<SectionInput>, limit: nat, other: nat)
    ensures var a, b := Expected(c, slug, sections, 0, limit), Expected(c, slug, sections, 0, other);
      Phases(a) == Phases(b) && DonePhases(a) == DonePhases(b)
  {
    var a, b := Expected(c, slug, sections, 0, limit), Expected(c, slug, sections, 0, other);
    forall phase: nat, status
      ensures Work(a, phase, status) <==> Work(b, phase, status)
    {
      ReadWork(c, slug, sections, 0, limit, phase, status);
      ReadWork(c, slug, sections, 0, other, phase, status);
    }
    SameWorkSameProgress(a, b);
  }
}
