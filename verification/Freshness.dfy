/** The freshness baseline: what an index records about the tree, and how a
    later reader judges the graph against the tree it sees. */
module Freshness {
  import opened Wrappers
  import opened GraphStore

  datatype Snapshot = Snapshot(head: Option<string>, dirty: Option<string>)

  datatype Verdict = Fresh | Stale(reason: string) | Unknown(reason: string)

  /** A signal that could not be read is recorded as one that cannot be judged. */
  function BaselineOf(snap: Snapshot): Baseline {
    Baseline(snap.head.GetOr("no-git"), snap.dirty.GetOr(""))
  }

  function Short(head: string): string {
    if |head| <= 8 then head else head[..8]
  }

  function Judge(baseline: Option<Baseline>, current: Snapshot): Verdict {
    match baseline
    case None => Unknown("no freshness baseline")
    case Some(base) =>
      if base.head == "no-git" then Unknown("indexed outside a git repository")
      else if base.dirty == "" then Unknown("no working-tree signature was recorded")
      else if current.head.None? || current.dirty.None? then Unknown("git is unavailable")
      else if base.head != current.head.value then
        Stale("HEAD moved " + Short(base.head) + " -> " + Short(current.head.value) + " since this index")
      else if base.dirty != current.dirty.value then Stale("the working tree changed since this index")
      else Fresh
  }

  /** Every verdict, for every baseline: Stale exactly when two comparable pairs of
      signals differ, Fresh exactly when they agree, Unknown exactly when there is
      nothing to compare. */
  lemma VerdictExactly(baseline: Option<Baseline>, current: Snapshot)
    ensures var comparable := && baseline.Some? && baseline.value.head != "no-git" && baseline.value.dirty != ""
                              && current.head.Some? && current.dirty.Some?;
            var same := comparable && baseline.value.head == current.head.value
                        && baseline.value.dirty == current.dirty.value;
      && (Judge(baseline, current).Stale? <==> comparable && !same)
      && (Judge(baseline, current) == Fresh <==> same)
      && (Judge(baseline, current).Unknown? <==> !comparable)
  {
  }

  /** A stamped snapshot later judges Fresh exactly when both of its signals were
      readable, neither collides with a "cannot judge" marker, and both are read
      again unchanged: no unreadable signal can ever turn into Fresh. */
  lemma FreshExactly(snap: Snapshot, current: Snapshot)
    ensures Judge(Some(BaselineOf(snap)), current) == Fresh <==>
            && snap == current
            && snap.head.Some? && snap.dirty.Some?
            && snap.head.value != "no-git" && snap.dirty.value != ""
  {
  }
}
