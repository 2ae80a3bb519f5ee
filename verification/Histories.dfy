/** Histories of realizations and status writes: each round may find another world and other resources. */
module Histories {
  import opened Api
  import opened Statuses
  import opened Realizer

  /** One realization: the world it met, the resources and the clock. */
  datatype Realization = Realization(w: World, rs: seq<OwnerResource>, clock: nat -> Readings)

  ghost function Outcome(before: seq<ResourceStatus>, x: Realization): seq<ResourceStatus> {
    Currents(TrackedAt(before, x.w, x.rs, x.clock, |x.rs|))
  }

  /** The stored statuses after a realization: its outcome, as storage keeps it, or still what was there before. */
  ghost predicate Follows(before: seq<ResourceStatus>, x: Realization, after: seq<ResourceStatus>) {
    after == before || SameStatuses(Outcome(before, x), after)
  }

  ghost predicate IsHistory(lists: seq<seq<ResourceStatus>>, xs: seq<Realization>) {
    |lists| == |xs| + 1 && forall n :: 0 <= n < |xs| ==> Follows(lists[n], xs[n], lists[n + 1])
  }
}
