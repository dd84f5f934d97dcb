/** Calls that may fail, or be the last thing a process does. */
module Faults {
  import opened Wrappers

  /** Ok(()), Err(_), or the process is gone. */
  datatype Status = Done | Failed | Crashed

  /** What happens to one file operation. `tear` says how much of a failing write arrives. */
  datatype Fate = Proceed | Fault(tear: Option<nat>) | Kill(tear: Option<nat>)

  /** How a whole transaction ended. NotStarted: it was refused, or an earlier one could not be undone.
      RollbackFailed: this one could not. */
  datatype Outcome = Succeeded | NotStarted | RolledBack | RollbackFailed | Killed

  /** The fate of the next call; calls beyond the list proceed. */
  function NextFate(fates: seq<Fate>): Fate { if fates == [] then Proceed else fates[0] }

  /** How a call with this fate ends, when nothing else may make it fail or it is `possible`. */
  function StatusOf(fate: Fate, possible: bool): Status {
    match fate
    case Proceed => if possible then Done else Failed
    case Fault(_) => Failed
    case Kill(_) => Crashed
  }

  predicate Calm(fates: seq<Fate>) { forall i :: 0 <= i < |fates| ==> fates[i].Proceed? }

  /** No crash, and at most one call fails, whether or not part of its write arrives. */
  predicate AtMostOneFault(fates: seq<Fate>) {
    && (forall i :: 0 <= i < |fates| ==> !fates[i].Kill?)
    && forall i, j :: 0 <= i < j < |fates| ==> fates[i].Proceed? || fates[j].Proceed?
  }

  /** Every write arrives completely or not at all. */
  predicate Whole(fates: seq<Fate>) { forall i :: 0 <= i < |fates| ==> fates[i].Proceed? || fates[i].tear.None? }

  /** What the fates before and behind some calls say about how those ended; `possible` means that
      nothing but a fault can make them fail. */
  predicate Counted(before: seq<Fate>, after: seq<Fate>, status: Status, possible: bool) {
    && (Whole(before) ==> Whole(after))
    && (Calm(before) ==> Calm(after) && status != Crashed && (possible ==> status == Done))
    && (AtMostOneFault(before) ==>
          AtMostOneFault(after) && status != Crashed && (possible ==> status == Done || Calm(after)))
  }

  /** The calls to come, the places that the operations so far still owe to the medium, and whether any
      operation was begun too early, while something before it was owed. */
  datatype World<P(==)> = World(fates: seq<Fate>, owed: set<P>, hasty: bool)

  /** No call fails, though one may be the last, and at most `owed` can be lost to a power failure. */
  predicate Steady<P(==)>(w: World<P>, owed: set<P>) {
    && (forall i :: 0 <= i < |w.fates| ==> !w.fates[i].Fault?)
    && !w.hasty && w.owed <= owed
  }

  /** Calls that begin with all but `owing` settled, and end with all but `owed` settled. */
  predicate Settles<P(==)>(
    before: World<P>, owing: set<P>, after: World<P>, owed: set<P>, status: Status, possible: bool)
  {
    Steady(before, owing) ==>
      && Steady(after, after.owed)
      && (status == Done ==> after.owed <= owed)
      && (possible ==> status != Failed)
  }

  /** Calls that settle everything they do. */
  predicate Accounted<P(==)>(before: World<P>, after: World<P>, status: Status, possible: bool) {
    Counted(before.fates, after.fates, status, possible) && Settles(before, {}, after, {}, status, possible)
  }

  lemma AccountedThen<P>(a: World<P>, b: World<P>, c: World<P>, status: Status, first: bool, second: bool)
    requires Accounted(a, b, Done, first) && Accounted(b, c, status, second)
    ensures Accounted(a, c, status, second)
  {
    hide Whole, Calm, AtMostOneFault;
  }
}
