/** Deletion is final: no run writes a record again after a DELETE was sent for its resource. */
module Deletion {
  import opened Common
  import opened Json
  import opened Wire
  import opened Resources
  import opened Protocol
  import opened Steps
  import opened Runs

  predicate Finished(world: World) { world.res.Some? ==> world.res.value.deleting }

  predicate Resurrects(e: Event) { e.Sent? && (e.q.Create? || e.q.Update?) }

  predicate Removes(e: Event) { e.Sent? && e.q.Delete? }

  lemma MoveFacts(defaults: Record, world: World, move: Move)
    ensures Finished(world) ==> Finished(Next(defaults, world, move))
    ensures Finished(world) ==> forall e <- Emitted(defaults, world, move) :: !Resurrects(e)
    ensures (exists e <- Emitted(defaults, world, move) :: Removes(e)) ==> Finished(world)
  {
    if move.Reconciles? && world.res.Some? {
      var res := world.res.value;
      Frame(defaults, res, world.remote, move.w);
      Requests(defaults, res, world.remote, move.w);
      hide Reconcile, ReadFind, Seen, Patched;
      var events := Emitted(defaults, world, move);
      forall e | e in events
        ensures (res.deleting ==> !Resurrects(e)) && (Removes(e) ==> res.deleting)
      {
        var i :| 0 <= i < |events| && events[i] == e;
        if i > 0 {
          assert events[1..][i - 1] == e;
        }
      }
    }
  }

  lemma {:induction false} NothingWrittenAfterDeletion(defaults: Record, world: World, moves: seq<Move>)
    requires Finished(world)
    ensures forall e <- Trace(defaults, world, moves) :: !Resurrects(e)
    decreases |moves|
  {
    if moves != [] {
      MoveFacts(defaults, world, moves[0]);
      NothingWrittenAfterDeletion(defaults, Next(defaults, world, moves[0]), moves[1..]);
    }
  }

  lemma {:induction false} DeletingAfterDelete(defaults: Record, world: World, moves: seq<Move>)
    requires exists e <- Trace(defaults, world, moves) :: Removes(e)
    ensures Finished(Run(defaults, world, moves))
    decreases |moves|
  {
    var next := Next(defaults, world, moves[0]);
    MoveFacts(defaults, world, moves[0]);
    if exists e <- Emitted(defaults, world, moves[0]) :: Removes(e) {
      StaysFinished(defaults, next, moves[1..]);
    } else {
      DeletingAfterDelete(defaults, next, moves[1..]);
    }
  }

  lemma {:induction false} StaysFinished(defaults: Record, world: World, moves: seq<Move>)
    requires Finished(world)
    ensures Finished(Run(defaults, world, moves))
    decreases |moves|
  {
    if moves != [] {
      MoveFacts(defaults, world, moves[0]);
      StaysFinished(defaults, Next(defaults, world, moves[0]), moves[1..]);
    }
  }

  /** No resurrection: once any run has sent a DELETE for the resource, no continuation of it, whatever the
      answers, sends a POST or a PATCH. */
  lemma NoResurrection(defaults: Record, world: World, before: seq<Move>, after: seq<Move>)
    requires exists e <- Trace(defaults, world, before) :: Removes(e)
    ensures forall e <- Trace(defaults, Run(defaults, world, before), after) :: !Resurrects(e)
  {
    DeletingAfterDelete(defaults, world, before);
    NothingWrittenAfterDeletion(defaults, Run(defaults, world, before), after);
  }
}
