/** The self-triggered loop: no predicate filters events, so every change of the stored resource queues it again. */
module WorkQueue {
  import opened Common
  import opened Wire
  import opened Resources
  import opened Protocol
  import opened Steps
  import opened Runs

  /** One reconcile with nobody else touching the resource; the flags say which patch gets through. */
  datatype Round = Round(w: Weather, metaOk: bool, statusOk: bool)

  datatype Loop = Loop(world: World, queued: bool)

  /** A stored resource is queued again by a requeue, by an error, or by patches that change it. A lost patch is
      only logged, and queues nothing. */
  function Turn(defaults: Record, l: Loop, r: Round): Loop
  {
    if !l.queued || l.world.res.None? then l.(queued := false)
    else
      var world := Next(defaults, l.world, Reconciles(r.w, UNTOUCHED, r.metaOk, r.statusOk));
      var outcome := Reconcile(defaults, l.world.res.value, l.world.remote, r.w).outcome;
      Loop(world, world.res.Some? && (outcome != Done || world.res != l.world.res))
  }

  function Turns(defaults: Record, l: Loop, rounds: seq<Round>): Loop
    decreases |rounds|
  {
    if rounds == [] then l else Turns(defaults, Turn(defaults, l, rounds[0]), rounds[1..])
  }

  /** The stored resource after a round that was not collected: the reconcile's own changes, as far as their
      patch got through. */
  function Saved(before: Resource, after: Resource, r: Round): Resource
  {
    before.(finalizers := if r.metaOk then after.finalizers else before.finalizers,
            spec := if r.metaOk then after.spec else before.spec,
            conditions := if r.statusOk then after.conditions else before.conditions)
  }

  /** What a round stores, and when it lets the resource sleep. */
  lemma TurnSaves(defaults: Record, l: Loop, r: Round)
    requires l.queued && l.world.res.Some?
    ensures var res := l.world.res.value;
            var s := Reconcile(defaults, res, l.world.remote, r.w);
            var saved := Saved(res, s.res, r);
            var gone := res.deleting && (if r.metaOk then s.res.finalizers else res.finalizers) == [];
            Turn(defaults, l, r) ==
            Loop(World(if (res.deleting && res.finalizers == []) || gone then None else Some(saved), s.remote),
                 !(res.deleting && res.finalizers == []) && !gone && (s.outcome != Done || saved != res))
  {
    Frame(defaults, l.world.res.value, l.world.remote, r.w);
    hide Reconcile;
  }
}
