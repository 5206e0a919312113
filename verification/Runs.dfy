/** Runs: one custom resource and its Mailu record under any interleaving of reconciles, users, other
    controllers and other Mailu clients. */
module Runs {
  import opened Common
  import opened Json
  import opened Wire
  import opened Resources
  import opened Protocol
  import opened Steps

  /** `res` is `None` once the resource has vanished from the cluster. */
  datatype World = World(res: Option<Resource>, remote: Option<Record>)

  /** What others do to the stored resource between the moment a reconcile reads it and its patches. */
  datatype Meanwhile = Meanwhile(spec: Option<Spec>, deletes: bool, finalizers: Option<seq<string>>)

  const UNTOUCHED := Meanwhile(None, false, None)

  function Touched(res: Resource, m: Meanwhile): Resource
  {
    res.(spec := if m.spec.Some? then m.spec.value else res.spec,
         deleting := res.deleting || m.deletes,
         finalizers := if m.finalizers.Some? then m.finalizers.value else res.finalizers)
  }

  datatype Move =
    | Reconciles(w: Weather, meanwhile: Meanwhile, metaOk: bool, statusOk: bool)
      // the flags say which patch gets through; one that the API server rejects does not
    | Edits(spec: Spec)
    | Deletes
    | Refinalizes(finalizers: seq<string>)
    | Meddles(m: Meddling)

  /** The API server drops a deleting resource whose last finalizer is gone. */
  function Collected(res: Resource): Option<Resource>
  {
    if res.deleting && res.finalizers == [] then None else Some(res)
  }

  /** The first patch carries what the reconcile changed in metadata and spec, and nothing else. */
  function MetaPatched(server: Resource, before: Resource, after: Resource): Resource
  {
    server.(finalizers := if after.finalizers == before.finalizers then server.finalizers else after.finalizers,
            spec := if after.spec == before.spec || !after.spec.UserSpec? || !server.spec.UserSpec? then server.spec
                    else server.spec.(rawPassword := after.spec.rawPassword))
  }

  /** The second patch carries the conditions; a vanished resource has no status. */
  function StatusPatched(server: Resource, before: Resource, after: Resource): Resource
  {
    server.(conditions := if after.conditions == before.conditions then server.conditions else after.conditions)
  }

  function Patched(server: Resource, before: Resource, after: Resource, metaOk: bool, statusOk: bool): Option<Resource>
  {
    var stored :- Collected(if metaOk then MetaPatched(server, before, after) else server);
    Some(if statusOk then StatusPatched(stored, before, after) else stored)
  }

  function Next(defaults: Record, world: World, move: Move): World
  {
    match move
    case Meddles(m) => world.(remote := Meddled(world.remote, m))
    case Reconciles(w, meanwhile, metaOk, statusOk) =>
      if world.res.None? then world
      else
        var res := world.res.value;
        var s := Reconcile(defaults, res, world.remote, w);
        var server := Collected(Touched(res, meanwhile));
        World(if server.None? then None else Patched(server.value, res, s.res, metaOk, statusOk), s.remote)
    case Edits(spec) =>
      if world.res.None? then world else world.(res := Some(world.res.value.(spec := spec)))
    case Deletes =>
      if world.res.None? then world else world.(res := Collected(world.res.value.(deleting := true)))
    case Refinalizes(finalizers) =>
      if world.res.None? then world else world.(res := Collected(world.res.value.(finalizers := finalizers)))
  }

  function Run(defaults: Record, world: World, moves: seq<Move>): World
    decreases |moves|
  {
    if moves == [] then world else Run(defaults, Next(defaults, world, moves[0]), moves[1..])
  }

  /** What a move sends and draws. */
  function Emitted(defaults: Record, world: World, move: Move): seq<Event>
  {
    if move.Reconciles? && world.res.Some?
    then Reconcile(defaults, world.res.value, world.remote, move.w).events
    else []
  }

  function Trace(defaults: Record, world: World, moves: seq<Move>): seq<Event>
    decreases |moves|
  {
    if moves == [] then []
    else Emitted(defaults, world, moves[0]) + Trace(defaults, Next(defaults, world, moves[0]), moves[1..])
  }

  /** Runs and traces of moves in sequence. */
  lemma {:induction false} InSequence(defaults: Record, world: World, a: seq<Move>, b: seq<Move>)
    ensures Run(defaults, world, a + b) == Run(defaults, Run(defaults, world, a), b)
    ensures Trace(defaults, world, a + b) == Trace(defaults, world, a) + Trace(defaults, Run(defaults, world, a), b)
    decreases |a|
  {
    hide Next, Emitted;
    if a == [] {
      assert a + b == b;
    } else {
      assert (a + b)[1..] == a[1..] + b;
      InSequence(defaults, Next(defaults, world, a[0]), a[1..], b);
    }
  }

  /** One reconcile as a run: all its requests and draws are in the trace. */
  lemma OneReconcile(defaults: Record, res: Resource, remote: Option<Record>, move: Move)
    requires move.Reconciles?
    ensures Trace(defaults, World(Some(res), remote), [move]) == Reconcile(defaults, res, remote, move.w).events
    ensures Run(defaults, World(Some(res), remote), [move]).remote == Reconcile(defaults, res, remote, move.w).remote
  {
    hide Reconcile;
    assert [move][1..] == [];
    var next := Next(defaults, World(Some(res), remote), move);
    assert Trace(defaults, next, []) == [] && Run(defaults, next, []) == next;
  }

  /** A spec stored during the move addresses the same object. */
  predicate KeepsAddress(res: Resource, move: Move)
  {
    && (move.Edits? ==> SameAddress(move.spec, res.spec))
    && (move.Reconciles? && move.meanwhile.spec.Some? ==> SameAddress(move.meanwhile.spec.value, res.spec))
  }

  lemma TraceParts(defaults: Record, world: World, moves: seq<Move>)
    requires moves != []
    ensures var rest := Trace(defaults, Next(defaults, world, moves[0]), moves[1..]);
            && Trace(defaults, world, moves) == Emitted(defaults, world, moves[0]) + rest
            && forall e :: e in Trace(defaults, world, moves) <==> e in Emitted(defaults, world, moves[0]) || e in rest
  {
  }

  /** When a resource vanishes, for every move: it is being deleted and no finalizer is left, neither by others nor by
      the metadata patch of the reconcile. */
  lemma VanishesExactly(defaults: Record, world: World, move: Move)
    requires world.res.Some?
    ensures var res := world.res.value;
            Next(defaults, world, move).res.None? <==>
            match move
            case Reconciles(w, meanwhile, metaOk, _) =>
              var after := Reconcile(defaults, res, world.remote, w).res;
              var held := if meanwhile.finalizers.Some? then meanwhile.finalizers.value else res.finalizers;
              && (res.deleting || meanwhile.deletes)
              && (held == [] || (metaOk && after.finalizers == [] && res.finalizers != []))
            case Deletes => res.finalizers == []
            case Refinalizes(finalizers) => res.deleting && finalizers == []
            case Edits(_) => false
            case Meddles(_) => false
  {
    hide Reconcile;
  }

  lemma PatchStores(server: Resource, before: Resource, after: Resource, metaOk: bool, statusOk: bool)
    requires Patched(server, before, after, metaOk, statusOk).Some? && PasswordFilled(before.spec, after.spec)
    ensures var stored := Patched(server, before, after, metaOk, statusOk).value;
            && stored.deleting == server.deleting
            && stored.finalizers == (if metaOk && after.finalizers != before.finalizers then after.finalizers
                                     else server.finalizers)
            && stored.conditions == (if statusOk && after.conditions != before.conditions then after.conditions
                                     else server.conditions)
            && (after.spec == before.spec || !metaOk ==> stored.spec == server.spec)
            && (after.spec != before.spec && metaOk && server.spec.UserSpec? && after.spec.UserSpec? ==>
                  stored.spec == server.spec.(rawPassword := after.spec.rawPassword))
  {
  }

  lemma NextPatched(defaults: Record, world: World, move: Move)
    requires world.res.Some? && move.Reconciles? && Next(defaults, world, move).res.Some?
    ensures var res := world.res.value;
            Next(defaults, world, move).res ==
            Patched(Touched(res, move.meanwhile), res, Reconcile(defaults, res, world.remote, move.w).res, move.metaOk,
                    move.statusOk)
  {
    hide Reconcile, Patched;
  }

  /** What a reconcile leaves at the API server of a resource that others may have touched meanwhile: its finalizers and
      conditions if it changed them and their patch gets through, its filled-in password likewise, and theirs else. */
  lemma ReconcileStores(defaults: Record, world: World, move: Move)
    requires world.res.Some? && move.Reconciles? && Next(defaults, world, move).res.Some?
    ensures var res := world.res.value;
            var after := Reconcile(defaults, res, world.remote, move.w).res;
            var stored := Next(defaults, world, move).res.value;
            var theirs := Touched(res, move.meanwhile);
            && stored.deleting == theirs.deleting
            && stored.finalizers == (if move.metaOk && after.finalizers != res.finalizers then after.finalizers
                                     else theirs.finalizers)
            && stored.conditions == (if move.statusOk && after.conditions != res.conditions then after.conditions
                                     else theirs.conditions)
            && (after.spec == res.spec || !move.metaOk ==> stored.spec == theirs.spec)
            && (after.spec != res.spec && move.metaOk && theirs.spec.UserSpec? && after.spec.UserSpec? ==>
                  stored.spec == theirs.spec.(rawPassword := after.spec.rawPassword))
  {
    var res := world.res.value;
    var after := Reconcile(defaults, res, world.remote, move.w).res;
    hide Reconcile, Next, Patched, PasswordFilled, Touched;
    NextPatched(defaults, world, move);
    assert PasswordFilled(res.spec, after.spec) by { Frame(defaults, res, world.remote, move.w); }
    PatchStores(Touched(res, move.meanwhile), res, after, move.metaOk, move.statusOk);
  }
}
