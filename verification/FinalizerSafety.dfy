/** A resource that vanished leaves no record behind: the finalizer over all orderly runs. */
module FinalizerSafety {
  import opened Common
  import opened Json
  import opened Wire
  import opened Resources
  import opened Protocol
  import opened Steps
  import opened Runs

  /** The conditions of the safety theorem, move by move: the addressed name stays, others leave our finalizer
      alone, and once the resource is deleting the answers are truthful, nobody recreates the record and no
      look-up fails for good while the record is there. Any patch may be lost, and while the resource is live any
      answer may come. */
  predicate Orderly(defaults: Record, world: World, move: Move)
  {
    match move
    case Meddles(m) =>
      (world.res.Some? && !world.res.value.deleting) || NoRecreation(world.remote, m)
    case Refinalizes(finalizers) =>
      world.res.Some? ==> (FINALIZER in finalizers <==> world.res.value.Guarded())
    case Deletes => true
    case Edits(_) => world.res.Some? ==> KeepsAddress(world.res.value, move)
    case Reconciles(w, meanwhile, _, _) =>
      world.res.Some? ==>
        var res := world.res.value;
        var (now, found) := Seen(defaults, res, world.remote, w);
        && KeepsAddress(res, move)
        && (meanwhile.finalizers.Some? ==> (FINALIZER in meanwhile.finalizers.value <==> res.Guarded()))
        && (res.deleting ==>
              && Honest(res.spec.Kind(), w) && !(LookupFailedForGood(found) && now.Some?)
              && NoRecreation(world.remote, w.find.before) && NoRecreation(now, w.write.before))
  }

  predicate OrderlyRun(defaults: Record, world: World, moves: seq<Move>)
    decreases |moves|
  {
    moves != [] ==>
      Orderly(defaults, world, moves[0]) && OrderlyRun(defaults, Next(defaults, world, moves[0]), moves[1..])
  }

  /** The invariant: an existing record is held by a resource that carries our finalizer. */
  predicate Held(world: World)
  {
    if world.res.None? then world.remote.None?
    else world.res.value.Guarded() || (world.res.value.deleting && world.remote.None?)
  }

  /** A patch sets the finalizers of the reconcile if it gets through and they changed, else leaves the server's. */
  lemma FinalizerPatch(server: Resource, before: Resource, after: Resource, metaOk: bool, statusOk: bool)
    ensures var r := Patched(server, before, after, metaOk, statusOk);
            var finalizers := if metaOk && after.finalizers != before.finalizers then after.finalizers
                              else server.finalizers;
            if server.deleting && finalizers == [] then r.None?
            else r.Some? && r.value.finalizers == finalizers && r.value.deleting == server.deleting
  {
  }

  /** A deleting resource without a record has lost our finalizer, or keeps it. */
  lemma DeletingStep(defaults: Record, world: World, move: Move)
    requires move.Reconciles? && world.res.Some? && Orderly(defaults, world, move) && world.res.value.deleting
    requires Held(world)
    ensures var res := world.res.value;
            var s := Reconcile(defaults, res, world.remote, move.w);
            && (s.res.finalizers == res.finalizers || FINALIZER !in s.res.finalizers)
            && (FINALIZER in s.res.finalizers || s.remote.None?)
  {
    var res := world.res.value;
    hide Reconcile, Seen, Honest, LookupFailedForGood;
    Frame(defaults, res, world.remote, move.w);
    RemoveRemoves(res.finalizers);
    if res.Guarded() {
      Orphaned(defaults, res, world.remote, move.w);
    } else {
      StaysAbsent(defaults, res, world.remote, move.w);
    }
  }

  lemma HeldAfterReconcile(defaults: Record, world: World, move: Move)
    requires move.Reconciles? && world.res.Some? && Orderly(defaults, world, move)
    requires Held(world)
    ensures Held(Next(defaults, world, move))
  {
    var res := world.res.value;
    hide Reconcile, Patched, Seen, Honest;
    var s := Reconcile(defaults, res, world.remote, move.w);
    Frame(defaults, res, world.remote, move.w);
    FinalizerPatch(Touched(res, move.meanwhile), res, s.res, move.metaOk, move.statusOk);
    if res.deleting {
      DeletingStep(defaults, world, move);
      RemoveRemoves(res.finalizers);
    }
  }

  /** Exactly when the first reconcile of a live resource, whatever its answers, establishes the invariant. If the
      resource is gone before the patches, there must be no record. Else its metadata patch gets through, or others
      have added our finalizer, or the resource is being deleted and there is no record. */
  lemma HeldAfterFirst(defaults: Record, world: World, move: Move)
    requires move.Reconciles? && world.res.Some? && !world.res.value.deleting && !world.res.value.Guarded()
    ensures var s := Reconcile(defaults, world.res.value, world.remote, move.w);
            var server := Touched(world.res.value, move.meanwhile);
            Held(Next(defaults, world, move)) <==>
            if server.deleting && server.finalizers == [] then s.remote.None?
            else move.metaOk || server.Guarded() || (server.deleting && s.remote.None?)
  {
    var res := world.res.value;
    var s := Reconcile(defaults, res, world.remote, move.w);
    Frame(defaults, res, world.remote, move.w);
    FinalizerPatch(Touched(res, move.meanwhile), res, s.res, move.metaOk, move.statusOk);
    hide Reconcile, Patched;
  }

  /** A deleting resource never brings a missing record back. */
  lemma StaysAbsent(defaults: Record, res: Resource, remote: Option<Record>, w: Weather)
    requires res.deleting && remote.None?
    requires NoRecreation(remote, w.find.before)
    requires var now := Seen(defaults, res, remote, w).0; NoRecreation(now, w.write.before)
    ensures Reconcile(defaults, res, remote, w).remote.None?
  {
    hide ReadFind, ReadDelete, SetCondition;
  }

  lemma HeldAfter(defaults: Record, world: World, move: Move)
    requires Held(world) && Orderly(defaults, world, move)
    ensures Held(Next(defaults, world, move))
  {
    if move.Reconciles? && world.res.Some? {
      HeldAfterReconcile(defaults, world, move);
    }
  }

  lemma {:induction false} HeldThroughout(defaults: Record, world: World, moves: seq<Move>)
    requires Held(world) && OrderlyRun(defaults, world, moves)
    ensures Held(Run(defaults, world, moves))
    decreases |moves|
  {
    if moves != [] {
      HeldAfter(defaults, world, moves[0]);
      HeldThroughout(defaults, Next(defaults, world, moves[0]), moves[1..]);
    }
  }

  /** Finalizer safety: take any resource, reconcile it once while it is live and let that reconcile's metadata
      patch get through; let any orderly run follow. If the resource has vanished, its record has vanished too. */
  lemma NoOrphan(defaults: Record, world: World, first: Move, rest: seq<Move>)
    requires world.res.Some? && !world.res.value.deleting
    requires first.Reconciles? && first.metaOk && !first.meanwhile.deletes
    requires OrderlyRun(defaults, world, [first] + rest)
    ensures var end := Run(defaults, world, [first] + rest);
            end.res.None? ==> end.remote.None?
  {
    assert ([first] + rest)[1..] == rest;
    if world.res.value.Guarded() {
      HeldAfterReconcile(defaults, world, first);
    } else {
      HeldAfterFirst(defaults, world, first);
    }
    HeldThroughout(defaults, Next(defaults, world, first), rest);
  }

  // ---------- each condition is needed ----------

  const CALM := Link(Nothing, Clear)

  function Answered(answer: Response): Link { Link(Nothing, Disturbed(false, answer)) }

  function NoPassword(): Supply { Supply(map[], Failure("")) }

  /** A look-up whose answer is read as missing or as failed for good although the record is there: one such
      answer while the resource is deleting, in an otherwise orderly run, and the record outlives its resource. */
  lemma OrphanedByLookup(defaults: Record, res: Resource, record: Record, answer: Response)
    requires !res.deleting && res.finalizers == [FINALIZER]
    requires var found := ReadFind(res.spec.Kind(), answer); found.Missing? || LookupFailedForGood(found)
    ensures var world := World(Some(res), Some(record));
            var last := Reconciles(Weather(Answered(answer), CALM, NoPassword()), UNTOUCHED, true, true);
            var end := Run(defaults, world, [Deletes, last]);
            end.res.None? && end.remote == Some(record)
  {
    hide ReadFind;
    var world := World(Some(res), Some(record));
    var last := Reconciles(Weather(Answered(answer), CALM, NoPassword()), UNTOUCHED, true, true);
    var deleting := Next(defaults, world, Deletes);
    assert [Deletes, last][1..] == [last] && [last][1..] == [];
    var s := Reconcile(defaults, deleting.res.value, deleting.remote, last.w);
    assert [FINALIZER][1..] == [] && RemoveFinalizer([FINALIZER]) == [];
    assert s.res.finalizers == [] && s.remote == Some(record);
    assert Run(defaults, world, [Deletes, last]) == Run(defaults, Next(defaults, deleting, last), []);
  }

  /** Two such answers: a 401, which is not retried, and a 200 with the body `null`. */
  lemma OrphaningAnswers(defaults: Record, res: Resource, record: Record)
    requires !res.deleting && res.finalizers == [FINALIZER]
    ensures forall answer <- [Response(401, Garbage("")), Response(200, JsonNull)] ::
              var world := World(Some(res), Some(record));
              var last := Reconciles(Weather(Answered(answer), CALM, NoPassword()), UNTOUCHED, true, true);
              var end := Run(defaults, world, [Deletes, last]);
              end.res.None? && end.remote == Some(record)
  {
    assert LookupFailedForGood(ReadFind(res.spec.Kind(), Response(401, Garbage(""))));
    assert ReadFind(res.spec.Kind(), Response(200, JsonNull)) == Missing;
    OrphanedByLookup(defaults, res, record, Response(401, Garbage("")));
    OrphanedByLookup(defaults, res, record, Response(200, JsonNull));
    hide Run, Next, ReadFind;
  }

  /** The first reconcile of a new resource that can be created, undisturbed but for its patches. */
  predicate CreatesAnew(res: Resource, w: Weather)
  {
    && !res.deleting && res.finalizers == [] && w.find == CALM && w.write == CALM
    && WithPassword(res.spec, w.supply).Success? && res.spec.DatesParse()
  }

  lemma CreatedAnew(defaults: Record, res: Resource, w: Weather)
    requires CreatesAnew(res, w)
    ensures Reconcile(defaults, res, None, w).remote.Some?
  {
    hide SetCondition;
    WithPasswordFills(res.spec, w.supply);
    DatesIgnorePassword(res.spec, WithPassword(res.spec, w.supply).value);
    hide WithPassword;
  }

  /** The first metadata patch must get through: the record is created before the finalizer is stored, so with
      the patch lost a later deletion takes the resource alone. */
  lemma OrphanedByLostPatch(defaults: Record, res: Resource, w: Weather)
    requires CreatesAnew(res, w)
    ensures var world := World(Some(res), None);
            var first := Reconciles(w, UNTOUCHED, false, true);
            var end := Run(defaults, world, [first, Deletes]);
            end.res.None? && end.remote.Some?
  {
    var world := World(Some(res), None);
    var first := Reconciles(w, UNTOUCHED, false, true);
    assert [first, Deletes][1..] == [Deletes] && [Deletes][1..] == [];
    CreatedAnew(defaults, res, w);
    hide Reconcile, CreatesAnew;
    var created := Next(defaults, world, first);
    assert created.res.Some? && created.res.value.finalizers == [] && created.remote.Some?;
    assert Run(defaults, world, [first, Deletes]) == Run(defaults, Next(defaults, created, Deletes), []);
  }

  /** And the resource must not be deleted while that first reconcile runs. */
  lemma OrphanedByEarlyDeletion(defaults: Record, res: Resource, w: Weather)
    requires CreatesAnew(res, w)
    ensures var end := Next(defaults, World(Some(res), None), Reconciles(w, Meanwhile(None, true, None), true, true));
            end.res.None? && end.remote.Some?
  {
    CreatedAnew(defaults, res, w);
    hide Reconcile;
  }
}
