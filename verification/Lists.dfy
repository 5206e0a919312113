/** Finalizers and conditions that belong to others survive every run. */
module Lists {
  import opened Common
  import opened Wire
  import opened Resources
  import opened Protocol
  import opened Steps
  import opened Runs

  function OursCount(res: Resource): nat { multiset(res.finalizers)[FINALIZER] }

  function ReadyCount(res: Resource): int
  {
    |res.conditions| - |OtherConditions(res.conditions, ReadyType(res.spec.Kind()))|
  }

  /** `after` may follow `before` in a run without outside edits of the two lists. */
  predicate ListsKept(before: Resource, after: Resource)
  {
    && RemoveFinalizer(after.finalizers) == RemoveFinalizer(before.finalizers)
    && (OursCount(before) <= 1 ==> OursCount(after) <= 1)
    && (before.deleting ==> after.deleting && (!before.Guarded() ==> !after.Guarded()))
    && after.spec.Kind() == before.spec.Kind()
    && OtherConditions(after.conditions, ReadyType(before.spec.Kind())) ==
       OtherConditions(before.conditions, ReadyType(before.spec.Kind()))
    && (ReadyCount(before) <= 1 ==> ReadyCount(after) <= 1)
  }

  lemma {:induction false} OthersCount(conditions: seq<Condition>, ctype: string)
    ensures |OtherConditions(conditions, ctype)| <= |conditions|
    ensures |OtherConditions(conditions, ctype)| == |conditions| <==> FindCondition(conditions, ctype).None?
  {
    if conditions != [] {
      OthersCount(conditions[1..], ctype);
    }
  }

  lemma FinalizersAfterStep(finalizers: seq<string>)
    ensures RemoveFinalizer(AddFinalizer(finalizers)) == RemoveFinalizer(finalizers)
    ensures RemoveFinalizer(RemoveFinalizer(finalizers)) == RemoveFinalizer(finalizers)
    ensures FINALIZER !in RemoveFinalizer(finalizers)
    ensures multiset(AddFinalizer(finalizers))[FINALIZER] <=
            if multiset(finalizers)[FINALIZER] <= 1 then 1 else multiset(finalizers)[FINALIZER]
  {
    RemoveAppended(finalizers, FINALIZER);
    RemoveRemoves(finalizers);
  }

  lemma ConditionsAfterStep(before: Resource, after: Resource)
    requires Kept(before, after)
    ensures var t := ReadyType(before.spec.Kind());
            && OtherConditions(after.conditions, t) == OtherConditions(before.conditions, t)
            && (ReadyCount(before) <= 1 ==> |after.conditions| - |OtherConditions(after.conditions, t)| <= 1)
  {
    var t := ReadyType(before.spec.Kind());
    if after.conditions != before.conditions {
      var c :| ConditionSet(before, after, c);
      SetKeepsOthers(before.conditions, c, t);
      OthersCount(before.conditions, t);
    }
  }

  lemma StepKeepsLists(defaults: Record, res: Resource, remote: Option<Record>, w: Weather)
    ensures ListsKept(res, Reconcile(defaults, res, remote, w).res)
  {
    var after := Reconcile(defaults, res, remote, w).res;
    Frame(defaults, res, remote, w);
    FinalizersAfterStep(res.finalizers);
    ConditionsAfterStep(res, after);
    hide Reconcile;
  }

  /** No outside edit of the lists, and the resource keeps its kind. */
  predicate LeavesLists(world: World, move: Move)
  {
    && !move.Refinalizes?
    && (world.res.Some? ==> var kind := world.res.value.spec.Kind();
          && (move.Edits? ==> move.spec.Kind() == kind)
          && (move.Reconciles? ==>
                && move.meanwhile.finalizers.None?
                && (move.meanwhile.spec.Some? ==> move.meanwhile.spec.value.Kind() == kind)))
  }

  predicate LeavesListsRun(defaults: Record, world: World, moves: seq<Move>)
    decreases |moves|
  {
    moves != [] ==>
      LeavesLists(world, moves[0]) && LeavesListsRun(defaults, Next(defaults, world, moves[0]), moves[1..])
  }

  lemma PatchKeepsLists(server: Resource, before: Resource, after: Resource, metaOk: bool, statusOk: bool)
    requires ListsKept(before, after) && before.deleting == after.deleting
    requires server == before.(spec := server.spec, deleting := server.deleting)
    requires server.spec.Kind() == before.spec.Kind() && (before.deleting ==> server.deleting)
    ensures var r := Patched(server, before, after, metaOk, statusOk); r.Some? ==> ListsKept(before, r.value)
  {
    hide OtherConditions, FindCondition;
  }

  lemma MoveKeepsLists(defaults: Record, world: World, move: Move)
    requires world.res.Some? && LeavesLists(world, move)
    ensures var next := Next(defaults, world, move).res; next.Some? ==> ListsKept(world.res.value, next.value)
  {
    hide Reconcile, Patched;
    if move.Reconciles? {
      var res := world.res.value;
      StepKeepsLists(defaults, res, world.remote, move.w);
      Frame(defaults, res, world.remote, move.w);
      PatchKeepsLists(Touched(res, move.meanwhile), res, Reconcile(defaults, res, world.remote, move.w).res,
                      move.metaOk, move.statusOk);
    }
  }

  /** Over every run without outside edits of the lists: foreign finalizers keep order and number, ours never
      occurs twice and is never put back on a deleting resource, foreign conditions stay as they are and
      there is at most one of our type. */
  lemma {:induction false} ListsKeptThroughout(defaults: Record, world: World, moves: seq<Move>)
    requires world.res.Some? && LeavesListsRun(defaults, world, moves)
    ensures var end := Run(defaults, world, moves).res; end.Some? ==> ListsKept(world.res.value, end.value)
    decreases |moves|
  {
    if moves != [] {
      var next := Next(defaults, world, moves[0]);
      MoveKeepsLists(defaults, world, moves[0]);
      if next.res.Some? {
        ListsKeptThroughout(defaults, next, moves[1..]);
      } else {
        StaysGone(defaults, next, moves[1..]);
      }
    }
  }

  lemma {:induction false} StaysGone(defaults: Record, world: World, moves: seq<Move>)
    requires world.res.None?
    ensures Run(defaults, world, moves).res.None?
    decreases |moves|
  {
    if moves != [] {
      StaysGone(defaults, Next(defaults, world, moves[0]), moves[1..]);
    }
  }
}
