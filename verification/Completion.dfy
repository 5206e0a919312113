/** Deletion gets done: a deleting resource is reconciled until its record is gone and our finalizer with it, unless
    the patch that takes the finalizer away is lost. */
module Completion {
  import opened Common
  import opened Json
  import opened Wire
  import opened Resources
  import opened Protocol
  import opened Steps
  import opened Runs
  import opened WorkQueue
  import opened Convergence
  import opened FinalizerSafety

  predicate Undisturbed(w: Weather) { w.find == Link(Nothing, Clear) && w.write == Link(Nothing, Clear) }

  /** Queued with the finalizer on. */
  predicate Waiting(l: Loop)
  {
    && l.queued && l.world.res.Some?
    && var res := l.world.res.value;
       res.deleting && res.Guarded() && Readable(res.spec.Kind(), l.world.remote)
  }

  /** The record is gone, and so is our finalizer, or the resource with it. */
  predicate Over(l: Loop)
  {
    l.world.remote.None? && (l.world.res.Some? ==> l.world.res.value.deleting && !l.world.res.value.Guarded())
  }

  /** The record is gone, but the resource sleeps with our finalizer on. */
  predicate Stuck(l: Loop)
  {
    && !l.queued && l.world.remote.None? && l.world.res.Some?
    && l.world.res.value.deleting && l.world.res.value.Guarded()
  }

  /** The work is done in this round: the record is missing, or found and its deletion accepted. */
  predicate Finishes(defaults: Record, l: Loop, w: Weather)
    requires l.world.res.Some?
  {
    var res := l.world.res.value;
    var (now, found) := Seen(defaults, res, l.world.remote, w);
    || found.Missing?
    || (found.FoundRecord? && ReadDelete(Served(defaults, now, Delete(res.spec.Key()), w.write).1) == Accepted)
  }

  lemma FinishedStep(defaults: Record, l: Loop, w: Weather)
    requires Waiting(l) && Endurable(l.world.res.value.spec.Kind(), w)
    ensures var res := l.world.res.value;
            var s := Reconcile(defaults, res, l.world.remote, w);
            && (s.outcome == Done <==> Finishes(defaults, l, w))
            && s.res.finalizers == (if s.outcome == Done then RemoveFinalizer(res.finalizers) else res.finalizers)
            && (s.outcome == Done ==> s.remote.None? && s.res.conditions == res.conditions && s.res.spec == res.spec)
            && Kept(res, s.res) && Readable(res.spec.Kind(), s.remote)
            && (Undisturbed(w) ==> s.outcome == Done)
  {
    var res := l.world.res.value;
    var (now, found) := Seen(defaults, res, l.world.remote, w);
    hide SetCondition, Decode;
    Frame(defaults, res, l.world.remote, w);
    DeletionDone(defaults, res, now, found, w);
    DeleteReadable(defaults, res, now, found, w);
    DeleteLeaves(defaults, res, now, found, w);
    if Undisturbed(w) {
      UndisturbedFinishes(defaults, l, w);
    }
    hide Act, Served, ReadDelete, ReadFind;
  }

  lemma UndisturbedFinishes(defaults: Record, l: Loop, w: Weather)
    requires Waiting(l) && Undisturbed(w)
    ensures Finishes(defaults, l, w)
  {
    hide Decode;
  }

  lemma DeleteReadable(defaults: Record, res: Resource, now: Option<Record>, found: Found, w: Weather)
    requires res.deleting && Readable(res.spec.Kind(), now)
    requires w.write.before.Overwrite? ==> Readable(res.spec.Kind(), w.write.before.remote)
    ensures Readable(res.spec.Kind(), Act(defaults, res, now, found, w).remote)
  {
    hide SetCondition, Decode, ReadDelete;
  }

  /** What a deletion that ends well leaves behind. */
  lemma DeleteLeaves(defaults: Record, res: Resource, now: Option<Record>, found: Found, w: Weather)
    requires res.deleting && Endurable(res.spec.Kind(), w) && !LookupFailedForGood(found)
             && (found.Missing? ==> now.None?)
    ensures var s := Act(defaults, res, now, found, w);
            s.outcome == Done ==> s.remote.None? && s.res == res
  {
    hide SetCondition, Decode, ReadFind, ReadCreate, ReadUpdate;
  }

  /** Exactly how a round ends: the wait goes on unless the work is done; then it depends on the metadata patch
      alone whether the deletion is over or the resource sleeps with its finalizer. Undisturbed, the work is done. */
  lemma WaitingTurn(defaults: Record, l: Loop, r: Round)
    requires Waiting(l) && Endurable(l.world.res.value.spec.Kind(), r.w)
    ensures var t := Turn(defaults, l, r);
            && (t.world.res.Some? ==> t.world.res.value.spec.Kind() == l.world.res.value.spec.Kind())
            && (Waiting(t) <==> !Finishes(defaults, l, r.w))
            && (Over(t) <==> Finishes(defaults, l, r.w) && r.metaOk)
            && (Stuck(t) <==> Finishes(defaults, l, r.w) && !r.metaOk)
            && (Undisturbed(r.w) ==> Finishes(defaults, l, r.w))
  {
    var res := l.world.res.value;
    FinishedStep(defaults, l, r.w);
    TurnSaves(defaults, l, r);
    RemoveRemoves(res.finalizers);
    hide Reconcile, Turn, Endurable, Undisturbed, Finishes, Readable;
  }

  /** Without a record and without our finalizer a deleting resource writes nothing. */
  lemma AbsentStep(defaults: Record, res: Resource, w: Weather)
    requires res.deleting && Honest(res.spec.Kind(), w) && Meddled(None, w.find.before).None?
    ensures Reconcile(defaults, res, None, w).remote.None?
  {
    hide ReadDelete, ReadCreate, ReadUpdate, SetCondition;
  }

  /** What deletion must survive: the faults of `Endurable`, others changing, deleting and recreating the record
      before look-ups and writes among them; only once the deletion is over nobody may recreate it. */
  predicate Survivable(l: Loop, r: Round)
    requires l.world.res.Some?
  {
    && Endurable(l.world.res.value.spec.Kind(), r.w)
    && (Over(l) ==> NoRecreation(l.world.remote, r.w.find.before))
  }

  lemma OverTurn(defaults: Record, l: Loop, r: Round)
    requires Over(l) && (l.queued && l.world.res.Some? ==> Survivable(l, r))
    ensures Over(Turn(defaults, l, r))
  {
    if l.queued && l.world.res.Some? {
      var res := l.world.res.value;
      Frame(defaults, res, l.world.remote, r.w);
      RemoveRemoves(res.finalizers);
      AbsentStep(defaults, res, r.w);
      TurnSaves(defaults, l, r);
      hide Reconcile, Turn;
    }
  }

  lemma {:induction false} StuckStays(defaults: Record, l: Loop, rounds: seq<Round>)
    requires Stuck(l)
    ensures Turns(defaults, l, rounds) == l
    decreases |rounds|
  {
    if rounds != [] {
      StuckStays(defaults, l, rounds[1..]);
    }
  }

  /** Every round of the schedule in which something is reconciled is survivable. */
  predicate Survived(defaults: Record, l: Loop, rounds: seq<Round>)
    decreases |rounds|
  {
    rounds != [] ==>
      && (l.queued && l.world.res.Some? ==> Survivable(l, rounds[0]))
      && Survived(defaults, Turn(defaults, l, rounds[0]), rounds[1..])
  }

  lemma {:induction false} OverStays(defaults: Record, l: Loop, rounds: seq<Round>)
    requires Over(l) && Survived(defaults, l, rounds)
    ensures Over(Turns(defaults, l, rounds))
    decreases |rounds|
  {
    hide Survivable, Turn, Over;
    if rounds != [] {
      OverTurn(defaults, l, rounds[0]);
      OverStays(defaults, Turn(defaults, l, rounds[0]), rounds[1..]);
    }
  }

  /** The round in which the work gets done delivers its metadata patch. */
  predicate Releases(defaults: Record, l: Loop, rounds: seq<Round>)
    decreases |rounds|
  {
    rounds != [] && l.world.res.Some? &&
    if Finishes(defaults, l, rounds[0].w) then rounds[0].metaOk
    else Releases(defaults, Turn(defaults, l, rounds[0]), rounds[1..])
  }

  /** Completion: after any finite number of faults the first undisturbed reconcile at the latest finishes the
      deletion. It is over for good, or the resource sleeps with its finalizer, exactly as the metadata patch of the
      finishing round gets through or not; no other lost patch matters. */
  lemma {:induction false} DeletionCompletes(defaults: Record, l: Loop, rounds: seq<Round>)
    requires Waiting(l) && Survived(defaults, l, rounds)
    requires exists r <- rounds :: Undisturbed(r.w)
    ensures var end := Turns(defaults, l, rounds);
            && (Over(end) <==> Releases(defaults, l, rounds))
            && (Stuck(end) <==> !Releases(defaults, l, rounds))
    decreases |rounds|
  {
    hide Endurable, Undisturbed, Finishes, Turn, Readable;
    var r, rest := rounds[0], rounds[1..];
    var t := Turn(defaults, l, r);
    WaitingTurn(defaults, l, r);
    if !Finishes(defaults, l, r.w) {
      assert forall x <- rounds :: x == r || x in rest;
      DeletionCompletes(defaults, t, rest);
    } else if r.metaOk {
      OverStays(defaults, t, rest);
    } else {
      StuckStays(defaults, t, rest);
    }
  }

  /** A stuck resource needs only to be looked at again, say by a restarted controller, with its patch delivered. */
  lemma StuckRecovers(defaults: Record, l: Loop, r: Round)
    requires Stuck(l) && Undisturbed(r.w) && r.metaOk
    ensures Over(Turn(defaults, l.(queued := true), r))
  {
    var again := l.(queued := true);
    assert Waiting(again);
    UndisturbedEndurable(l.world.res.value.spec.Kind(), r.w);
    WaitingTurn(defaults, again, r);
  }

  lemma UndisturbedEndurable(kind: Kind, w: Weather)
    requires Undisturbed(w)
    ensures Endurable(kind, w)
  {
  }
}
