/** What the operator does not manage it does not change. */
module Conservation {
  import opened Common
  import opened Json
  import opened Wire
  import opened Resources
  import opened Protocol
  import opened Steps
  import opened Runs
  import opened Deletion

  /** The fields no PATCH body of this kind carries. */
  predicate Unmanaged(f: Field)
  {
    f in {Password, QuotaBytesUsed, RawPassword} || f.Unlisted?
  }

  lemma ServedConserves(defaults: Record, remote: Record, q: Request, link: Link, f: Field)
    requires link.before.Nothing? && !q.Delete?
    requires q.Update? ==> f !in q.body && RawPassword !in q.body
    ensures var r := Served(defaults, Some(remote), q, link).0; r.Some? && SameField(f, remote, r.value)
  {
  }

  lemma StepConserves(defaults: Record, res: Resource, remote: Record, w: Weather, f: Field)
    requires Unmanaged(f) && w.find.before.Nothing? && w.write.before.Nothing?
    requires forall e <- Reconcile(defaults, res, Some(remote), w).events :: !Removes(e)
    ensures var r := Reconcile(defaults, res, Some(remote), w).remote; r.Some? && SameField(f, remote, r.value)
  {
    hide Schema, FieldFromSpec, FromSpec, UpdateBody, CreateBody, MarshalStruct, ReadFind, ReadCreate, ReadUpdate,
         ReadDelete, SetCondition, Served;
    var guarded := if res.deleting then res else res.(finalizers := AddFinalizer(res.finalizers));
    var q := Find(res.spec.Key());
    ServedConserves(defaults, remote, q, w.find, f);
    var (now, found) := Seen(defaults, guarded, Some(remote), w);
    ActConserves(defaults, guarded, now.value, found, w, f);
    hide Act;
    var events := Act(defaults, guarded, now, found, w).events;
    assert forall e <- events :: e in [Sent(q)] + events;
  }

  lemma ActConserves(defaults: Record, res: Resource, remote: Record, found: Found, w: Weather, f: Field)
    requires Unmanaged(f) && w.write.before.Nothing?
    ensures var s := Act(defaults, res, Some(remote), found, w);
            (forall e <- s.events :: !Removes(e)) ==> s.remote.Some? && SameField(f, remote, s.remote.value)
  {
    hide Schema, FieldFromSpec, FromSpec, UpdateBody, CreateBody, MarshalStruct, ReadFind, ReadCreate, ReadUpdate,
         ReadDelete, SetCondition, Served;
    var s := Act(defaults, res, Some(remote), found, w);
    if s.events != [] && s.events[|s.events| - 1].Sent? {
      var last := s.events[|s.events| - 1];
      var q := last.q;
      assert last in s.events;
      if !q.Delete? {
        if q.Update? {
          assert UpdateBody(res.spec).Success? && q.body == UpdateBody(res.spec).value;
          if f in q.body {
            UpdateBodyFields(res.spec, f);
          }
          if RawPassword in q.body {
            UpdateBodyFields(res.spec, RawPassword);
          }
        }
        ServedConserves(defaults, remote, q, w.write, f);
      }
    }
  }

  predicate NoMeddling(move: Move)
  {
    && !move.Meddles?
    && (move.Reconciles? ==> move.w.find.before.Nothing? && move.w.write.before.Nothing?)
  }

  /** Conservation: as long as nobody else touches an existing record and no DELETE is sent, no run changes its
      password, its used quota or any field outside the structs, whatever the answers. */
  lemma {:induction false} Conserved(defaults: Record, world: World, moves: seq<Move>, f: Field)
    requires world.remote.Some? && Unmanaged(f)
    requires forall m <- moves :: NoMeddling(m)
    requires forall e <- Trace(defaults, world, moves) :: !Removes(e)
    ensures var end := Run(defaults, world, moves);
            end.remote.Some? && SameField(f, world.remote.value, end.remote.value)
    decreases |moves|
  {
    if moves != [] {
      var next := Next(defaults, world, moves[0]);
      assert moves[0] in moves;
      TraceParts(defaults, world, moves);
      if moves[0].Reconciles? && world.res.Some? {
        StepConserves(defaults, world.res.value, world.remote.value, moves[0].w, f);
      }
      hide Reconcile;
      assert forall m <- moves[1..] :: m in moves;
      Conserved(defaults, next, moves[1..], f);
    }
  }
}
