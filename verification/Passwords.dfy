/** A user keeps the first password it was given. */
module Passwords {
  import opened Common
  import opened Json
  import opened Wire
  import opened Resources
  import opened Protocol
  import opened Steps
  import opened Runs

  predicate GoodSupply(w: Weather) { w.supply.generated.Success? ==> w.supply.generated.value != "" }

  /** A reconcile that fills in a password gets its metadata patch through, the generator works, and nobody else
      edits the password. */
  predicate PasswordLeftAlone(defaults: Record, world: World, move: Move)
  {
    && (move.Reconciles? ==> GoodSupply(move.w))
    && (world.res.Some? ==>
          var own := world.res.value.spec;
          && (move.Edits? ==> move.spec.UserSpec? && own.UserSpec? && move.spec.rawPassword == own.rawPassword)
          && (move.Reconciles? ==>
                && (move.metaOk || Reconcile(defaults, world.res.value, world.remote, move.w).res.spec == own)
                && (move.meanwhile.spec.Some? ==>
                      var other := move.meanwhile.spec.value;
                      other.UserSpec? && own.UserSpec? && other.rawPassword == own.rawPassword)))
  }

  predicate PasswordLeftAloneRun(defaults: Record, world: World, moves: seq<Move>)
    decreases |moves|
  {
    moves != [] ==>
      && PasswordLeftAlone(defaults, world, moves[0])
      && PasswordLeftAloneRun(defaults, Next(defaults, world, moves[0]), moves[1..])
  }

  /** Reading a trace with the password chosen so far (empty: none): a password is drawn only while there is
      none, every POST carries the chosen one, and the first one drawn or posted stays. */
  predicate OnePassword(events: seq<Event>, chosen: string)
  {
    events == [] ||
    match events[0]
    case Generated(p) => chosen == "" && p != "" && OnePassword(events[1..], p)
    case Sent(q) =>
      if q.Create? then
        && RawPassword in q.body && q.body[RawPassword].Str?
        && (chosen != "" ==> q.body[RawPassword].s == chosen)
        && OnePassword(events[1..], q.body[RawPassword].s)
      else OnePassword(events[1..], chosen)
  }

  /** The longer the password is known, the stricter the reading. */
  lemma {:induction false} Weaken(events: seq<Event>, chosen: string)
    requires OnePassword(events, chosen)
    ensures OnePassword(events, "")
  {
    if events != [] && events[0].Sent? && !events[0].q.Create? {
      Weaken(events[1..], chosen);
    } else if events != [] && events[0].Generated? {
    }
  }

  lemma PrependSent(q: Request, tail: seq<Event>, chosen: string)
    requires !q.Create? && OnePassword(tail, chosen)
    ensures OnePassword([Sent(q)] + tail, chosen)
  {
    assert ([Sent(q)] + tail)[1..] == tail;
  }

  lemma PrependCreate(key: string, body: Record, tail: seq<Event>, chosen: string, password: string)
    requires RawPassword in body && body[RawPassword] == Str(password)
    requires chosen != "" ==> password == chosen
    requires OnePassword(tail, password)
    ensures OnePassword([Sent(Create(key, body))] + tail, chosen)
  {
    assert ([Sent(Create(key, body))] + tail)[1..] == tail;
  }

  lemma PrependGenerated(password: string, tail: seq<Event>)
    requires password != "" && OnePassword(tail, password)
    ensures OnePassword([Generated(password)] + tail, "")
  {
    assert ([Generated(password)] + tail)[1..] == tail;
  }

  lemma PostsPassword(spec: Spec)
    requires spec.UserSpec? && CreateBody(spec).Success?
    ensures var body := CreateBody(spec).value; RawPassword in body && body[RawPassword] == Str(spec.rawPassword)
  {
    assert Schema(UserKind)[15] == RawPassword;
  }

  /** What a create step sends and stores, whatever the answer. */
  lemma CreateEvents(defaults: Record, res: Resource, remote: Option<Record>, w: Weather)
    ensures var s := CreateStep(defaults, res, remote, w);
            var filled := WithPassword(res.spec, w.supply);
            if filled.Failure? then s.events == [] && s.res.spec == res.spec
            else
              && s.res.spec == filled.value
              && s.events == PasswordEvents(res.spec, w.supply) +
                   (if CreateBody(filled.value).Failure? then []
                    else [Sent(Create(filled.value.Key(), CreateBody(filled.value).value))])
  {
    hide Served, ReadCreate, SetCondition, CreateBody, WithPassword, PasswordEvents;
    assert PasswordEvents(res.spec, w.supply) + [] == PasswordEvents(res.spec, w.supply);
  }

  lemma CreatePassword(defaults: Record, res: Resource, remote: Option<Record>, w: Weather, tail: seq<Event>)
    requires res.spec.UserSpec? && GoodSupply(w)
    requires var s := CreateStep(defaults, res, remote, w);
             s.res.spec.UserSpec? && OnePassword(tail, s.res.spec.rawPassword)
    ensures OnePassword(CreateStep(defaults, res, remote, w).events + tail, res.spec.rawPassword)
  {
    hide CreateStep, CreateBody;
    var s := CreateStep(defaults, res, remote, w);
    CreateEvents(defaults, res, remote, w);
    if WithPassword(res.spec, w.supply).Failure? {
      assert s.events + tail == tail;
    } else {
      var spec := WithPassword(res.spec, w.supply).value;
      var posted := if CreateBody(spec).Failure? then [] else [Sent(Create(spec.Key(), CreateBody(spec).value))];
      if CreateBody(spec).Success? {
        PostsPassword(spec);
        PrependCreate(spec.Key(), CreateBody(spec).value, tail, spec.rawPassword, spec.rawPassword);
      } else {
        assert posted + tail == tail;
      }
      AfterDraw(res.spec, w.supply, spec, posted + tail);
      assert s.events + tail == PasswordEvents(res.spec, w.supply) + (posted + tail);
    }
  }

  lemma AfterDraw(own: Spec, supply: Supply, spec: Spec, tail: seq<Event>)
    requires own.UserSpec? && WithPassword(own, supply) == Success(spec)
    requires supply.generated.Success? ==> supply.generated.value != ""
    requires OnePassword(tail, spec.rawPassword)
    ensures OnePassword(PasswordEvents(own, supply) + tail, own.rawPassword)
  {
    if Generates(own, supply) {
      PrependGenerated(spec.rawPassword, tail);
    } else {
      assert PasswordEvents(own, supply) + tail == tail;
      Weaken(tail, spec.rawPassword);
    }
  }

  lemma OtherEvents(defaults: Record, res: Resource, remote: Option<Record>, found: Found, w: Weather)
    requires res.deleting || !found.Missing?
    ensures var s := Act(defaults, res, remote, found, w);
            && s.res.spec == res.spec
            && (s.events == [] || exists q: Request :: !q.Create? && s.events == [Sent(q)])
  {
    hide Served, ReadUpdate, ReadDelete, UpdateBody, MarshalStruct, SetCondition, CreateStep;
    var s := Act(defaults, res, remote, found, w);
    if s.events != [] {
      var q := s.events[0].q;
      assert !q.Create? && s.events == [Sent(q)];
    }
  }

  lemma ActPassword(defaults: Record, res: Resource, remote: Option<Record>, found: Found, w: Weather, tail: seq<Event>)
    requires res.spec.UserSpec? && GoodSupply(w)
    requires var s := Act(defaults, res, remote, found, w);
             s.res.spec.UserSpec? && OnePassword(tail, s.res.spec.rawPassword)
    ensures OnePassword(Act(defaults, res, remote, found, w).events + tail, res.spec.rawPassword)
  {
    if !res.deleting && found.Missing? {
      hide CreateStep;
      CreatePassword(defaults, res, remote, w, tail);
    } else {
      OtherEvents(defaults, res, remote, found, w);
      hide Act, OnePassword;
      var s := Act(defaults, res, remote, found, w);
      if s.events == [] {
        assert s.events + tail == tail;
      } else {
        var q: Request :| !q.Create? && s.events == [Sent(q)];
        PrependSent(q, tail, res.spec.rawPassword);
      }
    }
  }

  lemma StepPassword(defaults: Record, res: Resource, remote: Option<Record>, w: Weather, tail: seq<Event>)
    requires res.spec.UserSpec? && GoodSupply(w)
    requires var s := Reconcile(defaults, res, remote, w);
             s.res.spec.UserSpec? && OnePassword(tail, s.res.spec.rawPassword)
    ensures OnePassword(Reconcile(defaults, res, remote, w).events + tail, res.spec.rawPassword)
  {
    hide Served, ReadFind, Act;
    var guarded := if res.deleting then res else res.(finalizers := AddFinalizer(res.finalizers));
    var q := Find(res.spec.Key());
    var (now, found) := Seen(defaults, guarded, remote, w);
    var act := Act(defaults, guarded, now, found, w);
    ActPassword(defaults, guarded, now, found, w, tail);
    PrependSent(q, act.events + tail, res.spec.rawPassword);
    assert ([Sent(q)] + act.events) + tail == [Sent(q)] + (act.events + tail);
  }

  /** The password of the spec once a move is done, provided the resource survives it. */
  function PasswordAfter(defaults: Record, world: World, move: Move): string
    requires world.res.Some? && world.res.value.spec.UserSpec?
  {
    var after := if move.Reconciles? then Reconcile(defaults, world.res.value, world.remote, move.w).res.spec
                 else world.res.value.spec;
    if after.UserSpec? then after.rawPassword else ""
  }

  lemma PasswordPatched(server: Resource, before: Resource, after: Resource, metaOk: bool, statusOk: bool)
    requires before.spec.UserSpec? && after.spec.UserSpec? && server.spec.UserSpec?
    requires server.spec.rawPassword == before.spec.rawPassword
    requires PasswordFilled(before.spec, after.spec) && (metaOk || after.spec == before.spec)
    ensures var r := Patched(server, before, after, metaOk, statusOk);
            r.Some? ==> (r.value.spec.UserSpec? && r.value.spec.rawPassword == after.spec.rawPassword)
  {
  }

  lemma SpecPatched(server: Resource, before: Resource, after: Resource, metaOk: bool, statusOk: bool)
    requires before.spec.UserSpec? && server.spec == before.spec && PasswordFilled(before.spec, after.spec)
    ensures var r := Patched(server, before, after, metaOk, statusOk);
            r.Some? ==> (r.value.spec == after.spec <==> metaOk || after.spec == before.spec)
  {
  }

  /** Exactly when a user who survives a reconcile, its spec untouched by others, keeps what the reconcile made of
      the spec: its metadata patch gets through, or there is nothing to keep. */
  lemma PasswordKept(defaults: Record, world: World, move: Move)
    requires world.res.Some? && world.res.value.spec.UserSpec? && move.Reconciles? && move.meanwhile.spec.None?
    ensures var next := Next(defaults, world, move).res;
            var s := Reconcile(defaults, world.res.value, world.remote, move.w);
            next.Some? ==> (next.value.spec == s.res.spec <==> move.metaOk || s.res.spec == world.res.value.spec)
  {
    var res := world.res.value;
    Frame(defaults, res, world.remote, move.w);
    hide Reconcile, Patched, PasswordFilled;
    SpecPatched(Touched(res, move.meanwhile), res, Reconcile(defaults, res, world.remote, move.w).res,
                move.metaOk, move.statusOk);
  }

  lemma PasswordStored(defaults: Record, world: World, move: Move)
    requires world.res.Some? && world.res.value.spec.UserSpec? && PasswordLeftAlone(defaults, world, move)
    ensures var next := Next(defaults, world, move).res;
            next.Some? ==>
              (next.value.spec.UserSpec? && next.value.spec.rawPassword == PasswordAfter(defaults, world, move))
  {
    hide Reconcile, Patched;
    if move.Reconciles? {
      var res := world.res.value;
      Frame(defaults, res, world.remote, move.w);
      PasswordPatched(Touched(res, move.meanwhile), res, Reconcile(defaults, res, world.remote, move.w).res,
                      move.metaOk, move.statusOk);
    }
  }

  /** Password stability over any run of failed and repeated creates: one password per user, see `OnePassword`. */
  lemma {:induction false} PasswordStable(defaults: Record, world: World, moves: seq<Move>)
    requires world.res.Some? && world.res.value.spec.UserSpec?
    requires PasswordLeftAloneRun(defaults, world, moves)
    ensures OnePassword(Trace(defaults, world, moves), world.res.value.spec.rawPassword)
    decreases |moves|
  {
    if moves != [] {
      var next := Next(defaults, world, moves[0]);
      var tail := Trace(defaults, next, moves[1..]);
      PasswordStored(defaults, world, moves[0]);
      if next.res.Some? {
        PasswordStable(defaults, next, moves[1..]);
      } else {
        SilentWhenGone(defaults, next, moves[1..]);
      }
      if moves[0].Reconciles? {
        Frame(defaults, world.res.value, world.remote, moves[0].w);
        StepPassword(defaults, world.res.value, world.remote, moves[0].w, tail);
      } else {
        assert Emitted(defaults, world, moves[0]) + tail == tail;
      }
    }
  }

  lemma {:induction false} SilentWhenGone(defaults: Record, world: World, moves: seq<Move>)
    requires world.res.None?
    ensures Trace(defaults, world, moves) == []
    decreases |moves|
  {
    if moves != [] {
      SilentWhenGone(defaults, Next(defaults, world, moves[0]), moves[1..]);
    }
  }

  /** In such a trace the generator was used at most once. */
  lemma {:induction false} DrawnAtMostOnce(events: seq<Event>, chosen: string, i: nat, j: nat)
    requires OnePassword(events, chosen) && i < j < |events|
    ensures !(events[i].Generated? && events[j].Generated?)
    ensures chosen != "" ==> !events[i].Generated? && !events[j].Generated?
  {
    NoneDrawnOnceChosen(events, chosen, j);
    if i > 0 {
      var next := match events[0]
                  case Generated(p) => p
                  case Sent(q) => if q.Create? then q.body[RawPassword].s else chosen;
      DrawnAtMostOnce(events[1..], next, i - 1, j - 1);
    } else if events[0].Generated? {
      NoneDrawnOnceChosen(events[1..], events[0].password, j - 1);
    }
  }

  lemma {:induction false} NoneDrawnOnceChosen(events: seq<Event>, chosen: string, j: nat)
    requires OnePassword(events, chosen) && j < |events|
    ensures chosen != "" ==> !events[j].Generated?
  {
    if chosen != "" && j > 0 {
      NoneDrawnOnceChosen(events[1..], chosen, j - 1);
    }
  }

  /** A create answered with 503 while the generator yields `password` and the metadata patch is lost. */
  function LostDraw(password: string): Move
  {
    Reconciles(Weather(Link(Nothing, Clear), Link(Nothing, Disturbed(false, Response(503, Garbage("")))),
                       Supply(map[], Success(password))), UNTOUCHED, false, true)
  }

  predicate Passwordless(res: Resource)
  {
    !res.deleting && res.spec.UserSpec? && res.spec.rawPassword == "" && res.spec.passwordSecret == ""
  }

  lemma DrawsAndForgets(defaults: Record, res: Resource, password: string)
    requires Passwordless(res)
    ensures var world := World(Some(res), None);
            var next := Next(defaults, world, LostDraw(password));
            && Generated(password) in Emitted(defaults, world, LostDraw(password))
            && next.remote.None? && next.res.Some? && Passwordless(next.res.value)
  {
    hide CreateBody, SetCondition;
    var w := LostDraw(password).w;
    var guarded := res.(finalizers := AddFinalizer(res.finalizers));
    assert Generates(res.spec, w.supply);
    CreateEvents(defaults, guarded, None, w);
    assert ReadFind(UserKind, Truth(None, Find(res.spec.Key()))) == Missing;
    assert Act(defaults, guarded, None, Missing, w) == CreateStep(defaults, guarded, None, w);
    assert CreateStep(defaults, guarded, None, w).remote.None?;
    hide CreateStep;
  }

  /** The patch must get through: with the metadata patch of a failed create lost, the next one draws again. */
  lemma LostPatchDrawsAgain(defaults: Record, res: Resource, p: string, q: string)
    requires Passwordless(res)
    ensures var trace := Trace(defaults, World(Some(res), None), [LostDraw(p), LostDraw(q)]);
            Generated(p) in trace && Generated(q) in trace
  {
    hide Emitted, Next;
    var world := World(Some(res), None);
    var moves := [LostDraw(p), LostDraw(q)];
    assert moves[1..] == [LostDraw(q)];
    DrawsAndForgets(defaults, res, p);
    var next := Next(defaults, world, LostDraw(p));
    DrawsAndForgets(defaults, next.res.value, q);
    TraceParts(defaults, world, moves);
    TraceParts(defaults, next, moves[1..]);
  }
}
