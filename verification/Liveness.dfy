/** Convergence over whole schedules of rounds: when it is certain, and exactly when it fails. */
module Liveness {
  import opened Common
  import opened Json
  import opened Wire
  import opened Resources
  import opened Protocol
  import opened Steps
  import opened Managed
  import opened WorkQueue
  import opened Convergence

  predicate AllBearable(kind: Kind, rounds: seq<Round>) { forall r <- rounds :: Bearable(kind, r.w) }

  /** Undisturbed, with both patches delivered, and with a password at hand if the spec has none. */
  predicate Calm(spec: Spec, r: Round)
  {
    && r.w.find == Link(Nothing, Clear) && r.w.write == Link(Nothing, Clear) && Delivered(r)
    && WithPassword(spec, r.w.supply).Success?
  }

  /** Rounds that are not calm; a password that cannot be had counts if the spec has none at the start. */
  function Faults(spec: Spec, rounds: seq<Round>): nat
  {
    if rounds == [] then 0 else (if Calm(spec, rounds[0]) then 0 else 1) + Faults(spec, rounds[1..])
  }

  lemma CalmIsFair(spec: Spec, r: Round)
    requires Calm(spec, r)
    ensures Fair(spec, r.w) && Tolerable(spec.Kind(), r.w)
  {
  }

  lemma CalmIgnoresPassword(a: Spec, b: Spec, r: Round)
    requires PasswordFilled(a, b) && Calm(a, r)
    ensures Calm(b, r)
  {
  }

  lemma {:induction false} FaultsIgnorePassword(a: Spec, b: Spec, rounds: seq<Round>)
    requires PasswordFilled(a, b)
    ensures Faults(b, rounds) <= Faults(a, rounds)
  {
    if rounds != [] {
      if Calm(a, rounds[0]) {
        CalmIgnoresPassword(a, b, rounds[0]);
      }
      FaultsIgnorePassword(a, b, rounds[1..]);
    }
  }

  /** Some round of the schedule slips while the resource is queued. */
  predicate SlipsSomewhere(defaults: Record, s: State, rounds: seq<Round>)
    requires Sound(defaults, s) && AllBearable(s.res.spec.Kind(), rounds)
    decreases |rounds|
  {
    rounds != [] && s.queued &&
    (Slips(defaults, s, rounds[0]) ||
     (Onward(defaults, s, rounds); SlipsSomewhere(defaults, Tick(defaults, s, rounds[0]), rounds[1..])))
  }

  lemma Onward(defaults: Record, s: State, rounds: seq<Round>)
    requires Sound(defaults, s) && s.queued && rounds != [] && AllBearable(s.res.spec.Kind(), rounds)
    ensures var t := Tick(defaults, s, rounds[0]);
            && Bearable(s.res.spec.Kind(), rounds[0].w) && Sound(defaults, t)
            && t.res.spec.Kind() == s.res.spec.Kind() && AllBearable(t.res.spec.Kind(), rounds[1..])
  {
    assert rounds[0] in rounds && forall r <- rounds[1..] :: r in rounds;
    hide Tick, Sound, Bearable;
    BearableTick(defaults, s, rounds[0]);
  }

  lemma SlipsOnward(defaults: Record, s: State, rounds: seq<Round>)
    requires Sound(defaults, s) && s.queued && rounds != [] && AllBearable(s.res.spec.Kind(), rounds)
    ensures var t := Tick(defaults, s, rounds[0]);
            && Sound(defaults, t) && AllBearable(t.res.spec.Kind(), rounds[1..])
            && (SlipsSomewhere(defaults, s, rounds) <==>
                Slips(defaults, s, rounds[0]) || SlipsSomewhere(defaults, t, rounds[1..]))
  {
    hide Slips, Tick, Bearable;
    Onward(defaults, s, rounds);
  }

  lemma AsleepTick(defaults: Record, s: State, r: Round)
    requires !s.queued
    ensures Tick(defaults, s, r) == s
  {
  }

  lemma {:induction false} AsleepStays(defaults: Record, s: State, rounds: seq<Round>)
    requires !s.queued
    ensures Ticks(defaults, s, rounds) == s
    decreases |rounds|
  {
    if rounds != [] {
      AsleepStays(defaults, s, rounds[1..]);
    }
  }

  lemma {:induction false} SleepsInTime(defaults: Record, s: State, rounds: seq<Round>)
    requires Sound(defaults, s) && AllBearable(s.res.spec.Kind(), rounds)
    requires !s.queued ==> Converged(s)
    requires |rounds| >= 4 * Faults(s.res.spec, rounds) + Rank(s)
    ensures var end := Ticks(defaults, s, rounds);
            && !end.queued && end.res.spec.DatesParse()
            && (Converged(end) <==> !SlipsSomewhere(defaults, s, rounds))
    decreases |rounds|
  {
    hide Bearable, Converged, Calm, Settled, Slips, Tick, Sound, PasswordFilled;
    assert s.res.spec.DatesParse() by { SoundIsProper(defaults, s); }
    if !s.queued {
      AsleepStays(defaults, s, rounds);
    } else {
      var r := rounds[0];
      var t := Tick(defaults, s, r);
      Onward(defaults, s, rounds);
      SlipsOnward(defaults, s, rounds);
      BearableTick(defaults, s, r);
      FaultsIgnorePassword(s.res.spec, t.res.spec, rounds[1..]);
      if Slips(defaults, s, r) {
        SoundIsProper(defaults, t);
        AsleepStays(defaults, t, rounds[1..]);
      } else {
        if Calm(s.res.spec, r) {
          CalmProgress(defaults, s, r);
        }
        SleepsInTime(defaults, t, rounds[1..]);
      }
    }
  }

  lemma CalmProgress(defaults: Record, s: State, r: Round)
    requires Sound(defaults, s) && s.queued && Calm(s.res.spec, r)
    ensures var t := Tick(defaults, s, r); Sound(defaults, t) && Rank(t) < Rank(s)
  {
    CalmIsFair(s.res.spec, r);
    Progress(defaults, s, r);
  }

  // ---------- the theorems ----------

  /** Convergence, schedule by schedule: from any start and through any finite number of faults, lost patches and
      failed look-ups among them, the loop goes to sleep after at most four reconciles a fault and three more.
      The record then agrees with the spec if and only if no round slipped. */
  lemma Converges(defaults: Record, s: State, rounds: seq<Round>)
    requires Sound(defaults, s) && s.queued
    requires AllBearable(s.res.spec.Kind(), rounds) && |rounds| >= 4 * Faults(s.res.spec, rounds) + 3
    ensures var end := Ticks(defaults, s, rounds);
            && !end.queued && end.res.spec.DatesParse()
            && (Converged(end) <==> !SlipsSomewhere(defaults, s, rounds))
  {
    SleepsInTime(defaults, s, rounds);
  }

  // ---------- with every patch delivered ----------

  /** The situation in which the loop can stop too early although every patch is delivered: a domain's record has
      been removed behind its back while Ready still says Created, so that recreating it changes nothing. */
  predicate AtRisk(s: State)
  {
    s.res.spec.DomainSpec? && s.remote.None? && s.res.Ready() == Some(Created(DomainKind))
  }

  predicate Safe(defaults: Record, s: State)
  {
    !AtRisk(s) || DefaultAlternatives(defaults, s.res.spec)
  }

  lemma CreateRisk(defaults: Record, res: Resource, w: Weather)
    requires res.spec.DomainSpec? && Honest(DomainKind, w)
    ensures var s := CreateStep(defaults, res, None, w);
            s.remote.None? && s.res.Ready() == Some(Created(DomainKind)) ==> res.Ready() == Some(Created(DomainKind))
  {
    hide CreateBody, SetCondition, FindCondition;
    forall c: Condition
      ensures res.SetReady(c).Ready() == (if c.ctype == ReadyType(DomainKind) then Some(c) else res.SetReady(c).Ready())
    {
      SetThenFind(res.conditions, c);
    }
  }

  lemma UpdateRisk(defaults: Record, res: Resource, remote: Option<Record>, found: Record, w: Weather)
    requires res.spec.DomainSpec?
    ensures UpdateStep(defaults, res, remote, found, w).res.Ready() != Some(Created(DomainKind))
  {
    hide Served, UpdateBody, MarshalStruct, SetCondition, FindCondition;
    var s := UpdateStep(defaults, res, remote, found, w);
    forall c: Condition
      ensures c.ctype == ReadyType(DomainKind) ==> res.SetReady(c).Ready() == Some(c)
    {
      SetThenFind(res.conditions, c);
    }
  }

  /** No tolerable round with delivered patches brings the risk about. */
  lemma RiskKept(defaults: Record, s: State, r: Round)
    requires Sound(defaults, s) && s.queued && Tolerable(s.res.spec.Kind(), r.w) && Delivered(r)
    requires AtRisk(Tick(defaults, s, r))
    ensures AtRisk(s)
  {
    var (now, found) := Seen(defaults, s.res, s.remote, r.w);
    LookedUp(defaults, s, r.w);
    TickActs(defaults, s, r);
    ActKeeps(defaults, Guard(s.res), now, found, r.w);
    var step := Act(defaults, Guard(s.res), now, found, r.w);
    SavedDelivered(s.res, step.res, r);
    assert s.res.spec.DomainSpec? && step.remote.None? && step.res.Ready() == Some(Created(DomainKind));
    hide CreateStep, UpdateStep, Tick, Saved, Served, ReadFind, FindCondition, SetCondition, Proper;
    if found.Missing? {
      CreateRisk(defaults, Guard(s.res), r.w);
    } else if found.FoundRecord? {
      UpdateRisk(defaults, Guard(s.res), now, found.record, r.w);
    }
  }

  lemma SafeTick(defaults: Record, s: State, r: Round)
    requires Sound(defaults, s) && s.queued && Tolerable(s.res.spec.Kind(), r.w) && Delivered(r) && Safe(defaults, s)
    ensures var t := Tick(defaults, s, r);
            !Slips(defaults, s, r) && Sound(defaults, t) && Safe(defaults, t)
  {
    var t := Tick(defaults, s, r);
    LookedUp(defaults, s, r.w);
    BearableTick(defaults, s, r);
    hide Tick, Served, ReadFind, UpdateBody, FindCondition, Decode, Reflected;
    if AtRisk(t) {
      RiskKept(defaults, s, r);
    }
  }

  /** Schedules with tolerable weather and delivered patches, long enough for their faults. */
  predicate Admitted(spec: Spec, rounds: seq<Round>)
  {
    && (forall r <- rounds :: Tolerable(spec.Kind(), r.w) && Delivered(r))
    && |rounds| >= 4 * Faults(spec, rounds) + 3
  }

  /** The schedule ends with the loop asleep and the record as the spec wants it. */
  predicate EndsWell(defaults: Record, s: State, rounds: seq<Round>)
  {
    var end := Ticks(defaults, s, rounds);
    !end.queued && Converged(end)
  }

  lemma {:induction false} NoSlip(defaults: Record, s: State, rounds: seq<Round>)
    requires Sound(defaults, s) && AllBearable(s.res.spec.Kind(), rounds) && Safe(defaults, s)
    requires forall r <- rounds :: Tolerable(s.res.spec.Kind(), r.w) && Delivered(r)
    ensures !SlipsSomewhere(defaults, s, rounds)
    decreases |rounds|
  {
    hide Slips, Tick, Tolerable, Bearable, Safe, Delivered, Sound;
    if rounds != [] && s.queued {
      assert rounds[0] in rounds && forall r <- rounds[1..] :: r in rounds;
      Onward(defaults, s, rounds);
      SlipsOnward(defaults, s, rounds);
      SafeTick(defaults, s, rounds[0]);
      NoSlip(defaults, Tick(defaults, s, rounds[0]), rounds[1..]);
    }
  }

  const CALM := Round(Weather(Link(Nothing, Clear), Link(Nothing, Clear), Supply(map[], Failure(""))), true, true)

  /** The look-up is answered 503. */
  const BUSY := Round(CALM.w.(find := Link(Nothing, Disturbed(false, Response(503, Garbage(""))))), true, true)

  function CalmRounds(n: nat): seq<Round> { if n == 0 then [] else [CALM] + CalmRounds(n - 1) }

  lemma {:induction false} CalmForDomains(spec: Spec, n: nat)
    requires spec.DomainSpec?
    ensures |CalmRounds(n)| == n && Faults(spec, CalmRounds(n)) == 0
    ensures forall r <- CalmRounds(n) :: Tolerable(DomainKind, r.w) && Delivered(r)
  {
    assert Calm(spec, CALM);
    CalmIsFair(spec, CALM);
    hide Tolerable, Calm;
    if n > 0 {
      CalmForDomains(spec, n - 1);
      assert CalmRounds(n)[1..] == CalmRounds(n - 1);
    }
  }

  /** A schedule that defeats an unsafe start: at once if the finalizer is there, else after a round that only
      adds it. */
  function Defeat(s: State): seq<Round> { if s.res.Guarded() then CalmRounds(3) else [BUSY] + CalmRounds(6) }

  lemma BusyFacts(defaults: Record, s: State)
    requires s.res.spec.DomainSpec?
    ensures Tolerable(DomainKind, BUSY.w) && Delivered(BUSY)
    ensures var (now, found) := Seen(defaults, s.res, s.remote, BUSY.w);
            now == s.remote && found.FindFailed? && found.retry
  {
    hide Decode;
  }

  lemma BusyTick(defaults: Record, s: State)
    requires Sound(defaults, s) && s.queued && s.res.spec.DomainSpec?
    ensures Tick(defaults, s, BUSY) == s.(res := Guard(s.res))
  {
    BusyFacts(defaults, s);
    TickActs(defaults, s, BUSY);
    SavedDelivered(s.res, Guard(s.res), BUSY);
    hide Tick, Seen, Saved, Delivered, Tolerable, CreateStep, UpdateStep, DeleteStep, Proper, Readable;
  }

  lemma CalmSlip(defaults: Record, s: State)
    requires Sound(defaults, s) && !Safe(defaults, s) && s.res.Guarded()
    ensures Slips(defaults, s, CALM)
  {
    hide DefaultAlternatives, FindCondition;
  }

  lemma DefeatAdmitted(s: State)
    requires s.res.spec.DomainSpec?
    ensures Admitted(s.res.spec, Defeat(s)) && AllBearable(DomainKind, Defeat(s))
  {
    CalmForDomains(s.res.spec, 3);
    CalmForDomains(s.res.spec, 6);
    assert ([BUSY] + CalmRounds(6))[1..] == CalmRounds(6);
    BusyFacts(map[], s);
    assert forall r <- Defeat(s) :: Tolerable(DomainKind, r.w) && Delivered(r) by {
      hide Tolerable, Delivered;
    }
    hide CalmRounds;
  }

  lemma Defeated(defaults: Record, s: State)
    requires Sound(defaults, s) && s.queued && !Safe(defaults, s)
    ensures Admitted(s.res.spec, Defeat(s)) && !EndsWell(defaults, s, Defeat(s))
  {
    DefeatAdmitted(s);
    var rounds := Defeat(s);
    hide Tick, Slips, Tolerable, Bearable;
    if s.res.Guarded() {
      CalmSlip(defaults, s);
      assert rounds[0] == CALM;
    } else {
      BusyTick(defaults, s);
      CalmSlip(defaults, s.(res := Guard(s.res)));
      assert rounds[0] == BUSY && rounds[1..] == CalmRounds(6) && CalmRounds(6)[0] == CALM;
      SlipsOnward(defaults, s, rounds);
    }
    Converges(defaults, s, rounds);
  }

  /** Exactly when convergence is certain with every patch delivered: all tolerable schedules, faults included, end
      well if and only if the loop does not start with a domain that is marked as created, whose record is gone
      and whose alternatives differ from the server's default. */
  lemma ConvergesExactly(defaults: Record, s: State)
    requires Sound(defaults, s) && s.queued
    ensures (forall rounds :: Admitted(s.res.spec, rounds) ==> EndsWell(defaults, s, rounds)) <==> Safe(defaults, s)
  {
    hide Tick, Safe;
    if Safe(defaults, s) {
      forall rounds | Admitted(s.res.spec, rounds)
        ensures EndsWell(defaults, s, rounds)
      {
        NoSlip(defaults, s, rounds);
        Converges(defaults, s, rounds);
      }
    } else {
      Defeated(defaults, s);
    }
  }

  // ---------- with others at work between reconciles ----------

  /** Schedules as admitted before, but others may also change, create or delete the record between two rounds. */
  predicate Crowded(spec: Spec, rounds: seq<Round>)
  {
    && (forall r <- rounds :: Endurable(spec.Kind(), r.w) && Delivered(r))
    && |rounds| >= 4 * Faults(spec, rounds) + 3
  }

  /** No domain asks for alternatives that the server would not set by itself. */
  predicate Contented(defaults: Record, spec: Spec)
  {
    spec.DomainSpec? ==> DefaultAlternatives(defaults, spec)
  }

  lemma ContentedTick(defaults: Record, s: State, r: Round)
    requires Sound(defaults, s) && s.queued && Endurable(s.res.spec.Kind(), r.w) && Contented(defaults, s.res.spec)
    ensures var t := Tick(defaults, s, r);
            !Slips(defaults, s, r) && Sound(defaults, t) && Contented(defaults, t.res.spec)
  {
    LookedUp(defaults, s, r.w);
    BearableTick(defaults, s, r);
    hide Tick, Served, UpdateBody, Decode, Reflected, Readable;
  }

  lemma {:induction false} NoSlipCrowded(defaults: Record, s: State, rounds: seq<Round>)
    requires Sound(defaults, s) && AllBearable(s.res.spec.Kind(), rounds) && Contented(defaults, s.res.spec)
    requires forall r <- rounds :: Endurable(s.res.spec.Kind(), r.w)
    ensures !SlipsSomewhere(defaults, s, rounds)
    decreases |rounds|
  {
    hide Slips, Tick, Endurable, Bearable, Contented, Sound;
    if rounds != [] && s.queued {
      assert rounds[0] in rounds && forall r <- rounds[1..] :: r in rounds;
      Onward(defaults, s, rounds);
      SlipsOnward(defaults, s, rounds);
      ContentedTick(defaults, s, rounds[0]);
      NoSlipCrowded(defaults, Tick(defaults, s, rounds[0]), rounds[1..]);
    }
  }

  /** Somebody deletes the record just before the look-up of a round that is calm otherwise. */
  const BEREFT := Round(CALM.w.(find := Link(Overwrite(None), Clear)), true, true)

  lemma BereftFacts(defaults: Record, s: State)
    requires Sound(defaults, s) && s.res.spec.DomainSpec?
    ensures Endurable(DomainKind, BEREFT.w) && Bearable(DomainKind, BEREFT.w) && Delivered(BEREFT)
    ensures Seen(defaults, s.res, s.remote, BEREFT.w) == (None, Missing)
  {
    hide Decode;
  }

  /** Such a round creates a domain anew: it slips, or marks the domain as created and queues it again. */
  lemma BereftTick(defaults: Record, s: State)
    requires Sound(defaults, s) && s.queued && s.res.spec.DomainSpec? && !DefaultAlternatives(defaults, s.res.spec)
    ensures var t := Tick(defaults, s, BEREFT);
            && (Slips(defaults, s, BEREFT) <==> s.res.Guarded() && s.res.Ready() == Some(Created(DomainKind)))
            && Sound(defaults, t) && t.res.spec == s.res.spec
            && t.res.Guarded() && t.res.Ready() == Some(Created(DomainKind))
            && (!Slips(defaults, s, BEREFT) ==> t.queued)
  {
    BereftFacts(defaults, s);
    BearableTick(defaults, s, BEREFT);
    TickActs(defaults, s, BEREFT);
    var step := CreateStep(defaults, Guard(s.res), None, BEREFT.w);
    DomainCreated(defaults, Guard(s.res), BEREFT.w);
    SavedDelivered(s.res, step.res, BEREFT);
    SetThenFind(s.res.conditions, Created(DomainKind));
    hide Tick, Seen, CreateStep, Saved, DefaultAlternatives, UpdateBody, Reflected, Sound, Converged, SetCondition,
         FindCondition;
  }

  function Robbery(): seq<Round> { [BEREFT, BEREFT] + CalmRounds(9) }

  lemma RobberyCrowded(defaults: Record, s: State)
    requires Sound(defaults, s) && s.res.spec.DomainSpec?
    ensures Crowded(s.res.spec, Robbery()) && AllBearable(DomainKind, Robbery())
  {
    CalmForDomains(s.res.spec, 9);
    BereftFacts(defaults, s);
    var rest := [BEREFT] + CalmRounds(9);
    assert Robbery()[1..] == rest && rest[1..] == CalmRounds(9);
    hide CalmRounds, Calm;
    assert Faults(s.res.spec, rest) <= 1;
    assert Faults(s.res.spec, Robbery()) <= 2;
    assert forall r <- Robbery() :: Endurable(DomainKind, r.w) && Delivered(r);
  }

  lemma Robbed(defaults: Record, s: State)
    requires Sound(defaults, s) && s.queued && !Contented(defaults, s.res.spec)
    ensures Crowded(s.res.spec, Robbery()) && !EndsWell(defaults, s, Robbery())
  {
    RobberyCrowded(defaults, s);
    var rounds := Robbery();
    hide Tick, Slips, Endurable, Bearable, CalmRounds, DefaultAlternatives, FindCondition, Crowded, Sound;
    assert rounds[0] == BEREFT && rounds[1..][0] == BEREFT;
    BereftTick(defaults, s);
    SlipsOnward(defaults, s, rounds);
    if !Slips(defaults, s, BEREFT) {
      var t := Tick(defaults, s, BEREFT);
      BereftTick(defaults, t);
      SlipsOnward(defaults, t, rounds[1..]);
    }
    Converges(defaults, s, rounds);
  }

  /** Exactly when convergence is certain although others may touch the record at any time: for aliases and users
      always, for domains if and only if the server sets the wanted alternatives by itself. */
  lemma ConvergesCrowded(defaults: Record, s: State)
    requires Sound(defaults, s) && s.queued
    ensures (forall rounds :: Crowded(s.res.spec, rounds) ==> EndsWell(defaults, s, rounds))
            <==> Contented(defaults, s.res.spec)
  {
    hide Tick, Contented;
    if Contented(defaults, s.res.spec) {
      forall rounds | Crowded(s.res.spec, rounds)
        ensures EndsWell(defaults, s, rounds)
      {
        NoSlipCrowded(defaults, s, rounds);
        Converges(defaults, s, rounds);
      }
    } else {
      Robbed(defaults, s);
    }
  }

  // ---------- runs that end badly ----------

  /** A lost status patch is enough: a domain is created, its condition is not stored, and by itself nothing queues it
      again to have its alternatives sent. */
  lemma LostStatusPatch(defaults: Record, s: State)
    requires Sound(defaults, s) && s.queued && s.res.spec.DomainSpec? && s.res.Guarded() && s.remote.None?
    requires !DefaultAlternatives(defaults, s.res.spec)
    ensures var t := Tick(defaults, s, CALM.(statusOk := false));
            !t.queued && t.res.spec == s.res.spec && !Converged(t)
  {
    hide DefaultAlternatives, FindCondition, Tick, UpdateBody, Reflected, Decode;
    BearableTick(defaults, s, CALM.(statusOk := false));
  }

  lemma DomainBorn(defaults: Record, s: State)
    requires Sound(defaults, s) && s.queued && s.res.spec.DomainSpec? && s.remote.None? && !AtRisk(s)
    ensures var t := Tick(defaults, s, CALM);
            && Sound(defaults, t) && t.queued && t.remote.Some? && t.res.spec == s.res.spec && t.res.Guarded()
            && t.res.Ready() == Some(Created(DomainKind))
  {
    hide Tick, Slips, Converged, UpdateBody, CreateBody, Reflected, SetCondition, FindCondition, Stored;
    FairTick(defaults, s, CALM);
    SetThenFind(s.res.conditions, Created(DomainKind));
    BearableTick(defaults, s, CALM);
    hide Sound;
  }

  /** With every patch delivered: a new domain is created; another client deletes its record before the look-up of
      the second reconcile; that one creates it again and, as Ready says Created already, lets the resource sleep
      without its alternatives until something else queues it. */
  lemma AlternativesLost(defaults: Record, s: State)
    requires Sound(defaults, s) && s.queued && s.res.spec.DomainSpec? && s.remote.None? && !AtRisk(s)
    requires !DefaultAlternatives(defaults, s.res.spec)
    ensures var created := Tick(defaults, s, CALM);
            var end := Tick(defaults, created, BEREFT);
            && created.queued && created.remote.Some?
            && !end.queued && end.res.spec == s.res.spec && !Converged(end)
  {
    DomainBorn(defaults, s);
    var created := Tick(defaults, s, CALM);
    BereftTick(defaults, created);
    BereftFacts(defaults, created);
    BearableTick(defaults, created, BEREFT);
    hide Tick, DefaultAlternatives, Converged, FindCondition, Slips;
  }

  /** Whatever queues a slipped domain again heals it, if the rounds that follow are calm. */
  lemma SlippedHeals(defaults: Record, s: State, r1: Round, r2: Round, r3: Round)
    requires Sound(defaults, s) && s.remote.Some?
    requires Calm(s.res.spec, r1) && Calm(s.res.spec, r2) && Calm(s.res.spec, r3)
    ensures EndsWell(defaults, s.(queued := true), [r1, r2, r3])
  {
    var again := s.(queued := true);
    assert Sound(defaults, again);
    RecordIsSafe(defaults, again);
    CalmExactly(defaults, again, r1, r2, r3);
  }

  /** Such a start exists. */
  const NEW_DOMAIN := State(Resource([], false,
      DomainSpec("example.org", "", -1, -1, 0, false, Some(["mail.example.org"])), []),
                            None, true)

  lemma NewDomain()
    ensures var defaults: Record := map[Alternatives := List([])];
            && Sound(defaults, NEW_DOMAIN) && !AtRisk(NEW_DOMAIN)
            && !DefaultAlternatives(defaults, NEW_DOMAIN.res.spec)
  {
    assert Schema(DomainKind)[0] == Alternatives;
    assert List(["mail.example.org"]) != List([]) by {
      assert |["mail.example.org"]| == 1;
    }
  }

  // ---------- quiescence ----------

  lemma CalmTicked(defaults: Record, s: State, r: Round)
    requires Sound(defaults, s) && Calm(s.res.spec, r)
    ensures var t := Tick(defaults, s, r);
            && Sound(defaults, t) && PasswordFilled(s.res.spec, t.res.spec)
            && (s.queued ==> Rank(t) < Rank(s) && t.remote.Some? && (s.remote.Some? && t.queued ==> Settled(t)))
            && (s.queued && s.remote.Some? && Settled(s) ==> t == s.(queued := false))
  {
    hide Settled, Slips, Tick;
    if s.queued {
      CalmIsFair(s.res.spec, r);
      BearableTick(defaults, s, r);
      Progress(defaults, s, r);
    } else {
      AsleepTick(defaults, s, r);
    }
  }

  /** Quiescence: undisturbed, the self-triggered loop ends within three reconciles, and the third changes
      neither the resource nor the record. */
  lemma Quiescent(defaults: Record, s: State, r1: Round, r2: Round, r3: Round)
    requires Sound(defaults, s) && s.queued
    requires Calm(s.res.spec, r1) && Calm(s.res.spec, r2) && Calm(s.res.spec, r3)
    ensures var s2 := Tick(defaults, Tick(defaults, s, r1), r2);
            Tick(defaults, s2, r3) == s2.(queued := false)
  {
    hide Tick, Sound, Calm, Settled, Rank, PasswordFilled;
    var s1 := Tick(defaults, s, r1);
    var s2 := Tick(defaults, s1, r2);
    CalmTicked(defaults, s, r1);
    CalmIgnoresPassword(s.res.spec, s1.res.spec, r2);
    CalmTicked(defaults, s1, r2);
    CalmIgnoresPassword(s.res.spec, s1.res.spec, r3);
    CalmIgnoresPassword(s1.res.spec, s2.res.spec, r3);
    CalmTicked(defaults, s2, r3);
    if !s1.queued {
      AsleepTick(defaults, s1, r2);
    }
    if !s2.queued {
      AsleepTick(defaults, s2, r3);
    }
  }

  lemma CalmSlips(defaults: Record, s: State, r: Round)
    requires Sound(defaults, s) && Calm(s.res.spec, r)
    ensures Slips(defaults, s, r) <==> !Safe(defaults, s) && s.res.Guarded()
  {
    CalmIsFair(s.res.spec, r);
    FairSeen(defaults, s, r.w);
    hide Seen, DefaultAlternatives, FindCondition, Converged;
  }

  /** Undisturbed, a loop stops early exactly if it is unsafe from the start and has its finalizer. */
  lemma CalmExactly(defaults: Record, s: State, r1: Round, r2: Round, r3: Round)
    requires Sound(defaults, s) && s.queued
    requires Calm(s.res.spec, r1) && Calm(s.res.spec, r2) && Calm(s.res.spec, r3)
    ensures EndsWell(defaults, s, [r1, r2, r3]) <==> Safe(defaults, s) || !s.res.Guarded()
  {
    var rounds, rest := [r1, r2, r3], [r2, r3];
    assert rounds[1..] == rest && rest[1..] == [r3] && [r3][1..] == [];
    var spec := s.res.spec;
    assert Faults(spec, []) == 0;
    assert Faults(spec, [r3]) == 0;
    assert Faults(spec, rest) == 0;
    CalmIsFair(spec, r1);
    CalmIsFair(spec, r2);
    CalmIsFair(spec, r3);
    hide Tick, Tolerable, Bearable, Slips, Safe, Calm, PasswordFilled;
    TolerableIsBearable(spec.Kind(), rounds);
    CalmTicked(defaults, s, r1);
    CalmSlips(defaults, s, r1);
    SlipsOnward(defaults, s, rounds);
    var t := Tick(defaults, s, r1);
    RecordIsSafe(defaults, t);
    NoSlip(defaults, t, rest);
    Converges(defaults, s, rounds);
  }

  lemma TolerableIsBearable(kind: Kind, rounds: seq<Round>)
    requires forall r <- rounds :: Tolerable(kind, r.w)
    ensures AllBearable(kind, rounds)
  {
  }

  lemma RecordIsSafe(defaults: Record, s: State)
    requires Sound(defaults, s) && s.remote.Some?
    ensures Safe(defaults, s)
  {
  }
}
