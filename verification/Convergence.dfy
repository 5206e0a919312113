/** A live resource with a frozen spec, reconciled until its queue entry is used up. */
module Convergence {
  import opened Common
  import opened Json
  import opened Wire
  import opened Resources
  import opened Protocol
  import opened Steps
  import opened Managed
  import opened WorkQueue
  import Dates
  import Runs

  /** The loop of `WorkQueue` while the resource is there. */
  datatype State = State(res: Resource, remote: Option<Record>, queued: bool)

  function Tick(defaults: Record, s: State, r: Round): State
  {
    if !s.queued then s
    else
      var step := Reconcile(defaults, s.res, s.remote, r.w);
      var saved := Saved(s.res, step.res, r);
      State(saved, step.remote, step.outcome != Done || saved != s.res)
  }

  function Ticks(defaults: Record, s: State, rounds: seq<Round>): State
    decreases |rounds|
  {
    if rounds == [] then s else Ticks(defaults, Tick(defaults, s, rounds[0]), rounds[1..])
  }

  function AsLoop(s: State): Loop { Loop(Runs.World(Some(s.res), s.remote), s.queued) }

  /** A tick of a live resource is a turn of the loop, hence a move of the run model. */
  lemma TickIsTurn(defaults: Record, s: State, r: Round)
    requires !s.res.deleting
    ensures Turn(defaults, AsLoop(s), r) == AsLoop(Tick(defaults, s, r))
  {
    if s.queued {
      TurnSaves(defaults, AsLoop(s), r);
      hide Reconcile, Turn;
    }
  }

  lemma {:induction false} TicksAreTurns(defaults: Record, s: State, rounds: seq<Round>)
    requires !s.res.deleting
    ensures Turns(defaults, AsLoop(s), rounds) == AsLoop(Ticks(defaults, s, rounds))
    decreases |rounds|
  {
    hide Reconcile, Turn;
    if rounds != [] {
      TickIsTurn(defaults, s, rounds[0]);
      TicksAreTurns(defaults, Tick(defaults, s, rounds[0]), rounds[1..]);
    }
  }

  // ---------- what the theorems assume ----------

  predicate Int64(n: int) { -0x8000_0000_0000_0000 <= n < 0x8000_0000_0000_0000 }

  /** A spec the API server can hold: Go integers, a non-nil list (the CRD default), possible dates, a name. */
  predicate Proper(spec: Spec)
  {
    && spec.DatesParse() && spec.List().Some? && spec.Key() != ""
    && (spec.DomainSpec? ==> Int64(spec.maxUsers) && Int64(spec.maxAliases) && Int64(spec.maxQuotaBytes))
    && (spec.UserSpec? ==> Int64(spec.quotaBytes) && Int64(spec.spamThreshold))
  }

  predicate Readable(kind: Kind, remote: Option<Record>)
  {
    remote.Some? ==> Decode(kind, remote.value).Some?
  }

  predicate Sound(defaults: Record, s: State)
  {
    && !s.res.deleting && Proper(s.res.spec)
    && Readable(s.res.spec.Kind(), Some(defaults)) && Readable(s.res.spec.Kind(), s.remote)
  }

  /** Disturbances: look-ups that fail, refusals of a write whether or not it took effect, a missing password, and
      others changing, creating or deleting the record before the look-up or before the write. */
  predicate Bearable(kind: Kind, w: Weather)
  {
    && Honest(kind, w)
    && (w.find.before.Overwrite? ==> Readable(kind, w.find.before.remote))
    && (w.write.before.Overwrite? ==> Readable(kind, w.write.before.remote))
  }

  /** The same, with look-ups that fail for a retry only. */
  predicate Endurable(kind: Kind, w: Weather)
  {
    && Bearable(kind, w)
    && (w.find.fate.Disturbed? ==> !LookupFailedForGood(ReadFind(kind, w.find.fate.answer)))
  }

  /** The same again, and nobody touches the record between two reconciles. */
  predicate Tolerable(kind: Kind, w: Weather)
  {
    Endurable(kind, w) && w.find.before.Nothing?
  }

  /** In terms of answers: a look-up is disturbed by the gateway, by a body that cannot be read, or by a 200 that
      cannot be decoded; a write by anything that is no success of any write. Whether the requests took effect
      does not matter. */
  lemma Disturbances(kind: Kind, find: Response, seen: bool, write: Response, written: bool, supply: Supply)
    ensures Tolerable(kind,
                      Weather(Link(Nothing, Disturbed(seen, find)), Link(Nothing, Disturbed(written, write)), supply))
            <==>
            && (FromGateway(find) || (find.Response? && find.body.Unreadable?)
                || (find.Response? && find.code == 200
                    && (find.body.Garbage? || (find.body.Document? && Decode(kind, find.body.record).None?))))
            && (write.TransportError? || write.body.Unreadable? || write.code !in {200, 201, 204, 404})
  {
    hide Decode;
  }

  predicate Fair(spec: Spec, w: Weather)
  {
    && w.find == Link(Nothing, Clear) && w.write == Link(Nothing, Clear)
    && WithPassword(spec, w.supply).Success?
  }

  predicate Delivered(r: Round) { r.metaOk && r.statusOk }

  function Wanted(spec: Spec): Record
    requires spec.DatesParse()
  {
    UpdateBody(spec).value
  }

  predicate Converged(s: State)
  {
    Reflected(s.res.spec, s.remote)
  }

  // ---------- records stay readable ----------

  lemma DateDecodes(f: Field, text: string)
    requires TypeOf(f).FullDate? && DateValue(text).Some?
    ensures Decodes(f, DateValue(text).value)
  {
    Dates.ParseFormat(Dates.Parse(text).value);
  }

  lemma UserFieldDecodes(spec: Spec, f: Field)
    requires spec.UserSpec? && Int64(spec.quotaBytes) && Int64(spec.spamThreshold) && UserField(spec, f).Some?
    ensures Decodes(f, UserField(spec, f).value)
  {
    hide DateValue;
    if f == ReplyStartDate {
      DateDecodes(f, spec.replyStartDate);
    } else if f == ReplyEndDate {
      DateDecodes(f, spec.replyEndDate);
    }
  }

  lemma FieldDecodes(spec: Spec, f: Field)
    requires Proper(spec) && FieldFromSpec(spec, f).Some?
    ensures Decodes(f, FieldFromSpec(spec, f).value)
  {
    if spec.UserSpec? {
      UserFieldDecodes(spec, f);
      hide UserField, Decodes;
    }
  }

  lemma BodiesDecode(spec: Spec, f: Field)
    requires Proper(spec)
    ensures UpdateBody(spec).Success? && CreateBody(spec).Success?
    ensures f in UpdateBody(spec).value ==> Decodes(f, UpdateBody(spec).value[f])
    ensures f in Stored(CreateBody(spec).value) ==> Decodes(f, Stored(CreateBody(spec).value)[f])
  {
    hide FieldFromSpec, Schema;
    if FieldFromSpec(spec, f).Some? {
      FieldDecodes(spec, f);
    }
    if f == Password && RawPassword in CreateBody(spec).value {
      FieldDecodes(spec, RawPassword);
    }
  }

  /** A record written from a proper spec can be read back. */
  lemma WrittenReadable(defaults: Record, spec: Spec, r: Record)
    requires Proper(spec) && Readable(spec.Kind(), Some(r)) && Readable(spec.Kind(), Some(defaults))
    ensures UpdateBody(spec).Success? && CreateBody(spec).Success?
    ensures Readable(spec.Kind(), Some(r + UpdateBody(spec).value))
    ensures Readable(spec.Kind(), Some(defaults + Stored(CreateBody(spec).value)))
  {
    hide UpdateBody, CreateBody, Stored, Schema, Decodes;
    forall f: Field
      ensures UpdateBody(spec).Success? && CreateBody(spec).Success?
      ensures f in UpdateBody(spec).value ==> Decodes(f, UpdateBody(spec).value[f])
      ensures f in Stored(CreateBody(spec).value) ==> Decodes(f, Stored(CreateBody(spec).value)[f])
    {
      BodiesDecode(spec, f);
    }
    BodiesDecode(spec, Comment);
  }

  lemma ServedReadable(defaults: Record, spec: Spec, remote: Option<Record>, q: Request, link: Link)
    requires Proper(spec) && Readable(spec.Kind(), Some(defaults)) && Readable(spec.Kind(), remote)
    requires link.before.Overwrite? ==> Readable(spec.Kind(), link.before.remote)
    requires UpdateBody(spec).Success? && CreateBody(spec).Success?
    requires q == Create(spec.Key(), CreateBody(spec).value) || q == Update(spec.Key(), UpdateBody(spec).value)
    ensures Readable(spec.Kind(), Served(defaults, remote, q, link).0)
  {
    hide UpdateBody, CreateBody, Decode, Stored;
    var now := Meddled(remote, link.before);
    WrittenReadable(defaults, spec, if now.Some? then now.value else defaults);
    if now.Some? {
      UpdatedAgrees(spec, now.value);
    }
  }

  // ---------- one tick ----------

  lemma ProperFilled(a: Spec, b: Spec)
    requires Proper(a) && PasswordFilled(a, b)
    ensures Proper(b) && b.Kind() == a.Kind() && b.Key() == a.Key() && Wanted(b) == Wanted(a)
  {
    UpdateBodyIgnoresPassword(a, b);
  }

  lemma CreateReadable(defaults: Record, res: Resource, remote: Option<Record>, w: Weather)
    requires Proper(res.spec) && Readable(res.spec.Kind(), Some(defaults)) && Readable(res.spec.Kind(), remote)
    requires Bearable(res.spec.Kind(), w)
    ensures Readable(res.spec.Kind(), CreateStep(defaults, res, remote, w).remote)
  {
    hide Readable, ReadCreate, CreateBody, Served, Honest, SetCondition;
    if WithPassword(res.spec, w.supply).Success? {
      var spec := WithPassword(res.spec, w.supply).value;
      ProperFilled(res.spec, spec);
      BodiesDecode(spec, Comment);
      if CreateBody(spec).Success? {
        ServedReadable(defaults, spec, remote, Create(spec.Key(), CreateBody(spec).value), w.write);
      }
    }
  }

  lemma UpdateReadable(defaults: Record, res: Resource, remote: Option<Record>, found: Record, w: Weather)
    requires Proper(res.spec) && Readable(res.spec.Kind(), Some(defaults)) && Readable(res.spec.Kind(), remote)
    requires Bearable(res.spec.Kind(), w)
    ensures Readable(res.spec.Kind(), UpdateStep(defaults, res, remote, found, w).remote)
  {
    hide Readable, ReadUpdate, UpdateBody, CreateBody, Served, Honest, SetCondition, MarshalStruct, Decode, Masked,
         FieldFromSpec, Int64;
    BodiesDecode(res.spec, Comment);
    ServedReadable(defaults, res.spec, remote, Update(res.spec.Key(), UpdateBody(res.spec).value), w.write);
  }

  /** How the look-up of a bearable tick goes: it tells the truth or fails. */
  lemma LookedUp(defaults: Record, s: State, w: Weather)
    requires Sound(defaults, s) && Bearable(s.res.spec.Kind(), w)
    ensures var (now, found) := Seen(defaults, s.res, s.remote, w);
            && now == Meddled(s.remote, w.find.before) && Readable(s.res.spec.Kind(), now)
            && (found.FindFailed? ==>
                  w.find.fate.Disturbed? && found == ReadFind(s.res.spec.Kind(), w.find.fate.answer))
            && (found.Missing? ==> now.None? && w.find.fate.Clear?)
            && (found.FoundRecord? ==>
                  now.Some? && found.record == Decode(s.res.spec.Kind(), now.value).value)
  {
    hide Decode;
  }

  /** The server's default for alternatives happens to be the wanted one. */
  predicate DefaultAlternatives(defaults: Record, spec: Spec)
    requires spec.DomainSpec?
  {
    ShowsList(defaults, Alternatives, spec.alternatives)
  }

  lemma CreatedExactly(defaults: Record, spec: Spec)
    requires spec.DomainSpec?
    ensures UpdateBody(spec).Success? && CreateBody(spec).Success?
    ensures Reflected(spec, Some(defaults + Stored(CreateBody(spec).value))) <==> DefaultAlternatives(defaults, spec)
  {
    hide FieldFromSpec, MirrorsDomain;
    var r := defaults + Stored(CreateBody(spec).value);
    CreatedAgrees(defaults, spec);
    AgreeingMirrors(spec, r);
    assert Alternatives !in Stored(CreateBody(spec).value);
  }

  // ---------- when the loop sleeps ----------

  /** Nothing that a reconcile stores would change: it adds the finalizer and sets condition `c`, and each is there
      already or its patch is lost. */
  predicate Unchanged(res: Resource, r: Round, c: Condition)
  {
    (res.Guarded() || !r.metaOk) && (res.Ready() == Some(c) || !r.statusOk)
  }

  /** A domain's record is created in this round: the look-up misses it, and nothing comes in between. */
  predicate CreatesDomain(res: Resource, found: Found, w: Weather)
  {
    res.spec.DomainSpec? && found.Missing? && w.write.fate.Clear? && Meddled(None, w.write.before).None?
  }

  /** The two ways in which a round lets a resource sleep too early: its look-up fails for good, or a domain is
      created without its alternatives, and either way nothing that is stored changes. */
  predicate Slips(defaults: Record, s: State, r: Round)
  {
    var kind := s.res.spec.Kind();
    var (now, found) := Seen(defaults, s.res, s.remote, r.w);
    || (LookupFailedForGood(found) && Unchanged(s.res, r, Failed(kind, found.error))
        && !Reflected(s.res.spec, now))
    || (CreatesDomain(s.res, found, r.w) && Unchanged(s.res, r, Created(kind))
        && !DefaultAlternatives(defaults, s.res.spec))
  }

  /** What is stored is what was there, exactly when `Unchanged` says so. */
  lemma SavedUnchanged(res: Resource, r: Round, c: Condition)
    requires c.ctype == ReadyType(res.spec.Kind())
    ensures var after := res.(finalizers := AddFinalizer(res.finalizers)).SetReady(c);
            Saved(res, after, r) == res <==> Unchanged(res, r, c)
  {
    SetThenFind(res.conditions, c);
    assert |res.finalizers + [FINALIZER]| == |res.finalizers| + 1;
    hide SetCondition, FindCondition;
  }

  /** Of a look-up that fails for good a live resource sleeps exactly if nothing it stores would change. */
  lemma FailedLookup(defaults: Record, s: State, r: Round)
    requires s.queued && !s.res.deleting && LookupFailedForGood(Seen(defaults, s.res, s.remote, r.w).1)
    ensures var (now, found) := Seen(defaults, s.res, s.remote, r.w);
            var t := Tick(defaults, s, r);
            && (!t.queued <==> Unchanged(s.res, r, Failed(s.res.spec.Kind(), found.error)))
            && t.remote == now && t.res.spec == s.res.spec
            && (t.res.Ready() == Some(Failed(s.res.spec.Kind(), found.error)) || !r.statusOk)
  {
    var guarded := s.res.(finalizers := AddFinalizer(s.res.finalizers));
    var (now, found) := Seen(defaults, guarded, s.remote, r.w);
    var c := Failed(s.res.spec.Kind(), found.error);
    assert Act(defaults, guarded, now, found, r.w) == Step(guarded.SetReady(c), now, Done, []);
    SavedUnchanged(s.res, r, c);
    SetThenFind(s.res.conditions, c);
    hide Act, Served, ReadFind, Unchanged, SetCondition, FindCondition;
  }

  lemma CreateAccepted(defaults: Record, key: string, body: Record, w: Weather)
    requires Honest(DomainKind, w)
    ensures var (after, r) := Served(defaults, None, Create(key, body), w.write);
            && (ReadCreate(r) == Accepted <==> w.write.fate.Clear? && Meddled(None, w.write.before).None?)
            && (ReadCreate(r) == Accepted ==> after == Some(defaults + Stored(body)))
  {
    hide ReadFind, ReadUpdate, ReadDelete, Stored;
  }

  /** A domain's create ends well exactly if nothing disturbs it, and leaves an unconverged record unless the
      default alternatives fit. */
  lemma DomainCreated(defaults: Record, res: Resource, w: Weather)
    requires Honest(DomainKind, w) && res.spec.DomainSpec?
    ensures var s := CreateStep(defaults, res, None, w);
            && (s.outcome == Done <==> w.write.fate.Clear? && Meddled(None, w.write.before).None?)
            && (s.outcome == Done ==>
                  && s.res == res.SetReady(Created(DomainKind))
                  && (Reflected(res.spec, s.remote) <==> DefaultAlternatives(defaults, res.spec)))
  {
    hide UpdateBody, CreateBody, SetCondition, Stored, Reflected, Honest, DefaultAlternatives, Served, ReadCreate,
         Meddled;
    CreatedExactly(defaults, res.spec);
    CreateAccepted(defaults, res.spec.Key(), CreateBody(res.spec).value, w);
  }

  function Guard(res: Resource): Resource { res.(finalizers := AddFinalizer(res.finalizers)) }

  function After(s: State, step: Step, r: Round): State
  {
    var saved := Saved(s.res, step.res, r);
    State(saved, step.remote, step.outcome != Done || saved != s.res)
  }

  /** A tick is what follows its look-up. */
  lemma TickActs(defaults: Record, s: State, r: Round)
    requires s.queued && !s.res.deleting
    ensures var (now, found) := Seen(defaults, s.res, s.remote, r.w);
            Tick(defaults, s, r) == After(s, Act(defaults, Guard(s.res), now, found, r.w), r)
  {
    hide Act, Served, ReadFind, Saved;
  }

  /** What `BearableTick` says of a tick. */
  predicate SleepsTruly(defaults: Record, s: State, r: Round, t: State)
    requires Proper(s.res.spec)
  {
    && Sound(defaults, t) && PasswordFilled(s.res.spec, t.res.spec)
    && (!t.queued && !Converged(t) <==> Slips(defaults, s, r))
  }

  lemma AfterKept(defaults: Record, s: State, step: Step, r: Round)
    requires Sound(defaults, s) && Kept(Guard(s.res), step.res) && Readable(s.res.spec.Kind(), step.remote)
    ensures var t := After(s, step, r);
            && Sound(defaults, t) && PasswordFilled(s.res.spec, t.res.spec)
            && (Converged(t) <==> Reflected(s.res.spec, t.remote))
  {
    hide Readable, Proper, UpdateBody, Reflected;
    ProperFilled(s.res.spec, step.res.spec);
    ReflectedFilled(s.res.spec, After(s, step, r).res.spec, step.remote);
  }

  lemma MissingSlip(defaults: Record, s: State, r: Round)
    requires Sound(defaults, s) && Bearable(s.res.spec.Kind(), r.w)
    requires Seen(defaults, s.res, s.remote, r.w).1.Missing?
    ensures Seen(defaults, s.res, s.remote, r.w).0.None?
    ensures Slips(defaults, s, r) <==>
            && s.res.spec.DomainSpec? && r.w.write.fate.Clear? && Meddled(None, r.w.write.before).None?
            && Unchanged(s.res, r, Created(DomainKind)) && !DefaultAlternatives(defaults, s.res.spec)
  {
    LookedUp(defaults, s, r.w);
    hide Unchanged, DefaultAlternatives, UpdateBody, Reflected, Decode, Seen;
  }

  lemma MissingDomain(defaults: Record, s: State, r: Round)
    requires Sound(defaults, s) && s.queued && Bearable(DomainKind, r.w) && s.res.spec.DomainSpec?
    requires Seen(defaults, s.res, s.remote, r.w).1.Missing?
    ensures var t := After(s, CreateStep(defaults, Guard(s.res), None, r.w), r);
            !t.queued && !Reflected(s.res.spec, t.remote) <==> Slips(defaults, s, r)
  {
    MissingSlip(defaults, s, r);
    DomainCreated(defaults, Guard(s.res), r.w);
    SavedUnchanged(s.res, r, Created(DomainKind));
    hide CreateStep, Saved, Readable, UpdateBody, Reflected, Seen, Slips, Unchanged, DefaultAlternatives, SetCondition;
  }

  /** A create or update that ends well leaves a record that shows the spec. */
  lemma CreateReflects(defaults: Record, res: Resource, w: Weather)
    requires Proper(res.spec) && Honest(res.spec.Kind(), w) && !res.spec.DomainSpec?
    ensures var s := CreateStep(defaults, res, None, w); s.outcome == Done ==> Reflected(res.spec, s.remote)
  {
    hide CreateStep, UpdateBody, Agrees, Reflected;
    CreateSound(defaults, res, w);
    ReflectedAgrees(res.spec, CreateStep(defaults, res, None, w).remote);
  }

  lemma UpdateReflects(defaults: Record, res: Resource, remote: Record, w: Weather)
    requires Proper(res.spec) && Honest(res.spec.Kind(), w) && Decode(res.spec.Kind(), remote).Some?
    ensures var s := UpdateStep(defaults, res, Some(remote), Decode(res.spec.Kind(), remote).value, w);
            s.outcome == Done ==> Reflected(res.spec, s.remote) && s.res.Ready() == Some(Updated(res.spec.Kind()))
  {
    hide UpdateStep, UpdateBody, Agrees, Reflected, Decode, FindCondition, Honest;
    UpdateSound(defaults, res, remote, w);
    ReflectedAgrees(res.spec, UpdateStep(defaults, res, Some(remote), Decode(res.spec.Kind(), remote).value, w).remote);
  }

  lemma MissingTick(defaults: Record, s: State, r: Round)
    requires Sound(defaults, s) && s.queued && Bearable(s.res.spec.Kind(), r.w)
    requires Seen(defaults, s.res, s.remote, r.w).1.Missing?
    ensures SleepsTruly(defaults, s, r, Tick(defaults, s, r))
  {
    MissingSlip(defaults, s, r);
    TickActs(defaults, s, r);
    ActKeeps(defaults, Guard(s.res), None, Missing, r.w);
    var step := CreateStep(defaults, Guard(s.res), None, r.w);
    CreateReadable(defaults, Guard(s.res), None, r.w);
    hide CreateStep, Saved, Readable, UpdateBody, Reflected, Served, ReadFind, Kept, Unchanged, Tick, Slips, Proper;
    AfterKept(defaults, s, step, r);
    if s.res.spec.DomainSpec? {
      MissingDomain(defaults, s, r);
    } else {
      CreateReflects(defaults, Guard(s.res), r.w);
    }
  }

  lemma FoundTick(defaults: Record, s: State, r: Round)
    requires Sound(defaults, s) && s.queued && Bearable(s.res.spec.Kind(), r.w)
    requires Seen(defaults, s.res, s.remote, r.w).1.FoundRecord?
    ensures SleepsTruly(defaults, s, r, Tick(defaults, s, r))
  {
    var (now, found) := Seen(defaults, s.res, s.remote, r.w);
    LookedUp(defaults, s, r.w);
    TickActs(defaults, s, r);
    ActKeeps(defaults, Guard(s.res), now, found, r.w);
    var step := UpdateStep(defaults, Guard(s.res), now, found.record, r.w);
    UpdateReadable(defaults, Guard(s.res), now, found.record, r.w);
    UpdateReflects(defaults, Guard(s.res), now.value, r.w);
    hide UpdateStep, Saved, Readable, Proper, UpdateBody, Reflected, Seen, Kept, Unchanged, Decode;
    AfterKept(defaults, s, step, r);
  }

  lemma FailedTick(defaults: Record, s: State, r: Round)
    requires Sound(defaults, s) && s.queued && Bearable(s.res.spec.Kind(), r.w)
    requires Seen(defaults, s.res, s.remote, r.w).1.FindFailed?
    ensures SleepsTruly(defaults, s, r, Tick(defaults, s, r))
  {
    var (now, found) := Seen(defaults, s.res, s.remote, r.w);
    LookedUp(defaults, s, r.w);
    TickActs(defaults, s, r);
    ActKeeps(defaults, Guard(s.res), now, found, r.w);
    var step := Act(defaults, Guard(s.res), now, found, r.w);
    AfterKept(defaults, s, step, r);
    if !found.retry {
      FailedLookup(defaults, s, r);
    }
    hide Tick, Saved, Readable, Proper, UpdateBody, Reflected, Seen, Kept, Unchanged, Decode, SetCondition;
  }

  /** A bearable round keeps the assumptions, and lets the resource sleep with an unconverged record exactly if
      it slips. */
  lemma BearableTick(defaults: Record, s: State, r: Round)
    requires Sound(defaults, s) && s.queued && Bearable(s.res.spec.Kind(), r.w)
    ensures var t := Tick(defaults, s, r);
            && Sound(defaults, t) && PasswordFilled(s.res.spec, t.res.spec)
            && (!t.queued && !Converged(t) <==> Slips(defaults, s, r))
  {
    hide Tick, Seen, Bearable, Sound, Proper, Slips, Converged;
    var found := Seen(defaults, s.res, s.remote, r.w).1;
    assert Proper(s.res.spec) by { SoundIsProper(defaults, s); }
    if found.Missing? {
      MissingTick(defaults, s, r);
    } else if found.FoundRecord? {
      FoundTick(defaults, s, r);
    } else {
      FailedTick(defaults, s, r);
    }
  }

  lemma SoundIsProper(defaults: Record, s: State)
    requires Sound(defaults, s)
    ensures Proper(s.res.spec)
  {
  }

  // ---------- progress ----------

  lemma FairCreate(defaults: Record, res: Resource, w: Weather)
    requires Proper(res.spec) && Fair(res.spec, w)
    ensures var s := CreateStep(defaults, res, None, w);
            var spec := WithPassword(res.spec, w.supply).value;
            && s.outcome == Done && CreateBody(spec).Success?
            && s.remote == Some(defaults + Stored(CreateBody(spec).value))
            && s.res == res.(spec := spec).SetReady(Created(res.spec.Kind()))
  {
    hide CreateBody, SetCondition;
    var spec := WithPassword(res.spec, w.supply).value;
    ProperFilled(res.spec, spec);
    BodiesDecode(spec, Comment);
  }

  lemma FairUpdate(defaults: Record, res: Resource, remote: Record, w: Weather)
    requires Proper(res.spec) && Decode(res.spec.Kind(), remote).Some? && Fair(res.spec, w)
    ensures var s := UpdateStep(defaults, res, Some(remote), Decode(res.spec.Kind(), remote).value, w);
            && s.outcome == Done && s.res == res.SetReady(Updated(res.spec.Kind()))
            && s.remote in {Some(remote), Some(remote + Wanted(res.spec))}
            && Reflected(res.spec, s.remote)
  {
    hide UpdateBody, SetCondition, FindCondition, MarshalStruct, Decode, Masked, Stored, Reflected, FromSpec;
    BodiesDecode(res.spec, Comment);
    UpdatedAgrees(res.spec, remote);
    UpdateReflects(defaults, res, remote, w);
    var q := Update(res.spec.Key(), Wanted(res.spec));
    assert Served(defaults, Some(remote), q, w.write) ==
           (Some(remote + Wanted(res.spec)), Response(200, Garbage("")));
    hide Served;
  }

  /** An undisturbed look-up tells the truth. */
  lemma FairSeen(defaults: Record, s: State, w: Weather)
    requires Sound(defaults, s) && Fair(s.res.spec, w)
    ensures Seen(defaults, s.res, s.remote, w) ==
            (s.remote, if s.remote.None? then Missing
                       else FoundRecord(Decode(s.res.spec.Kind(), s.remote.value).value))
  {
    hide Decode;
  }

  lemma SavedDelivered(before: Resource, after: Resource, r: Round)
    requires Delivered(r) && after.deleting == before.deleting
    ensures Saved(before, after, r) == after
  {
  }

  /** What an undisturbed tick does to the resource and the record, in full. */
  lemma FairTick(defaults: Record, s: State, r: Round)
    requires Sound(defaults, s) && s.queued && Fair(s.res.spec, r.w) && Delivered(r)
    ensures var t := Tick(defaults, s, r);
            var kind := s.res.spec.Kind();
            var spec := WithPassword(s.res.spec, r.w.supply).value;
            && t.res == (if s.remote.None? then Guard(s.res).(spec := spec).SetReady(Created(kind))
                         else Guard(s.res).SetReady(Updated(kind)))
            && t.queued == (t.res != s.res)
            && (s.remote.None? ==>
                  CreateBody(spec).Success? && t.remote == Some(defaults + Stored(CreateBody(spec).value)))
            && (s.remote.Some? ==> t.remote in {s.remote, Some(s.remote.value + Wanted(s.res.spec))}
                                   && Reflected(s.res.spec, t.remote))
  {
    FairSeen(defaults, s, r.w);
    TickActs(defaults, s, r);
    hide SetCondition, UpdateBody, CreateBody, Decode, Tick, Seen, Saved, CreateStep, UpdateStep, Delivered, Fair,
         WithPassword, Stored, Reflected;
    if s.remote.None? {
      FairCreate(defaults, Guard(s.res), r.w);
      SavedDelivered(s.res, CreateStep(defaults, Guard(s.res), None, r.w).res, r);
    } else {
      var found := Decode(s.res.spec.Kind(), s.remote.value).value;
      FairUpdate(defaults, Guard(s.res), s.remote.value, r.w);
      SavedDelivered(s.res, UpdateStep(defaults, Guard(s.res), s.remote, found, r.w).res, r);
    }
  }

  /** Nothing left to change. */
  predicate Settled(s: State)
  {
    s.res.Guarded() && s.res.Ready() == Some(Updated(s.res.spec.Kind())) && Converged(s)
  }

  /** Undisturbed ticks left, at most. */
  function Rank(s: State): nat
  {
    if !s.queued then 0 else if s.remote.None? then 3 else if !Settled(s) then 2 else 1
  }

  lemma FairIsTolerable(spec: Spec, w: Weather)
    requires Fair(spec, w)
    ensures Tolerable(spec.Kind(), w)
  {
  }

  lemma OverwriteAgreeing(remote: Record, body: Record)
    requires Agrees(body, Some(remote), {})
    ensures remote + body == remote
  {
  }

  /** An undisturbed tick of a queued resource lowers the rank; in a settled state it changes nothing at all. */
  lemma Progress(defaults: Record, s: State, r: Round)
    requires Sound(defaults, s) && s.queued && Fair(s.res.spec, r.w) && Delivered(r)
    ensures var t := Tick(defaults, s, r);
            && Sound(defaults, t) && Rank(t) < Rank(s)
            && (s.remote.Some? && Settled(s) ==> t == s.(queued := false))
            && (s.remote.Some? && t.queued ==> Settled(t))
            && t.remote.Some?
  {
    FairIsTolerable(s.res.spec, r.w);
    BearableTick(defaults, s, r);
    FairTick(defaults, s, r);
    var t := Tick(defaults, s, r);
    var kind := s.res.spec.Kind();
    SetThenFind(s.res.conditions, Updated(kind));
    hide Tick, Sound, SetCondition, FindCondition, UpdateBody, CreateBody, Stored, Slips, Reflected, Agrees;
    if s.remote.Some? {
      ReflectedAgrees(s.res.spec, s.remote);
      if Reflected(s.res.spec, s.remote) {
        OverwriteAgreeing(s.remote.value, Wanted(s.res.spec));
      }
    }
  }

  lemma SettledNamed(s: State)
    requires Proper(s.res.spec) && s.remote.Some? && Settled(s)
    ensures Named(s.res.spec.Kind(), s.remote.value) == s.remote.value
  {
    hide UpdateBody, FindCondition, Named, MirrorsBut;
    ReflectedAgrees(s.res.spec, s.remote);
    NamedAgreeing(s.res.spec, s.remote.value);
  }

  /** Once settled, an undisturbed tick does not even send a PATCH, exactly if the record has nothing in a field that
      the spec leaves unset. Only a user's can. */
  lemma SettledSilent(defaults: Record, s: State, w: Weather)
    requires Sound(defaults, s) && s.remote.Some? && Settled(s) && Fair(s.res.spec, w)
    ensures Reconcile(defaults, s.res, s.remote, w).events == [Sent(Find(s.res.spec.Key()))] <==>
            !Surplus(s.res.spec, s.remote.value)
  {
    hide Reconcile, Spec.Key, FindCondition, Decode, MirrorsBut, Surplus, Named;
    SettledNamed(s);
    PatchedExactly(defaults, s.res, s.remote.value, w);
  }
}
