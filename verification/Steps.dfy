/** What one reconcile guarantees, for every answer the network can give. */
module Steps {
  import opened Common
  import opened Json
  import opened Wire
  import opened Resources
  import opened Protocol
  import Dates

  /** The record when the look-up is answered, and the answer as the controller reads it. */
  function Seen(defaults: Record, res: Resource, remote: Option<Record>, w: Weather): (Option<Record>, Found)
  {
    var (now, r) := Served(defaults, remote, Find(res.spec.Key()), w.find);
    (now, ReadFind(res.spec.Kind(), r))
  }

  // ---------- what the step leaves of the resource ----------

  /** Only a user's empty password may be filled in. */
  predicate PasswordFilled(before: Spec, after: Spec)
  {
    || after == before
    || (before.UserSpec? && after.UserSpec? && before.rawPassword == ""
        && after == before.(rawPassword := after.rawPassword))
  }

  predicate ConditionSet(before: Resource, after: Resource, c: Condition)
  {
    c.ctype == ReadyType(before.spec.Kind()) && after.conditions == SetCondition(before.conditions, c)
  }

  ghost predicate Kept(before: Resource, after: Resource)
  {
    && after.deleting == before.deleting
    && PasswordFilled(before.spec, after.spec)
    && (after.conditions == before.conditions || exists c :: ConditionSet(before, after, c))
  }

  lemma SetReadyKeeps(before: Resource, res: Resource, c: Condition)
    requires res.deleting == before.deleting && res.conditions == before.conditions
    requires PasswordFilled(before.spec, res.spec) && c.ctype == ReadyType(before.spec.Kind())
    ensures Kept(before, res.SetReady(c))
  {
    assert ConditionSet(before, res.SetReady(c), c);
  }

  lemma ActKeeps(defaults: Record, res: Resource, remote: Option<Record>, found: Found, w: Weather)
    ensures var s := Act(defaults, res, remote, found, w);
            Kept(res, s.res) && s.res.finalizers == res.finalizers
  {
    hide Served, CreateBody, UpdateBody, ReadCreate, ReadUpdate, ReadDelete, MarshalStruct, SetCondition;
    var s := Act(defaults, res, remote, found, w);
    var filled := WithPassword(res.spec, w.supply);
    var spec := if filled.Success? then filled.value else res.spec;
    forall c: Condition, sp: Spec | c.ctype == ReadyType(res.spec.Kind()) && PasswordFilled(res.spec, sp)
      ensures Kept(res, res.(spec := sp).SetReady(c))
    {
      SetReadyKeeps(res, res.(spec := sp), c);
    }
  }

  /** One reconcile: deletion is never undone, the spec keeps all but an empty password, the finalizer is
      added to a live resource and removed from a deleting one exactly when the work is done. */
  lemma Frame(defaults: Record, res: Resource, remote: Option<Record>, w: Weather)
    ensures var s := Reconcile(defaults, res, remote, w);
            && Kept(res, s.res) && SameAddress(res.spec, s.res.spec)
            && s.res.finalizers == (if !res.deleting then AddFinalizer(res.finalizers)
                                    else if s.outcome == Done then RemoveFinalizer(res.finalizers)
                                    else res.finalizers)
  {
    var guarded := if res.deleting then res else res.(finalizers := AddFinalizer(res.finalizers));
    var (now, found) := Seen(defaults, guarded, remote, w);
    ActKeeps(defaults, guarded, now, found, w);
    hide Act;
    var s := Reconcile(defaults, res, remote, w);
    if s.res.conditions != res.conditions {
      var c :| ConditionSet(guarded, Act(defaults, guarded, now, found, w).res, c);
      assert ConditionSet(res, s.res, c);
    }
  }

  // ---------- the requests of a step ----------

  /** After the look-up: at most a generated password and then at most one write, for the same name; a write
      comes only after a look-up that found or missed, and a deleting resource is only ever deleted. */
  predicate AtMostOneWrite(events: seq<Event>, key: string, deleting: bool, found: Found)
  {
    && |events| <= 2
    && (found.FindFailed? ==> events == [])
    && forall i :: 0 <= i < |events| && events[i].Sent? ==>
         var q := events[i].q;
         && i == |events| - 1 && q.key == key && !q.Find?
         && (if deleting then q.Delete? && found.FoundRecord?
             else if found.Missing? then q.Create? else q.Update?)
  }

  predicate WellFormed(events: seq<Event>, key: string, deleting: bool, found: Found)
  {
    events != [] && events[0] == Sent(Find(key)) && AtMostOneWrite(events[1..], key, deleting, found)
  }

  lemma ActRequests(defaults: Record, res: Resource, remote: Option<Record>, found: Found, w: Weather)
    ensures AtMostOneWrite(Act(defaults, res, remote, found, w).events, res.spec.Key(), res.deleting, found)
  {
    hide Served, CreateBody, UpdateBody, ReadCreate, ReadUpdate, ReadDelete, MarshalStruct, SetCondition;
  }

  lemma Requests(defaults: Record, res: Resource, remote: Option<Record>, w: Weather)
    ensures WellFormed(Reconcile(defaults, res, remote, w).events, res.spec.Key(), res.deleting,
                       Seen(defaults, res, remote, w).1)
  {
    var guarded := if res.deleting then res else res.(finalizers := AddFinalizer(res.finalizers));
    var (now, found) := Seen(defaults, guarded, remote, w);
    ActRequests(defaults, guarded, now, found, w);
    hide Act, Served, ReadFind;
    var events := Act(defaults, guarded, now, found, w).events;
    assert ([Sent(Find(res.spec.Key()))] + events)[1..] == events;
  }

  // ---------- the finalizer ----------

  predicate LookupFailedForGood(found: Found) { found.FindFailed? && !found.retry }

  lemma DeletionDone(defaults: Record, res: Resource, remote: Option<Record>, found: Found, w: Weather)
    requires res.deleting
    ensures Act(defaults, res, remote, found, w).outcome == Done <==>
            || found.Missing? || LookupFailedForGood(found)
            || (found.FoundRecord?
                && ReadDelete(Served(defaults, remote, Delete(res.spec.Key()), w.write).1) == Accepted)
  {
    hide Served, ReadDelete, SetCondition;
  }

  /** When a deleting resource loses our finalizer: the record was missing, or was found and its deletion
      accepted, or the look-up failed for good. Nothing else removes it. */
  lemma FinalizerDropped(defaults: Record, res: Resource, remote: Option<Record>, w: Weather)
    requires res.deleting && res.Guarded()
    ensures var (now, found) := Seen(defaults, res, remote, w);
            var s := Reconcile(defaults, res, remote, w);
            !s.res.Guarded() <==>
            || found.Missing? || LookupFailedForGood(found)
            || (found.FoundRecord?
                && ReadDelete(Served(defaults, now, Delete(res.spec.Key()), w.write).1) == Accepted)
  {
    var (now, found) := Seen(defaults, res, remote, w);
    Frame(defaults, res, remote, w);
    DeletionDone(defaults, res, now, found, w);
    RemoveRemoves(res.finalizers);
    hide Act, Served, ReadFind, ReadDelete;
  }

  /** Others may change or delete the record, but do not create one where there is none. */
  predicate NoRecreation(remote: Option<Record>, m: Meddling) { remote.None? ==> Meddled(remote, m).None? }

  /** The step at which an object is orphaned, exactly: under truthful answers a deleting resource lets go of
      an existing record if and only if its look-up failed for good while the record was there. */
  lemma Orphaned(defaults: Record, res: Resource, remote: Option<Record>, w: Weather)
    requires res.deleting && res.Guarded() && Honest(res.spec.Kind(), w)
    requires var now := Seen(defaults, res, remote, w).0; NoRecreation(now, w.write.before)
    ensures var (now, found) := Seen(defaults, res, remote, w);
            var s := Reconcile(defaults, res, remote, w);
            !s.res.Guarded() && s.remote.Some? <==> LookupFailedForGood(found) && now.Some?
  {
    hide SetCondition, Decode;
    FinalizerDropped(defaults, res, remote, w);
  }

  // ---------- Ready ----------

  /** The record holds `body`'s value in every field of `body` outside `except`. */
  predicate Agrees(body: Record, remote: Option<Record>, except: set<Field>)
  {
    remote.Some? && forall f <- body :: f !in except ==> f in remote.value && remote.value[f] == body[f]
  }

  lemma Decoded(kind: Kind, r: Record, f: Field)
    requires Decode(kind, r).Some? && f in Decode(kind, r).value
    ensures var v := Decode(kind, r).value[f];
            (f == Identity(kind) && v == Str("")) || (f in r && r[f] == v)
  {
    hide Schema, TypeOf;
  }

  lemma Identified(spec: Spec)
    requires FromSpec(spec).Success?
    ensures var r := FromSpec(spec).value; var f := Identity(spec.Kind());
            f in Schema(spec.Kind()) && f in r && r[f] == Str(spec.Key())
  {
    match spec.Kind()
    case AliasKind => assert Schema(AliasKind)[2] == Email;
    case DomainKind => assert Schema(DomainKind)[5] == Name;
    case UserKind => assert Schema(UserKind)[4] == Email;
  }

  /** What the controller compares equal to a found record, the record agrees with. */
  lemma ComparedEqual(kind: Kind, body: Record, remote: Record)
    requires Decode(kind, remote).Some?
    requires MarshalStruct(kind, body) == MarshalStruct(kind, Decode(kind, remote).value - Masked(kind))
    requires forall f <- body :: f in Schema(kind)
    requires Identity(kind) in body ==> body[Identity(kind)] != Str("")
    ensures Agrees(body, Some(remote), {})
  {
    hide Decode, Schema, MarshalStruct, Masked;
    var found := Decode(kind, remote).value;
    SameBytes(kind, body, found - Masked(kind));
    forall f <- body
      ensures f in remote && remote[f] == body[f]
    {
      assert SameField(f, body, found - Masked(kind));
      Decoded(kind, remote, f);
    }
  }

  /** The server's own fields are in no spec. */
  lemma NeverSent(spec: Spec, f: Field)
    requires f in {Password, QuotaBytesUsed} || f.Unlisted?
    ensures FieldFromSpec(spec, f).None?
  {
  }

  lemma UpdateBodyFields(spec: Spec, f: Field)
    requires UpdateBody(spec).Success? && f in UpdateBody(spec).value
    ensures f in Schema(spec.Kind()) && f !in {RawPassword, Password, QuotaBytesUsed} && !f.Unlisted?
  {
    hide Schema, FieldFromSpec;
    if f in {Password, QuotaBytesUsed} || f.Unlisted? {
      NeverSent(spec, f);
    }
  }

  lemma FieldIgnoresPassword(a: Spec, b: Spec, f: Field)
    requires PasswordFilled(a, b) && f != RawPassword
    ensures FieldFromSpec(a, f) == FieldFromSpec(b, f)
  {
    hide DateValue, ListValue, AliasField, DomainField;
  }

  /** Filling in the password does not change what an update would send. */
  lemma UpdateBodyIgnoresPassword(a: Spec, b: Spec)
    requires PasswordFilled(a, b)
    ensures UpdateBody(a) == UpdateBody(b)
  {
    hide Schema, FieldFromSpec;
    if UpdateBody(a).Success? {
      forall f: Field | f != RawPassword
        ensures FieldFromSpec(a, f) == FieldFromSpec(b, f)
      {
        FieldIgnoresPassword(a, b, f);
      }
      assert UpdateBody(a).value == UpdateBody(b).value;
    }
  }

  /** A created record holds what an update would send, except a domain's alternatives. */
  lemma CreatedAgrees(defaults: Record, spec: Spec)
    requires CreateBody(spec).Success?
    ensures UpdateBody(spec).Success?
    ensures Agrees(UpdateBody(spec).value, Some(defaults + Stored(CreateBody(spec).value)),
                   if spec.DomainSpec? then {Alternatives} else {})
  {
    hide Schema, FieldFromSpec;
    var body, created := UpdateBody(spec).value, CreateBody(spec).value;
    forall f | f in body && (f != Alternatives || !spec.DomainSpec?)
      ensures f in Stored(created) && Stored(created)[f] == body[f]
    {
      UpdateBodyFields(spec, f);
    }
  }

  /** An updated record holds what the update sent. */
  lemma UpdatedAgrees(spec: Spec, r: Record)
    requires UpdateBody(spec).Success?
    ensures Stored(UpdateBody(spec).value) == UpdateBody(spec).value
    ensures Agrees(UpdateBody(spec).value, Some(r + UpdateBody(spec).value), {})
  {
    hide Schema, FieldFromSpec;
  }

  predicate ReadyIs(res: Resource, status: Status)
  {
    res.Ready().Some? && res.Ready().value.status == status
  }

  /** The fields an accepted write leaves unchecked: a domain's alternatives right after its creation. */
  function Unchecked(res: Resource): set<Field>
  {
    if res.spec.DomainSpec? && res.Ready() == Some(Created(res.spec.Kind())) then {Alternatives} else {}
  }

  /** An update that ends well: nothing to do, or a PATCH that was accepted. */
  lemma UpdateDone(defaults: Record, res: Resource, remote: Option<Record>, found: Record, w: Weather)
    requires UpdateStep(defaults, res, remote, found, w).outcome == Done
    ensures var s := UpdateStep(defaults, res, remote, found, w); var kind := res.spec.Kind();
            && UpdateBody(res.spec).Success? && s.res == res.SetReady(Updated(kind))
            && var body := UpdateBody(res.spec).value;
               if MarshalStruct(kind, body) == MarshalStruct(kind, found - Masked(kind)) then s.remote == remote
               else var (after, r) := Served(defaults, remote, Update(res.spec.Key(), body), w.write);
                    s.remote == after && ReadUpdate(r) == Accepted
  {
    hide UpdateBody, MarshalStruct, Masked, Served, ReadUpdate, SetCondition;
  }

  lemma AcceptedUpdate(defaults: Record, kind: Kind, remote: Record, key: string, body: Record, w: Weather)
    requires Honest(kind, w)
    requires ReadUpdate(Served(defaults, Some(remote), Update(key, body), w.write).1) == Accepted
    ensures exists now: Record ::
              Served(defaults, Some(remote), Update(key, body), w.write).0 == Some(now + Stored(body))
  {
    hide ReadFind, ReadCreate, ReadDelete, Stored;
    var now := Meddled(Some(remote), w.write.before);
    assert w.write.fate.Clear? && now.Some?;
    assert Served(defaults, Some(remote), Update(key, body), w.write).0 == Some(now.value + Stored(body));
  }

  lemma UpdateSound(defaults: Record, res: Resource, remote: Record, w: Weather)
    requires Decode(res.spec.Kind(), remote).Some? && res.spec.Key() != ""
    requires Honest(res.spec.Kind(), w)
    ensures var s := UpdateStep(defaults, res, Some(remote), Decode(res.spec.Kind(), remote).value, w);
            s.outcome == Done ==>
              UpdateBody(res.spec).Success? && Agrees(UpdateBody(res.spec).value, s.remote, {})
              && s.res.Ready() == Some(Updated(res.spec.Kind()))
  {
    var kind, found := res.spec.Kind(), Decode(res.spec.Kind(), remote).value;
    hide Schema, FieldFromSpec, FromSpec, UpdateBody, MarshalStruct, Decode, Masked, Agrees, Served, Honest, ReadUpdate,
         UpdateStep, Stored, SetCondition, FindCondition, Spec.Key;
    var s := UpdateStep(defaults, res, Some(remote), found, w);
    if s.outcome == Done {
      UpdateDone(defaults, res, Some(remote), found, w);
      SetThenFind(res.conditions, Updated(kind));
      var body := UpdateBody(res.spec).value;
      if MarshalStruct(kind, body) == MarshalStruct(kind, found - Masked(kind)) {
        forall f <- body
          ensures f in Schema(kind)
        {
          UpdateBodyFields(res.spec, f);
        }
        BodyNamed(res.spec);
        ComparedEqual(kind, body, remote);
      } else {
        AcceptedUpdate(defaults, kind, remote, res.spec.Key(), body, w);
        var now: Record :|
          Served(defaults, Some(remote), Update(res.spec.Key(), body), w.write).0 == Some(now + Stored(body));
        UpdatedAgrees(res.spec, now);
      }
    }
  }

  lemma BodyNamed(spec: Spec)
    requires UpdateBody(spec).Success?
    ensures var r := UpdateBody(spec).value; var f := Identity(spec.Kind()); f in r && r[f] == Str(spec.Key())
  {
    Identified(spec);
    hide FromSpec;
  }

  lemma CreateSound(defaults: Record, res: Resource, w: Weather)
    requires Honest(res.spec.Kind(), w)
    ensures var s := CreateStep(defaults, res, None, w);
            s.outcome == Done ==>
              UpdateBody(res.spec).Success?
              && Agrees(UpdateBody(res.spec).value, s.remote, if res.spec.DomainSpec? then {Alternatives} else {})
              && s.res.Ready() == Some(Created(res.spec.Kind()))
  {
    hide Schema, FieldFromSpec, FromSpec, UpdateBody, CreateBody, Stored;
    var s := CreateStep(defaults, res, None, w);
    if s.outcome == Done {
      var spec := WithPassword(res.spec, w.supply).value;
      CreatedAgrees(defaults, spec);
      UpdateBodyIgnoresPassword(res.spec, spec);
      SetThenFind(res.conditions, Created(spec.Kind()));
    }
  }

  /** Ready is set truthfully: when a reconcile of a live resource ends without a retry or an error, Ready is
      True exactly when the look-up succeeded, and then the record agrees with the spec in every field an
      update would send, a domain's alternatives right after creation excepted. */
  lemma ReadySound(defaults: Record, res: Resource, remote: Option<Record>, w: Weather)
    requires !res.deleting && res.spec.Key() != ""
    requires Honest(res.spec.Kind(), w)
    ensures var s := Reconcile(defaults, res, remote, w);
            var found := Seen(defaults, res, remote, w).1;
            s.outcome == Done ==>
              && (ReadyIs(s.res, True) <==> !found.FindFailed?)
              && (ReadyIs(s.res, False) <==> found.FindFailed?)
              && (ReadyIs(s.res, True) ==>
                    UpdateBody(s.res.spec).Success? && Agrees(UpdateBody(s.res.spec).value, s.remote, Unchecked(s.res)))
  {
    hide Schema, FieldFromSpec, FromSpec, UpdateBody, CreateBody, UpdateStep, CreateStep, Decode, SetCondition,
         FindCondition;
    var guarded := res.(finalizers := AddFinalizer(res.finalizers));
    var (now, found) := Seen(defaults, guarded, remote, w);
    var s := Reconcile(defaults, res, remote, w);
    Frame(defaults, res, remote, w);
    UpdateBodyIgnoresPassword(res.spec, s.res.spec);
    match found
    case FindFailed(retry, error) => SetThenFind(res.conditions, Failed(res.spec.Kind(), error));
    case Missing => CreateSound(defaults, guarded, w);
    case FoundRecord(_) => UpdateSound(defaults, guarded, now.value, w);
  }

  lemma ActReadyTrue(defaults: Record, res: Resource, remote: Option<Record>, found: Found, w: Weather)
    requires ReadyIs(Act(defaults, res, remote, found, w).res, True)
    ensures var s := Act(defaults, res, remote, found, w);
            s.res.conditions == res.conditions || (s.outcome == Done && !res.deleting)
  {
    hide Served, CreateBody, UpdateBody, FromSpec, ReadCreate, ReadUpdate, ReadDelete, MarshalStruct, SetCondition,
         FindCondition;
    forall c: Condition, sp: Spec | c.ctype == ReadyType(sp.Kind())
      ensures res.(spec := sp).SetReady(c).Ready() == Some(c)
    {
      SetThenFind(res.conditions, c);
    }
  }

  /** Ready becomes True in no other way: a reconcile that ends with a retry or an error, or that deletes, leaves
      the conditions as they were or Ready not True. */
  lemma ReadyTrueOnlyWhenDone(defaults: Record, res: Resource, remote: Option<Record>, w: Weather)
    requires ReadyIs(Reconcile(defaults, res, remote, w).res, True)
    ensures var s := Reconcile(defaults, res, remote, w);
            s.res.conditions == res.conditions || (s.outcome == Done && !res.deleting)
  {
    var guarded := if res.deleting then res else res.(finalizers := AddFinalizer(res.finalizers));
    var (now, found) := Seen(defaults, guarded, remote, w);
    ActReadyTrue(defaults, guarded, now, found, w);
    hide Act, Served, ReadFind, FindCondition;
  }

  // ---------- when a record is patched ----------

  /** A field of the struct that the record holds and an update would not send; what Mailu computes itself, the
      password hash and the used quota, does not count. */
  predicate Extra(kind: Kind, body: Record, remote: Record, f: Field)
  {
    f in Schema(kind) && f in remote && remote[f] != Null && f !in body && f !in {Password, QuotaBytesUsed}
  }

  lemma SchemaOwn(kind: Kind)
    ensures !kind.UserKind? ==> Password !in Schema(kind) && QuotaBytesUsed !in Schema(kind)
  {
  }

  lemma NeverNull(spec: Spec, f: Field)
    requires spec.List().Some?
    ensures FieldFromSpec(spec, f) != Some(Null)
  {
    hide DateValue, Spec.Key, Dates.Parse;
    if spec.UserSpec? {
      DateSentAsWritten(spec.replyStartDate);
      DateSentAsWritten(spec.replyEndDate);
    }
  }

  lemma NullFreeBody(spec: Spec, f: Field)
    requires spec.List().Some? && UpdateBody(spec).Success? && f in UpdateBody(spec).value
    ensures UpdateBody(spec).value[f] != Null
  {
    hide Schema, FieldFromSpec;
    NeverNull(spec, f);
  }

  lemma FoundField(kind: Kind, r: Record, f: Field)
    requires Decode(kind, r).Some?
    ensures var found := Decode(kind, r).value;
            var there := f in Schema(kind) && f in r && r[f] != Null;
            && (there ==> f in found && found[f] == r[f])
            && (!there && f != Identity(kind) ==> f !in found)
            && (!there && f == Identity(kind) ==> f in found && found[f] == Str(""))
  {
    hide Schema, TypeOf, Identity;
    var fields := map g | g in Schema(kind) && g in r && r[g] != Null :: r[g];
    assert Decode(kind, r).value == if Identity(kind) in fields then fields else fields[Identity(kind) := Str("")];
  }

  /** The record as the struct holds it: the identifying field is never absent, but empty at worst. */
  function Named(kind: Kind, r: Record): Record
  {
    if Identity(kind) in r && r[Identity(kind)] != Null then r else r[Identity(kind) := Str("")]
  }

  lemma NamedAgreeing(spec: Spec, remote: Record)
    requires UpdateBody(spec).Success? && Agrees(UpdateBody(spec).value, Some(remote), {})
    ensures Named(spec.Kind(), remote) == remote
  {
    BodyNamed(spec);
    hide UpdateBody, Spec.Key, Identity;
    assert UpdateBody(spec).value[Identity(spec.Kind())] != Null;
  }

  lemma NamedField(kind: Kind, r: Record, f: Field)
    ensures var there := f in r && r[f] != Null;
            if f == Identity(kind) then f in Named(kind, r) && Named(kind, r)[f] == (if there then r[f] else Str(""))
            else SameField(f, r, Named(kind, r))
  {
  }

  /** The masked fields are those the server computes. */
  lemma MaskedFields(kind: Kind, found: Record, f: Field)
    requires f in Schema(kind)
    ensures f in {Password, QuotaBytesUsed} ==> f !in found - Masked(kind)
    ensures f !in {Password, QuotaBytesUsed} ==> SameField(f, found, found - Masked(kind))
  {
    SchemaOwn(kind);
    hide Schema;
  }

  /** One field of the comparison. */
  lemma SameFieldExactly(kind: Kind, body: Record, remote: Record, f: Field)
    requires Decode(kind, remote).Some? && f in Schema(kind)
    requires f in body ==> f !in {Password, QuotaBytesUsed} && body[f] != Null
    requires f == Identity(kind) ==> f in body
    ensures SameField(f, body, Decode(kind, remote).value - Masked(kind)) <==>
            (f in body ==> f in Named(kind, remote) && Named(kind, remote)[f] == body[f])
            && !Extra(kind, body, remote, f)
  {
    hide Schema, Decode, Identity, Named, Masked;
    FoundField(kind, remote, f);
    NamedField(kind, remote, f);
    MaskedFields(kind, Decode(kind, remote).value, f);
  }

  function ListField(kind: Kind): Field
  {
    match kind
    case AliasKind => Destination
    case DomainKind => Alternatives
    case UserKind => ForwardDestination
  }

  lemma ListFieldListed(kind: Kind)
    ensures ListField(kind) in Schema(kind)
  {
    match kind
    case AliasKind => assert Schema(AliasKind)[1] == Destination;
    case DomainKind => assert Schema(DomainKind)[0] == Alternatives;
    case UserKind => assert Schema(UserKind)[8] == ForwardDestination;
  }

  lemma ListFieldSent(spec: Spec)
    requires UpdateBody(spec).Success?
    ensures var f := ListField(spec.Kind());
            f in Schema(spec.Kind()) && f in UpdateBody(spec).value
            && UpdateBody(spec).value[f] == ListValue(spec.List())
  {
    hide Schema, DateValue;
    ListFieldListed(spec.Kind());
    assert FieldFromSpec(spec, ListField(spec.Kind())) == Some(ListValue(spec.List()));
    hide FieldFromSpec;
  }

  /** A spec with a nil list is never up to date. */
  lemma NilListOutdated(spec: Spec, remote: Record)
    requires UpdateBody(spec).Success? && Decode(spec.Kind(), remote).Some? && spec.List().None?
    ensures MarshalStruct(spec.Kind(), UpdateBody(spec).value) !=
            MarshalStruct(spec.Kind(), Decode(spec.Kind(), remote).value - Masked(spec.Kind()))
  {
    ListFieldSent(spec);
    hide Schema, FromSpec, UpdateBody, Decode, MarshalStruct, Masked, ListField;
    var body, kind, f := UpdateBody(spec).value, spec.Kind(), ListField(spec.Kind());
    var found := Decode(kind, remote).value;
    SameBytes(kind, body, found - Masked(kind));
    FoundField(kind, remote, f);
    assert !SameField(f, body, found - Masked(kind));
  }

  /** When no PATCH is needed, exactly: the spec's list is not nil, the record agrees with the spec, and it has no
      extra field. */
  lemma UpToDateExactly(spec: Spec, remote: Record)
    requires UpdateBody(spec).Success? && Decode(spec.Kind(), remote).Some?
    ensures var body := UpdateBody(spec).value; var kind := spec.Kind();
            MarshalStruct(kind, body) == MarshalStruct(kind, Decode(kind, remote).value - Masked(kind)) <==>
            && spec.List().Some? && Agrees(body, Some(Named(kind, remote)), {})
            && forall f <- Schema(kind) :: !Extra(kind, body, remote, f)
  {
    if spec.List().None? {
      NilListOutdated(spec, remote);
    } else {
      ListedUpToDate(spec, remote);
    }
  }

  lemma ListedUpToDate(spec: Spec, remote: Record)
    requires UpdateBody(spec).Success? && Decode(spec.Kind(), remote).Some? && spec.List().Some?
    ensures var body := UpdateBody(spec).value; var kind := spec.Kind();
            MarshalStruct(kind, body) == MarshalStruct(kind, Decode(kind, remote).value - Masked(kind)) <==>
            && Agrees(body, Some(Named(kind, remote)), {})
            && forall f <- Schema(kind) :: !Extra(kind, body, remote, f)
  {
    hide Schema, FromSpec, UpdateBody, Decode, MarshalStruct, Masked, Extra, Spec.Key, Spec.List, SameField, Named;
    var body, kind := UpdateBody(spec).value, spec.Kind();
    var found := Decode(kind, remote).value;
    BodyNamed(spec);
    SameBytes(kind, body, found - Masked(kind));
    forall f
      ensures f in body ==> f in Schema(kind)
      ensures f in Schema(kind) ==>
                (SameField(f, body, found - Masked(kind)) <==>
                 (f in body ==> f in Named(kind, remote) && Named(kind, remote)[f] == body[f])
                 && !Extra(kind, body, remote, f))
    {
      if f in body {
        UpdateBodyFields(spec, f);
        NullFreeBody(spec, f);
      }
      if f in Schema(kind) {
        SameFieldExactly(kind, body, remote, f);
      }
    }
  }

  // ---------- how a reconcile ends ----------

  /** An answer of the gateway in front of Mailu. */
  predicate FromGateway(r: Response) { r.Response? && !r.body.Unreadable? && r.code in {502, 503, 504} }

  predicate Succeeded(q: Request, r: Response)
  {
    r.Response? && !r.body.Unreadable?
    && r.code in (if q.Create? then {200, 201} else if q.Update? then {200, 204} else {200, 404})
  }

  predicate Conflicted(q: Request, r: Response)
  {
    q.Create? && r.Response? && !r.body.Unreadable? && r.code == 409
  }

  /** The write of a step, if it has one; it is always the last event. */
  function WriteOf(s: Step): Option<Request>
  {
    if s.events != [] && s.events[|s.events| - 1].Sent? then Some(s.events[|s.events| - 1].q) else None
  }

  /** What the answer `r` to write `q` makes of the step: success ends it, a conflict is retried in silence, the
      gateway's answers are retried and everything else is an error, both with Ready False. */
  predicate Judged(before: Resource, s: Step, q: Request, r: Response)
  {
    && s.outcome == (if Succeeded(q, r) then Done else if FromGateway(r) || Conflicted(q, r) then Again else Error)
    && (if Succeeded(q, r) then (if q.Delete? then s.res == before else ReadyIs(s.res, True))
        else if Conflicted(q, r) then s.res.conditions == before.conditions
        else ReadyIs(s.res, False))
  }

  function ReadFor(q: Request, r: Response): Verdict
  {
    if q.Create? then ReadCreate(r) else if q.Update? then ReadUpdate(r) else ReadDelete(r)
  }

  lemma Verdicts(q: Request, r: Response)
    ensures var v := ReadFor(q, r);
            && (v.Accepted? <==> Succeeded(q, r)) && (v.Conflict? <==> Conflicted(q, r))
            && (v.Refused? ==> v.retry == FromGateway(r))
  {
  }

  lemma ConflictKeeps(defaults: Record, remote: Option<Record>, q: Request, w: Weather)
    requires w.write.fate.Clear? && Conflicted(q, Served(defaults, remote, q, w.write).1)
    ensures Served(defaults, remote, q, w.write).0 == Meddled(remote, w.write.before)
  {
  }

  lemma DrawsSendNothing(spec: Spec, supply: Supply)
    ensures forall e <- PasswordEvents(spec, supply) :: !e.Sent?
  {
  }

  /** A create without a password to use waits for one: retried, nothing sent, Ready False, the spec untouched. */
  lemma PasswordAwaited(defaults: Record, res: Resource, remote: Option<Record>, w: Weather)
    requires WithPassword(res.spec, w.supply).Failure?
    ensures var s := CreateStep(defaults, res, remote, w);
            s.outcome == Again && s.events == [] && ReadyIs(s.res, False) && s.res.spec == res.spec
            && s.remote == remote
  {
    hide SetCondition, FindCondition;
    SetThenFind(res.conditions, Failed(UserKind, WithPassword(res.spec, w.supply).message));
  }

  lemma CreateJudged(defaults: Record, res: Resource, remote: Option<Record>, w: Weather)
    requires WithPassword(res.spec, w.supply).Success? && CreateBody(WithPassword(res.spec, w.supply).value).Success?
    ensures var s := CreateStep(defaults, res, remote, w); var q := WriteOf(s);
            && q.Some? && q.value.Create? && Judged(res, s, q.value, Served(defaults, remote, q.value, w.write).1)
            && s.remote == Served(defaults, remote, q.value, w.write).0
  {
    var spec := WithPassword(res.spec, w.supply).value;
    var q := Create(spec.Key(), CreateBody(spec).value);
    var r := Served(defaults, remote, q, w.write).1;
    Verdicts(q, r);
    SetThenFind(res.conditions, Created(spec.Kind()));
    if ReadCreate(r).Refused? {
      SetThenFind(res.conditions, Failed(spec.Kind(), ReadCreate(r).error));
    }
    hide Served, ReadCreate, ReadUpdate, ReadDelete, CreateBody, WithPassword, PasswordEvents, SetCondition,
         FindCondition, Succeeded, Conflicted, FromGateway, Spec.Key;
  }

  lemma UpdateJudged(defaults: Record, res: Resource, remote: Option<Record>, found: Record, w: Weather)
    requires UpdateBody(res.spec).Success?
    ensures var s := UpdateStep(defaults, res, remote, found, w); var q := WriteOf(s);
            if q.Some? then q.value.Update? && Judged(res, s, q.value, Served(defaults, remote, q.value, w.write).1)
            else s.outcome == Done && ReadyIs(s.res, True)
  {
    hide Served, ReadCreate, ReadUpdate, ReadDelete, UpdateBody, MarshalStruct, Masked, SetCondition, FindCondition,
         Succeeded, Conflicted, FromGateway, Spec.Key, Judged;
    var q := Update(res.spec.Key(), UpdateBody(res.spec).value);
    var (after, r) := Served(defaults, remote, q, w.write);
    SetThenFind(res.conditions, Updated(res.spec.Kind()));
    var v := ReadUpdate(r);
    var s := if v.Accepted? then Step(res.SetReady(Updated(res.spec.Kind())), after, Done, [Sent(q)])
             else if v.Conflict? then Step(res, after, Again, [Sent(q)])
             else Refusal(res, after, v.retry, v.error, [Sent(q)]);
    UpdateVerdict(res, s, q, r, after);
  }

  lemma UpdateVerdict(res: Resource, s: Step, q: Request, r: Response, after: Option<Record>)
    requires q.Update?
    requires var v := ReadUpdate(r);
             s == if v.Accepted? then Step(res.SetReady(Updated(res.spec.Kind())), after, Done, [Sent(q)])
                  else if v.Conflict? then Step(res, after, Again, [Sent(q)])
                  else Refusal(res, after, v.retry, v.error, [Sent(q)])
    ensures Judged(res, s, q, r)
  {
    hide SetCondition, FindCondition;
    Verdicts(q, r);
    SetThenFind(res.conditions, Updated(res.spec.Kind()));
    if ReadUpdate(r).Refused? {
      SetThenFind(res.conditions, Failed(res.spec.Kind(), ReadUpdate(r).error));
    }
    hide ReadUpdate, Succeeded, Conflicted, FromGateway;
  }

  lemma DeleteJudged(defaults: Record, res: Resource, remote: Option<Record>, w: Weather)
    ensures var s := DeleteStep(defaults, res, remote, w); var q := WriteOf(s);
            q.Some? && q.value.Delete? && Judged(res, s, q.value, Served(defaults, remote, q.value, w.write).1)
  {
    var q := Delete(res.spec.Key());
    var r := Served(defaults, remote, q, w.write).1;
    Verdicts(q, r);
    if ReadDelete(r).Refused? {
      SetThenFind(res.conditions, Failed(res.spec.Kind(), ReadDelete(r).error));
    }
    hide Served, ReadCreate, ReadUpdate, ReadDelete, SetCondition, FindCondition, Succeeded, Conflicted, FromGateway,
         Spec.Key;
  }

  // ---------- dates ----------

  /** A date that parses is sent as the text the spec has, so it compares equal when it is read back. */
  lemma DateSentAsWritten(text: string)
    ensures DateValue(text) == if text == "" || Dates.Parse(text).None? then None else Some(Str(text))
    ensures DateValue(text) == if Dates.FullDate(text) then Some(Str(text)) else None
  {
    Dates.ParsesExactly(text);
    if text != "" && Dates.Parse(text).Some? {
      Dates.FormatParse(text);
    }
  }

  lemma BadDatesRefused(defaults: Record, res: Resource, remote: Option<Record>, found: Found, w: Weather)
    requires !res.deleting && !res.spec.DatesParse()
    ensures var s := Act(defaults, res, remote, found, w);
            && (forall e <- s.events :: !e.Sent?)
            && (!found.FindFailed? ==> ReadyIs(s.res, False) && s.outcome != Done)
            && s.remote == remote
  {
    assert res.spec.UserSpec?;
    hide SetCondition, FindCondition, Spec.DatesParse;
    if found.Missing? {
      BadDatesCreate(defaults, res, remote, w);
      hide CreateStep;
    } else if found.FoundRecord? {
      forall c: Condition | c.ctype == ReadyType(UserKind)
        ensures res.SetReady(c).Ready() == Some(c)
      {
        SetThenFind(res.conditions, c);
      }
    }
  }

  lemma BadDatesCreate(defaults: Record, res: Resource, remote: Option<Record>, w: Weather)
    requires res.spec.UserSpec? && !res.spec.DatesParse()
    ensures var s := CreateStep(defaults, res, remote, w);
            && (forall e <- s.events :: !e.Sent?) && ReadyIs(s.res, False) && s.remote == remote
            && s.outcome == (if WithPassword(res.spec, w.supply).Success? then Error else Again)
  {
    hide SetCondition, FindCondition, Spec.DatesParse, Served, ReadCreate, CreateBody, WithPassword, PasswordFilled;
    var filled := WithPassword(res.spec, w.supply);
    if filled.Success? {
      WithPasswordFills(res.spec, w.supply);
      BodyNeedsDates(res.spec, filled.value);
      SetThenFind(res.conditions, Failed(UserKind, CreateBody(filled.value).message));
    } else {
      SetThenFind(res.conditions, Failed(UserKind, filled.message));
    }
  }

  lemma WithPasswordFills(spec: Spec, supply: Supply)
    requires WithPassword(spec, supply).Success?
    ensures var filled := WithPassword(spec, supply).value; PasswordFilled(spec, filled) && SameAddress(spec, filled)
  {
  }

  lemma BodyNeedsDates(own: Spec, filled: Spec)
    requires PasswordFilled(own, filled)
    ensures CreateBody(filled).Success? <==> own.DatesParse()
  {
    DatesIgnorePassword(own, filled);
  }

  lemma DatesIgnorePassword(a: Spec, b: Spec)
    requires PasswordFilled(a, b)
    ensures a.DatesParse() == b.DatesParse()
  {
  }

  predicate BadDate(text: string) { text != "" && !Dates.FullDate(text) }

  /** A struct can be built from a spec exactly if its dates are empty or days of the calendar. */
  lemma DatesExactly(spec: Spec)
    ensures FromSpec(spec).Success? <==>
            !(spec.UserSpec? && (BadDate(spec.replyStartDate) || BadDate(spec.replyEndDate)))
    ensures FromSpec(spec).Success? <==> spec.DatesParse()
  {
    hide Dates.Parse, Dates.FullDate, Schema, FieldFromSpec;
    if spec.UserSpec? {
      Dates.ParsesExactly(spec.replyStartDate);
      Dates.ParsesExactly(spec.replyEndDate);
    }
  }

  /** A reply date that is neither empty nor a day of the calendar: nothing is written to Mailu, and once the look-up
      succeeds Ready becomes False and the reconcile does not end well. */
  lemma BadDates(defaults: Record, res: Resource, remote: Option<Record>, w: Weather)
    requires !res.deleting && res.spec.UserSpec?
    requires BadDate(res.spec.replyStartDate) || BadDate(res.spec.replyEndDate)
    ensures var s := Reconcile(defaults, res, remote, w);
            var (now, found) := Seen(defaults, res, remote, w);
            && (forall e <- s.events :: e.Sent? ==> e.q.Find?)
            && (!found.FindFailed? ==> ReadyIs(s.res, False) && s.outcome != Done)
            && s.remote == now
  {
    var guarded := res.(finalizers := AddFinalizer(res.finalizers));
    var (now, found) := Seen(defaults, guarded, remote, w);
    DatesExactly(res.spec);
    BadDatesRefused(defaults, guarded, now, found, w);
    hide Act, Served, ReadFind, AddFinalizer, Spec.DatesParse, FindCondition, BadDate;
  }

  // ---------- all ends ----------

  lemma NoWriteOf(s: Step)
    requires forall e <- s.events :: !e.Sent?
    ensures WriteOf(s).None?
  {
  }

  /** How what follows the look-up ends, for every answer, in terms of status codes: after a failed look-up; after a
      write, as its answer says; and without one, when there is nothing to delete, no password to use, an impossible
      date, or nothing to change. A look-up that is to be retried leaves everything as it was. An undisturbed create
      that meets a conflict leaves the other's record alone. */
  lemma Outcomes(defaults: Record, res: Resource, remote: Option<Record>, found: Found, w: Weather)
    ensures var s := Act(defaults, res, remote, found, w); var q := WriteOf(s);
            if found.FindFailed? then
              && s.events == [] && s.remote == remote && s.outcome == (if found.retry then Again else Done)
              && (if found.retry then s.res == res
                  else s.res == res.(conditions := s.res.conditions)
                       && s.res.Ready() == Some(Failed(res.spec.Kind(), found.error)))
            else if q.Some? then
              var r := Served(defaults, remote, q.value, w.write).1;
              && Judged(res, s, q.value, r)
              && (w.write.fate.Clear? && Conflicted(q.value, r) ==> s.remote == Meddled(remote, w.write.before))
            else if res.deleting then found.Missing? && s.outcome == Done
            else if found.Missing? && WithPassword(res.spec, w.supply).Failure? then
              s.outcome == Again && ReadyIs(s.res, False)
            else if !res.spec.DatesParse() then s.outcome == Error && ReadyIs(s.res, False)
            else found.FoundRecord? && s.outcome == Done && ReadyIs(s.res, True)
  {
    hide CreateStep, UpdateStep, DeleteStep, Judged, Served, SetCondition, FindCondition, Spec.DatesParse, CreateBody,
         UpdateBody, WithPassword, Meddled;
    if found.FindFailed? {
      SetThenFind(res.conditions, Failed(res.spec.Kind(), found.error));
    } else if res.deleting {
      DeleteJudged(defaults, res, remote, w);
    } else if found.Missing? {
      MissingOutcome(defaults, res, remote, w);
    } else {
      FoundOutcome(defaults, res, remote, found.record, w);
    }
  }

  lemma MissingOutcome(defaults: Record, res: Resource, remote: Option<Record>, w: Weather)
    ensures var s := CreateStep(defaults, res, remote, w); var q := WriteOf(s);
            if q.Some? then
              var r := Served(defaults, remote, q.value, w.write).1;
              && Judged(res, s, q.value, r)
              && (w.write.fate.Clear? && Conflicted(q.value, r) ==> s.remote == Meddled(remote, w.write.before))
            else if WithPassword(res.spec, w.supply).Failure? then s.outcome == Again && ReadyIs(s.res, False)
            else !res.spec.DatesParse() && s.outcome == Error && ReadyIs(s.res, False)
  {
    assert !res.spec.DatesParse() ==> res.spec.UserSpec?;
    hide CreateStep, Judged, Served, SetCondition, FindCondition, Spec.DatesParse, CreateBody, WithPassword, Conflicted,
         Meddled, PasswordFilled;
    var filled := WithPassword(res.spec, w.supply);
    if filled.Failure? {
      PasswordAwaited(defaults, res, remote, w);
    } else {
      WithPasswordFills(res.spec, w.supply);
      if res.spec.DatesParse() {
        BodyNeedsDates(res.spec, filled.value);
        CreateJudged(defaults, res, remote, w);
        var q := WriteOf(CreateStep(defaults, res, remote, w)).value;
        if w.write.fate.Clear? && Conflicted(q, Served(defaults, remote, q, w.write).1) {
          ConflictKeeps(defaults, remote, q, w);
        }
      } else {
        BadDatesCreate(defaults, res, remote, w);
        NoWriteOf(CreateStep(defaults, res, remote, w));
      }
    }
  }

  lemma FoundOutcome(defaults: Record, res: Resource, remote: Option<Record>, found: Record, w: Weather)
    ensures var s := UpdateStep(defaults, res, remote, found, w); var q := WriteOf(s);
            if q.Some? then
              q.value.Update? && Judged(res, s, q.value, Served(defaults, remote, q.value, w.write).1)
            else if res.spec.DatesParse() then s.outcome == Done && ReadyIs(s.res, True)
            else s.outcome == Error && ReadyIs(s.res, False)
  {
    if res.spec.DatesParse() {
      UpdateJudged(defaults, res, remote, found, w);
      hide UpdateStep, Judged, Served, UpdateBody, Spec.DatesParse;
    } else {
      hide SetCondition, FindCondition;
      SetThenFind(res.conditions, Failed(UserKind, UpdateBody(res.spec).message));
    }
  }
}
