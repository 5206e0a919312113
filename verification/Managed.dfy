/** What Mailu has to hold for a spec, field by field, and what a reconcile sends to bring that about. */
module Managed {
  import opened Common
  import opened Json
  import opened Wire
  import opened Resources
  import opened Protocol
  import opened Steps
  import SpecRecords
  import Dates

  // ---------- records that mirror a spec ----------

  predicate Shows(r: Record, f: Field, v: Value) { f in r && r[f] == v }

  predicate ShowsList(r: Record, f: Field, list: Strings)
  {
    if list.None? then Shows(r, f, Null) else Shows(r, f, List(list.value))
  }

  /** A date that the spec leaves empty is not managed. */
  predicate ShowsDate(r: Record, f: Field, text: string) { text == "" || Shows(r, f, Str(text)) }

  predicate MirrorsAlias(spec: Spec, r: Record)
    requires spec.AliasSpec?
  {
    && Shows(r, Email, Str(spec.name + "@" + spec.domain)) && Shows(r, Comment, Str(spec.comment))
    && ShowsList(r, Destination, spec.destination) && Shows(r, Wildcard, Bool(spec.wildcard))
  }

  predicate MirrorsDomain(spec: Spec, r: Record)
    requires spec.DomainSpec?
  {
    && Shows(r, Name, Str(spec.name)) && Shows(r, Comment, Str(spec.comment))
    && Shows(r, MaxUsers, Num(spec.maxUsers)) && Shows(r, MaxAliases, Num(spec.maxAliases))
    && Shows(r, MaxQuotaBytes, Num(spec.maxQuotaBytes)) && Shows(r, SignupEnabled, Bool(spec.signupEnabled))
  }

  predicate MirrorsAccess(spec: Spec, r: Record)
    requires spec.UserSpec?
  {
    && Shows(r, Email, Str(spec.name + "@" + spec.domain)) && Shows(r, Comment, Str(spec.comment))
    && Shows(r, DisplayedName, Str(spec.displayedName)) && Shows(r, Enabled, Bool(spec.enabled))
    && Shows(r, EnableImap, Bool(spec.enableImap)) && Shows(r, EnablePop, Bool(spec.enablePop))
    && Shows(r, AllowSpoofing, Bool(spec.allowSpoofing)) && Shows(r, GlobalAdmin, Bool(spec.globalAdmin))
    && Shows(r, ChangePwNextLogin, Bool(spec.changePassword))
  }

  predicate MirrorsMail(spec: Spec, r: Record)
    requires spec.UserSpec?
  {
    && Shows(r, ForwardEnabled, Bool(spec.forwardEnabled)) && Shows(r, ForwardKeep, Bool(spec.forwardKeep))
    && ShowsList(r, ForwardDestination, spec.forwardDestination) && Shows(r, QuotaBytes, Num(spec.quotaBytes))
    && Shows(r, SpamEnabled, Bool(spec.spamEnabled)) && Shows(r, SpamMarkAsRead, Bool(spec.spamMarkAsRead))
    && Shows(r, SpamThreshold, Num(spec.spamThreshold))
  }

  predicate MirrorsReply(spec: Spec, r: Record)
    requires spec.UserSpec?
  {
    && Shows(r, ReplyEnabled, Bool(spec.replyEnabled)) && Shows(r, ReplySubject, Str(spec.replySubject))
    && Shows(r, ReplyBody, Str(spec.replyBody)) && ShowsDate(r, ReplyStartDate, spec.replyStartDate)
    && ShowsDate(r, ReplyEndDate, spec.replyEndDate)
  }

  /** The record shows what the spec says, for a domain with or without its alternatives. A user's password is left
      out, as Mailu keeps it as a hash. */
  predicate MirrorsBut(spec: Spec, r: Record, alternatives: bool)
  {
    if spec.AliasSpec? then MirrorsAlias(spec, r)
    else if spec.DomainSpec? then
      MirrorsDomain(spec, r) && (alternatives ==> ShowsList(r, Alternatives, spec.alternatives))
    else MirrorsAccess(spec, r) && MirrorsMail(spec, r) && MirrorsReply(spec, r)
  }

  predicate Mirrors(spec: Spec, r: Record) { MirrorsBut(spec, r, true) }

  /** There is a record, and it shows all of the spec. */
  predicate Reflected(spec: Spec, remote: Option<Record>) { remote.Some? && Mirrors(spec, remote.value) }

  function AliasFields(): set<Field> { {Comment, Destination, Email, Wildcard} }

  function DomainFields(): set<Field> { {Comment, MaxAliases, MaxQuotaBytes, MaxUsers, Name, SignupEnabled} }

  function AccessFields(): set<Field>
  {
    {Email, Comment, DisplayedName, Enabled, EnableImap, EnablePop, AllowSpoofing, GlobalAdmin, ChangePwNextLogin}
  }

  function MailFields(): set<Field>
  {
    {ForwardEnabled, ForwardKeep, ForwardDestination, QuotaBytes, SpamEnabled, SpamMarkAsRead, SpamThreshold}
  }

  function ReplyFields(spec: Spec): set<Field>
    requires spec.UserSpec?
  {
    {ReplyEnabled, ReplySubject, ReplyBody} + (if spec.replyStartDate == "" then {} else {ReplyStartDate})
    + (if spec.replyEndDate == "" then {} else {ReplyEndDate})
  }

  /** The fields that a request for the spec writes, for a domain with or without its alternatives. */
  function Fields(spec: Spec, alternatives: bool): set<Field>
  {
    if spec.AliasSpec? then AliasFields()
    else if spec.DomainSpec? then DomainFields() + (if alternatives then {Alternatives} else {})
    else AccessFields() + MailFields() + ReplyFields(spec)
  }

  // ---------- the model's bodies are these fields ----------

  /** The record shows the values of those fields of a spec. */
  predicate ShowsFields(spec: Spec, r: Record, fields: set<Field>)
  {
    forall f <- fields :: FieldFromSpec(spec, f).Some? && Shows(r, f, FieldFromSpec(spec, f).value)
  }

  lemma AccessShown(spec: Spec, r: Record)
    requires spec.UserSpec?
    ensures MirrorsAccess(spec, r) <==> ShowsFields(spec, r, AccessFields())
  {
    hide DateValue, ListValue, AliasField, DomainField, Shows;
    var fields := AccessFields();
    assert Email in fields && Comment in fields && DisplayedName in fields && Enabled in fields && EnableImap in fields
           && EnablePop in fields && AllowSpoofing in fields && GlobalAdmin in fields && ChangePwNextLogin in fields;
  }

  lemma MailShown(spec: Spec, r: Record)
    requires spec.UserSpec?
    ensures MirrorsMail(spec, r) <==> ShowsFields(spec, r, MailFields())
  {
    hide DateValue, AliasField, DomainField, Shows;
    var fields := MailFields();
    assert ForwardEnabled in fields && ForwardKeep in fields && ForwardDestination in fields && QuotaBytes in fields
           && SpamEnabled in fields && SpamMarkAsRead in fields && SpamThreshold in fields;
  }

  lemma ReplyValues(spec: Spec)
    requires spec.UserSpec?
    ensures FieldFromSpec(spec, ReplyEnabled) == Some(Bool(spec.replyEnabled))
    ensures FieldFromSpec(spec, ReplySubject) == Some(Str(spec.replySubject))
    ensures FieldFromSpec(spec, ReplyBody) == Some(Str(spec.replyBody))
    ensures FieldFromSpec(spec, ReplyStartDate) == DateValue(spec.replyStartDate)
    ensures FieldFromSpec(spec, ReplyEndDate) == DateValue(spec.replyEndDate)
  {
    hide DateValue;
  }

  lemma ReplyShown(spec: Spec, r: Record)
    requires spec.UserSpec? && spec.DatesParse()
    ensures MirrorsReply(spec, r) <==> ShowsFields(spec, r, ReplyFields(spec))
  {
    hide FieldFromSpec, DateValue, Shows, Dates.Parse, Dates.FullDate;
    ReplyValues(spec);
    DateSentAsWritten(spec.replyStartDate);
    DateSentAsWritten(spec.replyEndDate);
    var fields := ReplyFields(spec);
    assert ReplyEnabled in fields && ReplySubject in fields && ReplyBody in fields;
    assert ReplyStartDate in fields <==> spec.replyStartDate != "";
    assert ReplyEndDate in fields <==> spec.replyEndDate != "";
  }

  lemma AliasShown(spec: Spec, r: Record)
    requires spec.AliasSpec?
    ensures MirrorsAlias(spec, r) <==> ShowsFields(spec, r, AliasFields())
  {
    hide DateValue, UserField, DomainField, Shows;
    var fields := AliasFields();
    assert Comment in fields && Destination in fields && Email in fields && Wildcard in fields;
  }

  lemma DomainShown(spec: Spec, r: Record)
    requires spec.DomainSpec?
    ensures MirrorsDomain(spec, r) <==> ShowsFields(spec, r, DomainFields())
    ensures ShowsList(r, Alternatives, spec.alternatives) <==> ShowsFields(spec, r, {Alternatives})
  {
    hide DateValue, UserField, AliasField, Shows;
    var fields := DomainFields();
    assert Comment in fields && MaxAliases in fields && MaxQuotaBytes in fields && MaxUsers in fields
           && Name in fields && SignupEnabled in fields && Alternatives in {Alternatives};
  }

  lemma ShowsUnion(spec: Spec, r: Record, a: set<Field>, b: set<Field>)
    ensures ShowsFields(spec, r, a + b) <==> ShowsFields(spec, r, a) && ShowsFields(spec, r, b)
  {
    hide FieldFromSpec, Shows;
  }

  lemma MirrorsFields(spec: Spec, r: Record, alternatives: bool)
    requires spec.DatesParse()
    ensures MirrorsBut(spec, r, alternatives) <==> ShowsFields(spec, r, Fields(spec, alternatives))
  {
    if spec.UserSpec? {
      AccessShown(spec, r);
      MailShown(spec, r);
      ReplyShown(spec, r);
      ShowsUnion(spec, r, AccessFields(), MailFields());
      ShowsUnion(spec, r, AccessFields() + MailFields(), ReplyFields(spec));
    } else if spec.AliasSpec? {
      AliasShown(spec, r);
    } else {
      DomainShown(spec, r);
      ShowsUnion(spec, r, DomainFields(), if alternatives then {Alternatives} else {});
    }
    hide MirrorsAccess, MirrorsMail, MirrorsReply, MirrorsAlias, MirrorsDomain, ShowsList, FieldFromSpec, Shows,
         AccessFields, MailFields, ReplyFields, AliasFields, DomainFields;
  }

  lemma AccessManaged(spec: Spec, f: Field)
    requires spec.UserSpec? && f in AccessFields() + MailFields()
    ensures f != RawPassword && UserField(spec, f).Some? && f !in {ReplyStartDate, ReplyEndDate}
  {
    hide ListValue, Spec.Key, DateValue;
  }

  lemma NoneUnmanaged(spec: Spec, f: Field)
    requires spec.UserSpec? && UserField(spec, f).Some? && f !in AccessFields() + MailFields()
    ensures f in {RawPassword, ReplyEnabled, ReplySubject, ReplyBody, ReplyStartDate, ReplyEndDate}
  {
    hide ListValue, Spec.Key, DateValue;
  }

  lemma UserManaged(spec: Spec, f: Field)
    requires spec.UserSpec? && spec.DatesParse()
    ensures f in Fields(spec, true) <==> f != RawPassword && UserField(spec, f).Some?
  {
    hide UserField, Dates.Parse, Dates.FullDate, DateValue, AccessFields, MailFields;
    ReplyValues(spec);
    DateManaged(spec);
    DateSentAsWritten(spec.replyStartDate);
    DateSentAsWritten(spec.replyEndDate);
    if f in AccessFields() + MailFields() {
      AccessManaged(spec, f);
    } else if UserField(spec, f).Some? {
      NoneUnmanaged(spec, f);
    }
  }

  lemma DateManaged(spec: Spec)
    requires spec.UserSpec?
    ensures forall f: Field :: FieldFromSpec(spec, f) == UserField(spec, f)
  {
  }

  lemma ManagedExactly(spec: Spec, f: Field)
    requires spec.DatesParse()
    ensures f in Fields(spec, true) <==> f != RawPassword && FieldFromSpec(spec, f).Some?
  {
    if spec.UserSpec? {
      UserManaged(spec, f);
      hide UserField, Fields;
    } else {
      hide ListValue, UserField;
    }
  }

  /** A body that is exactly the fields `fields` of a spec. */
  predicate HoldsExactly(spec: Spec, body: Record, fields: set<Field>)
  {
    body.Keys == fields && ShowsFields(spec, body, fields)
  }

  function Secret(spec: Spec): set<Field> { if spec.UserSpec? then {RawPassword} else {} }

  lemma CarriedExactly(spec: Spec, f: Field)
    requires spec.DatesParse()
    ensures FromSpec(spec).Success?
    ensures f in FromSpec(spec).value <==> f in Fields(spec, true) + Secret(spec)
    ensures f in FromSpec(spec).value ==>
              FieldFromSpec(spec, f).Some? && FromSpec(spec).value[f] == FieldFromSpec(spec, f).value
    ensures f == RawPassword ==> f !in Fields(spec, true)
  {
    assert FromSpec(spec).Success?;
    SpecRecords.Carried(spec, f);
    ManagedExactly(spec, f);
    PasswordField(spec);
    hide FromSpec, FieldFromSpec, Fields, Spec.DatesParse;
  }

  lemma PasswordField(spec: Spec)
    ensures FieldFromSpec(spec, RawPassword).Some? <==> spec.UserSpec?
  {
  }

  lemma BuiltExactly(spec: Spec)
    requires spec.DatesParse()
    ensures FromSpec(spec).Success? && HoldsExactly(spec, FromSpec(spec).value, Fields(spec, true) + Secret(spec))
    ensures RawPassword !in Fields(spec, true)
  {
    hide FromSpec, FieldFromSpec, Fields, Spec.DatesParse, Secret;
    forall f: Field
      ensures FromSpec(spec).Success?
      ensures f in FromSpec(spec).value <==> f in Fields(spec, true) + Secret(spec)
      ensures f in FromSpec(spec).value ==>
                FieldFromSpec(spec, f).Some? && FromSpec(spec).value[f] == FieldFromSpec(spec, f).value
    {
      CarriedExactly(spec, f);
    }
    CarriedExactly(spec, RawPassword);
  }

  lemma FieldsBut(spec: Spec)
    ensures Fields(spec, false) == Fields(spec, true) - (if spec.DomainSpec? then {Alternatives} else {})
  {
    hide AccessFields, MailFields, ReplyFields, AliasFields;
  }

  lemma Narrowed(spec: Spec, body: Record, fields: set<Field>, less: set<Field>)
    requires HoldsExactly(spec, body, fields)
    ensures HoldsExactly(spec, body - less, fields - less)
  {
    hide FieldFromSpec;
    assert (body - less).Keys == fields - less;
  }

  lemma UpdateHolds(spec: Spec)
    requires spec.DatesParse()
    ensures UpdateBody(spec).Success? && HoldsExactly(spec, UpdateBody(spec).value, Fields(spec, true))
  {
    hide HoldsExactly, Fields, FromSpec, Spec.DatesParse;
    BuiltExactly(spec);
    Narrowed(spec, FromSpec(spec).value, Fields(spec, true) + Secret(spec), {RawPassword});
    assert Fields(spec, true) + Secret(spec) - {RawPassword} == Fields(spec, true);
  }

  lemma CreateHolds(spec: Spec)
    requires spec.DatesParse()
    ensures CreateBody(spec).Success?
    ensures HoldsExactly(spec, CreateBody(spec).value, Fields(spec, false) + Secret(spec))
  {
    hide HoldsExactly, Fields, FromSpec, Spec.DatesParse;
    BuiltExactly(spec);
    FieldsBut(spec);
    if spec.DomainSpec? {
      Narrowed(spec, FromSpec(spec).value, Fields(spec, true) + Secret(spec), {Alternatives});
      assert Fields(spec, true) + Secret(spec) - {Alternatives} == Fields(spec, false) + Secret(spec);
    }
    assert Fields(spec, true) - {} == Fields(spec, true);
  }

  lemma BodyAgrees(spec: Spec, body: Record, r: Record, fields: set<Field>, except: set<Field>)
    requires HoldsExactly(spec, body, fields)
    ensures Agrees(body, Some(r), except) <==> ShowsFields(spec, r, fields - except)
  {
    hide FieldFromSpec;
  }

  lemma AgreeingMirrors(spec: Spec, r: Record)
    requires spec.DatesParse()
    ensures UpdateBody(spec).Success?
    ensures Mirrors(spec, r) <==> Agrees(UpdateBody(spec).value, Some(r), {})
    ensures MirrorsBut(spec, r, false) <==>
            Agrees(UpdateBody(spec).value, Some(r), if spec.DomainSpec? then {Alternatives} else {})
  {
    hide MirrorsBut, ShowsFields, UpdateBody, Fields, Spec.DatesParse, Agrees;
    UpdateHolds(spec);
    MirrorsFields(spec, r, true);
    MirrorsFields(spec, r, false);
    FieldsBut(spec);
    var body, fields := UpdateBody(spec).value, Fields(spec, true);
    BodyAgrees(spec, body, r, fields, {});
    BodyAgrees(spec, body, r, fields, if spec.DomainSpec? then {Alternatives} else {});
    assert fields - {} == fields;
  }

  lemma ReflectedAgrees(spec: Spec, remote: Option<Record>)
    requires spec.DatesParse()
    ensures UpdateBody(spec).Success?
    ensures Reflected(spec, remote) <==> Agrees(UpdateBody(spec).value, remote, {})
  {
    hide UpdateBody, Spec.DatesParse;
    AgreeingMirrors(spec, if remote.Some? then remote.value else map[]);
    hide MirrorsBut;
  }

  /** Filling in the password does not change what a record has to show. */
  lemma ReflectedFilled(a: Spec, b: Spec, remote: Option<Record>)
    requires PasswordFilled(a, b)
    ensures Reflected(a, remote) <==> Reflected(b, remote)
  {
    hide Shows, ShowsList, ShowsDate;
  }

  // ---------- what a reconcile sends ----------

  /** A request of a reconcile that leaves the resource with `spec`: its key, and for a write exactly the fields of
      its body. Only a create carries a password, the one that the spec then has. */
  predicate Meant(spec: Spec, q: Request)
  {
    && q.key == (if spec.DomainSpec? then spec.name else spec.name + "@" + spec.domain)
    && (q.Update? ==> q.body.Keys == Fields(spec, true) && Mirrors(spec, q.body))
    && (q.Create? ==>
          && q.body.Keys == Fields(spec, false) + Secret(spec) && MirrorsBut(spec, q.body, false)
          && (spec.UserSpec? ==> q.body[RawPassword] == Str(spec.rawPassword)))
  }

  lemma UpdateMeant(spec: Spec)
    requires spec.DatesParse()
    ensures UpdateBody(spec).Success? && Meant(spec, Update(spec.Key(), UpdateBody(spec).value))
  {
    hide UpdateBody, MirrorsBut, Fields, FieldFromSpec, Spec.DatesParse;
    UpdateHolds(spec);
    MirrorsFields(spec, UpdateBody(spec).value, true);
  }

  lemma CreateMeant(spec: Spec)
    requires spec.DatesParse()
    ensures CreateBody(spec).Success? && Meant(spec, Create(spec.Key(), CreateBody(spec).value))
  {
    hide CreateBody, MirrorsBut, Fields, FieldFromSpec, Spec.DatesParse;
    CreateHolds(spec);
    var body := CreateBody(spec).value;
    MirrorsFields(spec, body, false);
    assert ShowsFields(spec, body, Fields(spec, false));
    if spec.UserSpec? {
      assert RawPassword in Fields(spec, false) + Secret(spec);
      PasswordValue(spec);
    }
  }

  lemma PasswordValue(spec: Spec)
    requires spec.UserSpec?
    ensures FieldFromSpec(spec, RawPassword) == Some(Str(spec.rawPassword))
  {
  }

  lemma ActMeant(defaults: Record, res: Resource, remote: Option<Record>, found: Found, w: Weather, q: Request)
    requires Sent(q) in Act(defaults, res, remote, found, w).events
    ensures Meant(Act(defaults, res, remote, found, w).res.spec, q)
  {
    hide Served, CreateBody, UpdateBody, ReadCreate, ReadUpdate, ReadDelete, MarshalStruct, SetCondition, WithPassword,
         PasswordEvents, Spec.DatesParse, Fields, MirrorsBut;
    DrawsSendNothing(res.spec, w.supply);
    if q.Update? {
      UpdateMeant(res.spec) by { BodyDates(res.spec); }
    } else if q.Create? && WithPassword(res.spec, w.supply).Success? {
      var spec := WithPassword(res.spec, w.supply).value;
      CreateMeant(spec) by { BodyDates(spec); }
    }
  }

  lemma BodyDates(spec: Spec)
    requires UpdateBody(spec).Success? || CreateBody(spec).Success?
    ensures spec.DatesParse()
  {
  }

  /** Every request of every reconcile is addressed to the resource's object, and every write carries exactly the
      managed fields with the values of the spec. */
  lemma SentExactly(defaults: Record, res: Resource, remote: Option<Record>, w: Weather, q: Request)
    requires Sent(q) in Reconcile(defaults, res, remote, w).events
    ensures Meant(Reconcile(defaults, res, remote, w).res.spec, q)
  {
    hide Act, Served, ReadFind, Fields, MirrorsBut;
    var guarded := if res.deleting then res else res.(finalizers := AddFinalizer(res.finalizers));
    var (now, found) := Seen(defaults, guarded, remote, w);
    Frame(defaults, res, remote, w);
    if Sent(q) in Act(defaults, guarded, now, found, w).events {
      ActMeant(defaults, guarded, now, found, w, q);
    } else {
      assert q == Find(res.spec.Key());
    }
  }

  // ---------- when Ready is True ----------

  /** Ready is set truthfully: when a reconcile of a live resource ends well with Ready True, the record shows all of
      the spec, but for a domain's alternatives right after its creation. */
  lemma ReadyMirrors(defaults: Record, res: Resource, remote: Option<Record>, w: Weather)
    requires !res.deleting && res.spec.Key() != "" && Honest(res.spec.Kind(), w)
    requires Reconcile(defaults, res, remote, w).outcome == Done
    requires ReadyIs(Reconcile(defaults, res, remote, w).res, True)
    ensures var s := Reconcile(defaults, res, remote, w);
            && s.remote.Some? && s.res.spec.DatesParse()
            && MirrorsBut(s.res.spec, s.remote.value, Seen(defaults, res, remote, w).1.FoundRecord?)
  {
    hide UpdateBody, MirrorsBut, Spec.DatesParse, Spec.Key, SetCondition, FindCondition, UpdateStep, CreateStep, Decode;
    var guarded := res.(finalizers := AddFinalizer(res.finalizers));
    var (now, found) := Seen(defaults, guarded, remote, w);
    var s := Reconcile(defaults, res, remote, w);
    Frame(defaults, res, remote, w);
    UpdateBodyIgnoresPassword(res.spec, s.res.spec);
    match found {
      case FindFailed(retry, error) => SetThenFind(res.conditions, Failed(res.spec.Kind(), error));
      case Missing => CreateSound(defaults, guarded, w);
      case FoundRecord(_) => UpdateSound(defaults, guarded, now.value, w);
    }
    BodyDates(s.res.spec);
    hide Agrees;
    AgreeingMirrors(s.res.spec, s.remote.value);
  }

  // ---------- when nothing is sent ----------

  predicate Present(r: Record, f: Field) { f in r && r[f] != Null }

  /** The record of a user holds something in a field of the struct that the spec leaves unset. */
  predicate Surplus(spec: Spec, r: Record)
  {
    spec.UserSpec? &&
    (Present(r, RawPassword) || (spec.replyStartDate == "" && Present(r, ReplyStartDate))
     || (spec.replyEndDate == "" && Present(r, ReplyEndDate)))
  }

  lemma SmallSchemas(spec: Spec, f: Field)
    requires !spec.UserSpec? && f in Schema(spec.Kind())
    ensures f in Fields(spec, true)
  {
    if spec.AliasSpec? {
      assert f in {Comment, Destination, Email, Wildcard};
    } else {
      assert f in {Alternatives, Comment, MaxAliases, MaxQuotaBytes, MaxUsers, Name, SignupEnabled};
    }
  }

  lemma UserSchema(f: Field)
    requires f in Schema(UserKind)
    ensures UserPosition(f) < 24
  {
    hide UserPosition;
    var i :| 0 <= i < |Schema(UserKind)| && Schema(UserKind)[i] == f;
    SchemaPositions(UserKind, i);
  }

  /** A user's struct has no other fields than these. */
  lemma UserCovered(spec: Spec, f: Field)
    requires spec.UserSpec? && f in Schema(UserKind) && f !in {RawPassword, Password, QuotaBytesUsed}
    ensures f in AccessFields() + MailFields() + {ReplyEnabled, ReplySubject, ReplyBody, ReplyStartDate, ReplyEndDate}
  {
    UserSchema(f);
    hide Schema;
  }

  lemma DatesListed()
    ensures RawPassword in Schema(UserKind) && ReplyStartDate in Schema(UserKind) && ReplyEndDate in Schema(UserKind)
  {
    SpecRecords.UserListed(RawPassword);
    SpecRecords.UserListed(ReplyStartDate);
    SpecRecords.UserListed(ReplyEndDate);
    hide Schema;
  }

  lemma DatesApart()
    ensures AccessFields() + MailFields() !! {RawPassword, ReplyStartDate, ReplyEndDate}
  {
  }

  lemma SurplusExactly(spec: Spec, body: Record, r: Record)
    requires spec.DatesParse() && body.Keys == Fields(spec, true)
    ensures Surplus(spec, r) <==> exists f <- Schema(spec.Kind()) :: Extra(spec.Kind(), body, r, f)
  {
    hide Schema, AccessFields, MailFields, Spec.DatesParse, DomainFields, AliasFields;
    if spec.UserSpec? {
      DatesListed();
      DatesApart();
      forall f | f in Schema(UserKind)
        ensures Extra(UserKind, body, r, f) <==>
                && Present(r, f)
                && (f == RawPassword || (f == ReplyStartDate && spec.replyStartDate == "")
                    || (f == ReplyEndDate && spec.replyEndDate == ""))
      {
        if f !in {RawPassword, Password, QuotaBytesUsed} {
          UserCovered(spec, f);
        }
      }
      if Surplus(spec, r) {
        var f := if Present(r, RawPassword) then RawPassword
                 else if spec.replyStartDate == "" && Present(r, ReplyStartDate) then ReplyStartDate
                 else ReplyEndDate;
        assert spec.Kind() == UserKind;
        assert f in Schema(spec.Kind()) && Extra(spec.Kind(), body, r, f);
      }
    } else {
      forall f | f in Schema(spec.Kind())
        ensures f in body
      {
        SmallSchemas(spec, f);
      }
    }
  }

  lemma UpdateSilent(defaults: Record, res: Resource, remote: Option<Record>, found: Record, w: Weather)
    requires UpdateBody(res.spec).Success?
    ensures UpdateStep(defaults, res, remote, found, w).events == [] <==>
            MarshalStruct(res.spec.Kind(), UpdateBody(res.spec).value) ==
            MarshalStruct(res.spec.Kind(), found - Masked(res.spec.Kind()))
  {
    hide UpdateBody, MarshalStruct, Masked, Served, ReadUpdate, SetCondition;
  }

  /** A reconcile of a live resource whose record is found is an update of what was found. */
  lemma FoundReconcile(defaults: Record, res: Resource, remote: Record, w: Weather)
    requires !res.deleting && Decode(res.spec.Kind(), remote).Some? && w.find == Link(Nothing, Clear)
    ensures var guarded := res.(finalizers := AddFinalizer(res.finalizers));
            var u := UpdateStep(defaults, guarded, Some(remote), Decode(res.spec.Kind(), remote).value, w);
            Reconcile(defaults, res, Some(remote), w) == u.(events := [Sent(Find(res.spec.Key()))] + u.events)
  {
    hide Decode, UpdateStep, AddFinalizer;
  }

  /** When a reconcile only looks, exactly: the list of the spec is not nil, the record shows all of the spec, and it
      has nothing in a field that the spec leaves unset. Else it sends a PATCH. */
  lemma PatchedExactly(defaults: Record, res: Resource, remote: Record, w: Weather)
    requires !res.deleting && res.spec.DatesParse() && w.find == Link(Nothing, Clear)
    requires Decode(res.spec.Kind(), remote).Some?
    ensures Reconcile(defaults, res, Some(remote), w).events == [Sent(Find(res.spec.Key()))] <==>
            && res.spec.List().Some? && Mirrors(res.spec, Named(res.spec.Kind(), remote))
            && !Surplus(res.spec, remote)
  {
    hide Reconcile, UpdateStep, UpdateBody, MarshalStruct, Masked, Schema, Decode, Extra, Agrees, AddFinalizer, Fields,
         Spec.Key, Spec.List, Spec.DatesParse, MirrorsBut, Named, Surplus, ShowsFields;
    var kind, found := res.spec.Kind(), Decode(res.spec.Kind(), remote).value;
    var guarded := res.(finalizers := AddFinalizer(res.finalizers));
    UpdateHolds(res.spec);
    FoundReconcile(defaults, res, remote, w);
    UpdateSilent(defaults, guarded, Some(remote), found, w);
    UpToDateExactly(res.spec, remote);
    AgreeingMirrors(res.spec, Named(kind, remote));
    SurplusExactly(res.spec, UpdateBody(res.spec).value, remote);
    var u := UpdateStep(defaults, guarded, Some(remote), found, w);
    assert |[Sent(Find(res.spec.Key()))] + u.events| == 1 + |u.events|;
    assert [Sent(Find(res.spec.Key()))] + [] == [Sent(Find(res.spec.Key()))];
  }
}
