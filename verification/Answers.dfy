/** How the answers of Mailu are read, in terms of status codes and bodies, and what a look-up leads to. */
module Answers {
  import opened Common
  import opened Json
  import opened Wire
  import opened Resources
  import opened Protocol
  import opened Steps
  import Dates

  /** An answer that came with a body that could be read. */
  predicate Arrived(r: Response) { r.Response? && !r.body.Unreadable? }

  // ---------- which records decode ----------

  predicate Int64(n: int) { -0x8000_0000_0000_0000 <= n < 0x8000_0000_0000_0000 }

  /** The JSON types of the fields. */
  predicate Fits(f: Field, v: Value)
  {
    match v
    case Null => true
    case Bool(_) =>
      f in {AllowSpoofing, ChangePwNextLogin, Enabled, EnableImap, EnablePop, ForwardEnabled, ForwardKeep, GlobalAdmin,
            ReplyEnabled, SpamEnabled, SpamMarkAsRead, Wildcard, SignupEnabled}
    case Num(n) => Int64(n) && f in {QuotaBytes, QuotaBytesUsed, SpamThreshold, MaxAliases, MaxQuotaBytes, MaxUsers}
    case List(_) => f in {ForwardDestination, Destination, Alternatives}
    case Str(s) =>
      || f in {Comment, DisplayedName, Email, Password, RawPassword, ReplyBody, ReplySubject, Name}
      || (f in {ReplyEndDate, ReplyStartDate} && Dates.FullDate(s))
  }

  lemma FitsExactly(f: Field, v: Value)
    requires !f.Unlisted?
    ensures Decodes(f, v) <==> Fits(f, v)
  {
    hide Dates.Parse, Dates.FullDate;
    if v.Str? {
      Dates.ParsesExactly(v.s);
    }
  }

  /** Every field of the struct has a value of its type. */
  predicate WellTyped(kind: Kind, r: Record) { forall f <- Schema(kind) :: f in r ==> Fits(f, r[f]) }

  lemma DecodesExactly(kind: Kind, r: Record)
    ensures Decode(kind, r).Some? <==> WellTyped(kind, r)
  {
    hide Fits, Decodes, Schema;
    SchemaDistinct(kind);
    forall f | f in Schema(kind) && f in r
      ensures Decodes(f, r[f]) <==> Fits(f, r[f])
    {
      var i :| 0 <= i < |Schema(kind)| && Schema(kind)[i] == f;
      FitsExactly(f, r[f]);
    }
  }

  // ---------- look-ups ----------

  predicate SaysMissing(r: Response) { Arrived(r) && (r.code == 404 || (r.code == 200 && r.body.JsonNull?)) }

  predicate SaysFound(kind: Kind, r: Response)
  {
    Arrived(r) && r.code == 200 && r.body.Document? && WellTyped(kind, r.body.record)
  }

  /** Not worth a retry: Mailu was not reached, or gave an answer that is neither a success nor from the gateway. */
  predicate Hopeless(r: Response) { r.TransportError? || (Arrived(r) && r.code !in {200, 404, 502, 503, 504}) }

  /** The text that an answer other than a success leaves in the condition; `refusal` is the code that has a text of
      its own. */
  predicate Explains(r: Response, refusal: int, reason: string, text: string)
  {
    && (r.TransportError? ==> text == r.error)
    && (r.Response? && r.body.Unreadable? ==> text == r.body.error)
    && (Arrived(r) && r.code == refusal ==> text == reason)
    && (Arrived(r) && r.code in {502, 504} ==> text == "gateway timeout")
    && (Arrived(r) && r.code == 503 ==> text == "service unavailable")
    && (Arrived(r) && r.code !in {200, 201, 204, 404, 409, 502, 503, 504, refusal} ==>
          text == "unknown status: " + Integer(r.code))
  }

  /** What a found struct holds: the fields that are there and not `null`; the identifying one is never absent. */
  ghost predicate Holds(kind: Kind, r: Record, found: Record)
  {
    forall f: Field ::
      if f in Schema(kind) && f in r && r[f] != Null then f in found && found[f] == r[f]
      else if f == Identity(kind) then f in found && found[f] == Str("")
      else f !in found
  }

  lemma FoundHolds(kind: Kind, r: Record)
    requires Decode(kind, r).Some?
    ensures Holds(kind, r, Decode(kind, r).value)
  {
    hide Decode, Schema, Identity;
    forall f: Field
      ensures var found := Decode(kind, r).value;
              if f in Schema(kind) && f in r && r[f] != Null then f in found && found[f] == r[f]
              else if f == Identity(kind) then f in found && found[f] == Str("")
              else f !in found
    {
      FoundField(kind, r, f);
    }
  }

  /** How a look-up is read, for every answer. */
  lemma FindExactly(kind: Kind, r: Response)
    ensures var found := ReadFind(kind, r);
            && (found.Missing? <==> SaysMissing(r))
            && (found.FoundRecord? <==> SaysFound(kind, r))
            && (found.FoundRecord? ==> Holds(kind, r.body.record, found.record))
            && (LookupFailedForGood(found) <==> Hopeless(r))
            && (found.FindFailed? ==> Explains(r, 400, "bad request", found.error))
            && (found.FindFailed? && Arrived(r) && r.body.Garbage? && r.code == 200 ==> found.error == r.body.error)
  {
    hide Decode, WellTyped, Holds;
    if r.Response? && r.body.Document? {
      DecodesExactly(kind, r.body.record);
      if Decode(kind, r.body.record).Some? {
        FoundHolds(kind, r.body.record);
      }
    }
  }

  /** How the answer to a write is read. */
  lemma WriteExactly(q: Request, r: Response)
    ensures var v := ReadFor(q, r);
            && (v.Accepted? <==> Succeeded(q, r)) && (v.Conflict? <==> Conflicted(q, r))
            && (v.Refused? ==> v.retry == FromGateway(r) && Explains(r, 500, "internal server error", v.error))
            && (v.Refused? && Arrived(r) && r.code in {201, 204, 404, 409} ==>
                  v.error == "unknown status: " + Integer(r.code))
  {
  }

  // ---------- what a look-up leads to ----------

  function Noun(kind: Kind): string
  {
    if kind.AliasKind? then "Alias" else if kind.DomainKind? then "Domain" else "User"
  }

  /** The condition that reports `text` as an error. */
  function Complaint(kind: Kind, text: string): Condition { Condition(Noun(kind) + "Ready", False, "Error", text) }

  /** The condition that reports a success. */
  function Announcement(kind: Kind, created: bool): Condition
  {
    if created then Condition(Noun(kind) + "Ready", True, "Created", Noun(kind) + " created in MailU")
    else Condition(Noun(kind) + "Ready", True, "Updated", Noun(kind) + " updated in MailU")
  }

  lemma TypeText(kind: Kind)
    ensures ReadyType(kind) == Noun(kind) + "Ready"
  {
    assert "AliasReady" == "Alias" + "Ready" && "DomainReady" == "Domain" + "Ready" && "UserReady" == "User" + "Ready";
  }

  lemma CreatedText(kind: Kind)
    ensures Created(kind).message == Noun(kind) + " created in MailU"
  {
    assert "Alias created in MailU" == "Alias" + " created in MailU";
    assert "Domain created in MailU" == "Domain" + " created in MailU";
    assert "User created in MailU" == "User" + " created in MailU";
  }

  lemma UpdatedText(kind: Kind)
    ensures Updated(kind).message == Noun(kind) + " updated in MailU"
  {
    assert "Alias updated in MailU" == "Alias" + " updated in MailU";
    assert "Domain updated in MailU" == "Domain" + " updated in MailU";
    assert "User updated in MailU" == "User" + " updated in MailU";
  }

  lemma ConditionTexts(kind: Kind, text: string)
    ensures Failed(kind, text) == Complaint(kind, text)
    ensures Created(kind) == Announcement(kind, true) && Updated(kind) == Announcement(kind, false)
  {
    TypeText(kind);
    CreatedText(kind);
    UpdatedText(kind);
    hide Noun, ReadyType;
  }

  /** Nothing but the look-up happens to Mailu, and nothing but finalizers and conditions changes in the resource. */
  predicate OnlyLooks(res: Resource, now: Option<Record>, s: Step)
  {
    s.events == [Sent(Find(res.spec.Key()))] && s.remote == now && s.res.spec == res.spec
  }

  /** Writes after the look-up, if any, are such. */
  predicate Writes(s: Step, allowed: Request -> bool)
  {
    forall e <- s.events :: e.Sent? && !e.q.Find? ==> allowed(e.q)
  }

  /** What a reconcile makes of the answer to its look-up. When Mailu was not reached or refused the look-up, the error
      is reported and nothing is written. When it could not answer for now, nothing is written or reported. A POST
      follows only a 404 or a 200 with `null`, a PATCH or a DELETE only a 200 with a record that fits the struct. */
  lemma LookupDecides(defaults: Record, res: Resource, remote: Option<Record>, w: Weather)
    ensures var (now, r) := Served(defaults, remote, Find(res.spec.Key()), w.find);
            var s := Reconcile(defaults, res, remote, w);
            var kind := res.spec.Kind();
            if Hopeless(r) then
              && OnlyLooks(res, now, s) && s.outcome == Done
              && exists text :: s.res.Ready() == Some(Complaint(kind, text)) && Explains(r, 400, "bad request", text)
            else if SaysMissing(r) then
              if res.deleting then OnlyLooks(res, now, s) && s.outcome == Done && s.res.conditions == res.conditions
              else Writes(s, (q: Request) => q.Create?)
            else if SaysFound(kind, r) then
              if res.deleting then |s.events| == 2 && s.events[1] == Sent(Delete(res.spec.Key()))
              else Writes(s, (q: Request) => q.Update?)
            else
              OnlyLooks(res, now, s) && s.outcome == Again && s.res.conditions == res.conditions
  {
    var guarded := if res.deleting then res else res.(finalizers := AddFinalizer(res.finalizers));
    var (now, r) := Served(defaults, remote, Find(res.spec.Key()), w.find);
    var found := ReadFind(res.spec.Kind(), r);
    FindExactly(res.spec.Kind(), r);
    Requests(defaults, res, remote, w);
    hide Served, ReadFind, SaysMissing, SaysFound, Hopeless, Explains, CreateStep, UpdateStep, SetCondition,
         FindCondition;
    assert [Sent(Find(res.spec.Key()))] + [] == [Sent(Find(res.spec.Key()))];
    if found.FindFailed? {
      ConditionTexts(res.spec.Kind(), found.error);
      SetThenFind(res.conditions, Failed(res.spec.Kind(), found.error));
    }
    hide Complaint, Failed;
    var s := Reconcile(defaults, res, remote, w);
    assert forall e <- s.events :: e == s.events[0] || e in s.events[1..];
  }

  // ---------- what is reported ----------

  /** A condition that was set last. */
  lemma Announced(res: Resource, spec: Spec, c: Condition)
    requires c.ctype == ReadyType(spec.Kind())
    ensures res.(spec := spec).SetReady(c).Ready() == Some(c)
  {
    SetThenFind(res.conditions, c);
  }

  lemma ActReported(defaults: Record, res: Resource, remote: Option<Record>, found: Found, w: Weather)
    ensures var s := Act(defaults, res, remote, found, w); var kind := res.spec.Kind();
            if s.outcome == Done && !res.deleting && !found.FindFailed?
            then s.res.Ready() == Some(if found.Missing? then Created(kind) else Updated(kind))
            else s.res.conditions == res.conditions || exists text :: s.res.Ready() == Some(Failed(kind, text))
  {
    hide Served, CreateBody, UpdateBody, ReadCreate, ReadUpdate, ReadDelete, MarshalStruct, SetCondition,
         FindCondition, Spec.Key, PasswordEvents, ReadyType;
    forall c: Condition, spec: Spec | c.ctype == ReadyType(spec.Kind())
      ensures res.(spec := spec).SetReady(c).Ready() == Some(c)
    {
      Announced(res, spec, c);
    }
  }

  /** What users get to see: the finalizer on a live resource, and a condition of the kind's type that says Created or
      Updated exactly when a live reconcile ends well after a look-up that worked; any other condition it sets is an
      error. */
  lemma Reported(defaults: Record, res: Resource, remote: Option<Record>, w: Weather)
    ensures var s := Reconcile(defaults, res, remote, w); var kind := res.spec.Kind();
            var found := Seen(defaults, res, remote, w).1;
            && (if s.outcome == Done && !res.deleting && !found.FindFailed?
                then s.res.Ready() == Some(Announcement(kind, found.Missing?))
                else s.res.conditions == res.conditions || exists text :: s.res.Ready() == Some(Complaint(kind, text)))
            && (!res.deleting ==>
                  s.res.finalizers == res.finalizers + (if "operator.mailu.io/finalizer" in res.finalizers then []
                                                        else ["operator.mailu.io/finalizer"]))
  {
    hide Act, Served, ReadFind, FindCondition, Announcement, Complaint;
    var guarded := if res.deleting then res else res.(finalizers := AddFinalizer(res.finalizers));
    var (now, found) := Seen(defaults, guarded, remote, w);
    ActReported(defaults, guarded, now, found, w);
    var kind, s := res.spec.Kind(), Reconcile(defaults, res, remote, w);
    ConditionTexts(kind, "");
    if exists text :: s.res.Ready() == Some(Failed(kind, text)) {
      var text :| s.res.Ready() == Some(Failed(kind, text));
      ConditionTexts(kind, text);
      assert s.res.Ready() == Some(Complaint(kind, text));
    }
    hide Failed, Created, Updated;
    Frame(defaults, res, remote, w);
    assert res.finalizers + [] == res.finalizers;
  }
}
