/** The deferred patches as merge patches: what the API server stores when the difference between the snapshot
    and the changed resource is applied to a resource that others may have edited since. */
module Patches {
  import opened Common
  import opened Resources
  import opened MergePatch
  import opened Steps
  import Protocol
  import Wire
  import opened Runs

  /** Member names of a resource's JSON document. */
  datatype Name =
    | Metadata | SpecSection | StatusSection
    | Finalizers | DeletionTimestamp
    | Conditions | CType | CStatus | CReason | CMessage
    | NameMember | Domain | Comment | Destination | Wildcard
    | MaxUsers | MaxAliases | MaxQuotaBytes | SignupEnabled | Alternatives
    | AllowSpoofing | ChangePassword | DisplayedName | Enabled | EnableIMAP | EnablePOP
    | ForwardEnabled | ForwardDestination | ForwardKeep | GlobalAdmin | PasswordSecret | PasswordKey
    | QuotaBytes | RawPassword | ReplyEnabled | ReplySubject | ReplyBody | ReplyStartDate | ReplyEndDate
    | SpamEnabled | SpamMarkAsRead | SpamThreshold

  type Json = Tree<Name>

  // ---------- documents (`omitempty` leaves out zero values) ----------

  function Text(s: string): Option<Json> { if s == "" then None else Some(Str(s)) }

  function Flag(b: bool): Option<Json> { if b then Some(Bool(true)) else None }

  function Number(n: int): Option<Json> { if n == 0 then None else Some(Num(n)) }

  function Texts(s: seq<string>): seq<Json> { seq(|s|, i requires 0 <= i < |s| => Str(s[i])) }

  function TextList(s: Strings): Option<Json>
  {
    if s.None? || s.value == [] then None else Some(List(Texts(s.value)))
  }

  function AliasMember(spec: Spec, n: Name): Option<Json>
    requires spec.AliasSpec?
  {
    match n
    case NameMember => Some(Str(spec.name))
    case Domain => Some(Str(spec.domain))
    case Comment => Text(spec.comment)
    case Destination => TextList(spec.destination)
    case Wildcard => Flag(spec.wildcard)
    case _ => None
  }

  function DomainMember(spec: Spec, n: Name): Option<Json>
    requires spec.DomainSpec?
  {
    match n
    case NameMember => Some(Str(spec.name))
    case Comment => Text(spec.comment)
    case MaxUsers => Number(spec.maxUsers)
    case MaxAliases => Number(spec.maxAliases)
    case MaxQuotaBytes => Number(spec.maxQuotaBytes)
    case SignupEnabled => Flag(spec.signupEnabled)
    case Alternatives => TextList(spec.alternatives)
    case _ => None
  }

  function AccountMember(spec: Spec, n: Name): Option<Json>
    requires spec.UserSpec?
  {
    match n
    case NameMember => Some(Str(spec.name))
    case Domain => Some(Str(spec.domain))
    case AllowSpoofing => Flag(spec.allowSpoofing)
    case ChangePassword => Flag(spec.changePassword)
    case Comment => Text(spec.comment)
    case DisplayedName => Text(spec.displayedName)
    case Enabled => Flag(spec.enabled)
    case EnableIMAP => Flag(spec.enableImap)
    case EnablePOP => Flag(spec.enablePop)
    case GlobalAdmin => Flag(spec.globalAdmin)
    case PasswordSecret => Text(spec.passwordSecret)
    case PasswordKey => Text(spec.passwordKey)
    case QuotaBytes => Number(spec.quotaBytes)
    case _ => None
  }

  function MailMember(spec: Spec, n: Name): Option<Json>
    requires spec.UserSpec?
  {
    match n
    case ForwardEnabled => Flag(spec.forwardEnabled)
    case ForwardDestination => TextList(spec.forwardDestination)
    case ForwardKeep => Flag(spec.forwardKeep)
    case ReplyEnabled => Flag(spec.replyEnabled)
    case ReplySubject => Text(spec.replySubject)
    case ReplyBody => Text(spec.replyBody)
    case ReplyStartDate => Text(spec.replyStartDate)
    case ReplyEndDate => Text(spec.replyEndDate)
    case SpamEnabled => Flag(spec.spamEnabled)
    case SpamMarkAsRead => Flag(spec.spamMarkAsRead)
    case SpamThreshold => Number(spec.spamThreshold)
    case _ => None
  }

  function UserMember(spec: Spec, n: Name): Option<Json>
    requires spec.UserSpec?
  {
    if n == RawPassword then Text(spec.rawPassword)
    else
      var account := AccountMember(spec, n);
      if account.Some? then account else MailMember(spec, n)
  }

  function SpecMember(spec: Spec, n: Name): Option<Json>
  {
    if spec.AliasSpec? then AliasMember(spec, n)
    else if spec.DomainSpec? then DomainMember(spec, n)
    else UserMember(spec, n)
  }

  function SpecMembers(spec: Spec): map<Name, Json>
  {
    map n: Name | SpecMember(spec, n).Some? :: SpecMember(spec, n).value
  }

  function MetadataMembers(res: Resource): map<Name, Json>
  {
    With(if res.deleting then map[DeletionTimestamp := Bool(true)] else map[], Finalizers,
         TextList(Some(res.finalizers)))
  }

  function StatusText(s: Status): string
  {
    match s
    case True => "True"
    case False => "False"
    case Unknown => "Unknown"
  }

  function ConditionDocument(c: Condition): Json
  {
    Object(map[CType := Str(c.ctype), CStatus := Str(StatusText(c.status)), CReason := Str(c.reason),
               CMessage := Str(c.message)])
  }

  function ConditionDocuments(s: seq<Condition>): seq<Json>
  {
    seq(|s|, i requires 0 <= i < |s| => ConditionDocument(s[i]))
  }

  function ConditionList(s: seq<Condition>): Option<Json>
  {
    if s == [] then None else Some(List(ConditionDocuments(s)))
  }

  function StatusMembers(conditions: seq<Condition>): map<Name, Json>
  {
    With(map[], Conditions, ConditionList(conditions))
  }

  function Document(res: Resource): (d: Json)
    ensures d.Object? && Metadata in d.members && SpecSection in d.members && StatusSection in d.members
    ensures d.members[Metadata].Object? && d.members[SpecSection].Object?
  {
    Object(map[Metadata := Object(MetadataMembers(res)),
               SpecSection := Object(SpecMembers(res.spec)),
               StatusSection := Object(StatusMembers(res.conditions))])
  }

  // ---------- documents determine their lists ----------

  lemma TextsInjective(a: seq<string>, b: seq<string>)
    ensures Texts(a) == Texts(b) <==> a == b
  {
    if Texts(a) == Texts(b) {
      assert |a| == |Texts(a)| == |b|;
      forall i | 0 <= i < |a|
        ensures a[i] == b[i]
      {
        assert Texts(a)[i] == Str(a[i]) && Texts(b)[i] == Str(b[i]);
      }
    }
  }

  lemma ConditionInjective(a: Condition, b: Condition)
    ensures ConditionDocument(a) == ConditionDocument(b) <==> a == b
  {
    var x, y := ConditionDocument(a).members, ConditionDocument(b).members;
    assert x[CType] == Str(a.ctype) && y[CType] == Str(b.ctype);
    assert x[CStatus] == Str(StatusText(a.status)) && y[CStatus] == Str(StatusText(b.status));
    assert x[CReason] == Str(a.reason) && y[CReason] == Str(b.reason);
    assert x[CMessage] == Str(a.message) && y[CMessage] == Str(b.message);
    assert StatusText(a.status)[0] == StatusText(b.status)[0] <==> a.status == b.status;
  }

  lemma ConditionsInjective(a: seq<Condition>, b: seq<Condition>)
    ensures ConditionDocuments(a) == ConditionDocuments(b) <==> a == b
  {
    if ConditionDocuments(a) == ConditionDocuments(b) {
      assert |a| == |ConditionDocuments(a)| == |b|;
      forall i | 0 <= i < |a|
        ensures a[i] == b[i]
      {
        assert ConditionDocuments(a)[i] == ConditionDocument(a[i]);
        assert ConditionDocuments(b)[i] == ConditionDocument(b[i]);
        ConditionInjective(a[i], b[i]);
      }
    }
  }

  // ---------- section by section ----------

  lemma MetadataPatched(server: Resource, before: Resource, after: Resource)
    requires after.deleting == before.deleting
    ensures Merge(Object(MetadataMembers(server)),
                  CreatePatch(Object(MetadataMembers(before)), Object(MetadataMembers(after)))) ==
            Object(MetadataMembers(MetaPatched(server, before, after)))
  {
    hide Merge, CreatePatch, Texts;
    TextsInjective(before.finalizers, after.finalizers);
    var m: map<Name, Json> := if before.deleting then map[DeletionTimestamp := Bool(true)] else map[];
    OneMemberPatched(MetadataMembers(server), m, Finalizers,
                     TextList(Some(before.finalizers)), TextList(Some(after.finalizers)));
    WithTwice(if server.deleting then map[DeletionTimestamp := Bool(true)] else map[], Finalizers,
              TextList(Some(server.finalizers)), TextList(Some(after.finalizers)));
  }

  lemma WithTwice(m: map<Name, Json>, k: Name, x: Option<Json>, y: Option<Json>)
    ensures With(With(m, k, x), k, y) == With(m, k, y)
  {
  }

  lemma ConditionsPatched(server: Resource, before: Resource, after: Resource)
    ensures Merge(Object(StatusMembers(server.conditions)),
                  CreatePatch(Object(StatusMembers(before.conditions)), Object(StatusMembers(after.conditions)))) ==
            Object(StatusMembers(StatusPatched(server, before, after).conditions))
  {
    hide Merge, CreatePatch, ConditionDocuments;
    ConditionsInjective(before.conditions, after.conditions);
    OneMemberPatched(StatusMembers(server.conditions), map[], Conditions,
                     ConditionList(before.conditions), ConditionList(after.conditions));
    WithTwice(map[], Conditions, ConditionList(server.conditions), ConditionList(after.conditions));
  }

  lemma AccountIgnoresPassword(spec: Spec, password: string, n: Name)
    requires spec.UserSpec?
    ensures AccountMember(spec.(rawPassword := password), n) == AccountMember(spec, n)
  {
    hide Text, Flag, Number, TextList;
  }

  lemma MailIgnoresPassword(spec: Spec, password: string, n: Name)
    requires spec.UserSpec?
    ensures MailMember(spec.(rawPassword := password), n) == MailMember(spec, n)
  {
    hide Text, Flag, Number, TextList;
  }

  lemma PasswordMembers(spec: Spec, password: string)
    requires spec.UserSpec?
    ensures SpecMembers(spec.(rawPassword := password)) == With(SpecMembers(spec), RawPassword, Text(password))
  {
    hide AccountMember, MailMember, Text;
    var filled := spec.(rawPassword := password);
    forall n: Name
      ensures AccountMember(filled, n) == AccountMember(spec, n) && MailMember(filled, n) == MailMember(spec, n)
    {
      AccountIgnoresPassword(spec, password, n);
      MailIgnoresPassword(spec, password, n);
    }
  }

  lemma PasswordPatched(server: Spec, before: Spec, password: string)
    requires server.UserSpec? && before.UserSpec? && before.rawPassword == "" && password != ""
    ensures Merge(Object(SpecMembers(server)),
                  CreatePatch(Object(SpecMembers(before)), Object(SpecMembers(before.(rawPassword := password))))) ==
            Object(SpecMembers(server.(rawPassword := password)))
  {
    hide SpecMembers, Merge, CreatePatch, With;
    PasswordMembers(before, "");
    PasswordMembers(before, password);
    PasswordMembers(server, password);
    assert before.(rawPassword := "") == before;
    OneMemberPatched(SpecMembers(server), SpecMembers(before), RawPassword, Text(""), Text(password));
  }

  lemma SpecPatched(server: Resource, before: Resource, after: Resource)
    requires PasswordFilled(before.spec, after.spec) && server.spec.Kind() == before.spec.Kind()
    ensures Merge(Object(SpecMembers(server.spec)),
                  CreatePatch(Object(SpecMembers(before.spec)), Object(SpecMembers(after.spec)))) ==
            Object(SpecMembers(MetaPatched(server, before, after).spec))
  {
    hide SpecMembers, Merge, CreatePatch;
    if after.spec == before.spec {
      Unpatched(Object(SpecMembers(server.spec)), Object(SpecMembers(before.spec)));
    } else {
      PasswordPatched(server.spec, before.spec, after.spec.rawPassword);
    }
  }

  lemma Unpatched(s: Json, a: Json)
    requires s.Object? && a.Object?
    ensures Merge(s, CreatePatch(a, a)) == s
  {
    NothingChanged(a, a);
    assert Merge(s, CreatePatch(a, a)).members == s.members;
  }

  /** The merge patch between snapshot and changed resource, applied to what the server holds by then, stores
      exactly what the run model says: finalizers and conditions if the reconcile changed them, a filled-in
      password, and everything else as the server has it. */
  lemma PatchedDocument(server: Resource, before: Resource, after: Resource)
    requires after.deleting == before.deleting && PasswordFilled(before.spec, after.spec)
    requires server.spec.Kind() == before.spec.Kind()
    ensures Merge(Document(server), CreatePatch(Document(before), Document(after))) ==
            Document(StatusPatched(MetaPatched(server, before, after), before, after))
  {
    hide MetadataMembers, SpecMembers, StatusMembers, Merge, CreatePatch;
    var s, a, b := Document(server), Document(before), Document(after);
    var merged := Merge(s, CreatePatch(a, b));
    var stored := StatusPatched(MetaPatched(server, before, after), before, after);
    SectionPatched(s, a, b, Metadata);
    SectionPatched(s, a, b, SpecSection);
    SectionPatched(s, a, b, StatusSection);
    MetadataPatched(server, before, after);
    SpecPatched(server, before, after);
    ConditionsPatched(server, before, after);
    assert MetadataMembers(stored) == MetadataMembers(MetaPatched(server, before, after)) by {
      SameMetadata(stored, MetaPatched(server, before, after));
    }
    forall k | k in merged.members.Keys + Document(stored).members.Keys
      ensures k in merged.members && k in Document(stored).members && merged.members[k] == Document(stored).members[k]
    {
      PatchedMember(s, a, b, k);
    }
    SameMembers(merged.members, Document(stored).members);
  }

  lemma SameMetadata(a: Resource, b: Resource)
    requires a.finalizers == b.finalizers && a.deleting == b.deleting
    ensures MetadataMembers(a) == MetadataMembers(b)
  {
  }

  // ---------- the two endpoints ----------

  /** The main endpoint takes everything from a merged document but the status. */
  function MainMerged(d: Json, patch: Json): Json
    requires d.Object? && StatusSection in d.members && patch.Object?
  {
    Object(Merge(d, patch).members[StatusSection := d.members[StatusSection]])
  }

  /** The status endpoint takes the status only. */
  function StatusMerged(d: Json, patch: Json): Json
    requires d.Object? && patch.Object?
  {
    var merged := Merge(d, patch);
    if StatusSection in merged.members then Object(d.members[StatusSection := merged.members[StatusSection]]) else d
  }

  /** The object is being deleted and nothing holds it any more. */
  predicate Released(d: Json)
  {
    && d.Object? && Metadata in d.members && d.members[Metadata].Object?
    && DeletionTimestamp in d.members[Metadata].members && Finalizers !in d.members[Metadata].members
  }

  function Documented(res: Option<Resource>): Option<Json>
  {
    if res.None? then None else Some(Document(res.value))
  }

  /** `after` is a changed copy of `before` as a reconcile produces it. */
  predicate Changed(before: Resource, after: Resource)
  {
    after.deleting == before.deleting && PasswordFilled(before.spec, after.spec)
  }

  lemma MainEndpoint(server: Resource, before: Resource, after: Resource)
    requires Changed(before, after) && server.spec.Kind() == before.spec.Kind()
    ensures MainMerged(Document(server), CreatePatch(Document(before), Document(after))) ==
            Document(MetaPatched(server, before, after))
  {
    hide MetadataMembers, SpecMembers, StatusMembers, Merge, CreatePatch;
    PatchedDocument(server, before, after);
    SameMetadata(StatusPatched(MetaPatched(server, before, after), before, after), MetaPatched(server, before, after));
  }

  lemma StatusEndpoint(server: Resource, before: Resource, after: Resource)
    requires Changed(before, after) && server.spec.Kind() == before.spec.Kind()
    ensures StatusMerged(Document(server), CreatePatch(Document(before), Document(after))) ==
            Document(StatusPatched(server, before, after))
  {
    hide MetadataMembers, SpecMembers, StatusMembers, Merge, CreatePatch;
    PatchedDocument(server, before, after);
    SameMetadata(StatusPatched(server, before, after), server);
  }

  lemma ReleasedExactly(res: Resource)
    ensures Released(Document(res)) <==> res.deleting && res.finalizers == []
    ensures (if Released(Document(res)) then None else Some(Document(res))) == Documented(Collected(res))
  {
  }

  lemma SpecLookup(res: Resource, n: Name)
    ensures Lookup(Document(res), [SpecSection, n]) ==
            if n in SpecMembers(res.spec) then Some(SpecMembers(res.spec)[n]) else None
  {
    hide SpecMembers;
    var path := [SpecSection, n];
    assert path[1..] == [n] && [n][1..] == [];
    var d := Document(res);
    assert Lookup(d, path) == Lookup(d.members[SpecSection], [n]);
    if n in SpecMembers(res.spec) {
      assert Lookup(d.members[SpecSection], [n]) == Lookup(SpecMembers(res.spec)[n], []);
    }
  }

  lemma FinalizerLookup(res: Resource)
    ensures Lookup(Document(res), [Metadata, Finalizers]) == TextList(Some(res.finalizers))
  {
    var path := [Metadata, Finalizers];
    assert path[1..] == [Finalizers] && [Finalizers][1..] == [];
    hide Texts;
    var d := Document(res);
    assert Lookup(d, path) == Lookup(d.members[Metadata], [Finalizers]);
    if res.finalizers != [] {
      assert Lookup(d.members[Metadata], [Finalizers]) == Lookup(MetadataMembers(res)[Finalizers], []);
    }
  }

  /** No reconcile reverts a spec that a user stored while it ran: the patch, applied to whatever the server has by
      then, leaves every field of the spec as it is there, but for a password that the reconcile filled in. Applied
      to the resource as it was read, the patch gives the changed resource. */
  lemma EditsSurvive(defaults: Wire.Record, res: Resource, remote: Option<Wire.Record>, w: Protocol.Weather,
                     server: Resource, n: Name)
    requires server.spec.Kind() == res.spec.Kind()
    ensures var after := Protocol.Reconcile(defaults, res, remote, w).res;
            var patch := CreatePatch(Document(res), Document(after));
            && (n != RawPassword || after.spec == res.spec ==>
                  Lookup(Merge(Document(server), patch), [SpecSection, n]) ==
                  Lookup(Document(server), [SpecSection, n]))
            && Merge(Document(res), patch) == Document(after)
  {
    hide Protocol.Reconcile, Document, Merge, CreatePatch, Lookup, SpecMembers;
    Frame(defaults, res, remote, w);
    var after := Protocol.Reconcile(defaults, res, remote, w).res;
    var stored := StatusPatched(MetaPatched(server, res, after), res, after);
    PatchedDocument(server, res, after);
    PatchedDocument(res, res, after);
    SpecLookup(server, n);
    SpecLookup(stored, n);
    if after.spec != res.spec {
      PasswordMembers(server.spec, after.spec.rawPassword);
    }
    assert StatusPatched(MetaPatched(res, res, after), res, after) == after;
  }

  /** The finalizer list is not so lucky, being replaced as a whole: what others made of it while the reconcile ran
      survives exactly if the reconcile leaves the list alone, or makes the same of it. */
  lemma FinalizersReplaced(defaults: Wire.Record, res: Resource, remote: Option<Wire.Record>, w: Protocol.Weather,
                           server: Resource)
    requires server.spec.Kind() == res.spec.Kind()
    ensures var after := Protocol.Reconcile(defaults, res, remote, w).res;
            var patch := CreatePatch(Document(res), Document(after));
            Lookup(Merge(Document(server), patch), [Metadata, Finalizers]) ==
            Lookup(Document(server), [Metadata, Finalizers])
            <==> after.finalizers == res.finalizers || after.finalizers == server.finalizers
  {
    hide Protocol.Reconcile, Document, Merge, CreatePatch, Lookup, Texts;
    Frame(defaults, res, remote, w);
    var after := Protocol.Reconcile(defaults, res, remote, w).res;
    PatchedDocument(server, res, after);
    FinalizerLookup(server);
    FinalizerLookup(StatusPatched(MetaPatched(server, res, after), res, after));
    TextsInjective(after.finalizers, server.finalizers);
  }
}
