/** A resource can be read back from its document: nothing of it is lost or misplaced on the way to the API server. */
module Documents {
  import opened Common
  import opened Resources
  import opened MergePatch
  import opened Patches
  import Steps
  import Wire

  type Json = Patches.Json

  function TextIn(m: map<Name, Json>, n: Name): string { if n in m && m[n].Str? then m[n].s else "" }

  function FlagIn(m: map<Name, Json>, n: Name): bool { n in m && m[n].Bool? && m[n].b }

  function NumberIn(m: map<Name, Json>, n: Name): int { if n in m && m[n].Num? then m[n].n else 0 }

  function TextsOf(items: seq<Json>): seq<string>
  {
    seq(|items|, i requires 0 <= i < |items| => if items[i].Str? then items[i].s else "")
  }

  function ListIn(m: map<Name, Json>, n: Name): Strings
  {
    if n in m && m[n].List? then Some(TextsOf(m[n].items)) else None
  }

  /** The spec in the members `m` of a section, of the kind of `like`. */
  function SpecIn(m: map<Name, Json>, like: Spec): Spec
  {
    if like.AliasSpec? then
      AliasSpec(TextIn(m, NameMember), TextIn(m, Domain), TextIn(m, Comment), ListIn(m, Destination),
                FlagIn(m, Wildcard))
    else if like.DomainSpec? then
      DomainSpec(TextIn(m, NameMember), TextIn(m, Comment), NumberIn(m, MaxUsers), NumberIn(m, MaxAliases),
                 NumberIn(m, MaxQuotaBytes), FlagIn(m, SignupEnabled), ListIn(m, Alternatives))
    else
      UserSpec(TextIn(m, NameMember), TextIn(m, Domain), FlagIn(m, AllowSpoofing), FlagIn(m, ChangePassword),
               TextIn(m, Comment), TextIn(m, DisplayedName), FlagIn(m, Enabled), FlagIn(m, EnableIMAP),
               FlagIn(m, EnablePOP), FlagIn(m, ForwardEnabled), ListIn(m, ForwardDestination), FlagIn(m, ForwardKeep),
               FlagIn(m, GlobalAdmin), TextIn(m, PasswordSecret), TextIn(m, PasswordKey), NumberIn(m, QuotaBytes),
               TextIn(m, RawPassword), FlagIn(m, ReplyEnabled), TextIn(m, ReplySubject), TextIn(m, ReplyBody),
               TextIn(m, ReplyStartDate), TextIn(m, ReplyEndDate), FlagIn(m, SpamEnabled),
               FlagIn(m, SpamMarkAsRead), NumberIn(m, SpamThreshold))
  }

  function StatusIn(text: string): Status
  {
    if text == "True" then True else if text == "False" then False else Unknown
  }

  function ConditionIn(d: Json): Condition
  {
    if d.Object?
    then Condition(TextIn(d.members, CType), StatusIn(TextIn(d.members, CStatus)), TextIn(d.members, CReason),
                   TextIn(d.members, CMessage))
    else Condition("", Unknown, "", "")
  }

  function ConditionsOf(items: seq<Json>): seq<Condition>
  {
    seq(|items|, i requires 0 <= i < |items| => ConditionIn(items[i]))
  }

  function ConditionsIn(m: map<Name, Json>): seq<Condition>
  {
    if Conditions in m && m[Conditions].List? then ConditionsOf(m[Conditions].items) else []
  }

  function MembersOf(d: Json, section: Name): map<Name, Json>
  {
    if d.Object? && section in d.members && d.members[section].Object? then d.members[section].members else map[]
  }

  function ResourceIn(d: Json, like: Spec): Resource
  {
    var finalizers := ListIn(MembersOf(d, Metadata), Finalizers);
    Resource(if finalizers.None? then [] else finalizers.value, FlagIn(MembersOf(d, Metadata), DeletionTimestamp),
             SpecIn(MembersOf(d, SpecSection), like), ConditionsIn(MembersOf(d, StatusSection)))
  }

  /** An empty list is not in the document, so it comes back as a nil one. */
  function EmptyAsNil(spec: Spec): Spec
  {
    if spec.AliasSpec? then spec.(destination := NilIfEmpty(spec.destination))
    else if spec.DomainSpec? then spec.(alternatives := NilIfEmpty(spec.alternatives))
    else spec.(forwardDestination := NilIfEmpty(spec.forwardDestination))
  }

  function NilIfEmpty(list: Strings): Strings { if list == Some([]) then None else list }

  // ---------- members ----------

  lemma MemberFound(spec: Spec, n: Name)
    ensures n in SpecMembers(spec) <==> SpecMember(spec, n).Some?
    ensures n in SpecMembers(spec) ==> SpecMembers(spec)[n] == SpecMember(spec, n).value
  {
  }

  lemma TextBack(spec: Spec, n: Name, text: string)
    requires SpecMember(spec, n) == Text(text) || SpecMember(spec, n) == Some(Str(text))
    ensures TextIn(SpecMembers(spec), n) == text
  {
    MemberFound(spec, n);
    hide SpecMembers, SpecMember;
  }

  lemma FlagBack(spec: Spec, n: Name, b: bool)
    requires SpecMember(spec, n) == Flag(b)
    ensures FlagIn(SpecMembers(spec), n) == b
  {
    MemberFound(spec, n);
    hide SpecMembers, SpecMember;
  }

  lemma NumberBack(spec: Spec, n: Name, i: int)
    requires SpecMember(spec, n) == Number(i)
    ensures NumberIn(SpecMembers(spec), n) == i
  {
    MemberFound(spec, n);
    hide SpecMembers, SpecMember;
  }

  lemma TextsBack(items: seq<string>)
    ensures TextsOf(Texts(items)) == items
  {
  }

  lemma ListBack(spec: Spec, n: Name, list: Strings)
    requires SpecMember(spec, n) == TextList(list)
    ensures ListIn(SpecMembers(spec), n) == NilIfEmpty(list)
  {
    MemberFound(spec, n);
    hide SpecMembers, SpecMember;
    if list.Some? {
      TextsBack(list.value);
    }
  }

  // ---------- sections ----------

  lemma SmallSpecBack(spec: Spec)
    requires !spec.UserSpec?
    ensures SpecIn(SpecMembers(spec), spec) == EmptyAsNil(spec)
  {
    hide SpecMembers, TextIn, FlagIn, NumberIn, ListIn, Text, Flag, Number, TextList;
    if spec.AliasSpec? {
      TextBack(spec, NameMember, spec.name);
      TextBack(spec, Domain, spec.domain);
      TextBack(spec, Comment, spec.comment);
      ListBack(spec, Destination, spec.destination);
      FlagBack(spec, Wildcard, spec.wildcard);
    } else {
      TextBack(spec, NameMember, spec.name);
      TextBack(spec, Comment, spec.comment);
      NumberBack(spec, MaxUsers, spec.maxUsers);
      NumberBack(spec, MaxAliases, spec.maxAliases);
      NumberBack(spec, MaxQuotaBytes, spec.maxQuotaBytes);
      FlagBack(spec, SignupEnabled, spec.signupEnabled);
      ListBack(spec, Alternatives, spec.alternatives);
    }
  }

  lemma AccountBack(spec: Spec)
    requires spec.UserSpec?
    ensures var m := SpecMembers(spec);
            && TextIn(m, NameMember) == spec.name && TextIn(m, Domain) == spec.domain
            && TextIn(m, Comment) == spec.comment && TextIn(m, DisplayedName) == spec.displayedName
  {
    hide SpecMembers, TextIn, Text, Flag, Number, TextList;
    TextBack(spec, NameMember, spec.name);
    TextBack(spec, Domain, spec.domain);
    TextBack(spec, Comment, spec.comment);
    TextBack(spec, DisplayedName, spec.displayedName);
  }

  lemma SecretsBack(spec: Spec)
    requires spec.UserSpec?
    ensures var m := SpecMembers(spec);
            && TextIn(m, PasswordSecret) == spec.passwordSecret && TextIn(m, PasswordKey) == spec.passwordKey
            && TextIn(m, RawPassword) == spec.rawPassword && NumberIn(m, QuotaBytes) == spec.quotaBytes
  {
    hide SpecMembers, TextIn, NumberIn, Text, Flag, Number, TextList;
    TextBack(spec, PasswordSecret, spec.passwordSecret);
    TextBack(spec, PasswordKey, spec.passwordKey);
    TextBack(spec, RawPassword, spec.rawPassword);
    NumberBack(spec, QuotaBytes, spec.quotaBytes);
  }

  lemma FlagsBack(spec: Spec)
    requires spec.UserSpec?
    ensures var m := SpecMembers(spec);
            && FlagIn(m, AllowSpoofing) == spec.allowSpoofing && FlagIn(m, ChangePassword) == spec.changePassword
            && FlagIn(m, Enabled) == spec.enabled && FlagIn(m, EnableIMAP) == spec.enableImap
            && FlagIn(m, EnablePOP) == spec.enablePop && FlagIn(m, GlobalAdmin) == spec.globalAdmin
  {
    hide SpecMembers, FlagIn, Text, Flag, Number, TextList;
    FlagBack(spec, AllowSpoofing, spec.allowSpoofing);
    FlagBack(spec, ChangePassword, spec.changePassword);
    FlagBack(spec, Enabled, spec.enabled);
    FlagBack(spec, EnableIMAP, spec.enableImap);
    FlagBack(spec, EnablePOP, spec.enablePop);
    FlagBack(spec, GlobalAdmin, spec.globalAdmin);
  }

  lemma MailBack(spec: Spec)
    requires spec.UserSpec?
    ensures var m := SpecMembers(spec);
            && FlagIn(m, ForwardEnabled) == spec.forwardEnabled && FlagIn(m, ForwardKeep) == spec.forwardKeep
            && ListIn(m, ForwardDestination) == NilIfEmpty(spec.forwardDestination)
            && FlagIn(m, SpamEnabled) == spec.spamEnabled && FlagIn(m, SpamMarkAsRead) == spec.spamMarkAsRead
            && NumberIn(m, SpamThreshold) == spec.spamThreshold
  {
    hide SpecMembers, FlagIn, ListIn, NumberIn, Text, Flag, Number, TextList;
    FlagBack(spec, ForwardEnabled, spec.forwardEnabled);
    FlagBack(spec, ForwardKeep, spec.forwardKeep);
    ListBack(spec, ForwardDestination, spec.forwardDestination);
    FlagBack(spec, SpamEnabled, spec.spamEnabled);
    FlagBack(spec, SpamMarkAsRead, spec.spamMarkAsRead);
    NumberBack(spec, SpamThreshold, spec.spamThreshold);
  }

  lemma ReplyBack(spec: Spec)
    requires spec.UserSpec?
    ensures var m := SpecMembers(spec);
            && FlagIn(m, ReplyEnabled) == spec.replyEnabled && TextIn(m, ReplySubject) == spec.replySubject
            && TextIn(m, ReplyBody) == spec.replyBody && TextIn(m, ReplyStartDate) == spec.replyStartDate
            && TextIn(m, ReplyEndDate) == spec.replyEndDate
  {
    hide SpecMembers, FlagIn, TextIn, Text, Flag, Number, TextList;
    FlagBack(spec, ReplyEnabled, spec.replyEnabled);
    TextBack(spec, ReplySubject, spec.replySubject);
    TextBack(spec, ReplyBody, spec.replyBody);
    TextBack(spec, ReplyStartDate, spec.replyStartDate);
    TextBack(spec, ReplyEndDate, spec.replyEndDate);
  }

  lemma SpecBack(spec: Spec)
    ensures SpecIn(SpecMembers(spec), spec) == EmptyAsNil(spec)
  {
    hide SpecMembers, TextIn, FlagIn, NumberIn, ListIn, NilIfEmpty;
    if spec.UserSpec? {
      AccountBack(spec);
      SecretsBack(spec);
      FlagsBack(spec);
      MailBack(spec);
      ReplyBack(spec);
    } else {
      SmallSpecBack(spec);
    }
  }

  lemma ConditionBack(c: Condition)
    ensures ConditionIn(ConditionDocument(c)) == c
  {
    assert "True"[0] == 'T' && "False"[0] == 'F' && "Unknown"[0] == 'U';
  }

  lemma ConditionsBack(conditions: seq<Condition>)
    ensures ConditionsIn(StatusMembers(conditions)) == conditions
  {
    hide ConditionDocument, ConditionIn;
    forall i | 0 <= i < |conditions|
      ensures ConditionIn(ConditionDocument(conditions[i])) == conditions[i]
    {
      ConditionBack(conditions[i]);
    }
  }

  /** Round trip: finalizers, deletion, spec and conditions are read out of a document as they were, but for an empty
      list of the spec. */
  lemma DocumentRead(res: Resource)
    ensures ResourceIn(Document(res), res.spec) == res.(spec := EmptyAsNil(res.spec))
  {
    hide SpecMembers, SpecIn, StatusMembers, ConditionsIn, EmptyAsNil, Texts, TextsOf;
    SpecBack(res.spec);
    ConditionsBack(res.conditions);
    TextsBack(res.finalizers);
  }

  /** What is zero is not in a document, but for names. */
  lemma ZeroOmitted(spec: Spec, n: Name)
    requires n in SpecMembers(spec) && n !in {NameMember, Domain}
    ensures SpecMembers(spec)[n] !in {Str(""), Bool(false), Num(0), List([])}
  {
    MemberFound(spec, n);
    MemberNonzero(spec, n);
    hide SpecMembers, SpecMember;
  }

  predicate Nonzero(m: Option<Json>) { m.Some? ==> m.value !in {Str(""), Bool(false), Num(0), List([])} }

  lemma MembersNonzero(s: string, b: bool, i: int, list: Strings)
    ensures Nonzero(Text(s)) && Nonzero(Flag(b)) && Nonzero(Number(i)) && Nonzero(TextList(list))
  {
    assert list.Some? ==> |Texts(list.value)| == |list.value|;
  }

  lemma MemberNonzero(spec: Spec, n: Name)
    requires n !in {NameMember, Domain}
    ensures Nonzero(SpecMember(spec, n))
  {
    hide Text, Flag, Number, TextList, Nonzero;
    forall s: string
      ensures Nonzero(Text(s))
    {
      MembersNonzero(s, false, 0, None);
    }
    forall b: bool
      ensures Nonzero(Flag(b))
    {
      MembersNonzero("", b, 0, None);
    }
    forall i: int
      ensures Nonzero(Number(i))
    {
      MembersNonzero("", false, i, None);
    }
    forall list: Strings
      ensures Nonzero(TextList(list))
    {
      MembersNonzero("", false, 0, list);
    }
    assert Nonzero(None) by { NoneNonzero(); }
  }

  lemma NoneNonzero()
    ensures Nonzero(None)
  {
  }
}
