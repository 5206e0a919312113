/** A spec survives its way into a wire record: each field is found again under its own name. */
module SpecRecords {
  import opened Common
  import opened Json
  import opened Wire
  import opened Resources
  import opened Steps
  import Dates

  // ---------- reading a record back into a spec ----------

  function TextOf(r: Record, f: Field): string { if f in r && r[f].Str? then r[f].s else "" }

  function FlagOf(r: Record, f: Field): bool { f in r && r[f].Bool? && r[f].b }

  function NumberOf(r: Record, f: Field): int { if f in r && r[f].Num? then r[f].n else 0 }

  function ListOf(r: Record, f: Field): Strings { if f in r && r[f].List? then Some(r[f].items) else None }

  /** The spec a record was built from; the parts of the name and the reference to a secret are not in it and
      are taken from `like`. */
  function Rebuilt(r: Record, like: Spec): Spec
  {
    match like
    case AliasSpec(name, domain, _, _, _) =>
      AliasSpec(name, domain, TextOf(r, Comment), ListOf(r, Destination), FlagOf(r, Wildcard))
    case DomainSpec(_, _, _, _, _, _, _) =>
      DomainSpec(TextOf(r, Name), TextOf(r, Comment), NumberOf(r, MaxUsers), NumberOf(r, MaxAliases),
                 NumberOf(r, MaxQuotaBytes), FlagOf(r, SignupEnabled), ListOf(r, Alternatives))
    case UserSpec(_, _, _, _, _, _, _, _, _, _, _, _, _, _, _, _, _, _, _, _, _, _, _, _, _) =>
      UserSpec(like.name, like.domain, FlagOf(r, AllowSpoofing), FlagOf(r, ChangePwNextLogin), TextOf(r, Comment),
               TextOf(r, DisplayedName), FlagOf(r, Enabled), FlagOf(r, EnableImap), FlagOf(r, EnablePop),
               FlagOf(r, ForwardEnabled), ListOf(r, ForwardDestination), FlagOf(r, ForwardKeep),
               FlagOf(r, GlobalAdmin), like.passwordSecret, like.passwordKey, NumberOf(r, QuotaBytes),
               TextOf(r, RawPassword), FlagOf(r, ReplyEnabled), TextOf(r, ReplySubject), TextOf(r, ReplyBody),
               TextOf(r, ReplyStartDate), TextOf(r, ReplyEndDate),
               FlagOf(r, SpamEnabled), FlagOf(r, SpamMarkAsRead), NumberOf(r, SpamThreshold))
  }

  // ---------- nothing is dropped ----------

  lemma UserListed(f: Field)
    requires UserPosition(f) < 24
    ensures Schema(UserKind)[UserPosition(f)] == f
  {
  }

  lemma FieldListed(spec: Spec, f: Field)
    requires FieldFromSpec(spec, f).Some?
    ensures f in Schema(spec.Kind())
  {
    if spec.AliasSpec? {
      assert Schema(AliasKind)[Position(AliasKind, f)] == f;
    } else if spec.DomainSpec? {
      assert Schema(DomainKind)[Position(DomainKind, f)] == f;
    } else {
      UserListed(f);
    }
  }

  lemma Carried(spec: Spec, f: Field)
    requires FromSpec(spec).Success?
    ensures var r := FromSpec(spec).value;
            && (f in r <==> FieldFromSpec(spec, f).Some?)
            && (f in r ==> r[f] == FieldFromSpec(spec, f).value)
  {
    hide Schema, FieldFromSpec;
    if FieldFromSpec(spec, f).Some? {
      FieldListed(spec, f);
    }
  }

  lemma FlagBack(spec: Spec, f: Field, b: bool)
    requires FromSpec(spec).Success? && FieldFromSpec(spec, f) == Some(Bool(b))
    ensures FlagOf(FromSpec(spec).value, f) == b
  {
    Carried(spec, f);
    hide FromSpec, FieldFromSpec;
  }

  lemma NumberBack(spec: Spec, f: Field, n: int)
    requires FromSpec(spec).Success? && FieldFromSpec(spec, f) == Some(Num(n))
    ensures NumberOf(FromSpec(spec).value, f) == n
  {
    Carried(spec, f);
    hide FromSpec, FieldFromSpec;
  }

  /** An absent text stands for the empty one: only an empty date is left out. */
  lemma TextBack(spec: Spec, f: Field, text: string)
    requires FromSpec(spec).Success?
    requires FieldFromSpec(spec, f) == Some(Str(text)) || (text == "" && FieldFromSpec(spec, f).None?)
    ensures TextOf(FromSpec(spec).value, f) == text
  {
    Carried(spec, f);
    hide FromSpec, FieldFromSpec;
  }

  lemma ListBack(spec: Spec, f: Field, list: Strings)
    requires FromSpec(spec).Success? && FieldFromSpec(spec, f) == Some(ListValue(list))
    ensures ListOf(FromSpec(spec).value, f) == list
  {
    Carried(spec, f);
    hide FromSpec, FieldFromSpec;
  }

  lemma UserAccessBack(spec: Spec)
    requires spec.UserSpec? && FromSpec(spec).Success?
    ensures var r := FromSpec(spec).value;
            && FlagOf(r, AllowSpoofing) == spec.allowSpoofing && FlagOf(r, ChangePwNextLogin) == spec.changePassword
            && FlagOf(r, Enabled) == spec.enabled && FlagOf(r, EnableImap) == spec.enableImap
            && FlagOf(r, EnablePop) == spec.enablePop && FlagOf(r, GlobalAdmin) == spec.globalAdmin
  {
    hide FromSpec, FlagOf, TextOf, NumberOf, ListOf, DateValue, ListValue, Spec.Key, AliasField, DomainField;
    FlagBack(spec, AllowSpoofing, spec.allowSpoofing);
    FlagBack(spec, ChangePwNextLogin, spec.changePassword);
    FlagBack(spec, Enabled, spec.enabled);
    FlagBack(spec, EnableImap, spec.enableImap);
    FlagBack(spec, EnablePop, spec.enablePop);
    FlagBack(spec, GlobalAdmin, spec.globalAdmin);
  }

  lemma UserMailBack(spec: Spec)
    requires spec.UserSpec? && FromSpec(spec).Success?
    ensures var r := FromSpec(spec).value;
            && FlagOf(r, ForwardEnabled) == spec.forwardEnabled && FlagOf(r, ForwardKeep) == spec.forwardKeep
            && FlagOf(r, SpamEnabled) == spec.spamEnabled && FlagOf(r, SpamMarkAsRead) == spec.spamMarkAsRead
            && NumberOf(r, SpamThreshold) == spec.spamThreshold && NumberOf(r, QuotaBytes) == spec.quotaBytes
  {
    hide FromSpec, FlagOf, TextOf, NumberOf, ListOf, DateValue, ListValue, Spec.Key, AliasField, DomainField;
    FlagBack(spec, ForwardEnabled, spec.forwardEnabled);
    FlagBack(spec, ForwardKeep, spec.forwardKeep);
    FlagBack(spec, SpamEnabled, spec.spamEnabled);
    FlagBack(spec, SpamMarkAsRead, spec.spamMarkAsRead);
    NumberBack(spec, SpamThreshold, spec.spamThreshold);
    NumberBack(spec, QuotaBytes, spec.quotaBytes);
  }

  lemma UserTextsBack(spec: Spec)
    requires spec.UserSpec? && FromSpec(spec).Success?
    ensures var r := FromSpec(spec).value;
            && TextOf(r, Comment) == spec.comment && TextOf(r, DisplayedName) == spec.displayedName
            && TextOf(r, RawPassword) == spec.rawPassword && ListOf(r, ForwardDestination) == spec.forwardDestination
  {
    hide FromSpec, FlagOf, TextOf, NumberOf, ListOf, DateValue, ListValue, Spec.Key, AliasField, DomainField;
    TextBack(spec, Comment, spec.comment);
    TextBack(spec, DisplayedName, spec.displayedName);
    TextBack(spec, RawPassword, spec.rawPassword);
    ListBack(spec, ForwardDestination, spec.forwardDestination);
  }

  lemma UserReplyBack(spec: Spec)
    requires spec.UserSpec? && FromSpec(spec).Success?
    ensures var r := FromSpec(spec).value;
            && FlagOf(r, ReplyEnabled) == spec.replyEnabled && TextOf(r, ReplySubject) == spec.replySubject
            && TextOf(r, ReplyBody) == spec.replyBody
  {
    hide FromSpec, FlagOf, TextOf, NumberOf, ListOf, DateValue, ListValue, Spec.Key, AliasField, DomainField;
    FlagBack(spec, ReplyEnabled, spec.replyEnabled);
    TextBack(spec, ReplySubject, spec.replySubject);
    TextBack(spec, ReplyBody, spec.replyBody);
  }

  lemma UserDatesBack(spec: Spec)
    requires spec.UserSpec? && FromSpec(spec).Success?
    ensures var r := FromSpec(spec).value;
            TextOf(r, ReplyStartDate) == spec.replyStartDate && TextOf(r, ReplyEndDate) == spec.replyEndDate
  {
    hide Schema, FieldFromSpec, Dates.Parse;
    assert spec.DatesParse();
    hide FromSpec, TextOf, DateValue;
    DateSentAsWritten(spec.replyStartDate);
    DateSentAsWritten(spec.replyEndDate);
    DateFields(spec);
    TextBack(spec, ReplyStartDate, spec.replyStartDate);
    TextBack(spec, ReplyEndDate, spec.replyEndDate);
  }

  lemma DateFields(spec: Spec)
    requires spec.UserSpec?
    ensures FieldFromSpec(spec, ReplyStartDate) == DateValue(spec.replyStartDate)
    ensures FieldFromSpec(spec, ReplyEndDate) == DateValue(spec.replyEndDate)
  {
    hide DateValue;
  }

  /** Round trip: the struct built from a spec holds every field of it, each under its own name, and under the
      identifying field the name by which the object is addressed. */
  lemma SpecRecovered(spec: Spec)
    requires FromSpec(spec).Success?
    ensures Rebuilt(FromSpec(spec).value, spec) == spec
    ensures TextOf(FromSpec(spec).value, Identity(spec.Kind())) == spec.Key()
  {
    hide FromSpec, FlagOf, TextOf, NumberOf, ListOf;
    TextBack(spec, Identity(spec.Kind()), spec.Key());
    if spec.UserSpec? {
      UserAccessBack(spec);
      UserMailBack(spec);
      UserTextsBack(spec);
      UserReplyBack(spec);
      UserDatesBack(spec);
    } else if spec.AliasSpec? {
      TextBack(spec, Comment, spec.comment);
      ListBack(spec, Destination, spec.destination);
      FlagBack(spec, Wildcard, spec.wildcard);
    } else {
      TextBack(spec, Comment, spec.comment);
      NumberBack(spec, MaxUsers, spec.maxUsers);
      NumberBack(spec, MaxAliases, spec.maxAliases);
      NumberBack(spec, MaxQuotaBytes, spec.maxQuotaBytes);
      FlagBack(spec, SignupEnabled, spec.signupEnabled);
      ListBack(spec, Alternatives, spec.alternatives);
    }
  }
}
