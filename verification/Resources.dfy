/** Custom resources (`api/v1alpha1`): spec, finalizers and conditions, and the wire records a spec asks for. */
module Resources {
  import opened Common
  import opened Json
  import opened Wire
  import Dates

  const FINALIZER := "operator.mailu.io/finalizer"

  /** A Go slice of strings by value; `None` is the nil slice. */
  type Strings = Option<seq<string>>

  datatype Spec =
    | AliasSpec(name: string, domain: string, comment: string, destination: Strings, wildcard: bool)
    | DomainSpec(name: string, comment: string, maxUsers: int, maxAliases: int, maxQuotaBytes: int,
                 signupEnabled: bool, alternatives: Strings)
    | UserSpec(name: string, domain: string, allowSpoofing: bool, changePassword: bool, comment: string,
               displayedName: string, enabled: bool, enableImap: bool, enablePop: bool,
               forwardEnabled: bool, forwardDestination: Strings, forwardKeep: bool, globalAdmin: bool,
               passwordSecret: string, passwordKey: string, quotaBytes: int, rawPassword: string,
               replyEnabled: bool, replySubject: string, replyBody: string,
               replyStartDate: string, replyEndDate: string,
               spamEnabled: bool, spamMarkAsRead: bool, spamThreshold: int)
  {
    function Kind(): Wire.Kind
    {
      if AliasSpec? then AliasKind else if DomainSpec? then DomainKind else UserKind
    }

    /** The name under which Mailu keeps the object. */
    function Key(): string
    {
      if DomainSpec? then name else name + "@" + domain
    }

    /** The only list of each spec. */
    function List(): Strings
    {
      if AliasSpec? then destination else if DomainSpec? then alternatives else forwardDestination
    }

    function WithList(list: Strings): (spec: Spec)
      ensures spec.List() == list && spec.Kind() == Kind() && spec.Key() == Key()
    {
      if AliasSpec? then this.(destination := list)
      else if DomainSpec? then this.(alternatives := list)
      else this.(forwardDestination := list)
    }

    predicate DatesParse()
    {
      UserSpec? ==>
        && (replyStartDate == "" || Dates.Parse(replyStartDate).Some?)
        && (replyEndDate == "" || Dates.Parse(replyEndDate).Some?)
    }
  }

  /** Same object in Mailu: the addressed name and the kind do not change. */
  predicate SameAddress(a: Spec, b: Spec) { a.Kind() == b.Kind() && a.Key() == b.Key() }

  function ListValue(list: Strings): Value { if list.None? then Null else List(list.value) }

  /** A date field is sent only when the spec sets it. */
  function DateValue(text: string): Option<Value>
  {
    if text == "" then None
    else
      var d :- Dates.Parse(text);
      Some(Str(Dates.Format(d)))
  }

  function AliasField(spec: Spec, f: Field): Option<Value>
    requires spec.AliasSpec?
  {
    match f
    case Comment => Some(Str(spec.comment))
    case Destination => Some(ListValue(spec.destination))
    case Email => Some(Str(spec.Key()))
    case Wildcard => Some(Bool(spec.wildcard))
    case _ => None
  }

  function DomainField(spec: Spec, f: Field): Option<Value>
    requires spec.DomainSpec?
  {
    match f
    case Alternatives => Some(ListValue(spec.alternatives))
    case Comment => Some(Str(spec.comment))
    case MaxAliases => Some(Num(spec.maxAliases))
    case MaxQuotaBytes => Some(Num(spec.maxQuotaBytes))
    case MaxUsers => Some(Num(spec.maxUsers))
    case Name => Some(Str(spec.Key()))
    case SignupEnabled => Some(Bool(spec.signupEnabled))
    case _ => None
  }

  function UserField(spec: Spec, f: Field): Option<Value>
    requires spec.UserSpec?
  {
    match f
    case Email => Some(Str(spec.Key()))
    case AllowSpoofing => Some(Bool(spec.allowSpoofing))
    case ChangePwNextLogin => Some(Bool(spec.changePassword))
    case Comment => Some(Str(spec.comment))
    case DisplayedName => Some(Str(spec.displayedName))
    case EnableImap => Some(Bool(spec.enableImap))
    case EnablePop => Some(Bool(spec.enablePop))
    case Enabled => Some(Bool(spec.enabled))
    case ForwardDestination => Some(ListValue(spec.forwardDestination))
    case ForwardEnabled => Some(Bool(spec.forwardEnabled))
    case ForwardKeep => Some(Bool(spec.forwardKeep))
    case GlobalAdmin => Some(Bool(spec.globalAdmin))
    case QuotaBytes => Some(Num(spec.quotaBytes))
    case RawPassword => Some(Str(spec.rawPassword))
    case ReplyBody => Some(Str(spec.replyBody))
    case ReplyEnabled => Some(Bool(spec.replyEnabled))
    case ReplySubject => Some(Str(spec.replySubject))
    case SpamEnabled => Some(Bool(spec.spamEnabled))
    case SpamMarkAsRead => Some(Bool(spec.spamMarkAsRead))
    case SpamThreshold => Some(Num(spec.spamThreshold))
    case ReplyStartDate => DateValue(spec.replyStartDate)
    case ReplyEndDate => DateValue(spec.replyEndDate)
    case _ => None
  }

  /** What the struct built from the spec holds in field `f`. */
  function FieldFromSpec(spec: Spec, f: Field): Option<Value>
  {
    if spec.AliasSpec? then AliasField(spec, f)
    else if spec.DomainSpec? then DomainField(spec, f)
    else UserField(spec, f)
  }

  /** The struct of an update, before the password is masked; for users it fails on an impossible date. */
  function FromSpec(spec: Spec): Result<Record>
  {
    if !spec.DatesParse() then Failure("cannot parse date")
    else
      Success(map f | f in Schema(spec.Kind()) && FieldFromSpec(spec, f).Some? :: FieldFromSpec(spec, f).value)
  }

  /** The body of a POST: a domain's alternatives are not sent. */
  function CreateBody(spec: Spec): Result<Record>
  {
    var r :- FromSpec(spec);
    Success(if spec.DomainSpec? then r - {Alternatives} else r)
  }

  /** The body of a PATCH: a user's password is never sent. */
  function UpdateBody(spec: Spec): Result<Record>
  {
    var r :- FromSpec(spec);
    Success(r - {RawPassword})
  }

  /** The fields of the found struct that the comparison leaves out. */
  function Masked(kind: Wire.Kind): set<Field>
  {
    if kind.UserKind? then {Password, QuotaBytesUsed} else {}
  }

  // ---------- conditions ----------

  datatype Status = True | False | Unknown

  datatype Condition = Condition(ctype: string, status: Status, reason: string, message: string)

  function ReadyType(kind: Wire.Kind): string
  {
    match kind
    case AliasKind => "AliasReady"
    case DomainKind => "DomainReady"
    case UserKind => "UserReady"
  }

  function Created(kind: Wire.Kind): Condition
  {
    Condition(ReadyType(kind), True, "Created",
              match kind
              case AliasKind => "Alias created in MailU"
              case DomainKind => "Domain created in MailU"
              case UserKind => "User created in MailU")
  }

  function Updated(kind: Wire.Kind): Condition
  {
    Condition(ReadyType(kind), True, "Updated",
              match kind
              case AliasKind => "Alias updated in MailU"
              case DomainKind => "Domain updated in MailU"
              case UserKind => "User updated in MailU")
  }

  function Failed(kind: Wire.Kind, message: string): Condition
  {
    Condition(ReadyType(kind), False, "Error", message)
  }

  /** `meta.SetStatusCondition`: the first condition of the type is overwritten, else one is appended. */
  function SetCondition(conditions: seq<Condition>, c: Condition): seq<Condition>
  {
    if conditions == [] then [c]
    else if conditions[0].ctype == c.ctype then [c] + conditions[1..]
    else [conditions[0]] + SetCondition(conditions[1..], c)
  }

  function FindCondition(conditions: seq<Condition>, ctype: string): Option<Condition>
  {
    if conditions == [] then None
    else if conditions[0].ctype == ctype then Some(conditions[0])
    else FindCondition(conditions[1..], ctype)
  }

  /** The conditions of other types, in order. */
  function OtherConditions(conditions: seq<Condition>, ctype: string): seq<Condition>
  {
    if conditions == [] then []
    else (if conditions[0].ctype == ctype then [] else [conditions[0]]) + OtherConditions(conditions[1..], ctype)
  }

  lemma {:induction false} SetThenFind(conditions: seq<Condition>, c: Condition)
    ensures FindCondition(SetCondition(conditions, c), c.ctype) == Some(c)
    ensures SetCondition(conditions, c) == conditions <==> FindCondition(conditions, c.ctype) == Some(c)
  {
    if conditions != [] {
      if conditions[0].ctype == c.ctype {
        assert conditions == [conditions[0]] + conditions[1..];
        assert ([c] + conditions[1..])[0] == c;
      } else {
        SetThenFind(conditions[1..], c);
        var rest := SetCondition(conditions[1..], c);
        assert conditions == [conditions[0]] + conditions[1..];
        assert ([conditions[0]] + rest)[1..] == rest;
      }
    }
  }

  /** Other types keep their conditions, and no second condition of the type appears. */
  lemma {:induction false} SetKeepsOthers(conditions: seq<Condition>, c: Condition, ctype: string)
    ensures c.ctype == ctype ==>
            OtherConditions(SetCondition(conditions, c), ctype) == OtherConditions(conditions, ctype)
    ensures |SetCondition(conditions, c)| == |conditions| + if FindCondition(conditions, c.ctype).None? then 1 else 0
  {
    if conditions != [] {
      SetKeepsOthers(conditions[1..], c, ctype);
      var rest := SetCondition(conditions[1..], c);
      assert ([conditions[0]] + rest)[1..] == rest && ([c] + conditions[1..])[1..] == conditions[1..];
    } else {
      assert [c][1..] == [];
    }
  }

  // ---------- finalizers ----------

  function AddFinalizer(finalizers: seq<string>): seq<string>
  {
    if FINALIZER in finalizers then finalizers else finalizers + [FINALIZER]
  }

  /** All occurrences of ours go; the others keep their order. */
  function RemoveFinalizer(finalizers: seq<string>): seq<string>
  {
    if finalizers == [] then []
    else (if finalizers[0] == FINALIZER then [] else [finalizers[0]]) + RemoveFinalizer(finalizers[1..])
  }

  lemma {:induction false} RemoveAppended(finalizers: seq<string>, f: string)
    ensures RemoveFinalizer(finalizers + [f]) == RemoveFinalizer(finalizers) + if f == FINALIZER then [] else [f]
  {
    if finalizers == [] {
      assert [f][1..] == [] && finalizers + [f] == [f];
    } else {
      assert (finalizers + [f])[1..] == finalizers[1..] + [f];
      RemoveAppended(finalizers[1..], f);
    }
  }

  lemma {:induction false} RemoveRemoves(finalizers: seq<string>)
    ensures FINALIZER !in RemoveFinalizer(finalizers)
    ensures RemoveFinalizer(RemoveFinalizer(finalizers)) == RemoveFinalizer(finalizers)
    ensures FINALIZER !in finalizers ==> RemoveFinalizer(finalizers) == finalizers
    ensures |RemoveFinalizer(finalizers)| == |finalizers| - multiset(finalizers)[FINALIZER]
  {
    if finalizers != [] {
      var rest := RemoveFinalizer(finalizers[1..]);
      RemoveRemoves(finalizers[1..]);
      assert finalizers == [finalizers[0]] + finalizers[1..];
      assert ([finalizers[0]] + rest)[1..] == rest && [] + rest == rest;
    }
  }

  // ---------- the resource ----------

  datatype Resource = Resource(finalizers: seq<string>, deleting: bool, spec: Spec, conditions: seq<Condition>) {
    function SetReady(c: Condition): Resource { this.(conditions := SetCondition(conditions, c)) }

    function Ready(): Option<Condition> { FindCondition(conditions, ReadyType(spec.Kind())) }

    predicate Guarded() { FINALIZER in finalizers }
  }
}
