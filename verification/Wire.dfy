/** The wire structs of `pkg/mailu/client.go`: their fields, JSON names, declaration order and decoding.
    A record is the set of fields present in a struct; an absent field is a nil pointer. */
module Wire {
  import opened Common
  import opened Json
  import Dates
  import Utf8

  datatype Kind = AliasKind | DomainKind | UserKind

  /** Fields of the three structs; `Unlisted` is a field the server keeps and the structs lack
      (a domain's managers and DNS data). */
  datatype Field =
    | AllowSpoofing | ChangePwNextLogin | Comment | DisplayedName | Email | Enabled | EnableImap | EnablePop
    | ForwardDestination | ForwardEnabled | ForwardKeep | GlobalAdmin | Password | QuotaBytes | QuotaBytesUsed
    | RawPassword | ReplyBody | ReplyEnabled | ReplyEndDate | ReplyStartDate | ReplySubject
    | SpamEnabled | SpamMarkAsRead | SpamThreshold
    | Destination | Wildcard | Alternatives | MaxAliases | MaxQuotaBytes | MaxUsers | Name | SignupEnabled
    | Unlisted(name: string)

  type Record = map<Field, Value>

  function Tag(f: Field): string
  {
    match f
    case AllowSpoofing => "allow_spoofing"
    case ChangePwNextLogin => "change_pw_next_login"
    case Comment => "comment"
    case DisplayedName => "displayed_name"
    case Email => "email"
    case Enabled => "enabled"
    case EnableImap => "enable_imap"
    case EnablePop => "enable_pop"
    case ForwardDestination => "forward_destination"
    case ForwardEnabled => "forward_enabled"
    case ForwardKeep => "forward_keep"
    case GlobalAdmin => "global_admin"
    case Password => "password"
    case QuotaBytes => "quota_bytes"
    case QuotaBytesUsed => "quota_bytes_used"
    case RawPassword => "raw_password"
    case ReplyBody => "reply_body"
    case ReplyEnabled => "reply_enabled"
    case ReplyEndDate => "reply_enddate"
    case ReplyStartDate => "reply_startdate"
    case ReplySubject => "reply_subject"
    case SpamEnabled => "spam_enabled"
    case SpamMarkAsRead => "spam_mark_as_read"
    case SpamThreshold => "spam_threshold"
    case Destination => "destination"
    case Wildcard => "wildcard"
    case Alternatives => "alternatives"
    case MaxAliases => "max_aliases"
    case MaxQuotaBytes => "max_quota_bytes"
    case MaxUsers => "max_users"
    case Name => "name"
    case SignupEnabled => "signup_enabled"
    case Unlisted(name) => name
  }

  /** The struct's fields in the order of their declaration, which is the order of encoding. */
  function Schema(kind: Kind): seq<Field>
  {
    match kind
    case AliasKind => [Comment, Destination, Email, Wildcard]
    case DomainKind => [Alternatives, Comment, MaxAliases, MaxQuotaBytes, MaxUsers, Name, SignupEnabled]
    case UserKind =>
      [AllowSpoofing, ChangePwNextLogin, Comment, DisplayedName, Email, Enabled, EnableImap, EnablePop,
       ForwardDestination, ForwardEnabled, ForwardKeep, GlobalAdmin, Password, QuotaBytes, QuotaBytesUsed,
       RawPassword, ReplyBody, ReplyEnabled, ReplyEndDate, ReplyStartDate, ReplySubject,
       SpamEnabled, SpamMarkAsRead, SpamThreshold]
  }

  /** The one field of each struct that is not a pointer. */
  function Identity(kind: Kind): Field { if kind.DomainKind? then Name else Email }

  datatype FieldType = Text | Flag | Whole | Texts | FullDate

  function TypeOf(f: Field): FieldType
  {
    match f
    case AllowSpoofing => Flag
    case ChangePwNextLogin => Flag
    case Enabled => Flag
    case EnableImap => Flag
    case EnablePop => Flag
    case ForwardEnabled => Flag
    case ForwardKeep => Flag
    case GlobalAdmin => Flag
    case ReplyEnabled => Flag
    case SpamEnabled => Flag
    case SpamMarkAsRead => Flag
    case Wildcard => Flag
    case SignupEnabled => Flag
    case QuotaBytes => Whole
    case QuotaBytesUsed => Whole
    case SpamThreshold => Whole
    case MaxAliases => Whole
    case MaxQuotaBytes => Whole
    case MaxUsers => Whole
    case ForwardDestination => Texts
    case Destination => Texts
    case Alternatives => Texts
    case ReplyEndDate => FullDate
    case ReplyStartDate => FullDate
    case _ => Text
  }

  /** Whether the JSON value decodes into the field's Go type (`null` leaves the pointer nil). */
  predicate Decodes(f: Field, v: Value)
  {
    v.Null? ||
    match TypeOf(f)
    case Text => v.Str?
    case Flag => v.Bool?
    case Whole => v.Num? && -0x8000_0000_0000_0000 <= v.n < 0x8000_0000_0000_0000
    case Texts => v.List?
    case FullDate => v.Str? && Dates.Parse(v.s).Some?
  }

  /** `json.Unmarshal` into the struct: unknown fields are dropped, a wrong type is an error. */
  function Decode(kind: Kind, r: Record): Option<Record>
  {
    if exists f <- Schema(kind) :: f in r && !Decodes(f, r[f]) then None
    else
      var fields := map f | f in Schema(kind) && f in r && r[f] != Null :: r[f];
      Some(if Identity(kind) in fields then fields else fields[Identity(kind) := Str("")])
  }

  function Object(schema: seq<Field>, r: Record): Json.Object
  {
    if schema == [] then []
    else
      (if schema[0] in r then [(Tag(schema[0]), r[schema[0]])] else []) + Object(schema[1..], r)
  }

  /** `json.Marshal` of the struct: present fields in declaration order, as UTF-8 bytes. */
  function MarshalStruct(kind: Kind, r: Record): seq<Utf8.Byte>
  {
    Utf8.Encode(MarshalObject(Object(Schema(kind), r)))
  }

  // ---------- equal bytes are equal fields ----------

  predicate SameField(f: Field, a: Record, b: Record)
  {
    (f in a <==> f in b) && (f in a ==> a[f] == b[f])
  }

  predicate SameFields(schema: seq<Field>, a: Record, b: Record)
  {
    forall f <- schema :: SameField(f, a, b)
  }

  /** A JSON name is recognised by its length and its third character from the end. */
  function FieldWith(length: nat, mark: char): Option<Field>
  {
    if length == 4 then if mark == 'a' then Some(Name) else None
    else if length == 5 then if mark == 'a' then Some(Email) else None
    else if length == 7 then if mark == 'e' then Some(Comment) else if mark == 'l' then Some(Enabled) else None
    else if length == 8 then if mark == 'o' then Some(Password) else if mark == 'a' then Some(Wildcard) else None
    else if length == 9 then if mark == 'e' then Some(MaxUsers) else None
    else if length == 10 then if mark == 'p' then Some(EnablePop) else if mark == 'o' then Some(ReplyBody) else None
    else if length == 11 then if mark == 'm' then Some(EnableImap) else if mark == 't' then Some(QuotaBytes)
         else if mark == 'i' then Some(Destination) else if mark == 's' then Some(MaxAliases) else None
    else if length == 12 then if mark == 'e' then Some(ForwardKeep) else if mark == 'm' then Some(GlobalAdmin)
         else if mark == 'o' then Some(RawPassword) else if mark == 'l' then Some(SpamEnabled)
         else if mark == 'v' then Some(Alternatives) else None
    else if length == 13 then if mark == 'l' then Some(ReplyEnabled) else if mark == 'a' then Some(ReplyEndDate)
         else if mark == 'e' then Some(ReplySubject) else None
    else if length == 14 then if mark == 'i' then Some(AllowSpoofing) else if mark == 'a' then Some(DisplayedName)
         else if mark == 'o' then Some(SpamThreshold) else if mark == 'l' then Some(SignupEnabled) else None
    else if length == 15 then if mark == 'l' then Some(ForwardEnabled) else if mark == 'a' then Some(ReplyStartDate)
         else if mark == 't' then Some(MaxQuotaBytes) else None
    else if length == 16 then if mark == 's' then Some(QuotaBytesUsed) else None
    else if length == 17 then if mark == 'e' then Some(SpamMarkAsRead) else None
    else if length == 19 then if mark == 'i' then Some(ForwardDestination) else None
    else if length == 20 then if mark == 'g' then Some(ChangePwNextLogin) else None
    else None
  }

  lemma FlagTagRecognised(f: Field)
    requires TypeOf(f).Flag?
    ensures |Tag(f)| >= 3 && FieldWith(|Tag(f)|, Tag(f)[|Tag(f)| - 3]) == Some(f)
  {
  }

  lemma TextTagRecognised(f: Field)
    requires TypeOf(f).Text? && !f.Unlisted?
    ensures |Tag(f)| >= 3 && FieldWith(|Tag(f)|, Tag(f)[|Tag(f)| - 3]) == Some(f)
  {
  }

  lemma OtherTagRecognised(f: Field)
    requires !TypeOf(f).Flag? && !TypeOf(f).Text?
    ensures |Tag(f)| >= 3 && FieldWith(|Tag(f)|, Tag(f)[|Tag(f)| - 3]) == Some(f)
  {
  }

  lemma TagsDiffer(f: Field, g: Field)
    requires !f.Unlisted? && !g.Unlisted? && f != g
    ensures Tag(f) != Tag(g)
  {
    hide FieldWith, Tag;
    forall h | h == f || h == g
      ensures |Tag(h)| >= 3 && FieldWith(|Tag(h)|, Tag(h)[|Tag(h)| - 3]) == Some(h)
    {
      if TypeOf(h).Flag? {
        FlagTagRecognised(h);
      } else if TypeOf(h).Text? {
        TextTagRecognised(h);
      } else {
        OtherTagRecognised(h);
      }
    }
  }

  predicate Distinct(schema: seq<Field>)
  {
    && (forall i, j :: 0 <= i < j < |schema| ==> schema[i] != schema[j])
    && (forall i :: 0 <= i < |schema| ==> !schema[i].Unlisted?)
  }

  /** A field's place in its struct. */
  function Position(kind: Kind, f: Field): nat
  {
    if kind.AliasKind? then
      if f == Comment then 0 else if f == Destination then 1 else if f == Email then 2 else 3
    else if kind.DomainKind? then
      if f == Alternatives then 0 else if f == Comment then 1 else if f == MaxAliases then 2
      else if f == MaxQuotaBytes then 3 else if f == MaxUsers then 4 else if f == Name then 5 else 6
    else UserPosition(f)
  }

  function UserPosition(f: Field): nat
  {
    match f
    case AllowSpoofing => 0
    case ChangePwNextLogin => 1
    case Comment => 2
    case DisplayedName => 3
    case Email => 4
    case Enabled => 5
    case EnableImap => 6
    case EnablePop => 7
    case ForwardDestination => 8
    case ForwardEnabled => 9
    case ForwardKeep => 10
    case GlobalAdmin => 11
    case Password => 12
    case QuotaBytes => 13
    case QuotaBytesUsed => 14
    case RawPassword => 15
    case ReplyBody => 16
    case ReplyEnabled => 17
    case ReplyEndDate => 18
    case ReplyStartDate => 19
    case ReplySubject => 20
    case SpamEnabled => 21
    case SpamMarkAsRead => 22
    case SpamThreshold => 23
    case _ => 24
  }

  lemma UserPositions(from: nat, i: nat)
    requires from in {0, 8, 16} && from <= i < from + 8
    ensures i < |Schema(UserKind)|
    ensures UserPosition(Schema(UserKind)[i]) == i && !Schema(UserKind)[i].Unlisted?
  {
  }

  lemma SchemaPositions(kind: Kind, i: nat)
    requires i < |Schema(kind)|
    ensures Position(kind, Schema(kind)[i]) == i && !Schema(kind)[i].Unlisted?
  {
    hide UserPosition;
    if kind.UserKind? {
      UserPositions(i / 8 * 8, i);
    }
  }

  lemma SchemaDistinct(kind: Kind)
    ensures Distinct(Schema(kind))
  {
    hide Schema, Position;
    forall i: nat | i < |Schema(kind)|
      ensures Position(kind, Schema(kind)[i]) == i && !Schema(kind)[i].Unlisted?
    {
      SchemaPositions(kind, i);
    }
  }

  lemma {:induction false} ObjectTags(schema: seq<Field>, r: Record, k: nat)
    requires k < |Object(schema, r)|
    ensures exists f <- schema :: Object(schema, r)[k].0 == Tag(f)
  {
    var here := if schema[0] in r then 1 else 0;
    if k < here {
      assert schema[0] in schema;
    } else {
      ObjectTags(schema[1..], r, k - here);
      var f :| f in schema[1..] && Object(schema[1..], r)[k - here].0 == Tag(f);
      assert f in schema;
    }
  }

  /** A field missing on one side only shifts that side's members, so the encodings differ. */
  lemma NotFirst(schema: seq<Field>, r: Record)
    requires Distinct(schema) && schema != []
    ensures var o := Object(schema[1..], r); o == [] || o[0].0 != Tag(schema[0])
  {
    if Object(schema[1..], r) != [] {
      ObjectTags(schema[1..], r, 0);
      var f :| f in schema[1..] && Object(schema[1..], r)[0].0 == Tag(f);
      var i :| 0 <= i < |schema[1..]| && schema[1..][i] == f;
      assert schema[i + 1] == f;
      TagsDiffer(schema[0], f);
    }
  }

  lemma {:induction false} SameObjects(schema: seq<Field>, a: Record, b: Record)
    requires Distinct(schema)
    ensures Object(schema, a) == Object(schema, b) <==> SameFields(schema, a, b)
  {
    if schema != [] {
      var f, rest := schema[0], schema[1..];
      SameObjects(rest, a, b);
      NotFirst(schema, a);
      NotFirst(schema, b);
      assert schema == [f] + rest;
      assert SameFields(schema, a, b) <==> SameField(f, a, b) && SameFields(rest, a, b);
      var oa, ob := Object(rest, a), Object(rest, b);
      if f in a && f in b {
        assert ([(Tag(f), a[f])] + oa)[1..] == oa && ([(Tag(f), b[f])] + ob)[1..] == ob;
      } else if f in a {
        assert ([(Tag(f), a[f])] + oa)[0] == (Tag(f), a[f]);
      } else if f in b {
        assert ([(Tag(f), b[f])] + ob)[0] == (Tag(f), b[f]);
      }
      assert [] + oa == oa && [] + ob == ob;
    }
  }

  /** Comparing the marshalled structs byte by byte is comparing them field by field, presence included. */
  lemma SameBytes(kind: Kind, a: Record, b: Record)
    ensures MarshalStruct(kind, a) == MarshalStruct(kind, b) <==> SameFields(Schema(kind), a, b)
  {
    var oa, ob := Object(Schema(kind), a), Object(Schema(kind), b);
    Utf8.Injective(MarshalObject(oa), MarshalObject(ob));
    MarshalInjective(oa, ob);
    SchemaDistinct(kind);
    SameObjects(Schema(kind), a, b);
  }

  /** A pointer to a nil slice is written `null`; nothing decoded ever is, so the two never compare equal. */
  lemma NilSliceNeverEqual(kind: Kind, desired: Record, f: Field, r: Record)
    requires f in Schema(kind) && f in desired && desired[f] == Null
    requires Decode(kind, r).Some?
    ensures MarshalStruct(kind, desired) != MarshalStruct(kind, Decode(kind, r).value)
  {
    hide Schema, TypeOf;
    var found := Decode(kind, r).value;
    SameBytes(kind, desired, found);
    assert f in found ==> found[f] != Null;
    assert !SameField(f, desired, found);
  }
}
