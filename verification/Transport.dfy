/** From request to HTTP message and back: what Mailu reads out of a message is the request that was sent. */
module Transport {
  import opened Common
  import opened Json
  import opened Wire
  import opened Resources
  import opened Protocol
  import opened Steps
  import opened Url
  import opened Client
  import Utf8

  datatype Message = Message(verb: string, path: string, body: seq<Utf8.Byte>)

  /** The message of a request; `server` is what follows the authority in the client's server URL. */
  function Outgoing(server: string, kind: Kind, q: Request): Message
  {
    var (verb, path) := Address(server, kind, q);
    Message(verb, path, if q.Create? || q.Update? then MarshalStruct(kind, q.body) else [])
  }

  // ---------- the server's reading ----------

  /** The JSON names that Mailu knows for the objects of a kind. */
  function Names(kind: Kind): seq<(string, Field)>
  {
    match kind
    case AliasKind =>
      [("comment", Comment), ("destination", Destination), ("email", Email), ("wildcard", Wildcard)]
    case DomainKind =>
      [("alternatives", Alternatives), ("comment", Comment), ("max_aliases", MaxAliases),
       ("max_quota_bytes", MaxQuotaBytes), ("max_users", MaxUsers), ("name", Name), ("signup_enabled", SignupEnabled)]
    case UserKind =>
      [("allow_spoofing", AllowSpoofing), ("change_pw_next_login", ChangePwNextLogin), ("comment", Comment),
       ("displayed_name", DisplayedName), ("email", Email), ("enabled", Enabled), ("enable_imap", EnableImap),
       ("enable_pop", EnablePop), ("forward_destination", ForwardDestination), ("forward_enabled", ForwardEnabled),
       ("forward_keep", ForwardKeep), ("global_admin", GlobalAdmin), ("password", Password),
       ("quota_bytes", QuotaBytes), ("quota_bytes_used", QuotaBytesUsed), ("raw_password", RawPassword),
       ("reply_body", ReplyBody), ("reply_enabled", ReplyEnabled), ("reply_enddate", ReplyEndDate),
       ("reply_startdate", ReplyStartDate), ("reply_subject", ReplySubject), ("spam_enabled", SpamEnabled),
       ("spam_mark_as_read", SpamMarkAsRead), ("spam_threshold", SpamThreshold)]
  }

  function FieldNamed(names: seq<(string, Field)>, name: string): Option<Field>
  {
    if names == [] then None else if names[0].0 == name then Some(names[0].1) else FieldNamed(names[1..], name)
  }

  /** Members with other names are ignored. */
  function RecordOf(kind: Kind, o: Json.Object): Record
  {
    if o == [] then map[]
    else
      var f, rest := FieldNamed(Names(kind), o[0].0), RecordOf(kind, o[1..]);
      if f.None? then rest else rest[f.value := o[0].1]
  }

  function BodyOf(kind: Kind, bytes: seq<Utf8.Byte>): Option<Record>
  {
    var text :- Utf8.Decode(bytes);
    var o :- UnmarshalObject(text);
    Some(RecordOf(kind, o))
  }

  function KindAt(segment: string): Option<Kind>
  {
    if segment == "alias" then Some(AliasKind)
    else if segment == "domain" then Some(DomainKind)
    else if segment == "user" then Some(UserKind)
    else None
  }

  /** How Mailu reads a message: the path names the kind and, if the object exists, its key; the key of a new object
      is in the body. */
  function Incoming(m: Message): Option<(Kind, Request)>
  {
    var segments := Split(m.path);
    var n := |segments|;
    if m.verb == "POST" then
      var kind :- KindAt(segments[n - 1]);
      var body :- BodyOf(kind, m.body);
      if Identity(kind) in body && body[Identity(kind)].Str? then Some((kind, Create(body[Identity(kind)].s, body)))
      else None
    else if n == 1 then None
    else
      var kind :- KindAt(segments[n - 2]);
      var key :- Unescape(segments[n - 1]);
      if m.verb == "GET" then Some((kind, Find(key)))
      else if m.verb == "DELETE" then Some((kind, Delete(key)))
      else if m.verb == "PATCH" then
        var body :- BodyOf(kind, m.body);
        Some((kind, Update(key, body)))
      else None
  }

  // ---------- bodies ----------

  lemma UserNames(from: nat, i: nat)
    requires from in {0, 4, 8, 12, 16, 20} && from <= i < from + 4
    ensures |Names(UserKind)| == 24 == |Schema(UserKind)|
    ensures Names(UserKind)[i] == (Tag(Schema(UserKind)[i]), Schema(UserKind)[i])
  {
  }

  /** The fields of a struct in order, each under its name. */
  lemma NamesTagged(kind: Kind, i: nat)
    requires i < |Schema(kind)|
    ensures |Names(kind)| == |Schema(kind)| && Names(kind)[i] == (Tag(Schema(kind)[i]), Schema(kind)[i])
  {
    if kind.UserKind? {
      UserNames(i / 4 * 4, i);
      hide Names, Schema, Tag;
    }
  }

  lemma {:induction false} NamedAt(names: seq<(string, Field)>, i: nat)
    requires i < |names| && forall j :: 0 <= j < i ==> names[j].0 != names[i].0
    ensures FieldNamed(names, names[i].0) == Some(names[i].1)
  {
    if i > 0 {
      NamedAt(names[1..], i - 1);
    }
  }

  lemma FieldRecognised(kind: Kind, f: Field)
    requires f in Schema(kind)
    ensures FieldNamed(Names(kind), Tag(f)) == Some(f)
  {
    hide Names, Schema, Tag, FieldNamed;
    var i :| 0 <= i < |Schema(kind)| && Schema(kind)[i] == f;
    NamesTagged(kind, i);
    SchemaDistinct(kind);
    forall j | 0 <= j < i
      ensures Names(kind)[j].0 != Names(kind)[i].0
    {
      NamesTagged(kind, j);
      TagsDiffer(Schema(kind)[j], f);
    }
    NamedAt(Names(kind), i);
  }

  lemma {:induction false} ObjectRead(kind: Kind, schema: seq<Field>, r: Record)
    requires Distinct(schema) && forall f <- schema :: f in Schema(kind)
    ensures RecordOf(kind, Wire.Object(schema, r)) == map f | f in schema && f in r :: r[f]
  {
    hide Names, Schema, Tag, FieldNamed;
    if schema != [] {
      var first, rest := schema[0], schema[1..];
      var o, tail := Wire.Object(schema, r), Wire.Object(rest, r);
      ObjectRead(kind, rest, r);
      FieldRecognised(kind, first);
      assert first in r ==> o[0] == (Tag(first), r[first]) && o[1..] == tail;
      assert first !in r ==> o == tail;
      assert schema == [first] + rest;
    }
  }

  /** The body of a message is read as the struct that was marshalled. */
  lemma BodyArrives(kind: Kind, r: Record)
    requires forall f <- r :: f in Schema(kind)
    ensures BodyOf(kind, MarshalStruct(kind, r)) == Some(r)
  {
    hide Schema, RecordOf;
    var o := Wire.Object(Schema(kind), r);
    Utf8.RoundTrip(MarshalObject(o));
    UnmarshalMarshal(o);
    SchemaDistinct(kind);
    ObjectRead(kind, Schema(kind), r);
    assert (map f | f in Schema(kind) && f in r :: r[f]) == r;
  }

  // ---------- requests ----------

  /** What the operator's requests have in common: fields of the struct only, the name of a new object in its
      body, and a name that a path can carry. */
  predicate Sendable(kind: Kind, q: Request)
  {
    && (q.Create? || q.Update? ==> forall f <- q.body :: f in Schema(kind))
    && (q.Create? ==> Identity(kind) in q.body && q.body[Identity(kind)] == Str(q.key))
    && (!q.Create? ==> Addressable(q.key))
  }

  /** Requests arrive: through escaping, path resolution, JSON and UTF-8 Mailu reads exactly what was meant. */
  lemma RequestArrives(server: string, kind: Kind, q: Request)
    requires ServerPath(server) && Sendable(kind, q)
    ensures Incoming(Outgoing(WithSlash(server), kind, q)) == Some((kind, q))
  {
    hide Schema, Address, MarshalStruct, Unescape, Escape, BodyOf, Identity, Split, SentBase, Below, KindAt, ServerPath,
         Addressable;
    if q.Create? || q.Update? {
      BodyArrives(kind, q.body);
    }
    AddressExactly(server, kind, q);
    KindRead(SentBase(server), kind, Escape(q.key)) by { EscapedSegment(q.key); }
    if !q.Create? {
      RoundTrip(q.key);
    }
  }

  /** The last segments of a request's path. */
  lemma KindRead(base: string, kind: Kind, segment: string)
    requires '/' !in segment
    ensures var s := Split(base + Below(kind) + ""); KindAt(s[|s| - 1]) == Some(kind)
    ensures var s := Split(base + Below(kind) + ("/" + segment));
            |s| >= 2 && KindAt(s[|s| - 2]) == Some(kind) && s[|s| - 1] == segment
  {
    hide Split, Below, KindAt;
    KindWord(kind);
    var c := Below(kind)[1..];
    Regrouped(base, c, segment);
    SplitParts(base, c);
    SplitOne(c);
    SegmentsBelow(base, c, segment);
  }

  lemma KindWord(kind: Kind)
    ensures Below(kind) != ""
    ensures var c := Below(kind)[1..]; '/' !in c && Below(kind) == "/" + c && KindAt(c) == Some(kind)
  {
    assert "/alias"[1..] == "alias" && "/domain"[1..] == "domain" && "/user"[1..] == "user";
    assert |"alias"| == 5 && |"domain"| == 6 && |"user"| == 4;
  }

  // ---------- all the operator sends ----------

  lemma BodiesSendable(spec: Spec)
    ensures CreateBody(spec).Success? ==> Sendable(spec.Kind(), Create(spec.Key(), CreateBody(spec).value))
    ensures UpdateBody(spec).Success? && Addressable(spec.Key()) ==>
              Sendable(spec.Kind(), Update(spec.Key(), UpdateBody(spec).value))
  {
    if FromSpec(spec).Success? {
      Identified(spec);
    }
    hide Schema, FieldFromSpec;
  }

  lemma ActSendable(defaults: Record, res: Resource, remote: Option<Record>, found: Found, w: Weather)
    requires Addressable(res.spec.Key())
    ensures forall e <- Act(defaults, res, remote, found, w).events :: e.Sent? ==> Sendable(res.spec.Kind(), e.q)
  {
    hide Served, CreateBody, UpdateBody, ReadCreate, ReadUpdate, ReadDelete, MarshalStruct, SetCondition, Sendable,
         Addressable;
    BodiesSendable(res.spec);
    var filled := WithPassword(res.spec, w.supply);
    if filled.Success? {
      BodiesSendable(filled.value);
    }
    assert Sendable(res.spec.Kind(), Delete(res.spec.Key())) by { DeleteSendable(res.spec.Kind(), res.spec.Key()); }
  }

  lemma DeleteSendable(kind: Kind, key: string)
    requires Addressable(key)
    ensures Sendable(kind, Delete(key)) && Sendable(kind, Find(key))
  {
  }

  /** Every request of every reconcile arrives as it was meant, for all resources but
      domains whose name is empty, `.` or `..`. */
  lemma AllArrive(server: string, defaults: Record, res: Resource, remote: Option<Record>, w: Weather, e: Event)
    requires ServerPath(server) && !(res.spec.DomainSpec? && res.spec.name in {"", ".", ".."})
    requires e in Reconcile(defaults, res, remote, w).events && e.Sent?
    ensures Incoming(Outgoing(WithSlash(server), res.spec.Kind(), e.q)) == Some((res.spec.Kind(), e.q))
  {
    var guarded := if res.deleting then res else res.(finalizers := AddFinalizer(res.finalizers));
    var (now, found) := Seen(defaults, guarded, remote, w);
    KeysAddressable(res.spec);
    ActSendable(defaults, guarded, now, found, w);
    DeleteSendable(res.spec.Kind(), res.spec.Key());
    hide Act, Served, ReadFind, Sendable, Incoming, Outgoing, Addressable;
    RequestArrives(server, res.spec.Kind(), e.q);
  }
}
