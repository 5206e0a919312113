/** Where the password of a new user comes from: its spec, the Secret its spec names, or the generator. */
module PasswordSources {
  import opened Common
  import opened Json
  import opened Wire
  import opened Resources
  import opened Protocol
  import opened Steps
  import opened Answers
  import Managed
  import Base64
  import Secrets
  import Utf8

  /** A live user with possible dates whose look-up is answered as missing. */
  predicate NewUser(defaults: Record, res: Resource, remote: Option<Record>, w: Weather)
  {
    && !res.deleting && res.spec.UserSpec?
    && !BadDate(res.spec.replyStartDate) && !BadDate(res.spec.replyEndDate)
    && SaysMissing(Served(defaults, remote, Find(res.spec.name + "@" + res.spec.domain), w.find).1)
  }

  /** The reconcile sends one POST, with that password, and writes the password into the spec. If nothing disturbs the
      POST, it is what Mailu makes its hash of. `drawn` are the passwords drawn on the way. */
  predicate Posts(res: Resource, w: Weather, s: Step, password: string, drawn: seq<Event>)
    requires res.spec.UserSpec?
  {
    var key := res.spec.name + "@" + res.spec.domain;
    && s.res.spec == res.spec.(rawPassword := password)
    && |s.events| == 2 + |drawn| && s.events[0] == Sent(Find(key)) && s.events[1..|drawn| + 1] == drawn
    && var last := s.events[|drawn| + 1];
       && last.Sent? && last.q.Create? && last.q.key == key
       && RawPassword in last.q.body && last.q.body[RawPassword] == Str(password)
       && (w.write.fate.Clear? && s.outcome == Done ==>
             s.remote.Some? && Password in s.remote.value && s.remote.value[Password] == Str(password))
  }

  /** Without a password nothing is sent but the look-up, the reason is reported, and the reconcile is repeated. */
  predicate Waits(res: Resource, s: Step, reason: string)
    requires res.spec.UserSpec?
  {
    && s.events == [Sent(Find(res.spec.name + "@" + res.spec.domain))] && s.outcome == Again
    && s.res.spec == res.spec && s.res.Ready() == Some(Complaint(UserKind, reason))
  }

  lemma CreateReconcile(defaults: Record, res: Resource, remote: Option<Record>, w: Weather)
    requires NewUser(defaults, res, remote, w)
    ensures var now := Seen(defaults, res, remote, w).0;
            var c := CreateStep(defaults, res.(finalizers := AddFinalizer(res.finalizers)), now, w);
            Reconcile(defaults, res, remote, w) == c.(events := [Sent(Find(res.spec.Key()))] + c.events)
  {
    hide CreateStep, AddFinalizer, Served, ReadFind, BadDate;
    FindExactly(UserKind, Served(defaults, remote, Find(res.spec.Key()), w.find).1);
  }

  lemma PostedPassword(defaults: Record, body: Record, now: Option<Record>, key: string, w: Weather, password: string)
    requires RawPassword in body && body[RawPassword] == Str(password) && w.write.fate.Clear?
    requires ReadCreate(Served(defaults, now, Create(key, body), w.write).1).Accepted?
    ensures var after := Served(defaults, now, Create(key, body), w.write).0;
            after.Some? && Password in after.value && after.value[Password] == Str(password)
  {
  }

  lemma Posted(defaults: Record, res: Resource, remote: Option<Record>, w: Weather, password: string)
    requires NewUser(defaults, res, remote, w)
    requires WithPassword(res.spec, w.supply) == Success(res.spec.(rawPassword := password))
    ensures Posts(res, w, Reconcile(defaults, res, remote, w), password, PasswordEvents(res.spec, w.supply))
  {
    hide Reconcile, BadDate, AddFinalizer, Served, ReadFind, ReadCreate, CreateBody, SetCondition, FindCondition,
         WithPassword, PasswordEvents, Spec.DatesParse, Managed.Fields, Managed.MirrorsBut;
    var spec := res.spec.(rawPassword := password);
    var guarded := res.(finalizers := AddFinalizer(res.finalizers));
    var now := Seen(defaults, res, remote, w).0;
    CreateReconcile(defaults, res, remote, w);
    DatesExactly(spec);
    Managed.CreateMeant(spec);
    var body := CreateBody(spec).value;
    var drawn, q := PasswordEvents(res.spec, w.supply), Create(spec.Key(), body);
    assert RawPassword in Managed.Fields(spec, false) + Managed.Secret(spec);
    var c := CreateStep(defaults, guarded, now, w);
    assert c.events == drawn + [Sent(q)];
    var events := [Sent(Find(res.spec.Key()))] + (drawn + [Sent(q)]);
    assert events[1..|drawn| + 1] == drawn && events[|drawn| + 1] == Sent(q);
    var r := Served(defaults, now, q, w.write).1;
    CreateJudged(defaults, guarded, now, w);
    assert c.events[|drawn|] == Sent(q) && WriteOf(c) == Some(q);
    Verdicts(q, r);
    hide Succeeded, Conflicted, FromGateway;
    if w.write.fate.Clear? && ReadCreate(r).Accepted? {
      PostedPassword(defaults, body, now, spec.Key(), w, password);
    }
  }

  lemma Waited(defaults: Record, res: Resource, remote: Option<Record>, w: Weather)
    requires NewUser(defaults, res, remote, w) && WithPassword(res.spec, w.supply).Failure?
    ensures Waits(res, Reconcile(defaults, res, remote, w), WithPassword(res.spec, w.supply).message)
  {
    hide Reconcile, BadDate, AddFinalizer, Served, ReadFind, FindCondition, SetCondition, WithPassword, Complaint;
    CreateReconcile(defaults, res, remote, w);
    var error := WithPassword(res.spec, w.supply).message;
    ConditionTexts(UserKind, error);
    SetThenFind(res.conditions, Failed(UserKind, error));
    PasswordAwaited(defaults, res.(finalizers := AddFinalizer(res.finalizers)), Seen(defaults, res, remote, w).0, w);
    assert [Sent(Find(res.spec.Key()))] + [] == [Sent(Find(res.spec.Key()))];
  }

  /** A password in the spec is used as it is, whatever Secrets there are. */
  lemma FromSpec(defaults: Record, res: Resource, remote: Option<Record>, w: Weather)
    requires NewUser(defaults, res, remote, w) && res.spec.rawPassword != ""
    ensures Posts(res, w, Reconcile(defaults, res, remote, w), res.spec.rawPassword, [])
  {
    hide NewUser, Posts, Reconcile;
    assert res.spec.UserSpec? by { IsUser(defaults, res, remote, w); }
    assert res.spec.(rawPassword := res.spec.rawPassword) == res.spec;
    Posted(defaults, res, remote, w, res.spec.rawPassword);
  }

  lemma IsUser(defaults: Record, res: Resource, remote: Option<Record>, w: Weather)
    requires NewUser(defaults, res, remote, w)
    ensures res.spec.UserSpec?
  {
  }

  /** With both references set: the text that the named Secret holds in base64 under the named key, and none drawn. */
  lemma FromSecret(defaults: Record, res: Resource, remote: Option<Record>, w: Weather,
                   data: map<string, seq<Utf8.Byte>>, text: string)
    requires NewUser(defaults, res, remote, w) && res.spec.rawPassword == ""
    requires res.spec.passwordSecret != "" && res.spec.passwordKey != ""
    requires res.spec.passwordSecret in w.supply.secrets
    requires w.supply.secrets[res.spec.passwordSecret] == Success(data)
    requires res.spec.passwordKey in data && Secrets.Holds(data[res.spec.passwordKey], Utf8.Encode(text))
    ensures Posts(res, w, Reconcile(defaults, res, remote, w), text, [])
  {
    hide NewUser, Posts, Reconcile, Secrets.Password, Secrets.Holds;
    assert res.spec.UserSpec? by { IsUser(defaults, res, remote, w); }
    Secrets.PasswordRecovered(data, res.spec.passwordKey, text);
    Posted(defaults, res, remote, w, text);
  }

  /** The Secret can be read, and holds base64 under the key. */
  predicate Usable(secrets: map<string, Secrets.Secret>, name: string, key: string)
  {
    && name in secrets && secrets[name].Success? && key in secrets[name].value
    && Base64.Decode(secrets[name].value[key]).Some?
  }

  /** With both references set, but no such Secret, no such key in it, or no base64 text there: no password is drawn
      instead, the user waits. */
  lemma SecretAwaited(defaults: Record, res: Resource, remote: Option<Record>, w: Weather)
    requires NewUser(defaults, res, remote, w) && res.spec.rawPassword == ""
    requires res.spec.passwordSecret != "" && res.spec.passwordKey != ""
    requires !Usable(w.supply.secrets, res.spec.passwordSecret, res.spec.passwordKey)
    ensures var secrets, name, key := w.supply.secrets, res.spec.passwordSecret, res.spec.passwordKey;
            Waits(res, Reconcile(defaults, res, remote, w),
                  if name !in secrets then "Secret not found"
                  else if secrets[name].Failure? then secrets[name].message
                  else if key !in secrets[name].value then "secret does not contain key " + key
                  else "illegal base64 data")
  {
    hide Reconcile, NewUser, Waits, Base64.Decode;
    assert res.spec.UserSpec? by { IsUser(defaults, res, remote, w); }
    Waited(defaults, res, remote, w);
  }

  /** With a reference missing: a password is drawn and posted, or the user waits if that fails. */
  lemma FromGenerator(defaults: Record, res: Resource, remote: Option<Record>, w: Weather)
    requires NewUser(defaults, res, remote, w) && res.spec.rawPassword == ""
    requires res.spec.passwordSecret == "" || res.spec.passwordKey == ""
    ensures var s := Reconcile(defaults, res, remote, w);
            match w.supply.generated
            case Success(password) => Posts(res, w, s, password, [Generated(password)])
            case Failure(error) => Waits(res, s, error)
  {
    hide Reconcile, NewUser, Posts, Waits;
    assert res.spec.UserSpec? by { IsUser(defaults, res, remote, w); }
    match w.supply.generated
    case Success(password) => Posted(defaults, res, remote, w, password);
    case Failure(_) => Waited(defaults, res, remote, w);
  }
}
