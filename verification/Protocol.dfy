/** The reconcile protocol as functions: what one `Reconcile` call does to its resource and to the record
    Mailu keeps under the resource's name, for every answer the network can give. */
module Protocol {
  import opened Common
  import opened Json
  import opened Wire
  import opened Resources
  import Secrets

  // ---------- Mailu ----------

  datatype Request =
    | Find(key: string)
    | Create(key: string, body: Record)
    | Update(key: string, body: Record)
    | Delete(key: string)

  /** A body that cannot be read, that is not JSON of the struct's kind, the JSON `null`, or an object. */
  datatype Body = Unreadable(error: string) | Garbage(error: string) | JsonNull | Document(record: Record)

  /** What an HTTP call yields: a transport error, or a status code and a body. */
  datatype Response = TransportError(error: string) | Response(code: int, body: Body)

  /** A stored record: the raw password of a request is kept as `Password` (its hash). */
  function Stored(body: Record): Record
  {
    if RawPassword in body then (body - {RawPassword})[Password := body[RawPassword]] else body
  }

  /** The effect of a request on the record under its key; `defaults` fills what a POST omits. */
  function Apply(defaults: Record, remote: Option<Record>, q: Request): Option<Record>
  {
    match q
    case Find(_) => remote
    case Create(_, body) => if remote.None? then Some(defaults + Stored(body)) else remote
    case Update(_, body) => if remote.Some? then Some(remote.value + Stored(body)) else None
    case Delete(_) => None
  }

  /** What the server answers when nothing goes wrong. */
  function Truth(remote: Option<Record>, q: Request): Response
  {
    match q
    case Find(_) => if remote.Some? then Response(200, Document(remote.value)) else Response(404, Garbage(""))
    case Create(_, _) => if remote.None? then Response(200, Garbage("")) else Response(409, Garbage(""))
    case Update(_, _) => if remote.Some? then Response(200, Garbage("")) else Response(404, Garbage(""))
    case Delete(_) => if remote.Some? then Response(200, Garbage("")) else Response(404, Garbage(""))
  }

  /** `Disturbed`: the request may or may not take effect, and any answer may come back. */
  datatype Fate = Clear | Disturbed(applied: bool, answer: Response)

  /** What others did to the record before the request arrived. */
  datatype Meddling = Nothing | Overwrite(remote: Option<Record>)

  datatype Link = Link(before: Meddling, fate: Fate)

  function Meddled(remote: Option<Record>, m: Meddling): Option<Record>
  {
    if m.Nothing? then remote else m.remote
  }

  function Served(defaults: Record, remote: Option<Record>, q: Request, link: Link): (Option<Record>, Response)
  {
    var now := Meddled(remote, link.before);
    match link.fate
    case Clear => (Apply(defaults, now, q), Truth(now, q))
    case Disturbed(applied, answer) => (if applied then Apply(defaults, now, q) else now, answer)
  }

  /** Mailu's store of one kind, by key. */
  function At(store: map<string, Record>, key: string): Option<Record>
  {
    if key in store then Some(store[key]) else None
  }

  function Put(store: map<string, Record>, key: string, r: Option<Record>): map<string, Record>
  {
    if r.Some? then store[key := r.value] else store - {key}
  }

  // ---------- reading answers ----------

  datatype Found = FoundRecord(record: Record) | Missing | FindFailed(retry: bool, error: string)

  function UnknownStatus(code: int): string { "unknown status: " + Integer(code) }

  function ReadFind(kind: Kind, r: Response): Found
  {
    match r
    case TransportError(error) => FindFailed(false, error)
    case Response(code, body) =>
      if body.Unreadable? then FindFailed(true, body.error)
      else if code == 200 then
        (match body
         case Garbage(error) => FindFailed(true, error)
         case JsonNull => Missing   // decoding `null` sets the pointer that was to be filled to nil
         case Document(record) =>
           var decoded := Decode(kind, record);
           if decoded.None? then FindFailed(true, "cannot unmarshal") else FoundRecord(decoded.value))
      else if code == 404 then Missing
      else if code == 400 then FindFailed(false, "bad request")
      else if code == 502 || code == 504 then FindFailed(true, "gateway timeout")
      else if code == 503 then FindFailed(true, "service unavailable")
      else FindFailed(false, UnknownStatus(code))
  }

  datatype Verdict = Accepted | Conflict | Refused(retry: bool, error: string)

  /** The three status switches of the writes differ in the codes that count as success. */
  function ReadWrite(r: Response, success: set<int>, conflict: bool): Verdict
  {
    match r
    case TransportError(error) => Refused(false, error)
    case Response(code, body) =>
      if body.Unreadable? then Refused(false, body.error)
      else if code in success then Accepted
      else if code == 409 && conflict then Conflict
      else if code == 500 then Refused(false, "internal server error")
      else if code == 502 || code == 504 then Refused(true, "gateway timeout")
      else if code == 503 then Refused(true, "service unavailable")
      else Refused(false, UnknownStatus(code))
  }

  function ReadCreate(r: Response): Verdict { ReadWrite(r, {200, 201}, true) }

  function ReadUpdate(r: Response): Verdict { ReadWrite(r, {200, 204}, false) }

  function ReadDelete(r: Response): Verdict { ReadWrite(r, {200, 404}, false) }

  /** A disturbed call is never read as one that succeeded: found, missing and done are reported truthfully.
      A 409 may come at any time, since another object can own the name. */
  predicate Honest(kind: Kind, w: Weather)
  {
    && (w.find.fate.Disturbed? ==> ReadFind(kind, w.find.fate.answer).FindFailed?)
    && (w.write.fate.Disturbed? ==>
          var r := w.write.fate.answer;
          ReadCreate(r) != Accepted && ReadUpdate(r) != Accepted && ReadDelete(r) != Accepted)
  }

  // ---------- one reconcile ----------

  /** Where a user's password comes from when the spec has none: the Secret it names, or the generator. */
  datatype Supply = Supply(secrets: map<string, Secrets.Secret>, generated: Result<string>)

  datatype Weather = Weather(find: Link, write: Link, supply: Supply)

  /** `Again` is the five-second requeue, `Error` a returned error. */
  datatype Outcome = Done | Again | Error

  datatype Event = Sent(q: Request) | Generated(password: string)

  datatype Step = Step(res: Resource, remote: Option<Record>, outcome: Outcome, events: seq<Event>)

  function RawPasswordFor(spec: Spec, supply: Supply): Result<string>
    requires spec.UserSpec?
  {
    if spec.passwordSecret != "" && spec.passwordKey != "" then
      Secrets.Password(Secrets.Fetch(supply.secrets, spec.passwordSecret), spec.passwordKey)
    else supply.generated
  }

  predicate Generates(spec: Spec, supply: Supply)
  {
    spec.UserSpec? && spec.rawPassword == "" && (spec.passwordSecret == "" || spec.passwordKey == "")
    && supply.generated.Success?
  }

  /** A user without a password gets one, written into its own spec. */
  function WithPassword(spec: Spec, supply: Supply): Result<Spec>
  {
    if spec.UserSpec? && spec.rawPassword == "" then
      var password :- RawPasswordFor(spec, supply);
      Success(spec.(rawPassword := password))
    else Success(spec)
  }

  function PasswordEvents(spec: Spec, supply: Supply): seq<Event>
  {
    if Generates(spec, supply) then [Generated(supply.generated.value)] else []
  }

  /** The end of a write whose answer was neither success nor conflict. */
  function Refusal(res: Resource, remote: Option<Record>, retry: bool, error: string, events: seq<Event>): Step
  {
    Step(res.SetReady(Failed(res.spec.Kind(), error)), remote, if retry then Again else Error, events)
  }

  function CreateStep(defaults: Record, res: Resource, remote: Option<Record>, w: Weather): Step
  {
    match WithPassword(res.spec, w.supply)
    case Failure(error) => Refusal(res, remote, true, error, [])
    case Success(spec) =>
      var res' := res.(spec := spec);
      var events := PasswordEvents(res.spec, w.supply);
      match CreateBody(spec)
      case Failure(error) => Refusal(res', remote, false, error, events)
      case Success(body) =>
        var q := Create(spec.Key(), body);
        var (remote', r) := Served(defaults, remote, q, w.write);
        match ReadCreate(r)
        case Accepted => Step(res'.SetReady(Created(spec.Kind())), remote', Done, events + [Sent(q)])
        case Conflict => Step(res', remote', Again, events + [Sent(q)])
        case Refused(retry, error) => Refusal(res', remote', retry, error, events + [Sent(q)])
  }

  function UpdateStep(defaults: Record, res: Resource, remote: Option<Record>, found: Record, w: Weather): Step
  {
    var kind := res.spec.Kind();
    match UpdateBody(res.spec)
    case Failure(error) => Refusal(res, remote, false, error, [])
    case Success(body) =>
      if MarshalStruct(kind, body) == MarshalStruct(kind, found - Masked(kind)) then
        Step(res.SetReady(Updated(kind)), remote, Done, [])
      else
        var q := Update(res.spec.Key(), body);
        var (remote', r) := Served(defaults, remote, q, w.write);
        match ReadUpdate(r)
        case Accepted => Step(res.SetReady(Updated(kind)), remote', Done, [Sent(q)])
        case Conflict => Step(res, remote', Again, [Sent(q)])
        case Refused(retry, error) => Refusal(res, remote', retry, error, [Sent(q)])
  }

  function DeleteStep(defaults: Record, res: Resource, remote: Option<Record>, w: Weather): Step
  {
    var q := Delete(res.spec.Key());
    var (remote', r) := Served(defaults, remote, q, w.write);
    match ReadDelete(r)
    case Accepted => Step(res, remote', Done, [Sent(q)])
    case Conflict => Step(res, remote', Again, [Sent(q)])
    case Refused(retry, error) => Refusal(res, remote', retry, error, [Sent(q)])
  }

  /** Everything after the look-up. */
  function Act(defaults: Record, res: Resource, remote: Option<Record>, found: Found, w: Weather): Step
  {
    match found
    case FindFailed(retry, error) =>
      if retry then Step(res, remote, Again, [])
      else Step(res.SetReady(Failed(res.spec.Kind(), error)), remote, Done, [])
    case Missing =>
      if res.deleting then Step(res, remote, Done, []) else CreateStep(defaults, res, remote, w)
    case FoundRecord(record) =>
      if res.deleting then DeleteStep(defaults, res, remote, w)
      else UpdateStep(defaults, res, remote, record, w)
  }

  /** `reconcile`: look up, then at most one write. */
  function Drive(defaults: Record, res: Resource, remote: Option<Record>, w: Weather): Step
  {
    var q := Find(res.spec.Key());
    var (remote', r) := Served(defaults, remote, q, w.find);
    var s := Act(defaults, res, remote', ReadFind(res.spec.Kind(), r), w);
    s.(events := [Sent(q)] + s.events)
  }

  /** `Reconcile` up to the deferred patches. */
  function Reconcile(defaults: Record, res: Resource, remote: Option<Record>, w: Weather): Step
  {
    var guarded := if res.deleting then res else res.(finalizers := AddFinalizer(res.finalizers));
    var s := Drive(defaults, guarded, remote, w);
    if res.deleting && s.outcome == Done then
      s.(res := s.res.(finalizers := RemoveFinalizer(s.res.finalizers)))
    else s
  }
}
