/** The reconcilers as objects: they change the resource they are given in place, send requests to Mailu and
    patch the API server. Every method is proved to do what the protocol's functions say. */
module Reconciler {
  import opened Common
  import opened Wire
  import opened Resources
  import opened ApiServers
  import opened Objects
  import Patches
  import Steps
  import opened Protocol
  import opened Runs
  import opened Client
  import Secrets
  import Url

  class Mailu {
    const defaults: Record
    var store: map<string, Record>
    ghost var log: seq<Event>        // requests received and passwords drawn, in order

    constructor (defaults: Record)
      ensures this.defaults == defaults && store == map[] && log == []
    {
      this.defaults, store, log := defaults, map[], [];
    }

    method Do(q: Request, link: Link) returns (r: Response)
      modifies this
      ensures var (after, answer) := Served(defaults, At(old(store), q.key), q, link);
              r == answer && store == Put(old(store), q.key, after)
      ensures log == old(log) + [Sent(q)]
    {
      log := log + [Sent(q)];
      var now := Meddled(At(store, q.key), link.before);
      match link.fate {
        case Clear =>
          store := Put(store, q.key, Apply(defaults, now, q));
          return Truth(now, q);
        case Disturbed(applied, answer) =>
          store := Put(store, q.key, if applied then Apply(defaults, now, q) else now);
          return answer;
      }
    }
  }

  lemma PutTwice(store: map<string, Record>, key: string, a: Option<Record>, b: Option<Record>)
    ensures At(Put(store, key, a), key) == a
    ensures Put(Put(store, key, a), key, b) == Put(store, key, b)
    ensures Put(store, key, At(store, key)) == store
  {
  }

  // ---------- the common tail of create, update and delete ----------

  function Concluded(res: Resource, retry: bool, err: Option<string>, success: Option<Condition>): Resource
  {
    if err.Some? then res.SetReady(Failed(res.spec.Kind(), err.value))
    else if retry || success.None? then res
    else res.SetReady(success.value)
  }

  function Ended(retry: bool, err: Option<string>): Outcome
  {
    if retry then Again else if err.Some? then Error else Done
  }

  /** Go's `(retry, err)` of a write. */
  function RetryOf(v: Verdict): bool { v.Conflict? || (v.Refused? && v.retry) }

  function ErrorOf(v: Verdict): Option<string> { if v.Refused? then Some(v.error) else None }

  /** What the run model makes of a reconcile, in the terms of the API server's steps. */
  lemma NextSteps(defaults: Record, res: Resource, remote: Option<Record>, w: Weather, m: Meanwhile,
                  metaOk: bool, statusOk: bool)
    ensures var s := Protocol.Reconcile(defaults, res, remote, w);
            var server := Collected(Touched(res, m));
            && Patches.Changed(res, s.res)
            && (server.Some? && (m.spec.Some? ==> m.spec.value.Kind() == res.spec.Kind()) ==>
                  server.value.spec.Kind() == res.spec.Kind())
            && Next(defaults, World(Some(res), remote), Reconciles(w, m, metaOk, statusOk)) ==
               World(if server.None? then None else Patched(server.value, res, s.res, metaOk, statusOk), s.remote)
  {
    Steps.Frame(defaults, res, remote, w);
    hide Protocol.Reconcile, Patched;
  }

  lemma Filled(spec: Spec, supply: Supply)
    ensures WithPassword(spec, supply).Success? ==> SameAddress(spec, WithPassword(spec, supply).value)
    ensures WithPassword(spec, supply).Failure? ==> PasswordEvents(spec, supply) == []
  {
  }

  class Reconciler {
    const mailu: Mailu
    const apiServer: ApiServer
    const apiURL: string
    const apiToken: string
    var apiClient: Option<HttpClient>

    constructor (mailu: Mailu, apiServer: ApiServer, apiURL: string, apiToken: string)
      ensures this.mailu == mailu && this.apiServer == apiServer && this.apiURL == apiURL && this.apiToken == apiToken
      ensures apiClient == None
    {
      this.mailu, this.apiServer, this.apiURL, this.apiToken := mailu, apiServer, apiURL, apiToken;
      apiClient := None;
    }

    /** What has happened in Mailu: the record under `key` is `remote`, all others are as they were. */
    twostate predicate Happened(key: string, remote: Option<Record>, events: seq<Event>)
      reads mailu
    {
      mailu.store == Put(old(mailu.store), key, remote) && mailu.log == old(mailu.log) + events
    }

    method Conclude(obj: CustomResource, retry: bool, err: Option<string>, success: Option<Condition>)
      returns (outcome: Outcome)
      requires obj.Valid()
      modifies obj.Footprint()
      ensures obj.Valid() && fresh(obj.Footprint() - old(obj.Footprint()))
      ensures obj.Value() == Concluded(old(obj.Value()), retry, err, success) && outcome == Ended(retry, err)
    {
      hide Spec.WithList, SetCondition;
      if err.Some? {
        obj.SetStatusCondition(Failed(obj.spec.Kind(), err.value));
        return if retry then Again else Error;
      }
      if retry {
        return Again;
      }
      if success.Some? {
        obj.SetStatusCondition(success.value);
      }
      return Done;
    }

    /** `getRawUserPassword`: from the secret if the spec names one, else drawn. */
    method GetRawUserPassword(spec: Spec, supply: Supply) returns (r: Result<string>)
      requires spec.UserSpec? && spec.rawPassword == ""
      modifies mailu`log
      ensures r == RawPasswordFor(spec, supply)
      ensures mailu.log == old(mailu.log) + PasswordEvents(spec, supply)
    {
      if spec.passwordSecret != "" && spec.passwordKey != "" {
        var secret := Secrets.Fetch(supply.secrets, spec.passwordSecret);
        var password := Secrets.GetUserPassword(secret, spec.passwordKey);
        return Secrets.TextOf(password);
      }
      if supply.generated.Success? {
        mailu.log := mailu.log + [Generated(supply.generated.value)];
      }
      return supply.generated;
    }

    /** A user's empty password is filled in place. */
    method FillPassword(obj: CustomResource, supply: Supply) returns (err: Option<string>)
      requires obj.Valid()
      modifies mailu`log, obj`spec
      ensures obj.Valid() && obj.Value() == old(obj.Value()).(spec := obj.SpecValue())
      ensures var spec := old(obj.SpecValue());
              && mailu.log == old(mailu.log) + PasswordEvents(spec, supply)
              && match WithPassword(spec, supply)
                 case Success(filled) => err.None? && obj.SpecValue() == filled
                 case Failure(e) => err == Some(e) && obj.SpecValue() == spec
    {
      var spec := obj.SpecValue();
      if spec.UserSpec? && spec.rawPassword == "" {
        var password := GetRawUserPassword(spec, supply);
        if password.Failure? {
          return Some(password.message);
        }
        obj.spec := obj.spec.(rawPassword := password.value);
      }
      return None;
    }

    /** `createUser` and its siblings. */
    method CreateRemote(obj: CustomResource, w: Weather) returns (retry: bool, err: Option<string>)
      requires obj.Valid()
      modifies mailu, obj`spec
      ensures obj.Valid()
      ensures var key := old(obj.SpecValue()).Key();
              var s := CreateStep(mailu.defaults, old(obj.Value()), At(old(mailu.store), key), w);
              && Happened(key, s.remote, s.events) && s.outcome == Ended(retry, err)
              && s.res == Concluded(obj.Value(), retry, err, Some(Created(obj.SpecValue().Kind())))
    {
      hide SetCondition, CreateBody, Served, ReadCreate, Spec.WithList, Spec.Key, Spec.Kind, PasswordEvents;
      ghost var before, log := obj.SpecValue(), mailu.log;
      PutTwice(mailu.store, before.Key(), None, None);
      Filled(before, w.supply);
      assert log + [] == log;
      err := FillPassword(obj, w.supply);
      if err.Some? {
        return true, err;
      }
      var spec := obj.SpecValue();
      var body := CreateBody(spec);
      if body.Failure? {
        return false, Some(body.message);
      }
      var r := mailu.Do(Protocol.Create(spec.Key(), body.value), w.write);
      var v := ReadCreate(r);
      ghost var sent := Sent(Protocol.Create(spec.Key(), body.value));
      assert log + PasswordEvents(before, w.supply) + [sent] == log + (PasswordEvents(before, w.supply) + [sent]);
      return RetryOf(v), ErrorOf(v);
    }

    method Create(obj: CustomResource, w: Weather) returns (outcome: Outcome)
      requires obj.Valid()
      modifies mailu, obj.Footprint()
      ensures obj.Valid() && fresh(obj.Footprint() - old(obj.Footprint()))
      ensures var key := old(obj.SpecValue()).Key();
              var s := CreateStep(mailu.defaults, old(obj.Value()), At(old(mailu.store), key), w);
              Happened(key, s.remote, s.events) && s.res == obj.Value() && s.outcome == outcome
    {
      hide CreateStep, Concluded, Spec.WithList, Spec.Key, Spec.Kind;
      var retry, err := CreateRemote(obj, w);
      outcome := Conclude(obj, retry, err, Some(Created(obj.SpecValue().Kind())));
    }

    method UpdateRemote(key: string, body: Record, link: Link) returns (retry: bool, err: Option<string>)
      modifies mailu
      ensures var (after, r) := Served(mailu.defaults, At(old(mailu.store), key), Protocol.Update(key, body), link);
              && Happened(key, after, [Sent(Protocol.Update(key, body))])
              && retry == RetryOf(ReadUpdate(r)) && err == ErrorOf(ReadUpdate(r))
    {
      hide Served, ReadUpdate;
      var r := mailu.Do(Protocol.Update(key, body), link);
      var v := ReadUpdate(r);
      return RetryOf(v), ErrorOf(v);
    }

    /** Compares what the spec asks for with what was found, and patches the record if they differ. */
    method Update(obj: CustomResource, apiRecord: Record, w: Weather) returns (outcome: Outcome)
      requires obj.Valid()
      modifies mailu, obj.Footprint()
      ensures obj.Valid() && fresh(obj.Footprint() - old(obj.Footprint()))
      ensures var key := old(obj.SpecValue()).Key();
              var s := UpdateStep(mailu.defaults, old(obj.Value()), At(old(mailu.store), key), apiRecord, w);
              Happened(key, s.remote, s.events) && s.res == obj.Value() && s.outcome == outcome
    {
      hide Served, FromSpec, MarshalStruct, SetCondition, ReadUpdate, Masked, Spec.WithList, Spec.Key, Spec.Kind;
      var spec := obj.SpecValue();
      PutTwice(mailu.store, spec.Key(), None, None);
      assert mailu.log + [] == mailu.log;
      var kind := spec.Kind();
      var built := FromSpec(spec);
      if built.Failure? {
        obj.SetStatusCondition(Failed(kind, built.message));
        return Error;
      }
      var newRecord := built.value - {RawPassword};
      var found := apiRecord - Masked(kind);
      if MarshalStruct(kind, newRecord) == MarshalStruct(kind, found) {
        obj.SetStatusCondition(Updated(kind));
        return Done;
      }
      var retry, err := UpdateRemote(spec.Key(), newRecord, w.write);
      outcome := Conclude(obj, retry, err, Some(Updated(kind)));
    }

    method DeleteRemote(key: string, link: Link) returns (retry: bool, err: Option<string>)
      modifies mailu
      ensures var (after, r) := Served(mailu.defaults, At(old(mailu.store), key), Protocol.Delete(key), link);
              && Happened(key, after, [Sent(Protocol.Delete(key))])
              && retry == RetryOf(ReadDelete(r)) && err == ErrorOf(ReadDelete(r))
    {
      hide Served, ReadDelete;
      var r := mailu.Do(Protocol.Delete(key), link);
      var v := ReadDelete(r);
      return RetryOf(v), ErrorOf(v);
    }

    method Delete(obj: CustomResource, w: Weather) returns (outcome: Outcome)
      requires obj.Valid()
      modifies mailu, obj.Footprint()
      ensures obj.Valid() && fresh(obj.Footprint() - old(obj.Footprint()))
      ensures var key := old(obj.SpecValue()).Key();
              var s := DeleteStep(mailu.defaults, old(obj.Value()), At(old(mailu.store), key), w);
              Happened(key, s.remote, s.events) && s.res == obj.Value() && s.outcome == outcome
    {
      hide Served, ReadDelete, SetCondition, Spec.WithList, Spec.Key;
      var retry, err := DeleteRemote(obj.SpecValue().Key(), w.write);
      outcome := Conclude(obj, retry, err, None);
    }

    /** Looks the record up. */
    method Get(obj: CustomResource, link: Link) returns (found: Found)
      requires obj.Valid()
      modifies mailu
      ensures obj.Valid() && obj.Value() == old(obj.Value())
      ensures var spec := obj.SpecValue();
              var (after, r) := Served(mailu.defaults, At(old(mailu.store), spec.Key()), Find(spec.Key()), link);
              Happened(spec.Key(), after, [Sent(Find(spec.Key()))]) && found == ReadFind(spec.Kind(), r)
    {
      hide Served, ReadFind, Spec.WithList, Spec.Key, Spec.Kind;
      var r := mailu.Do(Find(obj.SpecValue().Key()), link);
      return ReadFind(obj.SpecValue().Kind(), r);
    }

    /** What follows the look-up. */
    method Continue(obj: CustomResource, found: Found, w: Weather) returns (outcome: Outcome)
      requires obj.Valid()
      modifies mailu, obj.Footprint()
      ensures obj.Valid() && fresh(obj.Footprint() - old(obj.Footprint()))
      ensures var key := old(obj.SpecValue()).Key();
              var s := Act(mailu.defaults, old(obj.Value()), At(old(mailu.store), key), found, w);
              Happened(key, s.remote, s.events) && s.res == obj.Value() && s.outcome == outcome
    {
      hide CreateStep, UpdateStep, DeleteStep, SetCondition, Spec.WithList, Spec.Key, Spec.Kind;
      PutTwice(mailu.store, obj.SpecValue().Key(), None, None);
      assert mailu.log + [] == mailu.log;
      if found.FindFailed? {
        if found.retry {
          return Again;
        }
        obj.SetStatusCondition(Failed(obj.SpecValue().Kind(), found.error));
        return Done;
      }
      if obj.deleting {
        if found.Missing? {
          return Done;
        }
        outcome := Delete(obj, w);
        return;
      }
      if found.Missing? {
        outcome := Create(obj, w);
        return;
      }
      outcome := Update(obj, found.record, w);
    }

    /** The HTTP client is built on first use and kept; with the operator's options this cannot fail. */
    method EnsureClient()
      modifies `apiClient
      ensures apiClient.Some?
      ensures old(apiClient).Some? ==> apiClient == old(apiClient)
      ensures old(apiClient).None? ==>
                fresh(apiClient.value) && apiClient.value.server == Url.WithSlash(apiURL)
                && apiClient.value.requestEditors == [Bearer(apiToken)] && apiClient.value.doer == Some(DefaultDoer)
    {
      if apiClient.None? {
        OperatorClient(apiURL, apiToken, []);
        var api := NewClient(apiURL, OperatorOptions(apiToken));
        apiClient := Some(api.value);
      }
    }

    /** `reconcile`. */
    method Drive(obj: CustomResource, w: Weather) returns (outcome: Outcome)
      requires obj.Valid()
      modifies `apiClient, mailu, obj.Footprint()
      ensures obj.Valid() && fresh(obj.Footprint() - old(obj.Footprint()))
      ensures var key := old(obj.SpecValue()).Key();
              var s := Protocol.Drive(mailu.defaults, old(obj.Value()), At(old(mailu.store), key), w);
              Happened(key, s.remote, s.events) && s.res == obj.Value() && s.outcome == outcome
    {
      hide Act, Served, ReadFind, Spec.WithList, Spec.Key, Spec.Kind, At, Put;
      ghost var key, store, log := obj.SpecValue().Key(), mailu.store, mailu.log;
      EnsureClient();
      var found := Get(obj, w.find);
      ghost var seen := At(mailu.store, key);
      ghost var s := Act(mailu.defaults, obj.Value(), seen, found, w);
      PutTwice(store, key, seen, s.remote);
      assert log + ([Sent(Find(key))] + s.events) == log + [Sent(Find(key))] + s.events;
      PutTwice(store, key, Served(mailu.defaults, At(store, key), Find(key), w.find).0, None);
      outcome := Continue(obj, found, w);
    }

    /** A live resource gets the finalizer. */
    method Guard(obj: CustomResource)
      requires obj.Valid()
      modifies obj.Footprint()
      ensures obj.Valid() && fresh(obj.Footprint() - old(obj.Footprint()))
      ensures var was := old(obj.Value());
              obj.Value() == if was.deleting then was
                             else was.(finalizers := Resources.AddFinalizer(was.finalizers))
    {
      hide Spec.WithList;
      var guarded := Contains(obj.finalizers, FINALIZER);
      if !obj.deleting && !guarded {
        obj.AddFinalizer();
      }
    }

    /** The body of `Reconcile`, between the snapshot and the deferred patches. */
    method Process(obj: CustomResource, w: Weather) returns (outcome: Outcome)
      requires obj.Valid()
      modifies `apiClient, mailu, obj.Footprint()
      ensures obj.Valid() && fresh(obj.Footprint() - old(obj.Footprint()))
      ensures var key := old(obj.SpecValue()).Key();
              var s := Protocol.Reconcile(mailu.defaults, old(obj.Value()), At(old(mailu.store), key), w);
              Happened(key, s.remote, s.events) && s.res == obj.Value() && s.outcome == outcome
    {
      hide Protocol.Drive, Spec.WithList, Spec.Key, Resources.AddFinalizer, Resources.RemoveFinalizer, At, Put;
      ghost var was := obj.Value();
      var wasDeleting := obj.deleting;
      Guard(obj);
      assert obj.SpecValue() == was.spec;
      outcome := Drive(obj, w);
      if outcome != Error && wasDeleting && outcome != Again {
        obj.RemoveFinalizer();
      }
    }

    /** The deferred patches, both against the snapshot. */
    method PatchBoth(obj: CustomResource, original: CustomResource, metaOk: bool, statusOk: bool,
                     ghost server: Option<Resource>)
      requires obj.Valid() && original.Valid() && apiServer.stored == Patches.Documented(server)
      requires Patches.Changed(original.Value(), obj.Value())
      requires server.Some? ==> server.value.spec.Kind() == original.Value().spec.Kind()
      modifies apiServer
      ensures apiServer.stored ==
              Patches.Documented(if server.None? then None
                         else Patched(server.value, original.Value(), obj.Value(), metaOk, statusOk))
    {
      hide CustomResource.Value, StatusPatched, Patches.Changed, Patches.Document;
      var patched := obj.DeepCopy();
      apiServer.Patch(patched, original, metaOk, server);
      ghost var between := if server.None? then None
                           else Collected(if metaOk then MetaPatched(server.value, original.Value(), obj.Value())
                                          else server.value);
      patched := obj.DeepCopy();
      PatchedKind(server, original.Value(), obj.Value(), metaOk);
      apiServer.StatusPatch(patched, original, statusOk, between);
    }

    /** `Reconcile`. A copy is kept of what was read; the resource is changed in place; at the end the two patches
        carry the difference to the API server, whose copy others may have touched `meanwhile`. */
    method Reconcile(obj: CustomResource, w: Weather, meanwhile: Meanwhile, metaOk: bool, statusOk: bool)
      returns (outcome: Outcome)
      requires obj.Valid() && apiServer.stored == Some(Patches.Document(obj.Value()))
      requires meanwhile.spec.Some? ==> meanwhile.spec.value.Kind() == obj.SpecValue().Kind()
      modifies `apiClient, mailu, apiServer, obj.Footprint()
      ensures obj.Valid()
      ensures var key := old(obj.SpecValue()).Key();
              var remote := At(old(mailu.store), key);
              var s := Protocol.Reconcile(mailu.defaults, old(obj.Value()), remote, w);
              var next := Next(mailu.defaults, World(Some(old(obj.Value())), remote),
                               Reconciles(w, meanwhile, metaOk, statusOk));
              && Happened(key, s.remote, s.events) && s.res == obj.Value() && s.outcome == outcome
              && apiServer.stored == Patches.Documented(next.res) && s.remote == next.remote
    {
      hide Protocol.Reconcile, CustomResource.Value, CustomResource.SpecValue, Spec.Key, Spec.Kind, Patched, At, Put,
           Patches.Document, Patches.Changed, Collected, Touched, Next;
      ghost var before := obj.Value();
      assert before.spec == obj.SpecValue() by { ValueSpec(obj); }
      NextSteps(mailu.defaults, before, At(mailu.store, before.spec.Key()), w, meanwhile, metaOk, statusOk);
      var original := obj.DeepCopy();
      label Copied:
      outcome := Process(obj, w);
      assert unchanged@Copied(original.Footprint());
      assert original.Value() == old@Copied(original.Value());
      apiServer.Touch(meanwhile, before);
      PatchBoth(obj, original, metaOk, statusOk, Collected(Touched(before, meanwhile)));
    }
  }

  lemma ValueSpec(obj: CustomResource)
    requires obj.Valid()
    ensures obj.Value().spec == obj.SpecValue()
  {
  }
}
