/** Writes whose answer is lost, and writes that come too late: the next undisturbed reconcile puts both right. */
module Races {
  import opened Common
  import opened Json
  import opened Wire
  import opened Resources
  import opened Protocol
  import opened Steps
  import opened Managed
  import opened Convergence

  predicate Posted(s: Step) { exists e <- s.events :: e.Sent? && e.q.Create? }

  /** A live resource that an undisturbed reconcile can work on. */
  predicate Ordinary(defaults: Record, res: Resource)
  {
    !res.deleting && Proper(res.spec) && Readable(res.spec.Kind(), Some(defaults))
  }

  lemma MissedPosts(defaults: Record, res: Resource, w: Weather)
    requires Ordinary(defaults, res) && w.find == Link(Nothing, Clear) && WithPassword(res.spec, w.supply).Success?
    ensures var s := Reconcile(defaults, res, None, w);
            var c := CreateStep(defaults, Guard(res), None, w);
            && Posted(s) && WriteOf(c).Some? && s.res == c.res && s.remote == c.remote && s.outcome == c.outcome
            && Judged(Guard(res), c, WriteOf(c).value, Served(defaults, None, WriteOf(c).value, w.write).1)
            && c.remote == Served(defaults, None, WriteOf(c).value, w.write).0 && WriteOf(c).value.Create?
  {
    hide CreateStep, Served, Judged, CreateBody, Guard, WithPassword;
    var spec := WithPassword(res.spec, w.supply).value;
    Filled(res.spec, w.supply);
    BodiesDecode(spec, Comment);
    CreateJudged(defaults, Guard(res), None, w) by { GuardKeeps(res); }
    var c := CreateStep(defaults, Guard(res), None, w);
    MissedReconcile(defaults, res, w);
    assert c.events[|c.events| - 1] in c.events;
    assert forall e <- c.events :: e in [Sent(Find(res.spec.Key()))] + c.events;
  }

  lemma GuardKeeps(res: Resource)
    ensures Guard(res) == res.(finalizers := Guard(res).finalizers)
  {
  }

  lemma Filled(spec: Spec, supply: Supply)
    requires Proper(spec) && WithPassword(spec, supply).Success?
    ensures var filled := WithPassword(spec, supply).value; Proper(filled) && PasswordFilled(spec, filled)
  {
    WithPasswordFills(spec, supply);
    ProperFilled(spec, WithPassword(spec, supply).value);
  }

  lemma MissedReconcile(defaults: Record, res: Resource, w: Weather)
    requires !res.deleting && w.find == Link(Nothing, Clear)
    ensures var c := CreateStep(defaults, Guard(res), None, w);
            Reconcile(defaults, res, None, w) == c.(events := [Sent(Find(res.spec.Key()))] + c.events)
  {
    hide CreateStep;
  }

  /** An undisturbed reconcile ends well. With a record it sends no POST and leaves the record showing the spec; without
      one it creates it. */
  lemma Undisturbed(defaults: Record, res: Resource, remote: Option<Record>, w: Weather)
    requires Ordinary(defaults, res) && Readable(res.spec.Kind(), remote) && Fair(res.spec, w)
    ensures var s := Reconcile(defaults, res, remote, w);
            && s.outcome == Done && s.remote.Some? && (Posted(s) <==> remote.None?)
            && (remote.Some? ==> Reflected(res.spec, s.remote))
  {
    hide Reconcile, UpdateStep, CreateStep, Decode, Reflected, WithPassword, AtMostOneWrite;
    if remote.Some? {
      FoundReconcile(defaults, res, remote.value, w);
      FairUpdate(defaults, Guard(res), remote.value, w);
      UpdatesOnly(defaults, res, remote.value, w);
    } else {
      MissedReconcile(defaults, res, w);
      FairCreate(defaults, Guard(res), w);
      MissedPosts(defaults, res, w);
    }
  }

  lemma UpdatesOnly(defaults: Record, res: Resource, remote: Record, w: Weather)
    requires Ordinary(defaults, res) && Readable(res.spec.Kind(), Some(remote)) && w.find == Link(Nothing, Clear)
    ensures !Posted(Reconcile(defaults, res, Some(remote), w))
  {
    Requests(defaults, res, Some(remote), w);
    hide Reconcile, Decode, UpdateBody;
    var events := Reconcile(defaults, res, Some(remote), w).events;
    assert forall e <- events :: e == events[0] || e in events[1..];
  }

  /** A create is answered by the gateway: whether it took effect nobody can tell. It is retried, and the next
      undisturbed reconcile finds out: it sends a second POST exactly if the first one did not take effect. */
  lemma LostAnswer(defaults: Record, res: Resource, w: Weather, applied: bool, answer: Response, next: Weather)
    requires Ordinary(defaults, res) && WithPassword(res.spec, w.supply).Success? && FromGateway(answer)
    requires w.find == Link(Nothing, Clear) && w.write == Link(Nothing, Disturbed(applied, answer))
    requires Fair(WithPassword(res.spec, w.supply).value, next)
    ensures var s := Reconcile(defaults, res, None, w);
            var t := Reconcile(defaults, s.res, s.remote, next);
            && Posted(s) && s.outcome == Again && ReadyIs(s.res, False) && (s.remote.Some? <==> applied)
            && t.outcome == Done && t.remote.Some? && (Posted(t) <==> !applied)
            && (applied ==> Reflected(s.res.spec, t.remote))
  {
    hide Reconcile, CreateStep, Reflected, WithPassword, ReadCreate;
    MissedPosts(defaults, res, w);
    CreateReadable(defaults, Guard(res), None, w) by { GatewayHonest(res.spec.Kind(), w, answer); }
    var s := Reconcile(defaults, res, None, w);
    CreatedSpec(defaults, res, w);
    Filled(res.spec, w.supply);
    Undisturbed(defaults, s.res, s.remote, next);
  }

  lemma GatewayHonest(kind: Kind, w: Weather, answer: Response)
    requires FromGateway(answer) && w.find == Link(Nothing, Clear) && w.write.fate.Disturbed?
    requires w.write.fate.answer == answer && w.write.before.Nothing?
    ensures Bearable(kind, w)
  {
  }

  lemma CreatedSpec(defaults: Record, res: Resource, w: Weather)
    requires Ordinary(defaults, res) && WithPassword(res.spec, w.supply).Success? && w.find == Link(Nothing, Clear)
    ensures var s := Reconcile(defaults, res, None, w);
            s.res.spec == WithPassword(res.spec, w.supply).value && s.res.deleting == res.deleting
  {
    hide CreateStep, WithPassword;
    MissedReconcile(defaults, res, w);
    Frame(defaults, res, None, w);
    CreateSpec(defaults, Guard(res), w) by { GuardKeeps(res); }
    hide Reconcile, Guard;
  }

  lemma CreateSpec(defaults: Record, res: Resource, w: Weather)
    requires WithPassword(res.spec, w.supply).Success?
    ensures CreateStep(defaults, res, None, w).res.spec == WithPassword(res.spec, w.supply).value
  {
    hide Served, ReadCreate, CreateBody, SetCondition, WithPassword;
  }

  /** Somebody else creates the record between the look-up and the POST. The POST is refused as a conflict, their record
      stays as it is, nothing is reported, and the next undisturbed reconcile turns to updating that record. */
  lemma LostRace(defaults: Record, res: Resource, w: Weather, other: Record, next: Weather)
    requires Ordinary(defaults, res) && WithPassword(res.spec, w.supply).Success?
    requires Readable(res.spec.Kind(), Some(other))
    requires w.find == Link(Nothing, Clear) && w.write == Link(Overwrite(Some(other)), Clear)
    requires Fair(WithPassword(res.spec, w.supply).value, next)
    ensures var s := Reconcile(defaults, res, None, w);
            var t := Reconcile(defaults, s.res, s.remote, next);
            && Posted(s) && s.outcome == Again && s.res.conditions == res.conditions && s.remote == Some(other)
            && t.outcome == Done && !Posted(t) && Reflected(s.res.spec, t.remote)
  {
    hide Reconcile, CreateStep, Reflected, WithPassword, ReadCreate;
    MissedPosts(defaults, res, w);
    var s := Reconcile(defaults, res, None, w);
    CreatedSpec(defaults, res, w);
    Filled(res.spec, w.supply);
    Undisturbed(defaults, s.res, s.remote, next);
  }
}
