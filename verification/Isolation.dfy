/** Many resources of one kind against one Mailu store: each is on its own. */
module Isolation {
  import opened Common
  import opened Wire
  import opened Resources
  import opened Protocol
  import opened Runs

  // ---------- addresses ----------

  /** The text before the first `@` and the text after it. */
  function CutAtSign(key: string): (string, string)
  {
    if key == [] then ([], [])
    else if key[0] == '@' then ([], key[1..])
    else var (before, after) := CutAtSign(key[1..]); ([key[0]] + before, after)
  }

  lemma {:induction false} CutKey(name: string, domain: string)
    requires '@' !in name
    ensures CutAtSign(name + "@" + domain) == (name, domain)
  {
    var key := name + "@" + domain;
    if name == [] {
      assert key[0] == '@' && key[1..] == domain;
    } else {
      assert key[0] == name[0] && key[1..] == name[1..] + "@" + domain;
      CutKey(name[1..], domain);
      assert name == [name[0]] + name[1..];
    }
  }

  /** Names without `@`: the first `@` of the key ends the name, so key and address determine each other. */
  lemma AddressInjective(name: string, domain: string, name': string, domain': string)
    requires '@' !in name && '@' !in name'
    ensures name + "@" + domain == name' + "@" + domain' <==> name == name' && domain == domain'
  {
    CutKey(name, domain);
    CutKey(name', domain');
  }

  /** The second address continues the name of the first with `@m`, and its domain is that much shorter. */
  predicate Continues(name: string, domain: string, name': string, domain': string)
  {
    |name| < |name'| &&
    var m := name'[|name| + 1..];
    name' == name + "@" + m && domain == m + "@" + domain'
  }

  lemma KeyParts(name: string, domain: string)
    ensures var key := name + "@" + domain;
            key[..|name|] == name && key[|name|] == '@' && key[|name| + 1..] == domain
  {
  }

  lemma ContinuedKey(name: string, domain: string, name': string, domain': string)
    requires |name| < |name'|
    ensures name + "@" + domain == name' + "@" + domain' <==> Continues(name, domain, name', domain')
  {
    var n, m := |name|, name'[|name| + 1..];
    var key, key' := name + "@" + domain, name' + "@" + domain';
    KeyParts(name, domain);
    assert name + "@" + (m + "@" + domain') == (name + "@" + m) + "@" + domain';
    if key == key' {
      assert key'[..n] == name'[..n] && key'[n] == name'[n] && key'[n + 1..] == m + "@" + domain';
      assert name' == name'[..n] + [name'[n]] + m;
    }
  }

  /** Two addresses share a key exactly when they are equal, or one name continues the other. */
  lemma SharedKey(name: string, domain: string, name': string, domain': string)
    ensures name + "@" + domain == name' + "@" + domain' <==>
            || (name == name' && domain == domain')
            || Continues(name, domain, name', domain') || Continues(name', domain', name, domain)
  {
    KeyParts(name, domain);
    KeyParts(name', domain');
    if |name| < |name'| {
      ContinuedKey(name, domain, name', domain');
    } else if |name'| < |name| {
      ContinuedKey(name', domain', name, domain);
    }
  }

  /** It happens: `a@b` at `c` is `a` at `b@c`. */
  lemma SharedKeyExample()
    ensures AliasSpec("a@b", "c", "", None, false).Key() == AliasSpec("a", "b@c", "", None, false).Key()
  {
    assert "a@b"[2..] == "b" && "a@b" == "a" + "@" + "b" && "b@c" == "b" + "@" + "c";
    SharedKey("a", "b@c", "a@b", "c");
  }

  predicate SameName(a: Spec, b: Spec)
  {
    a.name == b.name && (!a.DomainSpec? && !b.DomainSpec? ==> a.domain == b.domain)
  }

  /** Resources of one kind with distinct addresses and no `@` in a name have distinct keys. */
  lemma KeysDiffer(a: Spec, b: Spec)
    requires a.Kind() == b.Kind() && '@' !in a.name && '@' !in b.name
    ensures a.Key() == b.Key() <==> SameName(a, b)
  {
    if !a.DomainSpec? {
      AddressInjective(a.name, a.domain, b.name, b.domain);
    }
  }

  // ---------- the cluster ----------

  datatype Cluster = Cluster(resources: map<string, Resource>, store: map<string, Record>)

  /** A move of one resource, or an edit of the store by others. */
  datatype Action = Own(id: string, move: Move) | Outside(key: string, m: Meddling)

  function View(c: Cluster, id: string, key: string): World
  {
    World(if id in c.resources then Some(c.resources[id]) else None, At(c.store, key))
  }

  function Perform(defaults: Record, c: Cluster, a: Action): Cluster
  {
    match a
    case Outside(key, m) => c.(store := Put(c.store, key, Meddled(At(c.store, key), m)))
    case Own(id, move) =>
      if id !in c.resources then c
      else
        var key := c.resources[id].spec.Key();
        var next := Next(defaults, View(c, id, key), move);
        Cluster(if next.res.Some? then c.resources[id := next.res.value] else c.resources - {id},
                Put(c.store, key, next.remote))
  }

  function PerformAll(defaults: Record, c: Cluster, actions: seq<Action>): Cluster
    decreases |actions|
  {
    if actions == [] then c else PerformAll(defaults, Perform(defaults, c, actions[0]), actions[1..])
  }

  /** An action as the resource's own run sees it: one move or none. */
  function OwnMoves(id: string, key: string, a: Action): seq<Move>
  {
    match a
    case Own(i, move) => if i == id then [move] else []
    case Outside(k, m) => if k == key then [Meddles(m)] else []
  }

  function MovesOf(id: string, key: string, actions: seq<Action>): seq<Move>
  {
    if actions == [] then [] else OwnMoves(id, key, actions[0]) + MovesOf(id, key, actions[1..])
  }

  /** Addresses are fixed while actions run; edits of the store are outside actions. */
  predicate AddressKept(c: Cluster, a: Action)
  {
    a.Own? ==> !a.move.Meddles? && (a.id in c.resources ==> KeepsAddress(c.resources[a.id], a.move))
  }

  predicate AddressesKept(defaults: Record, c: Cluster, actions: seq<Action>)
    decreases |actions|
  {
    actions != [] ==>
      AddressKept(c, actions[0]) && AddressesKept(defaults, Perform(defaults, c, actions[0]), actions[1..])
  }

  /** `key` belongs to `id` alone. */
  predicate Owns(c: Cluster, id: string, key: string)
  {
    && (id in c.resources ==> c.resources[id].spec.Key() == key)
    && (forall other <- c.resources :: other != id ==> c.resources[other].spec.Key() != key)
  }

  lemma PatchedAddress(server: Resource, before: Resource, after: Resource, metaOk: bool, statusOk: bool)
    ensures var r := Patched(server, before, after, metaOk, statusOk);
            r.Some? ==> SameAddress(r.value.spec, server.spec)
  {
  }

  lemma AddressAfter(defaults: Record, world: World, move: Move)
    requires world.res.Some? && KeepsAddress(world.res.value, move)
    ensures var next := Next(defaults, world, move).res;
            next.Some? ==> SameAddress(next.value.spec, world.res.value.spec)
  {
    hide Reconcile, Patched;
    if move.Reconciles? {
      var res := world.res.value;
      PatchedAddress(Touched(res, move.meanwhile), res, Reconcile(defaults, res, world.remote, move.w).res,
                     move.metaOk, move.statusOk);
    }
  }

  /** Each action is the resource's own move, an outside edit of its record, or nothing to it. */
  lemma ActionSeen(defaults: Record, c: Cluster, id: string, key: string, a: Action)
    requires Owns(c, id, key) && AddressKept(c, a)
    ensures var c' := Perform(defaults, c, a);
            && Owns(c', id, key)
            && View(c', id, key) == Run(defaults, View(c, id, key), OwnMoves(id, key, a))
  {
    if a.Own? && a.id in c.resources {
      AddressAfter(defaults, View(c, a.id, c.resources[a.id].spec.Key()), a.move);
    }
    var moves := OwnMoves(id, key, a);
    if moves != [] {
      assert moves[1..] == [];
      assert Run(defaults, View(c, id, key), moves) == Run(defaults, Next(defaults, View(c, id, key), moves[0]), []);
    }
    hide Reconcile, Patched;
  }

  lemma RunAfter(defaults: Record, world: World, few: seq<Move>, rest: seq<Move>)
    requires |few| <= 1
    ensures Run(defaults, world, few + rest) == Run(defaults, Run(defaults, world, few), rest)
  {
    hide Next;
    if few == [] {
      assert few + rest == rest;
    } else {
      assert (few + rest)[1..] == rest && few[1..] == [];
    }
  }

  /** Isolation: in any interleaving of any number of resources with distinct keys, what happens to a resource
      and its record is the run of its own moves and of the outside edits of that record. */
  lemma {:induction false} Isolated(defaults: Record, c: Cluster, id: string, key: string, actions: seq<Action>)
    requires Owns(c, id, key) && AddressesKept(defaults, c, actions)
    ensures View(PerformAll(defaults, c, actions), id, key) ==
            Run(defaults, View(c, id, key), MovesOf(id, key, actions))
    decreases |actions|
  {
    hide Next, Perform, AddressKept, View, Owns;
    if actions != [] {
      ActionSeen(defaults, c, id, key, actions[0]);
      Isolated(defaults, Perform(defaults, c, actions[0]), id, key, actions[1..]);
      RunAfter(defaults, View(c, id, key), OwnMoves(id, key, actions[0]), MovesOf(id, key, actions[1..]));
    }
  }
}
