/** The HTTP client: its construction from options, the editing of requests, and where requests go. */
module Client {
  import opened Common
  import opened Wire
  import opened Resources
  import opened Protocol
  import opened Url

  type Headers = seq<(string, string)>

  /** A request editor may change the headers, and may fail after having done so. */
  type RequestEditor = Headers -> (Headers, Option<string>)

  /** Editors run in order until one fails. */
  function Edited(headers: Headers, editors: seq<RequestEditor>): (Headers, Option<string>)
    decreases |editors|
  {
    if editors == [] then (headers, None)
    else
      var (h, err) := editors[0](headers);
      if err.Some? then (h, err) else Edited(h, editors[1..])
  }

  datatype Doer = DefaultDoer | CustomDoer(id: nat)

  /** The fields of a client while its options are applied. */
  datatype Settings = Settings(server: string, doer: Option<Doer>, editors: seq<RequestEditor>)

  type ClientOption = Settings -> Result<Settings>

  function WithHTTPClient(doer: Doer): ClientOption { (s: Settings) => Success(s.(doer := Some(doer))) }

  function WithRequestEditorFn(editor: RequestEditor): ClientOption
  {
    (s: Settings) => Success(s.(editors := s.editors + [editor]))
  }

  /** Options are applied in order; the first failure is the result. */
  function Configured(s: Settings, options: seq<ClientOption>): Result<Settings>
    decreases |options|
  {
    if options == [] then Success(s)
    else
      var next :- options[0](s);
      Configured(next, options[1..])
  }

  /** The options' result with a slash at the end of the server URL and a doer in any case. */
  function Completed(s: Settings): Settings
  {
    s.(server := WithSlash(s.server), doer := if s.doer.None? then Some(DefaultDoer) else s.doer)
  }

  class HttpRequest {
    var verb: string
    var path: string
    var headers: Headers

    constructor (verb: string, path: string)
      ensures this.verb == verb && this.path == path && headers == []
    {
      this.verb, this.path, headers := verb, path, [];
    }
  }

  class HttpClient {
    var server: string
    var doer: Option<Doer>
    var requestEditors: seq<RequestEditor>

    function State(): Settings
      reads this
    {
      Settings(server, doer, requestEditors)
    }

    constructor (s: Settings)
      ensures State() == s
    {
      server, doer, requestEditors := s.server, s.doer, s.editors;
    }

    method ApplyEditors(req: HttpRequest, additional: seq<RequestEditor>) returns (err: Option<string>)
      modifies req
      ensures (req.headers, err) == Edited(old(req.headers), requestEditors + additional)
      ensures req.verb == old(req.verb) && req.path == old(req.path)
    {
      ghost var all := requestEditors + additional;
      for i := 0 to |requestEditors|
        invariant Edited(old(req.headers), all) == Edited(req.headers, all[i..])
        invariant req.verb == old(req.verb) && req.path == old(req.path)
      {
        assert all[i] == requestEditors[i] && all[i..][1..] == all[i + 1..];
        var (h, e) := requestEditors[i](req.headers);
        req.headers := h;
        if e.Some? {
          return e;
        }
      }
      ghost var n := |requestEditors|;
      for i := 0 to |additional|
        invariant Edited(old(req.headers), all) == Edited(req.headers, all[n + i..])
        invariant req.verb == old(req.verb) && req.path == old(req.path)
      {
        assert all[n + i] == additional[i] && all[n + i..][1..] == all[n + i + 1..];
        var (h, e) := additional[i](req.headers);
        req.headers := h;
        if e.Some? {
          return e;
        }
      }
      return None;
    }
  }

  method NewClient(server: string, options: seq<ClientOption>) returns (r: Result<HttpClient>)
    ensures r.Success? <==> Configured(Settings(server, None, []), options).Success?
    ensures r.Success? ==> fresh(r.value)
                           && r.value.State() == Completed(Configured(Settings(server, None, []), options).value)
    ensures r.Failure? ==> r.message == Configured(Settings(server, None, []), options).message
  {
    var s := Settings(server, None, []);
    ghost var result := Configured(s, options);
    for i := 0 to |options|
      invariant result == Configured(s, options[i..])
    {
      assert options[i..][1..] == options[i + 1..];
      var next := options[i](s);
      if next.Failure? {
        return Failure(next.message);
      }
      s := next.value;
    }
    var client := new HttpClient(s);
    if client.server == "" || client.server[|client.server| - 1] != '/' {
      client.server := client.server + "/";
    }
    if client.doer.None? {
      client.doer := Some(DefaultDoer);
    }
    return Success(client);
  }

  // ---------- editors and options in sequence ----------

  /** The second sequence of editors works on what the first one left, unless that failed. */
  lemma {:induction false} EditedInTurn(headers: Headers, a: seq<RequestEditor>, b: seq<RequestEditor>)
    ensures Edited(headers, a + b) ==
            var (h, err) := Edited(headers, a); if err.Some? then (h, err) else Edited(h, b)
    ensures |a| == 1 ==> Edited(headers, a) == a[0](headers)
    decreases |a|
  {
    if a == [] {
      assert a + b == b;
    } else {
      assert (a + b)[1..] == a[1..] + b;
      EditedInTurn(a[0](headers).0, a[1..], b);
    }
  }

  // ---------- the operator's client ----------

  function Bearer(token: string): RequestEditor
  {
    (headers: Headers) => (headers + [("Authorization", "Bearer " + token)], None)
  }

  function OperatorOptions(token: string): seq<ClientOption> { [WithRequestEditorFn(Bearer(token))] }

  /** The operator's client cannot fail to be built, and every request it edits carries the token. */
  lemma OperatorClient(server: string, token: string, headers: Headers)
    ensures var r := Configured(Settings(server, None, []), OperatorOptions(token));
            && r.Success?
            && Edited(headers, Completed(r.value).editors) == (headers + [("Authorization", "Bearer " + token)], None)
            && Completed(r.value).server == WithSlash(server) && Completed(r.value).doer == Some(DefaultDoer)
  {
    var option := WithRequestEditorFn(Bearer(token));
    assert OperatorOptions(token)[1..] == [];
    assert [] + [Bearer(token)] == [Bearer(token)] && [Bearer(token)][1..] == [];
  }

  lemma {:induction false} LastOption(s: Settings, options: seq<ClientOption>, last: ClientOption)
    ensures Configured(s, options + [last]) ==
            var before := Configured(s, options);
            if before.Failure? then before else Configured(before.value, [last])
    decreases |options|
  {
    if options == [] {
      assert options + [last] == [last];
    } else {
      assert (options + [last])[1..] == options[1..] + [last];
      var next := options[0](s);
      if next.Success? {
        LastOption(next.value, options[1..], last);
      }
    }
  }

  /** A doer given last replaces any other, and nothing else. */
  lemma DoerReplaced(server: string, options: seq<ClientOption>, doer: Doer)
    requires Configured(Settings(server, None, []), options).Success?
    ensures var r := Configured(Settings(server, None, []), options + [WithHTTPClient(doer)]);
            var without := Configured(Settings(server, None, []), options);
            r.Success? && Completed(r.value) == Completed(without.value).(doer := Some(doer))
  {
    LastOption(Settings(server, None, []), options, WithHTTPClient(doer));
    assert [WithHTTPClient(doer)][1..] == [];
  }

  /** An editor given last is applied after all others, and nothing else changes. */
  lemma EditorAdded(server: string, options: seq<ClientOption>, editor: RequestEditor)
    requires Configured(Settings(server, None, []), options).Success?
    ensures var r := Configured(Settings(server, None, []), options + [WithRequestEditorFn(editor)]);
            var without := Configured(Settings(server, None, []), options).value;
            r.Success? && Completed(r.value) == Completed(without).(editors := without.editors + [editor])
  {
    LastOption(Settings(server, None, []), options, WithRequestEditorFn(editor));
    assert [WithRequestEditorFn(editor)][1..] == [];
  }

  // ---------- request addresses ----------

  function CollectionOf(kind: Kind): string
  {
    match kind
    case AliasKind => "alias"
    case DomainKind => "domain"
    case UserKind => "user"
  }

  /** Verb and path of a request; `server` is what follows the authority in the client's server URL. */
  function Address(server: string, kind: Kind, q: Request): (string, string)
  {
    var c := CollectionOf(kind);
    match q
    case Find(key) => ("GET", ItemPath(server, c, key))
    case Create(_, _) => ("POST", CollectionPath(server, c))
    case Update(key, _) => ("PATCH", ItemPath(server, c, key))
    case Delete(key) => ("DELETE", ItemPath(server, c, key))
  }

  /** The path of a kind's objects below the server's base. */
  function Below(kind: Kind): string
  {
    match kind
    case AliasKind => "/alias"
    case DomainKind => "/domain"
    case UserKind => "/user"
  }

  lemma BelowCollection(kind: Kind)
    ensures Below(kind) == "/" + CollectionOf(kind)
  {
    assert "/alias" == "/" + "alias" && "/domain" == "/" + "domain" && "/user" == "/" + "user";
  }

  /** Where each request goes, and how, to the letter. */
  lemma AddressExactly(server: string, kind: Kind, q: Request)
    requires ServerPath(server) && (q.Create? || Addressable(q.key))
    ensures var (verb, path) := Address(WithSlash(server), kind, q);
            && verb == (if q.Find? then "GET" else if q.Create? then "POST" else if q.Update? then "PATCH"
                        else "DELETE")
            && path == SentBase(server) + Below(kind) + (if q.Create? then "" else "/" + Escape(q.key))
  {
    hide ItemPath, CollectionPath, ItemBelow, CollectionBelow, Base, EscapedPath, Escape, Below, CollectionOf;
    var base, c := SentBase(server), CollectionOf(kind);
    assert Base(base) by { ServerBase(server); }
    assert Collection(c) by { CollectionNamed(kind); }
    SentPaths(server, c, q.key);
    Addressed(base, "", c, q.key);
    BelowCollection(kind);
    Regrouped(base, c, Escape(q.key));
  }

  lemma Regrouped(base: string, c: string, segment: string)
    ensures base + "/" + c + "/" + segment == base + ("/" + c) + ("/" + segment)
    ensures base + "/" + c == base + ("/" + c) + ""
  {
  }

  lemma CollectionNamed(kind: Kind)
    ensures Collection(CollectionOf(kind))
  {
  }

  predicate SameOperation(q: Request, p: Request)
  {
    (q.Find? && p.Find?) || (q.Create? && p.Create?) || (q.Update? && p.Update?) || (q.Delete? && p.Delete?)
  }

  /** An address determines operation, kind and (but for creation, whose key is in the body) the object. */
  lemma AddressDetermines(server: string, kind: Kind, q: Request, other: Kind, p: Request)
    requires ServerPath(server) && Addressable(q.key) && Addressable(p.key)
    ensures Address(WithSlash(server), kind, q) == Address(WithSlash(server), other, p) <==>
            SameOperation(q, p) && kind == other && (q.Create? || q.key == p.key)
  {
    hide ItemPath, CollectionPath;
    var c, d := CollectionOf(kind), CollectionOf(other);
    assert c == d <==> kind == other by {
      assert |"alias"| == 5 && |"domain"| == 6 && |"user"| == 4;
    }
    PathsDiffer(server, c, q.key, d, p.key);
    CollectionsDiffer(server, c, d);
  }

  lemma CollectionsDiffer(server: string, c: string, d: string)
    requires ServerPath(server) && Collection(c) && Collection(d)
    ensures CollectionPath(WithSlash(server), c) == CollectionPath(WithSlash(server), d) <==> c == d
  {
    hide CollectionPath, CollectionBelow, Base, EscapedPath;
    var base := SentBase(server);
    assert Base(base) by { ServerBase(server); }
    SentPaths(server, c, c);
    SentPaths(server, d, d);
    Addressed(base, "", c, c);
    Addressed(base, "", d, d);
    assert (base + "/" + c)[|base| + 1..] == c && (base + "/" + d)[|base| + 1..] == d;
  }

  /** Every alias and user can be addressed, and every domain but those with an empty name, `.` and `..`. */
  lemma KeysAddressable(spec: Spec)
    ensures Addressable(spec.Key()) <==> !(spec.DomainSpec? && spec.name in {"", ".", ".."})
  {
    if !spec.DomainSpec? {
      assert spec.Key()[|spec.name|] == '@';
    }
  }
}
