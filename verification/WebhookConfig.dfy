/** The two webhook configurations: each stored list is rendered from a template that is
    kept, in an annotation, as the list was before the first rewrite. Any number of replicas
    render and update at once; an update carries the version that was read. */
module WebhookConfig {
  import opened FileSystem
  import opened Wrappers
  import opened PodWebhook

  // ---- webhooks and their rendering ----

  datatype Service = Service(namespace: string, name: string, path: Option<string>)
  datatype ClientConfig = ClientConfig(url: Option<string>, service: Option<Service>, caBundle: Bytes)
  /** `rules` stands for everything the rendering carries along. */
  datatype Webhook = Webhook(name: string, client: ClientConfig, rules: string)

  /** The annotation: missing or empty, not a list of webhooks, or one. */
  datatype Template = NoTemplate | Garbled | Original(webhooks: seq<Webhook>)
  datatype Config = Config(version: nat, template: Template, webhooks: seq<Webhook>)

  /** The path of a URL, if it parses. */
  datatype Urls = Urls(path: string -> Option<string>)

  datatype Env = Env(handlers: set<string>, caBundle: Bytes, namespace: string, service: string, host: string,
    port: nat)

  /** `NilPath`: a service without a path is dereferenced all the same. */
  datatype PathResult = Path(path: string) | BadUrl | InvalidClient | NilPath

  function GetPath(u: Urls, c: ClientConfig): PathResult {
    if c.service.Some? then if c.service.value.path.Some? then Path(c.service.value.path.value) else NilPath
    else if c.url.Some? then if u.path(c.url.value).Some? then Path(u.path(c.url.value).value) else BadUrl
    else InvalidClient
  }

  function UrlFor(env: Env, path: string): string { "https://" + env.host + ":" + Decimal(env.port) + path }

  predicate Served(u: Urls, w: Webhook, env: Env) {
    GetPath(u, w.client).Path? && GetPath(u, w.client).path in env.handlers
  }

  /** What one webhook of the template is rendered to. */
  function Rendered(w: Webhook, env: Env): Webhook {
    var client := w.client.(caBundle := env.caBundle);
    w.(client :=
      if client.service.None? then client
      else if env.host != "" && client.service.value.path.Some?
        then client.(url := Some(UrlFor(env, client.service.value.path.value)), service := None)
      else client.(service := Some(client.service.value.(namespace := env.namespace, name := env.service))))
  }

  /** Rendering fails unless every webhook has a path, whether it is served or not. */
  predicate Renderable(u: Urls, ws: seq<Webhook>) { forall w | w in ws :: GetPath(u, w.client).Path? }

  /** The served webhooks among the first `n`, in order. */
  function Render(u: Urls, ws: seq<Webhook>, n: nat, env: Env): seq<Webhook>
    requires n <= |ws|
  {
    if n == 0 then []
    else Render(u, ws, n - 1, env) + if Served(u, ws[n - 1], env) then [Rendered(ws[n - 1], env)] else []
  }

  /** How many of the first `n` webhooks are served. */
  function Rank(u: Urls, ws: seq<Webhook>, n: nat, env: Env): nat
    requires n <= |ws|
  {
    if n == 0 then 0 else Rank(u, ws, n - 1, env) + if Served(u, ws[n - 1], env) then 1 else 0
  }

  /** A rendered list holds exactly the served webhooks, each at the place that its order
      in the template gives it. */
  lemma {:induction false} RenderInOrder(u: Urls, ws: seq<Webhook>, n: nat, env: Env)
    requires n <= |ws|
    ensures |Render(u, ws, n, env)| == Rank(u, ws, n, env)
    ensures forall i | 0 <= i < n && Served(u, ws[i], env) ::
      Rank(u, ws, i, env) < Rank(u, ws, n, env) && Render(u, ws, n, env)[Rank(u, ws, i, env)] == Rendered(ws[i], env)
  {
    if n > 0 { RenderInOrder(u, ws, n - 1, env); }
  }

  /** What rendering means to the API server: the same webhook with the present CA, reached
      through the present service, or by URL at the present host, under its own path. */
  lemma RenderedMeans(u: Urls, w: Webhook, env: Env)
    requires GetPath(u, w.client).Path?
    ensures var r, path := Rendered(w, env), GetPath(u, w.client).path;
      && r.name == w.name && r.rules == w.rules && r.client.caBundle == env.caBundle
      && (w.client.service.None? ==> r.client.url == w.client.url && r.client.service.None?)
      && (w.client.service.Some? && env.host == "" ==>
           r.client.service == Some(Service(env.namespace, env.service, Some(path))))
      && (w.client.service.Some? && env.host != "" ==>
           r.client.service.None?
           && r.client.url == Some("https://" + env.host + ":" + Decimal(env.port) + path))
      && (w.client.service.None? || env.host == "" ==> GetPath(u, r.client) == Path(path))
  {
  }

  // ---- what the API server is to hold, said without the code's own functions ----

  /** Requests to this webhook go to `path`: that of its service, or else that of its URL. */
  predicate HasPath(u: Urls, c: ClientConfig, path: string) {
    || (c.service.Some? && c.service.value.path == Some(path))
    || (c.service.None? && c.url.Some? && u.path(c.url.value) == Some(path))
  }

  /** Exactly the lists in which every webhook has a path can be rendered. */
  lemma RenderableIff(u: Urls, ws: seq<Webhook>)
    ensures Renderable(u, ws) <==> forall w | w in ws :: exists path :: HasPath(u, w.client, path)
  {
    forall w | w in ws ensures GetPath(u, w.client).Path? <==> exists path :: HasPath(u, w.client, path) {
      if GetPath(u, w.client).Path? { assert HasPath(u, w.client, GetPath(u, w.client).path); }
    }
  }

  predicate Handled(u: Urls, w: Webhook, env: Env) { exists path :: HasPath(u, w.client, path) && path in env.handlers }

  /** `r` is `w`, to be called by the API server with trust in `ca`: under a host, by URL
      there; otherwise through the present service; and as it was, if it has no service. */
  predicate Delivers(r: Webhook, w: Webhook, env: Env, ca: Bytes) {
    && r.name == w.name && r.rules == w.rules && r.client.caBundle == ca
    && match w.client.service
       case None => r.client.service == None && r.client.url == w.client.url
       case Some(s) =>
         s.path.Some? &&
         if env.host == "" then
           r.client.url == w.client.url && r.client.service == Some(Service(env.namespace, env.service, s.path))
         else
           r.client.service == None
           && r.client.url == Some("https://" + env.host + ":" + Decimal(env.port) + s.path.value)
  }

  /** `list` holds, in order, exactly the webhooks of `source` that have a handler; `from`
      says where each of them comes from. */
  predicate DeliveredFrom(u: Urls, source: seq<Webhook>, list: seq<Webhook>, from: seq<nat>, env: Env, ca: Bytes) {
    && |from| == |list|
    && (forall i, j | 0 <= i < j < |from| :: from[i] < from[j])
    && (forall i | 0 <= i < |from| :: from[i] < |source| && Delivers(list[i], source[from[i]], env, ca))
    && (forall j: nat | j < |source| :: j in from <==> Handled(u, source[j], env))
  }

  ghost predicate Delivered(u: Urls, source: seq<Webhook>, list: seq<Webhook>, env: Env, ca: Bytes) {
    exists from :: DeliveredFrom(u, source, list, from, env, ca)
  }

  lemma DeliverOne(u: Urls, source: seq<Webhook>, w: Webhook, list: seq<Webhook>, from: seq<nat>, r: Webhook, env: Env,
    ca: Bytes)
    requires DeliveredFrom(u, source, list, from, env, ca) && Handled(u, w, env) && Delivers(r, w, env, ca)
    ensures DeliveredFrom(u, source + [w], list + [r], from + [|source|], env, ca)
  {
    hide Delivers; hide Handled;
    var more, longer := source + [w], from + [|source|];
    forall j: nat | j < |more| ensures j in longer <==> Handled(u, more[j], env) {
      if j < |source| { assert j in from <==> Handled(u, source[j], env); } else { assert longer[|from|] == j; }
    }
  }

  lemma DeliverNone(u: Urls, source: seq<Webhook>, w: Webhook, list: seq<Webhook>, from: seq<nat>, env: Env, ca: Bytes)
    requires DeliveredFrom(u, source, list, from, env, ca) && !Handled(u, w, env)
    ensures DeliveredFrom(u, source + [w], list, from, env, ca)
  {
    hide Delivers; hide Handled;
    var more := source + [w];
    forall j: nat | j < |more| ensures j in from <==> Handled(u, more[j], env) {
      if j < |source| { assert j in from <==> Handled(u, source[j], env); }
    }
  }

  lemma {:induction false} RenderDelivers(u: Urls, ws: seq<Webhook>, n: nat, env: Env) returns (from: seq<nat>)
    requires n <= |ws| && Renderable(u, ws)
    ensures DeliveredFrom(u, ws[..n], Render(u, ws, n, env), from, env, env.caBundle)
  {
    hide Delivers; hide Served; hide Handled; hide Rendered; hide DeliveredFrom; hide GetPath;
    if n == 0 {
      from := [];
      NothingDelivered(u, env, env.caBundle);
      assert ws[..0] == [];
    } else {
      var w := ws[n - 1];
      assert w in ws && GetPath(u, w.client).Path?;
      from := RenderDelivers(u, ws, n - 1, env);
      RenderedDelivers(u, w, env);
      assert ws[..n] == ws[..n - 1] + [w];
      if Served(u, w, env) {
        DeliverOne(u, ws[..n - 1], w, Render(u, ws, n - 1, env), from, Rendered(w, env), env, env.caBundle);
        from := from + [|ws[..n - 1]|];
        assert Render(u, ws, n, env) == Render(u, ws, n - 1, env) + [Rendered(w, env)];
      } else {
        DeliverNone(u, ws[..n - 1], w, Render(u, ws, n - 1, env), from, env, env.caBundle);
        assert Render(u, ws, n, env) == Render(u, ws, n - 1, env);
      }
    }
  }

  lemma NothingDelivered(u: Urls, env: Env, ca: Bytes)
    ensures DeliveredFrom(u, [], [], [], env, ca)
  {
  }

  lemma RenderedDelivers(u: Urls, w: Webhook, env: Env)
    requires GetPath(u, w.client).Path?
    ensures Delivers(Rendered(w, env), w, env, env.caBundle) && (Served(u, w, env) <==> Handled(u, w, env))
  {
    var path := GetPath(u, w.client).path;
    assert HasPath(u, w.client, path);
  }

  /** The list that everything is rendered from. */
  function Source(c: Config): seq<Webhook> { if c.template.Original? then c.template.webhooks else c.webhooks }

  /** The configuration that a replica wants in place of `c`, unless it gives up. */
  function Rewrite(u: Urls, c: Config, env: Env): Option<Config> {
    if c.template.Garbled? || !Renderable(u, Source(c)) then None
    else Some(c.(template := Original(Source(c)), webhooks := Render(u, Source(c), |Source(c)|, env)))
  }

  /** History does not matter: a second rewrite gives what it would have given alone, and
      the same one again changes nothing. */
  lemma RewriteAgain(u: Urls, c: Config, first: Env, second: Env)
    requires Rewrite(u, c, first).Some?
    ensures Rewrite(u, Rewrite(u, c, first).value, second) == Rewrite(u, c, second)
    ensures Rewrite(u, Rewrite(u, c, first).value, first) == Rewrite(u, c, first)
  {
  }

  // ---- replicas racing ----

  datatype Which = Mutating | Validating
  datatype Pc =
    | Idle
    | HasFirst(env: Env, m: Config)
    | HasBoth(env: Env, m: Config, v: Config)
    | HasSecond(env: Env, v: Config)
  datatype State = State(configs: map<Which, Config>, replicas: seq<Pc>)
  datatype Outcome = Reported | Unreported | Lost

  datatype Action =
    | Touch(which: Which)
    | GetFirst(i: nat, env: Env, reached: bool)
    | GetSecond(i: nat, reached: bool)
    | PutFirst(i: nat, outcome: Outcome)
    | PutSecond(i: nat, outcome: Outcome)
    | Crash(i: nat)

  function Moved(s: State, i: nat, pc: Pc): State
    requires i < |s.replicas|
  {
    s.(replicas := s.replicas[i := pc])
  }

  /** The update of one configuration: nothing if it is as wanted, otherwise a call that is
      accepted only with the version that is there. */
  function Put(s: State, which: Which, have: Config, want: Config, outcome: Outcome): (r: (State, bool))
    ensures r.0.replicas == s.replicas
  {
    if want == have then (s, true)
    else if outcome.Lost? || which !in s.configs || s.configs[which].version != have.version then (s, false)
    else (s.(configs := s.configs[which := want.(version := have.version + 1)]), outcome.Reported?)
  }

  /** One step; an action that cannot be taken changes nothing. Both lists are rendered
      before either update, so a template that cannot be used stops both. */
  function Step(u: Urls, s: State, a: Action): State {
    if a.Touch? then
      if a.which !in s.configs then s
      else s.(configs := s.configs[a.which := s.configs[a.which].(version := s.configs[a.which].version + 1)])
    else if a.i >= |s.replicas| then s
    else
      var pc := s.replicas[a.i];
      match a
      case GetFirst(i, env, reached) =>
        if !pc.Idle? then s
        else if reached && Mutating in s.configs then Moved(s, i, HasFirst(env, s.configs[Mutating])) else s
      case GetSecond(i, reached) =>
        if !pc.HasFirst? then s
        else
          var next := if reached && Validating in s.configs then HasBoth(pc.env, pc.m, s.configs[Validating]) else Idle;
          Moved(s, i, next)
      case PutFirst(i, outcome) =>
        if !pc.HasBoth? then s
        else if Rewrite(u, pc.m, pc.env).None? || Rewrite(u, pc.v, pc.env).None? then Moved(s, i, Idle)
        else
          var (t, fine) := Put(s, Mutating, pc.m, Rewrite(u, pc.m, pc.env).value, outcome);
          Moved(t, i, if fine then HasSecond(pc.env, pc.v) else Idle)
      case PutSecond(i, outcome) =>
        if !pc.HasSecond? || Rewrite(u, pc.v, pc.env).None? then s
        else Moved(Put(s, Validating, pc.v, Rewrite(u, pc.v, pc.env).value, outcome).0, i, Idle)
      case Crash(i) => Moved(s, i, Idle)
  }

  function After(u: Urls, s: State, run: seq<Action>, n: nat): State
    requires n <= |run|
  {
    if n == 0 then s else Step(u, After(u, s, run, n - 1), run[n - 1])
  }

  /** `c` is `start` untouched, or a rendering of its source with the source in the template. */
  ghost predicate Genuine(u: Urls, start: Config, c: Config) {
    || (c.template == start.template && c.webhooks == start.webhooks)
    || (!start.template.Garbled? && c.template == Original(Source(start)) && exists env ::
         RenderedWith(u, Source(start), c.webhooks, env))
  }

  predicate RenderedWith(u: Urls, source: seq<Webhook>, ws: seq<Webhook>, env: Env) {
    ws == Render(u, source, |source|, env)
  }

  /** A configuration that a replica has read: what is there, or of an older version. */
  ghost predicate SnapshotOk(u: Urls, start: State, s: State, which: Which, c: Config) {
    && which in s.configs && which in start.configs && Genuine(u, start.configs[which], c)
    && c.version <= s.configs[which].version && (c.version == s.configs[which].version ==> c == s.configs[which])
  }

  ghost predicate ReplicaOk(u: Urls, start: State, s: State, pc: Pc) {
    match pc
    case Idle => true
    case HasFirst(env, m) => SnapshotOk(u, start, s, Mutating, m)
    case HasBoth(env, m, v) => SnapshotOk(u, start, s, Mutating, m) && SnapshotOk(u, start, s, Validating, v)
    case HasSecond(env, v) => SnapshotOk(u, start, s, Validating, v) && Rewrite(u, v, env).Some?
  }

  ghost predicate ConfigOk(u: Urls, start: State, s: State, which: Which) {
    (which in s.configs <==> which in start.configs)
      && (which in s.configs ==> Genuine(u, start.configs[which], s.configs[which]))
  }

  ghost predicate Ok(u: Urls, start: State, s: State) {
    && ConfigOk(u, start, s, Mutating) && ConfigOk(u, start, s, Validating)
    && forall i | 0 <= i < |s.replicas| :: ReplicaOk(u, start, s, s.replicas[i])
  }

  /** What steps may do to a configuration: nothing, or give it a higher version. */
  predicate Newer(s: State, t: State, which: Which) {
    (which in t.configs <==> which in s.configs)
    && (which in s.configs ==>
         t.configs[which] == s.configs[which] || t.configs[which].version > s.configs[which].version)
  }

  lemma RewriteIsGenuine(u: Urls, start: Config, c: Config, env: Env)
    requires Genuine(u, start, c) && Rewrite(u, c, env).Some?
    ensures forall n :: Genuine(u, start, Rewrite(u, c, env).value.(version := n))
  {
    assert Source(c) == Source(start);
    assert RenderedWith(u, Source(start), Rewrite(u, c, env).value.webhooks, env);
  }

  lemma PutIsGenuine(u: Urls, start: State, s: State, which: Which, c: Config, env: Env, outcome: Outcome)
    requires ConfigOk(u, start, s, which) && SnapshotOk(u, start, s, which, c) && Rewrite(u, c, env).Some?
    ensures var t := Put(s, which, c, Rewrite(u, c, env).value, outcome).0;
      && ConfigOk(u, start, t, which) && Newer(s, t, which)
      && forall w | w != which :: Newer(s, t, w) && (ConfigOk(u, start, s, w) ==> ConfigOk(u, start, t, w))
  {
    RewriteIsGenuine(u, start.configs[which], c, env);
  }

  lemma StepConfigs(u: Urls, start: State, s: State, a: Action)
    requires Ok(u, start, s)
    ensures var t := Step(u, s, a); ConfigOk(u, start, t, Mutating) && ConfigOk(u, start, t, Validating)
    ensures var t := Step(u, s, a); Newer(s, t, Mutating) && Newer(s, t, Validating) && |t.replicas| == |s.replicas|
  {
    if !a.Touch? && a.i < |s.replicas| {
      var pc := s.replicas[a.i];
      assert ReplicaOk(u, start, s, pc);
      if a.PutFirst? && pc.HasBoth? && Rewrite(u, pc.m, pc.env).Some? {
        PutIsGenuine(u, start, s, Mutating, pc.m, pc.env, a.outcome);
      }
      if a.PutSecond? && pc.HasSecond? { PutIsGenuine(u, start, s, Validating, pc.v, pc.env, a.outcome); }
    }
  }

  lemma OtherReplicaOk(u: Urls, start: State, s: State, t: State, pc: Pc)
    requires ReplicaOk(u, start, s, pc) && Newer(s, t, Mutating) && Newer(s, t, Validating)
    ensures ReplicaOk(u, start, t, pc)
  {
    hide Genuine; hide Rewrite;
  }

  lemma OwnReplicaOk(u: Urls, start: State, s: State, a: Action)
    requires Ok(u, start, s) && !a.Touch? && a.i < |s.replicas|
    ensures |Step(u, s, a).replicas| == |s.replicas| && ReplicaOk(u, start, Step(u, s, a), Step(u, s, a).replicas[a.i])
  {
    hide Genuine; hide Rewrite;
    assert ReplicaOk(u, start, s, s.replicas[a.i]);
    StepConfigs(u, start, s, a);
    OtherReplicaOk(u, start, s, Step(u, s, a), s.replicas[a.i]);
  }

  lemma StepKeepsOk(u: Urls, start: State, s: State, a: Action)
    requires Ok(u, start, s)
    ensures Ok(u, start, Step(u, s, a)) && |Step(u, s, a).replicas| == |s.replicas|
  {
    var t := Step(u, s, a);
    StepConfigs(u, start, s, a);
    forall i | 0 <= i < |t.replicas| ensures ReplicaOk(u, start, t, t.replicas[i]) {
      if !a.Touch? && a.i == i { OwnReplicaOk(u, start, s, a); } else { OtherReplicaOk(u, start, s, t, s.replicas[i]); }
    }
  }

  lemma {:induction false} RunKeepsOk(u: Urls, s: State, run: seq<Action>, n: nat)
    requires n <= |run| && forall i | 0 <= i < |s.replicas| :: s.replicas[i].Idle?
    ensures Ok(u, s, After(u, s, run, n))
  {
    hide Step;
    if n > 0 {
      RunKeepsOk(u, s, run, n - 1);
      StepKeepsOk(u, s, After(u, s, run, n - 1), run[n - 1]);
    }
  }

  lemma StepKeepsTemplate(u: Urls, start: State, s: State, a: Action, which: Which)
    requires Ok(u, start, s) && which in s.configs && s.configs[which].template != NoTemplate
    ensures which in Step(u, s, a).configs && Step(u, s, a).configs[which].template == s.configs[which].template
  {
    if !a.Touch? && a.i < |s.replicas| {
      var pc := s.replicas[a.i];
      assert ReplicaOk(u, start, s, pc);
    }
  }

  /** Integrity of the template: however replicas interleave, the source of each
      configuration is the list it had at the start, no rewritten list is ever taken for
      it, and once the annotation is there it never changes. */
  lemma {:induction false} TemplateIntegrity(u: Urls, s: State, run: seq<Action>, m: nat, n: nat, which: Which)
    requires m <= n <= |run| && which in s.configs && forall i | 0 <= i < |s.replicas| :: s.replicas[i].Idle?
    ensures which in After(u, s, run, m).configs && which in After(u, s, run, n).configs
    ensures Source(After(u, s, run, n).configs[which]) == Source(s.configs[which])
    ensures Genuine(u, s.configs[which], After(u, s, run, n).configs[which])
    ensures After(u, s, run, m).configs[which].template != NoTemplate ==>
      After(u, s, run, n).configs[which].template == After(u, s, run, m).configs[which].template
    decreases n
  {
    hide Step;
    RunKeepsOk(u, s, run, n);
    RunKeepsOk(u, s, run, m);
    if m < n {
      TemplateIntegrity(u, s, run, m, n - 1, which);
      RunKeepsOk(u, s, run, n - 1);
      if After(u, s, run, m).configs[which].template != NoTemplate {
        StepKeepsTemplate(u, s, After(u, s, run, n - 1), run[n - 1], which);
      }
    }
  }

  // ---- replicas that use the same parameters ----

  /** What every rewrite comes to: the list is what the source delivers under the parameters. */
  lemma RewriteDelivers(u: Urls, c: Config, env: Env)
    requires Rewrite(u, c, env).Some?
    ensures var next := Rewrite(u, c, env).value;
      next.template == Original(Source(c)) && Delivered(u, Source(c), next.webhooks, env, env.caBundle)
  {
    var from := RenderDelivers(u, Source(c), |Source(c)|, env);
    assert Source(c)[..|Source(c)|] == Source(c);
  }

  /** Both configurations deliver what their sources hold, with trust in `ca`. */
  ghost predicate BothDeliver(u: Urls, s: State, env: Env, ca: Bytes) {
    && {Mutating, Validating} <= s.configs.Keys
    && forall w | w in s.configs :: Delivered(u, Source(s.configs[w]), s.configs[w].webhooks, env, ca)
  }

  lemma HandledUnder(u: Urls, w: Webhook, env: Env, other: Env)
    requires other.handlers == env.handlers
    ensures Handled(u, w, other) <==> Handled(u, w, env)
  {
    if Handled(u, w, env) {
      var path :| HasPath(u, w.client, path) && path in env.handlers;
      assert path in other.handlers;
    }
    if Handled(u, w, other) {
      var path :| HasPath(u, w.client, path) && path in other.handlers;
      assert path in env.handlers;
    }
  }

  lemma DeliversUnder(r: Webhook, w: Webhook, env: Env, other: Env, ca: Bytes)
    requires Delivers(r, w, env, ca) && other == env.(caBundle := other.caBundle)
    ensures Delivers(r, w, other, ca)
  {
  }

  /** The parameters' own CA plays no part in that. */
  lemma DeliveredUnder(u: Urls, source: seq<Webhook>, list: seq<Webhook>, env: Env, other: Env, ca: Bytes)
    requires Delivered(u, source, list, env, ca) && other == env.(caBundle := other.caBundle)
    ensures Delivered(u, source, list, other, ca)
  {
    hide Handled; hide Delivers;
    var from :| DeliveredFrom(u, source, list, from, env, ca);
    forall j: nat | j < |source| ensures j in from <==> Handled(u, source[j], other) {
      HandledUnder(u, source[j], env, other);
    }
    forall i | 0 <= i < |from| ensures Delivers(list[i], source[from[i]], other, ca) {
      DeliversUnder(list[i], source[from[i]], env, other, ca);
    }
    assert DeliveredFrom(u, source, list, from, other, ca);
  }

  lemma BothDeliverUnder(u: Urls, s: State, env: Env, other: Env, ca: Bytes)
    requires BothDeliver(u, s, env, ca) && other == env.(caBundle := other.caBundle)
    ensures BothDeliver(u, s, other, ca)
  {
    hide Delivered;
    forall w | w in s.configs ensures Delivered(u, Source(s.configs[w]), s.configs[w].webhooks, other, ca) {
      DeliveredUnder(u, Source(s.configs[w]), s.configs[w].webhooks, env, other, ca);
    }
  }

  lemma CarriedDelivers(u: Urls, s: State, env: Env)
    requires BothCarried(u, s, env)
    ensures BothDeliver(u, s, env, env.caBundle)
  {
    hide Delivered; hide Rewrite;
    forall w | w in s.configs ensures Delivered(u, Source(s.configs[w]), s.configs[w].webhooks, env, env.caBundle) {
      assert w == Mutating || w == Validating;
      RewriteDelivers(u, s.configs[w], env);
    }
  }

  /** The configuration is what a replica with these parameters wants. */
  predicate Fits(u: Urls, c: Config, env: Env) { Rewrite(u, c, env) == Some(c) }

  predicate Carried(u: Urls, s: State, which: Which, env: Env) { which in s.configs && Fits(u, s.configs[which], env) }

  predicate BothCarried(u: Urls, s: State, env: Env) { Carried(u, s, Mutating, env) && Carried(u, s, Validating, env) }

  /** A configuration that needed no update when it was read needs none now. */
  predicate StillFits(u: Urls, s: State, which: Which, c: Config, env: Env) {
    Fits(u, c, env) ==> Carried(u, s, which, env)
  }

  predicate InStep(u: Urls, s: State, pc: Pc, env: Env) {
    (pc.Idle? || pc.env == env) &&
    match pc
    case Idle => true
    case HasFirst(_, m) => StillFits(u, s, Mutating, m, env)
    case HasBoth(_, m, v) => StillFits(u, s, Mutating, m, env) && StillFits(u, s, Validating, v, env)
    case HasSecond(_, v) => Carried(u, s, Mutating, env) && StillFits(u, s, Validating, v, env)
  }

  /** Whoever is under way uses these parameters. */
  ghost predicate Uniform(u: Urls, start: State, s: State, env: Env) {
    Ok(u, start, s) && forall i | 0 <= i < |s.replicas| :: InStep(u, s, s.replicas[i], env)
  }

  predicate Uses(a: Action, env: Env) { a.GetFirst? ==> a.env == env }

  /** The same but for the version, which other clients raise. */
  predicate Alike(c: Config, d: Config) { c.template == d.template && c.webhooks == d.webhooks }

  /** What may become of a configuration: nothing, or a new version, or, if it does not carry
      these parameters, one that does. */
  predicate Follows(u: Urls, s: State, t: State, which: Which, env: Env, touched: bool) {
    && (which in t.configs <==> which in s.configs)
    && (which in s.configs ==>
      || t.configs[which] == s.configs[which]
      || (touched && Alike(s.configs[which], t.configs[which]))
      || (!Carried(u, s, which, env) && Carried(u, t, which, env)))
  }

  predicate BothFollow(u: Urls, s: State, t: State, env: Env, touched: bool) {
    Follows(u, s, t, Mutating, env, touched) && Follows(u, s, t, Validating, env, touched)
  }

  lemma AlikeFits(u: Urls, c: Config, d: Config, env: Env)
    requires Alike(c, d)
    ensures Fits(u, c, env) <==> Fits(u, d, env)
  {
  }

  lemma FollowsKeepsCarried(u: Urls, s: State, t: State, which: Which, env: Env, touched: bool)
    requires Follows(u, s, t, which, env, touched)
    ensures Carried(u, s, which, env) ==> Carried(u, t, which, env)
  {
    hide Fits;
    if which in s.configs && Alike(s.configs[which], t.configs[which]) {
      AlikeFits(u, s.configs[which], t.configs[which], env);
    }
  }

  lemma FollowsThen(u: Urls, s: State, t: State, r: State, which: Which, env: Env, first: bool, second: bool)
    requires Follows(u, s, t, which, env, first) && Follows(u, t, r, which, env, second) && (first ==> second)
    ensures Follows(u, s, r, which, env, second)
  {
    hide Fits;
    FollowsKeepsCarried(u, s, t, which, env, first);
    FollowsKeepsCarried(u, t, r, which, env, second);
    if which in s.configs && Alike(s.configs[which], t.configs[which]) {
      AlikeFits(u, s.configs[which], t.configs[which], env);
    }
  }

  lemma FollowThen(u: Urls, s: State, t: State, r: State, env: Env, first: bool, second: bool)
    requires BothFollow(u, s, t, env, first) && BothFollow(u, t, r, env, second) && (first ==> second)
    ensures BothFollow(u, s, r, env, second)
  {
    hide Follows;
    FollowsThen(u, s, t, r, Mutating, env, first, second);
    FollowsThen(u, s, t, r, Validating, env, first, second);
  }

  lemma RewriteFits(u: Urls, c: Config, env: Env, n: nat)
    requires Rewrite(u, c, env).Some?
    ensures Fits(u, Rewrite(u, c, env).value.(version := n), env)
  {
  }

  /** An update of what was read under these parameters: it is done if nothing was to be
      done, and it is accepted only where the configuration did not carry them. */
  lemma PutFollows(u: Urls, start: State, s: State, which: Which, c: Config, env: Env, outcome: Outcome)
    requires SnapshotOk(u, start, s, which, c) && StillFits(u, s, which, c, env) && Rewrite(u, c, env).Some?
    ensures var (t, fine) := Put(s, which, c, Rewrite(u, c, env).value, outcome);
      BothFollow(u, s, t, env, false) && (fine ==> Carried(u, t, which, env))
  {
    hide Rewrite; hide Genuine;
    RewriteFits(u, c, env, c.version + 1);
  }

  lemma StepFollows(u: Urls, start: State, s: State, a: Action, env: Env)
    requires Uniform(u, start, s, env) && Uses(a, env)
    ensures BothFollow(u, s, Step(u, s, a), env, a.Touch?)
    ensures a.PutFirst? && a.i < |s.replicas| && Step(u, s, a).replicas[a.i].HasSecond? ==>
      Carried(u, Step(u, s, a), Mutating, env)
  {
    hide Rewrite; hide Genuine; hide Fits;
    if !a.Touch? && a.i < |s.replicas| {
      var pc := s.replicas[a.i];
      assert ReplicaOk(u, start, s, pc) && InStep(u, s, pc, env);
      if a.PutFirst? && pc.HasBoth? && Rewrite(u, pc.m, pc.env).Some? {
        PutFollows(u, start, s, Mutating, pc.m, env, a.outcome);
      }
      if a.PutSecond? && pc.HasSecond? { PutFollows(u, start, s, Validating, pc.v, env, a.outcome); }
    }
  }

  lemma OtherInStep(u: Urls, s: State, t: State, pc: Pc, env: Env, touched: bool)
    requires InStep(u, s, pc, env) && BothFollow(u, s, t, env, touched)
    ensures InStep(u, t, pc, env)
  {
    hide Follows; hide Carried; hide Fits;
    FollowsKeepsCarried(u, s, t, Mutating, env, touched);
    FollowsKeepsCarried(u, s, t, Validating, env, touched);
  }

  lemma OwnInStep(u: Urls, start: State, s: State, a: Action, env: Env)
    requires Uniform(u, start, s, env) && Uses(a, env) && !a.Touch? && a.i < |s.replicas|
    ensures var t := Step(u, s, a); |t.replicas| == |s.replicas| && InStep(u, t, t.replicas[a.i], env)
  {
    hide Rewrite; hide Genuine; hide Fits; hide Follows; hide ReplicaOk;
    assert InStep(u, s, s.replicas[a.i], env);
    StepFollows(u, start, s, a, env);
    OtherInStep(u, s, Step(u, s, a), s.replicas[a.i], env, false);
  }

  /** One step of replicas with the same parameters. */
  lemma StepKeepsUniform(u: Urls, start: State, s: State, a: Action, env: Env)
    requires Uniform(u, start, s, env) && Uses(a, env)
    ensures Uniform(u, start, Step(u, s, a), env) && BothFollow(u, s, Step(u, s, a), env, a.Touch?)
  {
    hide Ok; hide InStep; hide Follows;
    var t := Step(u, s, a);
    StepKeepsOk(u, start, s, a);
    StepFollows(u, start, s, a, env);
    forall i | 0 <= i < |t.replicas| ensures InStep(u, t, t.replicas[i], env) {
      if !a.Touch? && a.i == i { OwnInStep(u, start, s, a, env); } else { StepKeepsOther(u, s, a, i); }
      if a.Touch? || a.i != i { OtherInStep(u, s, t, s.replicas[i], env, a.Touch?); }
    }
  }

  lemma StepKeepsOther(u: Urls, s: State, a: Action, i: nat)
    requires i < |s.replicas| && (a.Touch? || a.i != i)
    ensures |Step(u, s, a).replicas| == |s.replicas| && Step(u, s, a).replicas[i] == s.replicas[i]
  {
    hide Rewrite;
  }

  predicate AllUse(run: seq<Action>, from: nat, env: Env) { forall k | from <= k < |run| :: Uses(run[k], env) }

  /** Over any run of such replicas, whatever came before it. */
  lemma {:induction false} RunKeepsUniform(u: Urls, s: State, run: seq<Action>, m: nat, n: nat, env: Env)
    requires m <= n <= |run| && Uniform(u, s, After(u, s, run, m), env) && AllUse(run, m, env)
    ensures Uniform(u, s, After(u, s, run, n), env)
    ensures BothFollow(u, After(u, s, run, m), After(u, s, run, n), env, true)
    decreases n
  {
    hide Step; hide Uniform; hide Follows;
    if m < n {
      RunKeepsUniform(u, s, run, m, n - 1, env);
      var before := After(u, s, run, n - 1);
      StepKeepsUniform(u, s, before, run[n - 1], env);
      FollowsLoosely(u, before, After(u, s, run, n), env, run[n - 1].Touch?);
      FollowThen(u, After(u, s, run, m), before, After(u, s, run, n), env, true, true);
    } else {
      FollowsItself(u, After(u, s, run, m), env);
    }
  }

  lemma FollowsItself(u: Urls, s: State, env: Env)
    ensures BothFollow(u, s, s, env, true) && BothFollow(u, s, s, env, false)
  {
  }

  lemma FollowsLoosely(u: Urls, s: State, t: State, env: Env, touched: bool)
    requires BothFollow(u, s, t, env, touched)
    ensures BothFollow(u, s, t, env, true)
  {
  }

  lemma IdleIsUniform(u: Urls, s: State, env: Env)
    requires forall i | 0 <= i < |s.replicas| :: s.replicas[i].Idle?
    ensures Uniform(u, s, s, env)
  {
  }

  /** The second update of a replica goes through, or there is nothing to update. */
  predicate Finishes(u: Urls, s: State, a: Action) {
    && a.PutSecond? && a.i < |s.replicas| && s.replicas[a.i].HasSecond?
    && var pc := s.replicas[a.i];
    Rewrite(u, pc.v, pc.env).Some? && Put(s, Validating, pc.v, Rewrite(u, pc.v, pc.env).value, a.outcome).1
  }

  lemma FinishingCarries(u: Urls, start: State, s: State, a: Action, env: Env)
    requires Uniform(u, start, s, env) && Finishes(u, s, a)
    ensures BothCarried(u, Step(u, s, a), env)
  {
    hide Rewrite; hide Genuine; hide Fits;
    var pc := s.replicas[a.i];
    assert ReplicaOk(u, start, s, pc) && InStep(u, s, pc, env);
    PutFollows(u, start, s, Validating, pc.v, env, a.outcome);
    FollowsKeepsCarried(u, s, Step(u, s, a), Mutating, env, false);
  }

  /** Racing replicas converge: from the moment on from which all replicas that are under way
      use the same parameters, whatever they and others did before, once one of them has
      finished, both configurations carry these parameters in every later state, and no step
      but one of another client changes them any more. */
  lemma RacingReplicasConverge(u: Urls, s: State, run: seq<Action>, m: nat, k: nat, n: nat, env: Env)
    requires m <= k < n <= |run| && Uniform(u, s, After(u, s, run, m), env) && AllUse(run, m, env)
    requires Finishes(u, After(u, s, run, k), run[k])
    ensures BothCarried(u, After(u, s, run, n), env) && BothDeliver(u, After(u, s, run, n), env, env.caBundle)
    ensures n < |run| && !run[n].Touch? ==> After(u, s, run, n + 1).configs == After(u, s, run, n).configs
  {
    hide Step; hide Uniform; hide Finishes; hide Fits; hide Delivered;
    RunKeepsUniform(u, s, run, m, k, env);
    FinishingCarries(u, s, After(u, s, run, k), run[k], env);
    RunKeepsUniform(u, s, run, m, k + 1, env);
    RunKeepsUniform(u, s, run, k + 1, n, env);
    FollowsKeepsCarried(u, After(u, s, run, k + 1), After(u, s, run, n), Mutating, env, true);
    FollowsKeepsCarried(u, After(u, s, run, k + 1), After(u, s, run, n), Validating, env, true);
    CarriedDelivers(u, After(u, s, run, n), env);
    if n < |run| && !run[n].Touch? {
      RunKeepsUniform(u, s, run, m, n, env);
      StepKeepsUniform(u, s, After(u, s, run, n), run[n], env);
      CarriedIsFinal(u, After(u, s, run, n), After(u, s, run, n + 1), env, false);
    }
  }

  /** The configurations have not been updated, but may have been touched. */
  predicate Unwritten(s: State, t: State, touched: bool) {
    && t.configs.Keys == s.configs.Keys
    && forall w | w in s.configs :: t.configs[w] == s.configs[w] || (touched && Alike(s.configs[w], t.configs[w]))
  }

  lemma UnwrittenItself(s: State)
    ensures Unwritten(s, s, false) && Unwritten(s, s, true)
  {
  }

  lemma UnwrittenThen(s: State, t: State, r: State, first: bool, second: bool)
    requires Unwritten(s, t, first) && Unwritten(t, r, second) && (first ==> second)
    ensures Unwritten(s, r, second)
  {
  }

  lemma CarriedIsFinal(u: Urls, s: State, t: State, env: Env, touched: bool)
    requires BothCarried(u, s, env) && BothFollow(u, s, t, env, touched)
    ensures BothCarried(u, t, env) && Unwritten(s, t, touched) && (!touched ==> t.configs == s.configs)
  {
    hide Fits;
    FollowsKeepsCarried(u, s, t, Mutating, env, touched);
    FollowsKeepsCarried(u, s, t, Validating, env, touched);
    forall w: Which ensures w in t.configs <==> w in s.configs { assert w == Mutating || w == Validating; }
    forall w | w in s.configs
      ensures t.configs[w] == s.configs[w] || (touched && Alike(s.configs[w], t.configs[w]))
    {
      assert w == Mutating || w == Validating;
    }
  }

  /** Whatever was done before, by whom and with what success: a configuration that carries
      some parameters is their rendering of the list it had at the start. */
  lemma CarriedIsRendering(u: Urls, s: State, run: seq<Action>, n: nat, which: Which, env: Env)
    requires n <= |run| && forall i | 0 <= i < |s.replicas| :: s.replicas[i].Idle?
    requires Carried(u, After(u, s, run, n), which, env)
    ensures which in s.configs
    ensures var c, source := After(u, s, run, n).configs[which], Source(s.configs[which]);
      c.template == Original(source) && c.webhooks == Render(u, source, |source|, env)
        && Delivered(u, source, c.webhooks, env, env.caBundle)
  {
    hide Step; hide Delivered;
    RunKeepsOk(u, s, run, n);
    RewriteDelivers(u, After(u, s, run, n).configs[which], env);
  }
}
