/** Ensure, call by call: both configurations are read, their templates parsed, their
    webhooks edited in place through the template's array, and each is updated if it
    changed. Between calls other replicas take any steps. */
module Configuration {
  import opened FileSystem
  import opened Wrappers
  import opened PodWebhook
  import opened WebhookConfig

  /** `next` is what a replica makes of `c`: the rewrite, under a new version unless there
      was nothing to rewrite. */
  predicate Applied(u: Urls, c: Config, next: Config, env: Env) {
    var want := Rewrite(u, c, env);
    want.Some? && next == if want.value == c then c else want.value.(version := c.version + 1)
  }

  /** After any calls, with whatever CAs, handlers and hosts, however far each of them got, a
      call that succeeds leaves both configurations one rendering of the first list, with
      its own parameters. */
  lemma {:induction false} HistoryIndependence(u: Urls, ss: seq<State>, envs: seq<Env>, which: Which)
    requires History(u, ss, envs) && which in ss[0].configs
    ensures which in ss[|envs|].configs
    ensures var last, source := ss[|envs|].configs[which], Source(ss[0].configs[which]);
      last.template == Original(source) && last.webhooks == Render(u, source, |source|, envs[|envs| - 1])
        && Delivered(u, source, last.webhooks, envs[|envs| - 1], envs[|envs| - 1].caBundle)
  {
    hide Rewrite; hide Delivered;
    SourcesStay(u, ss, envs, |envs| - 1, which);
    AppliedIsRendering(u, ss[|envs| - 1].configs[which], ss[|envs|].configs[which], envs[|envs| - 1]);
  }

  /** Calls one after the other, the last of which succeeds. */
  ghost predicate History(u: Urls, ss: seq<State>, envs: seq<Env>) {
    && |envs| > 0 && |ss| == |envs| + 1
    && (forall k | 0 <= k < |envs| :: Partly(u, ss[k], ss[k + 1], envs[k]))
    && Wholly(u, ss[|envs| - 1], ss[|envs|], envs[|envs| - 1])
  }

  lemma {:induction false} SourcesStay(u: Urls, ss: seq<State>, envs: seq<Env>, n: nat, which: Which)
    requires History(u, ss, envs) && n <= |envs| && which in ss[0].configs
    ensures which in ss[n].configs && Source(ss[n].configs[which]) == Source(ss[0].configs[which])
  {
    hide Rewrite;
    if n > 0 {
      SourcesStay(u, ss, envs, n - 1, which);
      assert Partly(u, ss[n - 1], ss[n], envs[n - 1]);
      if ss[n].configs[which] != ss[n - 1].configs[which] {
        AppliedIsRendering(u, ss[n - 1].configs[which], ss[n].configs[which], envs[n - 1]);
      }
    }
  }

  lemma AppliedIsRendering(u: Urls, c: Config, next: Config, env: Env)
    requires Applied(u, c, next, env)
    ensures Source(next) == Source(c) && next.template == Original(Source(c))
      && next.webhooks == Render(u, Source(c), |Source(c)|, env)
      && Delivered(u, Source(c), next.webhooks, env, env.caBundle)
  {
    hide Delivered;
    RewriteDelivers(u, c, env);
  }

  /** Repeating a call writes nothing. */
  lemma RepeatWritesNothing(u: Urls, c: Config, once: Config, twice: Config, env: Env)
    requires Applied(u, c, once, env) && Applied(u, once, twice, env)
    ensures twice == once
  {
  }

  /** Runs that stopped between their two updates, or before, whatever they were for, leave
      no trace after the next success: the configurations end as without them. */
  lemma StoppedRunIsRepaired(u: Urls, ss: seq<State>, envs: seq<Env>, alone: State, which: Which)
    requires History(u, ss, envs) && Wholly(u, ss[0], alone, envs[|envs| - 1]) && which in ss[0].configs
    ensures which in ss[|envs|].configs && which in alone.configs
    ensures Alike(ss[|envs|].configs[which], alone.configs[which])
  {
    hide Rewrite;
    HistoryIndependence(u, ss, envs, which);
    AppliedIsRendering(u, ss[0].configs[which], alone.configs[which], envs[|envs| - 1]);
  }

  /** The API server. The ghost flags say what has happened since they were last false. */
  class Cluster {
    const urls: Urls
    ghost const start: State
    var state: State
    /** The parameters that all replicas are expected to use, and whether one has used others. */
    ghost var env: Env
    ghost var mixed: bool
    /** Whether another client changed a configuration. */
    ghost var touched: bool
    /** Whether anybody but the replica that looks changed a configuration. */
    ghost var disturbed: bool
    /** Whether a call of the replica that looks failed of itself. */
    ghost var faulted: bool

    constructor (urls: Urls, state: State, ghost env: Env)
      requires forall i | 0 <= i < |state.replicas| :: state.replicas[i].Idle?
      ensures Valid() && this.urls == urls && this.state == state && start == state && this.env == env
      ensures !mixed && !touched && !disturbed && !faulted
    {
      this.urls, this.state, start, this.env := urls, state, state, env;
      mixed, touched, disturbed, faulted := false, false, false, false;
      new;
      IdleIsUniform(urls, state, env);
    }

    ghost predicate Valid()
      reads this
    {
      Ok(urls, start, state) && (!mixed ==> Uniform(urls, start, state, env))
    }

    /** What has become of both configurations since state `s`. */
    ghost predicate Since(s: State)
      reads this
    {
      !mixed ==> BothFollow(urls, s, state, env, touched)
    }

    method Take(a: Action)
      requires Valid()
      modifies this`state, this`mixed, this`touched
      ensures Valid() && state == Step(urls, old(state), a) && |state.replicas| == |old(state).replicas|
      ensures mixed == (old(mixed) || !Uses(a, env)) && touched == (old(touched) || a.Touch?) && Since(old(state))
    {
      hide Ok; hide Uniform; hide Step; hide Follows;
      StepKeepsOk(urls, start, state, a);
      if !mixed && Uses(a, env) {
        StepKeepsUniform(urls, start, state, a, env);
        if touched { FollowsLoosely(urls, state, Step(urls, state, a), env, a.Touch?); }
      }
      mixed, touched := mixed || !Uses(a, env), touched || a.Touch?;
      state := Step(urls, state, a);
    }

    method SomeAction() returns (a: Action) {
      a := *;
    }

    method Others(me: nat)
      requires Valid() && me < |state.replicas|
      modifies this`state, this`mixed, this`touched, this`disturbed
      ensures Valid() && |state.replicas| == |old(state).replicas| && state.replicas[me] == old(state).replicas[me]
      ensures Since(old(state)) && (!disturbed ==> state.configs == old(state).configs)
      ensures Raised(old(mixed), old(touched), old(disturbed), old(faulted))
    {
      hide Ok; hide Uniform; hide Follows;
      FollowsItself(urls, state, env);
      var steps: int := *;
      for k := 0 to if steps > 0 then steps else 0
        invariant Valid() && |state.replicas| == |old(state).replicas| && state.replicas[me] == old(state).replicas[me]
        invariant Since(old(state)) && (!disturbed ==> state.configs == old(state).configs)
        invariant Raised(old(mixed), old(touched), old(disturbed), old(faulted))
      {
        var a := SomeAction();
        if a.Touch? || a.i != me {
          ghost var before, was := state, touched;
          Take(a);
          StepKeepsOther(urls, before, a, me);
          if !mixed { FollowThen(urls, old(state), before, state, env, was, touched); }
          disturbed := disturbed || state.configs != before.configs;
        }
      }
    }

    /** Flags are only ever raised. */
    ghost predicate Raised(wasMixed: bool, wasTouched: bool, wasDisturbed: bool, wasFaulted: bool)
      reads this
    {
      (wasMixed ==> mixed) && (wasTouched ==> touched) && (wasDisturbed ==> disturbed) && (wasFaulted ==> faulted)
    }

    /** What comes of an update; it is a fault if that is not what the server says. */
    method AnyOutcome() returns (outcome: Outcome)
      modifies this`faulted
      ensures faulted == (old(faulted) || !outcome.Reported?)
    {
      outcome := *;
      faulted := faulted || !outcome.Reported?;
    }

    method Fails() returns (failed: bool)
      modifies this`faulted
      ensures faulted == (old(faulted) || failed)
    {
      failed := *;
      faulted := faulted || failed;
    }
  }

  /** What holds since an earlier state, carried on. */
  lemma SinceThen(api: Cluster, s: State, t: State, was: bool)
    requires !api.mixed ==> BothFollow(api.urls, s, t, api.env, was)
    requires api.Since(t) && (was ==> api.touched)
    ensures api.Since(s)
  {
    hide Follows;
    if !api.mixed { FollowThen(api.urls, s, t, api.state, api.env, was, api.touched); }
  }

  lemma SinceNow(api: Cluster)
    ensures api.Since(api.state)
  {
  }

  /** A configuration in memory; the array is what edits through pointers reach. */
  class ConfigObject {
    var version: nat
    var template: Template
    var webhooks: array<Webhook>

    constructor (c: Config)
      ensures Value() == c && fresh(webhooks)
    {
      version, template := c.version, c.template;
      webhooks := new Webhook[|c.webhooks|](i requires 0 <= i < |c.webhooks| => c.webhooks[i]);
    }

    function Value(): Config
      reads this, webhooks
    {
      Config(version, template, webhooks[..])
    }

    /** The template's webhooks. Where there is no template yet, the present list is written
        into it and the configuration's own array is handed out. */
    method ParseTemplate() returns (ok: bool, ws: array<Webhook>)
      modifies this`template
      ensures ok <==> !old(template).Garbled?
      ensures ok ==> ws[..] == Source(old(Value())) && template == Original(ws[..])
      ensures if old(template).NoTemplate? then ws == webhooks else fresh(ws)
    {
      match template {
        case Original(list) =>
          ws := new Webhook[|list|](i requires 0 <= i < |list| => list[i]);
          assert ws[..] == list;
          ok := true;
        case Garbled =>
          ws := new Webhook[0](i requires 0 <= i < 0 => Webhook("", ClientConfig(None, None, []), ""));
          ok := false;
        case NoTemplate =>
          template := Original(webhooks[..]);
          ws := webhooks;
          ok := true;
      }
    }

    method SetWebhooks(list: seq<Webhook>)
      modifies this`webhooks
      ensures fresh(webhooks) && webhooks[..] == list
    {
      webhooks := new Webhook[|list|](i requires 0 <= i < |list| => list[i]);
    }
  }

  method ConvertClientConfig(ws: array<Webhook>, i: nat, env: Env)
    requires i < ws.Length && ws[i].client.service.Some? && ws[i].client.service.value.path.Some?
    modifies ws
    ensures ws[i] == old(ws[i]).(client := ws[i].client)
    ensures var given := old(ws[i]).client;
      var url := "https://" + env.host + ":" + Decimal(env.port) + given.service.value.path.value;
      ws[i].client == given.(url := Some(url), service := None)
    ensures forall j | 0 <= j < ws.Length && j != i :: ws[j] == old(ws[j])
  {
    var client := ws[i].client;
    ws[i] := ws[i].(client := client.(url := Some(UrlFor(env, client.service.value.path.value)), service := None));
  }

  /** One webhook of the template, edited in place; a webhook that is not served keeps the
      edit but is left out. */
  method EditInPlace(u: Urls, ws: array<Webhook>, i: nat, env: Env) returns (path: PathResult, served: bool)
    requires i < ws.Length
    modifies ws
    ensures path == GetPath(u, old(ws[i]).client)
    ensures served <==> Served(u, old(ws[i]), env)
    ensures served ==> ws[i] == Rendered(old(ws[i]), env)
    ensures path.Path? ==> (served <==> Handled(u, old(ws[i]), env))
    ensures served ==> Delivers(ws[i], old(ws[i]), env, env.caBundle)
    ensures forall j | 0 <= j < ws.Length && j != i :: ws[j] == old(ws[j])
  {
    if GetPath(u, ws[i].client).Path? { RenderedDelivers(u, ws[i], env); }
    served := false;
    ws[i] := ws[i].(client := ws[i].client.(caBundle := env.caBundle));
    path := GetPath(u, ws[i].client);
    if !path.Path? { return; }
    if path.path !in env.handlers { return; }
    if ws[i].client.service.Some? {
      var service := ws[i].client.service.value;
      service := service.(namespace := env.namespace, name := env.service);
      ws[i] := ws[i].(client := ws[i].client.(service := Some(service)));
    }
    if env.host != "" && ws[i].client.service.Some? {
      ConvertClientConfig(ws, i, env);
    }
    served := true;
  }

  /** How rendering ends: well, with an error, or with a dereference of a path that is not
      there, which stops the program. */
  datatype Rendering = Complete | Erroneous | Stopped

  /** The first webhook without a path decides. */
  ghost predicate EndsAs(u: Urls, ws: seq<Webhook>, end: Rendering) {
    if Renderable(u, ws) then end == Complete
    else exists i | FirstWithoutPath(u, ws, i) ::
      end == if ws[i].client.service.Some? then Stopped else Erroneous
  }

  predicate FirstWithoutPath(u: Urls, ws: seq<Webhook>, i: int) {
    0 <= i < |ws| && !GetPath(u, ws[i].client).Path? && forall j | 0 <= j < i :: GetPath(u, ws[j].client).Path?
  }

  lemma AllRendered(u: Urls, ws: seq<Webhook>, env: Env)
    requires Renderable(u, ws)
    ensures Delivered(u, ws, Render(u, ws, |ws|, env), env, env.caBundle)
  {
    var from := RenderDelivers(u, ws, |ws|, env);
    assert ws[..|ws|] == ws;
  }

  method RenderInPlace(u: Urls, ws: array<Webhook>, env: Env) returns (end: Rendering, rendered: seq<Webhook>)
    modifies ws
    ensures EndsAs(u, old(ws[..]), end)
    ensures end == Complete ==> rendered == Render(u, old(ws[..]), ws.Length, env)
    ensures end == Complete ==> Delivered(u, old(ws[..]), rendered, env, env.caBundle)
  {
    hide Delivered; hide Delivers; hide Handled;
    ghost var given := ws[..];
    rendered := [];
    for i := 0 to ws.Length
      invariant forall j | i <= j < ws.Length :: ws[j] == given[j]
      invariant forall j | 0 <= j < i :: GetPath(u, given[j].client).Path?
      invariant rendered == Render(u, given, i, env)
    {
      var path, served := EditInPlace(u, ws, i, env);
      if !path.Path? {
        assert given[i] in given && FirstWithoutPath(u, given, i);
        end := if path.NilPath? then Stopped else Erroneous;
        return;
      }
      if served { rendered := rendered + [ws[i]]; }
    }
    end := Complete;
    AllRendered(u, given, env);
  }

  /** `Crashed`: the program was stopped. */
  datatype Error = Fine | Failed | Crashed

  lemma EndsOnce(u: Urls, ws: seq<Webhook>)
    ensures forall a, b | EndsAs(u, ws, a) && EndsAs(u, ws, b) :: a == b
  {
  }

  /** The program is stopped exactly if both templates parse and the first webhook without a
      path, the mutating ones before the validating ones, is a service. */
  ghost predicate Crashes(u: Urls, m: Config, v: Config) {
    && !m.template.Garbled? && !v.template.Garbled?
    && (EndsAs(u, Source(m), Stopped) || (EndsAs(u, Source(m), Complete) && EndsAs(u, Source(v), Stopped)))
  }

  class Ensurer {
    const api: Cluster
    const me: nat

    constructor (api: Cluster, me: nat)
      ensures this.api == api && this.me == me
    {
      this.api, this.me := api, me;
    }

    ghost predicate Ready()
      reads this, api
    {
      api.Valid() && me < |api.state.replicas|
    }

    function Pc(): Pc
      reads this, api
      requires me < |api.state.replicas|
    {
      api.state.replicas[me]
    }

    /** What the replica has read is what is there; or the configuration, which did not carry
        the replica's parameters when it was read, has been updated and carries them. */
    ghost predicate UpToDate(which: Which, c: Config, env: Env)
      reads this, api
    {
      Expected(env) && !api.touched ==> ReadOrCarried(api.urls, api.state, which, c, env)
    }

    /** All replicas use these parameters. */
    ghost predicate Expected(env: Env)
      reads this, api
    {
      !api.mixed && env == api.env
    }

    /** The configuration was read after state `s`. */
    ghost predicate ReadAfter(s: State, which: Which, c: Config, env: Env)
      reads this, api
    {
      Expected(env) && Carried(api.urls, s, which, env) ==> Fits(api.urls, c, env)
    }

    /** A configuration read in state `t`, which comes after `s`. */
    lemma ReadIsUpToDate(t: State, s: State, which: Which, c: Config, env: Env)
      requires which in t.configs && t.configs[which] == c && api.state == t && api.Since(s)
      ensures UpToDate(which, c, env) && ReadAfter(s, which, c, env)
    {
      hide Fits;
      assert which == Mutating || which == Validating;
      if !api.mixed { FollowsKeepsCarried(api.urls, s, t, which, api.env, api.touched); }
    }

    lemma StillUpToDate(t: State, which: Which, c: Config, env: Env)
      requires Expected(env) && !api.touched ==> ReadOrCarried(api.urls, t, which, c, env)
      requires api.Since(t)
      ensures UpToDate(which, c, env)
    {
      hide Fits;
      assert which == Mutating || which == Validating;
      if Expected(env) { FollowsKeepsCarried(api.urls, t, api.state, which, env, api.touched); }
    }

    lemma StillCarried(t: State, which: Which, env: Env)
      requires api.Since(t) && Expected(env)
      ensures Carried(api.urls, t, which, env) ==> Carried(api.urls, api.state, which, env)
    {
      hide Follows;
      assert which == Mutating || which == Validating;
      FollowsKeepsCarried(api.urls, t, api.state, which, env, api.touched);
    }

    /** An update is refused only where the configuration is not what was read. */
    lemma RefusedIsCarried(which: Which, c: Config, want: Config, env: Env)
      requires UpToDate(which, c, env) && Rewrite(api.urls, c, env) == Some(want)
      requires !Put(api.state, which, c, want, Reported).1 && Expected(env) && !api.touched
      ensures !Fits(api.urls, c, env) && Carried(api.urls, api.state, which, env)
    {
      hide Rewrite;
    }

    /** One more configuration carries the parameters than in state `s`. */
    lemma OneMoreCarries(s: State, which: Which, env: Env)
      requires api.Since(s) && Expected(env)
      requires !Carried(api.urls, s, which, env) && Carried(api.urls, api.state, which, env)
      ensures Carrying(api.urls, api.state, env) > Carrying(api.urls, s, env)
    {
      hide Fits;
      StillCarried(s, Mutating, env);
      StillCarried(s, Validating, env);
      assert which == Mutating || which == Validating;
    }

    /** A step of the code, with what holds since two earlier states. */
    method Act(a: Action, ghost s: State, ghost t: State)
      requires Ready() && !a.Touch? && a.i == me && api.Since(s) && api.Since(t)
      modifies api`state, api`mixed, api`touched
      ensures Ready() && api.state == Step(api.urls, old(api.state), a) && api.Since(s) && api.Since(t)
      ensures api.mixed == (old(api.mixed) || !Uses(a, api.env)) && api.touched == old(api.touched)
      ensures api.Since(old(api.state))
    {
      hide Uniform; hide Ok; hide Follows; hide Step;
      ghost var before := api.state;
      api.Take(a);
      SinceThen(api, s, before, api.touched);
      SinceThen(api, t, before, api.touched);
    }

    /** Whatever the others do before the code's next call. */
    method Wait(ghost s: State, ghost t: State)
      requires Ready() && api.Since(s) && api.Since(t)
      modifies api`state, api`mixed, api`touched, api`disturbed
      ensures Ready() && Pc() == old(Pc()) && api.Since(s) && api.Since(t)
      ensures !api.disturbed ==> api.state.configs == old(api.state).configs
      ensures api.Raised(old(api.mixed), old(api.touched), old(api.disturbed), old(api.faulted))
    {
      hide Uniform; hide Ok; hide Follows;
      ghost var before, was := api.state, api.touched;
      api.Others(me);
      SinceThen(api, s, before, was);
      SinceThen(api, t, before, was);
    }

    method FetchMutating(env: Env, ghost s: State) returns (e: Error, m: Config)
      requires Ready() && Pc().Idle? && api.Since(s)
      modifies api
      ensures Ready() && api.Since(s) && api.env == old(api.env) && e in {Fine, Failed}
      ensures if e == Fine then Pc() == HasFirst(env, m) else Pc().Idle?
      ensures !api.disturbed ==> api.state.configs == old(api.state).configs
      ensures e == Fine ==> Mutating in api.state.configs && m == api.state.configs[Mutating]
      ensures api.Raised(old(api.mixed), old(api.touched), old(api.disturbed), old(api.faulted))
      ensures !api.faulted && Mutating in api.state.configs ==> e == Fine
      ensures e == Fine ==> ReadAfter(s, Mutating, m, env)
    {
      hide Uniform; hide Fits; hide Ok; hide BothFollow;
      m := Config(0, NoTemplate, []);
      Wait(s, s);
      var failed := api.Fails();
      if failed || Mutating !in api.state.configs { return Failed, m; }
      m := api.state.configs[Mutating];
      ReadIsUpToDate(api.state, s, Mutating, m, env);
      Act(GetFirst(me, env, true), s, s);
      e := Fine;
    }

    method FetchValidating(ghost env: Env, ghost m: Config, ghost s: State, ghost t: State)
      returns (e: Error, v: Config)
      requires Ready() && Pc() == HasFirst(env, m) && api.Since(s) && api.Since(t)
      modifies api
      ensures Ready() && api.Since(s) && api.Since(t) && api.env == old(api.env) && e in {Fine, Failed}
      ensures if e == Fine then Pc() == HasBoth(env, m, v) else Pc().Idle?
      ensures !api.disturbed ==> api.state.configs == old(api.state).configs
      ensures e == Fine ==> Validating in api.state.configs && v == api.state.configs[Validating]
      ensures api.Raised(old(api.mixed), old(api.touched), old(api.disturbed), old(api.faulted))
      ensures !api.faulted && Validating in api.state.configs ==> e == Fine
      ensures e == Fine ==> ReadAfter(s, Validating, v, env)
    {
      hide Uniform; hide Fits; hide Ok; hide BothFollow;
      v := Config(0, NoTemplate, []);
      Wait(s, t);
      var failed := api.Fails();
      if failed || Validating !in api.state.configs {
        Act(GetSecond(me, false), s, t);
        return Failed, v;
      }
      v := api.state.configs[Validating];
      ReadIsUpToDate(api.state, s, Validating, v, env);
      Act(GetSecond(me, true), s, t);
      e := Fine;
    }

    /** Both reads. */
    method Fetch(env: Env) returns (e: Error, m: Config, v: Config)
      requires Ready() && Pc().Idle?
      modifies api
      ensures e in {Fine, Failed}
      ensures Ready() && if e == Fine then Pc() == HasBoth(env, m, v) else Pc().Idle?
      ensures !api.disturbed ==> api.state.configs == old(api.state).configs
      ensures e == Fine && !api.disturbed ==>
        {Mutating, Validating} <= api.state.configs.Keys && m == api.state.configs[Mutating]
          && v == api.state.configs[Validating]
      ensures api.Since(old(api.state)) && api.env == old(api.env)
      ensures api.Raised(old(api.mixed), old(api.touched), old(api.disturbed), old(api.faulted))
      ensures !api.faulted && {Mutating, Validating} <= api.state.configs.Keys ==> e == Fine
      ensures e == Fine ==> UpToDate(Mutating, m, env) && ReadAfter(old(api.state), Mutating, m, env)
      ensures e == Fine ==> UpToDate(Validating, v, env) && ReadAfter(old(api.state), Validating, v, env)
    {
      hide Uniform; hide Fits; hide Ok; hide Follows;
      v := Config(0, NoTemplate, []);
      SinceNow(api);
      e, m := FetchMutating(env, api.state);
      if e != Fine { return; }
      ghost var first := api.state;
      SinceNow(api);
      e, v := FetchValidating(env, m, old(api.state), first);
      if e == Fine {
        StillUpToDate(first, Mutating, m, env);
        SinceNow(api);
        StillUpToDate(api.state, Validating, v, env);
      }
    }

    /** What both configurations are to be, computed before either is updated. */
    method Compute(m: Config, v: Config, env: Env) returns (e: Error, wantM: Config, wantV: Config)
      ensures e == Fine <==> Rewrite(api.urls, m, env).Some? && Rewrite(api.urls, v, env).Some?
      ensures e == Fine ==> wantM == Rewrite(api.urls, m, env).value && wantV == Rewrite(api.urls, v, env).value
      ensures e == Crashed <==> Crashes(api.urls, m, v)
    {
      hide Delivered; hide Render; hide GetPath; hide FirstWithoutPath;
      wantM, wantV := m, v;
      var mutatingConfig := new ConfigObject(m);
      var validatingConfig := new ConfigObject(v);
      var ok, end, mutatingTemplate, validatingTemplate, rendered;
      ok, mutatingTemplate := mutatingConfig.ParseTemplate();
      if !ok { return Failed, m, v; }
      ok, validatingTemplate := validatingConfig.ParseTemplate();
      if !ok { return Failed, m, v; }
      EndsOnce(api.urls, Source(m));
      EndsOnce(api.urls, Source(v));
      end, rendered := RenderInPlace(api.urls, mutatingTemplate, env);
      if end != Complete { return (if end == Stopped then Crashed else Failed), m, v; }
      mutatingConfig.SetWebhooks(rendered);
      end, rendered := RenderInPlace(api.urls, validatingTemplate, env);
      if end != Complete { return (if end == Stopped then Crashed else Failed), m, v; }
      validatingConfig.SetWebhooks(rendered);
      e, wantM, wantV := Fine, mutatingConfig.Value(), validatingConfig.Value();
    }

    method UpdateMutating(env: Env, m: Config, want: Config, ghost v: Config, ghost s: State) returns (e: Error)
      requires Ready() && Pc() == HasBoth(env, m, v) && api.Since(s)
      requires Rewrite(api.urls, m, env) == Some(want) && Rewrite(api.urls, v, env).Some?
      requires UpToDate(Mutating, m, env) && UpToDate(Validating, v, env)
      requires !api.disturbed ==> Mutating in api.state.configs && api.state.configs[Mutating] == m
      modifies api
      ensures e in {Fine, Failed} && api.Since(s) && api.env == old(api.env)
      ensures Ready() && if e == Fine then Pc() == HasSecond(env, v) else Pc().Idle?
      ensures !api.disturbed ==> UpdatedOrNot(api.urls, old(api.state), api.state, Mutating, env, e)
      ensures api.Raised(old(api.mixed), old(api.touched), old(api.disturbed), old(api.faulted))
      ensures UpToDate(Validating, v, env)
      // when it succeeds, and what stops it
      ensures !api.faulted && (!api.disturbed || want == m) ==> e == Fine
      ensures e == Failed && !api.faulted && Expected(env) && !api.touched ==>
        !Fits(api.urls, m, env) && Carried(api.urls, api.state, Mutating, env)
    {
      hide Rewrite; hide Ok; hide Uniform; hide BothFollow; hide ReadOrCarried; hide Fits; hide Carried;
      hide Step; hide Put; hide UpdatedOrNot; hide Applied;
      ghost var t := api.state;
      SinceNow(api);
      var outcome := Reported;
      if want != m {
        Wait(s, t);
        outcome := api.AnyOutcome();
      }
      StillUpToDate(t, Mutating, m, env);
      ghost var now := api.state;
      SinceNow(api);
      if !Put(now, Mutating, m, want, outcome).1 && outcome == Reported && Expected(env) && !api.touched {
        RefusedIsCarried(Mutating, m, want, env);
      }
      PutFirstDoes(api.urls, now, me, env, m, v, want, outcome);
      Act(PutFirst(me, outcome), s, t);
      StillUpToDate(t, Validating, v, env);
      if Expected(env) { StillCarried(now, Mutating, env); }
      e := if Pc().HasSecond? then Fine else Failed;
    }

    method UpdateValidating(env: Env, v: Config, want: Config, ghost s: State) returns (e: Error)
      requires Ready() && Pc() == HasSecond(env, v) && Rewrite(api.urls, v, env) == Some(want) && api.Since(s)
      requires UpToDate(Validating, v, env)
      requires !api.disturbed ==> Validating in api.state.configs && api.state.configs[Validating] == v
      modifies api
      ensures e in {Fine, Failed} && Ready() && Pc().Idle? && api.Since(s) && api.env == old(api.env)
      ensures !api.disturbed ==> UpdatedOrNot(api.urls, old(api.state), api.state, Validating, env, e)
      ensures api.Raised(old(api.mixed), old(api.touched), old(api.disturbed), old(api.faulted))
      // what success means, when it succeeds, and what stops it
      ensures e == Fine && Expected(env) ==> BothCarried(api.urls, api.state, env)
      ensures !api.faulted && (!api.disturbed || want == v) ==> e == Fine
      ensures e == Failed && !api.faulted && Expected(env) && !api.touched ==>
        !Fits(api.urls, v, env) && Carried(api.urls, api.state, Validating, env)
    {
      hide Rewrite; hide Ok; hide Uniform; hide BothFollow; hide ReadOrCarried; hide Fits; hide Carried;
      hide Step; hide Put; hide UpdatedOrNot; hide Applied;
      ghost var t := api.state;
      SinceNow(api);
      var outcome := Reported;
      if want != v {
        Wait(s, t);
        outcome := api.AnyOutcome();
      }
      StillUpToDate(t, Validating, v, env);
      ghost var now := api.state;
      SinceNow(api);
      e := if Put(api.state, Validating, v, want, outcome).1 then Fine else Failed;
      if e == Fine && Expected(env) { FinishingCarries(api.urls, api.start, now, PutSecond(me, outcome), env); }
      if e != Fine && outcome == Reported && Expected(env) && !api.touched {
        RefusedIsCarried(Validating, v, want, env);
      }
      PutSecondDoes(api.urls, now, me, env, v, want, outcome);
      Act(PutSecond(me, outcome), s, t);
      if Expected(env) { StillCarried(now, Validating, env); }
    }

    /** Whoever else is about: a success leaves both configurations carrying these parameters
        if all replicas use the same; a failure without a fault is the work of another one
        that got a configuration to carry them; and where both carry them already, nobody
        can make it fail. With the configurations to itself, a call succeeds exactly if
        they can be rewritten, and does what Wholly and Partly say. */
    method Ensure(env: Env) returns (e: Error)
      requires Ready() && Pc().Idle?
      modifies api
      ensures Ready() && Pc().Idle? && api.env == old(api.env)
      ensures api.Since(old(api.state))
      ensures api.Raised(old(api.mixed), old(api.touched), old(api.disturbed), old(api.faulted))
      // racing
      ensures e == Fine && Expected(env) ==>
        BothCarried(api.urls, api.state, env) && BothDeliver(api.urls, api.state, env, env.caBundle)
      ensures Usable(api.urls, old(api.state)) && !api.faulted && Expected(env) ==>
        (old(BothCarried(api.urls, api.state, env)) ==> e == Fine)
          && (!api.touched ==>
            e == Fine || Carrying(api.urls, api.state, env) > old(Carrying(api.urls, api.state, env)))
      // alone
      ensures !api.disturbed ==> Partly(api.urls, old(api.state), api.state, env)
      ensures !api.disturbed && e == Fine ==> Wholly(api.urls, old(api.state), api.state, env)
      ensures !api.disturbed && !api.faulted && Usable(api.urls, old(api.state)) ==> e == Fine
      ensures !api.disturbed && e == Fine ==> BothDeliver(api.urls, api.state, env, env.caBundle)
      // in any case
      ensures SameSources(old(api.state), api.state)
      ensures e == Fine ==> Usable(api.urls, old(api.state))
      ensures e == Crashed ==> CrashesOn(api.urls, old(api.state))
      ensures !api.disturbed && e == Crashed ==> api.state.configs == old(api.state.configs)
      ensures CrashesOn(api.urls, old(api.state)) ==> e in {Failed, Crashed}
    {
      hide Rewrite; hide Ok; hide Uniform; hide BothFollow; hide Carrying; hide Usable; hide CrashesOn;
      hide Crashes; hide ReadOrCarried; hide Partly; hide Wholly; hide UpdatedOrNot; hide BothDeliver;
      hide SameSources;
      ghost var s := api.state;
      UsableIsThere(api.urls, s);
      NothingDone(api.urls, s, env);
      SinceNow(api);
      var m, v;
      e, m, v := Fetch(env);
      SourcesAgree(api.urls, api.start, s, api.state);
      if e != Fine { return; }
      ReadSources(api.urls, api.start, s, api.state, me);
      var wantM, wantV;
      e, wantM, wantV := Compute(m, v, env);
      if e != Fine {
        GivesUp(m, v, env, s);
        SourcesAgree(api.urls, api.start, s, api.state);
        return;
      }
      ghost var read := api.state;
      e := UpdateMutating(env, m, wantM, v, s);
      ghost var between := api.state;
      SourcesAgree(api.urls, api.start, s, between);
      if !api.disturbed { FirstDone(api.urls, s, read, between, env, e); }
      if e != Fine {
        if !api.faulted && Expected(env) && !api.touched { OneMoreCarries(s, Mutating, env); }
        return;
      }
      e := UpdateValidating(env, v, wantV, s);
      if !api.disturbed { SecondDone(api.urls, s, read, between, api.state, env, e); }
      SourcesAgree(api.urls, api.start, s, api.state);
      if e != Fine && !api.faulted && Expected(env) && !api.touched { OneMoreCarries(s, Validating, env); }
      if e == Fine && Expected(env) { CarriedDelivers(api.urls, api.state, env); }
      if e == Fine && !api.disturbed { WhollyDelivers(api.urls, s, api.state, env); }
    }

    method GivesUp(ghost m: Config, ghost v: Config, ghost env: Env, ghost s: State)
      requires Ready() && Pc() == HasBoth(env, m, v) && api.Since(s)
      requires Rewrite(api.urls, m, env).None? || Rewrite(api.urls, v, env).None?
      modifies api`state, api`mixed, api`touched
      ensures Ready() && Pc().Idle? && api.state.configs == old(api.state).configs && api.Since(s)
      ensures api.mixed == old(api.mixed) && api.touched == old(api.touched)
    {
      hide Rewrite; hide Ok; hide Uniform;
      Act(PutFirst(me, Reported), s, s);
    }
  }

  /** Both have the same configurations, with the same lists to render from. */
  predicate SameSources(s: State, t: State) {
    && s.configs.Keys == t.configs.Keys
    && forall w: Which | w in s.configs ::
      Source(s.configs[w]) == Source(t.configs[w]) && s.configs[w].template.Garbled? == t.configs[w].template.Garbled?
  }

  lemma WhollyDelivers(u: Urls, s: State, t: State, env: Env)
    requires Wholly(u, s, t, env)
    ensures BothDeliver(u, t, env, env.caBundle)
  {
    hide Applied; hide Delivered;
    forall w | w in t.configs ensures Delivered(u, Source(t.configs[w]), t.configs[w].webhooks, env, env.caBundle) {
      AppliedIsRendering(u, s.configs[w], t.configs[w], env);
    }
  }

  /** Whatever happens, the lists that everything is rendered from stay, and so does what
      is to be said of them. */
  lemma SourcesAgree(u: Urls, start: State, s: State, t: State)
    requires Ok(u, start, s) && Ok(u, start, t)
    ensures SameSources(s, t)
  {
    forall w: Which ensures w in s.configs <==> w in t.configs { assert w == Mutating || w == Validating; }
    forall w: Which | w in s.configs
      ensures Source(s.configs[w]) == Source(t.configs[w])
        && s.configs[w].template.Garbled? == t.configs[w].template.Garbled?
    {
      assert w == Mutating || w == Validating;
    }
  }

  lemma SnapshotSources(u: Urls, start: State, t: State, me: nat)
    requires Ok(u, start, t) && me < |t.replicas| && t.replicas[me].HasBoth?
    ensures {Mutating, Validating} <= t.configs.Keys
    ensures var m, now := t.replicas[me].m, t.configs[Mutating];
      Source(m) == Source(now) && m.template.Garbled? == now.template.Garbled?
    ensures var v, now := t.replicas[me].v, t.configs[Validating];
      Source(v) == Source(now) && v.template.Garbled? == now.template.Garbled?
  {
    assert ReplicaOk(u, start, t, t.replicas[me]);
  }

  lemma UsableStays(u: Urls, start: State, s: State, t: State)
    requires Ok(u, start, s) && Ok(u, start, t)
    ensures Usable(u, s) <==> Usable(u, t)
  {
    hide Ok; hide Renderable;
    SourcesAgree(u, start, s, t);
  }

  /** So a replica that has read both knows whether they can be rewritten. */
  lemma ReadSources(u: Urls, start: State, s: State, t: State, me: nat)
    requires Ok(u, start, s) && Ok(u, start, t) && me < |t.replicas| && t.replicas[me].HasBoth?
    ensures var pc := t.replicas[me];
      && (Usable(u, s) <==> Rewrite(u, pc.m, pc.env).Some? && Rewrite(u, pc.v, pc.env).Some?)
      && (CrashesOn(u, s) <==> Crashes(u, pc.m, pc.v))
  {
    hide EndsAs; hide Renderable; hide Ok; hide Render;
    SourcesAgree(u, start, s, t);
    SnapshotSources(u, start, t, me);
  }

  /** What the first update comes to, seen from any state with the same configurations. */
  lemma PutFirstDoes(u: Urls, s: State, me: nat, env: Env, m: Config, v: Config, want: Config, outcome: Outcome)
    requires me < |s.replicas| && s.replicas[me] == HasBoth(env, m, v)
    requires Rewrite(u, m, env) == Some(want) && Rewrite(u, v, env).Some?
    ensures var t, fine := Step(u, s, PutFirst(me, outcome)), Put(s, Mutating, m, want, outcome).1;
      && |t.replicas| == |s.replicas| && t.replicas[me] == (if fine then HasSecond(env, v) else Idle)
      && (want == m ==> fine)
      && (Mutating in s.configs && s.configs[Mutating] == m ==>
        && (outcome == Reported ==> fine)
        && forall was: State | was.configs == s.configs ::
             UpdatedOrNot(u, was, t, Mutating, env, if fine then Fine else Failed))
  {
    hide Rewrite;
  }

  lemma PutSecondDoes(u: Urls, s: State, me: nat, env: Env, v: Config, want: Config, outcome: Outcome)
    requires me < |s.replicas| && s.replicas[me] == HasSecond(env, v) && Rewrite(u, v, env) == Some(want)
    ensures var t, fine := Step(u, s, PutSecond(me, outcome)), Put(s, Validating, v, want, outcome).1;
      && |t.replicas| == |s.replicas| && t.replicas[me] == Idle
      && (want == v ==> fine)
      && (Validating in s.configs && s.configs[Validating] == v ==>
        && (outcome == Reported ==> fine)
        && forall was: State | was.configs == s.configs ::
             UpdatedOrNot(u, was, t, Validating, env, if fine then Fine else Failed))
  {
    hide Rewrite;
  }

  lemma UsableIsThere(u: Urls, s: State)
    ensures Usable(u, s) ==> {Mutating, Validating} <= s.configs.Keys
  {
  }

  lemma NothingDone(u: Urls, s: State, env: Env)
    ensures forall t: State | t.configs == s.configs :: Partly(u, s, t, env)
  {
  }

  lemma FirstDone(u: Urls, s: State, read: State, t: State, env: Env, e: Error)
    requires read.configs == s.configs && UpdatedOrNot(u, read, t, Mutating, env, e)
    ensures Partly(u, s, t, env)
    ensures Validating in s.configs ==> Validating in t.configs && t.configs[Validating] == s.configs[Validating]
  {
    hide Applied;
  }

  lemma SecondDone(u: Urls, s: State, read: State, t: State, r: State, env: Env, e: Error)
    requires read.configs == s.configs && {Mutating, Validating} <= s.configs.Keys
    requires UpdatedOrNot(u, read, t, Mutating, env, Fine) && UpdatedOrNot(u, t, r, Validating, env, e)
    ensures Partly(u, s, r, env) && (e == Fine ==> Wholly(u, s, r, env))
  {
    hide Applied;
    assert forall w | w in s.configs :: w == Mutating || w == Validating;
  }

  ghost predicate ReadOrCarried(u: Urls, s: State, which: Which, c: Config, env: Env) {
    || (which in s.configs && s.configs[which] == c)
    || (!Fits(u, c, env) && Carried(u, s, which, env))
  }

  /** How many of the two configurations carry these parameters. */
  function Carrying(u: Urls, s: State, env: Env): nat {
    (if Carried(u, s, Mutating, env) then 1 else 0) + if Carried(u, s, Validating, env) then 1 else 0
  }

  /** Both configurations are there, and their templates parse and have a path throughout. */
  predicate Usable(u: Urls, s: State) {
    UsableOne(u, s, Mutating) && UsableOne(u, s, Validating)
  }

  predicate UsableOne(u: Urls, s: State, which: Which) {
    which in s.configs && !s.configs[which].template.Garbled? && Renderable(u, Source(s.configs[which]))
  }

  ghost predicate CrashesOn(u: Urls, s: State) {
    {Mutating, Validating} <= s.configs.Keys && Crashes(u, s.configs[Mutating], s.configs[Validating])
  }

  ghost predicate Partly(u: Urls, s: State, t: State, env: Env) {
    && t.configs.Keys == s.configs.Keys
    && forall w | w in s.configs :: t.configs[w] == s.configs[w] || Applied(u, s.configs[w], t.configs[w], env)
  }

  ghost predicate Wholly(u: Urls, s: State, t: State, env: Env) {
    && {Mutating, Validating} <= s.configs.Keys && t.configs.Keys == s.configs.Keys
    && forall w | w in s.configs :: Applied(u, s.configs[w], t.configs[w], env)
  }

  /** One configuration is as it was or has been rewritten, and has been if all went well;
      the other is as it was. */
  ghost predicate UpdatedOrNot(u: Urls, s: State, t: State, which: Which, env: Env, e: Error) {
    && t.configs.Keys == s.configs.Keys
    && (forall w | w in s.configs && w != which :: t.configs[w] == s.configs[w])
    && (which in s.configs ==>
         t.configs[which] == s.configs[which] || Applied(u, s.configs[which], t.configs[which], env))
    && (e == Fine && which in s.configs ==> Applied(u, s.configs[which], t.configs[which], env))
  }
}
