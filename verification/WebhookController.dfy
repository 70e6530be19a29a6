/** One sync of a replica: certificates are provisioned, written to its directory and put
    into the webhook configurations; after the first success it reports itself ready. */
module WebhookController {
  import opened Text
  import opened FileSystem
  import opened Wrappers
  import opened Publication
  import opened Payloads
  import CertProtocol
  import CertWriter
  import opened CertDir
  import opened WebhookConfig
  import Configuration

  type Artifacts = CertProtocol.Artifacts

  /** The certificate writer over files: the same protocol, with the directory in place of
      the Secret. It never hands a CA to its generator. */
  class FsCertWriter {
    const crypto: CertProtocol.Crypto
    const dir: CertDirectory
    const generator: CertWriter.SelfSignedCertGenerator
    /** Whether a generation has failed. */
    ghost var failed: bool

    constructor (crypto: CertProtocol.Crypto, dir: CertDirectory, generator: CertWriter.SelfSignedCertGenerator)
      ensures this.crypto == crypto && this.dir == dir && this.generator == generator && !failed
    {
      this.crypto, this.dir, this.generator, failed := crypto, dir, generator, false;
    }

    ghost predicate Ready()
      reads this, dir, dir.disk
    {
      dir.disk.Valid() && Tidy(dir.disk.nodes) && dir.writer.disk == dir.disk
    }

    /** Nothing is in the way of publishing. */
    ghost predicate Open()
      reads this, dir, dir.disk
    {
      !Blocked(dir.disk.nodes, CertProtocol.NO_CERTS)
    }

    predicate IsValid(c: Artifacts, now: nat) { CertProtocol.ValidCert(crypto, c, now) }

    method DoWrite(now: nat) returns (e: Error, certs: Artifacts)
      requires Ready()
      modifies dir.disk, this`failed
      ensures Ready() && old(dir.disk.log) <= dir.disk.log
      ensures e == Fine ==> CertProtocol.Made(crypto, now, generator.Signer(), certs)
      ensures e == Fine && !dir.disk.faulted ==> Published(dir.disk.nodes, CertToProjectionMap(certs))
      ensures !dir.disk.faulted && !failed && old(Open()) ==> e == Fine && Open()
      ensures (old(dir.disk.faulted) ==> dir.disk.faulted) && (old(failed) ==> failed)
    {
      hide Tidy; hide Published; hide Shows; hide Reachable; hide Blocked;
      var generated;
      generated, certs := generator.Generate(crypto, now);
      failed := failed || generated != CertWriter.Fine;
      if generated != CertWriter.Fine { return Unusable, certs; }
      ghost var mid, commit, skipped;
      e, mid, commit, skipped := dir.WriteCertsToDir(certs);
    }

    /** Missing certificates are made at the time `make`, what there is is judged at `judge`
        and renewed at `renew`. What is returned was valid when it was judged or renewed, and
        certificates that are served and valid are returned and not written. */
    method EnsureCert(dnsName: string, make: nat, judge: nat, renew: nat, ghost c: Artifacts)
      returns (e: Error, certs: Artifacts, changed: bool)
      requires Ready() && make <= judge <= renew
      modifies dir.disk, this`failed
      ensures Ready() && old(dir.disk.log) <= dir.disk.log
      ensures e == Fine ==> dnsName != ""
      ensures e == Fine ==>
        (IsValid(certs, judge) || (changed && IsValid(certs, renew)))
      ensures e == Fine && !changed ==> ReadAs(dir.disk.nodes, certs) && dir.disk.nodes == old(dir.disk.nodes)
      ensures e == Fine && changed && !dir.disk.faulted ==> Published(dir.disk.nodes, CertToProjectionMap(certs))
      ensures !dir.disk.faulted && dnsName != "" && Kept(old(dir.disk.nodes), c) && IsValid(c, judge) ==>
        e == Fine && certs == c && !changed
          && dir.disk.nodes == old(dir.disk.nodes) && dir.disk.log == old(dir.disk.log)
      // certificates that are there and cannot be read are left alone
      ensures !dir.disk.faulted && AllThere(old(dir.disk.nodes)) && !Readable(old(dir.disk.nodes)) ==>
        e != Fine && dir.disk.nodes == old(dir.disk.nodes) && dir.disk.log == old(dir.disk.log)
      // if nothing fails of itself, certificates that are missing are made
      ensures !dir.disk.faulted && !failed && dnsName != "" && old(Open() && dir.Legible()) ==>
        e == Fine && Open()
      ensures (old(dir.disk.faulted) ==> dir.disk.faulted) && (old(failed) ==> failed)
    {
      hide Tidy; hide Published; hide Read; hide NAMES; hide CertToProjectionMap; hide Blocked;
      certs, changed := CertProtocol.NO_CERTS, false;
      if dnsName == "" { return Unusable, certs, false; }
      if Serving(dir.disk.nodes, CertToProjectionMap(c)) { DirectoryRoundTrip(dir.disk.nodes, c); }
      e, certs := dir.ReadCerts();
      if e == NotFound {
        changed := true;
        e, certs := DoWrite(make);
      }
      if e != Fine { return; }
      if !CertProtocol.ValidCert(crypto, certs, judge) {
        e, certs := DoWrite(renew);
        changed := e == Fine;
      }
    }
  }

  predicate AllThere(fs: Tree) { forall n | n in NAMES :: Resolve(fs, [n]) != Walked.Lost(ENOENT) }

  ghost predicate Readable(fs: Tree) { exists c :: ReadAs(fs, c) }

  /** The directory keeps complete certificates. */
  ghost predicate Kept(fs: Tree, c: Artifacts) { CertProtocol.Complete(c) && Serving(fs, CertToProjectionMap(c)) }

  /** ServiceToCommonName. */
  function CommonName(namespace: string, service: string): string { service + "." + namespace + ".svc" }

  /** The name that certificates are for: the host, or that of the service. */
  function DnsName(env: Env): (name: string)
    ensures name != ""
  {
    if env.host != "" then env.host else CommonName(env.namespace, env.service)
  }

  /** Without a host, certificates are for the service under its namespace. */
  lemma DnsNameMeans(env: Env)
    ensures env.host != "" ==> DnsName(env) == env.host
    ensures env.host == "" && '.' !in env.service && '.' !in env.namespace ==>
      Split(DnsName(env), '.') == [env.service, env.namespace, "svc"]
  {
    hide Split;
    var service, namespace := env.service, env.namespace;
    if env.host == "" && '.' !in service && '.' !in namespace {
      var rest := namespace + "." + "svc";
      assert service + "." + namespace + ".svc" == service + "." + rest;
      SplitCons(service, rest, '.');
      SplitCons(namespace, "svc", '.');
      SplitNothing("svc", '.');
    }
  }

  function EnvWith(env: Env, c: Artifacts): Env { env.(caBundle := BytesOf(c.caCert)) }

  lemma WrittenServes(before: Tree, fs: Tree, c: Artifacts)
    requires var payload := CertToProjectionMap(c);
      && Tidy(fs) && Published(fs, payload)
      && (Shows(fs, FilesOf(payload)) <==> forall n | n in payload :: Reachable(before, payload, n))
    ensures AllReachable(before, c) ==> Serving(fs, CertToProjectionMap(c))
  {
    hide Tidy; hide Published; hide Shows; hide CertToProjectionMap; hide Reachable; hide FilesOf;
    ProjectionIsFlat(c);
    ServingShows(fs, CertToProjectionMap(c));
  }

  /** Every name of the six will be the writer's link. */
  ghost predicate AllReachable(fs: Tree, c: Artifacts) {
    forall n | n in CertToProjectionMap(c) :: Reachable(fs, CertToProjectionMap(c), n)
  }

  lemma HasCaCert(secrets: CertWriter.Cluster, c: Artifacts)
    ensures forall t: nat | CertProtocol.ValidCert(secrets.crypto, c, t) :: c.caCert.Some?
  {
  }

  class Controller {
    const secrets: CertWriter.Cluster
    const me: nat
    const dir: CertDirectory
    const configs: Configuration.Ensurer
    const env: Env
    /** Whether certificates are kept in the directory itself and not in the Secret. */
    const inFiles: bool
    var initialised: bool
    /** How often the channel that signals readiness was closed. */
    var closed: nat

    constructor (secrets: CertWriter.Cluster, me: nat, dir: CertDirectory, configs: Configuration.Ensurer, env: Env,
      inFiles: bool)
      ensures this.secrets == secrets && this.me == me && this.dir == dir && this.configs == configs && this.env == env
      ensures this.inFiles == inFiles && !initialised && closed == 0
    {
      this.secrets, this.me, this.dir, this.configs, this.env, this.inFiles := secrets, me, dir, configs, env, inFiles;
      initialised, closed := false, 0;
    }

    ghost predicate Ready()
      reads this, secrets, dir, dir.disk, configs, configs.api
    {
      && secrets.Valid() && me < |secrets.state.replicas|
      && (secrets.state.replicas[me].pc.Idle? || secrets.state.replicas[me].pc.Done?)
      && secrets.crypto.dnsName == DnsName(env)
      && dir.disk.Valid() && Tidy(dir.disk.nodes) && dir.writer.disk == dir.disk
      && configs.Ready() && configs.Pc().Idle?
      && closed == if initialised then 1 else 0
    }

    /** Nobody but the replicas interferes, they all use the parameters that go with `c`, and
        no call to the disk has failed of itself. */
    ghost predicate Quiet(c: Artifacts)
      reads secrets, dir.disk, configs.api
    {
      !secrets.disturbed && Calm(c)
    }

    ghost predicate Calm(c: Artifacts)
      reads dir.disk, configs.api
    {
      !dir.disk.faulted && InUse(c)
    }

    /** All replicas use the parameters that go with `c`. */
    ghost predicate InUse(c: Artifacts)
      reads configs.api
    {
      !configs.api.mixed && configs.api.env == EnvWith(env, c)
    }

    /** Both configurations hold the served webhooks of their lists, directed to this
        replica's service or host, with trust in `ca`. */
    ghost predicate Delivering(ca: Bytes)
      reads configs.api
    {
      BothDeliver(configs.api.urls, configs.api.state, env, ca)
    }

    /** No call to an API server has failed of itself. */
    ghost predicate Sound()
      reads secrets, configs.api
    {
      !secrets.faulted && !configs.api.faulted
    }

    /** These certificates are published in the directory. */
    ghost predicate Holds(c: Artifacts)
      reads dir.disk
    {
      Published(dir.disk.nodes, CertToProjectionMap(c))
    }

    /** And they are seen. */
    ghost predicate Serves(c: Artifacts)
      reads dir.disk
    {
      Serving(dir.disk.nodes, CertToProjectionMap(c))
    }

    /** The directory serves `c` and both configurations carry its CA. */
    ghost predicate Following(c: Artifacts)
      reads dir.disk, configs.api
    {
      && Serves(c)
      && BothCarried(configs.api.urls, configs.api.state, EnvWith(env, c))
    }

    /** Neither the directory nor the configurations stand in the way. */
    ghost predicate Unhindered(c: Artifacts)
      reads dir.disk, configs.api
    {
      Publishable(dir.disk.nodes, c) && Configuration.Usable(configs.api.urls, configs.api.state)
    }

    /** Nothing in the directory is in the way of publishing. */
    ghost predicate Clear()
      reads dir.disk
    {
      !Blocked(dir.disk.nodes, CertProtocol.NO_CERTS)
    }

    /** Neither the directory nor the configurations stand in the way, whatever is published. */
    ghost predicate Available()
      reads dir.disk, configs.api
    {
      Clear() && Configuration.Usable(configs.api.urls, configs.api.state)
    }

    /** How many of the configurations carry the CA of `c`. */
    ghost function Carrying(c: Artifacts): nat
      reads configs.api
    {
      Configuration.Carrying(configs.api.urls, configs.api.state, EnvWith(env, c))
    }

    /** The certificates that are stored, wherever they are. */
    ghost predicate Stored(c: Artifacts)
      reads secrets, dir.disk
    {
      if inFiles then Kept(dir.disk.nodes, c) else CertProtocol.Content(secrets.state, c)
    }

    /** Everything is as `c` demands: the store, the directory and both configurations. */
    ghost predicate Converged(c: Artifacts)
      reads secrets, dir.disk, configs.api
    {
      Stored(c) && Following(c)
    }

    ghost predicate StillValid(c: Artifacts)
      reads secrets
    {
      CertProtocol.ValidCert(secrets.crypto, c, secrets.state.time)
    }

    /** The certificates were valid at some moment since `start`. */
    ghost predicate ValidBetween(start: nat, c: Artifacts)
      reads secrets
    {
      exists t: nat :: start <= t <= secrets.state.time && CertProtocol.ValidCert(secrets.crypto, c, t)
    }

    /** The certificates from the Secret, by a new writer with a new generator. */
    method FromSecret(ghost c: Artifacts) returns (ok: bool, certs: Artifacts)
      requires secrets.Valid() && me < |secrets.state.replicas| && secrets.crypto.dnsName == DnsName(env)
      requires secrets.state.replicas[me].pc.Idle? || secrets.state.replicas[me].pc.Done?
      modifies secrets
      ensures secrets.Valid() && me < |secrets.state.replicas| && old(secrets.state.time) <= secrets.state.time
      ensures secrets.state.replicas[me].pc.Idle? || secrets.state.replicas[me].pc.Done?
      ensures !secrets.disturbed && old(CertProtocol.Content(secrets.state, c)) && StillValid(c) ==>
        secrets.state.store == old(secrets.state.store) && (ok ==> certs == c) && (!secrets.faulted ==> ok)
      ensures !secrets.faulted && !secrets.contended ==> ok
      ensures ok ==> ValidBetween(old(secrets.state.time), certs)
      ensures old(secrets.contended) ==> secrets.contended
      ensures (old(secrets.disturbed) ==> secrets.disturbed) && (old(secrets.faulted) ==> secrets.faulted)
    {
      var generator := new CertWriter.SelfSignedCertGenerator();
      var certWriter := new CertWriter.SecretCertWriter(secrets, me, generator);
      var e, changed;
      e, certs, changed := certWriter.EnsureCert(DnsName(env));
      ok := e == CertWriter.Fine;
    }

    /** The certificates from the directory, while time passes. */
    method FromFiles(ghost c: Artifacts) returns (ok: bool, certs: Artifacts)
      requires secrets.Valid() && me < |secrets.state.replicas|
      requires dir.disk.Valid() && Tidy(dir.disk.nodes) && dir.writer.disk == dir.disk
      modifies secrets, dir.disk
      ensures secrets.Valid() && me < |secrets.state.replicas| && old(secrets.state.time) <= secrets.state.time
      ensures secrets.state.replicas[me] == old(secrets.state).replicas[me]
      ensures dir.disk.Valid() && Tidy(dir.disk.nodes) && old(dir.disk.log) <= dir.disk.log
      ensures !dir.disk.faulted && old(Kept(dir.disk.nodes, c)) && StillValid(c) ==>
        ok && certs == c && dir.disk.nodes == old(dir.disk.nodes) && dir.disk.log == old(dir.disk.log)
      ensures ok ==> ValidBetween(old(secrets.state.time), certs)
      ensures !dir.disk.faulted && !secrets.faulted && old(Clear() && dir.Legible()) ==> ok && Clear()
      ensures old(dir.disk.faulted) ==> dir.disk.faulted
      ensures (old(secrets.disturbed) ==> secrets.disturbed) && (old(secrets.faulted) ==> secrets.faulted)
    {
      hide Tidy; hide Kept; hide Published; hide CertToProjectionMap; hide CertProtocol.Ok; hide CertProtocol.Agreed;
      hide CertProtocol.ValidCert; hide WellFormed; hide Blocked; hide ReadAs; hide NAMES; hide Read;
      hide Resolve; hide CertProtocol.SecretToCerts;
      var make := secrets.state.time;
      secrets.Others(me);
      var judge := secrets.state.time;
      secrets.Others(me);
      var renew := secrets.state.time;
      if StillValid(c) { CertProtocol.EarlierIsValid(secrets.crypto, c, judge, renew); }
      var generator := new CertWriter.SelfSignedCertGenerator();
      var certWriter := new FsCertWriter(secrets.crypto, dir, generator);
      var e, changed;
      e, certs, changed := certWriter.EnsureCert(DnsName(env), make, judge, renew, c);
      secrets.faulted := secrets.faulted || certWriter.failed;
      ok := e == Fine;
    }

    /** The certificates, from wherever they are kept. */
    method Provide(ghost c: Artifacts) returns (ok: bool, certs: Artifacts)
      requires Ready()
      modifies secrets, dir.disk
      ensures Ready() && old(dir.disk.log) <= dir.disk.log && old(secrets.state.time) <= secrets.state.time
      ensures ok ==> ValidBetween(old(secrets.state.time), certs)
      ensures !secrets.disturbed && !dir.disk.faulted && StillValid(c) && old(Stored(c)) ==>
        && Stored(c) && (ok ==> certs == c) && (!secrets.faulted ==> ok)
        && dir.disk.nodes == old(dir.disk.nodes) && dir.disk.log == old(dir.disk.log)
        && (inFiles || secrets.state.store == old(secrets.state.store))
      ensures !dir.disk.faulted && !secrets.faulted && !secrets.contended ==>
        old(Clear() && (inFiles ==> dir.Legible())) ==> ok && Clear()
      ensures (old(secrets.disturbed) ==> secrets.disturbed) && (old(secrets.faulted) ==> secrets.faulted)
      ensures old(dir.disk.faulted) ==> dir.disk.faulted
    {
      hide Tidy; hide Serving; hide CertToProjectionMap; hide CertProtocol.Ok; hide CertProtocol.Agreed;
      hide WellFormed;
      hide CertProtocol.ValidCert; hide CertProtocol.SecretToCerts; hide CertProtocol.Complete; hide Blocked;
      hide CertWriter.Cluster.Valid; hide CertDirectory.Legible; hide WebhookConfig.Ok; hide Uniform;
      if inFiles {
        ok, certs := FromFiles(c);
      } else {
        ok, certs := FromSecret(c);
      }
    }

    /** The directory, then the configurations, while other replicas do the same. */
    method Publish(certs: Artifacts) returns (ok: bool)
      requires dir.disk.Valid() && Tidy(dir.disk.nodes) && dir.writer.disk == dir.disk && configs.Ready()
      requires configs.Pc().Idle?
      modifies dir.disk, configs.api
      ensures dir.disk.Valid() && Tidy(dir.disk.nodes) && configs.Ready() && configs.Pc().Idle?
      ensures old(dir.disk.log) <= dir.disk.log && configs.api.env == old(configs.api.env)
      // what success means
      ensures ok && (!configs.api.disturbed || InUse(certs)) ==> Delivering(BytesOf(certs.caCert))
      ensures ok && !dir.disk.faulted ==> Holds(certs)
      ensures ok && Calm(certs) && AllReachable(old(dir.disk.nodes), certs) ==> Following(certs)
      ensures Calm(certs) && old(Serves(certs)) ==>
        dir.disk.nodes == old(dir.disk.nodes) && dir.disk.log == old(dir.disk.log)
      ensures Calm(certs) && old(Following(certs)) ==>
        Following(certs) && Unwritten(old(configs.api.state), configs.api.state, configs.api.touched)
      // when it succeeds
      ensures Calm(certs) && !configs.api.faulted && old(Unhindered(certs)) ==>
        && Unhindered(certs)
        && (!configs.api.disturbed || old(Following(certs)) ==> ok)
        && (!configs.api.touched ==> ok || Carrying(certs) > old(Carrying(certs)))
      ensures !dir.disk.faulted && !configs.api.faulted && !configs.api.disturbed ==> old(Available()) ==> ok
      ensures old(dir.disk.faulted) ==> dir.disk.faulted
      ensures configs.api.Raised(old(configs.api.mixed), old(configs.api.touched), old(configs.api.disturbed),
        old(configs.api.faulted))
    {
      hide Tidy; hide Serving; hide Published; hide Shows; hide Rewrite; hide CertToProjectionMap; hide Fits;
      hide Configuration.Wholly; hide Configuration.Partly; hide Reachable; hide FilesOf; hide BothFollow;
      hide WebhookConfig.Ok; hide AllReachable; hide WellFormed; hide Configuration.Usable; hide Blocked;
      hide Configuration.Carrying; hide Uniform; hide Configuration.CrashesOn; hide Unwritten; hide BothDeliver;
      hide Configuration.SameSources; hide BothCarried;
      ghost var nodes, before := dir.disk.nodes, configs.api.state;
      if Clear() { OpenIsPublishable(nodes, certs); }
      ok := false;
      var written;
      ghost var mid, commit, skipped;
      written, mid, commit, skipped := dir.WriteCertsToDir(certs);
      if written != Fine { return; }
      if !dir.disk.faulted { WrittenServes(nodes, dir.disk.nodes, certs); }
      var configured := configs.Ensure(EnvWith(env, certs));
      Configuration.UsableStays(configs.api.urls, configs.api.start, before, configs.api.state);
      if Calm(certs) && BothCarried(configs.api.urls, before, EnvWith(env, certs)) {
        CarriedIsFinal(configs.api.urls, before, configs.api.state, EnvWith(env, certs), configs.api.touched);
      }
      ok := configured == Configuration.Fine;
      if BothDeliver(configs.api.urls, configs.api.state, EnvWith(env, certs), EnvWith(env, certs).caBundle) {
        BothDeliverUnder(configs.api.urls, configs.api.state, EnvWith(env, certs), env, EnvWith(env, certs).caBundle);
      }
    }

    /** One sync, with other replicas syncing at the same time. */
    method Sync(ghost c: Artifacts) returns (ok: bool, ghost given: Artifacts)
      requires Ready()
      modifies this`initialised, this`closed, secrets, dir.disk, configs.api
      ensures Ready() && old(dir.disk.log) <= dir.disk.log && old(secrets.state.time) <= secrets.state.time
      ensures initialised == (old(initialised) || ok) && configs.api.env == old(configs.api.env)
      // a success publishes certificates that are valid, and puts their CA into both configurations
      ensures ok ==> ValidBetween(old(secrets.state.time), given) && given.caCert.Some?
      ensures ok && !dir.disk.faulted ==> Holds(given)
      ensures ok && (!configs.api.disturbed || InUse(given)) ==> Delivering(given.caCert.value)
      ensures ok && Quiet(c) && StillValid(c) && old(Stored(c)) ==> given == c
      // a success makes everything follow the stored certificates, while they are valid
      ensures ok && Quiet(c) && StillValid(c) && old(Stored(c) && AllReachable(dir.disk.nodes, c)) ==> Converged(c)
      // and from then on nothing is written
      ensures Quiet(c) && StillValid(c) && old(Converged(c)) ==>
        Converged(c) && NothingWritten(old(secrets.state), old(dir.disk.log), old(configs.api.state))
      // if no call fails of itself, it succeeds, or another replica has got a configuration to
      // carry the same CA; where everything has converged, it succeeds
      ensures Quiet(c) && Sound() && StillValid(c) && old(Stored(c) && Unhindered(c)) ==>
        && Stored(c) && Unhindered(c)
        && (!configs.api.disturbed || old(Following(c)) ==> ok)
        && (!configs.api.touched ==> ok || Carrying(c) > old(Carrying(c)))
      // where nobody else is about it succeeds, whether or not there are certificates yet
      ensures !dir.disk.faulted && Sound() && !secrets.contended && !configs.api.disturbed ==>
        old(Available() && (inFiles ==> dir.Legible())) ==> ok
      ensures (!old(Quiet(c)) ==> !Quiet(c)) && (!old(Sound()) ==> !Sound())
      ensures old(configs.api.touched) ==> configs.api.touched
    {
      hide Tidy; hide Serving; hide Published; hide CertToProjectionMap; hide CertProtocol.Ok; hide FilesOf;
      hide CertProtocol.Agreed; hide AllReachable; hide WebhookConfig.Ok; hide WellFormed; hide BothCarried;
      hide CertProtocol.ValidCert; hide CertProtocol.SecretToCerts; hide CertProtocol.Complete; hide Blocked;
      hide Configuration.Usable; hide Configuration.Carrying; hide Uniform; hide Unwritten; hide BothDeliver;
      hide Delivering; hide Carrying; hide Holds; hide CertDirectory.Legible; hide CertWriter.Kept; hide EnvWith;
      hide CertWriter.Cluster.Valid; hide Publishable; hide Shows;
      UnwrittenItself(configs.api.state);
      ok := false;
      var certs;
      ok, certs := Provide(c);
      given := certs;
      if !ok { return; }
      HasCaCert(secrets, given);
      ok := Publish(certs);
      if !ok { return; }
      if !initialised {
        initialised := true;
        closed := closed + 1;
      }
    }

    /** The worker: a sync that fails is tried again. Where nothing stands in the way, no call
        fails of itself and no other client touches a configuration, three attempts are
        always enough, however the replicas race. */
    method Work(attempts: nat, ghost c: Artifacts) returns (ok: bool)
      requires Ready()
      modifies this`initialised, this`closed, secrets, dir.disk, configs.api
      ensures Ready() && (ok ==> initialised) && old(secrets.state.time) <= secrets.state.time
      ensures attempts >= 3 && Quiet(c) && Sound() && !configs.api.touched && StillValid(c) ==>
        old(Stored(c) && Unhindered(c)) ==> ok
    {
      hide Following; hide CertProtocol.ValidCert; hide CertProtocol.Ok; hide CertProtocol.Agreed; hide Tidy;
      hide WellFormed; hide WebhookConfig.Ok; hide Stored; hide Unhindered; hide Uniform;
      ok := false;
      ghost var start := Carrying(c);
      for i := 0 to attempts
        invariant Ready() && !ok && old(secrets.state.time) <= secrets.state.time
        invariant Quiet(c) && Sound() && !configs.api.touched && StillValid(c) && old(Stored(c) && Unhindered(c)) ==>
          Stored(c) && Unhindered(c) && Carrying(c) >= i
      {
        ghost var earlier := secrets.state.time;
        ghost var given;
        ok, given := Sync(c);
        if StillValid(c) { CertProtocol.EarlierIsValid(secrets.crypto, c, earlier, secrets.state.time); }
        if ok { return; }
      }
    }

    /** However often it syncs after it has converged, nothing is written any more for as
        long as the stored certificates are valid, and readiness is not signalled again; and
        where no call fails of itself, every sync succeeds. */
    method LaterSyncs(times: nat, ghost c: Artifacts) returns (ok: bool)
      requires Ready() && initialised && Converged(c)
      modifies this`initialised, this`closed, secrets, dir.disk, configs.api
      ensures Ready() && initialised && closed == old(closed)
      ensures Quiet(c) && StillValid(c) ==>
        Converged(c) && NothingWritten(old(secrets.state), old(dir.disk.log), old(configs.api.state))
      ensures Quiet(c) && Sound() && StillValid(c) && old(Unhindered(c)) ==> ok
    {
      hide Following; hide CertProtocol.ValidCert; hide CertProtocol.Ok; hide CertProtocol.Agreed; hide Tidy;
      hide WellFormed; hide WebhookConfig.Ok; hide Stored; hide Unhindered; hide Uniform; hide Unwritten;
      ok := true;
      UnwrittenItself(configs.api.state);
      for i := 0 to times
        invariant Ready() && initialised
        invariant Quiet(c) && StillValid(c) ==>
          Converged(c) && NothingWritten(old(secrets.state), old(dir.disk.log), old(configs.api.state))
        invariant Quiet(c) && Sound() && StillValid(c) && old(Unhindered(c)) ==> ok && Unhindered(c)
      {
        ghost var earlier, before, was := secrets.state.time, configs.api.state, configs.api.touched;
        var synced;
        ghost var given;
        synced, given := Sync(c);
        ok := ok && synced;
        if Unwritten(old(configs.api.state), before, was) && Unwritten(before, configs.api.state, configs.api.touched) {
          UnwrittenThen(old(configs.api.state), before, configs.api.state, was, configs.api.touched);
        }
        if StillValid(c) { CertProtocol.EarlierIsValid(secrets.crypto, c, earlier, secrets.state.time); }
      }
    }

    /** Nothing has been written since: not the disk, not a configuration, and not the Secret
        if that is the store. */
    ghost predicate NothingWritten(s: CertProtocol.State, log: seq<Tree>, t: State)
      reads secrets, dir.disk, configs.api
    {
      && (inFiles || secrets.state.store == s.store) && dir.disk.log == log
      && Unwritten(t, configs.api.state, configs.api.touched)
    }
  }

  // ---- all replicas together ----

  /** A replica begins to rewrite the configurations with certificates that it was given. */
  ghost predicate Provisioned(w: CertProtocol.Crypto, s: CertProtocol.State, run: seq<CertProtocol.Action>, base: Env,
    a: Action) {
    a.GetFirst? ==> exists m: nat, c :: m <= |run| && GivenAt(w, s, run, m, base, a, c)
  }

  predicate GivenAt(w: CertProtocol.Crypto, s: CertProtocol.State, run: seq<CertProtocol.Action>, m: nat, base: Env,
    a: Action, c: Artifacts)
    requires m <= |run| && a.GetFirst?
  {
    CertProtocol.Returned(w, s, run, m, a.i, c) && a.env == EnvWith(base, c)
  }

  lemma {:induction false} SomebodyBegins(u: Urls, t: State, run: seq<Action>, k: nat)
    requires k <= |run| && (forall i | 0 <= i < |t.replicas| :: t.replicas[i].Idle?)
    requires forall j | 0 <= j < k :: !run[j].GetFirst?
    ensures forall i | 0 <= i < |After(u, t, run, k).replicas| :: After(u, t, run, k).replicas[i].Idle?
  {
    if k > 0 { SomebodyBegins(u, t, run, k - 1); }
  }

  lemma GivenIsValid(w: CertProtocol.Crypto, s: CertProtocol.State, run: seq<CertProtocol.Action>, base: Env, a: Action,
    m: nat, c: Artifacts)
    requires w.Lasts() && CertProtocol.Fresh(s) && m <= |run| && a.GetFirst? && GivenAt(w, s, run, m, base, a, c)
    ensures c.caCert.Some?
  {
    CertProtocol.ReturnedIsValid(w, s, run, m, a.i, c, 0);
  }

  lemma GivenAlike(w: CertProtocol.Crypto, s: CertProtocol.State, run: seq<CertProtocol.Action>, base: Env, a: Action,
    m: nat, c: Artifacts, b: Action)
    requires w.Lasts() && CertProtocol.Fresh(s) && CertProtocol.OnlyReplicas(run) && m <= |run|
    requires a.GetFirst? && GivenAt(w, s, run, m, base, a, c) && Provisioned(w, s, run, base, b)
    ensures Uses(b, EnvWith(base, c))
    ensures CertProtocol.Content(CertProtocol.After(w, s, run, |run|), c)
  {
    hide CertProtocol.Returned; hide CertProtocol.Fresh;
    CertProtocol.Agreement(w, s, run, m, m, a.i, a.i, c, c);
    if b.GetFirst? {
      var n: nat, d :| n <= |run| && GivenAt(w, s, run, n, base, b, d);
      if m <= n {
        CertProtocol.Agreement(w, s, run, m, n, a.i, b.i, c, d);
      } else {
        CertProtocol.Agreement(w, s, run, n, m, b.i, a.i, d, c);
      }
    }
  }

  /** The fleet converges: any number of replicas race over the Secret and then over both
      configurations, each with what it was given. Once one of them has finished, in every
      later state both configurations carry one CA, which is the one of the stored
      certificates. */
  lemma FleetConverges(w: CertProtocol.Crypto, s: CertProtocol.State, certRun: seq<CertProtocol.Action>, base: Env,
    u: Urls, t: State, run: seq<Action>, k: nat, n: nat)
      returns (c: Artifacts)
    requires w.Lasts() && CertProtocol.Fresh(s) && CertProtocol.OnlyReplicas(certRun)
    requires forall a | a in run :: Provisioned(w, s, certRun, base, a)
    requires k < n <= |run| && (forall i | 0 <= i < |t.replicas| :: t.replicas[i].Idle?)
    requires Finishes(u, After(u, t, run, k), run[k])
    ensures CertProtocol.Content(CertProtocol.After(w, s, certRun, |certRun|), c)
    ensures BothCarried(u, After(u, t, run, n), EnvWith(base, c))
    ensures c.caCert.Some? && BothDeliver(u, After(u, t, run, n), base, c.caCert.value)
    ensures n < |run| && !run[n].Touch? ==> After(u, t, run, n + 1).configs == After(u, t, run, n).configs
  {
    hide Fits; hide GivenAt; hide CertProtocol.Fresh; hide Uniform; hide Step; hide BothDeliver;
    if forall j | 0 <= j < k :: !run[j].GetFirst? {
      SomebodyBegins(u, t, run, k);
      assert false;
    }
    var j :| 0 <= j < k && run[j].GetFirst?;
    assert run[j] in run && Provisioned(w, s, certRun, base, run[j]);
    var m: nat;
    m, c :| m <= |certRun| && GivenAt(w, s, certRun, m, base, run[j], c);
    forall i | 0 <= i < |run| ensures Uses(run[i], EnvWith(base, c)) {
      assert run[i] in run;
      GivenAlike(w, s, certRun, base, run[j], m, c, run[i]);
    }
    GivenAlike(w, s, certRun, base, run[j], m, c, run[j]);
    IdleIsUniform(u, t, EnvWith(base, c));
    RacingReplicasConverge(u, t, run, 0, k, n, EnvWith(base, c));
    GivenIsValid(w, s, certRun, base, run[j], m, c);
    BothDeliverUnder(u, After(u, t, run, n), EnvWith(base, c), base, EnvWith(base, c).caBundle);
  }
}
