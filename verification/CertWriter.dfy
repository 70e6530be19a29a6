/** The certificate writer over a Secret, call by call. Between any two calls the other
    replicas, time and other clients take any number of steps of the protocol; the code's
    own calls are steps of the replica it runs in. */
module CertWriter {
  import opened FileSystem
  import opened Wrappers
  import opened CertProtocol

  datatype Error = Fine | NotFound | AlreadyExists | Failed

  /** A step after which the replicas do not have the Secret to themselves. */
  predicate Disturbs(s: State, a: Action) { a.Edit? || a.Delete? || Blind(s, a) }

  /** Time has not gone back, and what was stored is stored for as long as it is valid. */
  ghost predicate Kept(w: Crypto, s: State, t: State, disturbed: bool) {
    && s.time <= t.time && |t.replicas| == |s.replicas|
    && (!disturbed && s.store.Some? && ValidCert(w, SecretToCerts(s.store.value.data), t.time) ==> t.store == s.store)
  }

  lemma StepKept(w: Crypto, s: State, a: Action, disturbed: bool)
    requires w.OnlyExpires() && Ok(w, s)
    ensures Kept(w, s, Step(w, s, a), disturbed || Disturbs(s, a))
  {
    StepKeepsOk(w, s, a);
    if !Disturbs(s, a) && ByReplica(a) && s.store.Some? && Step(w, s, a).store != s.store {
      ValidIsNeverReplaced(w, s, a);
    }
  }

  lemma KeptThen(w: Crypto, s: State, t: State, u: State, before: bool, disturbed: bool)
    requires w.OnlyExpires() && Kept(w, s, t, before) && Kept(w, t, u, disturbed) && (before ==> disturbed)
    ensures Kept(w, s, u, disturbed)
  {
  }

  class Cluster {
    const crypto: Crypto
    var state: State
    /** Whether another client edited the Secret, or an overwrite was blind. */
    ghost var disturbed: bool
    /** Whether anybody but the replica that looks changed the Secret, and whether a call of
        that replica, or a generation, failed of itself; both since they were last false. */
    ghost var contended: bool
    ghost var faulted: bool

    constructor (crypto: Crypto, state: State)
      requires crypto.OnlyExpires() && Fresh(state)
      ensures Valid() && this.crypto == crypto && this.state == state && !disturbed && !contended && !faulted
    {
      this.crypto, this.state, disturbed, contended, faulted := crypto, state, false, false, false;
    }

    ghost predicate Valid()
      reads this
    {
      crypto.OnlyExpires() && Ok(crypto, state) && (!disturbed ==> Agreed(crypto, state))
    }

    method Take(a: Action)
      requires Valid()
      modifies this`state, this`disturbed
      ensures Valid() && state == Step(crypto, old(state), a)
        && disturbed == (old(disturbed) || Disturbs(old(state), a))
      ensures Since(old(state), old(disturbed))
    {
      StepKeepsOk(crypto, state, a);
      StepKept(crypto, state, a, disturbed);
      if !disturbed && !Disturbs(state, a) { StepAgrees(crypto, state, a); }
      disturbed := disturbed || Disturbs(state, a);
      state := Step(crypto, state, a);
    }

    /** What lies between state `s` and now, with everybody taking steps. */
    ghost predicate Since(s: State, was: bool)
      reads this
    {
      Kept(crypto, s, state, disturbed) && (was ==> disturbed)
    }

    method SomeAction() returns (a: Action) {
      a := *;
    }

    /** Flags are only ever raised. */
    ghost predicate Raised(wasContended: bool, wasFaulted: bool)
      reads this
    {
      (wasContended ==> contended) && (wasFaulted ==> faulted)
    }

    method Fails() returns (failed: bool)
      modifies this`faulted
      ensures faulted == (old(faulted) || failed)
    {
      failed := *;
      faulted := faulted || failed;
    }

    /** Whatever everybody but replica `me` does meanwhile. */
    method Others(me: nat)
      requires Valid() && me < |state.replicas|
      modifies this`state, this`disturbed, this`contended
      ensures Valid() && Since(old(state), old(disturbed))
      ensures |state.replicas| == |old(state).replicas| && state.replicas[me] == old(state).replicas[me]
      ensures (old(contended) ==> contended) && (!contended ==> state.store == old(state).store)
    {
      var steps: int := *;
      for k := 0 to if steps > 0 then steps else 0
        invariant Valid() && Since(old(state), old(disturbed))
        invariant state.replicas[me] == old(state).replicas[me]
        invariant (old(contended) ==> contended) && (!contended ==> state.store == old(state).store)
      {
        var a := SomeAction();
        if !ByReplica(a) || a.i != me {
          ghost var s, was := state, disturbed;
          Take(a);
          StepKeepsOthers(crypto, s, a, me);
          KeptThen(crypto, old(state), s, state, was, disturbed);
          contended := contended || state.store != s.store;
        }
      }
    }
  }

  /** What holds since an earlier state, carried on. */
  lemma SinceThen(api: Cluster, s: State, was: bool, t: State, wasThen: bool)
    requires api.Valid() && Kept(api.crypto, s, t, wasThen) && (was ==> wasThen) && api.Since(t, wasThen)
    ensures api.Since(s, was) && t.time <= api.state.time
  {
    KeptThen(api.crypto, s, t, api.state, wasThen, api.disturbed);
  }

  lemma SinceNow(api: Cluster)
    ensures api.Since(api.state, api.disturbed)
  {
  }

  lemma OlderVersion(api: Cluster)
    requires api.Valid()
    ensures api.state.store.Some? ==> api.state.store.value.version < api.state.next
  {
  }

  class SelfSignedCertGenerator {
    var caKey: Option<Bytes>
    var caCert: Option<Bytes>

    constructor ()
      ensures Signer() == None
    {
      caKey, caCert := None, None;
    }

    function Signer(): Option<Ca>
      reads this
    {
      if caKey.Some? && caCert.Some? then Some(Ca(caKey.value, caCert.value)) else None
    }

    method SetCA(key: Option<Bytes>, cert: Option<Bytes>)
      modifies this
      ensures caKey == key && caCert == cert
    {
      caKey, caCert := key, cert;
    }

    /** The given CA signs while it may; otherwise a new one is made. Any part may fail. */
    method Generate(crypto: Crypto, now: nat) returns (e: Error, certs: Artifacts)
      ensures e in {Fine, Failed}
      ensures e == Fine ==> Made(crypto, now, Signer(), certs)
    {
      certs := *;
      e := Failed;
      var signer: Ca := *;
      if caKey.Some? && caCert.Some? && crypto.caOk(Ca(caKey.value, caCert.value), now) {
        signer := Ca(caKey.value, caCert.value);
      } else if * {
        return;
      }
      certs := certs.(caKey := Some(signer.key), caCert := Some(signer.cert));
      if Complete(certs) && ValidCert(crypto, certs, now) { e := Fine; }
    }
  }

  class SecretCertWriter {
    const api: Cluster
    const me: nat
    const generator: SelfSignedCertGenerator
    var dnsName: string

    constructor (api: Cluster, me: nat, generator: SelfSignedCertGenerator)
      ensures this.api == api && this.me == me && this.generator == generator
    {
      this.api, this.me, this.generator, dnsName := api, me, generator, "";
    }

    ghost predicate Valid()
      reads this, api, generator
    {
      api.Valid() && me < |api.state.replicas| && generator.Signer() == api.state.replicas[me].ca
    }

    function Pc(): Pc
      reads this, api
      requires me < |api.state.replicas|
    {
      api.state.replicas[me].pc
    }

    /** Whatever the others do before the code's next call. */
    method Wait(ghost s: State, ghost was: bool)
      requires Valid() && api.Since(s, was)
      modifies api`state, api`disturbed, api`contended
      ensures Valid() && api.Since(s, was) && api.Since(old(api.state), old(api.disturbed))
      ensures old(api.state.time) <= api.state.time
      ensures api.state.replicas[me] == old(api.state).replicas[me]
      ensures (old(api.contended) ==> api.contended) && (!api.contended ==> api.state.store == old(api.state).store)
    {
      hide Kept; hide Ok; hide Agreed;
      ghost var t, now := api.state, api.disturbed;
      api.Others(me);
      SinceThen(api, s, was, t, now);
    }

    /** A step of the code. */
    method Act(a: Action, ghost s: State, ghost was: bool)
      requires api.Valid() && ByReplica(a) && a.i == me < |api.state.replicas| && api.Since(s, was)
      modifies api`state, api`disturbed
      ensures api.Valid() && api.state == Step(api.crypto, old(api.state), a)
      ensures |api.state.replicas| == |old(api.state).replicas|
      ensures api.Since(s, was) && api.Since(old(api.state), old(api.disturbed))
    {
      hide Kept; hide Ok; hide Agreed; hide Step;
      ghost var t, now := api.state, api.disturbed;
      StepKeepsOk(api.crypto, t, a);
      api.Take(a);
      SinceThen(api, s, was, t, now);
    }

    /** The Secret is there, and it has this version, if any is given. */
    ghost predicate UpToDate(version: Option<nat>)
      reads this, api
    {
      api.state.store.Some? && (version.Some? ==> version.value == api.state.store.value.version)
    }

    method Read() returns (e: Error, certs: Artifacts, version: nat)
      requires Valid() && (Pc().Reading? || Pc().Rereading?)
      modifies api, generator
      ensures Valid()
      ensures api.Since(old(api.state), old(api.disturbed))
      ensures match e
        case Fine => Pc().Checking? && Pc().certs == certs && Pc().version == Some(version) && Content(api.state, certs)
        case NotFound => Pc() == (if old(Pc()).Reading? then Creating else Idle) && api.state.store.None?
        case _ => Pc() == Idle
      ensures e != AlreadyExists
      ensures api.Raised(old(api.contended), old(api.faulted)) && (!api.faulted ==> e != Failed)
      ensures !api.contended ==> api.state.store == old(api.state.store)
      ensures e == Fine ==> UpToDate(Some(version))
    {
      hide Ok; hide Agreed; hide ValidCert; hide Kept; hide Blind; hide Crypto.OnlyExpires;
      certs, version := NO_CERTS, 0;
      ghost var s, was := api.state, api.disturbed;
      SinceNow(api);
      Wait(s, was);
      var failed := api.Fails();
      if failed {
        Act(Get(me, false), s, was);
        return Failed, certs, version;
      }
      var found := api.state.store;
      Act(Get(me, true), s, was);
      if found.None? { return NotFound, certs, version; }
      certs, version := SecretToCerts(found.value.data), found.value.version;
      if certs.caCert.Some? && certs.caKey.Some? {
        generator.SetCA(certs.caKey, certs.caCert);
      }
      e := Fine;
    }

    /** Generates for the Secret that is to be written. */
    method BuildSecret() returns (e: Error, certs: Artifacts)
      requires Valid() && (Pc().Creating? || Pc().Renewing?)
      modifies api
      ensures Valid() && api.Since(old(api.state), old(api.disturbed)) && e in {Fine, Failed}
      ensures e == Failed ==> Pc() == Idle
      ensures e == Fine ==>
        (if old(Pc()).Creating? then Pc().Posting? else Pc().Updating? && Pc().version == old(Pc()).version)
      ensures e == Fine ==> Pc().made == certs && old(api.state.time) <= Pc().at
      ensures api.Raised(old(api.contended), old(api.faulted)) && (!api.faulted ==> e == Fine)
      ensures !api.contended ==> api.state.store == old(api.state.store)
    {
      hide Ok; hide Agreed; hide ValidCert; hide Kept; hide Blind; hide Crypto.OnlyExpires; hide SecretToCerts;
      ghost var s, was := api.state, api.disturbed;
      SinceNow(api);
      Wait(s, was);
      e, certs := generator.Generate(api.crypto, api.state.time);
      api.faulted := api.faulted || e != Fine;
      Act(Action.Generate(me, if e == Fine then Some(certs) else None), s, was);
    }

    /** A call that fails may have taken effect. */
    method SomeFailure() returns (outcome: Outcome)
      ensures !outcome.Reported?
    {
      outcome := *;
      if outcome.Reported? { outcome := Unreported; }
    }

    method Write() returns (e: Error, certs: Artifacts)
      requires Valid() && Pc().Creating?
      modifies api
      ensures Valid() && api.Since(old(api.state), old(api.disturbed))
      ensures match e
        case Fine => Pc().Checking? && Pc().certs == certs && Pc().version == None
        case AlreadyExists => Pc() == Rereading && api.state.store.Some?
        case _ => Pc() == Idle
      ensures e != NotFound
      ensures api.Raised(old(api.contended), old(api.faulted)) && (!api.faulted ==> e != Failed)
      ensures !api.contended && old(api.state.store).None? ==> e != AlreadyExists
      ensures e == Fine && !api.contended ==> old(api.state.store).None?
      ensures e == Fine ==> UpToDate(None)
    {
      hide Ok; hide Agreed; hide ValidCert; hide SecretToCerts; hide CertsToSecret; hide Made; hide Kept;
      hide Blind; hide Crypto.OnlyExpires;
      ghost var s, was := api.state, api.disturbed;
      e, certs := BuildSecret();
      if e != Fine { return; }
      Wait(s, was);
      var failed := api.Fails();
      if failed {
        var outcome := SomeFailure();
        Act(Post(me, outcome), s, was);
        return Failed, certs;
      }
      var taken := api.state.store.Some?;
      Act(Post(me, Reported), s, was);
      e := if taken then AlreadyExists else Fine;
    }

    method Overwrite(version: Option<nat>) returns (e: Error, certs: Artifacts)
      requires Valid() && Pc().Renewing? && Pc().version == version
      modifies api
      ensures Valid() && api.Since(old(api.state), old(api.disturbed))
      ensures e in {Fine, Failed}
      ensures e == Fine ==> Pc().Done? && Pc().certs == certs && old(api.state.time) <= Pc().at
      ensures e == Failed ==> Pc() == Idle
      ensures api.Raised(old(api.contended), old(api.faulted))
      ensures !api.faulted && !api.contended && old(UpToDate(version)) ==> e == Fine
      ensures e == Fine ==> api.state.store.Some? && (!api.contended ==> api.state.store != old(api.state.store))
    {
      hide Ok; hide Agreed; hide ValidCert; hide SecretToCerts; hide CertsToSecret; hide Made; hide Kept;
      hide Blind; hide Crypto.OnlyExpires;
      ghost var s, was := api.state, api.disturbed;
      e, certs := BuildSecret();
      if e != Fine { return; }
      Wait(s, was);
      var failed := api.Fails();
      var outcome := Reported;
      if failed {
        outcome := SomeFailure();
      }
      OlderVersion(api);
      Act(Put(me, outcome), s, was);
      e := if Pc().Done? then Fine else Failed;
    }

    method CreateIfNotExists() returns (e: Error, certs: Artifacts, version: Option<nat>, changed: bool)
      requires Valid() && Pc().Reading?
      modifies api, generator
      ensures Valid() && api.Since(old(api.state), old(api.disturbed))
      ensures if e == Fine then Pc().Checking? && Pc().certs == certs && Pc().version == version else Pc() == Idle
      ensures e == Fine && !api.disturbed && old(api.state.store).Some? ==>
        var c := SecretToCerts(old(api.state.store).value.data);
        ValidCert(api.crypto, c, api.state.time) ==> certs == c && !changed
      ensures api.Raised(old(api.contended), old(api.faulted))
      ensures !api.faulted && (!api.contended || StillThere(old(api.state))) ==> e == Fine
      ensures e == Fine && !api.contended ==> UpToDate(version)
      ensures e == Fine && !api.contended ==> ChangedIff(old(api.state.store), changed)
      ensures e == Fine && !api.contended && changed ==> old(api.state.store).None?
    {
      var read;
      e, certs, read := Read();
      version, changed := Some(read), false;
      if e == NotFound {
        changed := true;
        e, certs := Write();
        version := None;
        if e == AlreadyExists {
          e, certs, read := Read();
          version := Some(read);
        }
      }
    }

    /** Whether the Secret is another one than before. */
    ghost predicate ChangedIff(store: Option<Secret>, changed: bool)
      reads this, api
    {
      changed <==> api.state.store != store
    }

    /** The Secret held, before, a certificate that is valid now, and was left to the replicas. */
    ghost predicate StillThere(s: State)
      reads this, api
    {
      && !api.disturbed && s.store.Some?
      && ValidCert(api.crypto, SecretToCerts(s.store.value.data), api.state.time)
    }

    method HandleCommon(dnsName: string) returns (e: Error, certs: Artifacts, changed: bool)
      requires api.Valid() && me < |api.state.replicas| && Pc().Idle?
      requires generator.Signer() in {None, api.state.replicas[me].ca}
      modifies api, generator
      ensures api.Valid() && me < |api.state.replicas| && api.Since(old(api.state), old(api.disturbed))
      ensures generator.Signer() in {None, api.state.replicas[me].ca}
      ensures if e == Fine then dnsName != "" && Pc().Done? && Pc().certs == certs && old(api.state.time) <= Pc().at
        else Pc() == Idle
      ensures e == Fine && !api.disturbed && old(api.state.store).Some? ==>
        var c := SecretToCerts(old(api.state.store).value.data);
        ValidCert(api.crypto, c, api.state.time) ==> certs == c && !changed
      ensures api.Raised(old(api.contended), old(api.faulted))
      ensures dnsName != "" && !api.faulted && (!api.contended || StillThere(old(api.state))) ==> e == Fine
      ensures e == Fine && !api.contended ==> ChangedIff(old(api.state.store), changed)
    {
      hide Ok; hide Agreed; hide SecretToCerts; hide CertsToSecret; hide Made; hide ValidCert; hide Kept;
      certs, changed := NO_CERTS, false;
      SinceNow(api);
      if dnsName == "" { return Failed, certs, false; }
      ghost var s, was := api.state, api.disturbed;
      Act(Begin(me, generator.Signer() == api.state.replicas[me].ca), s, was);
      ghost var begun, wasThen := api.state, api.disturbed;
      var version;
      e, certs, version, changed := CreateIfNotExists();
      SinceThen(api, s, was, begun, wasThen);
      if e != Fine { return; }
      ghost var read := api.state.time;
      var valid := Judge(certs, version, s, was);
      ghost var judged, wasLater := api.state, api.disturbed;
      if !valid {
        e, certs := Overwrite(version);
        SinceThen(api, s, was, judged, wasLater);
        changed := e == Fine;
      }
      StaysValid(s, read, judged.time);
    }

    /** What was read or made is judged, after whatever the others do. */
    method Judge(certs: Artifacts, version: Option<nat>, ghost s: State, ghost was: bool) returns (valid: bool)
      requires Valid() && Pc().Checking? && Pc().certs == certs && Pc().version == version && api.Since(s, was)
      modifies api`state, api`disturbed, api`contended
      ensures Valid() && api.Since(s, was) && old(api.state.time) <= api.state.time
      ensures (old(api.disturbed) ==> api.disturbed) && (valid <==> ValidCert(api.crypto, certs, api.state.time))
      ensures if valid then Pc() == Done(certs, api.state.time)
        else Pc().Renewing? && Pc().certs == certs && Pc().version == version
      ensures (old(api.contended) ==> api.contended) && (!api.contended ==> api.state.store == old(api.state.store))
    {
      hide Ok; hide Agreed; hide SecretToCerts; hide CertsToSecret; hide Made; hide ValidCert; hide Kept;
      Wait(s, was);
      valid := ValidCert(api.crypto, certs, api.state.time);
      Act(Check(me), s, was);
    }

    /** What is valid now and was there before was valid at these times between. */
    lemma StaysValid(s: State, read: nat, judged: nat)
      requires api.Valid() && read <= judged <= api.state.time
      ensures s.store.Some? ==>
        var c := SecretToCerts(s.store.value.data);
        ValidCert(api.crypto, c, api.state.time) ==> ValidCert(api.crypto, c, read) && ValidCert(api.crypto, c, judged)
    {
    }

    /** What EnsureCert returns was valid at some moment during the call; it is the Secret's
        content for as long as it is valid and the Secret is left to the replicas; and if
        the content at the start is valid all along, it is returned and nothing is written. */
    method EnsureCert(dnsName: string) returns (e: Error, certs: Artifacts, changed: bool)
      requires api.Valid() && me < |api.state.replicas| && (Pc().Idle? || Pc().Done?)
      requires generator.Signer() in {None, api.state.replicas[me].ca}
      requires dnsName in {"", api.crypto.dnsName}
      modifies this`dnsName, api, generator
      ensures api.Valid() && me < |api.state.replicas| && this.dnsName == dnsName
      ensures api.Since(old(api.state), old(api.disturbed))
      ensures generator.Signer() in {None, api.state.replicas[me].ca}
      ensures dnsName == "" ==> e != Fine
      ensures e != Fine ==> Pc().Idle?
      ensures e == Fine ==> Pc().Done? && Pc().certs == certs
      ensures e == Fine ==> old(api.state.time) <= Pc().at <= api.state.time && ValidCert(api.crypto, certs, Pc().at)
      ensures e == Fine && !api.disturbed && ValidCert(api.crypto, certs, api.state.time) ==> Content(api.state, certs)
      ensures e == Fine && !api.disturbed && old(api.state.store).Some? ==>
        var c := SecretToCerts(old(api.state.store).value.data);
        ValidCert(api.crypto, c, api.state.time) ==> certs == c && !changed && api.state.store == old(api.state.store)
      // if nothing fails of itself, it succeeds where nobody else changes the Secret, and where
      // what the Secret holds stays valid
      ensures dnsName != "" && !api.faulted && (!api.contended || StillThere(old(api.state))) ==> e == Fine
      ensures api.Raised(old(api.contended), old(api.faulted))
      // where nobody else changes the Secret, it says whether it did
      ensures e == Fine && !api.contended ==> ChangedIff(old(api.state.store), changed)
    {
      this.dnsName := dnsName;
      if Pc().Done? { api.Take(Return(me)); }
      e, certs, changed := HandleCommon(dnsName);
      if e == Fine {
        assert HeldIsStored(api.crypto, api.state, Pc()) || api.disturbed;
        assert ReplicaOk(api.crypto, api.state, api.state.replicas[me]);
      }
    }
  }
}
