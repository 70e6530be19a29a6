/** Any number of replicas racing to create, read, judge and overwrite one Secret. A step is
    one call to the API server, one generation or one judgement; calls may be lost, or take
    effect without being reported. */
module CertProtocol {
  import opened FileSystem
  import opened Wrappers

  // ---- certificates and the Secret that holds them ----

  datatype Artifacts = Artifacts(caKey: Option<Bytes>, caCert: Option<Bytes>, cert: Option<Bytes>, key: Option<Bytes>)
  datatype Ca = Ca(key: Bytes, cert: Bytes)

  /** A Secret's data: missing altogether, or a map in which a key may hold nothing. */
  type Data = Option<map<string, Option<Bytes>>>
  datatype Secret = Secret(version: nat, data: Data)

  const CA_KEY_NAME := "ca-key.pem"
  const CA_CERT_NAME := "ca-cert.pem"
  const SERVER_KEY_NAME := "key.pem"
  const SERVER_KEY_NAME2 := "tls.key"
  const SERVER_CERT_NAME := "cert.pem"
  const SERVER_CERT_NAME2 := "tls.crt"

  lemma KeyNames()
    ensures CA_KEY_NAME != CA_CERT_NAME && CA_KEY_NAME != SERVER_KEY_NAME && CA_KEY_NAME != SERVER_CERT_NAME
    ensures CA_CERT_NAME != SERVER_KEY_NAME && CA_CERT_NAME != SERVER_CERT_NAME && SERVER_KEY_NAME != SERVER_CERT_NAME
    ensures {SERVER_KEY_NAME2, SERVER_CERT_NAME2} !! {CA_KEY_NAME, CA_CERT_NAME, SERVER_KEY_NAME, SERVER_CERT_NAME}
    ensures SERVER_KEY_NAME2 != SERVER_CERT_NAME2
  {
    assert SERVER_KEY_NAME2[0] == 't' && SERVER_CERT_NAME2[0] == 't' && SERVER_KEY_NAME[0] == 'k'
      && SERVER_CERT_NAME[0] == 'c';
    assert SERVER_CERT_NAME[1] == 'e' && CA_KEY_NAME[1] == 'a' && CA_CERT_NAME[1] == 'a' && CA_KEY_NAME[0] == 'c'
      && CA_CERT_NAME[0] == 'c';
    assert |CA_KEY_NAME| != |CA_CERT_NAME|;
    assert SERVER_KEY_NAME2[4] == 'k' && SERVER_CERT_NAME2[4] == 'c';
  }

  const NO_CERTS := Artifacts(None, None, None, None)

  function At(m: map<string, Option<Bytes>>, k: string): Option<Bytes> { if k in m then m[k] else None }

  function SecretToCerts(data: Data): Artifacts {
    if data.None? then NO_CERTS
    else
      var m := data.value;
      Artifacts(At(m, CA_KEY_NAME), At(m, CA_CERT_NAME), At(m, SERVER_CERT_NAME), At(m, SERVER_KEY_NAME))
  }

  function CertsToSecret(c: Artifacts): Data {
    Some(map[CA_KEY_NAME := c.caKey, CA_CERT_NAME := c.caCert, SERVER_KEY_NAME := c.key, SERVER_KEY_NAME2 := c.key,
             SERVER_CERT_NAME := c.cert, SERVER_CERT_NAME2 := c.cert])
  }

  /** What is stored is what is read back, and it is stored under the names that others know. */
  lemma SecretRoundTrip(c: Artifacts)
    ensures SecretToCerts(CertsToSecret(c)) == c
    ensures var m := CertsToSecret(c).value;
      && {"ca-key.pem", "ca-cert.pem", "cert.pem", "key.pem", "tls.crt", "tls.key"} == m.Keys
      && m["ca-key.pem"] == c.caKey && m["ca-cert.pem"] == c.caCert
      && m["cert.pem"] == m["tls.crt"] == c.cert && m["key.pem"] == m["tls.key"] == c.key
  {
    KeyNames();
  }

  function CaOf(c: Artifacts): Option<Ca> {
    if c.caKey.Some? && c.caCert.Some? then Some(Ca(c.caKey.value, c.caCert.value)) else None
  }

  predicate Complete(c: Artifacts) { c.caKey.Some? && c.caCert.Some? && c.cert.Some? && c.key.Some? }

  /** Cryptography, for one DNS name: whether a key and a certificate are a pair that the
      CA vouches for at a time, and whether a CA may still sign. */
  datatype Crypto = Crypto(dnsName: string, verifies: (Bytes, Bytes, Bytes, nat) -> bool, caOk: (Ca, nat) -> bool) {
    /** Time only ever takes validity away. */
    ghost predicate OnlyExpires() {
      forall ca, cert, key, t, u :: t <= u && verifies(ca, cert, key, u) ==> verifies(ca, cert, key, t)
    }

    /** Nothing expires while we look. */
    ghost predicate Lasts() {
      forall ca, cert, key, t, u :: verifies(ca, cert, key, u) ==> verifies(ca, cert, key, t)
    }
  }

  predicate ValidCert(w: Crypto, c: Artifacts, now: nat) {
    c.cert.Some? && c.key.Some? && c.caCert.Some? && w.verifies(c.caCert.value, c.cert.value, c.key.value, now)
  }

  /** What a generation may return: complete, valid, and signed by the CA it was given
      while that CA may still sign. */
  predicate Made(w: Crypto, now: nat, ca: Option<Ca>, c: Artifacts) {
    Complete(c) && ValidCert(w, c, now) && (ca.Some? && w.caOk(ca.value, now) ==> CaOf(c) == ca)
  }

  // ---- replicas ----

  /** Where a replica is. A missing version is the empty one, which overwrites whatever is
      there; `born` is when the certificates were read or made. */
  datatype Pc =
    | Idle
    | Reading
    | Creating
    | Posting(made: Artifacts, at: nat)
    | Rereading
    | Checking(certs: Artifacts, version: Option<nat>, born: nat)
    | Renewing(certs: Artifacts, version: Option<nat>, born: nat)
    | Updating(certs: Artifacts, version: Option<nat>, born: nat, made: Artifacts, at: nat)
    | Done(certs: Artifacts, at: nat)

  datatype Replica = Replica(ca: Option<Ca>, pc: Pc)
  datatype State = State(time: nat, next: nat, store: Option<Secret>, replicas: seq<Replica>)

  datatype Outcome = Reported | Unreported | Lost

  datatype Action =
    | Tick
    | Edit(data: Data)
    | Delete
    | Begin(i: nat, keepCa: bool)
    | Get(i: nat, reached: bool)
    | Generate(i: nat, result: Option<Artifacts>)
    | Post(i: nat, outcome: Outcome)
    | Check(i: nat)
    | Put(i: nat, outcome: Outcome)
    | Return(i: nat)
    | Crash(i: nat)

  predicate ByReplica(a: Action) { !a.Tick? && !a.Edit? && !a.Delete? }

  function Moved(s: State, i: nat, pc: Pc): State
    requires i < |s.replicas|
  {
    s.(replicas := s.replicas[i := s.replicas[i].(pc := pc)])
  }

  /** A write that the server accepts. */
  function Stored(s: State, data: Data): State { s.(store := Some(Secret(s.next, data)), next := s.next + 1) }

  function StepGet(s: State, i: nat, reached: bool): State
    requires i < |s.replicas|
  {
    var r := s.replicas[i];
    if !(r.pc.Reading? || r.pc.Rereading?) then s
    else if !reached then Moved(s, i, Idle)
    else if s.store.None? then Moved(s, i, if r.pc.Reading? then Creating else Idle)
    else
      var c := SecretToCerts(s.store.value.data);
      var ca := if CaOf(c).Some? then CaOf(c) else r.ca;
      s.(replicas := s.replicas[i := Replica(ca, Checking(c, Some(s.store.value.version), s.time))])
  }

  function StepGenerate(w: Crypto, s: State, i: nat, result: Option<Artifacts>): State
    requires i < |s.replicas|
  {
    var r := s.replicas[i];
    if !(r.pc.Creating? || r.pc.Renewing?) then s
    else if result.None? then Moved(s, i, Idle)
    else if !Made(w, s.time, r.ca, result.value) then s
    else if r.pc.Creating? then Moved(s, i, Posting(result.value, s.time))
    else Moved(s, i, Updating(r.pc.certs, r.pc.version, r.pc.born, result.value, s.time))
  }

  function StepPost(s: State, i: nat, outcome: Outcome): State
    requires i < |s.replicas|
  {
    var r := s.replicas[i];
    if !r.pc.Posting? then s
    else if outcome.Lost? then Moved(s, i, Idle)
    else if s.store.Some? then Moved(s, i, if outcome.Reported? then Rereading else Idle)
    else
      var next := if outcome.Reported? then Checking(r.pc.made, None, r.pc.at) else Idle;
      Moved(Stored(s, CertsToSecret(r.pc.made)), i, next)
  }

  function StepCheck(w: Crypto, s: State, i: nat): State
    requires i < |s.replicas|
  {
    var r := s.replicas[i];
    if !r.pc.Checking? then s
    else if ValidCert(w, r.pc.certs, s.time) then Moved(s, i, Done(r.pc.certs, s.time))
    else Moved(s, i, Renewing(r.pc.certs, r.pc.version, r.pc.born))
  }

  /** The server accepts an update that carries the present version, or the empty one. */
  function StepPut(s: State, i: nat, outcome: Outcome): State
    requires i < |s.replicas|
  {
    var r := s.replicas[i];
    if !r.pc.Updating? then s
    else if outcome.Lost? || s.store.None? || (r.pc.version.Some? && r.pc.version.value != s.store.value.version)
      then Moved(s, i, Idle)
    else Moved(Stored(s, CertsToSecret(r.pc.made)), i, if outcome.Reported? then Done(r.pc.made, r.pc.at) else Idle)
  }

  /** One step; an action that cannot be taken changes nothing. */
  function Step(w: Crypto, s: State, a: Action): State {
    if a.Tick? then s.(time := s.time + 1)
    else if a.Edit? then Stored(s, a.data)
    else if a.Delete? then s.(store := None)
    else if a.i >= |s.replicas| then s
    else
      match a
      case Begin(i, keepCa) =>
        if !s.replicas[i].pc.Idle? then s
        else s.(replicas := s.replicas[i := Replica(if keepCa then s.replicas[i].ca else None, Reading)])
      case Get(i, reached) => StepGet(s, i, reached)
      case Generate(i, result) => StepGenerate(w, s, i, result)
      case Post(i, outcome) => StepPost(s, i, outcome)
      case Check(i) => StepCheck(w, s, i)
      case Put(i, outcome) => StepPut(s, i, outcome)
      case Return(i) => if s.replicas[i].pc.Done? then Moved(s, i, Idle) else s
      case Crash(i) => s.(replicas := s.replicas[i := Replica(None, Idle)])
  }

  function After(w: Crypto, s: State, run: seq<Action>, n: nat): State
    requires n <= |run|
  {
    if n == 0 then s else Step(w, After(w, s, run, n - 1), run[n - 1])
  }

  // ---- the invariant ----

  predicate Content(s: State, c: Artifacts) { s.store.Some? && SecretToCerts(s.store.value.data) == c }

  /** What a replica that remembers version `v` of the Secret knows about it. */
  predicate Remembers(s: State, certs: Artifacts, v: nat) {
    v < s.next && (s.store.Some? && s.store.value.version == v ==> Content(s, certs))
  }

  /** Certificates are remembered with the version they were read at, or were made by the
      replica itself and valid then. */
  predicate Knows(w: Crypto, s: State, certs: Artifacts, version: Option<nat>, born: nat) {
    born <= s.time && if version.Some? then Remembers(s, certs, version.value) else ValidCert(w, certs, born)
  }

  /** Reading a Secret that has a CA put that CA into the replica's generator. */
  predicate CarriesCa(r: Replica, certs: Artifacts, version: Option<nat>) {
    version.Some? && CaOf(certs).Some? ==> r.ca == CaOf(certs)
  }

  predicate ReplicaOk(w: Crypto, s: State, r: Replica) {
    match r.pc
    case Posting(made, at) => Complete(made) && at <= s.time && ValidCert(w, made, at)
    case Checking(certs, version, born) => Knows(w, s, certs, version, born) && CarriesCa(r, certs, version)
    case Renewing(certs, version, born) =>
      Knows(w, s, certs, version, born) && CarriesCa(r, certs, version) && !ValidCert(w, certs, s.time)
    case Updating(certs, version, born, made, at) =>
      && Knows(w, s, certs, version, born) && !ValidCert(w, certs, s.time)
      && Complete(made) && at <= s.time && ValidCert(w, made, at)
      && (version.Some? && CaOf(certs).Some? && w.caOk(CaOf(certs).value, at) ==> CaOf(made) == CaOf(certs))
    case Done(certs, at) => at <= s.time && ValidCert(w, certs, at)
    case _ => true
  }

  predicate Ok(w: Crypto, s: State) {
    (s.store.Some? ==> s.store.value.version < s.next) && forall i | 0 <= i < |s.replicas| ::
      ReplicaOk(w, s, s.replicas[i])
  }

  /** Time that passes and Secrets that are written leave what another replica knows true. */
  lemma ReplicaStaysOk(w: Crypto, s: State, t: State, r: Replica)
    requires w.OnlyExpires() && ReplicaOk(w, s, r) && s.time <= t.time && s.next <= t.next
    requires t.store == s.store || t.store.None? || t.store.value.version == s.next
    ensures ReplicaOk(w, t, r)
  {
  }

  lemma StepKeepsOthers(w: Crypto, s: State, a: Action, i: nat)
    requires i < |s.replicas| && (!ByReplica(a) || a.i != i)
    ensures var t := Step(w, s, a);
      && |t.replicas| == |s.replicas| && t.replicas[i] == s.replicas[i]
      && s.time <= t.time && s.next <= t.next
      && (t.store == s.store || t.store.None? || (t.store.value.version == s.next < t.next))
  {
  }

  lemma StepKeepsOwn(w: Crypto, s: State, a: Action)
    requires w.OnlyExpires() && Ok(w, s) && ByReplica(a) && a.i < |s.replicas|
    ensures var t := Step(w, s, a); |t.replicas| == |s.replicas| && ReplicaOk(w, t, t.replicas[a.i])
  {
    assert ReplicaOk(w, s, s.replicas[a.i]);
  }

  /** Every step of every replica, of time and of other clients keeps the invariant. */
  lemma StepKeepsOk(w: Crypto, s: State, a: Action)
    requires w.OnlyExpires() && Ok(w, s)
    ensures Ok(w, Step(w, s, a)) && s.time <= Step(w, s, a).time && |Step(w, s, a).replicas| == |s.replicas|
  {
    var t := Step(w, s, a);
    forall i | 0 <= i < |t.replicas| ensures ReplicaOk(w, t, t.replicas[i]) {
      if ByReplica(a) && a.i == i {
        StepKeepsOwn(w, s, a);
      } else {
        StepKeepsOthers(w, s, a, i);
        ReplicaStaysOk(w, s, t, s.replicas[i]);
      }
    }
  }

  lemma {:induction false} RunKeepsOk(w: Crypto, s: State, run: seq<Action>, n: nat)
    requires w.OnlyExpires() && Ok(w, s) && n <= |run|
    ensures Ok(w, After(w, s, run, n)) && |After(w, s, run, n).replicas| == |s.replicas|
    ensures s.time <= After(w, s, run, n).time
  {
    hide Step; hide Ok;
    if n > 0 {
      RunKeepsOk(w, s, run, n - 1);
      StepKeepsOk(w, After(w, s, run, n - 1), run[n - 1]);
    }
  }

  // ---- a valid certificate is never replaced ----

  /** An overwrite that carries the empty version and so replaces whatever is there. */
  predicate Blind(s: State, a: Action) {
    a.Put? && a.i < |s.replicas| && s.replicas[a.i].pc.Updating? && s.replicas[a.i].pc.version.None?
  }

  /** What a replica writes over was invalid at that moment, unless the overwrite is blind;
      and an overwrite is blind only when what its replica had just made and stored itself
      expired before the replica could judge it. */
  lemma ValidIsNeverReplaced(w: Crypto, s: State, a: Action)
    requires w.OnlyExpires() && Ok(w, s) && ByReplica(a) && s.store.Some? && Step(w, s, a).store != s.store
    ensures Step(w, s, a).store.Some?
    ensures ValidCert(w, SecretToCerts(s.store.value.data), s.time) ==> Blind(s, a)
    ensures Blind(s, a) ==>
      var pc := s.replicas[a.i].pc; ValidCert(w, pc.certs, pc.born) && !ValidCert(w, pc.certs, s.time)
  {
    assert ReplicaOk(w, s, s.replicas[a.i]);
  }

  /** So exactly the blind overwrites that reach the server replace valid content. */
  lemma ValidIsReplacedIff(w: Crypto, s: State, a: Action)
    requires w.OnlyExpires() && Ok(w, s) && ByReplica(a) && s.store.Some?
    requires ValidCert(w, SecretToCerts(s.store.value.data), s.time)
    ensures Step(w, s, a).store != s.store <==> Blind(s, a) && !a.outcome.Lost?
  {
    hide ValidCert; hide SecretToCerts;
    if Step(w, s, a).store != s.store { ValidIsNeverReplaced(w, s, a); }
  }

  /** A replica finds what it has just made and stored expired, before it has used it once. */
  predicate Untimely(w: Crypto, s: State, a: Action) {
    && a.Check? && a.i < |s.replicas| && s.replicas[a.i].pc.Checking? && s.replicas[a.i].pc.version.None?
    && !ValidCert(w, s.replicas[a.i].pc.certs, s.time)
  }

  /** No replica is about to write without a version. */
  predicate Versioned(s: State) {
    forall i | 0 <= i < |s.replicas| :: s.replicas[i].pc.Renewing? || s.replicas[i].pc.Updating? ==>
      s.replicas[i].pc.version.Some?
  }

  lemma StepKeepsVersioned(w: Crypto, s: State, a: Action)
    requires Versioned(s) && !Untimely(w, s, a)
    ensures Versioned(Step(w, s, a))
  {
    hide ValidCert; hide SecretToCerts; hide CertsToSecret; hide Made;
  }

  predicate Timely(w: Crypto, s: State, run: seq<Action>, n: nat)
    requires n <= |run|
  {
    forall k | 0 <= k < n :: !Untimely(w, After(w, s, run, k), run[k])
  }

  lemma {:induction false} TimelyIsVersioned(w: Crypto, s: State, run: seq<Action>, n: nat)
    requires Versioned(s) && n <= |run| && Timely(w, s, run, n)
    ensures Versioned(After(w, s, run, n))
  {
    hide Step; hide Versioned; hide Untimely;
    if n > 0 {
      TimelyIsVersioned(w, s, run, n - 1);
      StepKeepsVersioned(w, After(w, s, run, n - 1), run[n - 1]);
    }
  }

  /** Nobody but the replicas touches the Secret. */
  predicate OnlyReplicas(run: seq<Action>) { forall a | a in run :: !a.Edit? && !a.Delete? }

  /** Known before any overwrite: if no replica finds what it has just made expired, none is
      blind, and the replicas have the Secret to themselves. */
  lemma TimelyIsUndisturbed(w: Crypto, s: State, run: seq<Action>, n: nat)
    requires Versioned(s) && n <= |run| && Timely(w, s, run, n) && OnlyReplicas(run)
    ensures Undisturbed(w, s, run, n)
  {
    hide Untimely;
    forall k | 0 <= k < n ensures !run[k].Edit? && !run[k].Delete? && !Blind(After(w, s, run, k), run[k]) {
      assert run[k] in run;
      TimelyIsVersioned(w, s, run, k);
    }
  }

  /** And no less is needed: a replica that finds so, while what is stored is valid, can
      replace it within three steps. */
  lemma UntimelyReplacesValid(w: Crypto, s: State, i: nat, made: Artifacts)
    requires w.OnlyExpires() && Ok(w, s) && Untimely(w, s, Check(i)) && Made(w, s.time, s.replicas[i].ca, made)
    requires s.store.Some? && ValidCert(w, SecretToCerts(s.store.value.data), s.time)
    ensures var run := [Check(i), Generate(i, Some(made)), Put(i, Reported)];
      var t := After(w, s, run, 2);
      && t.store == s.store && t.time == s.time && ByReplica(run[2]) && Step(w, t, run[2]).store != t.store
      && Content(After(w, s, run, 3), made)
  {
    hide ValidCert; hide SecretToCerts; hide CertsToSecret; hide Made;
    SecretRoundTrip(made);
    var run := [Check(i), Generate(i, Some(made)), Put(i, Reported)];
    var pc := s.replicas[i].pc;
    var t := Moved(s, i, Renewing(pc.certs, None, pc.born));
    assert After(w, s, run, 1) == Step(w, After(w, s, run, 0), run[0]) == t;
    var r := Moved(t, i, Updating(pc.certs, None, pc.born, made, s.time));
    assert After(w, s, run, 2) == Step(w, t, run[1]) == r;
    assert After(w, s, run, 3) == Step(w, r, run[2]);
  }

  /** While nothing expires no overwrite is blind. */
  lemma NoBlindOverwrite(w: Crypto, s: State, a: Action)
    requires w.Lasts() && Ok(w, s)
    ensures !Blind(s, a)
  {
    if a.Put? && a.i < |s.replicas| { assert ReplicaOk(w, s, s.replicas[a.i]); }
  }

  /** The replicas and time have the Secret to themselves. */
  predicate Undisturbed(w: Crypto, s: State, run: seq<Action>, n: nat)
    requires n <= |run|
  {
    forall k | 0 <= k < n :: !run[k].Edit? && !run[k].Delete? && !Blind(After(w, s, run, k), run[k])
  }

  lemma EarlierIsValid(w: Crypto, c: Artifacts, t: nat, u: nat)
    requires w.OnlyExpires() && t <= u && ValidCert(w, c, u)
    ensures ValidCert(w, c, t)
  {
  }

  lemma TickKeepsStore(w: Crypto, s: State)
    ensures Step(w, s, Tick).store == s.store
  {
  }

  /** Over any undisturbed run, what is stored stays stored for as long as it is valid. */
  lemma {:induction false} ValidStaysStored(w: Crypto, s: State, run: seq<Action>, n: nat)
    requires w.OnlyExpires() && Ok(w, s) && n <= |run| && Undisturbed(w, s, run, n)
    requires s.store.Some? && ValidCert(w, SecretToCerts(s.store.value.data), After(w, s, run, n).time)
    ensures After(w, s, run, n).store == s.store
  {
    hide Step; hide Ok; hide Blind; hide ValidCert; hide SecretToCerts;
    if n > 0 {
      var before, a := After(w, s, run, n - 1), run[n - 1];
      RunKeepsOk(w, s, run, n - 1);
      StepKeepsOk(w, before, a);
      EarlierIsValid(w, SecretToCerts(s.store.value.data), before.time, After(w, s, run, n).time);
      ValidStaysStored(w, s, run, n - 1);
      if ByReplica(a) && Step(w, before, a).store != before.store { ValidIsNeverReplaced(w, before, a); }
      if a.Tick? { TickKeepsStore(w, before); }
    }
  }

  // ---- agreement ----

  /** Certificates that a replica is about to use or has returned, if they are still valid,
      are the stored ones. */
  ghost predicate Agreed(w: Crypto, s: State) {
    Ok(w, s) && forall i | 0 <= i < |s.replicas| :: HeldIsStored(w, s, s.replicas[i].pc)
  }

  predicate HeldIsStored(w: Crypto, s: State, pc: Pc) {
    (pc.Checking? || pc.Done?) && ValidCert(w, pc.certs, s.time) ==> Content(s, pc.certs)
  }

  lemma OwnStepAgrees(w: Crypto, s: State, a: Action)
    requires w.OnlyExpires() && Agreed(w, s) && ByReplica(a) && a.i < |s.replicas|
    ensures HeldIsStored(w, Step(w, s, a), Step(w, s, a).replicas[a.i].pc)
  {
    var pc := s.replicas[a.i].pc;
    assert HeldIsStored(w, s, pc);
    if pc.Posting? { SecretRoundTrip(pc.made); }
    if pc.Updating? { SecretRoundTrip(pc.made); }
  }

  lemma OtherStepAgrees(w: Crypto, s: State, a: Action, i: nat)
    requires w.OnlyExpires() && Agreed(w, s) && !a.Edit? && !a.Delete? && !Blind(s, a)
    requires i < |s.replicas| && (ByReplica(a) ==> a.i != i)
    ensures HeldIsStored(w, Step(w, s, a), s.replicas[i].pc)
  {
    assert HeldIsStored(w, s, s.replicas[i].pc);
    if ByReplica(a) && s.store.Some? && Step(w, s, a).store != s.store { ValidIsNeverReplaced(w, s, a); }
  }

  lemma StepAgrees(w: Crypto, s: State, a: Action)
    requires w.OnlyExpires() && Agreed(w, s) && !a.Edit? && !a.Delete? && !Blind(s, a)
    ensures Agreed(w, Step(w, s, a))
  {
    var t := Step(w, s, a);
    StepKeepsOk(w, s, a);
    forall i | 0 <= i < |t.replicas| ensures HeldIsStored(w, t, t.replicas[i].pc) {
      if ByReplica(a) && a.i == i {
        OwnStepAgrees(w, s, a);
      } else {
        StepKeepsOthers(w, s, a, i);
        OtherStepAgrees(w, s, a, i);
      }
    }
  }

  lemma {:induction false} RunAgrees(w: Crypto, s: State, run: seq<Action>, n: nat)
    requires w.OnlyExpires() && Agreed(w, s) && n <= |run| && Undisturbed(w, s, run, n)
    ensures Agreed(w, After(w, s, run, n))
  {
    hide Step; hide Agreed; hide Blind;
    if n > 0 {
      RunAgrees(w, s, run, n - 1);
      StepAgrees(w, After(w, s, run, n - 1), run[n - 1]);
    }
  }

  /** The Secret may be absent, empty, invalid or valid; nobody has begun. */
  predicate Fresh(s: State) {
    (s.store.Some? ==> s.store.value.version < s.next) && forall i | 0 <= i < |s.replicas| :: s.replicas[i].pc.Idle?
  }

  /** A run is its first `m` steps and then the others. */
  lemma {:induction false} AfterAfter(w: Crypto, s: State, run: seq<Action>, m: nat, n: nat)
    requires m <= n <= |run|
    ensures After(w, After(w, s, run, m), run[m..], n - m) == After(w, s, run, n)
    decreases n
  {
    if m < n {
      AfterAfter(w, s, run, m, n - 1);
      assert run[m..][n - 1 - m] == run[n - 1];
    }
  }

  /** While nothing expires, a run without foreign edits is undisturbed from any state on. */
  lemma LastingRunIsUndisturbed(w: Crypto, s: State, run: seq<Action>, n: nat)
    requires w.Lasts() && Ok(w, s) && n <= |run| && OnlyReplicas(run)
    ensures Undisturbed(w, s, run, n)
  {
    forall k | 0 <= k < n ensures !run[k].Edit? && !run[k].Delete? && !Blind(After(w, s, run, k), run[k]) {
      assert run[k] in run;
      RunKeepsOk(w, s, run, k);
      NoBlindOverwrite(w, After(w, s, run, k), run[k]);
    }
  }

  /** Replica `i` has returned `c` by step `n`: it is done with it, and has not begun again. */
  predicate Returned(w: Crypto, s: State, run: seq<Action>, n: nat, i: nat, c: Artifacts)
    requires n <= |run|
  {
    var t := After(w, s, run, n);
    i < |t.replicas| && t.replicas[i].pc.Done? && t.replicas[i].pc.certs == c
  }

  /** What a replica has returned is what is stored, while it is valid. */
  lemma ReturnedIsStored(w: Crypto, s: State, run: seq<Action>, n: nat, i: nat, c: Artifacts)
    requires w.OnlyExpires() && Fresh(s) && n <= |run| && Undisturbed(w, s, run, n) && Returned(w, s, run, n, i, c)
    ensures ValidCert(w, c, After(w, s, run, n).time) ==> Content(After(w, s, run, n), c)
  {
    RunAgrees(w, s, run, n);
    assert HeldIsStored(w, After(w, s, run, n), After(w, s, run, n).replicas[i].pc);
  }

  lemma UndisturbedRest(w: Crypto, s: State, run: seq<Action>, m: nat, n: nat)
    requires m <= n <= |run| && Undisturbed(w, s, run, n)
    ensures Undisturbed(w, s, run, m) && Undisturbed(w, After(w, s, run, m), run[m..], n - m)
  {
    hide Blind; hide Step;
    forall k | 0 <= k < n - m
      ensures var a := run[m..][k]; !a.Edit? && !a.Delete? && !Blind(After(w, After(w, s, run, m), run[m..], k), a)
    {
      AfterAfter(w, s, run, m, m + k);
    }
  }

  /** What was returned once is stored from then on, while it is valid. */
  lemma ReturnedStaysStored(w: Crypto, s: State, run: seq<Action>, m: nat, n: nat, i: nat, c: Artifacts)
    requires w.OnlyExpires() && Fresh(s) && m <= n <= |run| && Undisturbed(w, s, run, n) && Returned(w, s, run, m, i, c)
    requires ValidCert(w, c, After(w, s, run, n).time)
    ensures Content(After(w, s, run, n), c)
  {
    hide Step; hide Returned; hide Fresh; hide Ok; hide ValidCert; hide Undisturbed;
    FreshIsOk(w, s);
    RunKeepsOk(w, s, run, m);
    UndisturbedRest(w, s, run, m, n);
    var t, rest := After(w, s, run, m), run[m..];
    AfterAfter(w, s, run, m, n);
    RunKeepsOk(w, t, rest, n - m);
    EarlierIsValid(w, c, t.time, After(w, s, run, n).time);
    ReturnedIsStored(w, s, run, m, i, c);
    ValidStaysStored(w, t, rest, n - m);
  }

  lemma FreshIsOk(w: Crypto, s: State)
    requires Fresh(s)
    ensures Ok(w, s) && Versioned(s)
  {
  }

  /** Agreement: over any undisturbed run, whatever any replicas return, at any two moments,
      is the same if both are still valid at the later one, and then it is what is stored. */
  lemma AgreementWhileValid(w: Crypto, s: State, run: seq<Action>, m: nat, n: nat, i: nat, j: nat, c: Artifacts,
    d: Artifacts)
    requires w.OnlyExpires() && Fresh(s) && m <= n <= |run| && Undisturbed(w, s, run, n)
    requires Returned(w, s, run, m, i, c) && Returned(w, s, run, n, j, d)
    requires ValidCert(w, c, After(w, s, run, n).time) && ValidCert(w, d, After(w, s, run, n).time)
    ensures c == d && Content(After(w, s, run, n), c)
  {
    hide Returned; hide Fresh; hide Undisturbed; hide ValidCert;
    ReturnedStaysStored(w, s, run, m, n, i, c);
    ReturnedIsStored(w, s, run, n, j, d);
  }

  /** The same, with all that is assumed known before anything is overwritten: nobody but the
      replicas touches the Secret, and none finds what it has just made expired. */
  lemma AgreementInTime(w: Crypto, s: State, run: seq<Action>, m: nat, n: nat, i: nat, j: nat, c: Artifacts,
    d: Artifacts)
    requires w.OnlyExpires() && Fresh(s) && m <= n <= |run| && OnlyReplicas(run) && Timely(w, s, run, n)
    requires Returned(w, s, run, m, i, c) && Returned(w, s, run, n, j, d)
    requires ValidCert(w, c, After(w, s, run, n).time) && ValidCert(w, d, After(w, s, run, n).time)
    ensures c == d && Content(After(w, s, run, n), c)
  {
    hide Returned; hide Fresh; hide Undisturbed; hide ValidCert; hide Timely;
    FreshIsOk(w, s);
    TimelyIsUndisturbed(w, s, run, n);
    AgreementWhileValid(w, s, run, m, n, i, j, c, d);
  }

  lemma ReturnedIsValid(w: Crypto, s: State, run: seq<Action>, m: nat, i: nat, c: Artifacts, now: nat)
    requires w.Lasts() && Fresh(s) && m <= |run| && Returned(w, s, run, m, i, c)
    ensures ValidCert(w, c, now)
  {
    RunKeepsOk(w, s, run, m);
    assert ReplicaOk(w, After(w, s, run, m), After(w, s, run, m).replicas[i]);
  }

  /** With nothing expiring and nobody else editing the Secret: whatever any two EnsureCerts
      of a run return, at any moments, is the same, and it is what is stored from the first
      of these moments on. */
  lemma Agreement(w: Crypto, s: State, run: seq<Action>, m: nat, n: nat, i: nat, j: nat, c: Artifacts, d: Artifacts)
    requires w.Lasts() && Fresh(s) && m <= n <= |run| && OnlyReplicas(run)
    requires Returned(w, s, run, m, i, c) && Returned(w, s, run, n, j, d)
    ensures c == d && forall k | m <= k <= |run| :: Content(After(w, s, run, k), c)
  {
    hide Returned; hide Fresh; hide Ok; hide Undisturbed; hide ValidCert;
    FreshIsOk(w, s);
    forall k | m <= k <= |run| ensures Content(After(w, s, run, k), c) {
      LastingRunIsUndisturbed(w, s, run, k);
      ReturnedIsValid(w, s, run, m, i, c, After(w, s, run, k).time);
      ReturnedStaysStored(w, s, run, m, k, i, c);
    }
    LastingRunIsUndisturbed(w, s, run, n);
    ReturnedIsValid(w, s, run, n, j, d, After(w, s, run, n).time);
    ReturnedIsStored(w, s, run, n, j, d);
  }

  // ---- the CA ----

  /** A step that overwrites the Secret with certificates made while `ca` might not sign. */
  predicate Resigns(w: Crypto, s: State, a: Action, ca: Ca) {
    && a.Put? && a.i < |s.replicas| && s.replicas[a.i].pc.Updating? && !w.caOk(ca, s.replicas[a.i].pc.at)
    && Step(w, s, a).store != s.store
  }

  lemma StepKeepsCa(w: Crypto, s: State, a: Action, ca: Ca)
    requires w.OnlyExpires() && Ok(w, s) && !a.Edit? && !a.Delete? && !Blind(s, a)
    requires s.store.Some? && CaOf(SecretToCerts(s.store.value.data)) == Some(ca) && !Resigns(w, s, a, ca)
    ensures Step(w, s, a).store.Some? && CaOf(SecretToCerts(Step(w, s, a).store.value.data)) == Some(ca)
  {
    if ByReplica(a) && a.i < |s.replicas| {
      assert ReplicaOk(w, s, s.replicas[a.i]);
      if s.replicas[a.i].pc.Updating? { SecretRoundTrip(s.replicas[a.i].pc.made); }
    }
  }

  /** Continuity of the CA: along any chain of overwrites it stays the same for as long as
      it may still sign at each regeneration. */
  lemma {:induction false} CaContinuity(w: Crypto, s: State, run: seq<Action>, n: nat, ca: Ca)
    requires w.OnlyExpires() && Ok(w, s) && n <= |run| && Undisturbed(w, s, run, n)
    requires s.store.Some? && CaOf(SecretToCerts(s.store.value.data)) == Some(ca)
    requires forall k | 0 <= k < n :: !Resigns(w, After(w, s, run, k), run[k], ca)
    ensures After(w, s, run, n).store.Some? && CaOf(SecretToCerts(After(w, s, run, n).store.value.data)) == Some(ca)
  {
    hide Step; hide Ok; hide Blind; hide SecretToCerts; hide CaOf; hide Resigns;
    if n > 0 {
      CaContinuity(w, s, run, n - 1, ca);
      RunKeepsOk(w, s, run, n - 1);
      StepKeepsCa(w, After(w, s, run, n - 1), run[n - 1], ca);
    }
  }

  // ---- why validity must outlast the replica's own check ----

  /** In this example the length of a certificate is the time at which it expires. */
  function Lengths(): Crypto { Crypto("example", (ca, cert, key, t) => t < |cert|, (ca, t) => true) }

  function Lasting(n: nat): Artifacts { Artifacts(Some([]), Some([]), Some(seq(n, _ => 0)), Some([])) }

  function Two(time: nat, next: nat, store: Option<Secret>, first: Pc, second: Pc): State {
    State(time, next, store,
      [Replica(None, first), Replica(if second.Idle? || second.Reading? then None else Some(Ca([], [])), second)])
  }

  lemma {:induction false} AfterPrefix(w: Crypto, s: State, run: seq<Action>, a: Action, n: nat)
    requires n <= |run|
    ensures After(w, s, run + [a], n) == After(w, s, run, n)
  {
    if n > 0 { AfterPrefix(w, s, run, a, n - 1); }
  }

  /** One more step of a run. */
  lemma Then(w: Crypto, s: State, run: seq<Action>, t: State, a: Action, u: State) returns (more: seq<Action>)
    requires After(w, s, run, |run|) == t && Step(w, t, a) == u
    ensures more == run + [a] && After(w, s, more, |more|) == u
  {
    more := run + [a];
    AfterPrefix(w, s, run, a, |run|);
  }

  const START := Two(0, 0, None, Idle, Idle)
  const MINE := Checking(Lasting(1), None, 0)

  function Holding(time: nat, next: nat, stored: Artifacts, first: Pc, second: Pc): State
    requires next > 0
  {
    Two(time, next, Some(Secret(next - 1, CertsToSecret(stored))), first, second)
  }

  /** A replica stores what it made, but before it judges it, that expires. */
  lemma FirstStores() returns (run: seq<Action>)
    ensures OnlyReplicas(run) && After(Lengths(), START, run, |run|) == Holding(1, 1, Lasting(1), MINE, Idle)
  {
    hide CertsToSecret; hide SecretToCerts;
    var w, s := Lengths(), START;
    run := [];
    run := Then(w, s, run, s, Begin(0, false), Two(0, 0, None, Reading, Idle));
    run := Then(w, s, run, Two(0, 0, None, Reading, Idle), Get(0, true), Two(0, 0, None, Creating, Idle));
    run := Then(w, s, run, Two(0, 0, None, Creating, Idle), Generate(0, Some(Lasting(1))),
      Two(0, 0, None, Posting(Lasting(1), 0), Idle));
    run := Then(w, s, run, Two(0, 0, None, Posting(Lasting(1), 0), Idle), Post(0, Reported),
      Holding(0, 1, Lasting(1), MINE, Idle));
    run := Then(w, s, run, Holding(0, 1, Lasting(1), MINE, Idle), Tick, Holding(1, 1, Lasting(1), MINE, Idle));
  }

  /** Another replica reads it and judges it expired. */
  lemma SecondJudges(run: seq<Action>) returns (more: seq<Action>)
    requires OnlyReplicas(run) && After(Lengths(), START, run, |run|) == Holding(1, 1, Lasting(1), MINE, Idle)
    ensures OnlyReplicas(more)
    ensures After(Lengths(), START, more, |more|) == Holding(1, 1, Lasting(1), MINE, Renewing(Lasting(1), Some(0), 1))
  {
    SecretRoundTrip(Lasting(1));
    hide CertsToSecret; hide SecretToCerts;
    var w, s := Lengths(), START;
    more := Then(w, s, run, Holding(1, 1, Lasting(1), MINE, Idle), Begin(1, false),
      Holding(1, 1, Lasting(1), MINE, Reading));
    more := Then(w, s, more, Holding(1, 1, Lasting(1), MINE, Reading), Get(1, true),
      Holding(1, 1, Lasting(1), MINE, Checking(Lasting(1), Some(0), 1)));
    more := Then(w, s, more, Holding(1, 1, Lasting(1), MINE, Checking(Lasting(1), Some(0), 1)), Check(1),
      Holding(1, 1, Lasting(1), MINE, Renewing(Lasting(1), Some(0), 1)));
  }

  /** It renews them. */
  lemma SecondRenews(run: seq<Action>) returns (more: seq<Action>)
    requires OnlyReplicas(run)
    requires After(Lengths(), START, run, |run|) == Holding(1, 1, Lasting(1), MINE, Renewing(Lasting(1), Some(0), 1))
    ensures OnlyReplicas(more)
    ensures After(Lengths(), START, more, |more|) == Holding(1, 2, Lasting(9), MINE, Done(Lasting(9), 1))
  {
    hide CertsToSecret; hide SecretToCerts;
    var w, s := Lengths(), START;
    more := Then(w, s, run, Holding(1, 1, Lasting(1), MINE, Renewing(Lasting(1), Some(0), 1)),
      Generate(1, Some(Lasting(9))),
      Holding(1, 1, Lasting(1), MINE, Updating(Lasting(1), Some(0), 1, Lasting(9), 1)));
    more := Then(w, s, more, Holding(1, 1, Lasting(1), MINE, Updating(Lasting(1), Some(0), 1, Lasting(9), 1)),
      Put(1, Reported),
      Holding(1, 2, Lasting(9), MINE, Done(Lasting(9), 1)));
  }

  /** The first replica finds its own certificates expired and makes others. */
  lemma FirstRemakes(run: seq<Action>) returns (more: seq<Action>)
    requires OnlyReplicas(run)
      && After(Lengths(), START, run, |run|) == Holding(1, 2, Lasting(9), MINE, Done(Lasting(9), 1))
    ensures OnlyReplicas(more)
    ensures After(Lengths(), START, more, |more|) == Holding(1, 2, Lasting(9),
      Updating(Lasting(1), None, 0, Lasting(8), 1), Done(Lasting(9), 1))
  {
    hide CertsToSecret; hide SecretToCerts;
    var w, s := Lengths(), START;
    more := Then(w, s, run, Holding(1, 2, Lasting(9), MINE, Done(Lasting(9), 1)), Check(0),
      Holding(1, 2, Lasting(9), Renewing(Lasting(1), None, 0), Done(Lasting(9), 1)));
    more := Then(w, s, more, Holding(1, 2, Lasting(9), Renewing(Lasting(1), None, 0), Done(Lasting(9), 1)),
      Generate(0, Some(Lasting(8))),
      Holding(1, 2, Lasting(9), Updating(Lasting(1), None, 0, Lasting(8), 1), Done(Lasting(9), 1)));
  }

  /** The assumption is needed: with nobody else touching the Secret, a replica that does
      not know a version can overwrite a valid certificate. */
  lemma BlindOverwriteReplacesValid() returns (run: seq<Action>, a: Action)
    ensures Lengths().OnlyExpires() && Fresh(START) && OnlyReplicas(run) && ByReplica(a)
    ensures var before := After(Lengths(), START, run, |run|);
      && before.store.Some? && ValidCert(Lengths(), SecretToCerts(before.store.value.data), before.time)
      && Step(Lengths(), before, a).store != before.store
  {
    run := FirstStores();
    run := SecondJudges(run);
    run := SecondRenews(run);
    run := FirstRemakes(run);
    a := Put(0, Reported);
    SecretRoundTrip(Lasting(9));
  }
}
