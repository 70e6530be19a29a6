/** The admission webhook for pods: it finds the record of the pod's StatefulSet and pins
    the new pod to the node and the address recorded for its name. */
module PodWebhook {
  import opened Text
  import opened PodStates
  import opened Wrappers

  // ---- which StatefulSet a pod belongs to ----

  datatype Owner = Owner(kind: string, name: string)

  const STATEFUL_SET := "StatefulSet"

  predicate IsDigit(c: char) { '0' <= c <= '9' }

  /** `name` is `stem`, a dash, and nothing but digits. */
  predicate OrdinalOf(name: string, stem: string) {
    && 0 < |stem| < |name| && stem <= name && name[|stem|] == '-'
    && forall i | |stem| < i < |name| :: IsDigit(name[i])
  }

  predicate Unowned(owners: seq<Owner>) { forall o | o in owners :: o.kind != STATEFUL_SET }

  /** The first owner that is a StatefulSet names it; without one the pod's name may. */
  ghost predicate BelongsTo(owners: seq<Owner>, name: string, sts: string) {
    if Unowned(owners) then OrdinalOf(name, sts) || (sts == "" && forall s :: !OrdinalOf(name, s))
    else exists i | FirstStatefulSet(owners, i) :: owners[i].name == sts
  }

  predicate FirstStatefulSet(owners: seq<Owner>, i: int) {
    0 <= i < |owners| && owners[i].kind == STATEFUL_SET && forall j | 0 <= j < i :: owners[j].kind != STATEFUL_SET
  }

  function Decimal(n: nat): (s: string)
    ensures |s| > 0 && forall c | c in s :: IsDigit(c)
  {
    var last := ['0' + (n % 10) as char];
    if n < 10 then last else Decimal(n / 10) + last
  }

  /** What a string of digits says. */
  function ValueOf(digits: string): int {
    if digits == "" then 0
    else
      var last := |digits| - 1;
      10 * ValueOf(digits[..last]) + (digits[last] as int - '0' as int)
  }

  /** A number is read back as it was printed, and is printed without leading zeros. */
  lemma {:induction false} DecimalReadsBack(n: nat)
    ensures ValueOf(Decimal(n)) == n && (n > 0 ==> Decimal(n)[0] != '0')
  {
    var s := Decimal(n);
    if n >= 10 {
      DecimalReadsBack(n / 10);
      assert s[..|s| - 1] == Decimal(n / 10);
    } else {
      assert s[..0] == "";
    }
  }

  /** The name the StatefulSet controller gives to pod number `ordinal`. */
  function PodName(sts: string, ordinal: nat): string { sts + "-" + Decimal(ordinal) }

  lemma OneStem(name: string, a: string, b: string)
    requires OrdinalOf(name, a) && OrdinalOf(name, b)
    ensures a == b
  {
    assert |a| == |b|;
    assert forall i | 0 <= i < |a| :: a[i] == name[i] && b[i] == name[i];
  }

  /** A pod belongs to one StatefulSet at most. */
  lemma BelongsToOne(owners: seq<Owner>, name: string, a: string, b: string)
    requires BelongsTo(owners, name, a) && BelongsTo(owners, name, b)
    ensures a == b
  {
    if Unowned(owners) {
      if OrdinalOf(name, a) && OrdinalOf(name, b) { OneStem(name, a, b); }
    }
  }

  /** Without an owner, the StatefulSets that a name can belong to are the ones it is made
      from by a dash and digits. */
  lemma UnownedNameMeans(owners: seq<Owner>, name: string, sts: string)
    requires sts != "" && forall o | o in owners :: o.kind != "StatefulSet"
    ensures BelongsTo(owners, name, sts) <==>
      exists ordinal: string :: name == sts + "-" + ordinal && forall c | c in ordinal :: c in "0123456789"
  {
    if BelongsTo(owners, name, sts) {
      var ordinal := name[|sts| + 1..];
      assert name == sts + "-" + ordinal;
      forall c | c in ordinal ensures c in "0123456789" {
        var i :| 0 <= i < |ordinal| && ordinal[i] == c;
        assert IsDigit(name[|sts| + 1 + i]);
        DigitsAre(c);
      }
    }
    if ordinal: string :| name == sts + "-" + ordinal && forall c | c in ordinal :: c in "0123456789" {
      forall i | |sts| < i < |name| ensures IsDigit(name[i]) {
        assert name[i] == ordinal[i - |sts| - 1] && name[i] in ordinal;
        DigitsAre(name[i]);
      }
    }
  }

  lemma DigitsAre(c: char)
    ensures IsDigit(c) <==> c in "0123456789"
  {
    if IsDigit(c) { assert "0123456789"[c as int - '0' as int] == c; }
  }

  lemma OwnerDecides(owners: seq<Owner>, name: string, i: nat)
    requires i < |owners| && owners[i].kind == "StatefulSet" && forall j | 0 <= j < i :: owners[j].kind != "StatefulSet"
    ensures BelongsTo(owners, name, owners[i].name)
  {
    assert owners[i] in owners && FirstStatefulSet(owners, i);
  }

  /** What the StatefulSet controller writes the webhook reads back, whatever the name and
      the ordinal are. */
  lemma PodNameRoundTrip(owners: seq<Owner>, sts: string, ordinal: nat)
    requires sts != "" && Unowned(owners)
    ensures BelongsTo(owners, PodName(sts, ordinal), sts)
  {
    var name, digits := PodName(sts, ordinal), Decimal(ordinal);
    assert forall i | |sts| < i < |name| :: name[i] == digits[i - |sts| - 1];
  }

  method GetStatefulSetNameFromPod(owners: seq<Owner>, name: string) returns (sts: string)
    ensures BelongsTo(owners, name, sts)
  {
    for i := 0 to |owners|
      invariant forall j | 0 <= j < i :: owners[j].kind != STATEFUL_SET
    {
      if owners[i].kind == STATEFUL_SET {
        assert owners[i] in owners && FirstStatefulSet(owners, i);
        return owners[i].name;
      }
    }
    sts := "";
    if name != "" {
      var lastDashIndex := LastIndex(name, '-');
      assert forall s | OrdinalOf(name, s) :: lastDashIndex == |s|;
      if lastDashIndex > 0 {
        var suffix := name[lastDashIndex + 1..];
        var isNumeric := true;
        for i := 0 to |suffix|
          invariant isNumeric
          invariant forall j | 0 <= j < i :: IsDigit(suffix[j])
        {
          if suffix[i] < '0' || suffix[i] > '9' {
            isNumeric := false;
            assert !IsDigit(name[lastDashIndex + 1 + i]);
            break;
          }
        }
        if isNumeric {
          assert forall i | lastDashIndex < i < |name| :: name[i] == suffix[i - lastDashIndex - 1];
          sts := name[..lastDashIndex];
        }
      }
    }
  }

  // ---- the pod object ----

  datatype Requirement = Requirement(key: string, operator: string, values: seq<string>)
  datatype Term = Term(expressions: seq<Requirement>)
  /** `preferred` and `other` stand for the parts the webhook does not look at. */
  datatype NodeAffinity = NodeAffinity(required: Option<seq<Term>>, preferred: string)
  datatype Affinity = Affinity(nodeAffinity: Option<NodeAffinity>, other: string)

  datatype PodSpec = PodSpec(namespace: string, name: string, owners: seq<Owner>,
                             annotations: Option<map<string, string>>, affinity: Option<Affinity>)

  const IP_ADDRS := "cni.projectcalico.org/ipAddrs"

  function IpList(ip: string): string { "[\"" + ip + "\"]" }

  /** The address that the network plugin is asked for, if it is asked for exactly one. */
  function RequestedIp(p: PodSpec): Option<string> {
    if p.annotations.None? || IP_ADDRS !in p.annotations.value then None
    else
      var list := p.annotations.value[IP_ADDRS];
      if |list| >= 4 && list[..2] == "[\"" && list[|list| - 2..] == "\"]" then Some(list[2..|list| - 2]) else None
  }

  predicate Meets(r: Requirement, labels: map<string, string>) {
    r.operator == "In" && r.key in labels && labels[r.key] in r.values
  }

  /** Whether the scheduler may put the pod on a node with these labels; only "In" is needed. */
  predicate Admits(p: PodSpec, labels: map<string, string>) {
    p.affinity.None? || p.affinity.value.nodeAffinity.None? || p.affinity.value.nodeAffinity.value.required.None?
    || exists t | t in p.affinity.value.nodeAffinity.value.required.value :: forall r | r in t.expressions ::
         Meets(r, labels)
  }

  function EntryOf(states: States, name: string): PodState {
    if name in states then states[name] else PodState("", map[], map[], "")
  }

  function NodeTerm(node: string): Term { Term([Requirement(HOSTNAME, "In", [node])]) }

  function PinNode(a: Option<Affinity>, node: string): Option<Affinity> {
    var affinity := if a.Some? then a.value else Affinity(None, "");
    var nodeAffinity := if affinity.nodeAffinity.Some? then affinity.nodeAffinity.value else NodeAffinity(None, "");
    Some(affinity.(nodeAffinity := Some(nodeAffinity.(required := Some([NodeTerm(node)])))))
  }

  function AnnotationsOf(p: PodSpec): map<string, string> { if p.annotations.Some? then p.annotations.value else map[] }

  /** The pod the webhook makes when the record has `s` for its name. */
  function Pin(p: PodSpec, s: PodState): PodSpec {
    var annotations := AnnotationsOf(p);
    p.(annotations := Some(if s.ip != "" then annotations[IP_ADDRS := IpList(s.ip)] else annotations),
       affinity := if s.node != "" then PinNode(p.affinity, s.node) else p.affinity)
  }

  function PreferredOf(p: PodSpec): string {
    if p.affinity.None? || p.affinity.value.nodeAffinity.None? then ""
    else p.affinity.value.nodeAffinity.value.preferred
  }

  function OtherAffinityOf(p: PodSpec): string { if p.affinity.Some? then p.affinity.value.other else "" }

  /** `q` is `p` except for the required nodes and the addresses that it asks for. */
  predicate OtherwiseKept(p: PodSpec, q: PodSpec) {
    && q.namespace == p.namespace && q.name == p.name && q.owners == p.owners
    && PreferredOf(q) == PreferredOf(p) && OtherAffinityOf(q) == OtherAffinityOf(p)
    && AnnotationsOf(q) - {"cni.projectcalico.org/ipAddrs"} == AnnotationsOf(p) - {"cni.projectcalico.org/ipAddrs"}
  }

  /** The scheduler may use this node alone, and the network plugin is asked for this address
      alone, in the words that they understand. */
  ghost predicate PinnedTo(q: PodSpec, node: string, ip: string) {
    && (forall labels :: Admits(q, labels) <==>
         "kubernetes.io/hostname" in labels && labels["kubernetes.io/hostname"] == node)
    && q.annotations.Some? && "cni.projectcalico.org/ipAddrs" in q.annotations.value
    && q.annotations.value["cni.projectcalico.org/ipAddrs"] == "[\"" + ip + "\"]"
  }

  /** A pinned pod fits the recorded node alone and asks for the recorded address alone;
      whatever it required before is replaced and everything else is kept. */
  lemma PinMeans(p: PodSpec, s: PodState, labels: map<string, string>)
    ensures s.node != "" ==> (Admits(Pin(p, s), labels) <==> HOSTNAME in labels && labels[HOSTNAME] == s.node)
    ensures s.node == "" ==> (Admits(Pin(p, s), labels) <==> Admits(p, labels))
    ensures RequestedIp(Pin(p, s)) == if s.ip != "" then Some(s.ip) else RequestedIp(p)
    ensures OtherwiseKept(p, Pin(p, s))
    ensures s.node != "" && s.ip != "" ==> PinnedTo(Pin(p, s), s.node, s.ip)
  {
    var q := Pin(p, s);
    if s.node != "" {
      var terms := q.affinity.value.nodeAffinity.value.required.value;
      assert terms == [NodeTerm(s.node)] && NodeTerm(s.node) in terms;
      var r := Requirement(HOSTNAME, "In", [s.node]);
      assert NodeTerm(s.node).expressions == [r] && r in NodeTerm(s.node).expressions;
      assert forall l :: Meets(r, l) <==> HOSTNAME in l && l[HOSTNAME] == s.node;
    }
    var list := IpList(s.ip);
    assert list[..2] == "[\"" && list[|list| - 2..] == "\"]" && list[2..|list| - 2] == s.ip;
  }

  /** Admission may call the webhook again on its own result: pinning twice changes nothing. */
  lemma PinTwice(p: PodSpec, s: PodState)
    ensures Pin(Pin(p, s), s) == Pin(p, s)
  {
    assert AnnotationsOf(Pin(p, s))[IP_ADDRS := IpList(s.ip)] == AnnotationsOf(p)[IP_ADDRS := IpList(s.ip)];
  }

  class Pod {
    var spec: PodSpec

    constructor (spec: PodSpec)
      ensures this.spec == spec
    {
      this.spec := spec;
    }
  }

  datatype Operation = Create | Update | Other
  /** `pod` is missing when the request cannot be decoded. */
  datatype Request = Request(operation: Operation, namespace: string, pod: Option<PodSpec>)
  datatype Response = Allowed | Errored(code: nat) | Patched(original: PodSpec, mutated: PodSpec)

  /** What a creation makes of the pod, given the record that was read, if any was. */
  ghost predicate Created(p: PodSpec, q: PodSpec, found: Option<States>) {
    if found.Some? && !BelongsTo(p.owners, p.name, "") then q == Pin(p, EntryOf(found.value, p.name))
    else q == p.(annotations := Some(AnnotationsOf(p)))
  }

  /** `found` is the record kept under the pod's namespace and its StatefulSet's name. */
  ghost predicate RecordFor(p: PodSpec, records: map<Key, Record>, found: Option<States>) {
    found.Some? ==> exists sts | BelongsTo(p.owners, p.name, sts) ::
      Key(p.namespace, sts) in records && found.value == records[Key(p.namespace, sts)].status.podStates
  }

  /** Nothing is recorded for the pod's StatefulSet, if it has one. */
  ghost predicate NoRecordFor(p: PodSpec, records: map<Key, Record>) {
    forall sts | sts != "" && BelongsTo(p.owners, p.name, sts) :: Key(p.namespace, sts) !in records
  }

  /** The pod of a request as it is looked up. */
  function LookedUp(req: Request): PodSpec
    requires req.pod.Some?
  {
    if req.pod.value.namespace == "" then req.pod.value.(namespace := req.namespace) else req.pod.value
  }

  /** Allowed as it is, or a patch from what was asked for to what it became. */
  function Answer(p: PodSpec, q: PodSpec): Response { if q == p then Allowed else Patched(p, q) }

  /** The answer to a creation: what the record that was found makes of the pod, under the
      pod's own namespace. */
  ghost predicate Admission(req: Request, records: map<Key, Record>, found: Option<States>, resp: Response)
    requires req.pod.Some?
  {
    && RecordFor(LookedUp(req), records, found)
    && exists q ::
         Created(LookedUp(req), q, found) && resp == Answer(req.pod.value, q.(namespace := req.pod.value.namespace))
  }

  class PodMutatingHandler {
    const client: Api

    constructor (client: Api)
      ensures this.client == client
    {
      this.client := client;
    }

    method HandlePodCreate(obj: Pod) returns (ghost found: Option<States>)
      modifies obj, client`faulted
      ensures Created(old(obj.spec), obj.spec, found) && RecordFor(old(obj.spec), client.records, found)
      ensures found.Some? || client.faulted || NoRecordFor(old(obj.spec), client.records)
      ensures old(client.faulted) ==> client.faulted
    {
      found := None;
      var given := obj.spec;
      obj.spec := obj.spec.(annotations := Some(AnnotationsOf(obj.spec)));
      var stsName := GetStatefulSetNameFromPod(obj.spec.owners, obj.spec.name);
      forall sts | BelongsTo(given.owners, given.name, sts) ensures sts == stsName {
        BelongsToOne(given.owners, given.name, sts, stsName);
      }
      if stsName == "" { return; }
      var e, pps := client.GetRecord(Key(obj.spec.namespace, stsName));
      if e != OK { return; }
      found := Some(pps.status.podStates);
      PinEntry(obj, EntryOf(pps.status.podStates, obj.spec.name));
    }

    /** A virtual machine is its own workload: its record has its own name. */
    method HandleVMICreate(obj: Pod) returns (ghost found: Option<States>)
      modifies obj, client`faulted
      ensures var p := old(obj.spec);
        obj.spec == if found.Some? then Pin(p, EntryOf(found.value, p.name))
          else p.(annotations := Some(AnnotationsOf(p)))
      ensures var k := Key(old(obj.spec).namespace, old(obj.spec).name);
        if found.Some? then k in client.records && found.value == client.records[k].status.podStates
          else client.faulted || k !in client.records
      ensures old(client.faulted) ==> client.faulted
    {
      found := None;
      obj.spec := obj.spec.(annotations := Some(AnnotationsOf(obj.spec)));
      var e, pps := client.GetRecord(Key(obj.spec.namespace, obj.spec.name));
      if e != OK { return; }
      found := Some(pps.status.podStates);
      PinEntry(obj, EntryOf(pps.status.podStates, obj.spec.name));
    }

    /** The annotation and the affinity that the record asks for. */
    method PinEntry(obj: Pod, entry: PodState)
      requires obj.spec.annotations.Some?
      modifies obj
      ensures obj.spec == Pin(old(obj.spec), entry)
    {
      if entry.ip != "" {
        obj.spec := obj.spec.(annotations := Some(AnnotationsOf(obj.spec)[IP_ADDRS := IpList(entry.ip)]));
      }
      if entry.node != "" {
        PinAffinity(obj, entry.node);
      }
    }

    /** The missing parts of the affinity are made, then its required terms are replaced. */
    method PinAffinity(obj: Pod, node: string)
      modifies obj
      ensures obj.spec == old(obj.spec).(affinity := PinNode(old(obj.spec).affinity, node))
    {
      if obj.spec.affinity.None? {
        obj.spec := obj.spec.(affinity := Some(Affinity(None, "")));
      }
      var affinity := obj.spec.affinity.value;
      if affinity.nodeAffinity.None? {
        affinity := affinity.(nodeAffinity := Some(NodeAffinity(None, "")));
      }
      var nodeAffinity := affinity.nodeAffinity.value;
      if nodeAffinity.required.None? {
        nodeAffinity := nodeAffinity.(required := Some([]));
      }
      nodeAffinity := nodeAffinity.(required := Some([NodeTerm(node)]));
      obj.spec := obj.spec.(affinity := Some(affinity.(nodeAffinity := Some(nodeAffinity))));
    }

    /** The lookup uses the request's namespace where the pod has none, but the answer never
        changes the pod's own namespace. */
    method HandlePod(req: Request) returns (resp: Response, ghost found: Option<States>)
      modifies client`faulted
      ensures if req.pod.None? then resp == Errored(400) else !resp.Errored?
      ensures req.pod.Some? && req.operation != Create ==> resp == Allowed
      ensures req.pod.Some? && req.operation == Create ==> Admission(req, client.records, found, resp)
      ensures req.pod.Some? && req.operation == Create && found.None? && !client.faulted ==>
        NoRecordFor(LookedUp(req), client.records)
      ensures old(client.faulted) ==> client.faulted
    {
      found := None;
      if req.pod.None? { return Errored(400), None; }
      var clone := req.pod.value;
      var obj := new Pod(clone);
      var isNamespaceEmpty := false;
      if obj.spec.namespace == "" {
        obj.spec := obj.spec.(namespace := req.namespace);
        isNamespaceEmpty := true;
      }
      if req.operation == Create {
        found := HandlePodCreate(obj);
        assert obj.spec.namespace == if isNamespaceEmpty then req.namespace else clone.namespace;
      } else if req.operation != Update {
        return Allowed, found;
      }
      ghost var made := obj.spec;
      if isNamespaceEmpty {
        obj.spec := obj.spec.(namespace := "");
      }
      assert obj.spec == made.(namespace := clone.namespace);
      if obj.spec == clone { return Allowed, found; }
      resp := Patched(clone, obj.spec);
    }
  }

  /** A pod of the StatefulSet that is created while its record holds a node and an address
      for it is admitted for that node and that address alone, and under its own namespace. */
  lemma RecordedPodIsPinned(p: PodSpec, q: PodSpec, records: map<Key, Record>, found: Option<States>, sts: string,
                            labels: map<string, string>)
    requires Created(p, q, found) && RecordFor(p, records, found) && found.Some?
    requires BelongsTo(p.owners, p.name, sts) && sts != "" && Key(p.namespace, sts) in records
    requires var s := EntryOf(records[Key(p.namespace, sts)].status.podStates, p.name); s.node != "" && s.ip != ""
    ensures var s := EntryOf(records[Key(p.namespace, sts)].status.podStates, p.name);
      && q == Pin(p, s) && RequestedIp(q) == Some(s.ip)
      && (Admits(q, labels) <==> HOSTNAME in labels && labels[HOSTNAME] == s.node)
  {
    forall a | BelongsTo(p.owners, p.name, a) ensures a == sts { BelongsToOne(p.owners, p.name, a, sts); }
    PinMeans(p, EntryOf(found.value, p.name), labels);
  }

  /** Seen from the API server: while no call fails, a pod whose StatefulSet has a record with
      a node and an address for it is allowed as it is only if it has this pin already;
      otherwise it is patched into one that has it and is the same in everything else. */
  lemma AdmittedForItsRecord(req: Request, records: map<Key, Record>, found: Option<States>, resp: Response,
    sts: string, node: string, ip: string)
    requires req.pod.Some? && Admission(req, records, found, resp)
    requires found.None? ==> NoRecordFor(LookedUp(req), records)
    requires var p := req.pod.value;
      BelongsTo(p.owners, p.name, sts) && sts != "" && RecordedFor(req, records, sts, node, ip)
    ensures var p := req.pod.value;
      match resp
      case Allowed => PinnedTo(p, node, ip)
      case Patched(original, mutated) =>
        original == p && mutated != p && PinnedTo(mutated, node, ip) && OtherwiseKept(p, mutated)
      case Errored(_) => false
  {
    hide Pin; hide PinnedTo; hide OtherwiseKept; hide Admits; hide RequestedIp;
    var p := LookedUp(req);
    var q :| Created(p, q, found) && resp == Answer(req.pod.value, q.(namespace := req.pod.value.namespace));
    var entry := EntryOf(records[Key(p.namespace, sts)].status.podStates, p.name);
    assert entry.node == node && entry.ip == ip;
    RecordedPodIsPinned(p, q, records, found, sts, map[]);
    PinMeans(p, entry, map[]);
    assert p == req.pod.value.(namespace := p.namespace);
    SamePin(req.pod.value, p.namespace, q, node, ip);
  }

  lemma SamePin(p: PodSpec, namespace: string, q: PodSpec, node: string, ip: string)
    requires PinnedTo(q, node, ip) && OtherwiseKept(p.(namespace := namespace), q)
    ensures PinnedTo(q.(namespace := p.namespace), node, ip) && OtherwiseKept(p, q.(namespace := p.namespace))
  {
    var namespace := p.namespace;
    forall labels ensures Admits(q.(namespace := namespace), labels) <==> Admits(q, labels) { }
  }

  /** The record of the StatefulSet in the pod's namespace, or in the request's where the pod
      has none, holds this node and this address for the pod. */
  predicate RecordedFor(req: Request, records: map<Key, Record>, sts: string, node: string, ip: string)
    requires req.pod.Some?
  {
    var p := req.pod.value;
    var k := Key(if p.namespace == "" then req.namespace else p.namespace, sts);
    && k in records && p.name in records[k].status.podStates && node != "" && ip != ""
    && records[k].status.podStates[p.name].node == node && records[k].status.podStates[p.name].ip == ip
  }

  /** Any other pod is let pass; it may get an empty set of annotations. */
  lemma OthersAreLetPass(req: Request, records: map<Key, Record>, resp: Response)
    requires req.pod.Some? && Admission(req, records, None, resp)
    ensures var p := req.pod.value;
      resp == if p.annotations.Some? then Allowed else Patched(p, p.(annotations := Some(map[])))
  {
  }
}
