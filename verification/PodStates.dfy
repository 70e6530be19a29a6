/** The reconciler for StatefulSets: it lists the pods, reserves the address of each one
    that runs, and records where they run unless the record would shrink. */
module PodStates {
  import opened Text
  import opened Wrappers

  datatype Key = Key(namespace: string, name: string)
  datatype Pod = Pod(labels: map<string, string>, node: string, ip: string)
  datatype StatefulSet = StatefulSet(key: Key, selector: map<string, string>)

  datatype PodState = PodState(node: string, topology: map<string, string>, annotations: map<string, string>,
    ip: string)
  type States = map<string, PodState>
  datatype Status = Status(observedGeneration: int, podStates: States)
  datatype Target = Target(apiVersion: string, kind: string, name: string)
  datatype Record = Record(target: Target, status: Status, version: nat)

  type Reservations = map<string, seq<string>>
  datatype World = World(pods: map<Key, Pod>, reservations: Reservations, records: map<Key, Record>)

  const HOSTNAME := "kubernetes.io/hostname"
  const CIDR_SUFFIX := "/32"
  const NO_STATUS := Status(0, map[])

  // ---- names of reservations ----

  function ReservationName(k: Key): string { "pod-" + k.namespace + "-" + k.name }

  function Cidr(ip: string): string { ip + CIDR_SUFFIX }

  /** Within one namespace different pods have different reservations. */
  lemma ReservationsOfOneNamespace(namespace: string, a: string, b: string)
    ensures ReservationName(Key(namespace, a)) == ReservationName(Key(namespace, b)) <==> a == b
  {
    var prefix := "pod-" + namespace + "-";
    assert (prefix + a)[|prefix|..] == a && (prefix + b)[|prefix|..] == b;
  }

  /** Pods of two namespaces can share a reservation exactly when one namespace continues
      the other with a dash. */
  lemma NamespacesCollideIff(x: string, y: string)
    requires x != y
    ensures (exists a, b :: ReservationName(Key(x, a)) == ReservationName(Key(y, b)))
      <==> HasPrefix(y, x + "-") || HasPrefix(x, y + "-")
  {
    if a, b :| ReservationName(Key(x, a)) == ReservationName(Key(y, b)) {
      if |x| <= |y| { CollisionContinues(x, a, y, b); } else { CollisionContinues(y, b, x, a); }
    }
    if HasPrefix(y, x + "-") { ContinuationCollides(x, y); }
    if HasPrefix(x, y + "-") { ContinuationCollides(y, x); }
  }

  lemma CollisionContinues(x: string, a: string, y: string, b: string)
    requires x != y && |x| <= |y| && ReservationName(Key(x, a)) == ReservationName(Key(y, b))
    ensures HasPrefix(y, x + "-")
  {
    var s, t := ReservationName(Key(x, a)), ReservationName(Key(y, b));
    assert forall i | 0 <= i < |x| :: s[4 + i] == x[i];
    assert forall i | 0 <= i < |y| :: t[4 + i] == y[i];
    assert forall i | 0 <= i < |x| :: x[i] == y[i];
    assert |x| == |y| ==> x == y;
    assert s[4 + |x|] == '-' && t[4 + |x|] == y[|x|];
  }

  lemma ContinuationCollides(x: string, y: string)
    requires HasPrefix(y, x + "-")
    ensures ReservationName(Key(x, y[|x| + 1..] + "-")) == ReservationName(Key(y, ""))
  {
    assert y == x + "-" + y[|x| + 1..];
  }

  /** The reservation named after the pod holds its address and nothing else. */
  predicate Reserves(rs: Reservations, namespace: string, name: string, ip: string) {
    var r := "pod-" + namespace + "-" + name;
    r in rs && rs[r] == [ip + "/32"]
  }

  /** What is reserved reads back as one address, so that different ones are reserved differently. */
  lemma CidrIsOneAddress(ip: string, other: string)
    ensures Cidr(ip) == Cidr(other) <==> ip == other
    ensures '/' !in ip ==> Split(Cidr(ip), '/') == [ip, "32"]
  {
    hide Split;
    assert Cidr(ip)[..|Cidr(ip)| - 3] == ip && Cidr(other)[..|Cidr(other)| - 3] == other;
    if '/' !in ip {
      assert Cidr(ip) == ip + "/" + "32";
      SplitCons(ip, "32", '/');
      SplitNothing("32", '/');
    }
  }

  // ---- what one reconcile does when every call succeeds ----

  predicate Selects(selector: map<string, string>, labels: map<string, string>) {
    forall l | l in selector :: l in labels && labels[l] == selector[l]
  }

  predicate Listed(pods: map<Key, Pod>, sts: StatefulSet, name: string) {
    var k := Key(sts.key.namespace, name);
    k in pods && Selects(sts.selector, pods[k].labels)
  }

  function PodNames(pods: map<Key, Pod>, sts: StatefulSet): (names: set<string>)
    ensures forall n :: n in names <==> Listed(pods, sts, n)
  {
    set k | k in pods && k.namespace == sts.key.namespace && Selects(sts.selector, pods[k].labels) :: k.name
  }

  predicate Usable(p: Pod) { p.ip != "" && p.node != "" }

  function StateOf(p: Pod): PodState { PodState(p.node, map[HOSTNAME := p.node], map[], p.ip) }

  /** The pods of the StatefulSet that have a node and an address. */
  function UsableStates(pods: map<Key, Pod>, sts: StatefulSet): States {
    map n | n in PodNames(pods, sts) && Usable(pods[Key(sts.key.namespace, n)]) ::
      StateOf(pods[Key(sts.key.namespace, n)])
  }

  /** Whether a reconcile that found `states` writes them over `existing`. */
  predicate Replaces(existing: Status, states: States) {
    states != map[] && existing != Status(0, states) && |states| >= |existing.podStates|
  }

  /** The record after a reconcile that found `states`. Creating the object drops its
      status, which is a subresource; updating the status drops the rest. */
  function Decide(record: Option<Record>, sts: StatefulSet, states: States): Option<Record> {
    if states == map[] then record
    else match record
      case None => Some(Record(Target("apps/v1", "StatefulSet", sts.key.name), NO_STATUS, 0))
      case Some(r) =>
        if Replaces(r.status, states) then Some(r.(status := Status(0, states), version := r.version + 1)) else record
  }

  function RecordOf(records: map<Key, Record>, k: Key): Option<Record> {
    if k in records then Some(records[k]) else None
  }

  function WithRecord(records: map<Key, Record>, k: Key, r: Option<Record>): map<Key, Record> {
    if r.Some? then records[k := r.value] else records
  }

  /** The records after one accepted update of a status. */
  function WithStatus(records: map<Key, Record>, k: Key, status: Status): map<Key, Record>
    requires k in records
  {
    records[k := records[k].(status := status, version := records[k].version + 1)]
  }

  /** `next` differs from `prev` only in holding, for each name in `states`, a reservation
      of exactly its address. */
  ghost predicate Reserved(prev: Reservations, next: Reservations, namespace: string, states: States) {
    && (forall n | n in states :: ReservedAt(next, namespace, n, states[n]))
    && (forall r :: SameReservation(prev, next, r) || NamedFor(namespace, states, r))
  }

  predicate SameReservation(a: Reservations, b: Reservations, r: string) {
    (r in a <==> r in b) && (r in a ==> a[r] == b[r])
  }

  predicate NamedFor(namespace: string, states: States, r: string) {
    exists n | n in states :: r == ReservationName(Key(namespace, n))
  }

  predicate ReservedAt(rs: Reservations, namespace: string, n: string, s: PodState) {
    var r := ReservationName(Key(namespace, n));
    r in rs && rs[r] == [Cidr(s.ip)]
  }

  /** What a reconcile makes of the cluster when no call fails. */
  ghost predicate Reconciled(w: World, next: World, sts: StatefulSet) {
    var states := UsableStates(w.pods, sts);
    && next.pods == w.pods
    && Reserved(w.reservations, next.reservations, sts.key.namespace, states)
    && next.records == WithRecord(w.records, sts.key, Decide(RecordOf(w.records, sts.key), sts, states))
  }

  /** A pod that the StatefulSet selects in its namespace has this node and this address. */
  predicate RunsAs(pods: map<Key, Pod>, sts: StatefulSet, name: string, node: string, ip: string) {
    var k := Key(sts.key.namespace, name);
    && k in pods && pods[k].node == node && pods[k].ip == ip && node != "" && ip != ""
    && forall l | l in sts.selector :: l in pods[k].labels && pods[k].labels[l] == sts.selector[l]
  }

  /** `names` are the pods that run. */
  ghost predicate Running(pods: map<Key, Pod>, sts: StatefulSet, names: set<string>) {
    forall n :: n in names <==> exists node, ip :: RunsAs(pods, sts, n, node, ip)
  }

  predicate RecordedAs(states: States, name: string, node: string, ip: string) {
    name in states && states[name] == PodState(node, map["kubernetes.io/hostname" := node], map[], ip)
  }

  /** These pods, and no others, are recorded as they run. */
  ghost predicate RecordsAll(states: States, pods: map<Key, Pod>, sts: StatefulSet, names: set<string>) {
    && states.Keys == names
    && forall n, node, ip | RunsAs(pods, sts, n, node, ip) :: RecordedAs(states, n, node, ip)
  }

  lemma UsableAreRunning(pods: map<Key, Pod>, sts: StatefulSet, names: set<string>)
    requires Running(pods, sts, names)
    ensures RecordsAll(UsableStates(pods, sts), pods, sts, names) && |UsableStates(pods, sts)| == |names|
  {
    var states := UsableStates(pods, sts);
    forall n ensures n in states <==> n in names {
      if n in states {
        var k := Key(sts.key.namespace, n);
        assert RunsAs(pods, sts, n, pods[k].node, pods[k].ip);
      }
      if n in names { var node, ip :| RunsAs(pods, sts, n, node, ip); }
    }
    assert states.Keys == names;
    assert |states| == |states.Keys|;
  }

  /** A record of nothing yet, for the StatefulSet of this name. */
  predicate IsBlankFor(r: Record, name: string) {
    r.target == Target("apps/v1", "StatefulSet", name) && r.status.podStates == map[]
  }

  /** What a reconcile means: the address of every pod that runs is reserved; and the record,
      where there is one that does not hold more pods, holds exactly the pods that run, with
      their nodes and addresses. Everything else stays. */
  lemma ReconciledMeans(w: World, next: World, sts: StatefulSet, names: set<string>)
    requires Reconciled(w, next, sts) && Running(w.pods, sts, names)
    ensures forall n, node, ip | RunsAs(w.pods, sts, n, node, ip) ::
      Reserves(next.reservations, sts.key.namespace, n, ip)
    ensures OthersKept(w.records, next.records, sts.key)
    ensures match RecordOf(w.records, sts.key)
      case None =>
        if names == {} then sts.key !in next.records
        else sts.key in next.records && IsBlankFor(next.records[sts.key], sts.key.name)
      case Some(before) =>
        && sts.key in next.records
        && var now := next.records[sts.key];
        if names == {} || |names| < |before.status.podStates| then now == before
        else now.target == before.target && RecordsAll(now.status.podStates, w.pods, sts, names)
  {
    hide UsableStates;
    var states := UsableStates(w.pods, sts);
    UsableAreRunning(w.pods, sts, names);
    assert states == map[] <==> names == {} by { assert states.Keys == names; }
    forall n, node, ip | RunsAs(w.pods, sts, n, node, ip)
      ensures Reserves(next.reservations, sts.key.namespace, n, ip)
    {
      assert RecordedAs(states, n, node, ip);
      assert ReservedAt(next.reservations, sts.key.namespace, n, states[n]);
    }
  }

  lemma ReservedOnce(a: Reservations, b: Reservations, prev: Reservations, namespace: string, states: States)
    requires Reserved(prev, a, namespace, states) && Reserved(prev, b, namespace, states)
    ensures a == b
  {
    forall r ensures SameReservation(a, b, r) {
      if NamedFor(namespace, states, r) {
        var n :| n in states && r == ReservationName(Key(namespace, n));
        assert ReservedAt(a, namespace, n, states[n]) && ReservedAt(b, namespace, n, states[n]);
      } else {
        assert SameReservation(prev, a, r) && SameReservation(prev, b, r);
      }
    }
    assert forall r | r in a :: SameReservation(a, b, r);
    assert forall r | r in b :: SameReservation(a, b, r);
  }

  lemma ReservedAgain(prev: Reservations, rs: Reservations, next: Reservations, namespace: string, states: States)
    requires Reserved(prev, rs, namespace, states) && Reserved(rs, next, namespace, states)
    ensures next == rs
  {
    ReservedOnce(rs, next, rs, namespace, states);
  }

  /** With the pods at rest, a reconcile that finds a record leaves a cluster that the next
      one does not touch: no object is written again. */
  lemma SettlesWithRecord(w: World, next: World, after: World, sts: StatefulSet)
    requires sts.key in w.records && Reconciled(w, next, sts) && Reconciled(next, after, sts)
    ensures after == next
  {
    ReservedAgain(w.reservations, next.reservations, after.reservations, sts.key.namespace, UsableStates(w.pods, sts));
  }

  /** The status that further reconciles keep: the usable pods, unless the record had more. */
  function Kept(before: Option<Record>, states: States): Status {
    if before.Some? && |states| < |before.value.status.podStates| then before.value.status else Status(0, states)
  }

  lemma DecidedTwice(before: Option<Record>, sts: StatefulSet, states: States)
    ensures before.Some? ==> Decide(before, sts, states).Some?
    ensures var twice := Decide(Decide(before, sts, states), sts, states);
      && Decide(twice, sts, states) == twice
      && if states == map[] then twice == before else twice.Some? && twice.value.status == Kept(before, states)
  {
  }

  /** Two reconciles always suffice; the first of them may only create the object, whose
      status is dropped. */
  lemma SettlesInTwo(w0: World, w1: World, w2: World, w3: World, sts: StatefulSet)
    requires Reconciled(w0, w1, sts) && Reconciled(w1, w2, sts) && Reconciled(w2, w3, sts)
    ensures w3 == w2 && Reserved(w0.reservations, w2.reservations, sts.key.namespace, UsableStates(w0.pods, sts))
    ensures var states, before := UsableStates(w0.pods, sts), RecordOf(w0.records, sts.key);
      if states == map[] then w2 == w0 else sts.key in w2.records && w2.records[sts.key].status == Kept(before, states)
  {
    hide Decide; hide Reserved; hide UsableStates; hide Kept;
    var states, before := UsableStates(w0.pods, sts), RecordOf(w0.records, sts.key);
    DecidedTwice(before, sts, states);
    var once := Decide(before, sts, states);
    assert RecordOf(w1.records, sts.key) == once && RecordOf(w2.records, sts.key) == Decide(once, sts, states);
    ReservedAgain(w0.reservations, w1.reservations, w2.reservations, sts.key.namespace, states);
    ReservedAgain(w1.reservations, w2.reservations, w3.reservations, sts.key.namespace, states);
    if states == map[] { NothingReserved(w0.reservations, w1.reservations, sts.key.namespace); }
  }

  lemma NothingReserved(a: Reservations, b: Reservations, namespace: string)
    requires Reserved(a, b, namespace, map[])
    ensures a == b
  {
    ReservedOnce(a, b, a, namespace, map[]);
  }

  // ---- the length test ----

  /** The test compares counts, not names: over a fixed set of pod names, a record is safe
      from losing a name exactly when it is empty, holds more names than there are pods,
      or holds precisely the pods' names. */
  lemma NoNameIsLostIff(names: set<string>, r: Record, sts: StatefulSet)
    ensures (forall states: States | states.Keys <= names ::
      r.status.podStates.Keys <= Decide(Some(r), sts, states).value.status.podStates.Keys)
      <==> (r.status.podStates == map[] || |names| < |r.status.podStates| || r.status.podStates.Keys == names)
  {
    var held := r.status.podStates.Keys;
    assert |held| == |r.status.podStates|;
    if held == {} || |names| < |held| || held == names {
      forall states: States | states.Keys <= names
        ensures held <= Decide(Some(r), sts, states).value.status.podStates.Keys
      {
        assert |states.Keys| == |states|;
        Subsets(states.Keys, names);
      }
    } else {
      var found := Displacing(names, held);
      var states: States := map n | n in found :: PodState("node", map[], map[], "ip");
      assert states.Keys == found && |states.Keys| == |states|;
      assert Decide(Some(r), sts, states) == Some(r.(status := Status(0, states), version := r.version + 1));
    }
  }

  lemma {:induction false} Subsets<T>(a: set<T>, b: set<T>)
    requires a <= b
    ensures |a| <= |b|
    ensures |a| == |b| ==> a == b
  {
    if x :| x in b - a { Subsets(a, b - {x}); } else {
      assert forall y | y in b :: y in a || y in b - a;
      assert a == b;
    }
  }

  /** As many of `names` as are in `held`, but not the same ones. */
  lemma Displacing(names: set<string>, held: set<string>) returns (found: set<string>)
    requires held != {} && |held| <= |names| && held != names
    ensures found <= names && |found| >= |held| && found != {} && !(held <= found)
  {
    var x :| x in held;
    if held <= names {
      found := names - {x};
      if |names| == |held| { Subsets(held, names); }
    } else {
      found := names;
    }
  }

  // ---- the reconciler over the API ----

  datatype Errno = OK | NotFound | AlreadyExists | Conflict | Unavailable

  datatype Item = Item(name: string, pod: Pod)

  /** Pods of the StatefulSet as they are. */
  ghost predicate AreListed(items: seq<Item>, pods: map<Key, Pod>, sts: StatefulSet) {
    forall i | 0 <= i < |items| ::
      Listed(pods, sts, items[i].name) && items[i].pod == pods[Key(sts.key.namespace, items[i].name)]
  }

  /** Every pod once, in some order. */
  ghost predicate Lists(items: seq<Item>, pods: map<Key, Pod>, sts: StatefulSet) {
    && AreListed(items, pods, sts)
    && (forall i, j | 0 <= i < j < |items| :: items[i].name != items[j].name)
    && (forall n | Listed(pods, sts, n) :: exists i | 0 <= i < |items| :: items[i].name == n)
  }

  /** How far the loop over the pods has got. */
  datatype Progress = Progress(reservations: Reservations, states: States)

  /** One round of the loop: an unusable pod is skipped; for a usable one the reservation
      fails, with or without having been written, or it succeeds and the pod is recorded. */
  predicate Visited(sts: StatefulSet, x: Item, before: Progress, after: Progress) {
    if !Usable(x.pod) then after == before
    else
      var reserved := before.reservations[ReservationName(Key(sts.key.namespace, x.name)) := [Cidr(x.pod.ip)]];
      || after == before
      || after == before.(reservations := reserved)
      || after == Progress(reserved, before.states[x.name := StateOf(x.pod)])
  }

  /** The rounds of one loop. */
  ghost predicate Rounds(sts: StatefulSet, items: seq<Item>, rounds: seq<Progress>) {
    |rounds| == |items| + 1 && forall i | 0 <= i < |items| :: Visited(sts, items[i], rounds[i], rounds[i + 1])
  }

  /** `next` differs from `prev` at most in reservations that pods in `all` ought to have,
      and the pods in `states` have theirs. */
  ghost predicate PartlyReserved(prev: Reservations, next: Reservations, namespace: string, all: States,
    states: States) {
    && (forall n | n in states :: n in all && states[n] == all[n] && ReservedAt(next, namespace, n, states[n]))
    && (forall r :: SameReservation(prev, next, r) || ReservedFor(next, namespace, all, r))
  }

  predicate ReservedFor(rs: Reservations, namespace: string, states: States, r: string) {
    exists n | n in states :: r == ReservationName(Key(namespace, n)) && ReservedAt(rs, namespace, n, states[n])
  }

  lemma PartlyReservedStep(prev: Reservations, rs: Reservations, namespace: string, all: States, states: States,
    n: string)
    requires PartlyReserved(prev, rs, namespace, all, states) && n in all && n !in states
    ensures PartlyReserved(prev, rs[ReservationName(Key(namespace, n)) := [Cidr(all[n].ip)]], namespace, all, states)
    ensures PartlyReserved(prev, rs[ReservationName(Key(namespace, n)) := [Cidr(all[n].ip)]], namespace, all,
      states[n := all[n]])
  {
    var next := rs[ReservationName(Key(namespace, n)) := [Cidr(all[n].ip)]];
    forall m | m in all && m != n
      ensures SameReservation(rs, next, ReservationName(Key(namespace, m)))
      ensures ReservedAt(rs, namespace, m, all[m]) <==> ReservedAt(next, namespace, m, all[m])
    {
      ReservationsOfOneNamespace(namespace, m, n);
    }
    forall r ensures SameReservation(prev, next, r) || ReservedFor(next, namespace, all, r) {
      if r == ReservationName(Key(namespace, n)) {
        assert ReservedAt(next, namespace, n, all[n]);
      } else {
        assert SameReservation(rs, next, r);
        if ReservedFor(rs, namespace, all, r) {
          var m :| m in all && r == ReservationName(Key(namespace, m)) && ReservedAt(rs, namespace, m, all[m]);
          assert ReservedAt(next, namespace, m, all[m]);
        }
      }
    }
  }

  lemma AllReserved(prev: Reservations, next: Reservations, namespace: string, all: States)
    requires PartlyReserved(prev, next, namespace, all, all)
    ensures Reserved(prev, next, namespace, all)
  {
    forall r ensures SameReservation(prev, next, r) || NamedFor(namespace, all, r) {
      if ReservedFor(next, namespace, all, r) {
        var n :| n in all && r == ReservationName(Key(namespace, n)) && ReservedAt(next, namespace, n, all[n]);
      }
    }
  }

  lemma NothingReservedYet(rs: Reservations, namespace: string, all: States)
    ensures PartlyReserved(rs, rs, namespace, all, map[])
  {
    assert forall r :: SameReservation(rs, rs, r);
  }

  lemma VisitedIsPartlyReserved(sts: StatefulSet, x: Item, all: States, prev: Reservations, before: Progress,
    after: Progress)
    requires PartlyReserved(prev, before.reservations, sts.key.namespace, all, before.states)
    requires Visited(sts, x, before, after) && x.name !in before.states
    requires Usable(x.pod) ==> x.name in all && all[x.name] == StateOf(x.pod)
    ensures PartlyReserved(prev, after.reservations, sts.key.namespace, all, after.states)
    ensures after.states.Keys <= before.states.Keys + {x.name} && before.states.Keys <= after.states.Keys
  {
    hide PartlyReserved;
    if Usable(x.pod) { PartlyReservedStep(prev, before.reservations, sts.key.namespace, all, before.states, x.name); }
  }

  lemma ListedIsUsable(items: seq<Item>, pods: map<Key, Pod>, sts: StatefulSet, i: nat)
    requires Lists(items, pods, sts) && i < |items|
    ensures var all, x := UsableStates(pods, sts), items[i];
      Usable(x.pod) ==> x.name in all && all[x.name] == StateOf(x.pod)
    ensures forall j | i < j < |items| :: items[j].name != items[i].name
  {
  }

  lemma AllRecorded(items: seq<Item>, pods: map<Key, Pod>, sts: StatefulSet, states: States, prev: Reservations,
    rs: Reservations)
    requires Lists(items, pods, sts) && PartlyReserved(prev, rs, sts.key.namespace, UsableStates(pods, sts), states)
    requires forall j | 0 <= j < |items| && Usable(items[j].pod) :: items[j].name in states
    ensures states == UsableStates(pods, sts)
  {
    forall n | n in UsableStates(pods, sts) ensures n in states {
      var i :| 0 <= i < |items| && items[i].name == n;
    }
  }

  lemma AllReservedIf(prev: Reservations, next: Reservations, sts: StatefulSet, w: World, states: States)
    requires PartlyReserved(prev, next, sts.key.namespace, UsableStates(w.pods, sts), states)
    ensures states == UsableStates(w.pods, sts) ==> Reserved(prev, next, sts.key.namespace, states)
  {
    if states == UsableStates(w.pods, sts) { AllReserved(prev, next, sts.key.namespace, states); }
  }

  lemma RecordedRun(pods: map<Key, Pod>, sts: StatefulSet, prev: Reservations, next: Reservations, states: States)
    requires PartlyReserved(prev, next, sts.key.namespace, UsableStates(pods, sts), states)
    ensures forall n | n in states ::
      && RunsAs(pods, sts, n, states[n].node, states[n].ip)
      && Reserves(next, sts.key.namespace, n, states[n].ip)
  {
    forall n | n in states ensures Reserves(next, sts.key.namespace, n, states[n].ip) {
      assert ReservedAt(next, sts.key.namespace, n, states[n]);
    }
  }

  lemma NothingDecided(records: map<Key, Record>, sts: StatefulSet, states: States)
    ensures PartlyDecided(records, records, sts, states)
    ensures states == map[] ==> WithRecord(records, sts.key, Decide(RecordOf(records, sts.key), sts, states)) == records
  {
  }

  lemma NothingYet(w: World, sts: StatefulSet)
    ensures PartlyReserved(w.reservations, w.reservations, sts.key.namespace, UsableStates(w.pods, sts), map[])
    ensures PartlyDecided(w.records, w.records, sts, map[])
  {
    assert forall r :: SameReservation(w.reservations, w.reservations, r);
  }

  lemma NobodyListed(items: seq<Item>, w: World, sts: StatefulSet)
    requires Lists(items, w.pods, sts) && items == []
    ensures UsableStates(w.pods, sts) == map[] && Reconciled(w, w, sts)
  {
    assert forall r :: SameReservation(w.reservations, w.reservations, r);
    NothingDecided(w.records, sts, map[]);
    assert PodNames(w.pods, sts) == {};
  }

  /** What can become of the record, whatever fails: it is kept, or decided from `states`. */
  ghost predicate PartlyDecided(prev: map<Key, Record>, next: map<Key, Record>, sts: StatefulSet, states: States) {
    var before, now := RecordOf(prev, sts.key), RecordOf(next, sts.key);
    && OthersKept(prev, next, sts.key)
    && (if before.Some? then
          && now.Some? && now.value.target == before.value.target
          && now.value.status in {before.value.status, Decide(before, sts, states).value.status}
        else now in {None, Decide(None, sts, states)})
  }

  ghost predicate OthersKept(prev: map<Key, Record>, next: map<Key, Record>, key: Key) {
    forall k | k != key :: (k in next <==> k in prev) && (k in next ==> next[k] == prev[k])
  }

  /** Whatever fails, a reconcile never leaves a record with fewer pods than it found. */
  lemma CountNeverDecreases(w: World, next: World, sts: StatefulSet, states: States)
    requires PartlyDecided(w.records, next.records, sts, states) && sts.key in w.records
    ensures sts.key in next.records
    ensures |next.records[sts.key].status.podStates| >= |w.records[sts.key].status.podStates|
  {
  }

  /** The API server. A call may fail for a reason of its own, and a write that took effect
      may still be reported as failed. */
  class Api {
    var pods: map<Key, Pod>
    var reservations: Reservations
    var records: map<Key, Record>
    /** Whether a call failed for a reason of its own, or another client wrote an object. */
    ghost var faulted: bool

    function Value(): World
      reads this
    {
      World(pods, reservations, records)
    }

    method List(sts: StatefulSet) returns (e: Errno, items: seq<Item>)
      modifies this`faulted
      ensures e == OK ==> Lists(items, pods, sts)
      ensures faulted == (old(faulted) || e != OK)
    {
      items := [];
      if * { faulted := true; return Unavailable, items; }
      e := OK;
      var names := PodNames(pods, sts);
      var todo := names;
      while todo != {}
        invariant todo <= names
        invariant forall i | 0 <= i < |items| :: items[i].name !in todo && Listed(pods, sts, items[i].name)
        invariant forall i | 0 <= i < |items| :: items[i].pod == pods[Key(sts.key.namespace, items[i].name)]
        invariant forall i, j | 0 <= i < j < |items| :: items[i].name != items[j].name
        invariant forall n | n in names && n !in todo :: exists i | 0 <= i < |items| :: items[i].name == n
        decreases todo
      {
        var n :| n in todo;
        ghost var before := items;
        items := items + [Item(n, pods[Key(sts.key.namespace, n)])];
        assert items[|before|].name == n;
        assert forall i | 0 <= i < |before| :: items[i] == before[i];
        todo := todo - {n};
      }
    }

    method GetReservation(r: string) returns (e: Errno, cidrs: seq<string>)
      modifies this`faulted
      ensures e == OK ==> r in reservations && cidrs == reservations[r]
      ensures e == NotFound ==> r !in reservations
      ensures e in {OK, NotFound, Unavailable} && faulted == (old(faulted) || e == Unavailable)
    {
      cidrs := [];
      if * {
        e := Unavailable;
        faulted := true;
      } else if r in reservations {
        e, cidrs := OK, reservations[r];
      } else {
        e := NotFound;
      }
    }

    method PutReservation(r: string, cidrs: seq<string>) returns (e: Errno)
      modifies this`reservations, this`faulted
      ensures e == OK ==> reservations == old(reservations)[r := cidrs]
      ensures e != OK ==> reservations in {old(reservations), old(reservations)[r := cidrs]}
      ensures e in {OK, Unavailable} && faulted == (old(faulted) || e != OK)
    {
      var lost: bool := *;
      if lost { faulted := true; return Unavailable; }
      reservations := reservations[r := cidrs];
      var unreported: bool := *;
      e := if unreported then Unavailable else OK;
      faulted := faulted || e != OK;
    }

    method GetRecord(k: Key) returns (e: Errno, r: Record)
      modifies this`faulted
      ensures e == OK ==> k in records && r == records[k]
      ensures e == NotFound ==> k !in records
      ensures e in {OK, NotFound, Unavailable} && faulted == (old(faulted) || e == Unavailable)
    {
      r := Record(Target("", "", ""), NO_STATUS, 0);
      if * {
        e := Unavailable;
        faulted := true;
      } else if k in records {
        e, r := OK, records[k];
      } else {
        e := NotFound;
      }
    }

    /** Create: the status is a subresource, so what the request says of it is dropped. */
    method CreateRecord(k: Key, target: Target, status: Status) returns (e: Errno)
      modifies this`records, this`faulted
      ensures e == OK ==> k !in old(records) && records == old(records)[k := Record(target, NO_STATUS, 0)]
      ensures e == AlreadyExists ==> k in old(records)
      ensures e != OK ==>
        records == old(records) || (k !in old(records) && records == old(records)[k := Record(target, NO_STATUS, 0)])
      ensures e in {OK, AlreadyExists, Unavailable} && faulted == (old(faulted) || e == Unavailable)
    {
      var lost: bool := *;
      if lost { faulted := true; return Unavailable; }
      if k in records { return AlreadyExists; }
      records := records[k := Record(target, NO_STATUS, 0)];
      var unreported: bool := *;
      e := if unreported then Unavailable else OK;
      faulted := faulted || e != OK;
    }

    /** Another client may write the object's metadata before a call arrives. */
    method Meanwhile(k: Key)
      modifies this`records, this`faulted
      ensures records.Keys == old(records).Keys && OthersKept(old(records), records, k)
      ensures k in records ==>
        records[k].target == old(records)[k].target && records[k].status == old(records)[k].status
      ensures !faulted ==> records == old(records)
      ensures old(faulted) ==> faulted
    {
      if * {
        if k in records {
          records := records[k := records[k].(version := records[k].version + 1)];
          faulted := true;
        }
      }
    }

    /** Update of the status subresource: only the status of the request is used, and only
        if the request carries the present version. */
    method UpdateStatus(k: Key, r: Record) returns (e: Errno)
      modifies this`records, this`faulted
      ensures records.Keys == old(records).Keys && OthersKept(old(records), records, k)
      ensures k in records ==>
        records[k].target == old(records)[k].target && records[k].status in {old(records)[k].status, r.status}
      ensures !faulted && k in old(records) && r.version == old(records)[k].version ==>
        e == OK && records[k] == old(records)[k].(status := r.status, version := old(records)[k].version + 1)
      ensures !faulted && k in old(records) && r.version == old(records)[k].version ==>
        records == old(records)[k := records[k]]
      ensures e != OK && k in old(records) && r.version == old(records)[k].version ==> faulted
      ensures old(faulted) ==> faulted
    {
      Meanwhile(k);
      var lost: bool := *;
      if lost { faulted := true; return Unavailable; }
      if k !in records { return NotFound; }
      if records[k].version != r.version { return Conflict; }
      records := records[k := records[k].(status := r.status, version := r.version + 1)];
      var unreported: bool := *;
      e := if unreported then Unavailable else OK;
      faulted := faulted || e != OK;
    }
  }

  class Reconciler {
    const client: Api

    constructor (client: Api)
      ensures this.client == client
    {
      this.client := client;
    }

    method CreateOrUpdateIPReservation(k: Key, pod: Pod) returns (e: Errno)
      modifies client`reservations, client`faulted
      ensures pod.ip == "" ==> e == OK && client.reservations == old(client.reservations)
      ensures pod.ip != "" ==>
        var reserved := old(client.reservations)[ReservationName(k) := [Cidr(pod.ip)]];
        client.reservations == reserved || (e != OK && client.reservations == old(client.reservations))
      ensures e == OK && pod.ip != "" ==> Reserves(client.reservations, k.namespace, k.name, pod.ip)
      ensures e != OK ==> client.faulted
      ensures old(client.faulted) ==> client.faulted
    {
      if pod.ip == "" { return OK; }
      var name, cidrs := ReservationName(k), [Cidr(pod.ip)];
      var existing;
      e, existing := client.GetReservation(name);
      if e == NotFound {
        e := client.PutReservation(name, cidrs);
      } else if e == OK && existing != cidrs {
        e := client.PutReservation(name, cidrs);
      }
    }

    /** One pod of the loop. */
    method RecordPod(sts: StatefulSet, item: Item, states: States) returns (next: States)
      modifies client`reservations, client`faulted
      ensures Visited(sts, item, Progress(old(client.reservations), states), Progress(client.reservations, next))
      ensures !client.faulted && Usable(item.pod) ==> item.name in next
      ensures old(client.faulted) ==> client.faulted
    {
      if item.pod.ip == "" || item.pod.node == "" { return states; }
      var e := CreateOrUpdateIPReservation(Key(sts.key.namespace, item.name), item.pod);
      if e != OK { return states; }
      return states[item.name := StateOf(item.pod)];
    }

    /** The loop over the pods: each usable pod whose reservation is made is recorded. */
    method RecordPods(sts: StatefulSet, items: seq<Item>) returns (states: States, ghost rounds: seq<Progress>)
      requires Lists(items, client.pods, sts)
      modifies client`reservations, client`faulted
      ensures PartlyReserved(old(client.reservations), client.reservations, sts.key.namespace,
        UsableStates(client.pods, sts), states)
      ensures Rounds(sts, items, rounds)
      ensures rounds[0] == Progress(old(client.reservations), map[])
        && rounds[|items|] == Progress(client.reservations, states)
      ensures forall n | n in states ::
        && RunsAs(client.pods, sts, n, states[n].node, states[n].ip)
        && Reserves(client.reservations, sts.key.namespace, n, states[n].ip)
      ensures !client.faulted ==> states == UsableStates(client.pods, sts)
      ensures old(client.faulted) ==> client.faulted
    {
      hide PartlyReserved; hide Visited; hide UsableStates; hide Lists;
      ghost var all, namespace := UsableStates(client.pods, sts), sts.key.namespace;
      assert PartlyReserved(client.reservations, client.reservations, namespace, all, map[]) by {
        NothingReservedYet(client.reservations, namespace, all);
      }
      states := map[];
      rounds := [Progress(client.reservations, map[])];
      for i := 0 to |items|
        invariant PartlyReserved(old(client.reservations), client.reservations, namespace, all, states)
        invariant |rounds| == i + 1 && forall j | 0 <= j < i :: Visited(sts, items[j], rounds[j], rounds[j + 1])
        invariant rounds[0] == Progress(old(client.reservations), map[])
          && rounds[i] == Progress(client.reservations, states)
        invariant forall j | i <= j < |items| :: items[j].name !in states
        invariant !client.faulted ==> forall j | 0 <= j < i && Usable(items[j].pod) :: items[j].name in states
        invariant old(client.faulted) ==> client.faulted
      {
        ghost var before := Progress(client.reservations, states);
        ListedIsUsable(items, client.pods, sts, i);
        states := RecordPod(sts, items[i], states);
        VisitedIsPartlyReserved(sts, items[i], all, old(client.reservations), before,
          Progress(client.reservations, states));
        rounds := rounds + [Progress(client.reservations, states)];
      }
      if !client.faulted {
        AllRecorded(items, client.pods, sts, states, old(client.reservations), client.reservations);
      }
      RecordedRun(client.pods, sts, old(client.reservations), client.reservations, states);
    }

    /** One reconcile of a StatefulSet. */
    method StatefulSetAutoGeneratePersistentPodState(sts: StatefulSet)
      returns (e: Errno, states: States, ghost items: seq<Item>, ghost rounds: seq<Progress>)
      modifies client`reservations, client`records, client`faulted
      ensures PartlyReserved(old(client.reservations), client.reservations, sts.key.namespace,
        UsableStates(client.pods, sts), states)
      ensures PartlyDecided(old(client.records), client.records, sts, states)
      ensures AreListed(items, client.pods, sts) && Rounds(sts, items, rounds)
      ensures rounds[0] == Progress(old(client.reservations), map[])
        && rounds[|items|] == Progress(client.reservations, states)
      ensures !client.faulted ==> e == OK && Reconciled(old(client.Value()), client.Value(), sts)
      ensures old(client.faulted) ==> client.faulted
    {
      hide Decide; hide Reserved; hide PartlyReserved; hide UsableStates; hide PartlyDecided;
      ghost var before := client.Value();
      NothingYet(before, sts);
      states, items, rounds := map[], [], [Progress(client.reservations, map[])];
      var pods;
      e, pods := client.List(sts);
      if e != OK { return; }
      if |pods| == 0 { NobodyListed(pods, before, sts); return; }
      items := pods;
      states, rounds := RecordPods(sts, pods);
      AllReservedIf(before.reservations, client.reservations, sts, before, states);
      NothingDecided(before.records, sts, states);
      if |states| == 0 { return; }
      e := SaveRecord(sts, states);
    }

    /** What follows the loop: the record is created, left alone or replaced. */
    method SaveRecord(sts: StatefulSet, states: States) returns (e: Errno)
      requires states != map[]
      modifies client`records, client`faulted
      ensures PartlyDecided(old(client.records), client.records, sts, states)
      ensures !client.faulted ==>
        e == OK && client.records == WithRecord(old(client.records), sts.key,
          Decide(RecordOf(old(client.records), sts.key), sts, states))
      ensures old(client.faulted) ==> client.faulted
    {
      var existing;
      e, existing := client.GetRecord(sts.key);
      if e == NotFound {
        e := client.CreateRecord(sts.key, Target("apps/v1", "StatefulSet", sts.key.name), Status(0, states));
        if e == AlreadyExists { e := OK; }
        return;
      }
      if e != OK { return; }
      if existing.status == Status(0, states) { return; }
      if |states| < |existing.status.podStates| { return; }
      ghost var tries;
      e, tries := UpdateRetrying(sts.key, Status(0, states));
    }

    /** retry.RetryOnConflict with the default backoff: up to four attempts, each of which
        reads the object again. */
    method UpdateRetrying(k: Key, status: Status) returns (e: Errno, ghost tries: nat)
      modifies client`records, client`faulted
      ensures client.records.Keys == old(client.records).Keys && OthersKept(old(client.records), client.records, k)
      ensures k in client.records ==> client.records[k].target == old(client.records)[k].target
      ensures k in client.records ==> client.records[k].status in {old(client.records)[k].status, status}
      ensures k !in client.records ==> e != OK
      ensures 1 <= tries <= 4 && (e == Conflict ==> tries == 4)
      ensures !client.faulted && k in client.records ==>
        e == OK && client.records == WithStatus(old(client.records), k, status)
      ensures old(client.faulted) ==> client.faulted
    {
      e, tries := Conflict, 0;
      var attempts := 0;
      while attempts < 4 && e == Conflict
        invariant attempts == tries <= 4 && (attempts == 0 ==> e == Conflict)
        invariant client.records.Keys == old(client.records).Keys && OthersKept(old(client.records), client.records, k)
        invariant k in client.records ==> client.records[k].target == old(client.records)[k].target
        invariant k in client.records ==> client.records[k].status in {old(client.records)[k].status, status}
        invariant k !in client.records ==> e != OK
        invariant !client.faulted && k in client.records ==>
          if attempts == 0 then e == Conflict && client.records == old(client.records)
          else e == OK && client.records == WithStatus(old(client.records), k, status)
        invariant old(client.faulted) ==> client.faulted
      {
        attempts, tries := attempts + 1, tries + 1;
        var objClone;
        e, objClone := client.GetRecord(k);
        if e != OK { return; }
        e := client.UpdateStatus(k, objClone.(status := status));
      }
    }
  }
}
