/** What the repository is for: once every pod of a StatefulSet is recorded with its node
    and address, no interleaving of pods coming and going with the steps of the reconciler
    and the webhook ever changes the record. */
module Identity {
  import opened PodStates
  import opened Wrappers
  import opened PodWebhook

  /** A pod that has been admitted; node and address are empty until they are given. */
  datatype LivePod = LivePod(spec: PodSpec, node: string, ip: string)

  /** Where the one worker is: it lists, visits each pod, reads the record and writes it. */
  datatype Worker =
    | Idle
    | Visiting(items: seq<Item>, i: nat, states: States)
    | Reading(states: States)
    | Writing(states: States)

  /** `seen` and `versions` are all a cached read may return: every pod as it ever was, and
      every status the record ever had. */
  datatype State = State(
    record: Status, pods: map<string, LivePod>, reservations: Reservations, worker: Worker,
    seen: set<Item>, versions: set<Status>)

  datatype Setting = Setting(sts: StatefulSet, names: set<string>)
  /** What else may go wrong: the webhook's lookup fails, or what a cache says of the pods or
      of the record is out of date. */
  datatype Mode = Mode(lookupsFail: bool, staleLists: bool, staleRecord: bool)

  function ItemOf(n: string, p: LivePod): Item { Item(n, Pod(map[], p.node, p.ip)) }

  /** The same state after pod `n` has become `p`. */
  function WithPod(s: State, n: string, p: LivePod): State {
    s.(pods := s.pods[n := p], seen := s.seen + {ItemOf(n, p)})
  }

  // ---- the cluster around the repository's code ----

  ghost predicate CreatePod(c: Setting, m: Mode, s: State, t: State) {
    exists n, p, q, found :: CreatePodAs(c, m, s, t, n, p, q, found)
  }

  /** A pod of the set is created through the webhook. */
  ghost predicate CreatePodAs(c: Setting, m: Mode, s: State, t: State, n: string, p: PodSpec, q: PodSpec,
    found: Option<States>) {
    && n in c.names && n !in s.pods
    && p.name == n && p.namespace == c.sts.key.namespace && BelongsTo(p.owners, p.name, c.sts.key.name)
    && (if found.None? then m.lookupsFail
        else exists v | v in s.versions :: found.value == v.podStates && (m.staleRecord || v == s.record))
    && Created(p, q, found)
    && t == WithPod(s, n, LivePod(q, "", ""))
  }

  ghost predicate Schedule(s: State, t: State) { exists n, node :: ScheduleAs(s, t, n, node) }

  /** The scheduler picks a node that the pod's affinity admits. */
  ghost predicate ScheduleAs(s: State, t: State, n: string, node: string) {
    && n in s.pods && s.pods[n].node == "" && node != ""
    && Admits(s.pods[n].spec, map[HOSTNAME := node])
    && t == WithPod(s, n, s.pods[n].(node := node))
  }

  ghost predicate Assign(s: State, t: State) { exists n, ip :: AssignAs(s, t, n, ip) }

  /** The network plugin gives the address that is asked for, if one is. */
  ghost predicate AssignAs(s: State, t: State, n: string, ip: string) {
    && n in s.pods && s.pods[n].ip == "" && ip != ""
    && (RequestedIp(s.pods[n].spec).Some? ==> ip == RequestedIp(s.pods[n].spec).value)
    && t == WithPod(s, n, s.pods[n].(ip := ip))
  }

  ghost predicate DeletePod(s: State, t: State) {
    exists n :: n in s.pods && t == s.(pods := s.pods - {n})
  }

  // ---- the steps of one reconcile ----

  ghost predicate ListPods(m: Mode, s: State, t: State) {
    && s.worker.Idle? && t.worker.Visiting?
    && (forall x | x in t.worker.items :: x in s.seen && (m.staleLists || Alive(s, x)))
    && t == s.(worker := Visiting(t.worker.items, 0, map[]))
  }

  predicate Alive(s: State, x: Item) { x.name in s.pods && x == ItemOf(x.name, s.pods[x.name]) }

  ghost predicate Visit(c: Setting, s: State, t: State) {
    && s.worker.Visiting? && s.worker.i < |s.worker.items| && t.worker.Visiting?
    && Visited(c.sts, s.worker.items[s.worker.i], Progress(s.reservations, s.worker.states),
         Progress(t.reservations, t.worker.states))
    && t == s.(reservations := t.reservations, worker := s.worker.(i := s.worker.i + 1, states := t.worker.states))
  }

  ghost predicate EndVisits(s: State, t: State) {
    && s.worker.Visiting? && s.worker.i >= |s.worker.items|
    && t == s.(worker := if s.worker.states == map[] then Idle else Reading(s.worker.states))
  }

  ghost predicate ReadRecord(m: Mode, s: State, t: State) {
    && s.worker.Reading?
    && exists existing | existing in s.versions && (m.staleRecord || existing == s.record) ::
      t == s.(worker := if Replaces(existing, s.worker.states) then Writing(s.worker.states) else Idle)
  }

  /** The write is done or it is given up; a write that is reported as failed may be done. */
  ghost predicate WriteRecord(s: State, t: State) {
    && s.worker.Writing?
    && var status := Status(0, s.worker.states);
    (t == s.(worker := Idle) || t == s.(worker := Idle, record := status, versions := s.versions + {status}))
  }

  /** The worker gives up at any point. */
  ghost predicate GiveUp(s: State, t: State) { t == s.(worker := Idle) }

  ghost predicate Next(c: Setting, m: Mode, s: State, t: State) {
    || CreatePod(c, m, s, t) || Schedule(s, t) || Assign(s, t) || DeletePod(s, t)
    || ListPods(m, s, t) || Visit(c, s, t) || EndVisits(s, t) || ReadRecord(m, s, t) || WriteRecord(s, t)
    || GiveUp(s, t)
  }

  ghost predicate Behaviour(c: Setting, m: Mode, run: seq<State>) {
    |run| > 0 && forall i | 0 <= i < |run| - 1 :: Next(c, m, run[i], run[i + 1])
  }

  // ---- the invariant ----

  predicate FullEntry(s: PodState) { s.node != "" && s.ip != "" && s == StateOf(Pod(map[], s.node, s.ip)) }

  /** Every pod name is recorded, with a node and an address. */
  predicate Complete(c: Setting, r: States) { forall n | n in c.names :: n in r && FullEntry(r[n]) }

  predicate ItemAgrees(c: Setting, r: States, x: Item) {
    x.name in c.names && x.name in r && x.pod.node in {"", r[x.name].node} && x.pod.ip in {"", r[x.name].ip}
  }

  /** A live pod has its recorded node and address, or can only get them. */
  ghost predicate PodAgrees(c: Setting, r: States, n: string, p: LivePod) {
    && ItemAgrees(c, r, ItemOf(n, p))
    && (p.ip == "" ==> RequestedIp(p.spec) == Some(r[n].ip))
    && (p.node == "" ==> forall node :: Admits(p.spec, map[HOSTNAME := node]) ==> node == r[n].node)
  }

  ghost predicate StatesAgree(c: Setting, r: States, states: States) {
    forall n | n in states :: n in c.names && n in r && states[n] == r[n]
  }

  ghost predicate WorkerAgrees(c: Setting, r: States, w: Worker) {
    match w
    case Idle => true
    case Visiting(items, i, states) => StatesAgree(c, r, states) && forall x | x in items :: ItemAgrees(c, r, x)
    case Reading(states) => StatesAgree(c, r, states)
    case Writing(states) => StatesAgree(c, r, states) && |states| >= |r|
  }

  /** The record is `r`, and whatever is alive, under way or cached agrees with it. */
  ghost predicate Agrees(c: Setting, r: States, s: State) {
    && Complete(c, r) && s.record.podStates == r
    && (forall v | v in s.versions :: v.podStates == r)
    && (forall n | n in s.pods :: PodAgrees(c, r, n, s.pods[n]))
    && (forall x | x in s.seen :: ItemAgrees(c, r, x))
    && WorkerAgrees(c, r, s.worker)
    && (forall n | n in c.names :: ReservedAt(s.reservations, c.sts.key.namespace, n, r[n]))
  }

  /** The pigeonhole: states that agree with the record and are no fewer are the record. */
  lemma NoFewerIsAll(c: Setting, r: States, states: States)
    requires StatesAgree(c, r, states) && |states| >= |r|
    ensures states == r
  {
    assert states.Keys <= r.Keys && |states.Keys| == |states| && |r.Keys| == |r|;
    Subsets(states.Keys, r.Keys);
  }

  lemma CreateAgrees(c: Setting, m: Mode, r: States, s: State, t: State)
    requires Agrees(c, r, s) && CreatePod(c, m, s, t) && !m.lookupsFail && c.sts.key.name != ""
    ensures Agrees(c, r, t)
  {
    var n, p, q, found :| CreatePodAs(c, m, s, t, n, p, q, found);
    forall a | BelongsTo(p.owners, p.name, a) ensures a == c.sts.key.name {
      BelongsToOne(p.owners, p.name, a, c.sts.key.name);
    }
    assert q == Pin(p, r[n]);
    forall node | Admits(q, map[HOSTNAME := node]) ensures node == r[n].node {
      PinMeans(p, r[n], map[HOSTNAME := node]);
    }
    PinMeans(p, r[n], map[]);
    PodChangeAgrees(c, r, s, n, LivePod(q, "", ""));
  }

  /** A pod of the set that changes into one that agrees leaves everything agreeing. */
  lemma PodChangeAgrees(c: Setting, r: States, s: State, n: string, p: LivePod)
    requires Agrees(c, r, s) && PodAgrees(c, r, n, p)
    ensures Agrees(c, r, WithPod(s, n, p))
  {
    hide ItemAgrees; hide ReservedAt; hide WorkerAgrees; hide Complete;
    assert ItemAgrees(c, r, ItemOf(n, p)) by { UnfoldPodAgrees(c, r, n, p); }
    hide PodAgrees;
  }

  lemma UnfoldPodAgrees(c: Setting, r: States, n: string, p: LivePod)
    requires PodAgrees(c, r, n, p)
    ensures ItemAgrees(c, r, ItemOf(n, p))
  {
  }

  lemma PlacementAgrees(c: Setting, r: States, s: State, t: State)
    requires Agrees(c, r, s) && (Schedule(s, t) || Assign(s, t))
    ensures Agrees(c, r, t)
  {
    if Schedule(s, t) {
      var n, node :| ScheduleAs(s, t, n, node);
      ScheduledAgrees(c, r, n, s.pods[n], node);
      PodChangeAgrees(c, r, s, n, s.pods[n].(node := node));
    } else {
      var n, ip :| AssignAs(s, t, n, ip);
      AssignedAgrees(c, r, n, s.pods[n], ip);
      PodChangeAgrees(c, r, s, n, s.pods[n].(ip := ip));
    }
  }

  lemma ScheduledAgrees(c: Setting, r: States, n: string, p: LivePod, node: string)
    requires PodAgrees(c, r, n, p) && p.node == "" && Admits(p.spec, map[HOSTNAME := node])
    ensures PodAgrees(c, r, n, p.(node := node))
  {
  }

  lemma AssignedAgrees(c: Setting, r: States, n: string, p: LivePod, ip: string)
    requires PodAgrees(c, r, n, p) && p.ip == "" && (RequestedIp(p.spec).Some? ==> ip == RequestedIp(p.spec).value)
    ensures PodAgrees(c, r, n, p.(ip := ip))
  {
  }

  lemma VisitAgrees(c: Setting, r: States, s: State, t: State)
    requires Agrees(c, r, s) && Visit(c, s, t)
    ensures Agrees(c, r, t)
  {
    hide PodAgrees;
    var x := s.worker.items[s.worker.i];
    assert x in s.worker.items && ItemAgrees(c, r, x);
    forall n | n in c.names ensures ReservedAt(t.reservations, c.sts.key.namespace, n, r[n]) {
      assert ReservedAt(s.reservations, c.sts.key.namespace, n, r[n]);
      ReservationsOfOneNamespace(c.sts.key.namespace, n, x.name);
    }
  }

  lemma WriteAgrees(c: Setting, r: States, s: State, t: State)
    requires Agrees(c, r, s) && WriteRecord(s, t)
    ensures Agrees(c, r, t)
  {
    NoFewerIsAll(c, r, s.worker.states);
  }

  /** One step, whichever it is, keeps the agreement and with it the record. */
  lemma NextAgrees(c: Setting, m: Mode, r: States, s: State, t: State)
    requires Agrees(c, r, s) && Next(c, m, s, t) && !m.lookupsFail && c.sts.key.name != ""
    ensures Agrees(c, r, t)
  {
    if CreatePod(c, m, s, t) { CreateAgrees(c, m, r, s, t); }
    else if Schedule(s, t) || Assign(s, t) { PlacementAgrees(c, r, s, t); }
    else if Visit(c, s, t) { VisitAgrees(c, r, s, t); }
    else if WriteRecord(s, t) { WriteAgrees(c, r, s, t); }
    else { QuietAgrees(c, m, r, s, t); }
  }

  lemma QuietAgrees(c: Setting, m: Mode, r: States, s: State, t: State)
    requires Agrees(c, r, s)
    requires DeletePod(s, t) || ListPods(m, s, t) || EndVisits(s, t) || ReadRecord(m, s, t) || GiveUp(s, t)
    ensures Agrees(c, r, t)
  {
    hide PodAgrees; hide ItemAgrees; hide ReservedAt; hide Complete; hide StatesAgree; hide ListPods; hide ReadRecord;
    if ListPods(m, s, t) { ListAgrees(c, m, r, s, t); }
    if ReadRecord(m, s, t) { ReadAgrees(c, m, r, s, t); }
  }

  lemma ListAgrees(c: Setting, m: Mode, r: States, s: State, t: State)
    requires Agrees(c, r, s) && ListPods(m, s, t)
    ensures Agrees(c, r, t)
  {
    hide PodAgrees; hide ItemAgrees; hide ReservedAt; hide Complete;
    assert forall x | x in t.worker.items :: x in s.seen;
    assert WorkerAgrees(c, r, t.worker);
  }

  lemma ReadAgrees(c: Setting, m: Mode, r: States, s: State, t: State)
    requires Agrees(c, r, s) && ReadRecord(m, s, t)
    ensures Agrees(c, r, t)
  {
    hide PodAgrees; hide ItemAgrees; hide ReservedAt; hide Complete; hide StatesAgree;
  }

  /** Stable identity: along every behaviour, with reads as stale as they like and writes
      and reservations failing at will, a complete record never changes, its reservations
      stay, and every pod that gets a node and an address gets the recorded ones. */
  lemma {:induction false} StableIdentity(c: Setting, m: Mode, r: States, run: seq<State>, k: nat)
    requires Behaviour(c, m, run) && Agrees(c, r, run[0]) && !m.lookupsFail && c.sts.key.name != ""
    requires k < |run|
    ensures Agrees(c, r, run[k]) && run[k].record.podStates == r
    ensures forall n | n in c.names :: Reserves(run[k].reservations, c.sts.key.namespace, n, r[n].ip)
    ensures forall n | n in run[k].pods && run[k].pods[n].node != "" && run[k].pods[n].ip != "" ::
      RecordedAs(r, n, run[k].pods[n].node, run[k].pods[n].ip)
  {
    if k > 0 {
      StableIdentity(c, m, r, run, k - 1);
      NextAgrees(c, m, r, run[k - 1], run[k]);
    }
    assert forall n | n in run[k].pods :: PodAgrees(c, r, n, run[k].pods[n]);
    assert forall n | n in c.names :: ReservedAt(run[k].reservations, c.sts.key.namespace, n, r[n]);
  }

  /** `s` is the cluster `w` at rest: every pod of the set runs, and no read is out of date. */
  ghost predicate AtRest(c: Setting, w: World, s: State) {
    && s.worker == Idle && c.sts.key in w.records && s.record == w.records[c.sts.key].status && s.versions == {s.record}
    && s.reservations == w.reservations && s.pods.Keys == c.names && PodNames(w.pods, c.sts) == c.names
    && (forall n | n in c.names :: Usable(w.pods[Key(c.sts.key.namespace, n)])
         && s.pods[n].node == w.pods[Key(c.sts.key.namespace, n)].node
         && s.pods[n].ip == w.pods[Key(c.sts.key.namespace, n)].ip)
    && (forall x | x in s.seen :: x.name in s.pods && x == ItemOf(x.name, s.pods[x.name]))
  }

  /** How a record becomes complete: once all pods run, two undisturbed reconciles reach a
      state from which the record is fixed for good. */
  lemma TwoReconcilesFixIdentity(c: Setting, w0: World, w1: World, w2: World, s: State)
    requires Reconciled(w0, w1, c.sts) && Reconciled(w1, w2, c.sts) && AtRest(c, w2, s) && c.names != {}
    requires c.sts.key in w0.records ==> |w0.records[c.sts.key].status.podStates| <= |c.names|
    ensures Agrees(c, UsableStates(w0.pods, c.sts), s)
  {
    var r := UsableStates(w0.pods, c.sts);
    assert r.Keys == c.names && |r.Keys| == |r|;
    assert r != map[];
    Settled(w0, w1, w2, c.sts);
    forall n | n in c.names ensures ReservedAt(s.reservations, c.sts.key.namespace, n, r[n]) { assert n in r; }
    forall n | n in s.pods ensures PodAgrees(c, r, n, s.pods[n]) { assert n in c.names; }
  }

  lemma Settled(w0: World, w1: World, w2: World, sts: StatefulSet)
    requires Reconciled(w0, w1, sts) && Reconciled(w1, w2, sts) && UsableStates(w0.pods, sts) != map[]
    requires sts.key in w0.records ==> |w0.records[sts.key].status.podStates| <= |UsableStates(w0.pods, sts)|
    ensures sts.key in w2.records && w2.records[sts.key].status == Status(0, UsableStates(w0.pods, sts))
    ensures Reserved(w0.reservations, w2.reservations, sts.key.namespace, UsableStates(w0.pods, sts))
  {
    hide Reserved; hide UsableStates;
    ReservedAgain(w0.reservations, w1.reservations, w2.reservations, sts.key.namespace, UsableStates(w0.pods, sts));
  }

  // ---- the record never shrinks ----

  /** What is about to be written has no fewer pods than what is there. */
  predicate WriteIsNoFewer(s: State) { s.worker.Writing? ==> |s.worker.states| >= |s.record.podStates| }

  lemma NextKeepsCount(c: Setting, m: Mode, s: State, t: State)
    requires WriteIsNoFewer(s) && Next(c, m, s, t) && !m.staleRecord
    ensures WriteIsNoFewer(t) && |t.record.podStates| >= |s.record.podStates|
  {
    hide Created; hide Admits; hide RequestedIp;
  }

  /** With reads of the record up to date, the number of recorded pods never decreases over
      any behaviour, whether or not the record is complete and whatever fails. */
  lemma {:induction false} CountNeverDecreasesOverRuns(c: Setting, m: Mode, run: seq<State>, i: nat, j: nat)
    requires Behaviour(c, m, run) && WriteIsNoFewer(run[0]) && !m.staleRecord && i <= j < |run|
    ensures |run[j].record.podStates| >= |run[i].record.podStates| && WriteIsNoFewer(run[j])
    decreases j
  {
    hide Next;
    if j > 0 {
      CountNeverDecreasesOverRuns(c, m, run, if i < j then i else j - 1, j - 1);
      NextKeepsCount(c, m, run[j - 1], run[j]);
    }
  }

  // ---- a reconcile of the code is a behaviour ----

  /** The items as the machine knows them, without labels. */
  function Bare(items: seq<Item>): seq<Item> {
    seq(|items|, i requires 0 <= i < |items| => Item(items[i].name, Pod(map[], items[i].pod.node, items[i].pod.ip)))
  }

  /** What the record can be after a reconcile that read `existing` and found `states`. */
  predicate SavedAs(record: Status, existing: Status, states: States, next: Status) {
    next == record || (Replaces(existing, states) && next == Status(0, states))
  }

  /** The state after a reconcile. */
  function Saved(s: State, p: Progress, next: Status): State {
    var versions := if next == s.record then s.versions else s.versions + {next};
    s.(worker := Idle, reservations := p.reservations, record := next, versions := versions)
  }

  function AtRound(s: State, items: seq<Item>, rounds: seq<Progress>, i: nat): State
    requires i < |rounds|
  {
    s.(worker := Visiting(items, i, rounds[i].states), reservations := rounds[i].reservations)
  }

  function AllRounds(s: State, items: seq<Item>, rounds: seq<Progress>): seq<State> {
    seq(|rounds|, i requires 0 <= i < |rounds| => AtRound(s, items, rounds, i))
  }

  lemma RoundsAreVisits(c: Setting, m: Mode, s: State, items: seq<Item>, rounds: seq<Progress>)
    requires Rounds(c.sts, items, rounds) && s.worker.Idle? && rounds[0] == Progress(s.reservations, map[])
    requires forall x | x in Bare(items) :: x in s.seen && (m.staleLists || Alive(s, x))
    ensures Behaviour(c, m, [s] + AllRounds(s, Bare(items), rounds))
  {
    var bare := Bare(items);
    var run := [s] + AllRounds(s, bare, rounds);
    assert ListPods(m, s, run[1]);
    forall i | 0 <= i < |run| - 1 ensures Next(c, m, run[i], run[i + 1]) {
      if i > 0 {
        assert Visited(c.sts, items[i - 1], rounds[i - 1], rounds[i])
          && Visited(c.sts, bare[i - 1], rounds[i - 1], rounds[i]);
        assert Visit(c, run[i], run[i + 1]);
      }
    }
  }

  /** From the end of the loop to the end of the reconcile. */
  function Ending(s: State, items: seq<Item>, p: Progress, next: Status): seq<State> {
    var t := s.(reservations := p.reservations);
    var visited := t.(worker := Visiting(items, |items|, p.states));
    if next == s.record then [visited, t]
    else [visited, t.(worker := Reading(p.states)), t.(worker := Writing(p.states)), Saved(s, p, next)]
  }

  lemma EndingIsBehaviour(c: Setting, m: Mode, s: State, items: seq<Item>, p: Progress, existing: Status, next: Status)
    requires s.worker.Idle? && SavedAs(s.record, existing, p.states, next)
    requires existing in s.versions && (m.staleRecord || existing == s.record)
    ensures Behaviour(c, m, Ending(s, items, p, next))
    ensures var run := Ending(s, items, p, next); run[|run| - 1] == Saved(s, p, next)
  {
    var run := Ending(s, items, p, next);
    if next == s.record {
      assert GiveUp(run[0], run[1]);
    } else {
      assert EndVisits(run[0], run[1]) && ReadRecord(m, run[1], run[2]) && WriteRecord(run[2], run[3]);
    }
  }

  lemma Joined(c: Setting, m: Mode, first: seq<State>, second: seq<State>)
    requires Behaviour(c, m, first) && Behaviour(c, m, second) && second[0] == first[|first| - 1]
    ensures var run := first + second[1..];
      Behaviour(c, m, run) && run[0] == first[0] && run[|run| - 1] == second[|second| - 1]
  {
    hide Next;
    var run := first + second[1..];
    forall i | 0 <= i < |run| - 1 ensures Next(c, m, run[i], run[i + 1]) {
      if i >= |first| - 1 { assert run[i] == second[i - |first| + 1] && run[i + 1] == second[i - |first| + 2]; }
    }
  }

  /** One reconcile, whatever fails in it, is a sequence of the machine's steps: the rounds of
      its loop are visits, and what it makes of the record is reading and writing it. */
  lemma ReconcileIsBehaviour(c: Setting, m: Mode, s: State, items: seq<Item>, rounds: seq<Progress>,
    existing: Status, next: Status)
      returns (run: seq<State>)
    requires Rounds(c.sts, items, rounds) && s.worker.Idle? && rounds[0] == Progress(s.reservations, map[])
    requires forall x | x in Bare(items) :: x in s.seen && (m.staleLists || Alive(s, x))
    requires existing in s.versions && (m.staleRecord || existing == s.record)
    requires SavedAs(s.record, existing, rounds[|items|].states, next)
    ensures Behaviour(c, m, run) && |run| > 0 && run[0] == s && run[|run| - 1] == Saved(s, rounds[|items|], next)
  {
    hide Behaviour; hide SavedAs; hide Saved; hide Rounds;
    assert |rounds| == |items| + 1 by { RoundsLength(c.sts, items, rounds); }
    RoundsAreVisits(c, m, s, items, rounds);
    EndingIsBehaviour(c, m, s, Bare(items), rounds[|items|], existing, next);
    var first, second := [s] + AllRounds(s, Bare(items), rounds), Ending(s, Bare(items), rounds[|items|], next);
    assert second[0] == first[|first| - 1];
    Joined(c, m, first, second);
    run := first + second[1..];
  }

  lemma RoundsLength(sts: StatefulSet, items: seq<Item>, rounds: seq<Progress>)
    requires Rounds(sts, items, rounds)
    ensures |rounds| == |items| + 1
  {
  }

  /** The machine's state is the cluster's: the same pods, as far as they go, the same
      reservations and the same record. */
  ghost predicate Mirrors(c: Setting, w: World, s: State) {
    && s.worker.Idle? && s.reservations == w.reservations
    && c.sts.key in w.records && s.record == w.records[c.sts.key].status && s.record in s.versions
    && forall n | Listed(w.pods, c.sts, n) ::
      && n in s.pods && ItemOf(n, s.pods[n]) in s.seen
      && s.pods[n].node == w.pods[Key(c.sts.key.namespace, n)].node
      && s.pods[n].ip == w.pods[Key(c.sts.key.namespace, n)].ip
  }

  /** What the reconciler's contract says of a cluster with a record makes it a behaviour. */
  lemma ReconcilerRefines(c: Setting, m: Mode, w: World, next: World, s: State, states: States, items: seq<Item>,
    rounds: seq<Progress>)
      returns (run: seq<State>)
    requires Mirrors(c, w, s) && PartlyDecided(w.records, next.records, c.sts, states)
    requires AreListed(items, w.pods, c.sts) && Rounds(c.sts, items, rounds)
    requires rounds[0] == Progress(w.reservations, map[]) && rounds[|items|] == Progress(next.reservations, states)
    ensures Behaviour(c, m, run) && run[0] == s
    ensures var t := run[|run| - 1];
      t == s.(reservations := next.reservations, record := next.records[c.sts.key].status, versions := t.versions)
  {
    forall x | x in Bare(items) ensures x in s.seen && Alive(s, x) {
      var i :| 0 <= i < |items| && Bare(items)[i] == x;
      assert Listed(w.pods, c.sts, items[i].name);
    }
    run := ReconcileIsBehaviour(c, m, s, items, rounds, s.record, next.records[c.sts.key].status);
  }

  // ---- what the assumptions are needed for ----

  /** The rounds of a loop in which nothing fails. */
  function Successes(sts: StatefulSet, items: seq<Item>, rs: Reservations, n: nat): Progress
    requires n <= |items|
  {
    if n == 0 then Progress(rs, map[])
    else
      var before, x := Successes(sts, items, rs, n - 1), items[n - 1];
      Progress(before.reservations[ReservationName(Key(sts.key.namespace, x.name)) := [Cidr(x.pod.ip)]],
               before.states[x.name := StateOf(x.pod)])
  }

  /** The pods of a record, as they run. */
  ghost predicate Itemises(items: seq<Item>, r: States) {
    && (forall i | 0 <= i < |items| ::
         items[i].name in r && items[i].pod == Pod(map[], r[items[i].name].node, r[items[i].name].ip))
    && forall n | n in r :: exists i | 0 <= i < |items| :: items[i].name == n
  }

  lemma {:induction false} ItemsOf(r: States) returns (items: seq<Item>)
    ensures Itemises(items, r)
    decreases |r|
  {
    if n :| n in r {
      var rest := ItemsOf(r - {n});
      items := [Item(n, Pod(map[], r[n].node, r[n].ip))] + rest;
      ItemisesMore(rest, r, n);
    } else {
      items := [];
    }
  }

  lemma ItemisesMore(rest: seq<Item>, r: States, n: string)
    requires n in r && Itemises(rest, r - {n})
    ensures Itemises([Item(n, Pod(map[], r[n].node, r[n].ip))] + rest, r)
  {
    var items := [Item(n, Pod(map[], r[n].node, r[n].ip))] + rest;
    forall k | k in r ensures exists i | 0 <= i < |items| :: items[i].name == k {
      if k == n {
        assert items[0].name == k;
      } else {
        assert k in r - {n};
        var i :| 0 <= i < |rest| && rest[i].name == k;
        assert items[i + 1].name == k;
      }
    }
  }

  /** What is recorded is recorded as in `r`, and reserved. */
  predicate Succeeded(c: Setting, p: Progress, r: States) {
    forall k | k in p.states ::
      k in r && p.states[k] == r[k] && ReservedAt(p.reservations, c.sts.key.namespace, k, r[k])
  }

  lemma SuccessStep(c: Setting, before: Progress, x: Item, r: States)
    requires Succeeded(c, before, r) && x.name in r && StateOf(x.pod) == r[x.name]
    ensures Succeeded(c,
      Progress(before.reservations[ReservationName(Key(c.sts.key.namespace, x.name)) := [Cidr(x.pod.ip)]],
                                  before.states[x.name := StateOf(x.pod)]), r)
  {
    forall k | k in before.states && k != x.name
      ensures ReservationName(Key(c.sts.key.namespace, k)) != ReservationName(Key(c.sts.key.namespace, x.name))
    {
      ReservationsOfOneNamespace(c.sts.key.namespace, k, x.name);
    }
  }

  /** A loop in which nothing fails reserves and records what it is given. */
  lemma {:induction false} SuccessesAre(c: Setting, items: seq<Item>, rs: Reservations, r: States, n: nat)
    requires Itemises(items, r) && (forall k | k in r :: FullEntry(r[k])) && n <= |items|
    ensures var p := Successes(c.sts, items, rs, n);
      Succeeded(c, p, r) && forall i | 0 <= i < n :: items[i].name in p.states
  {
    hide Succeeded;
    if n > 0 {
      SuccessesAre(c, items, rs, r, n - 1);
      assert FullEntry(r[items[n - 1].name]);
      SuccessStep(c, Successes(c.sts, items, rs, n - 1), items[n - 1], r);
    } else {
      NothingSucceeded(c, rs, r);
    }
  }

  lemma NothingSucceeded(c: Setting, rs: Reservations, r: States)
    ensures Succeeded(c, Progress(rs, map[]), r)
  {
  }

  lemma AllSucceed(c: Setting, items: seq<Item>, rs: Reservations, r: States) returns (rounds: seq<Progress>)
    requires Itemises(items, r) && forall k | k in r :: FullEntry(r[k])
    ensures Rounds(c.sts, items, rounds) && rounds[0] == Progress(rs, map[]) && rounds[|items|].states == r
    ensures forall k | k in r :: ReservedAt(rounds[|items|].reservations, c.sts.key.namespace, k, r[k])
  {
    rounds := seq(|items| + 1, i requires 0 <= i <= |items| => Successes(c.sts, items, rs, i));
    forall i | 0 <= i < |items| ensures Visited(c.sts, items[i], rounds[i], rounds[i + 1]) { }
    SuccessesAre(c, items, rs, r, |items|);
  }

  lemma RunningIsAlive(s: State, items: seq<Item>, r: States)
    requires Itemises(items, r)
    requires forall k | k in r ::
      k in s.pods && s.pods[k].node == r[k].node && s.pods[k].ip == r[k].ip && ItemOf(k, s.pods[k]) in s.seen
    ensures forall x | x in Bare(items) :: x in s.seen && Alive(s, x)
  {
    forall x | x in Bare(items) ensures x in s.seen && Alive(s, x) {
      var i :| 0 <= i < |items| && Bare(items)[i] == x;
    }
  }

  /** From a state in which the pods of `r` run, one reconcile without failures makes `r` the
      record, if what it reads of the record lets it. */
  lemma RunningIsRecorded(c: Setting, m: Mode, s: State, r: States, existing: Status) returns (run: seq<State>)
    requires s.worker.Idle? && existing in s.versions && (m.staleRecord || existing == s.record)
    requires Replaces(existing, r) && forall k | k in r :: FullEntry(r[k])
    requires forall k | k in r ::
      k in s.pods && s.pods[k].node == r[k].node && s.pods[k].ip == r[k].ip && ItemOf(k, s.pods[k]) in s.seen
    ensures Behaviour(c, m, run) && |run| > 0 && run[0] == s && run[|run| - 1].record == Status(0, r)
  {
    hide Behaviour; hide Replaces; hide Itemises; hide Rounds; hide Bare; hide Alive;
    var items := ItemsOf(r);
    var rounds := AllSucceed(c, items, s.reservations, r);
    RoundsLength(c.sts, items, rounds);
    RunningIsAlive(s, items, r);
    run := ReconcileIsBehaviour(c, m, s, items, rounds, existing, Status(0, r));
  }

  /** A pod of the set that is admitted without a pin. */
  function UnpinnedSpec(c: Setting, n: string): PodSpec {
    PodSpec(c.sts.key.namespace, n, [Owner(STATEFUL_SET, c.sts.key.name)], Some(map[]), None)
  }

  function Unpinned(c: Setting, s: State, n: string, node: string, ip: string): seq<State> {
    var p := LivePod(UnpinnedSpec(c, n), "", "");
    var t := WithPod(s, n, p);
    var u := WithPod(t, n, p.(node := node));
    [s, t, u, WithPod(u, n, p.(node := node, ip := ip))]
  }

  lemma UnpinnedGoesAnywhere(c: Setting, s: State, n: string, node: string, ip: string, m: Mode)
    requires n in c.names && n !in s.pods && node != "" && ip != "" && m.lookupsFail
    ensures Behaviour(c, m, Unpinned(c, s, n, node, ip))
  {
    var run, spec := Unpinned(c, s, n, node, ip), UnpinnedSpec(c, n).(annotations := None);
    assert FirstStatefulSet(spec.owners, 0) && spec.owners[0] in spec.owners;
    assert CreatePodAs(c, m, s, run[1], n, spec, UnpinnedSpec(c, n), None);
    assert ScheduleAs(run[1], run[2], n, node);
    assert AssignAs(run[2], run[3], n, ip);
  }

  /** All pods but `n` run as they are recorded. */
  function AllBut(c: Setting, r: States, n: string): map<string, LivePod> {
    map k | k in r && k != n :: LivePod(UnpinnedSpec(c, k), r[k].node, r[k].ip)
  }

  /** A state in which all but one pod of a complete record run, and nothing else goes on. */
  lemma AllButOneAgrees(c: Setting, r: States, n: string) returns (s: State)
    requires Complete(c, r) && r.Keys == c.names
    ensures Agrees(c, r, s) && s.pods == AllBut(c, r, n) && s.worker.Idle? && s.record == Status(0, r)
      && s.record in s.versions
    ensures forall k | k in s.pods :: ItemOf(k, s.pods[k]) in s.seen
  {
    var items := ItemsOf(r);
    var rounds := AllSucceed(c, items, map[], r);
    var pods := AllBut(c, r, n);
    var seen := set k | k in pods :: ItemOf(k, pods[k]);
    s := State(Status(0, r), pods, rounds[|items|].reservations, Idle, seen, {Status(0, r)});
    forall k | k in s.pods ensures PodAgrees(c, r, k, s.pods[k]) { assert k in c.names && FullEntry(r[k]); }
  }

  /** The webhook's lookup must not fail: whatever the complete record of whatever set, if no
      other names are recorded, one failed lookup can move a pod and the record with it. */
  lemma FailedLookupMovesThePod(c: Setting, r: States, n: string, node: string, ip: string) returns (run: seq<State>)
    requires Complete(c, r) && r.Keys == c.names && n in c.names && node != "" && ip != ""
      && r[n] != StateOf(Pod(map[], node, ip))
    ensures Behaviour(c, Mode(true, false, false), run) && Agrees(c, r, run[0])
    ensures run[|run| - 1].record.podStates == r[n := StateOf(Pod(map[], node, ip))]
  {
    hide Behaviour; hide Agrees;
    var m, moved := Mode(true, false, false), r[n := StateOf(Pod(map[], node, ip))];
    var s := AllButOneAgrees(c, r, n);
    UnpinnedGoesAnywhere(c, s, n, node, ip, m);
    var first := Unpinned(c, s, n, node, ip);
    MovedReplaces(r, n, moved);
    forall k | k in moved ensures FullEntry(moved[k]) { assert k in c.names; }
    var second := RunningIsRecorded(c, m, first[3], moved, Status(0, r));
    Joined(c, m, first, second);
    run := first + second[1..];
  }

  lemma MovedReplaces(r: States, n: string, moved: States)
    requires n in r && n in moved && moved == r[n := moved[n]] && moved[n] != r[n]
    ensures Replaces(Status(0, r), moved)
  {
    assert moved.Keys == r.Keys && |moved.Keys| == |moved| && |r.Keys| == |r|;
  }

  // ---- a record with a name too many ----

  ghost predicate NamedWorker(c: Setting, w: Worker) {
    match w
    case Idle => true
    case Visiting(items, i, states) => states.Keys <= c.names && forall x | x in items :: x.name in c.names
    case Reading(states) => states.Keys <= c.names
    case Writing(states) => false
  }

  /** The record is `r`, which has more names than there are pods, and only these pods are
      seen. */
  ghost predicate Frozen(c: Setting, r: States, s: State) {
    && |c.names| < |r| && s.record.podStates == r && (forall v | v in s.versions :: v.podStates == r)
    && s.pods.Keys <= c.names && (forall x | x in s.seen :: x.name in c.names) && NamedWorker(c, s.worker)
  }

  lemma NextKeepsFrozen(c: Setting, m: Mode, r: States, s: State, t: State)
    requires Frozen(c, r, s) && Next(c, m, s, t)
    ensures Frozen(c, r, t)
  {
    hide Created; hide Admits; hide RequestedIp;
    if ReadRecord(m, s, t) {
      assert |s.worker.states.Keys| == |s.worker.states|;
      Subsets(s.worker.states.Keys, c.names);
    }
  }

  /** The length test keeps such a record for ever, whatever fails: no reconcile can find as
      many pods. */
  lemma {:induction false} LargerRecordIsFrozen(c: Setting, m: Mode, r: States, run: seq<State>, k: nat)
    requires Behaviour(c, m, run) && Frozen(c, r, run[0]) && k < |run|
    ensures Frozen(c, r, run[k]) && run[k].record.podStates == r
  {
    hide Next;
    if k > 0 {
      LargerRecordIsFrozen(c, m, r, run, k - 1);
      NextKeepsFrozen(c, m, r, run[k - 1], run[k]);
    }
  }

  lemma LargerAgreesIsFrozen(c: Setting, r: States, s: State)
    requires Agrees(c, r, s) && r.Keys != c.names
    ensures Frozen(c, r, s)
  {
    assert c.names <= r.Keys && |r.Keys| == |r|;
    Subsets(c.names, r.Keys);
    if s.worker.Writing? {
      assert |s.worker.states.Keys| == |s.worker.states|;
      Subsets(s.worker.states.Keys, c.names);
    }
  }

  /** So the lookups matter for exactly the records that hold the pods' names and no others:
      only these can change when a lookup fails. */
  lemma LookupsMatterIff(c: Setting, r: States)
    requires Complete(c, r) && c.names != {}
    ensures (exists run, k: nat :: ChangesRecord(c, r, run, k)) <==> r.Keys == c.names
  {
    if run, k: nat :| ChangesRecord(c, r, run, k) {
      if r.Keys != c.names {
        LargerAgreesIsFrozen(c, r, run[0]);
        LargerRecordIsFrozen(c, Mode(true, false, false), r, run, k);
        assert false;
      }
    }
    if r.Keys == c.names {
      var n :| n in c.names;
      var node := r[n].node + "x";
      assert |node| == |r[n].node| + 1;
      var run := FailedLookupMovesThePod(c, r, n, node, "1");
      assert ChangesRecord(c, r, run, |run| - 1);
    }
  }

  /** A behaviour with failing lookups that starts in agreement and changes the record. */
  ghost predicate ChangesRecord(c: Setting, r: States, run: seq<State>, k: nat) {
    Behaviour(c, Mode(true, false, false), run) && Agrees(c, r, run[0]) && k < |run| && run[k].record.podStates != r
  }

  // ---- an outdated read of the record ----

  /** If a read of the record may be out of date, a record can shrink: whatever pods run, if
      the record once was empty, they replace it. */
  lemma StaleReadShrinksTheRecord(c: Setting, r: States, larger: States) returns (run: seq<State>)
    requires r != map[] && |r| < |larger| && forall k | k in r :: FullEntry(r[k])
    ensures Behaviour(c, Mode(false, false, true), run) && WriteIsNoFewer(run[0]) && run[0].record == Status(0, larger)
    ensures run[|run| - 1].record == Status(0, r)
  {
    hide Behaviour;
    var pods := map k | k in r :: LivePod(UnpinnedSpec(c, k), r[k].node, r[k].ip);
    var seen := set k | k in pods :: ItemOf(k, pods[k]);
    var s := State(Status(0, larger), pods, map[], Idle, seen, {NO_STATUS, Status(0, larger)});
    run := RunningIsRecorded(c, Mode(false, false, true), s, r, NO_STATUS);
  }
}
