/** The certificate directory: what is in the way of the atomic writer is cleared, the six
    files are published, and what is published is read back. */
module CertDir {
  import opened Text
  import opened Paths
  import opened FileSystem
  import opened Wrappers
  import opened Publication
  import opened Payloads
  import opened AtomicWriter
  import opened CertProtocol
  import Runs

  const NAMES := [CA_KEY_NAME, CA_CERT_NAME, SERVER_CERT_NAME, SERVER_CERT_NAME2, SERVER_KEY_NAME, SERVER_KEY_NAME2]

  function BytesOf(o: Option<Bytes>): Bytes { if o.Some? then o.value else [] }

  function CertToProjectionMap(c: Artifacts): Payload {
    map[CA_KEY_NAME := BytesOf(c.caKey), CA_CERT_NAME := BytesOf(c.caCert),
        SERVER_CERT_NAME := BytesOf(c.cert), SERVER_CERT_NAME2 := BytesOf(c.cert),
        SERVER_KEY_NAME := BytesOf(c.key), SERVER_KEY_NAME2 := BytesOf(c.key)]
  }

  // ---- payloads whose keys are ordinary names ----

  predicate OrdinaryName(n: Name) { Proper(n) && !Hidden(n) }

  predicate Flat(payload: Payload) { forall n | n in payload :: OrdinaryName(n) }

  /** The list of names that is cleared is the list that is written. */
  ghost predicate Lists(names: seq<Name>, payload: Payload) { forall n :: n in names <==> n in payload }

  lemma OrdinaryKey(n: Name)
    requires OrdinaryName(n)
    ensures ValidPath(n) && Clean(n) == n && CleanKey(n) && Elems(n) == [n] && LinkName(n) == n
  {
    assert Split(n, SEP) == [n];
    assert n[0] != SEP;
    assert Reduce([n], 1, false) == Push(Reduce([n], 0, false), n, false) == [n];
    assert Join([n], SEP) == n;
  }

  lemma FlatIsValid(payload: Payload)
    requires Flat(payload)
    ensures Unreserved(payload) && forall n | n in payload :: ValidPath(n)
  {
    hide ValidPath; hide Clean;
    forall n | n in payload ensures ValidPath(n) && Clean(n) == n && !Hidden(n) { OrdinaryKey(n); }
  }

  /** Cleaning leaves a flat payload as it is. */
  lemma FlatIsClean(payload: Payload, clean: Payload)
    requires Flat(payload) && Cleaning(payload, clean)
    ensures clean == payload
  {
    hide ValidPath; hide Clean;
    forall n | n in payload ensures ValidPath(n) && Clean(n) == n { OrdinaryKey(n); }
    forall k ensures k in clean <==> k in payload {
      if k in payload { assert k in payload.Keys && Clean(k) in clean; }
    }
  }

  lemma FlatFiles(payload: Payload)
    requires Flat(payload)
    ensures forall p :: p in FilesOf(payload) <==> |p| == 1 && p[0] in payload
    ensures forall n {:trigger [n]} | n in payload :: [n] in FilesOf(payload) && FilesOf(payload)[[n]] == payload[n]
  {
    hide Elems;
    forall n | n in payload ensures Elems(n) == [n] { OrdinaryKey(n); }
    forall p ensures p in FilesOf(payload) <==> |p| == 1 && p[0] in payload {
      if p in FilesOf(payload) {
        var k :| k in payload && Elems(k) == p;
      }
      if |p| == 1 && p[0] in payload { assert Elems(p[0]) == [p[0]] == p; }
    }
  }

  lemma FlatHeads(payload: Payload)
    requires Flat(payload)
    ensures Heads(payload) == payload.Keys
  {
    hide LinkName;
    forall n | n in payload ensures LinkName(n) == n { OrdinaryKey(n); }
  }

  /** A flat payload has a file under each of its names. */
  lemma FlatIsUnder(payload: Payload)
    requires Flat(payload)
    ensures Heads(payload) == payload.Keys && Runs.Under(FilesOf(payload), payload.Keys)
  {
    hide FilesOf; hide Heads; hide Proper; hide Hidden;
    FlatHeads(payload);
    FlatFiles(payload);
    forall n | n in payload.Keys ensures exists f | f in FilesOf(payload) :: f[0] == n {
      assert [n] in FilesOf(payload) && [n][0] == n;
    }
  }

  /** Certificates of all times are written under the same names, so that their publication
      is steady. */
  lemma CertificatesAreSteady(c: Artifacts)
    ensures var payload, names := CertToProjectionMap(c), (set n | n in NAMES);
      Heads(payload) == names && Runs.Under(FilesOf(payload), names)
  {
    hide NAMES; hide CertToProjectionMap; hide FilesOf; hide Heads; hide Runs.Under; hide Flat;
    var payload := CertToProjectionMap(c);
    ProjectionIsFlat(c);
    FlatIsUnder(payload);
    assert payload.Keys == set n | n in NAMES;
  }

  lemma ProjectionIsFlat(c: Artifacts)
    ensures CertToProjectionMap(c) != map[] && Flat(CertToProjectionMap(c)) && Lists(NAMES, CertToProjectionMap(c))
    ensures forall n | n in NAMES :: !Hidden(n)
  {
    forall n | n in NAMES ensures OrdinaryName(n) {
      assert n[0] != '.';
      assert forall i | 0 <= i < |n| :: n[i] != SEP;
    }
    assert forall n | n in CertToProjectionMap(c) :: n in NAMES;
    assert CA_KEY_NAME in CertToProjectionMap(c);
  }

  // ---- clearing the way ----

  /** Something that is not a link and that one removal gets rid of. */
  predicate Removable(fs: Tree, n: Name) { Detachable(fs, n) && !fs[[n]].Link? }

  /** The directory after the removals for `names`. */
  function Cleared(fs: Tree, names: seq<Name>): Tree { fs - set n | n in names && Removable(fs, n) :: [n] }

  lemma ClearedStep(fs: Tree, names: seq<Name>, n: Name)
    requires WellFormed(Cleared(fs, names))
    ensures Removable(Cleared(fs, names), n) ==> Cleared(fs, names + [n]) == Cleared(fs, names) - {[n]}
    ensures !Removable(Cleared(fs, names), n) ==> Cleared(fs, names + [n]) == Cleared(fs, names)
  {
    var now := Cleared(fs, names);
    if n in names && Removable(fs, n) {
      assert [n] !in now;
    } else {
      assert [n] in now <==> [n] in fs;
      assert forall q | q in fs && q != [n] && Below([n], q) :: q in now;
    }
  }

  lemma FoundHere(fs: Tree, n: Name)
    requires WellFormed(fs) && [n] in fs && !fs[[n]].Link?
    ensures Resolve(fs, [n]) == Found([n])
  {
    assert [] + [n] == [n] && [n][1..] == [];
    assert Resolve(fs, [n]) == Walk(fs, [n], [], MAX_LINKS);
  }

  lemma RemovalKeepsTidy(fs: Tree, now: Tree, n: Name)
    requires Tidy(fs) && WellFormed(now) && !Hidden(n) && (now == fs || now == fs - {[n]})
    ensures Tidy(now)
  {
    ReservedNames();
    if Current(fs).Some? {
      var ts := Current(fs).value;
      forall q | Below([ts], q) ensures q != [n] { assert q[0] == ts; }
      assert Below([ts], [ts]);
      assert TidyData(now, ts);
    }
  }

  lemma ClearedIsTidy(fs: Tree, names: seq<Name>)
    requires Tidy(fs) && forall n | n in names :: !Hidden(n)
    ensures Tidy(Cleared(fs, names)) && Current(Cleared(fs, names)) == Current(fs)
  {
    ReservedNames();
    var now := Cleared(fs, names);
    assert [DATA] in fs ==> [DATA] in now by { assert [DATA][0] == DATA; }
    forall p | p in now && p != [] ensures IsDir(now, Up(p)) {
      assert IsDir(fs, Up(p)) && Below(Up(p), p) && Up(p) != p;
    }
    if Current(fs).Some? {
      var ts := Current(fs).value;
      assert [ts] in fs ==> [ts] in now by { assert [ts][0] == ts; }
      assert forall n | [ts, n] in now :: [ts, n] in fs;
    }
  }

  // ---- when the files are seen ----

  ghost predicate Published(fs: Tree, payload: Payload) {
    Current(fs).Some? && Exact(fs, Current(fs).value, FilesOf(payload))
  }

  /** The directory serves these files: they are published and every name is a link. */
  ghost predicate Serving(fs: Tree, payload: Payload) {
    Tidy(fs) && Published(fs, payload) && forall n | n in payload :: Owned(fs, n)
  }

  /** A write of something is skipped as unnecessary exactly when it is published. */
  lemma UpToDateIsPublished(fs: Tree, payload: Payload)
    requires Current(fs).Some? && payload != map[]
    ensures UpToDate(fs, Current(fs).value, payload) <==> Published(fs, payload)
  {
    hide FilesOf;
  }

  predicate Vacant(fs: Tree, n: Name) { [n] !in fs || Removable(fs, n) }

  /** A name is free, once the way is cleared, exactly if nothing has it, or a file or an empty
      directory. */
  lemma VacantMeans(fs: Tree, n: Name)
    requires WellFormed(fs)
    ensures Vacant(fs, n) <==>
      [n] !in fs || fs[[n]].File? || (fs[[n]].Dir? && forall q | q in fs && |q| > 1 :: q[0] != n)
  {
    if [n] in fs && fs[[n]].File? {
      forall q | q in fs && Below([n], q) ensures q == [n] {
        if |q| > 1 { Ancestors(fs, q, 1); }
      }
    }
    if [n] in fs && fs[[n]].Dir? {
      assert forall q | q in fs && q != [n] && Below([n], q) :: |q| > 1 && q[0] == n;
      assert forall q | q in fs && |q| > 1 && q[0] == n :: q != [n] && Below([n], q);
    }
  }

  /** A name that will be the writer's link: it is, or it is free once the way is cleared
      and the write is not skipped as unnecessary. */
  ghost predicate Reachable(fs: Tree, payload: Payload, n: Name) {
    Owned(fs, n) || (Vacant(fs, n) && !Published(fs, payload))
  }

  /** Published files are seen exactly when they are served. */
  lemma ServingShows(fs: Tree, payload: Payload)
    requires Tidy(fs) && Flat(payload) && Published(fs, payload)
    ensures Shows(fs, FilesOf(payload)) <==> Serving(fs, payload)
  {
    hide Exact; hide FilesOf; hide Shows; hide Tidy;
    FlatFiles(payload);
    ExactShowsIff(fs, FilesOf(payload));
    if forall f | f in FilesOf(payload) :: Owned(fs, f[0]) {
      forall n | n in payload ensures Owned(fs, n) { assert [n] in FilesOf(payload) && [n][0] == n; }
    }
  }

  lemma ClearedEntry(fs: Tree, names: seq<Name>, n: Name)
    requires n in names
    ensures [n] in Cleared(fs, names) <==> !Vacant(fs, n)
    ensures Owned(Cleared(fs, names), n) <==> Owned(fs, n)
  {
  }

  lemma ClearedForeign(fs: Tree, names: seq<Name>, payload: Payload)
    requires Flat(payload) && Lists(names, payload)
    ensures NoForeign(Cleared(fs, names), FilesOf(payload))
      <==> forall n | n in payload :: Owned(fs, n) || Vacant(fs, n)
  {
    hide FilesOf; hide Cleared; hide Removable; hide Owned; hide Vacant;
    FlatFiles(payload);
    forall n | n in payload
      ensures [n] in Cleared(fs, names) <==> !Vacant(fs, n)
      ensures Owned(Cleared(fs, names), n) <==> Owned(fs, n)
    {
      ClearedEntry(fs, names, n);
    }
    assert forall n | n in payload :: [n] in FilesOf(payload) && [n][0] == n;
  }

  lemma ClearingIsSafe(fs: Tree, names: seq<Name>, payload: Payload)
    requires Tidy(fs) && forall n | n in names :: !Hidden(n)
    ensures Current(Cleared(fs, names)) == Current(fs)
    ensures Published(Cleared(fs, names), payload) <==> Published(fs, payload)
  {
    hide FilesOf; hide Exact; hide Removable;
    ReservedNames();
    var now := Cleared(fs, names);
    forall q | q in fs && q != [] && Hidden(q[0]) ensures q in now {
    }
    if Current(fs).Some? {
      var ts := Current(fs).value;
      forall q | Below([ts], q) ensures (q in now <==> q in fs) && (q in fs ==> now[q] == fs[q]) { assert q[0] == ts; }
      if Published(fs, payload) { ExactKept(fs, now, ts, FilesOf(payload)); }
      if Published(now, payload) { ExactKept(now, fs, ts, FilesOf(payload)); }
    }
  }

  lemma NothingToClear(fs: Tree, names: seq<Name>)
    requires forall n | n in names :: Owned(fs, n)
    ensures Cleared(fs, names) == fs
  {
    assert forall n | n in names :: !Removable(fs, n);
  }

  /** What a write that went through shows. */
  lemma WrittenShows(before: Tree, logs: seq<Tree>, log: seq<Tree>, commit: nat, payload: Payload)
    requires |logs| > 0 && logs[|logs| - 1] == before && logs <= log && commit < |log|
    requires Trace(before, log, |logs|, commit, payload, false)
    ensures Shows(log[|log| - 1], FilesOf(payload)) <==> NoForeign(before, FilesOf(payload))
  {
    hide Managed; hide Shows; hide NoForeign; hide OnlyLinksAdded; hide Tidy; hide Same; hide FilesOf;
    assert Same(log[commit], log[|log| - 1]);
    SameKeepsShows(log[commit], log[|log| - 1], FilesOf(payload));
  }

  lemma SettledIsPublished(before: Tree, fs: Tree, payload: Payload)
    requires Settled(before, fs, payload)
    ensures Published(fs, payload) && [TMP] !in fs
  {
  }

  /** A write that went through: its files are published, and they are seen exactly when no
      name was somebody else's and the way could not be cleared. */
  lemma DoneShows(before: Tree, names: seq<Name>, payload: Payload, logs: seq<Tree>, log: seq<Tree>, commit: nat)
    requires Tidy(before) && Flat(payload) && Lists(names, payload) && forall n | n in names :: !Hidden(n)
    requires var prepared := Cleared(before, names);
      && |logs| > 0 && logs[|logs| - 1] == prepared && logs <= log && commit < |log|
      && Trace(prepared, log, |logs|, commit, payload, false) && Settled(prepared, log[|log| - 1], payload)
      && !Published(prepared, payload)
    ensures Published(log[|log| - 1], payload)
    ensures Shows(log[|log| - 1], FilesOf(payload)) <==> forall n | n in payload :: Reachable(before, payload, n)
  {
    hide Tidy; hide FilesOf; hide Trace; hide Settled; hide Shows; hide NoForeign; hide Published; hide Owned;
    hide Vacant; hide Cleared; hide Hidden; hide Flat; hide Lists;
    var prepared := Cleared(before, names);
    SettledIsPublished(prepared, log[|log| - 1], payload);
    WrittenShows(prepared, logs, log, commit, payload);
    ClearedForeign(before, names, payload);
    ClearingIsSafe(before, names, payload);
  }

  /** A write that was skipped as unnecessary. */
  lemma UnchangedShows(before: Tree, names: seq<Name>, payload: Payload)
    requires Tidy(before) && Flat(payload) && Lists(names, payload) && forall n | n in names :: !Hidden(n)
    requires Tidy(Cleared(before, names)) && Published(Cleared(before, names), payload)
    ensures Shows(Cleared(before, names), FilesOf(payload))
      <==> forall n | n in payload :: Reachable(before, payload, n)
  {
    hide Tidy; hide FilesOf; hide Shows; hide Published; hide Owned; hide Vacant; hide Cleared; hide Hidden;
    hide Flat;
    ServingShows(Cleared(before, names), payload);
    ClearingIsSafe(before, names, payload);
    forall n | n in payload ensures Owned(Cleared(before, names), n) <==> Owned(before, n) {
      ClearedEntry(before, names, n);
    }
  }

  // ---- what a failing call can do to the view ----

  /** `fs` is `before` without some of the entries for `names`. */
  ghost predicate LostOnly(before: Tree, fs: Tree, names: seq<Name>) {
    && WellFormed(fs) && (forall q | q in fs :: q in before && fs[q] == before[q])
    && forall q | q in before && q !in fs :: |q| == 1 && q[0] in names
  }

  ghost predicate AllLostOnly(before: Tree, log: seq<Tree>, from: nat, to: nat, names: seq<Name>)
    requires to <= |log|
  {
    forall i | from <= i < to :: LostOnly(before, log[i], names)
  }

  /** Clearing can hide a file from readers, but never changes what one sees. */
  lemma LostOnlyHides(before: Tree, fs: Tree, names: seq<Name>, p: Path)
    requires Tidy(before) && Tidy(fs) && LostOnly(before, fs, names) && p != [] && forall n | n in names :: !Hidden(n)
    ensures View(fs, p) == if [p[0]] in fs then View(before, p) else None
  {
    ReservedNames();
    assert [DATA] in before ==> [DATA] in fs by { assert [DATA][0] == DATA; }
    if Owned(fs, p[0]) {
      ReadIsLookup(fs, p);
      ReadIsLookup(before, p);
    }
  }

  /** The states of one publication: up to position `mid` the way is cleared, and from there
      on they are those of one atomic write, whose rename is at `commit`. */
  ghost predicate Story(before: Tree, log: seq<Tree>, from: nat, mid: nat, commit: nat, payload: Payload,
    skipped: bool) {
    && 0 < from <= mid <= |log|
    && AllLostOnly(before, log, from, mid, NAMES) && LostOnly(before, log[mid - 1], NAMES)
    && Trace(log[mid - 1], log, mid, commit, payload, skipped)
  }

  lemma LostOnlyStep(before: Tree, fs: Tree, next: Tree, names: seq<Name>, n: Name)
    requires LostOnly(before, fs, names) && n in names && WellFormed(next) && (next == fs || next == fs - {[n]})
    ensures LostOnly(before, next, names)
  {
  }

  lemma AllLostOnlyStep(before: Tree, log: seq<Tree>, more: seq<Tree>, from: nat, names: seq<Name>, next: Tree)
    requires from <= |log| && AllLostOnly(before, log, from, |log|, names) && LostOnly(before, next, names)
    requires more == log || more == log + [next]
    ensures AllLostOnly(before, more, from, |more|, names)
  {
    forall i | from <= i < |more| ensures LostOnly(before, more[i], names) {
      if i < |log| { assert more[i] == log[i]; }
    }
  }

  lemma StoryOf(before: Tree, logs: seq<Tree>, log: seq<Tree>, from: nat, commit: nat, payload: Payload, skipped: bool)
    requires 0 < from <= |logs| && logs <= log
    requires AllLostOnly(before, logs, from, |logs|, NAMES) && LostOnly(before, logs[|logs| - 1], NAMES)
    requires Trace(logs[|logs| - 1], log, |logs|, commit, payload, skipped)
    ensures Story(before, log, from, |logs|, commit, payload, skipped)
  {
    hide LostOnly; hide Trace;
    forall i | from <= i < |logs| ensures LostOnly(before, log[i], NAMES) { assert log[i] == logs[i]; }
    assert log[|logs| - 1] == logs[|logs| - 1];
  }

  /** Why publishing cannot succeed, although no call fails by itself. */
  ghost predicate Blocked(fs: Tree, c: Artifacts) {
    var prepared, payload := Cleared(fs, NAMES), CertToProjectionMap(c);
    Obstructed(prepared, payload) || Incomparable(prepared, payload)
  }

  /** Nothing of that depends on what the certificates are. */
  lemma BlockedAlike(fs: Tree, c: Artifacts, d: Artifacts)
    requires Tidy(fs)
    ensures Blocked(fs, c) <==> Blocked(fs, d)
  {
    hide NAMES; hide CertToProjectionMap; hide Tidy; hide Cleared; hide FilesOf; hide Heads; hide Writable;
    hide Compare; hide Elems; hide Flat; hide PruneObstructed;
    var prepared := Cleared(fs, NAMES);
    ProjectionIsFlat(c);
    ProjectionIsFlat(d);
    ClearedIsTidy(fs, NAMES);
    SameNames(c, d);
    SamePruning(prepared, c, d);
    FlatIsWritable(CertToProjectionMap(c));
    FlatIsWritable(CertToProjectionMap(d));
    if Current(prepared).Some? {
      forall k | k in CertToProjectionMap(c)
        ensures Compare(prepared, Current(prepared).value, k, CertToProjectionMap(c)[k]) == Fails
          <==> Compare(prepared, Current(prepared).value, k, CertToProjectionMap(d)[k]) == Fails
      {
        CompareFailsIff(prepared, Current(prepared).value, k, CertToProjectionMap(c)[k]);
        CompareFailsIff(prepared, Current(prepared).value, k, CertToProjectionMap(d)[k]);
      }
    }
  }

  lemma SameNames(c: Artifacts, d: Artifacts)
    ensures CertToProjectionMap(c).Keys == CertToProjectionMap(d).Keys
    ensures Heads(CertToProjectionMap(c)) == Heads(CertToProjectionMap(d))
  {
    ProjectionIsFlat(c);
    ProjectionIsFlat(d);
    FlatHeads(CertToProjectionMap(c));
    FlatHeads(CertToProjectionMap(d));
  }

  lemma SamePruning(fs: Tree, c: Artifacts, d: Artifacts)
    ensures PruneObstructed(fs, CertToProjectionMap(c)) <==> PruneObstructed(fs, CertToProjectionMap(d))
  {
    hide CertToProjectionMap; hide Heads; hide Detachable;
    SameNames(c, d);
  }

  lemma FlatIsWritable(payload: Payload)
    requires Flat(payload)
    ensures Writable(FilesOf(payload))
  {
    hide FilesOf; hide Flat;
    FlatFiles(payload);
  }

  /** And nothing is in the way where certificates have been published. */
  lemma PublishedIsOpen(fs: Tree, c: Artifacts)
    requires Tidy(fs) && Published(fs, CertToProjectionMap(c)) && [TMP] !in fs
    ensures !Blocked(fs, c)
  {
    hide NAMES; hide CertToProjectionMap; hide Tidy; hide FilesOf; hide Heads; hide Writable; hide Exact;
    hide Compare; hide Elems; hide Flat; hide Removable; hide Lists; hide Hidden;
    var prepared, payload := Cleared(fs, NAMES), CertToProjectionMap(c);
    ProjectionIsFlat(c);
    ClearedIsTidy(fs, NAMES);
    FlatIsWritable(payload);
    FlatFiles(payload);
    FlatHeads(payload);
    ClearingIsSafe(fs, NAMES, payload);
    var ts := Current(prepared).value;
    forall n | [ts, n] in prepared ensures n in Heads(payload) { ExactNames(prepared, ts, payload, n); }
    forall k | k in payload ensures Compare(prepared, ts, k, payload[k]) != Fails {
      CompareFailsIff(prepared, ts, k, payload[k]);
      OrdinaryFile(prepared, ts, payload, k);
    }
  }

  lemma OpenIsPublishable(fs: Tree, c: Artifacts)
    requires Tidy(fs) && !Blocked(fs, NO_CERTS)
    ensures Publishable(fs, c)
  {
    hide Blocked;
    BlockedAlike(fs, c, NO_CERTS);
  }

  lemma StaysOpen(before: Tree, fs: Tree, c: Artifacts)
    requires Tidy(before) && !Blocked(before, NO_CERTS) && Tidy(fs) && Published(fs, CertToProjectionMap(c))
    requires fs == Cleared(before, NAMES) || [TMP] !in fs
    ensures !Blocked(fs, NO_CERTS)
  {
    hide Incomparable; hide PruneObstructed; hide NAMES; hide CertToProjectionMap; hide Tidy; hide Published;
    hide Cleared;
    PublishedIsOpen(fs, c);
    BlockedAlike(fs, c, NO_CERTS);
  }

  lemma ExactNames(fs: Tree, ts: Name, payload: Payload, n: Name)
    requires Flat(payload) && Exact(fs, ts, FilesOf(payload)) && [ts, n] in fs
    ensures n in payload
  {
    hide FilesOf;
    FlatFiles(payload);
    assert [ts] + [n] == [ts, n] && ExactAt(fs, ts, FilesOf(payload), [n]);
  }

  lemma OrdinaryFile(fs: Tree, ts: Name, payload: Payload, k: Name)
    requires Flat(payload) && Exact(fs, ts, FilesOf(payload)) && k in payload
    ensures [ts] + Elems(k) in fs && fs[[ts] + Elems(k)] == File(payload[k])
  {
    hide FilesOf; hide Elems;
    FlatFiles(payload);
    OrdinaryKey(k);
    assert [k] in FilesOf(payload) && ExactAt(fs, ts, FilesOf(payload), [k]);
  }

  /** When publishing must succeed if no call fails by itself: nothing is in the way, or
      there is nothing to do. */
  ghost predicate Publishable(fs: Tree, c: Artifacts) { !Blocked(fs, c) || Published(fs, CertToProjectionMap(c)) }

  datatype Error = Fine | NotFound | Unusable

  class CertDirectory {
    const disk: Disk
    const writer: Writer

    constructor (disk: Disk)
      ensures this.disk == disk && writer.disk == disk
    {
      this.disk := disk;
      writer := new Writer(disk);
    }

    /** A name that is not a link is removed if one removal can; failures are ignored. */
    method ClearName(n: Name)
      requires disk.Valid()
      modifies disk
      ensures disk.Valid() && old(disk.log) <= disk.log
      ensures disk.nodes == old(disk.nodes) || disk.nodes == old(disk.nodes) - {[n]}
      ensures disk.log == if disk.nodes == old(disk.nodes) then old(disk.log) else old(disk.log) + [disk.nodes]
      ensures !disk.faulted ==>
        disk.nodes == if Removable(old(disk.nodes), n) then old(disk.nodes) - {[n]} else old(disk.nodes)
      ensures (old(disk.faulted) ==> disk.faulted) && old(disk.faults) <= disk.faults
    {
      if [n] in disk.nodes && !disk.nodes[[n]].Link? { FoundHere(disk.nodes, n); }
      var e := disk.Stat([n]);
      if e == ENOENT { return; }
      assert NoLinkAbove(disk.nodes, [n]);
      var err, target := disk.Readlink([n]);
      if err != OK {
        var ignored := disk.Remove([n]);
      }
    }

    method PrepareToWrite() returns (e: Error)
      requires disk.Valid() && Tidy(disk.nodes) && forall n | n in NAMES :: !Hidden(n)
      modifies disk
      ensures disk.Valid() && old(disk.log) <= disk.log && Tidy(disk.nodes) && e in {Fine, Unusable}
      ensures !disk.faulted ==> e == Fine && disk.nodes == Cleared(old(disk.nodes), NAMES)
      ensures disk.nodes == old(disk.nodes) ==> disk.log == old(disk.log)
      ensures LostOnly(old(disk.nodes), disk.nodes, NAMES)
      ensures AllLostOnly(old(disk.nodes), disk.log, |old(disk.log)|, |disk.log|, NAMES)
      ensures (old(disk.faulted) ==> disk.faulted) && old(disk.faults) <= disk.faults
    {
      hide Tidy; hide Cleared; hide Hidden; hide Removable; hide NAMES; hide LostOnly; hide AllLostOnly;
      hide WellFormed;
      assert LostOnly(disk.nodes, disk.nodes, NAMES)
        && AllLostOnly(disk.nodes, disk.log, |disk.log|, |disk.log|, NAMES) by {
        NothingLost(disk.nodes, disk.log);
      }
      var err := disk.Stat([]);
      if err != OK { return Unusable; }
      e := Fine;
      NothingCleared(disk.nodes);
      for i := 0 to |NAMES|
        invariant disk.Valid() && old(disk.log) <= disk.log && Tidy(disk.nodes)
        invariant !disk.faulted ==> disk.nodes == Cleared(old(disk.nodes), NAMES[..i])
        invariant LostOnly(old(disk.nodes), disk.nodes, NAMES)
        invariant AllLostOnly(old(disk.nodes), disk.log, |old(disk.log)|, |disk.log|, NAMES)
        invariant disk.nodes.Keys <= old(disk.nodes).Keys
          && (disk.nodes == old(disk.nodes) ==> disk.log == old(disk.log))
        invariant (old(disk.faulted) ==> disk.faulted) && old(disk.faults) <= disk.faults
      {
        ghost var before, log := disk.nodes, disk.log;
        ClearName(NAMES[i]);
        LostOnlyStep(old(disk.nodes), before, disk.nodes, NAMES, NAMES[i]);
        AllLostOnlyStep(old(disk.nodes), log, disk.log, |old(disk.log)|, NAMES, disk.nodes);
        RemovalKeepsTidy(before, disk.nodes, NAMES[i]);
        if !disk.faulted { ClearedStep(old(disk.nodes), NAMES[..i], NAMES[i]); }
        assert NAMES[..i + 1] == NAMES[..i] + [NAMES[i]];
      }
      assert NAMES[..|NAMES|] == NAMES;
    }

    /** Each of the names can be read, or is missing. */
    ghost predicate Legible()
      reads this, disk
    {
      forall n | n in NAMES :: Read(disk.nodes, [n]).Some? || Resolve(disk.nodes, [n]) == Walked.Lost(ENOENT)
    }

    method EnsureExist() returns (e: Error)
      requires disk.Valid()
      modifies disk`faulted, disk`faults
      ensures disk.Valid()
      ensures !disk.faulted && (forall n | n in NAMES :: Read(disk.nodes, [n]).Some?) ==> e == Fine
      ensures e == NotFound ==> exists n | n in NAMES :: Resolve(disk.nodes, [n]) == Walked.Lost(ENOENT)
      ensures e == Fine ==> forall n | n in NAMES :: Resolve(disk.nodes, [n]) != Walked.Lost(ENOENT)
      ensures !disk.faulted && Legible() ==> e in {Fine, NotFound}
      ensures (old(disk.faulted) ==> disk.faulted) && old(disk.faults) <= disk.faults
    {
      hide NAMES;
      for i := 0 to |NAMES|
        invariant (old(disk.faulted) ==> disk.faulted) && old(disk.faults) <= disk.faults
        invariant forall j | 0 <= j < i :: Resolve(disk.nodes, [NAMES[j]]) != Walked.Lost(ENOENT)
      {
        assert NAMES[i] in NAMES;
        var err := disk.Stat([NAMES[i]]);
        if err == ENOENT { return NotFound; }
        if err != OK { return Unusable; }
      }
      e := Fine;
    }

    method ReadCerts() returns (e: Error, certs: Artifacts)
      requires disk.Valid()
      modifies disk`faulted, disk`faults
      ensures disk.Valid()
      ensures e == Fine ==> ReadAs(disk.nodes, certs)
      ensures !disk.faulted && (forall n | n in NAMES :: Read(disk.nodes, [n]).Some?) ==> e == Fine
      ensures e == NotFound ==> exists n | n in NAMES :: Resolve(disk.nodes, [n]) == Walked.Lost(ENOENT)
      ensures e == Fine ==> forall n | n in NAMES :: Resolve(disk.nodes, [n]) != Walked.Lost(ENOENT)
      ensures !disk.faulted && Legible() ==> e in {Fine, NotFound}
      ensures (old(disk.faulted) ==> disk.faulted) && old(disk.faults) <= disk.faults
    {
      hide Read;
      certs := NO_CERTS;
      e := EnsureExist();
      if e != Fine { return; }
      assert {CA_KEY_NAME, CA_CERT_NAME, SERVER_CERT_NAME, SERVER_KEY_NAME} <= (set n | n in NAMES);
      var err, caKeyBytes, caCertBytes, certBytes, keyBytes;
      err, caKeyBytes := disk.ReadFile([CA_KEY_NAME]);
      if err != OK { return Unusable, certs; }
      err, caCertBytes := disk.ReadFile([CA_CERT_NAME]);
      if err != OK { return Unusable, certs; }
      err, certBytes := disk.ReadFile([SERVER_CERT_NAME]);
      if err != OK { return Unusable, certs; }
      err, keyBytes := disk.ReadFile([SERVER_KEY_NAME]);
      if err != OK { return Unusable, certs; }
      certs := Artifacts(Some(caKeyBytes), Some(caCertBytes), Some(certBytes), Some(keyBytes));
    }

    /** Publishing certificates. If nothing fails of itself, whether they are seen is known
        beforehand: exactly when each of the six names will be a link. Publishing again what
        is served changes nothing on the disk. Whatever fails, and wherever it stops, clearing
        comes first and can only hide files, and then the view changes once. */
    method WriteCertsToDir(c: Artifacts) returns (e: Error, ghost mid: nat, ghost commit: nat, ghost skipped: bool)
      requires disk.Valid() && Tidy(disk.nodes) && writer.disk == disk
      modifies disk
      ensures disk.Valid() && old(disk.log) <= disk.log && Tidy(disk.nodes) && e in {Fine, Unusable}
      ensures var payload := CertToProjectionMap(c);
        !disk.faulted && e == Fine ==>
          (Shows(disk.nodes, FilesOf(payload)) <==> forall n | n in payload :: Reachable(old(disk.nodes), payload, n))
      ensures !disk.faulted && e == Fine ==> Published(disk.nodes, CertToProjectionMap(c))
      ensures !disk.faulted && old(Publishable(disk.nodes, c)) ==> e == Fine
      ensures !disk.faulted && !old(Blocked(disk.nodes, NO_CERTS)) ==> e == Fine && !Blocked(disk.nodes, NO_CERTS)
      ensures !disk.faulted && (forall n | n in NAMES :: Owned(old(disk.nodes), n)) ==> mid == |old(disk.log)|
      ensures !disk.faulted && Serving(old(disk.nodes), CertToProjectionMap(c)) ==>
        e == Fine && disk.nodes == old(disk.nodes) && disk.log == old(disk.log)
      ensures Story(old(disk.nodes), disk.log, |old(disk.log)|, mid, commit, CertToProjectionMap(c), skipped)
      ensures skipped ==> disk.faulted
      ensures (old(disk.faulted) ==> disk.faulted) && old(disk.faults) <= disk.faults
    {
      hide Story; hide LostOnly; hide AllLostOnly;
      hide Tidy; hide FilesOf; hide Trace; hide Settled; hide Shows; hide NoForeign; hide Unreserved;
      hide Cleaning; hide WellFormed; hide Cleared; hide Removable; hide Obstructed; hide NAMES;
      hide CertToProjectionMap; hide ValidPath; hide Flat; hide Lists; hide Owned; hide Hidden; hide Vacant;
      hide Exact; hide UpToDate; hide Writable; hide Below; hide Incomparable;
      ghost var before := disk.nodes;
      var payload := CertToProjectionMap(c);
      ProjectionIsFlat(c);
      FlatIsValid(payload);
      e := PrepareToWrite();
      if forall n | n in NAMES :: Owned(before, n) { NothingToClear(before, NAMES); }
      ghost var prepared, logs := disk.nodes, disk.log;
      mid, commit, skipped := |logs|, |logs|, false;
      NoChangeTrace(prepared, logs, payload, false);
      StoryOf(before, logs, logs, |old(disk.log)|, commit, payload, false);
      if e != Fine { return; }
      var err := disk.Stat([]);
      if err == ENOENT { e := Unusable; return; }
      var result;
      ghost var clean;
      result, clean, commit, skipped := writer.Write(payload);
      FlatIsClean(payload, clean);
      StoryOf(before, logs, disk.log, |old(disk.log)|, commit, payload, skipped);
      e := if result.Done? || result.Unchanged? then Fine else Unusable;
      if Current(prepared).Some? { UpToDateIsPublished(prepared, payload); }
      ClearingIsSafe(before, NAMES, payload);
      if !disk.faulted {
        if result.Done? { DoneShows(before, NAMES, payload, logs, disk.log, commit); }
        if result.Unchanged? { UnchangedShows(before, NAMES, payload); }
        if Serving(before, payload) { ServingIsCleared(before, payload); }
        if !Blocked(before, NO_CERTS) {
          OpenIsPublishable(before, c);
          if result.Done? { SettledIsPublished(prepared, disk.nodes, payload); }
          StaysOpen(before, disk.nodes, c);
        }
      }
    }
  }

  /** What is served is what is read. */
  lemma ServingReads(fs: Tree, payload: Payload, n: Name)
    requires Serving(fs, payload) && Flat(payload) && n in payload
    ensures Read(fs, [n]) == Some(payload[n])
  {
    hide FilesOf; hide Tidy; hide Resolve;
    FlatFiles(payload);
    ServingShows(fs, payload);
    assert OrdinaryName(n) && [n][0] == n;
    assert View(fs, [n]) == Find(FilesOf(payload), [n]);
  }

  /** Certificates as files hold them: what is missing becomes an empty file. */
  function Filled(c: Artifacts): Artifacts {
    Artifacts(Some(BytesOf(c.caKey)), Some(BytesOf(c.caCert)), Some(BytesOf(c.cert)), Some(BytesOf(c.key)))
  }

  /** What reading the directory comes to: the files of four of the names, once all six are
      there. */
  ghost predicate ReadAs(fs: Tree, certs: Artifacts) {
    && certs.caKey == Read(fs, [CA_KEY_NAME]) && certs.caCert == Read(fs, [CA_CERT_NAME])
    && certs.cert == Read(fs, [SERVER_CERT_NAME]) && certs.key == Read(fs, [SERVER_KEY_NAME])
    && Complete(certs)
  }

  /** Reading undoes writing, under the names that others read them by. */
  lemma DirectoryRoundTrip(fs: Tree, c: Artifacts)
    requires Serving(fs, CertToProjectionMap(c))
    ensures ReadAs(fs, Filled(c)) && (Complete(c) ==> Filled(c) == c)
    ensures forall n | n in NAMES :: Read(fs, [n]).Some?
    ensures Read(fs, ["ca-key.pem"]) == Some(BytesOf(c.caKey)) && Read(fs, ["ca-cert.pem"]) == Some(BytesOf(c.caCert))
    ensures Read(fs, ["cert.pem"]) == Some(BytesOf(c.cert)) && Read(fs, ["key.pem"]) == Some(BytesOf(c.key))
    ensures Read(fs, ["tls.crt"]) == Some(BytesOf(c.cert)) && Read(fs, ["tls.key"]) == Some(BytesOf(c.key))
  {
    hide Serving; hide Read;
    ProjectionIsFlat(c);
    forall n | n in NAMES ensures n in CertToProjectionMap(c) && Read(fs, [n]) == Some(CertToProjectionMap(c)[n]) {
      ServingReads(fs, CertToProjectionMap(c), n);
    }
    KeyNames();
    assert CA_KEY_NAME in NAMES && CA_CERT_NAME in NAMES && SERVER_CERT_NAME in NAMES && SERVER_KEY_NAME in NAMES;
    assert SERVER_CERT_NAME2 in NAMES && SERVER_KEY_NAME2 in NAMES;
  }

  lemma NothingLost(fs: Tree, log: seq<Tree>)
    requires WellFormed(fs)
    ensures LostOnly(fs, fs, NAMES) && AllLostOnly(fs, log, |log|, |log|, NAMES)
  {
  }

  lemma NothingCleared(fs: Tree)
    ensures Cleared(fs, NAMES[..0]) == fs
  {
    assert NAMES[..0] == [];
  }

  lemma ServingIsCleared(fs: Tree, payload: Payload)
    requires Serving(fs, payload) && Lists(NAMES, payload)
    ensures Cleared(fs, NAMES) == fs
  {
    hide NAMES;
    NothingToClear(fs, NAMES);
  }
}
