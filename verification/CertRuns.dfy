/** Any number of publications of certificates, each of them cut off by a crash after any
    system call or left to return, with any failures on the way. */
module CertRuns {
  import opened Paths
  import opened FileSystem
  import opened Publication
  import opened Payloads
  import opened AtomicWriter
  import opened CertProtocol
  import opened CertDir
  import Runs

  /** One publication as WriteCertsToDir's contract describes it: it finds the disk in the
      state before position `from` of the log, clears the way up to `mid`, and is over, by
      a crash or a return, at position `stop`. */
  datatype Publishing = Publishing(payload: Payload, log: seq<Tree>, from: nat, mid: nat, commit: nat, stop: nat,
    skipped: bool)
  {
    ghost predicate Valid() {
      0 < from <= stop + 1 <= |log| && Story(log[from - 1], log, from, mid, commit, payload, skipped)
    }

    ghost function Start(): Tree
      requires Valid()
    {
      log[from - 1]
    }

    ghost function End(): Tree
      requires Valid()
    {
      log[stop]
    }

    /** What the last rename published, once position `j` is reached. */
    ghost function Published(files: Files, j: nat): Files { if commit <= j then FilesOf(payload) else files }

    /** Nothing was cleared. */
    predicate Gentle() { mid == from }

    function Attempt(): Runs.Attempt { Runs.Attempt(payload, log, from, commit, stop, skipped) }
  }

  /** What WriteCertsToDir promises makes a publication of it, wherever it is cut off. */
  lemma WriteIsPublishing(c: Artifacts, log: seq<Tree>, more: seq<Tree>, mid: nat, commit: nat, stop: nat,
    skipped: bool)
    requires |log| > 0 && log <= more && |log| - 1 <= stop < |more|
    requires Story(log[|log| - 1], more, |log|, mid, commit, CertToProjectionMap(c), skipped)
    ensures var a := Publishing(CertToProjectionMap(c), more, |log|, mid, commit, stop, skipped);
      a.Valid() && a.Start() == log[|log| - 1] && a.End() == more[stop]
  {
    hide Story;
    assert more[|log| - 1] == log[|log| - 1];
  }

  /** So is a write of any payload, without clearing. */
  lemma AttemptIsPublishing(a: Runs.Attempt)
    requires a.Valid() && WellFormed(a.Start())
    ensures Publishing(a.clean, a.log, a.from, a.from, a.commit, a.stop, a.skipped).Valid()
  {
    hide Trace; hide Heads; hide WellFormed;
    NothingLost(a.Start(), a.log[..a.from]);
    assert a.log[a.from - 1] == a.Start();
  }

  ghost predicate Run(start: Tree, run: seq<Publishing>)
    decreases |run|
  {
    run == [] || (run[0].Valid() && run[0].Start() == start && Run(run[0].End(), run[1..]))
  }

  /** In every state of every publication, every visible path reads as nothing or as its
      contents in the payload whose rename came last. */
  ghost predicate NeverMixed(run: seq<Publishing>, files: Files)
    decreases |run|
  {
    run == [] ||
    var a := run[0];
    && (forall j | a.from - 1 <= j <= a.stop && 0 <= j < |a.log| :: ShowsOnly(a.log[j], a.Published(files, j)))
    && NeverMixed(run[1..], a.Published(files, a.stop))
  }

  lemma LostOnlyIsTidy(before: Tree, fs: Tree, names: seq<Name>)
    requires Tidy(before) && LostOnly(before, fs, names) && forall n | n in names :: !Hidden(n)
    ensures Tidy(fs) && Current(fs) == Current(before)
  {
    ReservedNames();
    assert [DATA] in before ==> [DATA] in fs by { assert [DATA][0] == DATA; }
    if Current(before).Some? {
      var ts := Current(before).value;
      assert [ts] in before ==> [ts] in fs by { assert [ts][0] == ts; }
      assert forall n | [ts, n] in fs :: [ts, n] in before;
    }
  }

  lemma LostOnlyKeepsWithin(before: Tree, fs: Tree, names: seq<Name>, files: Files)
    requires LostOnly(before, fs, names) && Current(fs) == Current(before) && Within(before, files)
    ensures Within(fs, files)
  {
  }

  /** Clearing leaves what a reader can see at all. */
  lemma ClearingState(before: Tree, fs: Tree, files: Files)
    requires Tidy(before) && Within(before, files) && LostOnly(before, fs, NAMES)
    ensures Tidy(fs) && Within(fs, files)
  {
    hide Tidy; hide Within; hide LostOnly; hide NAMES; hide Hidden;
    ProjectionIsFlat(NO_CERTS);
    LostOnlyIsTidy(before, fs, NAMES);
    LostOnlyKeepsWithin(before, fs, NAMES, files);
  }

  lemma SameState(base: Tree, fs: Tree, files: Files)
    requires Tidy(base) && Within(base, files) && Same(base, fs)
    ensures Tidy(fs) && Within(fs, files)
  {
    SameKeepsTidy(base, fs);
    SameKeepsWithin(base, fs, files);
  }

  lemma StateOfPublishing(a: Publishing, files: Files, j: nat)
    requires a.Valid() && Tidy(a.Start()) && Within(a.Start(), files) && a.from - 1 <= j <= a.stop
    ensures Tidy(a.log[j]) && Within(a.log[j], a.Published(files, j)) && ShowsOnly(a.log[j], a.Published(files, j))
  {
    hide Tidy; hide Within; hide LostOnly; hide Same; hide Shows; hide ShowsOnly; hide Managed; hide FilesOf;
    hide Heads; hide AllPresent; hide NoForeign; hide OnlyLinksAdded; hide Exact;
    var prepared := a.log[a.mid - 1];
    ClearingState(a.Start(), prepared, files);
    if a.commit <= j {
      var renamed := a.log[a.commit];
      ExactIsWithin(renamed, FilesOf(a.payload));
      assert Same(renamed, a.log[j]);
      SameState(renamed, a.log[j], FilesOf(a.payload));
    } else if a.mid <= j {
      assert Same(prepared, a.log[j]);
      SameState(prepared, a.log[j], files);
    } else if a.from <= j {
      assert LostOnly(a.Start(), a.log[j], NAMES);
      ClearingState(a.Start(), a.log[j], files);
    }
    WithinShowsOnly(a.log[j], a.Published(files, j));
  }

  /** Never a mixture: over any run of publications, with no assumption on what fails, on
      foreign entries or on missing names, in every state the disk ever is in, a reader gets
      for every path nothing or its contents in the one version that was renamed last. */
  lemma {:induction false} PublicationsNeverMix(start: Tree, files: Files, run: seq<Publishing>)
    requires Tidy(start) && Within(start, files) && Run(start, run)
    ensures NeverMixed(run, files)
    decreases |run|
  {
    hide Tidy; hide Within; hide Story; hide ShowsOnly; hide FilesOf;
    if run != [] {
      var a := run[0];
      forall j | a.from - 1 <= j <= a.stop && 0 <= j < |a.log| ensures ShowsOnly(a.log[j], a.Published(files, j)) {
        StateOfPublishing(a, files, j);
      }
      StateOfPublishing(a, files, a.stop);
      PublicationsNeverMix(a.End(), a.Published(files, a.stop), run[1..]);
    }
  }

  /** Publications without clearing, as writes. */
  function Attempts(run: seq<Publishing>): seq<Runs.Attempt>
    decreases |run|
  {
    if run == [] then [] else [run[0].Attempt()] + Attempts(run[1..])
  }

  lemma {:induction false} GentleRun(start: Tree, run: seq<Publishing>)
    requires Run(start, run) && forall a | a in run :: a.Gentle() && Flat(a.payload)
    ensures Runs.Run(start, Attempts(run))
    ensures forall b | b in Attempts(run) :: exists a :: a in run && b == a.Attempt()
    decreases |run|
  {
    hide Story; hide Trace; hide Heads; hide Flat;
    if run != [] {
      var a, rest := run[0], run[1..];
      assert a in run && forall b | b in rest :: b in run;
      GentleIsValid(a);
      GentleRun(a.End(), rest);
    }
  }

  lemma GentleIsValid(a: Publishing)
    requires a.Valid() && a.Gentle() && Flat(a.payload)
    ensures a.Attempt().Valid() && a.Attempt().Start() == a.Start() && a.Attempt().End() == a.End()
  {
    hide Trace; hide LostOnly; hide AllLostOnly;
    FlatHeads(a.payload);
  }

  /** Steady publication of certificates: once they are seen, they are replaced atomically over
      any run in which clearing removes nothing, whatever fails otherwise. */
  lemma CertificatesStaySeen(start: Tree, files: Files, run: seq<Publishing>)
    requires Managed(start) && Shows(start, files) && Runs.Under(files, set n | n in NAMES) && Run(start, run)
    requires forall a | a in run :: a.Gentle() && exists c :: a.payload == CertToProjectionMap(c)
    ensures Runs.ShownThroughout(Attempts(run), files)
  {
    hide NAMES; hide Managed; hide Shows; hide Runs.Under; hide CertToProjectionMap; hide FilesOf; hide Heads;
    hide Flat; hide Story;
    var names := set n | n in NAMES;
    forall a | a in run
      ensures Flat(a.payload) && Heads(a.payload) == names && Runs.Under(FilesOf(a.payload), names)
    {
      var c :| a.payload == CertToProjectionMap(c);
      ProjectionIsFlat(c);
      CertificatesAreSteady(c);
    }
    GentleRun(start, run);
    forall b | b in Attempts(run) ensures Heads(b.clean) == names && Runs.Under(FilesOf(b.clean), names) {
      var a :| a in run && b == a.Attempt();
    }
    Runs.SteadyPublication(start, files, Attempts(run), names);
  }
}
