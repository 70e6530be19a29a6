/** Any number of writes, each of them cut off by a crash after any system call or left to
    return, with any failures on the way. */
module Runs {
  import opened Paths
  import opened FileSystem
  import opened Publication
  import opened Payloads
  import opened AtomicWriter

  /** One write as Write's contract describes it: it finds the disk in the state before
      position `from` of the log and is over, by a crash or a return, at position `stop`. */
  datatype Attempt = Attempt(clean: Payload, log: seq<Tree>, from: nat, commit: nat, stop: nat, skipped: bool) {
    ghost predicate Valid() {
      && 0 < from <= stop + 1 <= |log|
      && Trace(log[from - 1], log, from, commit, clean, skipped)
      && forall n | n in Heads(clean) :: !Hidden(n)
    }

    ghost function Start(): Tree
      requires Valid()
    {
      log[from - 1]
    }

    ghost function End(): Tree
      requires Valid()
    {
      log[stop]
    }

    /** Whatever fails, no name can be passed over that has an entry already. */
    ghost predicate Sound()
      requires Valid()
    {
      skipped ==> AllPresent(Start(), Heads(clean))
    }

    /** What is published once position `j` is reached, if `files` were before. */
    ghost function Published(files: Files, j: nat): Files { if commit <= j then FilesOf(clean) else files }
  }

  /** What Write promises makes an attempt of it, whatever failed and wherever it is cut
      off: before its first step, between any two steps, or at its end. */
  lemma WriteIsAttempt(payload: Payload, clean: Payload, log: seq<Tree>, more: seq<Tree>, commit: nat, stop: nat,
    skipped: bool)
    requires |log| > 0 && log <= more && |log| - 1 <= stop < |more|
    requires Trace(log[|log| - 1], more, |log|, commit, clean, skipped) && Unreserved(payload)
      && Cleaning(payload, clean)
    ensures var a := Attempt(clean, more, |log|, commit, stop, skipped);
      a.Valid() && a.Start() == log[|log| - 1] && a.End() == more[stop]
  {
    UnreservedPayload(payload, clean);
  }

  ghost predicate Run(start: Tree, run: seq<Attempt>)
    decreases |run|
  {
    run == [] || (run[0].Valid() && run[0].Start() == start && Run(run[0].End(), run[1..]))
  }

  /** The view is what was last published, at position `j` of an attempt. */
  ghost predicate ShownAt(a: Attempt, files: Files, j: nat)
    requires j < |a.log|
  {
    Managed(a.log[j]) && Shows(a.log[j], a.Published(files, j))
  }

  /** In every state of every attempt the view is the last payload whose rename happened. */
  ghost predicate ShownThroughout(run: seq<Attempt>, files: Files)
    decreases |run|
  {
    run == [] ||
    var a := run[0];
    && (forall j | a.from - 1 <= j <= a.stop && 0 <= j < |a.log| :: ShownAt(a, files, j))
    && ShownThroughout(run[1..], a.Published(files, a.stop))
  }

  lemma StateOfAttempt(a: Attempt, files: Files, j: nat)
    requires a.Valid() && a.Sound() && Managed(a.Start()) && Shows(a.Start(), files)
      && NoForeign(a.Start(), FilesOf(a.clean))
    requires a.from - 1 <= j <= a.stop
    ensures ShownAt(a, files, j)
  {
    hide Managed; hide Shows; hide NoForeign; hide FilesOf; hide OnlyLinksAdded; hide Heads; hide Same;
    hide AllPresent;
    if j >= a.from {
      if j < a.commit {
        assert Same(a.log[a.from - 1], a.log[j]);
        SameKeepsShows(a.Start(), a.log[j], files);
      } else {
        assert Same(a.log[a.commit], a.log[j]);
        SameKeepsShows(a.log[a.commit], a.log[j], FilesOf(a.clean));
      }
    }
  }

  lemma NoForeignKept(a: Attempt, others: Files)
    requires a.Valid() && NoForeign(a.Start(), others) && forall f | f in others && f != [] :: !Hidden(f[0])
    ensures NoForeign(a.End(), others)
  {
    hide NoForeign; hide Heads; hide Managed; hide Shows; hide OnlyLinksAdded; hide FilesOf;
    if a.from <= a.stop < a.commit {
      assert Same(a.log[a.from - 1], a.log[a.stop]);
      OnlyLinksAddedKeepsNoForeign(a.Start(), a.End(), others);
    } else if a.commit <= a.stop {
      assert Same(a.log[a.commit], a.log[a.stop]);
      OnlyLinksAddedKeepsNoForeign(a.Start(), a.log[a.commit], others);
      OnlyLinksAddedKeepsNoForeign(a.log[a.commit], a.End(), others);
    }
  }

  ghost predicate Visible(files: Files) { forall f | f in files && f != [] :: !Hidden(f[0]) }

  /** Payloads of one run: none has a name that somebody else holds at its start. */
  ghost predicate Clear(start: Tree, run: seq<Attempt>) {
    forall a | a in run :: NoForeign(start, FilesOf(a.clean)) && Visible(FilesOf(a.clean))
  }

  /** Atomic publication: over any run of interrupted writes, in every state the disk ever
      is in, a reader sees exactly the payload of the last rename, or what was there
      before the first. Any call may fail in any attempt that finds an entry for each of its
      names; in one that does not, reading the missing ones must not fail. */
  lemma {:induction false} AtomicPublication(start: Tree, files: Files, run: seq<Attempt>)
    requires Managed(start) && Shows(start, files) && Run(start, run) && Clear(start, run)
    requires forall a | a in run :: a.Valid() && a.Sound()
    ensures ShownThroughout(run, files)
    decreases |run|
  {
    hide Managed; hide Shows; hide NoForeign; hide FilesOf; hide Heads; hide Visible;
    if run != [] {
      var a, rest := run[0], run[1..];
      assert a in run;
      forall j | a.from - 1 <= j <= a.stop && 0 <= j < |a.log| ensures ShownAt(a, files, j) {
        StateOfAttempt(a, files, j);
      }
      forall b | b in rest ensures NoForeign(a.End(), FilesOf(b.clean)) && Visible(FilesOf(b.clean)) {
        assert b in run;
        VisibleNoForeignKept(a, FilesOf(b.clean));
      }
      StateOfAttempt(a, files, a.stop);
      AtomicPublication(a.End(), a.Published(files, a.stop), rest);
    }
  }

  lemma VisibleNoForeignKept(a: Attempt, others: Files)
    requires a.Valid() && NoForeign(a.Start(), others) && Visible(others)
    ensures NoForeign(a.End(), others)
  {
    NoForeignKept(a, others);
  }

  // ---- writing the same names over and over ----

  /** `files` has a file under each of the names and under no other. */
  ghost predicate Under(files: Files, heads: set<Name>) {
    && [] !in files && (forall f | f in files :: f[0] in heads && !Hidden(f[0]))
    && forall n | n in heads :: exists f | f in files :: f[0] == n
  }

  /** Where such files are seen, each name is the writer's link. */
  lemma UnderIsOwned(fs: Tree, files: Files, others: Files, heads: set<Name>)
    requires Shows(fs, files) && Under(files, heads) && Under(others, heads)
    ensures AllPresent(fs, heads) && NoForeign(fs, others)
  {
    forall n | n in heads ensures Owned(fs, n) {
      var f :| f in files && f[0] == n;
      assert View(fs, f) == Find(files, f);
    }
  }

  /** Steady publication: once a version is seen, writing others under the same names, as the
      certificates are, is atomic over any run with no assumption on what fails. */
  lemma {:induction false} SteadyPublication(start: Tree, files: Files, run: seq<Attempt>, heads: set<Name>)
    requires Managed(start) && Shows(start, files) && Under(files, heads) && Run(start, run)
    requires forall a | a in run :: Heads(a.clean) == heads && Under(FilesOf(a.clean), heads)
    ensures ShownThroughout(run, files)
    decreases |run|
  {
    hide Managed; hide Shows; hide NoForeign; hide FilesOf; hide Heads; hide Under; hide AllPresent;
    if run != [] {
      var a, rest := run[0], run[1..];
      assert a in run;
      UnderIsOwned(start, files, FilesOf(a.clean), heads);
      forall j | a.from - 1 <= j <= a.stop && 0 <= j < |a.log| ensures ShownAt(a, files, j) {
        StateOfAttempt(a, files, j);
      }
      StateOfAttempt(a, files, a.stop);
      SteadyPublication(a.End(), a.Published(files, a.stop), rest, heads);
    }
  }

  /** An empty directory is a good place to start: it shows nothing and nobody is in it. */
  lemma EmptyDirectory(files: Files)
    ensures var empty: Tree := map[[] := Dir]; Managed(empty) && Shows(empty, map[]) && NoForeign(empty, files)
  {
  }
}
