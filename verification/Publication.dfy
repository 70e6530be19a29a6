/** What the atomic writer promises its readers, stated on directory trees alone: the
    view through the visible links, and the changes that leave it as it is. */
module Publication {
  import opened Paths
  import opened FileSystem
  import opened Wrappers

  const DATA: Name := "..data"
  const TMP: Name := "..data_tmp"

  lemma ReservedNames()
    ensures DATA == "..data" && TMP == "..data_tmp"
    ensures DATA != TMP && Hidden(DATA) && Hidden(TMP) && !TimestampName(DATA) && !TimestampName(TMP)
  {
    assert DATA[2] == 'd' && TMP[2] == 'd' && |DATA| != |TMP|;
  }

  lemma NotBelow(ts: Name, n: Name)
    requires ts != n
    ensures !Below([ts], [n])
  {
    assert [n][..1] == [n];
    assert [n][0] != [ts][0];
  }

  type Files = map<Path, Bytes>

  /** The timestamped directory that the data link points to. */
  function Current(fs: Tree): Option<Name> {
    if [DATA] in fs && fs[[DATA]].Link? && |fs[[DATA]].target| == 1 then Some(fs[[DATA]].target[0]) else None
  }

  predicate Owned(fs: Tree, n: Name) { [n] in fs && fs[[n]] == Link([DATA, n]) }

  /** A visible link of the writer for one of the names in `heads`. */
  predicate HeadLink(fs: Tree, q: Path, heads: set<Name>) {
    |q| == 1 && q[0] in heads && q in fs && fs[q] == Link([DATA, q[0]])
  }

  /** An entry of the root that one removal takes away: it exists and nothing is below it. */
  predicate Detachable(fs: Tree, n: Name) {
    [n] in fs && !exists q | q in fs :: q != [n] && Below([n], q)
  }

  /** What a reader gets for a path, through the writer's links. */
  function View(fs: Tree, p: Path): Option<Bytes>
    requires p != []
  {
    if Owned(fs, p[0]) then Read(fs, p) else None
  }

  function Find(files: Files, p: Path): Option<Bytes> { if p in files then Some(files[p]) else None }

  /** The view is exactly `files`. */
  ghost predicate Shows(fs: Tree, files: Files) {
    forall p: Path | p != [] && !Hidden(p[0]) :: View(fs, p) == Find(files, p)
  }

  predicate ProperPath(p: Path) { forall e | e in p :: Proper(e) }

  /** A directory whose hidden part only the writer touches. Its visible entries may be
      anybody's, and the directory that the data link points to may have been lost. */
  ghost predicate Tidy(fs: Tree) {
    && WellFormed(fs)
    && ([DATA] in fs ==> Current(fs).Some?)
    && (Current(fs).Some? ==> TidyData(fs, Current(fs).value))
  }

  ghost predicate TidyData(fs: Tree, ts: Name) {
    && TimestampName(ts) && ([ts] in fs ==> IsDir(fs, [ts]))
    && (forall q | q in fs && Below([ts], q) :: !fs[q].Link? && ProperPath(q[1..]))
    && (forall n | [ts, n] in fs :: !Hidden(n))
  }

  /** Every name of the published version has a visible entry, the writer's or not. */
  ghost predicate AllLinked(fs: Tree) {
    Current(fs).Some? ==> forall n | [Current(fs).value, n] in fs :: [n] in fs
  }

  ghost predicate Managed(fs: Tree) { Tidy(fs) && AllLinked(fs) }

  /** The tree below a timestamped directory is exactly `files` and their ancestors. */
  ghost predicate Exact(fs: Tree, ts: Name, files: Files) {
    && IsDir(fs, [ts]) && [] !in files
    && forall p {:trigger ExactAt(fs, ts, files, p)} :: ExactAt(fs, ts, files, p)
  }

  /** The entry for `p` is a payload file, or the directory of one, or missing. */
  ghost predicate ExactAt(fs: Tree, ts: Name, files: Files, p: Path) {
    if p in files then [ts] + p in fs && fs[[ts] + p] == File(files[p])
    else p != [] && [ts] + p in fs ==> IsDir(fs, [ts] + p) && exists f | f in files :: StrictPrefix(p, f)
  }

  /** No file of the payload is the directory of another, and none is the root itself. */
  ghost predicate Writable(files: Files) {
    [] !in files && forall f, g | f in files && g in files :: !StrictPrefix(f, g)
  }

  lemma ExactIsWritable(fs: Tree, ts: Name, files: Files)
    requires WellFormed(fs) && Exact(fs, ts, files)
    ensures Writable(files)
  {
    forall f, g | f in files && g in files ensures !StrictPrefix(f, g) {
      if StrictPrefix(f, g) {
        assert ExactAt(fs, ts, files, f) && ExactAt(fs, ts, files, g);
        assert ([ts] + g)[..|f| + 1] == [ts] + f;
        Ancestors(fs, [ts] + g, |f| + 1);
        assert false;
      }
    }
  }

  /** No payload name is taken by something that is not the writer's link. */
  ghost predicate NoForeign(fs: Tree, files: Files) {
    forall f | f in files && f != [] && [f[0]] in fs :: Owned(fs, f[0])
  }

  lemma NothingBelowMissing(fs: Tree, p: Path, q: Path)
    requires WellFormed(fs) && p !in fs && Below(p, q)
    ensures q !in fs
  {
    if q in fs { Ancestors(fs, q, |p|); }
  }

  /** Under a managed directory a reader gets the file below the current directory. */
  lemma ReadIsLookup(fs: Tree, p: Path)
    requires Tidy(fs) && p != [] && Owned(fs, p[0])
    ensures Read(fs, p) == match Current(fs)
      case None => None
      case Some(ts) => if [ts] + p in fs && fs[[ts] + p].File? then Some(fs[[ts] + p].data) else None
  {
    assert [] + [p[0]] == [p[0]];
    var t := [DATA, p[0]] + p[1..];
    assert Resolve(fs, p) == Walk(fs, [], t, MAX_LINKS - 1);
    assert t[0] == DATA && t[1..] == p && [] + [DATA] == [DATA];
    if Current(fs).Some? {
      var ts := Current(fs).value;
      assert fs[[DATA]] == Link([ts]);
      var u := [ts] + p;
      assert Walk(fs, [], t, MAX_LINKS - 1) == Walk(fs, [], u, MAX_LINKS - 2);
      assert u[0] == ts && u[1..] == p && [] + [ts] == [ts];
      if [ts] in fs {
        assert Walk(fs, [], u, MAX_LINKS - 2) == Walk(fs, [ts], p, MAX_LINKS - 2);
        WalkWithoutLinks(fs, [ts], p, MAX_LINKS - 2);
      } else {
        NothingBelowMissing(fs, [ts], u);
      }
    }
  }

  ghost predicate OnlyLinksAdded(base: Tree, fs: Tree) {
    forall n | !Hidden(n) && [n] in fs :: if [n] in base then fs[[n]] == base[[n]] else Owned(fs, n)
  }

  /** The changes that a reader cannot see: the data link and the current tree stay, a
      visible entry is only added as a link of the writer, and only a link that the
      current tree does not need disappears. */
  ghost predicate Same(base: Tree, fs: Tree) {
    && WellFormed(fs)
    && ([DATA] in fs <==> [DATA] in base) && ([DATA] in fs ==> fs[[DATA]] == base[[DATA]])
    && (forall q | Current(base).Some? && Below([Current(base).value], q) ::
         (q in fs <==> q in base) && (q in fs ==> fs[q] == base[q]))
    && OnlyLinksAdded(base, fs)
    && (forall n | !Hidden(n) && [n] in base && Current(base).Some? && [Current(base).value, n] in base :: [n] in fs)
  }

  lemma HeadPrefix(ts: Name, p: Path, fs: Tree)
    requires WellFormed(fs) && p != [] && [ts] + p in fs
    ensures [ts, p[0]] in fs
  {
    assert ([ts] + p)[..2] == [ts, p[0]];
    Ancestors(fs, [ts] + p, 2);
  }

  lemma SameKeepsView(base: Tree, fs: Tree, p: Path)
    requires Managed(base) && Same(base, fs) && Managed(fs) && p != [] && !Hidden(p[0])
    ensures View(fs, p) == View(base, p)
  {
    var n := p[0];
    if Owned(base, n) { ReadIsLookup(base, p); }
    if Owned(fs, n) { ReadIsLookup(fs, p); }
    if Current(base).Some? {
      var ts := Current(base).value;
      assert Below([ts], [ts] + p);
      if [ts] + p in base { HeadPrefix(ts, p, base); }
    }
  }

  lemma SameKeepsTidy(base: Tree, fs: Tree)
    requires Tidy(base) && Same(base, fs)
    ensures Tidy(fs)
  {
    if Current(base).Some? {
      var ts := Current(base).value;
      assert Below([ts], [ts]);
      forall n | [ts, n] in fs ensures !Hidden(n) { assert Below([ts], [ts, n]); }
    }
  }

  lemma SameKeepsManaged(base: Tree, fs: Tree)
    requires Managed(base) && Same(base, fs)
    ensures Managed(fs)
  {
    SameKeepsTidy(base, fs);
    if Current(base).Some? {
      var ts := Current(base).value;
      forall n | [ts, n] in fs ensures [n] in fs { assert Below([ts], [ts, n]); }
    }
  }

  /** An invisible change keeps the whole view. */
  lemma SameKeepsShows(base: Tree, fs: Tree, files: Files)
    requires Managed(base) && Same(base, fs)
    ensures Managed(fs)
    ensures Shows(base, files) <==> Shows(fs, files)
  {
    SameKeepsManaged(base, fs);
    forall p: Path | p != [] && !Hidden(p[0]) ensures View(fs, p) == View(base, p) { SameKeepsView(base, fs, p); }
  }

  lemma OnlyLinksAddedKeepsNoForeign(base: Tree, fs: Tree, files: Files)
    requires OnlyLinksAdded(base, fs) && NoForeign(base, files)
    requires forall f | f in files && f != [] :: !Hidden(f[0])
    ensures NoForeign(fs, files)
  {
  }

  /** Why every name needs its entry: if one lacks it, adding its link, which a later
      write does before its rename, is enough to change what a reader sees. */
  lemma MissingLinkReveals(fs: Tree, p: Path)
    requires Tidy(fs) && Current(fs).Some? && p != [] && [p[0]] !in fs
    requires [Current(fs).value] + p in fs && fs[[Current(fs).value] + p].File?
    ensures var linked := fs[[p[0]] := Link([DATA, p[0]])];
      View(fs, p) == None && View(linked, p) == Some(fs[[Current(fs).value] + p].data)
  {
    var ts := Current(fs).value;
    var linked := fs[[p[0]] := Link([DATA, p[0]])];
    HeadPrefix(ts, p, fs);
    ReservedNames();
    NotBelow(ts, p[0]);
    assert Up([p[0]]) == [];
    forall q | q in linked && q != [] ensures IsDir(linked, Up(q)) {
      assert q != [p[0]] ==> IsDir(fs, Up(q));
    }
    assert Tidy(linked);
    ReadIsLookup(linked, p);
  }

  /** A tree whose current directory is exactly `files` shows them precisely when every
      payload name is the writer's link. */
  lemma ExactShowsIff(fs: Tree, files: Files)
    requires Tidy(fs) && Current(fs).Some? && Exact(fs, Current(fs).value, files)
    ensures Shows(fs, files) <==> forall f | f in files :: Owned(fs, f[0])
  {
    var ts := Current(fs).value;
    forall f | f in files ensures !Hidden(f[0]) {
      assert ExactAt(fs, ts, files, f);
      HeadPrefix(ts, f, fs);
    }
    if Shows(fs, files) {
      forall f | f in files ensures Owned(fs, f[0]) { assert View(fs, f) == Find(files, f); }
    } else {
      var p: Path :| p != [] && !Hidden(p[0]) && View(fs, p) != Find(files, p);
      assert ExactAt(fs, ts, files, p);
      if Owned(fs, p[0]) { ReadIsLookup(fs, p); }
    }
  }

  /** With an entry for every name, that is: when no payload name is taken by someone else. */
  lemma ExactShows(fs: Tree, files: Files)
    requires Managed(fs) && Current(fs).Some? && Exact(fs, Current(fs).value, files)
    ensures Shows(fs, files) <==> NoForeign(fs, files)
  {
    ExactShowsIff(fs, files);
    forall f | f in files ensures [f[0]] in fs {
      assert ExactAt(fs, Current(fs).value, files, f);
      HeadPrefix(Current(fs).value, f, fs);
    }
  }

  /** What Write changes before its rename: entries below a new directory, new links for
      the names in `heads`, and the temporary link. */
  ghost predicate Staged(base: Tree, fs: Tree, ts: Name, heads: set<Name>) {
    && WellFormed(fs)
    && (forall q | q in base && !Below([ts], q) && q != [TMP] :: q in fs && fs[q] == base[q])
    && (forall q | q in fs && q !in base && !Below([ts], q) && q != [TMP] :: HeadLink(fs, q, heads))
  }

  lemma StagedIsSame(base: Tree, fs: Tree, ts: Name, heads: set<Name>)
    requires Tidy(base) && Staged(base, fs, ts, heads)
    requires TimestampName(ts) && Current(base) != Some(ts)
    requires forall n | n in heads :: !Hidden(n)
    ensures Same(base, fs)
  {
    ReservedNames();
    NotBelow(ts, DATA);
    if Current(base).Some? {
      var cur := Current(base).value;
      forall q | Below([cur], q) ensures !Below([ts], q) && q != [TMP] { assert q[0] == cur; }
    }
  }

  /** What Write changes after its rename: visible entries in `gone` disappear, and so does
      anything below the old directory. */
  ghost predicate Pruned(base: Tree, fs: Tree, gone: set<Name>, prev: Option<Name>) {
    && WellFormed(fs)
    && (forall q | q in fs :: q in base && fs[q] == base[q])
    && (forall q | q in base && q !in fs ::
         q != [] && ((|q| == 1 && q[0] in gone) || (prev.Some? && Below([prev.value], q))))
  }

  lemma PrunedIsSame(base: Tree, fs: Tree, gone: set<Name>, prev: Option<Name>)
    requires Pruned(base, fs, gone, prev) && Current(base).Some?
    requires forall n | n in gone :: !Hidden(n) && [Current(base).value, n] !in base
    requires Hidden(Current(base).value) && prev != Current(base)
    requires prev.Some? ==> TimestampName(prev.value)
    ensures Same(base, fs)
  {
    var ts := Current(base).value;
    ReservedNames();
    if prev.Some? { NotBelow(prev.value, DATA); }
    forall q | Below([ts], q) && q in base ensures q in fs { assert q[0] == ts; }
  }

  // ---- never anything else ----

  /** What the data link leads to holds no file but those of `files`. */
  ghost predicate Within(fs: Tree, files: Files) {
    Current(fs).Some? ==> forall q | q in fs && |q| > 1 && Below([Current(fs).value], q) && fs[q].File? ::
      q[1..] in files && files[q[1..]] == fs[q].data
  }

  /** Every visible path reads as nothing or as its contents in `files`. */
  ghost predicate ShowsOnly(fs: Tree, files: Files) {
    forall p: Path | p != [] && !Hidden(p[0]) && View(fs, p).Some? :: View(fs, p) == Find(files, p)
  }

  lemma WithinShowsOnly(fs: Tree, files: Files)
    requires Tidy(fs) && Within(fs, files)
    ensures ShowsOnly(fs, files)
  {
    forall p: Path | p != [] && !Hidden(p[0]) && View(fs, p).Some? ensures View(fs, p) == Find(files, p) {
      ReadIsLookup(fs, p);
      var q := [Current(fs).value] + p;
      assert Below([Current(fs).value], q) && q[1..] == p;
    }
  }

  lemma SameKeepsWithin(base: Tree, fs: Tree, files: Files)
    requires Same(base, fs) && Within(base, files)
    ensures Within(fs, files)
  {
  }

  lemma ExactIsWithin(fs: Tree, files: Files)
    requires Current(fs).Some? && Exact(fs, Current(fs).value, files)
    ensures Within(fs, files)
  {
    var ts := Current(fs).value;
    forall q | q in fs && |q| > 1 && Below([ts], q) && fs[q].File?
      ensures q[1..] in files && files[q[1..]] == fs[q].data
    {
      assert q == [ts] + q[1..] && ExactAt(fs, ts, files, q[1..]);
    }
  }
}
