/** The atomic directory writer: eleven steps, of which only the rename changes what a
    reader sees. Maps are iterated in an arbitrary order and every call may fail. */
module AtomicWriter {
  import opened Text
  import opened Paths
  import opened FileSystem
  import opened Wrappers
  import opened Publication
  import opened Payloads

  // ---- step 6: the payload is written below the new directory ----

  /** The new directory holds the payload files in `done` and their ancestors only. */
  ghost predicate Partial(fs: Tree, ts: Name, clean: Payload, done: set<string>) {
    && IsDir(fs, [ts]) && done <= clean.Keys
    && (forall k | k in done :: Elems(k) != [] && [ts] + Elems(k) in fs && fs[[ts] + Elems(k)] == File(clean[k]))
    && (forall p | p != [] && [ts] + p in fs :: FileOf(fs, ts, done, p) || DirOf(fs, ts, done, p))
  }

  ghost predicate FileOf(fs: Tree, ts: Name, done: set<string>, p: Path) {
    [ts] + p in fs && fs[[ts] + p].File? && exists k | k in done :: Elems(k) == p
  }

  ghost predicate DirOf(fs: Tree, ts: Name, done: set<string>, p: Path) {
    IsDir(fs, [ts] + p) && exists k | k in done :: StrictPrefix(p, Elems(k))
  }

  lemma PartialHasNoLinks(fs: Tree, ts: Name, clean: Payload, done: set<string>, p: Path)
    requires WellFormed(fs) && Partial(fs, ts, clean, done)
    ensures NoLinkAbove(fs, [ts] + p)
    ensures [ts] + p in fs ==> !fs[[ts] + p].Link?
  {
    var q := [ts] + p;
    forall j | 0 <= j <= |q| && q[..j] in fs ensures !fs[q[..j]].Link? {
      if j > 1 { assert q[..j] == [ts] + p[..j - 1]; }
      if j == 1 { assert q[..j] == [ts]; }
    }
    assert q[..|q|] == q;
  }

  lemma PartialMade(fs: Tree, made: Tree, ts: Name, clean: Payload, done: set<string>, k: string, p: Path)
    requires Partial(fs, ts, clean, done) && k in clean && Elems(k) != []
    requires Made(fs, made, [ts] + Elems(k))
    requires p != [] && [ts] + p in made
    ensures FileOf(made, ts, done, p) || DirOf(made, ts, done + {k}, p)
  {
    var es, q := Elems(k), [ts] + p;
    if q in fs {
      if DirOf(fs, ts, done, p) {
        var d :| d in done && StrictPrefix(p, Elems(d));
        assert d in done + {k};
      }
    } else {
      var full := [ts] + es;
      assert q == Up(full)[..|q|] == full[..|q|];
      assert p == q[1..] == es[..|p|];
      assert k in done + {k};
    }
  }

  lemma PartialStep(fs: Tree, made: Tree, ts: Name, clean: Payload, done: set<string>, k: string)
    requires WellFormed(fs) && Partial(fs, ts, clean, done) && k in clean && k !in done && Elems(k) != []
    requires Made(fs, made, [ts] + Elems(k))
    requires !IsDir(made, [ts] + Elems(k))
    ensures Partial(made[[ts] + Elems(k) := File(clean[k])], ts, clean, done + {k})
  {
    var es := Elems(k);
    var full := [ts] + es;
    var next, more := made[full := File(clean[k])], done + {k};
    forall d | d in more ensures Elems(d) != [] && [ts] + Elems(d) in next && next[[ts] + Elems(d)] == File(clean[d]) {
      if d != k && [ts] + Elems(d) == full {
        assert ([ts] + Elems(d))[1..] == Elems(d) && full[1..] == es;
        ElemsInjective(d, k);
      }
    }
    forall p | p != [] && [ts] + p in next ensures FileOf(next, ts, more, p) || DirOf(next, ts, more, p) {
      if p == es {
        assert k in more;
      } else {
        assert ([ts] + p)[1..] == p && full[1..] == es;
        PartialMade(fs, made, ts, clean, done, k, p);
        if FileOf(made, ts, done, p) {
          var d :| d in done && Elems(d) == p;
          assert d in more;
        }
      }
    }
  }

  /** A file that is in the way of a directory, or a directory in the way of a file,
      betrays a payload that cannot be written. */
  lemma MkdirBlocked(fs: Tree, ts: Name, clean: Payload, done: set<string>, k: string, j: nat)
    requires Partial(fs, ts, clean, done) && k in clean && Elems(k) != []
    requires var base := Up([ts] + Elems(k)); 0 < j <= |base| && base[..j] in fs && !IsDir(fs, base[..j])
    ensures !Writable(FilesOf(clean))
  {
    hide Elems; hide FilesOf; hide Writable;
    var p := Elems(k)[..j - 1];
    PrefixBelow(ts, Elems(k), j);
    assert j > 1 by { assert j == 1 ==> [ts] + p == [ts]; }
    assert FileOf(fs, ts, done, p);
    var d :| d in done && Elems(d) == p;
    NestedIsUnwritable(clean, d, k);
  }

  lemma PrefixBelow(ts: Name, es: Path, j: nat)
    requires 0 < j <= |es|
    ensures Up([ts] + es)[..j] == [ts] + es[..j - 1]
  {
  }

  /** A payload in which one file is the directory of another cannot be written. */
  lemma NestedIsUnwritable(clean: Payload, d: string, k: string)
    requires d in clean && k in clean && StrictPrefix(Elems(d), Elems(k))
    ensures !Writable(FilesOf(clean))
  {
    assert Elems(d) in FilesOf(clean) && Elems(k) in FilesOf(clean);
  }

  lemma FileBlocked(fs: Tree, made: Tree, ts: Name, clean: Payload, done: set<string>, k: string)
    requires Partial(fs, ts, clean, done) && k in clean && Elems(k) != []
    requires Made(fs, made, [ts] + Elems(k))
    requires IsDir(made, [ts] + Elems(k))
    ensures !Writable(FilesOf(clean))
  {
    var es := Elems(k);
    assert [ts] + es in fs;
    assert DirOf(fs, ts, done, es);
    var d :| d in done && StrictPrefix(es, Elems(d));
    NestedIsUnwritable(clean, k, d);
  }

  lemma PartialIsExact(fs: Tree, ts: Name, clean: Payload)
    requires Partial(fs, ts, clean, clean.Keys)
    ensures Exact(fs, ts, FilesOf(clean))
  {
    var files := FilesOf(clean);
    assert forall k | k in clean :: k in clean.Keys;
    forall p ensures ExactAt(fs, ts, files, p) {
      if p in files {
        var k :| k in clean && Elems(k) == p;
      } else if p != [] && [ts] + p in fs {
        assert DirOf(fs, ts, clean.Keys, p);
        var d :| d in clean.Keys && StrictPrefix(p, Elems(d));
        assert Elems(d) in files;
      }
    }
  }

  class Writer {
    const disk: Disk

    constructor (disk: Disk)
      ensures this.disk == disk
    {
      this.disk := disk;
    }

    /** os.MkdirAll for the directory of one payload file. */
    method MakeBaseDir(ts: Name, k: string, ghost clean: Payload, ghost done: set<string>) returns (e: Errno)
      requires disk.Valid() && Partial(disk.nodes, ts, clean, done) && k in clean && Elems(k) != []
      modifies disk
      ensures disk.Valid() && old(disk.log) <= disk.log && Confined(old(disk.nodes), disk.log, |old(disk.log)|, [ts])
      ensures OnlyBelow(old(disk.nodes), disk.nodes, [ts])
      ensures e == OK ==> Made(old(disk.nodes), disk.nodes, [ts] + Elems(k)) && IsDir(disk.nodes, Up([ts] + Elems(k)))
      ensures e != OK ==> disk.faulted || !Writable(FilesOf(clean))
      ensures (old(disk.faulted) ==> disk.faulted) && old(disk.faults) <= disk.faults
    {
      var fullPath := [ts] + Elems(k);
      var baseDir := Up(fullPath);
      ghost var before := disk.nodes;
      PartialHasNoLinks(before, ts, clean, done, Elems(k));
      assert baseDir[..1] == [ts];
      assert forall j | 0 <= j < |baseDir| :: baseDir[..j] == fullPath[..j];
      e := disk.MkdirAll(baseDir);
      if e != OK && !disk.faulted {
        ghost var j :| 0 < j <= |baseDir| && baseDir[..j] in before && !IsDir(before, baseDir[..j]);
        MkdirBlocked(before, ts, clean, done, k, j);
      }
    }

    /** One payload file: its ancestors, then its contents, then its mode. */
    method WriteOneFile(ts: Name, k: string, data: Bytes, ghost clean: Payload, ghost done: set<string>)
      returns (e: Errno)
      requires disk.Valid() && Partial(disk.nodes, ts, clean, done)
      requires k in clean && clean[k] == data && k !in done && Elems(k) != []
      modifies disk
      ensures disk.Valid() && old(disk.log) <= disk.log && Confined(old(disk.nodes), disk.log, |old(disk.log)|, [ts])
      ensures OnlyBelow(old(disk.nodes), disk.nodes, [ts])
      ensures e == OK ==> Partial(disk.nodes, ts, clean, done + {k})
      ensures e != OK ==> disk.faulted || !Writable(FilesOf(clean))
      ensures (old(disk.faulted) ==> disk.faulted) && old(disk.faults) <= disk.faults
    {
      var fullPath := [ts] + Elems(k);
      ghost var before := disk.nodes;
      e := MakeBaseDir(ts, k, clean, done);
      if e != OK { return; }
      ghost var made, madeLog := disk.nodes, disk.log;
      PartialHasNoLinks(before, ts, clean, done, Elems(k));
      MadeHasNoLinks(before, made, fullPath);
      assert fullPath[..1] == [ts];
      e := disk.WriteFile(fullPath, data);
      ConfinedFrom(before, made, disk.log, |madeLog|, [ts]);
      if e != OK {
        if !disk.faulted { FileBlocked(before, made, ts, clean, done, k); }
        return;
      }
      PartialStep(before, made, ts, clean, done, k);
      var ignored := disk.Chmod(fullPath);
    }

    /** Step 6. The key "." names the new directory itself and cannot be written. */
    method WritePayloadToDir(clean: Payload, ts: Name) returns (e: Errno)
      requires disk.Valid() && CleanPayload(clean) && IsDir(disk.nodes, [ts])
      requires forall p | p != [] :: [ts] + p !in disk.nodes
      modifies disk
      ensures disk.Valid() && old(disk.log) <= disk.log && Confined(old(disk.nodes), disk.log, |old(disk.log)|, [ts])
      ensures OnlyBelow(old(disk.nodes), disk.nodes, [ts])
      ensures e == OK ==> Exact(disk.nodes, ts, FilesOf(clean))
      ensures e != OK ==> disk.faulted || !Writable(FilesOf(clean))
      ensures (old(disk.faulted) ==> disk.faulted) && old(disk.faults) <= disk.faults
    {
      hide Elems; hide FilesOf; hide Writable; hide Exact; hide CleanPayload;
      ghost var before := disk.nodes;
      var done: set<string> := {};
      while done != clean.Keys
        invariant disk.Valid() && old(disk.log) <= disk.log && Confined(before, disk.log, |old(disk.log)|, [ts])
        invariant OnlyBelow(before, disk.nodes, [ts])
        invariant Partial(disk.nodes, ts, clean, done)
        invariant (old(disk.faulted) ==> disk.faulted) && old(disk.faults) <= disk.faults
        decreases clean.Keys - done
      {
        var todo := clean.Keys - done;
        assert todo == {} ==> done == clean.Keys;
        var k :| k in todo;
        ghost var mid, midLog := disk.nodes, disk.log;
        if Elems(k) == [] {
          e := WriteOntoDir(ts, clean, k);
          ConfinedFrom(before, mid, disk.log, |midLog|, [ts]);
          return;
        }
        e := WriteOneFile(ts, k, clean[k], clean, done);
        ConfinedFrom(before, mid, disk.log, |midLog|, [ts]);
        if e != OK { return; }
        done := done + {k};
      }
      e := OK;
      PartialIsExact(disk.nodes, ts, clean);
    }

    method WriteOntoDir(ts: Name, clean: Payload, k: string) returns (e: Errno)
      requires disk.Valid() && k in clean && Elems(k) == [] && IsDir(disk.nodes, [ts])
      modifies disk
      ensures disk.Valid() && old(disk.log) <= disk.log && Confined(old(disk.nodes), disk.log, |old(disk.log)|, [ts])
      ensures OnlyBelow(old(disk.nodes), disk.nodes, [ts])
      ensures e != OK && !Writable(FilesOf(clean))
      ensures (old(disk.faulted) ==> disk.faulted) && old(disk.faults) <= disk.faults
    {
      assert [] in FilesOf(clean);
      assert [ts][..0] == [] && [ts][..1] == [ts];
      e := disk.WriteFile([ts], clean[k]);
    }

    // ---- steps 3 and 4: comparing with the published directory ----

    method ShouldWriteFile(ts: Name, k: string, data: Bytes) returns (e: Errno, should: bool)
      requires disk.Valid() && Tidy(disk.nodes) && Current(disk.nodes) == Some(ts)
      modifies disk`faulted, disk`faults
      ensures e == OK ==> Compare(disk.nodes, ts, k, data) == if should then Differs else Equal
      ensures e != OK ==> disk.faulted || Compare(disk.nodes, ts, k, data) == Fails
      ensures (old(disk.faulted) ==> disk.faulted) && old(disk.faults) <= disk.faults
    {
      var path := [ts] + Elems(k);
      ReadBelow(disk.nodes, ts, Elems(k));
      e := disk.Lstat(path);
      if e == ENOENT { return OK, true; }
      var contentOnFs;
      e, contentOnFs := disk.ReadFile(path);
      should := data != contentOnFs;
    }

    /** Step 4: the files are compared in the order the map is iterated, up to the first
        difference. */
    method ShouldWritePayload(clean: Payload, ts: Name, order: seq<string>) returns (e: Errno, should: bool)
      requires disk.Valid() && Tidy(disk.nodes) && Current(disk.nodes) == Some(ts)
      requires Enumerates(order, clean.Keys)
      modifies disk`faulted, disk`faults
      ensures e == OK ==> Scan(Verdicts(disk.nodes, ts, clean), order, 0) == if should then Differs else Equal
      ensures e != OK ==> disk.faulted || Scan(Verdicts(disk.nodes, ts, clean), order, 0) == Fails
      ensures (old(disk.faulted) ==> disk.faulted) && old(disk.faults) <= disk.faults
    {
      hide Compare;
      ghost var verdicts := Verdicts(disk.nodes, ts, clean);
      for i := 0 to |order|
        invariant Scan(verdicts, order, 0) == Scan(verdicts, order, i)
        invariant (old(disk.faulted) ==> disk.faulted) && old(disk.faults) <= disk.faults
      {
        e, should := ShouldWriteFile(ts, order[i], clean[order[i]]);
        if e != OK { return e, false; }
        if should { return OK, true; }
      }
      return OK, false;
    }

    /** Step 3: a directory that is gone leaves nothing to remove. */
    method PathsToRemove(clean: Payload, ts: Name) returns (e: Errno, remove: set<string>)
      requires disk.Valid() && Tidy(disk.nodes) && Current(disk.nodes) == Some(ts) && CleanPayload(clean)
      modifies disk`faulted, disk`faults
      ensures e == OK ==> remove == Unneeded(disk.nodes, ts, clean)
      ensures e != OK ==> disk.faulted
      ensures (old(disk.faulted) ==> disk.faulted) && old(disk.faults) <= disk.faults
    {
      ReadBelow(disk.nodes, ts, []);
      assert [ts] + [] == [ts];
      var found;
      e, found := disk.WalkTree([ts]);
      if e == ENOENT {
        SkipWhenLost(disk.nodes, ts, clean);
        return OK, {};
      }
      if e != OK { return e, {}; }
      var paths := set rel | rel in found :: Join(rel, SEP);
      var newPaths: set<string> := {};
      var todo := clean.Keys;
      while todo != {}
        invariant todo <= clean.Keys
        invariant newPaths == Closure(clean.Keys - todo)
        invariant (old(disk.faulted) ==> disk.faulted) && old(disk.faults) <= disk.faults
        decreases todo
      {
        var file :| file in todo;
        var subPaths := SubPaths(file);
        ClosureStep(clean.Keys - todo, file);
        newPaths := newPaths + subPaths;
        todo := todo - {file};
        assert clean.Keys - todo == clean.Keys - (todo + {file}) + {file};
      }
      assert clean.Keys - todo == clean.Keys;
      RemovalIsUnneeded(disk.nodes, ts, clean);
      remove := paths - newPaths;
    }

    // ---- step 7: the visible links ----

    /** A name that is missing gets a link; a name that is taken, or cannot be read, is
        passed over. `skipped` records that a missing name was passed over. */
    method LinkVisibleFile(linkname: Name, ghost base: Tree, ghost ts: Name, ghost heads: set<Name>)
      returns (e: Errno, ghost skipped: bool)
      requires disk.Valid() && Staged(base, disk.nodes, ts, heads) && linkname in heads
      modifies disk
      ensures disk.Valid() && old(disk.log) <= disk.log
      ensures Staged(base, disk.nodes, ts, heads) && AllStaged(base, disk.log, |old(disk.log)|, ts, heads)
      ensures disk.nodes == old(disk.nodes)
        || ([linkname] !in old(disk.nodes) && disk.nodes == old(disk.nodes)[[linkname] := Link([DATA, linkname])])
      ensures e == OK && !skipped ==> [linkname] in disk.nodes
      ensures e != OK || skipped ==> disk.faulted
      ensures (old(disk.faulted) ==> disk.faulted) && old(disk.faults) <= disk.faults
    {
      skipped := false;
      e := OK;
      assert NoLinkAbove(disk.nodes, [linkname]) && Up([linkname]) == [];
      var err, target := disk.Readlink([linkname]);
      if err == ENOENT {
        ghost var mid := disk.nodes;
        e := disk.Symlink([DATA, linkname], [linkname]);
        if e == OK { LinkIsStaged(base, mid, ts, heads, linkname); }
      } else if err != OK && [linkname] !in disk.nodes {
        assert Probe(disk.nodes, [linkname]) == ENOENT;
        skipped := true;
      }
    }

    method CreateUserVisibleFiles(clean: Payload, ghost base: Tree, ghost ts: Name)
      returns (e: Errno, ghost skipped: bool)
      requires disk.Valid() && Staged(base, disk.nodes, ts, Heads(clean))
      modifies disk
      ensures disk.Valid() && old(disk.log) <= disk.log
      ensures Staged(base, disk.nodes, ts, Heads(clean)) && AllStaged(base, disk.log, |old(disk.log)|, ts, Heads(clean))
      ensures Linked(old(disk.nodes), disk.nodes, Heads(clean))
      ensures e == OK ==> (skipped <==> !AllPresent(disk.nodes, Heads(clean)))
      ensures e != OK || skipped ==> disk.faulted
      ensures (old(disk.faulted) ==> disk.faulted) && old(disk.faults) <= disk.faults
    {
      ghost var heads := Heads(clean);
      ghost var passed := false;
      skipped := false;
      e := OK;
      var todo := clean.Keys;
      while todo != {}
        invariant todo <= clean.Keys && e == OK
        invariant disk.Valid() && old(disk.log) <= disk.log
        invariant Staged(base, disk.nodes, ts, heads) && AllStaged(base, disk.log, |old(disk.log)|, ts, heads)
        invariant Linked(old(disk.nodes), disk.nodes, heads)
        invariant !passed ==> forall k | k in clean && k !in todo :: [LinkName(k)] in disk.nodes
        invariant passed ==> disk.faulted
        invariant (old(disk.faulted) ==> disk.faulted) && old(disk.faults) <= disk.faults
        decreases todo
      {
        var userVisiblePath :| userVisiblePath in todo;
        assert LinkName(userVisiblePath) in heads;
        ghost var mid, midLog, over := disk.nodes, disk.log, false;
        e, over := LinkVisibleFile(LinkName(userVisiblePath), base, ts, heads);
        StagedLogs(base, midLog, disk.log, |old(disk.log)|, ts, heads);
        LinkedStep(old(disk.nodes), mid, disk.nodes, heads, LinkName(userVisiblePath));
        if e != OK { return; }
        passed := passed || over;
        todo := todo - {userVisiblePath};
      }
      skipped := !AllPresent(disk.nodes, heads);
    }

    // ---- step 10: pruning ----

    method RemoveRootEntry(p: Name) returns (e: Errno)
      requires disk.Valid()
      modifies disk
      ensures disk.Valid()
      ensures e == OK ==> disk.nodes == old(disk.nodes) - {[p]} && disk.log == old(disk.log) + [disk.nodes]
      ensures e != OK ==> disk.nodes == old(disk.nodes) && disk.log == old(disk.log)
      ensures e == OK ==> Detachable(old(disk.nodes), p)
      ensures e != OK ==> disk.faulted || !Detachable(old(disk.nodes), p)
      ensures (old(disk.faulted) ==> disk.faulted) && old(disk.faults) <= disk.faults
    {
      assert NoLinkAbove(disk.nodes, [p]);
      e := disk.Remove([p]);
    }

    /** Only entries of the root are removed; a failing removal does not stop the others. */
    method RemoveUserVisiblePaths(paths: set<string>, ghost base: Tree) returns (e: Errno)
      requires disk.Valid() && Pruned(base, disk.nodes, RootNames(paths), None)
      modifies disk
      ensures disk.Valid() && old(disk.log) <= disk.log
      ensures Pruned(base, disk.nodes, RootNames(paths), None)
      ensures AllPruned(base, disk.log, |old(disk.log)|, RootNames(paths), None)
      ensures e == OK ==> forall n | n in RootNames(paths) :: [n] !in disk.nodes
      ensures e == OK ==> AllDetachable(old(disk.nodes), RootNames(paths))
      ensures e != OK ==> disk.faulted || !AllDetachable(old(disk.nodes), RootNames(paths))
      ensures (old(disk.faulted) ==> disk.faulted) && old(disk.faults) <= disk.faults
    {
      hide Detachable; hide Pruned;
      ghost var gone := RootNames(paths);
      e := OK;
      var todo := paths;
      while todo != {}
        invariant todo <= paths
        invariant disk.Valid() && old(disk.log) <= disk.log
        invariant Pruned(base, disk.nodes, gone, None) && AllPruned(base, disk.log, |old(disk.log)|, gone, None)
        invariant e == OK ==> forall n | n in gone && n !in todo :: [n] !in disk.nodes && Detachable(old(disk.nodes), n)
        invariant forall q :: q in disk.nodes ==> q in old(disk.nodes)
        invariant forall q :: q in old(disk.nodes) && q !in disk.nodes ==> |q| == 1 && q[0] in gone && q[0] !in todo
        invariant e != OK ==> disk.faulted || !AllDetachable(old(disk.nodes), gone)
        invariant (old(disk.faulted) ==> disk.faulted) && old(disk.faults) <= disk.faults
        decreases todo
      {
        var p :| p in todo;
        todo := todo - {p};
        if SEP !in p {
          assert p in gone;
          ghost var mid := disk.nodes;
          var err := RemoveRootEntry(p);
          SameDetachable(old(disk.nodes), mid, p);
          if err != OK { e := err; } else { RemovalIsPruned(base, mid, gone, p); }
        }
      }
    }

    // ---- steps 5 to 9: a new directory is filled and then published by one rename ----

    /** Steps 5 and 6. */
    method FillNewDir(clean: Payload, ghost heads: set<Name>) returns (failed: nat, ts: Name)
      requires disk.Valid() && CleanPayload(clean)
      modifies disk
      ensures disk.Valid() && old(disk.log) <= disk.log && failed in {0, 5, 6}
      ensures failed == 0 ==> Exact(disk.nodes, ts, FilesOf(clean))
      ensures disk.log != old(disk.log) || failed != 5 ==> TimestampName(ts) && Unheard(old(disk.nodes), ts)
      ensures Staged(old(disk.nodes), disk.nodes, ts, heads)
      ensures AllStaged(old(disk.nodes), disk.log, |old(disk.log)|, ts, heads)
      ensures OnlyBelow(old(disk.nodes), disk.nodes, [ts])
      ensures failed != 0 ==> disk.faulted || !Writable(FilesOf(clean))
      ensures (old(disk.faulted) ==> disk.faulted) && old(disk.faults) <= disk.faults
    {
      ghost var base := disk.nodes;
      // (5)
      var err;
      err, ts := disk.MkdirTemp();
      if err != OK { return 5, ts; }
      ghost var at5, log5 := disk.nodes, disk.log;
      FreshDirIsStaged(base, ts, heads);
      err := disk.Chmod([ts]);
      if err != OK { return 5, ts; }
      // (6)
      FreshDirIsEmpty(base, ts);
      err := WritePayloadToDir(clean, ts);
      StagedBelow(base, at5, disk.nodes, disk.log, |log5|, ts, heads);
      StagedLogs(base, log5, disk.log, |old(disk.log)|, ts, heads);
      failed := if err != OK then 6 else 0;
    }

    /** Steps 8 and 9. On success the last recorded state is the one after the rename, and
        it is the only one that is not staged. */
    method SwitchDataLink(ts: Name, ghost base: Tree, ghost heads: set<Name>) returns (failed: nat)
      requires disk.Valid() && Staged(base, disk.nodes, ts, heads)
      requires [DATA] in disk.nodes ==> disk.nodes[[DATA]].Link?
      requires TimestampName(ts)
      modifies disk
      ensures disk.Valid() && old(disk.log) <= disk.log && failed in {0, 8, 9}
      ensures failed != 0 ==>
        AllStaged(base, disk.log, |old(disk.log)|, ts, heads) && Staged(base, disk.nodes, ts, heads)
      ensures failed != 0 && disk.faults == old(disk.faults) + OneFault(old(disk.nodes)) ==>
        Subtree(disk.nodes, [ts]) == {} && ([TMP] in disk.nodes <==> [TMP] in old(disk.nodes))
      ensures failed != 0 ==> disk.faults >= old(disk.faults) + OneFault(old(disk.nodes))
      ensures failed == 0 ==> |disk.log| == |old(disk.log)| + 2 && Staged(base, disk.log[|old(disk.log)|], ts, heads)
      ensures failed == 0 ==> [TMP] !in old(disk.nodes) && disk.nodes == old(disk.nodes)[[DATA] := Link([ts])]
      ensures KeepsTmp(old(disk.nodes), disk.nodes)
      ensures failed != 0 ==> disk.faulted || [TMP] in old(disk.nodes)
      ensures (old(disk.faulted) ==> disk.faulted) && old(disk.faults) <= disk.faults
    {
      ghost var at7 := disk.nodes;
      ReservedNames();
      assert NoLinkAbove(disk.nodes, [TMP]) && NoLinkAbove(disk.nodes, [DATA]) && Up([TMP]) == [] && Up([DATA]) == [];
      // (8)
      var err := disk.Symlink([ts], [TMP]);
      if err != OK {
        NotBelow(ts, TMP);
        Discard(base, ts, heads);
        return 8;
      }
      TmpIsStaged(base, at7, ts, heads);
      ghost var log8 := disk.log;
      // (9)
      err := disk.Rename([TMP], [DATA]);
      if err != OK {
        UndoTmp(base, ts, heads);
        StagedLogs(base, log8, disk.log, |old(disk.log)|, ts, heads);
        return 9;
      }
      RenameResult(at7, ts);
      return 0;
    }

    /** The clean-up after a failed step 9; its own failures are ignored. */
    method UndoTmp(ghost base: Tree, ts: Name, ghost heads: set<Name>)
      requires disk.Valid() && Staged(base, disk.nodes, ts, heads)
      modifies disk
      ensures disk.Valid() && old(disk.log) <= disk.log
      ensures Staged(base, disk.nodes, ts, heads) && AllStaged(base, disk.log, |old(disk.log)|, ts, heads)
      ensures disk.faults == old(disk.faults) && ts != TMP && !IsDir(old(disk.nodes), [TMP]) ==>
        [TMP] !in disk.nodes && Subtree(disk.nodes, [ts]) == {}
      ensures (old(disk.faulted) ==> disk.faulted) && old(disk.faults) <= disk.faults
    {
      ghost var before := disk.nodes;
      assert NoLinkAbove(disk.nodes, [TMP]);
      var ignored := disk.Remove([TMP]);
      StagedWithoutTmp(base, before, ts, heads);
      if ts != TMP { NotBelow(ts, TMP); }
      ghost var log9 := disk.log;
      Discard(base, ts, heads);
      StagedLogs(base, log9, disk.log, |old(disk.log)|, ts, heads);
    }

    /** The clean-up after a failed step 8; its own failures are ignored. */
    method Discard(ghost base: Tree, ts: Name, ghost heads: set<Name>)
      requires disk.Valid() && Staged(base, disk.nodes, ts, heads)
      modifies disk
      ensures disk.Valid() && old(disk.log) <= disk.log
      ensures Staged(base, disk.nodes, ts, heads) && AllStaged(base, disk.log, |old(disk.log)|, ts, heads)
      ensures OnlyBelow(old(disk.nodes), disk.nodes, [ts])
      ensures disk.faults == old(disk.faults) ==> Subtree(disk.nodes, [ts]) == {}
      ensures (old(disk.faulted) ==> disk.faulted) && old(disk.faults) <= disk.faults
    {
      ghost var before := disk.nodes;
      var ignored := disk.RemoveAll([ts]);
      StagedBelow(base, before, disk.nodes, disk.log, |old(disk.log)|, ts, heads);
    }

    /** Steps 7 to 9. */
    method LinkAndSwitch(clean: Payload, ts: Name, ghost base: Tree, ghost heads: set<Name>)
      returns (failed: nat, ghost skipped: bool)
      requires disk.Valid() && Staged(base, disk.nodes, ts, heads) && Exact(disk.nodes, ts, FilesOf(clean))
      requires WellFormed(base) && ([DATA] in base ==> base[[DATA]].Link?) && TimestampName(ts) && Unheard(base, ts)
      requires heads == Heads(clean) && forall n | n in heads :: !Hidden(n)
      modifies disk
      ensures disk.Valid() && old(disk.log) <= disk.log && failed in {0, 7, 8, 9}
      ensures failed != 0 ==> AllStaged(base, disk.log, |old(disk.log)|, ts, heads)
      ensures failed == 0 ==> |disk.log| > |old(disk.log)|
      ensures failed == 0 ==> StagedBetween(base, disk.log, |old(disk.log)|, |disk.log| - 1, ts, heads)
      ensures failed == 0 ==> Committed(base, disk.nodes, ts, heads) && Exact(disk.nodes, ts, FilesOf(clean))
      ensures failed == 0 ==> [TMP] !in old(disk.nodes)
      ensures failed == 0 ==> (skipped <==> !AllPresent(disk.nodes, heads))
      ensures skipped ==> disk.faulted
      ensures failed != 0 ==> disk.faulted || [TMP] in old(disk.nodes)
      ensures failed in {8, 9} && disk.faults == old(disk.faults) + OneFault(old(disk.nodes)) ==>
        && Staged(base, disk.nodes, ts, heads) && Subtree(disk.nodes, [ts]) == {}
        && ([TMP] in disk.nodes <==> [TMP] in old(disk.nodes))
      ensures failed in {8, 9} ==> disk.faults >= old(disk.faults) + OneFault(old(disk.nodes))
      ensures KeepsTmp(old(disk.nodes), disk.nodes)
      ensures (old(disk.faulted) ==> disk.faulted) && old(disk.faults) <= disk.faults
    {
      ghost var at6 := disk.nodes;
      // (7)
      var err;
      err, skipped := CreateUserVisibleFiles(clean, base, ts);
      ghost var at7, log7 := disk.nodes, disk.log;
      TmpNotLinked(at6, at7, heads);
      if err != OK { return 7, skipped; }
      LinkedKeepsExact(at6, at7, heads, ts, FilesOf(clean));
      StagedKeepsData(base, at7, ts, heads);
      failed := SwitchDataLink(ts, base, heads);
      if failed != 0 {
        StagedLogs(base, log7, disk.log, |old(disk.log)|, ts, heads);
      } else {
        StagedBeforeRename(base, log7, disk.log, |old(disk.log)|, ts, heads);
        RenameKeepsExact(at7, ts, FilesOf(clean));
        RenameCommits(base, at7, ts, heads);
        PresentAfterRename(at7, ts, heads);
      }
    }

    /** Steps 5 to 9: a new directory is filled and then published by one rename. On
        success the last recorded state is the first with the new view. */
    method Publish(clean: Payload) returns (failed: nat, ts: Name, ghost skipped: bool)
      requires disk.Valid() && Tidy(disk.nodes) && CleanPayload(clean)
      requires forall n | n in Heads(clean) :: !Hidden(n)
      modifies disk
      ensures disk.Valid() && old(disk.log) <= disk.log && failed in {0, 5, 6, 7, 8, 9}
      ensures failed != 0 ==> AllSame(old(disk.nodes), disk.log, |old(disk.log)|, |disk.log|)
      ensures failed == 0 ==>
        |disk.log| > |old(disk.log)| && AllSame(old(disk.nodes), disk.log, |old(disk.log)|, |disk.log| - 1)
      ensures failed == 0 ==>
        Committed(old(disk.nodes), disk.nodes, ts, Heads(clean)) && Exact(disk.nodes, ts, FilesOf(clean))
      ensures failed == 0 ==> [TMP] !in old(disk.nodes)
      ensures failed == 0 ==> (skipped <==> !AllPresent(disk.nodes, Heads(clean)))
      ensures skipped ==> disk.faulted
      ensures failed != 0 ==> disk.faulted || [TMP] in old(disk.nodes) || !Writable(FilesOf(clean))
      ensures failed in {8, 9} && disk.faults == old(disk.faults) + OneFault(old(disk.nodes)) ==>
        Linked(old(disk.nodes), disk.nodes, Heads(clean))
      ensures failed in {8, 9} ==> disk.faults >= old(disk.faults) + OneFault(old(disk.nodes))
      ensures KeepsTmp(old(disk.nodes), disk.nodes)
      ensures (old(disk.faulted) ==> disk.faulted) && old(disk.faults) <= disk.faults
    {
      ghost var base, heads := disk.nodes, Heads(clean);
      skipped := false;
      failed, ts := FillNewDir(clean, heads);
      if failed != 0 {
        if disk.log != old(disk.log) || failed != 5 {
          StagedLogIsSame(base, disk.log, |old(disk.log)|, ts, heads);
          TmpUntouched(base, disk.nodes, ts);
        }
        return;
      }
      ghost var at6, log6 := disk.nodes, disk.log;
      TmpUntouched(base, at6, ts);
      failed, skipped := LinkAndSwitch(clean, ts, base, heads);
      if failed != 0 {
        StagedLogs(base, log6, disk.log, |old(disk.log)|, ts, heads);
        StagedLogIsSame(base, disk.log, |old(disk.log)|, ts, heads);
        if failed in {8, 9} && disk.faults == old(disk.faults) + OneFault(base) {
          DiscardedIsLinked(base, disk.nodes, ts, heads);
        }
      } else {
        StagedJoin(base, log6, disk.log, |old(disk.log)|, |disk.log| - 1, ts, heads);
        StagedBetweenIsSame(base, disk.log, |old(disk.log)|, |disk.log| - 1, ts, heads);
      }
    }

    // ---- steps 10 and 11: what the old version leaves behind ----

    method Prune(remove: set<string>, prev: Option<Name>) returns (failed: nat)
      requires disk.Valid()
      modifies disk
      ensures disk.Valid() && old(disk.log) <= disk.log && failed in {0, 10, 11}
      ensures AllPruned(old(disk.nodes), disk.log, |old(disk.log)|, RootNames(remove), prev)
      ensures Pruned(old(disk.nodes), disk.nodes, RootNames(remove), prev)
      ensures failed == 0 ==> forall n | n in RootNames(remove) :: [n] !in disk.nodes
      ensures failed == 0 && prev.Some? ==> Subtree(disk.nodes, [prev.value]) == {}
      ensures failed == 0 ==> AllDetachable(old(disk.nodes), RootNames(remove))
      ensures failed != 0 ==> disk.faulted || !AllDetachable(old(disk.nodes), RootNames(remove))
      ensures (old(disk.faulted) ==> disk.faulted) && old(disk.faults) <= disk.faults
    {
      ghost var base, gone := disk.nodes, RootNames(remove);
      // (10)
      var err := RemoveUserVisiblePaths(remove, base);
      ghost var at10, log10 := disk.nodes, disk.log;
      PrunedMore(base, at10, disk.log, |old(disk.log)|, gone, prev);
      if err != OK { return 10; }
      // (11)
      if prev.Some? {
        err := disk.RemoveAll([prev.value]);
        PrunedBelow(base, at10, disk.nodes, disk.log, |log10|, gone, prev.value);
        PrunedLogs(base, log10, disk.log, |old(disk.log)|, gone, prev);
        if err != OK { return 11; }
      }
      return 0;
    }

    // ---- the whole algorithm ----

    /** Steps 3 and 4 for a directory that has been published before. */
    method Examine(clean: Payload, prev: Name) returns (failed: nat, skip: bool, remove: set<string>)
      requires disk.Valid() && Tidy(disk.nodes) && Current(disk.nodes) == Some(prev) && CleanPayload(clean)
      modifies disk`faulted, disk`faults
      ensures disk.Valid() && failed in {0, 3, 4}
      ensures failed == 0 ==> remove == Unneeded(disk.nodes, prev, clean)
      ensures failed == 0 ==> (skip <==> UpToDate(disk.nodes, prev, clean))
      ensures failed != 0 ==> disk.faulted || exists k | k in clean :: Compare(disk.nodes, prev, k, clean[k]) == Fails
      ensures failed != 0 && UpToDate(disk.nodes, prev, clean) ==> disk.faulted
      ensures (old(disk.faulted) ==> disk.faulted) && old(disk.faults) <= disk.faults
    {
      hide Compare; hide UpToDate; hide FilesOf; hide Unneeded; hide CleanPayload; hide TidyData;
      SkipIsUpToDate(disk.nodes, prev, clean);
      skip := false;
      // (3)
      var err;
      err, remove := PathsToRemove(clean, prev);
      if err != OK { return 3, false, remove; }
      // (4)
      var order := KeysInSomeOrder(clean);
      var should;
      err, should := ShouldWritePayload(clean, prev, order);
      ScanEqualIff(Verdicts(disk.nodes, prev, clean), order, 0);
      if err != OK { return 4, false, remove; }
      assert forall k | k in clean :: k in order;
      return 0, !should && remove == {}, remove;
    }

    method KeysInSomeOrder(clean: Payload) returns (order: seq<string>)
      ensures Enumerates(order, clean.Keys)
    {
      order := [];
      var todo := clean.Keys;
      while todo != {}
        invariant todo <= clean.Keys && Enumerates(order, clean.Keys - todo)
        decreases todo
      {
        var k :| k in todo;
        order := order + [k];
        todo := todo - {k};
      }
    }

    /** Steps 5 to 11. */
    method Replace(clean: Payload, prev: Option<Name>, remove: set<string>)
      returns (failed: nat, ghost commit: nat, ghost skipped: bool)
      requires disk.Valid() && Planned(disk.nodes, prev, remove, clean)
      modifies disk
      ensures disk.Valid() && old(disk.log) <= disk.log && failed in {0, 5, 6, 7, 8, 9, 10, 11}
      ensures |old(disk.log)| <= commit <= |disk.log| && (commit < |disk.log| <==> failed in {0, 10, 11})
      ensures Trace(old(disk.nodes), disk.log, |old(disk.log)|, commit, clean, skipped)
      ensures failed == 0 ==> Settled(old(disk.nodes), disk.nodes, clean)
      ensures skipped ==> disk.faulted
      ensures failed != 0 && !disk.faulted ==>
        [TMP] in old(disk.nodes) || !Writable(FilesOf(clean)) || PruneObstructed(old(disk.nodes), clean)
      ensures failed == 0 ==> !PruneObstructed(old(disk.nodes), clean)
      ensures failed in {8, 9} && disk.faults == old(disk.faults) + OneFault(old(disk.nodes)) ==>
        Linked(old(disk.nodes), disk.nodes, Heads(clean))
      ensures failed in {8, 9} ==> disk.faults >= old(disk.faults) + OneFault(old(disk.nodes))
      ensures if commit == |disk.log| then KeepsTmp(old(disk.nodes), disk.nodes) else [TMP] !in old(disk.nodes)
      ensures (old(disk.faulted) ==> disk.faulted) && old(disk.faults) <= disk.faults
    {
      hide Tidy; hide AllLinked; hide Exact; hide Settled; hide FilesOf; hide Unneeded; hide CleanPayload;
      hide Writable; hide Committed; hide Pruned; hide Heads; hide Trace; hide AllSame; hide AllPruned;
      hide AllPresent; hide WellFormed; hide PruneObstructed; hide AllDetachable; hide Detachable;
      hide KeepsTmp; hide Linked;
      ghost var base := disk.nodes;
      var ts;
      failed, ts, skipped := Publish(clean);
      if failed != 0 {
        commit := |disk.log|;
        UncommittedTrace(base, disk.log, |old(disk.log)|, clean, skipped);
      } else {
        assert AllSame(base, disk.log, |old(disk.log)|, |disk.log| - 1);
        commit := |disk.log| - 1;
        failed := CleanUp(prev, remove, base, |old(disk.log)|, ts, clean, skipped);
        assert Trace(base, disk.log, |old(disk.log)|, commit, clean, skipped);
      }
    }

    /** Steps 10 and 11, right after the rename. */
    method CleanUp(prev: Option<Name>, remove: set<string>, ghost base: Tree, ghost from: nat, ghost ts: Name,
            ghost clean: Payload, ghost skipped: bool)
      returns (failed: nat)
      requires disk.Valid() && Planned(base, prev, remove, clean) && [TMP] !in base
      requires |disk.log| > from && AllSame(base, disk.log, from, |disk.log| - 1)
      requires Exact(disk.nodes, ts, FilesOf(clean)) && Committed(base, disk.nodes, ts, Heads(clean))
      requires skipped <==> !AllPresent(disk.nodes, Heads(clean))
      modifies disk
      ensures disk.Valid() && old(disk.log) <= disk.log && failed in {0, 10, 11}
      ensures Trace(base, disk.log, from, |old(disk.log)| - 1, clean, skipped)
      ensures failed == 0 ==> Settled(base, disk.nodes, clean)
      ensures failed == 0 ==> !PruneObstructed(base, clean)
      ensures failed != 0 ==> disk.faulted || PruneObstructed(base, clean)
      ensures (old(disk.faulted) ==> disk.faulted) && old(disk.faults) <= disk.faults
    {
      hide Tidy; hide AllLinked; hide Exact; hide Settled; hide FilesOf; hide Unneeded; hide CleanPayload;
      hide Committed; hide Pruned; hide Heads; hide Trace; hide AllSame; hide AllPruned; hide AllPresent;
      hide PruneObstructed; hide AllDetachable; hide Detachable; hide RootNames;
      ghost var fs, logs := disk.nodes, disk.log;
      failed := Prune(remove, prev);
      PruneBlockedIff(base, fs, ts, prev, remove, clean);
      ReplaceTrace(base, fs, logs, disk.log, from, ts, prev, remove, clean, skipped);
      if failed == 0 { ReplaceSettles(base, fs, disk.nodes, ts, prev, remove, clean); }
    }

    /** Write: the payload replaces whatever is published, seen from any reader at once or
        not at all. */
    method Write(payload: Payload)
      returns (result: Outcome, ghost clean: Payload, ghost commit: nat, ghost skipped: bool)
      requires disk.Valid() && (DataIsNoLink(disk.nodes) || Tidy(disk.nodes)) && Unreserved(payload)
      modifies disk
      ensures disk.Valid() && old(disk.log) <= disk.log && |old(disk.log)| <= commit <= |disk.log|
      // every state the disk passes through, and so every crash
      ensures Trace(old(disk.nodes), disk.log, |old(disk.log)|, commit, clean, skipped)
      ensures skipped ==> disk.faulted && (commit < |disk.log| ==> !AllPresent(old(disk.nodes), Heads(clean)))
      ensures old(Tidy(disk.nodes)) ==> Tidy(disk.nodes)
      // what the result says
      ensures result == Rejected <==> exists k | k in payload :: !ValidPath(k)
      ensures result != Rejected ==> Cleaning(payload, clean)
      ensures result in {Rejected, Unchanged} ==> disk.nodes == old(disk.nodes) && disk.log == old(disk.log)
      ensures commit < |disk.log| <==> result in {Done, Failed(10), Failed(11)}
      ensures result == Done ==> Settled(old(disk.nodes), disk.nodes, clean)
      ensures result == Unchanged ==> Current(old(disk.nodes)).Some?
      ensures result != Rejected && Current(old(disk.nodes)).Some? ==>
        var upToDate := UpToDate(old(disk.nodes), Current(old(disk.nodes)).value, clean);
        (result == Unchanged ==> upToDate) && (upToDate ==> result == Unchanged || disk.faulted)
      // when it fails
      ensures [TMP] in old(disk.nodes) ==> commit == |disk.log| && [TMP] in disk.nodes
      ensures result.Failed? ==>
        disk.faulted || Obstructed(old(disk.nodes), clean) || Incomparable(old(disk.nodes), clean)
      ensures result == Done ==> !Obstructed(old(disk.nodes), clean)
      // a failing step 8 or 9 is undone, unless another call fails as well
      ensures result in {Failed(8), Failed(9)} && disk.faults == old(disk.faults) + OneFault(old(disk.nodes)) ==>
        Linked(old(disk.nodes), disk.nodes, Heads(clean))
      ensures (old(disk.faulted) ==> disk.faulted) && old(disk.faults) <= disk.faults
    {
      hide Compare; hide Exact; hide UpToDate; hide Settled; hide FilesOf; hide CleanPayload; hide Writable;
      hide Cleaning; hide ValidPath; hide Trace; hide Heads; hide Unneeded; hide PruneObstructed;
      hide AllDetachable; hide Detachable; hide WellFormed; hide Unreserved; hide TidyData;
      commit, skipped := |disk.log|, false;
      ghost var base := disk.nodes;
      // (1)
      var valid, cleanPayload := ValidatePayload(payload);
      clean := cleanPayload;
      NoChangeTrace(base, disk.log, clean, skipped);
      if !valid { result := Rejected; return; }
      UnreservedPayload(payload, clean);
      // (2)
      RootEntry(base, DATA);
      var err, target := disk.Readlink([DATA]);
      if err != OK && err != ENOENT { result := Failed(2); return; }
      DataLinkIsRoot(base);
      var prev: Option<Name> := None;
      var remove: set<string> := {};
      if err == OK {
        prev := Some(target[0]);
        var step, skip;
        step, skip, remove := Examine(cleanPayload, target[0]);
        if step != 0 { result := Failed(step); return; }
        if skip { result := Unchanged; return; }
      }
      var failed;
      failed, commit, skipped := Replace(cleanPayload, prev, remove);
      SkippedWasMissing(base, disk.log, |old(disk.log)|, commit, clean, skipped);
      result := if failed == 0 then Done else Failed(failed);
      if result == Done { SettledIsWritable(base, disk.nodes, clean); }
      if Tidy(base) { TraceKeepsTidy(base, old(disk.log), disk.log, commit, clean, skipped); }
    }
  }

  datatype Outcome = Done | Unchanged | Rejected | Failed(step: nat)

  /** Before position `commit` the states differ from `before` invisibly; from there on
      they differ invisibly from the one state the rename made. That state shows the payload
      exactly when nobody else holds one of its names and no missing link was passed over
      because it could not be read, which cannot be if every name has an entry before. */
  ghost predicate Trace(before: Tree, log: seq<Tree>, from: nat, commit: nat, clean: Payload, skipped: bool) {
    && from <= commit <= |log|
    && AllSame(before, log, from, commit)
    && (commit < |log| ==>
      && AllSame(log[commit], log, commit, |log|)
      && [TMP] !in before && OnlyLinksAdded(before, log[commit]) && Tidy(log[commit])
      && Current(log[commit]).Some? && Exact(log[commit], Current(log[commit]).value, FilesOf(clean))
      && (skipped ==> !AllPresent(before, Heads(clean)))
      && (Managed(log[commit]) <==> !skipped)
      && (Shows(log[commit], FilesOf(clean)) <==> !skipped && NoForeign(before, FilesOf(clean))))
  }

  /** Before the write it can be told that no name will be passed over. */
  lemma SkippedWasMissing(before: Tree, log: seq<Tree>, from: nat, commit: nat, clean: Payload, skipped: bool)
    requires Trace(before, log, from, commit, clean, skipped)
    ensures skipped && commit < |log| ==> !AllPresent(before, Heads(clean))
  {
  }

  lemma TraceKeepsTidy(before: Tree, log: seq<Tree>, more: seq<Tree>, commit: nat, clean: Payload, skipped: bool)
    requires Tidy(before) && |log| > 0 && log[|log| - 1] == before && log <= more
    requires Trace(before, more, |log|, commit, clean, skipped)
    ensures Tidy(more[|more| - 1])
  {
    hide Managed; hide Shows; hide OnlyLinksAdded;
    var last := |more| - 1;
    if last >= |log| {
      if commit <= last {
        assert Same(more[commit], more[last]);
        SameKeepsTidy(more[commit], more[last]);
      } else {
        assert Same(before, more[last]);
        SameKeepsTidy(before, more[last]);
      }
    }
  }

  /** The directory after a write that went through, in full: the new version, the old
      visible entries without those only the old version needed, nothing of the old
      version, and whatever else was there before. */
  ghost predicate Settled(before: Tree, fs: Tree, clean: Payload) {
    && Current(fs).Some? && [TMP] !in fs
    && var ts, prev := Current(fs).value, Current(before);
    && [ts] !in before && Exact(fs, ts, FilesOf(clean))
    && NothingElseNew(before, fs, ts, Heads(clean))
    && (forall q | q in before && q != [TMP] && q !in fs :: OnlyOld(before, q, Heads(clean)))
    && (forall q | q in fs && q != [DATA] :: !OnlyOld(before, q, Heads(clean)))
  }

  ghost predicate NothingElseNew(before: Tree, fs: Tree, ts: Name, heads: set<Name>) {
    forall q | q in fs && !Below([ts], q) && q != [DATA] ::
      (q in before && fs[q] == before[q]) || (HeadLink(fs, q, heads))
  }

  /** What belongs to the version published before and not to the payload. */
  ghost predicate OnlyOld(before: Tree, q: Path, heads: set<Name>) {
    && Current(before).Some?
    && var prev := Current(before).value;
    Below([prev], q) || (|q| == 1 && [prev, q[0]] in before && q[0] !in heads)
  }

  ghost predicate AllDetachable(fs: Tree, names: set<Name>) { forall n | n in names :: Detachable(fs, n) }

  /** Pruning cannot succeed: a name that only the published version needs has no entry any
      more, or has become a directory of somebody else that is not empty. */
  ghost predicate PruneObstructed(before: Tree, clean: Payload) {
    && Current(before).Some?
    && exists n | [Current(before).value, n] in before :: n !in Heads(clean) && !Detachable(before, n)
  }

  /** Why a write that has something to write cannot succeed, although no call fails by
      itself. */
  ghost predicate Obstructed(before: Tree, clean: Payload) {
    DataIsNoLink(before) || [TMP] in before || !Writable(FilesOf(clean)) || PruneObstructed(before, clean)
  }

  /** A payload file that the published version has as a directory, or below a file: the
      comparison may fail on it, depending on the order it takes. */
  ghost predicate Incomparable(before: Tree, clean: Payload) {
    Current(before).Some? && exists k | k in clean :: Compare(before, Current(before).value, k, clean[k]) == Fails
  }

  /** Something other than a link has the name of the data link. */
  predicate DataIsNoLink(fs: Tree) { [DATA] in fs && !fs[[DATA]].Link? }

  lemma DataLinkIsRoot(fs: Tree)
    requires Tidy(fs)
    ensures [DATA] in fs <==> Current(fs).Some?
  {
  }

  lemma RootEntry(fs: Tree, n: Name)
    requires WellFormed(fs)
    ensures NoLinkAbove(fs, [n]) && Probe(fs, [n]) != ENOTDIR
  {
    assert Up([n]) == [];
  }

  lemma NoChangeTrace(base: Tree, log: seq<Tree>, clean: Payload, skipped: bool)
    ensures Trace(base, log, |log|, |log|, clean, skipped)
  {
  }

  /** The names that pruning removes: those of the old version the payload has no use for. */
  lemma GoneNames(base: Tree, prev: Option<Name>, clean: Payload)
    requires Tidy(base) && prev == Current(base)
    ensures var remove := if prev.Some? then Unneeded(base, prev.value, clean) else {};
      forall n :: n in RootNames(remove) <==> prev.Some? && [prev.value, n] in base && n !in Heads(clean)
  {
    if prev.Some? {
      forall n ensures n in RootNames(Unneeded(base, prev.value, clean))
        <==> [prev.value, n] in base && n !in Heads(clean) {
        GoneName(base, prev.value, clean, n);
      }
    } else {
      assert RootNames({}) == {};
    }
  }

  lemma GoneName(base: Tree, prev: Name, clean: Payload, n: Name)
    requires Tidy(base) && Current(base) == Some(prev)
    ensures n in RootNames(Unneeded(base, prev, clean)) <==> [prev, n] in base && n !in Heads(clean)
  {
    NeededHead(clean, n);
    if n in RootNames(Unneeded(base, prev, clean)) {
      var rel :| rel in RelTree(base, [prev]) && !Needed(clean, rel) && Join(rel, SEP) == n;
      RelTreeIsProper(base, prev, rel);
      SplitJoin(rel, SEP);
      assert Split(n, SEP) == [n] == rel;
    }
    if [prev, n] in base && n !in Heads(clean) {
      var q := [prev, n];
      assert Below([prev], q) && q[1..] == [n];
      assert [n] in RelTree(base, [prev]) && Join([n], SEP) == n;
      RelTreeIsProper(base, prev, [n]);
      assert n in [n];
    }
  }

  lemma NeededHead(clean: Payload, n: Name)
    ensures Needed(clean, [n]) <==> n in Heads(clean)
  {
    forall k | k in clean ensures Below([n], Split(k, SEP)) <==> LinkName(k) == n { LinkNameIsHead(k); }
  }

  lemma PayloadIsHeaded(clean: Payload)
    requires CleanPayload(clean)
    ensures HeadedBy(FilesOf(clean), Heads(clean))
  {
    FileHeads(clean);
  }

  /** Payload files are made of proper names, and their first elements are in `heads`. */
  ghost predicate HeadedBy(files: Files, heads: set<Name>) {
    forall f | f in files && f != [] :: f[0] in heads && ProperPath(f)
  }

  lemma ExactHeads(fs: Tree, ts: Name, files: Files, heads: set<Name>, n: Name)
    requires Exact(fs, ts, files) && HeadedBy(files, heads) && [ts, n] in fs
    ensures n in heads
  {
    assert [ts] + [n] == [ts, n] && ExactAt(fs, ts, files, [n]);
    if [n] !in files {
      var f :| f in files && StrictPrefix([n], f);
      assert f[0] == [n][0];
    } else {
      assert [n][0] in heads;
    }
  }

  lemma CommittedGone(base: Tree, fs: Tree, ts: Name, prev: Option<Name>, clean: Payload, gone: set<Name>)
    requires Tidy(base) && prev == Current(base) && HeadedBy(FilesOf(clean), Heads(clean))
    requires Exact(fs, ts, FilesOf(clean)) && Committed(base, fs, ts, Heads(clean))
    requires forall n :: n in gone <==> prev.Some? && [prev.value, n] in base && n !in Heads(clean)
    ensures forall n | n in gone :: !Hidden(n) && [ts, n] !in fs && (Detachable(fs, n) <==> Detachable(base, n))
    ensures prev != Some(ts) && (prev.Some? ==> TimestampName(prev.value))
    ensures Current(fs) == Some(ts) && Hidden(ts)
  {
    hide FilesOf; hide Heads; hide Exact; hide Detachable;
    ReservedNames();
    forall n | n in gone ensures !Hidden(n) && [ts, n] !in fs && (Detachable(fs, n) <==> Detachable(base, n)) {
      if [ts, n] in fs { ExactHeads(fs, ts, FilesOf(clean), Heads(clean), n); }
      CommittedEntry(base, fs, ts, Heads(clean), n);
    }
  }

  lemma CommittedEntry(base: Tree, fs: Tree, ts: Name, heads: set<Name>, n: Name)
    requires Committed(base, fs, ts, heads) && !Hidden(n) && n !in heads
    ensures Detachable(fs, n) <==> Detachable(base, n)
  {
    ReservedNames();
    forall q | Below([n], q) ensures q in fs <==> q in base { assert q[0] == n; }
    assert Below([n], [n]);
  }

  lemma ExactIsProper(fs: Tree, ts: Name, files: Files, heads: set<Name>, p: Path)
    requires Exact(fs, ts, files) && HeadedBy(files, heads) && [ts] + p in fs
    ensures !fs[[ts] + p].Link? && ProperPath(p)
  {
    assert ExactAt(fs, ts, files, p);
    if p == [] {
      assert [ts] + p == [ts];
    } else if p !in files {
      var f :| f in files && StrictPrefix(p, f);
      assert forall e | e in p :: e in f;
    }
  }

  lemma ExactIsTidyData(fs: Tree, ts: Name, files: Files, heads: set<Name>)
    requires Exact(fs, ts, files) && HeadedBy(files, heads) && TimestampName(ts)
    requires forall n | n in heads :: !Hidden(n)
    ensures TidyData(fs, ts)
    ensures AllPresent(fs, heads) ==> forall n | [ts, n] in fs :: [n] in fs
  {
    forall q | q in fs && Below([ts], q) ensures !fs[q].Link? && ProperPath(q[1..]) {
      assert q == [ts] + q[1..];
      ExactIsProper(fs, ts, files, heads, q[1..]);
    }
    forall n | [ts, n] in fs ensures n in heads { ExactHeads(fs, ts, files, heads, n); }
  }

  lemma CommitAddsLinks(base: Tree, fs: Tree, ts: Name, heads: set<Name>)
    requires Committed(base, fs, ts, heads)
    ensures OnlyLinksAdded(base, fs)
  {
    ReservedNames();
    forall n | !Hidden(n) && [n] in fs
      ensures if [n] in base then fs[[n]] == base[[n]] else Owned(fs, n) { NotBelow(ts, n); }
  }

  lemma CommitIsManaged(base: Tree, fs: Tree, ts: Name, clean: Payload, skipped: bool)
    requires Tidy(base) && WellFormed(fs) && HeadedBy(FilesOf(clean), Heads(clean)) && CleanPayload(clean)
    requires Exact(fs, ts, FilesOf(clean)) && Committed(base, fs, ts, Heads(clean))
    requires forall n | n in Heads(clean) :: !Hidden(n)
    requires skipped <==> !AllPresent(fs, Heads(clean))
    ensures Managed(fs) <==> !skipped
    ensures Shows(fs, FilesOf(clean)) <==> !skipped && NoForeign(base, FilesOf(clean))
    ensures skipped ==> !AllPresent(base, Heads(clean))
    ensures OnlyLinksAdded(base, fs) && Tidy(fs)
  {
    ReservedNames();
    CommitAddsLinks(base, fs, ts, Heads(clean));
    ExactIsTidyData(fs, ts, FilesOf(clean), Heads(clean));
    if !skipped {
      ExactShows(fs, FilesOf(clean));
      ForeignBeforeAndAfter(base, fs, ts, FilesOf(clean), Heads(clean));
    } else {
      var n :| n in Heads(clean) && [n] !in fs;
      SkippedIsMissed(fs, clean, n);
    }
  }

  /** A name without a link hides its files, and leaves the directory unmanaged. */
  lemma SkippedIsMissed(fs: Tree, clean: Payload, n: Name)
    requires Tidy(fs) && CleanPayload(clean) && n in Heads(clean) && [n] !in fs
    requires Current(fs).Some? && Exact(fs, Current(fs).value, FilesOf(clean))
    ensures !Managed(fs) && !Shows(fs, FilesOf(clean))
  {
    hide Shows;
    var ts := Current(fs).value;
    var k :| k in clean && LinkName(k) == n;
    var f := Elems(k);
    assert f in FilesOf(clean) && f != [];
    KeyFile(k);
    assert ExactAt(fs, ts, FilesOf(clean), f);
    HeadPrefix(ts, f, fs);
    ExactShowsIff(fs, FilesOf(clean));
  }

  lemma ForeignBeforeAndAfter(base: Tree, fs: Tree, ts: Name, files: Files, heads: set<Name>)
    requires Committed(base, fs, ts, heads) && HeadedBy(files, heads) && AllPresent(fs, heads)
    requires forall n | n in heads :: !Hidden(n)
    ensures NoForeign(fs, files) <==> NoForeign(base, files)
  {
    ReservedNames();
    forall n | n in heads
      ensures [n] in fs && if [n] in base then fs[[n]] == base[[n]] else Owned(fs, n) { NotBelow(ts, n); }
  }

  lemma PrunedLogIsSame(fs: Tree, log: seq<Tree>, more: seq<Tree>, gone: set<Name>, prev: Option<Name>)
    requires |log| > 0 && log[|log| - 1] == fs && log <= more && WellFormed(fs)
    requires AllPruned(fs, more, |log|, gone, prev) && Current(fs).Some?
    requires forall n | n in gone :: !Hidden(n) && [Current(fs).value, n] !in fs
    requires Hidden(Current(fs).value) && prev != Current(fs)
    requires prev.Some? ==> TimestampName(prev.value)
    ensures AllSame(fs, more, |log| - 1, |more|) && more[|log| - 1] == fs
  {
    forall i | |log| - 1 <= i < |more| ensures Same(fs, more[i]) {
      if i == |log| - 1 { assert more[i] == log[i]; } else { PrunedIsSame(fs, more[i], gone, prev); }
    }
  }

  lemma AllSamePrefix(base: Tree, log: seq<Tree>, more: seq<Tree>, from: nat, to: nat)
    requires to <= |log| && log <= more && AllSame(base, log, from, to)
    ensures AllSame(base, more, from, to)
  {
    forall i | from <= i < to ensures Same(base, more[i]) { assert more[i] == log[i]; }
  }

  lemma UncommittedTrace(base: Tree, log: seq<Tree>, from: nat, clean: Payload, skipped: bool)
    requires from <= |log| && AllSame(base, log, from, |log|)
    ensures Trace(base, log, from, |log|, clean, skipped)
  {
  }

  ghost predicate Planned(base: Tree, prev: Option<Name>, remove: set<string>, clean: Payload) {
    && Tidy(base) && prev == Current(base) && CleanPayload(clean)
    && (forall n | n in Heads(clean) :: !Hidden(n))
    && remove == if prev.Some? then Unneeded(base, prev.value, clean) else {}
  }

  lemma CommittedFacts(base: Tree, fs: Tree, ts: Name, prev: Option<Name>, remove: set<string>, clean: Payload)
    requires Planned(base, prev, remove, clean)
    requires Exact(fs, ts, FilesOf(clean)) && Committed(base, fs, ts, Heads(clean))
    ensures forall n :: n in RootNames(remove) <==> prev.Some? && [prev.value, n] in base && n !in Heads(clean)
    ensures forall n | n in RootNames(remove) ::
      !Hidden(n) && [ts, n] !in fs && (Detachable(fs, n) <==> Detachable(base, n))
    ensures prev != Some(ts) && (prev.Some? ==> TimestampName(prev.value))
    ensures Current(fs) == Some(ts) && Hidden(ts)
  {
    hide Unneeded; hide Exact; hide Heads; hide FilesOf; hide CleanPayload;
    PayloadIsHeaded(clean);
    GoneNames(base, prev, clean);
    CommittedGone(base, fs, ts, prev, clean, RootNames(remove));
  }

  lemma PruneBlockedIff(base: Tree, fs: Tree, ts: Name, prev: Option<Name>, remove: set<string>, clean: Payload)
    requires Planned(base, prev, remove, clean)
    requires Exact(fs, ts, FilesOf(clean)) && Committed(base, fs, ts, Heads(clean))
    ensures AllDetachable(fs, RootNames(remove)) <==> !PruneObstructed(base, clean)
  {
    hide Unneeded; hide Exact; hide Heads; hide FilesOf; hide Committed; hide CleanPayload; hide Detachable;
    CommittedFacts(base, fs, ts, prev, remove, clean);
  }

  lemma SameDetachable(before: Tree, fs: Tree, n: Name)
    requires forall q | Below([n], q) :: q in fs <==> q in before
    ensures Detachable(fs, n) <==> Detachable(before, n)
  {
    assert Below([n], [n]);
  }

  lemma ReplaceTrace(base: Tree, fs: Tree, logs: seq<Tree>, log: seq<Tree>, from: nat, ts: Name, prev: Option<Name>,
                     remove: set<string>, clean: Payload, skipped: bool)
    requires Planned(base, prev, remove, clean) && [TMP] !in base
    requires |logs| > from && logs[|logs| - 1] == fs && logs <= log && WellFormed(fs)
    requires AllSame(base, logs, from, |logs| - 1)
    requires Exact(fs, ts, FilesOf(clean)) && Committed(base, fs, ts, Heads(clean))
    requires skipped <==> !AllPresent(fs, Heads(clean))
    requires AllPruned(fs, log, |logs|, RootNames(remove), prev)
    ensures Trace(base, log, from, |logs| - 1, clean, skipped)
  {
    hide Unneeded; hide Exact; hide Heads; hide FilesOf; hide Same; hide Pruned; hide Committed; hide Tidy;
    hide AllLinked; hide Shows; hide NoForeign; hide WellFormed; hide Hidden; hide CleanPayload;
    PayloadIsHeaded(clean);
    CommittedFacts(base, fs, ts, prev, remove, clean);
    CommitIsManaged(base, fs, ts, clean, skipped);
    PrunedLogIsSame(fs, logs, log, RootNames(remove), prev);
    AllSamePrefix(base, logs, log, from, |logs| - 1);
  }

  lemma ReplaceSettles(base: Tree, fs: Tree, next: Tree, ts: Name, prev: Option<Name>, remove: set<string>,
    clean: Payload)
    requires Planned(base, prev, remove, clean)
    requires Exact(fs, ts, FilesOf(clean)) && Committed(base, fs, ts, Heads(clean))
    requires Pruned(fs, next, RootNames(remove), prev)
    requires forall n | n in RootNames(remove) :: [n] !in next
    requires prev.Some? ==> Subtree(next, [prev.value]) == {}
    ensures Settled(base, next, clean)
  {
    hide Unneeded; hide Exact; hide Heads; hide FilesOf; hide Pruned; hide Committed; hide WellFormed;
    hide CleanPayload;
    CommittedFacts(base, fs, ts, prev, remove, clean);
    PrunedSettles(base, fs, next, ts, clean, RootNames(remove));
  }

  lemma SettledIsWritable(before: Tree, fs: Tree, clean: Payload)
    requires WellFormed(fs) && Settled(before, fs, clean)
    ensures Writable(FilesOf(clean))
  {
    ExactIsWritable(fs, Current(fs).value, FilesOf(clean));
  }

  lemma PrunedSettles(base: Tree, fs: Tree, next: Tree, ts: Name, clean: Payload, gone: set<Name>)
    requires Tidy(base)
    requires Committed(base, fs, ts, Heads(clean)) && Exact(fs, ts, FilesOf(clean))
    requires Pruned(fs, next, gone, Current(base))
    requires forall n :: n in gone <==> Current(base).Some? && [Current(base).value, n] in base && n !in Heads(clean)
    requires forall n | n in gone :: [n] !in next && !Hidden(n)
    requires Current(base).Some? ==> Subtree(next, [Current(base).value]) == {}
    ensures Settled(base, next, clean)
  {
    hide FilesOf; hide Heads;
    ReservedNames();
    PrunedKeepsNew(fs, next, ts, gone, Current(base));
    ExactKept(fs, next, ts, FilesOf(clean));
    PrunedAddsNothing(base, fs, next, ts, Heads(clean), gone);
    forall q | q in base && q != [TMP] && q !in next ensures OnlyOld(base, q, Heads(clean)) {
      PrunedLoses(base, fs, next, ts, Heads(clean), gone, q);
    }
    forall q | q in next && q != [DATA] ensures !OnlyOld(base, q, Heads(clean)) {
      if Current(base).Some? { assert q !in Subtree(next, [Current(base).value]); }
      if |q| == 1 { assert q == [q[0]]; }
    }
  }

  lemma PrunedAddsNothing(base: Tree, fs: Tree, next: Tree, ts: Name, heads: set<Name>, gone: set<Name>)
    requires Committed(base, fs, ts, heads) && Pruned(fs, next, gone, Current(base))
    ensures NothingElseNew(base, next, ts, heads) && [TMP] !in next
  {
    forall q | q in next && !Below([ts], q) && q != [DATA]
      ensures (q in base && next[q] == base[q]) || (HeadLink(next, q, heads))
    {
      assert q in fs && q != [TMP];
      if q !in base { assert q == [q[0]]; }
    }
  }

  lemma PrunedLoses(base: Tree, fs: Tree, next: Tree, ts: Name, heads: set<Name>, gone: set<Name>, q: Path)
    requires Committed(base, fs, ts, heads) && Pruned(fs, next, gone, Current(base)) && [DATA] in next
    requires forall n :: n in gone <==> Current(base).Some? && [Current(base).value, n] in base && n !in heads
    requires q in base && q != [TMP] && q !in next
    ensures OnlyOld(base, q, heads)
  {
    assert q in fs;
  }

  lemma PrunedKeepsNew(fs: Tree, next: Tree, ts: Name, gone: set<Name>, prev: Option<Name>)
    requires Pruned(fs, next, gone, prev) && prev != Some(ts) && Hidden(ts)
    requires Current(fs) == Some(ts) && (prev.Some? ==> TimestampName(prev.value))
    requires forall n | n in gone :: !Hidden(n)
    ensures forall q | Below([ts], q) :: (q in next <==> q in fs) && (q in next ==> next[q] == fs[q])
    ensures [DATA] in next && Current(next) == Some(ts)
  {
    ReservedNames();
    if prev.Some? { NotBelow(prev.value, DATA); }
    forall q | Below([ts], q) && q in fs ensures q in next { assert q[0] == ts; }
  }

  ghost predicate AllPresent(fs: Tree, heads: set<Name>) { forall n | n in heads :: [n] in fs }

  /** A temporary link that is already there stays as it is. */
  ghost predicate KeepsTmp(fs: Tree, next: Tree) { [TMP] in fs ==> [TMP] in next && next[[TMP]] == fs[[TMP]] }

  ghost predicate AllSame(base: Tree, log: seq<Tree>, from: nat, to: nat)
    requires to <= |log|
  {
    forall i | from <= i < to :: Same(base, log[i])
  }

  /** The state right after the rename, relative to the state before the write. */
  ghost predicate Committed(base: Tree, fs: Tree, ts: Name, heads: set<Name>) {
    && TimestampName(ts) && Current(fs) == Some(ts) && Unheard(base, ts) && [TMP] !in fs
    && (forall q | q in base && q != [DATA] && q != [TMP] :: q in fs && fs[q] == base[q])
    && (forall q | q in fs && q !in base && !Below([ts], q) && q != [DATA] :: HeadLink(fs, q, heads))
  }

  lemma FreshDirIsStaged(base: Tree, ts: Name, heads: set<Name>)
    requires WellFormed(base) && [ts] !in base && WellFormed(base[[ts] := Dir])
    ensures Staged(base, base[[ts] := Dir], ts, heads)
  {
    assert Below([ts], [ts]);
  }

  lemma FreshDirIsEmpty(base: Tree, ts: Name)
    requires WellFormed(base) && [ts] !in base
    ensures forall p | p != [] :: [ts] + p !in base[[ts] := Dir]
  {
    forall p | p != [] ensures [ts] + p !in base[[ts] := Dir] { NothingBelowMissing(base, [ts], [ts] + p); }
  }

  lemma StagedBelow(base: Tree, fs: Tree, now: Tree, log: seq<Tree>, from: nat, ts: Name, heads: set<Name>)
    requires Staged(base, fs, ts, heads) && OnlyBelow(fs, now, [ts]) && WellFormed(now) && Confined(fs, log, from, [ts])
    ensures Staged(base, now, ts, heads) && AllStaged(base, log, from, ts, heads)
  {
    forall i | from <= i < |log| ensures Staged(base, log[i], ts, heads) {
      StagedBelowOne(base, fs, log[i], ts, heads);
    }
    StagedBelowOne(base, fs, now, ts, heads);
  }

  lemma StagedBelowOne(base: Tree, fs: Tree, next: Tree, ts: Name, heads: set<Name>)
    requires Staged(base, fs, ts, heads) && OnlyBelow(fs, next, [ts]) && WellFormed(next)
    ensures Staged(base, next, ts, heads)
  {
    forall q | q in next && q !in base && !Below([ts], q) && q != [TMP] ensures HeadLink(next, q, heads) {
      assert q == [q[0]];
    }
  }

  ghost predicate StagedBetween(base: Tree, log: seq<Tree>, from: nat, to: nat, ts: Name, heads: set<Name>)
    requires to <= |log|
  {
    forall i | from <= i < to :: Staged(base, log[i], ts, heads)
  }

  lemma StagedJoin(base: Tree, log: seq<Tree>, more: seq<Tree>, from: nat, to: nat, ts: Name, heads: set<Name>)
    requires from <= |log| && log <= more && |log| <= to <= |more|
    requires AllStaged(base, log, from, ts, heads) && StagedBetween(base, more, |log|, to, ts, heads)
    ensures StagedBetween(base, more, from, to, ts, heads)
  {
    forall i | from <= i < to ensures Staged(base, more[i], ts, heads) {
      if i < |log| { assert more[i] == log[i]; }
    }
  }

  /** How many faults make step 8 or 9 fail: none where a temporary link is there already. */
  function OneFault(fs: Tree): nat { if [TMP] in fs then 0 else 1 }

  /** Once the new directory is discarded, only links are left of what was staged. */
  lemma DiscardedIsLinked(base: Tree, fs: Tree, ts: Name, heads: set<Name>)
    requires WellFormed(base) && Staged(base, fs, ts, heads) && [ts] !in base && Subtree(fs, [ts]) == {}
    requires ([TMP] in fs <==> [TMP] in base) && KeepsTmp(base, fs)
    ensures Linked(base, fs, heads)
  {
    forall q | q in base ensures q in fs && fs[q] == base[q] {
      if Below([ts], q) { NothingBelowMissing(base, [ts], q); }
    }
    forall q | q in fs && q !in base ensures HeadLink(fs, q, heads) { assert q !in Subtree(fs, [ts]); }
  }

  lemma TmpUntouched(fs: Tree, next: Tree, ts: Name)
    requires OnlyBelow(fs, next, [ts]) && TimestampName(ts)
    ensures KeepsTmp(fs, next) && ([TMP] in next ==> [TMP] in fs)
  {
    ReservedNames();
    NotBelow(ts, TMP);
  }

  lemma StagedLogIsSame(base: Tree, log: seq<Tree>, from: nat, ts: Name, heads: set<Name>)
    requires Tidy(base) && AllStaged(base, log, from, ts, heads)
    requires TimestampName(ts) && Unheard(base, ts) && forall n | n in heads :: !Hidden(n)
    ensures AllSame(base, log, from, |log|)
  {
    StagedBetweenIsSame(base, log, from, |log|, ts, heads);
  }

  lemma StagedBetweenIsSame(base: Tree, log: seq<Tree>, from: nat, to: nat, ts: Name, heads: set<Name>)
    requires to <= |log| && Tidy(base) && StagedBetween(base, log, from, to, ts, heads)
    requires TimestampName(ts) && Unheard(base, ts) && forall n | n in heads :: !Hidden(n)
    ensures AllSame(base, log, from, to)
  {
    forall i | from <= i < to ensures Same(base, log[i]) { StagedIsSame(base, log[i], ts, heads); }
  }

  lemma ExactKept(fs: Tree, next: Tree, ts: Name, files: Files)
    requires Exact(fs, ts, files)
    requires forall q | Below([ts], q) :: (q in next <==> q in fs) && (q in fs ==> next[q] == fs[q])
    ensures Exact(next, ts, files)
  {
    assert Below([ts], [ts]);
    forall p ensures ExactAt(next, ts, files, p) {
      assert ExactAt(fs, ts, files, p) && Below([ts], [ts] + p);
    }
  }

  lemma LinkedKeepsExact(fs: Tree, next: Tree, heads: set<Name>, ts: Name, files: Files)
    requires Exact(fs, ts, files) && Linked(fs, next, heads) && ts !in heads
    ensures Exact(next, ts, files)
  {
    ExactKept(fs, next, ts, files);
  }

  lemma TmpIsStaged(base: Tree, fs: Tree, ts: Name, heads: set<Name>)
    requires Staged(base, fs, ts, heads) && [TMP] !in fs && WellFormed(fs[[TMP] := Link([ts])])
    ensures Staged(base, fs[[TMP] := Link([ts])], ts, heads)
  {
  }

  lemma StagedWithoutTmp(base: Tree, fs: Tree, ts: Name, heads: set<Name>)
    requires Staged(base, fs, ts, heads)
    ensures WellFormed(fs - {[TMP]}) ==> Staged(base, fs - {[TMP]}, ts, heads)
  {
  }

  /** Nothing staged changes the data link or the temporary link. */
  lemma StagedKeepsData(base: Tree, fs: Tree, ts: Name, heads: set<Name>)
    requires [DATA] in base ==> base[[DATA]].Link?
    requires Staged(base, fs, ts, heads) && TimestampName(ts) && forall n | n in heads :: !Hidden(n)
    ensures [DATA] in fs ==> fs[[DATA]].Link?
  {
    ReservedNames();
    NotBelow(ts, DATA);
  }

  lemma RenameKeepsExact(fs: Tree, ts: Name, files: Files)
    requires Exact(fs, ts, files) && TimestampName(ts)
    ensures Exact(fs[[DATA] := Link([ts])], ts, files)
  {
    ReservedNames();
    forall q | Below([ts], q) ensures q != [DATA] { assert q[0] == ts; }
    ExactKept(fs, fs[[DATA] := Link([ts])], ts, files);
  }

  lemma TmpNotLinked(fs: Tree, next: Tree, heads: set<Name>)
    requires Linked(fs, next, heads) && forall n | n in heads :: !Hidden(n)
    ensures KeepsTmp(fs, next) && ([TMP] in next ==> [TMP] in fs)
  {
    ReservedNames();
  }

  lemma PresentAfterRename(fs: Tree, ts: Name, heads: set<Name>)
    requires forall n | n in heads :: !Hidden(n)
    ensures AllPresent(fs, heads) <==> AllPresent(fs[[DATA] := Link([ts])], heads)
  {
    ReservedNames();
  }

  lemma RenameResult(fs: Tree, ts: Name)
    requires [TMP] !in fs
    ensures var l := Link([ts]); (fs[[TMP] := l] - {[TMP]})[[DATA] := l] == fs[[DATA] := l]
  {
  }

  lemma StagedBeforeRename(base: Tree, log: seq<Tree>, more: seq<Tree>, from: nat, ts: Name, heads: set<Name>)
    requires AllStaged(base, log, from, ts, heads) && from <= |log|
    requires log <= more && |more| == |log| + 2 && Staged(base, more[|log|], ts, heads)
    ensures StagedBetween(base, more, from, |more| - 1, ts, heads)
  {
    forall i | from <= i <= |log| ensures Staged(base, more[i], ts, heads) {
      if i < |log| { assert more[i] == log[i]; }
    }
  }

  lemma RenameCommits(base: Tree, fs: Tree, ts: Name, heads: set<Name>)
    requires WellFormed(base) && Staged(base, fs, ts, heads)
    requires TimestampName(ts) && Unheard(base, ts) && [TMP] !in fs
    ensures Committed(base, fs[[DATA] := Link([ts])], ts, heads)
  {
    var next := fs[[DATA] := Link([ts])];
    ReservedNames();
    forall q | q in base && q != [DATA] && q != [TMP] ensures q in next && next[q] == base[q] {
      if Below([ts], q) { NothingBelowMissing(base, [ts], q); }
    }
    forall q | q in next && q !in base && !Below([ts], q) && q != [DATA] ensures HeadLink(next, q, heads) {
      assert q in fs && q != [TMP];
      assert [q[0]] == q;
    }
  }

  lemma PrunedLogs(base: Tree, log: seq<Tree>, more: seq<Tree>, from: nat, gone: set<Name>, prev: Option<Name>)
    requires from <= |log| && log <= more
    requires AllPruned(base, log, from, gone, prev) && AllPruned(base, more, |log|, gone, prev)
    ensures AllPruned(base, more, from, gone, prev)
  {
    forall i | from <= i < |more| ensures Pruned(base, more[i], gone, prev) {
      if i < |log| { assert more[i] == log[i]; }
    }
  }

  lemma PrunedMore(base: Tree, fs: Tree, log: seq<Tree>, from: nat, gone: set<Name>, prev: Option<Name>)
    requires Pruned(base, fs, gone, None) && AllPruned(base, log, from, gone, None)
    ensures Pruned(base, fs, gone, prev) && AllPruned(base, log, from, gone, prev)
  {
  }

  lemma PrunedBelow(base: Tree, fs: Tree, now: Tree, log: seq<Tree>, from: nat, gone: set<Name>, prev: Name)
    requires Pruned(base, fs, gone, Some(prev))
    requires OnlyBelow(fs, now, [prev]) && WellFormed(now) && Shrunk(fs, now)
    requires Confined(fs, log, from, [prev]) && Shrinking(fs, log, from)
    ensures Pruned(base, now, gone, Some(prev)) && AllPruned(base, log, from, gone, Some(prev))
  {
    forall i | from <= i < |log| ensures Pruned(base, log[i], gone, Some(prev)) {
      PrunedBelowOne(base, fs, log[i], gone, prev);
    }
    PrunedBelowOne(base, fs, now, gone, prev);
  }

  lemma PrunedBelowOne(base: Tree, fs: Tree, next: Tree, gone: set<Name>, prev: Name)
    requires Pruned(base, fs, gone, Some(prev)) && OnlyBelow(fs, next, [prev]) && WellFormed(next) && Shrunk(fs, next)
    ensures Pruned(base, next, gone, Some(prev))
  {
  }

  ghost predicate AllStaged(base: Tree, log: seq<Tree>, from: nat, ts: Name, heads: set<Name>) {
    forall i | from <= i < |log| :: Staged(base, log[i], ts, heads)
  }

  ghost predicate AllPruned(base: Tree, log: seq<Tree>, from: nat, gone: set<Name>, prev: Option<Name>) {
    forall i | from <= i < |log| :: Pruned(base, log[i], gone, prev)
  }

  /** `fs` is `before` with links added for some of the missing `heads`. */
  ghost predicate Linked(before: Tree, fs: Tree, heads: set<Name>) {
    && (forall q | q in before :: q in fs && fs[q] == before[q])
    && (forall q | q in fs && q !in before :: HeadLink(fs, q, heads))
  }

  lemma StagedLogs(base: Tree, log: seq<Tree>, more: seq<Tree>, from: nat, ts: Name, heads: set<Name>)
    requires from <= |log| && log <= more
    requires AllStaged(base, log, from, ts, heads) && AllStaged(base, more, |log|, ts, heads)
    ensures AllStaged(base, more, from, ts, heads)
  {
    forall i | from <= i < |more| ensures Staged(base, more[i], ts, heads) {
      if i < |log| { assert more[i] == log[i]; }
    }
  }

  lemma LinkedStep(before: Tree, mid: Tree, fs: Tree, heads: set<Name>, n: Name)
    requires Linked(before, mid, heads) && n in heads
    requires fs == mid || ([n] !in mid && fs == mid[[n] := Link([DATA, n])])
    ensures Linked(before, fs, heads)
  {
  }

  lemma LinkIsStaged(base: Tree, fs: Tree, ts: Name, heads: set<Name>, n: Name)
    requires Staged(base, fs, ts, heads) && n in heads && [n] !in fs
    requires WellFormed(fs[[n] := Link([DATA, n])])
    ensures Staged(base, fs[[n] := Link([DATA, n])], ts, heads)
  {
  }

  lemma RemovalIsPruned(base: Tree, fs: Tree, gone: set<Name>, n: Name)
    requires Pruned(base, fs, gone, None) && n in gone && WellFormed(fs - {[n]})
    ensures Pruned(base, fs - {[n]}, gone, None)
  {
  }

  /** The paths without a separator. */
  ghost function RootNames(paths: set<string>): set<Name> { set p | p in paths && SEP !in p }

  /** The files in `keys` and all their ancestors. */
  ghost function Closure(keys: set<string>): set<string> {
    set k, s | k in keys && s in Ancestry(Split(k, SEP)) :: s
  }

  lemma ClosureStep(keys: set<string>, k: string)
    ensures Closure(keys + {k}) == Closure(keys) + Ancestry(Split(k, SEP))
  {
  }

  lemma RelTreeIsProper(fs: Tree, ts: Name, rel: Path)
    requires Tidy(fs) && Current(fs) == Some(ts) && rel in RelTree(fs, [ts])
    ensures |rel| > 0 && (forall e :: e in rel ==> SEP !in e) && !Hidden(rel[0])
    ensures [ts] + rel in fs && [ts, rel[0]] in fs
  {
    var q :| q in fs && 1 < |q| && Below([ts], q) && q[1..] == rel;
    assert q == [ts] + rel && ProperPath(q[1..]);
    HeadPrefix(ts, rel, fs);
  }

  lemma ClosureIsNeeded(clean: Payload, rel: Path)
    requires |rel| > 0 && forall e :: e in rel ==> SEP !in e
    ensures Join(rel, SEP) in Closure(clean.Keys) <==> Needed(clean, rel)
  {
    forall k | k in clean ensures Join(rel, SEP) in Ancestry(Split(k, SEP)) <==> Below(rel, Split(k, SEP)) {
      AncestryIsPrefixes(rel, Split(k, SEP));
    }
    if Needed(clean, rel) {
      var k :| k in clean && Below(rel, Split(k, SEP));
      assert Join(rel, SEP) in Ancestry(Split(k, SEP)) && k in clean.Keys;
    }
  }

  /** The set difference of path strings removes exactly what no payload file needs. */
  lemma RemovalIsUnneeded(fs: Tree, ts: Name, clean: Payload)
    requires Tidy(fs) && Current(fs) == Some(ts)
    ensures (set rel | rel in RelTree(fs, [ts]) :: Join(rel, SEP)) - Closure(clean.Keys) == Unneeded(fs, ts, clean)
  {
    forall rel | rel in RelTree(fs, [ts])
      ensures Join(rel, SEP) in Closure(clean.Keys) <==> Needed(clean, rel)
    {
      RelTreeIsProper(fs, ts, rel);
      ClosureIsNeeded(clean, rel);
    }
  }

  ghost predicate Made(fs: Tree, made: Tree, full: Path)
    requires full != []
  {
    && (forall q :: q in fs ==> q in made && made[q] == fs[q])
    && (forall q :: q in made && q !in fs ==> made[q].Dir? && Below(q, Up(full)) && q != [])
  }

  lemma MadeHasNoLinks(fs: Tree, made: Tree, p: Path)
    requires p != [] && NoLinkAbove(fs, p) && (p in fs ==> !fs[p].Link?)
    requires Made(fs, made, p)
    ensures NoLinkAbove(made, p) && (p in made ==> !made[p].Link?)
  {
  }
}
