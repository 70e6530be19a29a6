/** The payload of a write: cleaning its keys, comparing it with the directory that is
    published now, and what of that directory it no longer needs. */
module Payloads {
  import opened Text
  import opened Paths
  import opened FileSystem
  import opened Wrappers
  import opened Publication

  /** Contents by path; modes are not modelled. */
  type Payload = map<string, Bytes>

  ghost predicate CleanPayload(clean: Payload) { forall k | k in clean :: CleanKey(k) }

  /** `clean` is `payload`, restricted to the raw keys in `done`, with its keys cleaned;
      of raw keys that merge, one is kept. */
  ghost predicate CleaningOf(payload: Payload, done: set<string>, clean: Payload) {
    && (forall k | k in payload && k in done :: Clean(k) in clean)
    && (forall c | c in clean :: exists k | k in payload && k in done ::
         ValidPath(k) && Clean(k) == c && clean[c] == payload[k])
  }

  ghost predicate Cleaning(payload: Payload, clean: Payload) { CleaningOf(payload, payload.Keys, clean) }

  /** The files a cleaned payload stands for. */
  ghost function FilesOf(clean: Payload): (files: Files)
    ensures forall k {:trigger Elems(k)} | k in clean :: Elems(k) in files && files[Elems(k)] == clean[k]
    ensures forall p | p in files :: exists k | k in clean :: Elems(k) == p
  {
    assert forall a, b | a in clean && b in clean && Elems(a) == Elems(b) :: a == b by {
      forall a, b | a in clean && b in clean && Elems(a) == Elems(b) ensures a == b { ElemsInjective(a, b); }
    }
    map k | k in clean :: Elems(k) := clean[k]
  }

  ghost function Heads(clean: Payload): set<Name> { set k | k in clean :: LinkName(k) }

  /** No accepted key cleans to a reserved name. */
  ghost predicate Unreserved(payload: Payload) {
    forall k | k in payload && ValidPath(k) :: !Hidden(Clean(k))
  }

  lemma UnreservedKey(k: string)
    requires ValidPath(k) && !Hidden(Clean(k))
    ensures CleanKey(Clean(k)) && !Hidden(LinkName(Clean(k)))
  {
    CleanedKeyIsWellFormed(k);
    HeadIsHidden(Clean(k));
    LinkNameIsHead(Clean(k));
  }

  lemma UnreservedPayload(payload: Payload, clean: Payload)
    requires Unreserved(payload) && Cleaning(payload, clean)
    ensures CleanPayload(clean) && forall n | n in Heads(clean) :: !Hidden(n)
  {
    forall c | c in clean ensures CleanKey(c) && !Hidden(LinkName(c)) {
      var k :| k in payload && ValidPath(k) && Clean(k) == c;
      UnreservedKey(k);
    }
  }

  lemma KeyFile(k: string)
    requires CleanKey(k) && k != "."
    ensures Elems(k) != [] && Elems(k)[0] == LinkName(k) && ProperPath(Elems(k))
  {
    LinkNameIsHead(k);
  }

  lemma FileHeads(clean: Payload)
    requires CleanPayload(clean)
    ensures forall f | f in FilesOf(clean) && f != [] :: f[0] in Heads(clean) && ProperPath(f)
  {
    forall f | f in FilesOf(clean) && f != [] ensures f[0] in Heads(clean) && ProperPath(f) {
      var k :| k in clean && Elems(k) == f;
      KeyFile(k);
    }
  }

  lemma CleaningStep(payload: Payload, done: set<string>, clean: Payload, k: string)
    requires CleaningOf(payload, done, clean) && k in payload && ValidPath(k)
    ensures CleaningOf(payload, done + {k}, clean[Clean(k) := payload[k]])
  {
    hide Clean; hide ValidPath;
    var next, more := clean[Clean(k) := payload[k]], done + {k};
    forall c | c in next
      ensures exists r | r in payload && r in more :: ValidPath(r) && Clean(r) == c && next[c] == payload[r]
    {
      if c == Clean(k) {
        assert k in more;
      } else {
        var r :| r in payload && r in done && ValidPath(r) && Clean(r) == c && clean[c] == payload[r];
        assert r in more;
      }
    }
  }

  method ValidatePayload(payload: Payload) returns (ok: bool, clean: Payload)
    ensures ok <==> forall k | k in payload :: ValidPath(k)
    ensures ok ==> Cleaning(payload, clean)
  {
    clean := map[];
    var done: set<string> := {};
    while done != payload.Keys
      invariant done <= payload.Keys
      invariant forall k | k in done :: ValidPath(k)
      invariant CleaningOf(payload, done, clean)
      decreases payload.Keys - done
    {
      var todo := payload.Keys - done;
      assert todo == {} ==> done == payload.Keys;
      var k :| k in todo;
      var valid := ValidatePath(k);
      if !valid { return false, map[]; }
      CleaningStep(payload, done, clean, k);
      clean := clean[Clean(k) := payload[k]];
      done := done + {k};
    }
    ok := true;
  }

  // ---- step 4: is an update needed? ----

  datatype Verdict = Equal | Differs | Fails

  /** What shouldWriteFile concludes for one payload file when no call fails by itself. */
  ghost function Compare(fs: Tree, ts: Name, k: string, data: Bytes): Verdict {
    var p := [ts] + Elems(k);
    if Probe(fs, p) == ENOENT then Differs
    else match Read(fs, p)
      case None => Fails
      case Some(d) => if d == data then Equal else Differs
  }

  ghost function Verdicts(fs: Tree, ts: Name, clean: Payload): map<string, Verdict> {
    map k | k in clean :: Compare(fs, ts, k, clean[k])
  }

  /** What shouldWritePayload concludes when the map is iterated in `order`. */
  ghost function Scan(verdicts: map<string, Verdict>, order: seq<string>, i: nat): Verdict
    requires i <= |order| && forall k | k in order :: k in verdicts
    decreases |order| - i
  {
    if i == |order| then Equal
    else if verdicts[order[i]] == Equal then Scan(verdicts, order, i + 1)
    else verdicts[order[i]]
  }

  /** Each key once, in some order. */
  ghost predicate Enumerates(order: seq<string>, keys: set<string>) {
    |order| == |keys| && forall k :: k in order <==> k in keys
  }

  lemma {:induction false} ScanEqualIff(verdicts: map<string, Verdict>, order: seq<string>, i: nat)
    requires i <= |order| && forall k | k in order :: k in verdicts
    ensures Scan(verdicts, order, i) == Equal <==> forall j | i <= j < |order| :: verdicts[order[j]] == Equal
    ensures Scan(verdicts, order, i) == Fails ==> exists j | i <= j < |order| :: verdicts[order[j]] == Fails
    decreases |order| - i
  {
    if i < |order| { ScanEqualIff(verdicts, order, i + 1); }
  }

  lemma {:induction false} EnumerationOf(keys: set<string>) returns (order: seq<string>)
    ensures Enumerates(order, keys)
  {
    if keys == {} {
      order := [];
    } else {
      var k :| k in keys;
      var rest := EnumerationOf(keys - {k});
      order := [k] + rest;
    }
  }

  /** Replacing a file by a directory of the same name, or the reverse, makes the
      comparison itself fail, but only in the iteration orders that reach the changed
      name before any other difference: no order fails exactly when no name changed so. */
  lemma ScanFailsInNoOrderIff(verdicts: map<string, Verdict>)
    ensures (forall order | Enumerates(order, verdicts.Keys) :: Scan(verdicts, order, 0) != Fails)
      <==> forall k | k in verdicts :: verdicts[k] != Fails
  {
    if k :| k in verdicts && verdicts[k] == Fails {
      var rest := EnumerationOf(verdicts.Keys - {k});
      var order := [k] + rest;
      assert Enumerates(order, verdicts.Keys) && Scan(verdicts, order, 0) == Fails;
    } else {
      forall order | Enumerates(order, verdicts.Keys) ensures Scan(verdicts, order, 0) != Fails {
        ScanEqualIff(verdicts, order, 0);
      }
    }
  }

  /** Every payload file that the current directory lacks, or holds as a file: exactly the
      names at which the comparison cannot fail. */
  lemma CompareFailsIff(fs: Tree, ts: Name, k: string, data: Bytes)
    requires Tidy(fs) && Current(fs) == Some(ts)
    ensures var p := [ts] + Elems(k);
      Compare(fs, ts, k, data) == Fails <==> IsDir(fs, p) || Probe(fs, p) == ENOTDIR
    ensures Compare(fs, ts, k, data) == Equal <==> [ts] + Elems(k) in fs && fs[[ts] + Elems(k)] == File(data)
  {
    var p := [ts] + Elems(k);
    ReadBelow(fs, ts, Elems(k));
    assert Below([ts], p);
  }

  lemma ReadBelow(fs: Tree, ts: Name, p: Path)
    requires Tidy(fs) && Current(fs) == Some(ts)
    ensures Read(fs, [ts] + p) == if [ts] + p in fs && fs[[ts] + p].File? then Some(fs[[ts] + p].data) else None
    ensures NoLinkAbove(fs, [ts] + p)
  {
    var u := [ts] + p;
    assert u[0] == ts && u[1..] == p && [] + [ts] == [ts] && Below([ts], [ts]);
    if [ts] in fs {
      assert Resolve(fs, u) == Walk(fs, [ts], p, MAX_LINKS);
      WalkWithoutLinks(fs, [ts], p, MAX_LINKS);
    } else {
      NothingBelowMissing(fs, [ts], u);
    }
    assert forall j | 0 < j < |u| :: Below([ts], u[..j]);
  }

  // ---- step 3: what the old directory holds and the payload does not need ----

  /** `rel` is a payload file or an ancestor of one. */
  ghost predicate Needed(clean: Payload, rel: Path) {
    exists k | k in clean :: Below(rel, Split(k, SEP))
  }

  ghost function Unneeded(fs: Tree, ts: Name, clean: Payload): set<string> {
    set rel | rel in RelTree(fs, [ts]) && !Needed(clean, rel) :: Join(rel, SEP)
  }

  /** The no-update return is taken exactly when the old directory already is the payload. */
  lemma SkipIsExact(fs: Tree, ts: Name, clean: Payload)
    requires Tidy(fs) && Current(fs) == Some(ts) && [ts] in fs && CleanPayload(clean)
    ensures (Unneeded(fs, ts, clean) == {} && forall k | k in clean :: Compare(fs, ts, k, clean[k]) == Equal)
      <==> Exact(fs, ts, FilesOf(clean))
  {
    var files := FilesOf(clean);
    forall k | k in clean
      ensures Compare(fs, ts, k, clean[k]) == Equal <==> [ts] + Elems(k) in fs && fs[[ts] + Elems(k)] == File(clean[k])
    {
      CompareFailsIff(fs, ts, k, clean[k]);
    }
    if Exact(fs, ts, files) {
      forall rel | rel in RelTree(fs, [ts]) ensures Needed(clean, rel) { ExactNeeds(fs, ts, clean, rel); }
      forall k | k in clean ensures Compare(fs, ts, k, clean[k]) == Equal { assert ExactAt(fs, ts, files, Elems(k)); }
    } else if Unneeded(fs, ts, clean) == {} && forall k | k in clean :: Compare(fs, ts, k, clean[k]) == Equal {
      assert [ts] + [] == [ts];
      assert forall k | k in clean :: Elems(k) != [];
      forall p ensures ExactAt(fs, ts, files, p) {
        if p != [] && [ts] + p in fs && p !in files { NothingUnneeded(fs, ts, clean, p); }
      }
      assert false;
    }
  }

  /** If the old directory is lost there is nothing to compare, and the return is taken
      exactly when the payload is empty. */
  lemma SkipWhenLost(fs: Tree, ts: Name, clean: Payload)
    requires Tidy(fs) && Current(fs) == Some(ts) && [ts] !in fs
    ensures Unneeded(fs, ts, clean) == {} && forall k | k in clean :: Compare(fs, ts, k, clean[k]) == Differs
  {
    forall q | Below([ts], q) ensures q !in fs { NothingBelowMissing(fs, [ts], q); }
    assert RelTree(fs, [ts]) == {};
    forall k | k in clean ensures Probe(fs, [ts] + Elems(k)) == ENOENT {
      assert Below([ts], [ts] + Elems(k));
      LostProbe(fs, ts, [ts] + Elems(k));
    }
  }

  lemma {:induction false} LostProbe(fs: Tree, ts: Name, q: Path)
    requires WellFormed(fs) && [ts] !in fs && Below([ts], q)
    ensures q !in fs && Probe(fs, q) == ENOENT
    decreases |q|
  {
    NothingBelowMissing(fs, [ts], q);
    if |q| > 1 {
      assert Below([ts], Up(q));
      LostProbe(fs, ts, Up(q));
    } else {
      assert q == [ts] && Up(q) == [];
    }
  }

  /** What the two tests before an update come to. */
  ghost predicate UpToDate(fs: Tree, ts: Name, clean: Payload) {
    if [ts] in fs then Exact(fs, ts, FilesOf(clean)) else clean == map[]
  }

  lemma SkipIsUpToDate(fs: Tree, ts: Name, clean: Payload)
    requires Tidy(fs) && Current(fs) == Some(ts) && CleanPayload(clean)
    ensures (Unneeded(fs, ts, clean) == {} && forall k | k in clean :: Compare(fs, ts, k, clean[k]) == Equal)
      <==> UpToDate(fs, ts, clean)
  {
    if [ts] in fs { SkipIsExact(fs, ts, clean); } else { SkipWhenLost(fs, ts, clean); }
  }

  lemma ExactNeeds(fs: Tree, ts: Name, clean: Payload, rel: Path)
    requires Exact(fs, ts, FilesOf(clean)) && rel in RelTree(fs, [ts])
    ensures Needed(clean, rel)
  {
    hide Split;
    var files := FilesOf(clean);
    var q :| q in fs && 1 < |q| && Below([ts], q) && q[1..] == rel;
    assert q == [ts] + rel && rel != [];
    assert ExactAt(fs, ts, files, rel);
    var f :| f in files && Below(rel, f);
    var k :| k in clean && Elems(k) == f;
    assert f != [] && Split(k, SEP) == f;
  }

  lemma AllNeeded(fs: Tree, ts: Name, clean: Payload, p: Path)
    requires Unneeded(fs, ts, clean) == {} && p != [] && [ts] + p in fs
    ensures Needed(clean, p)
  {
    var q := [ts] + p;
    assert Below([ts], q) && q[1..] == p;
    assert p in RelTree(fs, [ts]);
    assert Join(p, SEP) !in Unneeded(fs, ts, clean);
  }

  lemma NothingUnneeded(fs: Tree, ts: Name, clean: Payload, p: Path)
    requires Tidy(fs) && Unneeded(fs, ts, clean) == {}
    requires forall k | k in clean :: Elems(k) != [] && [ts] + Elems(k) in fs
    requires p != [] && [ts] + p in fs && p !in FilesOf(clean)
    ensures IsDir(fs, [ts] + p) && exists f | f in FilesOf(clean) :: StrictPrefix(p, f)
  {
    AllNeeded(fs, ts, clean, p);
    var k :| k in clean && Below(p, Split(k, SEP));
    FileAbove(fs, ts, p, Elems(k));
  }

  lemma FileAbove(fs: Tree, ts: Name, p: Path, f: Path)
    requires WellFormed(fs) && [ts] + f in fs && Below(p, f) && p != f
    ensures IsDir(fs, [ts] + p) && StrictPrefix(p, f)
  {
    assert ([ts] + f)[..1 + |p|] == [ts] + p;
    Ancestors(fs, [ts] + f, 1 + |p|);
  }
}
