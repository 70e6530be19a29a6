/** Inputs at which the atomic writer and its caller do less than one might expect, each in
    a directory that a first write made. */
module Witnesses {
  import opened Text
  import opened Paths
  import opened FileSystem
  import opened Wrappers
  import opened Publication
  import opened Payloads
  import opened AtomicWriter
  import opened CertDir
  import WebhookConfig
  import Configuration

  const TS: Name := "..2024"
  const EMPTY: Tree := map[[] := Dir]

  /** The directory after a first write of a flat payload. */
  function Written(payload: Payload): Tree { map p | p in Entries(payload) :: Entry(payload, p) }

  predicate Visible(payload: Payload, p: Path) { |p| == 1 && p[0] in payload }

  predicate Stored(payload: Payload, p: Path) { |p| == 2 && p[0] == TS && p[1] in payload }

  function Entries(payload: Payload): set<Path> {
    {[], [DATA], [TS]} + (set n | n in payload :: [n]) + set n | n in payload :: [TS, n]
  }

  function Entry(payload: Payload, p: Path): Node {
    if p == [DATA] then Link([TS])
    else if Visible(payload, p) then Link([DATA, p[0]])
    else if Stored(payload, p) then File(payload[p[1]])
    else Dir
  }

  lemma EntriesAre(payload: Payload, p: Path)
    ensures p in Entries(payload) <==> p == [] || p == [DATA] || p == [TS] || Visible(payload, p) || Stored(payload, p)
  {
    if Visible(payload, p) { assert p == [p[0]]; }
    if Stored(payload, p) { assert p == [TS, p[1]]; }
  }

  lemma WrittenEntry(payload: Payload, p: Path)
    requires Flat(payload)
    ensures var fs := Written(payload);
      && (p in fs <==> p == [] || p == [DATA] || p == [TS] || Visible(payload, p) || Stored(payload, p))
      && (p in fs ==> fs[p] == Entry(payload, p))
      && (Visible(payload, p) ==> Entry(payload, p) == Link([DATA, p[0]])) && !Visible(payload, [TS])
  {
    EntriesAre(payload, p);
    assert Hidden(DATA) && Hidden(TS) && [DATA][0] == DATA && [TS][0] == TS;
    assert forall n | n in payload :: !Hidden(n);
  }

  lemma WrittenIsTidy(payload: Payload)
    requires Flat(payload)
    ensures Tidy(Written(payload)) && Current(Written(payload)) == Some(TS)
  {
    hide Written; hide Flat;
    var fs := Written(payload);
    TwoNames();
    WrittenEntry(payload, []);
    WrittenEntry(payload, [DATA]);
    WrittenEntry(payload, [TS]);
    assert TimestampName(TS) by { assert TS[2] == '2' && forall i | 0 <= i < |TS| :: TS[i] != SEP; }
    forall p | p in fs && p != [] ensures IsDir(fs, Up(p)) {
      WrittenEntry(payload, p);
      if |p| == 2 { assert Up(p) == [TS]; } else { assert Up(p) == []; }
    }
    forall q | q in fs && Below([TS], q) ensures !fs[q].Link? && ProperPath(q[1..]) {
      WrittenEntry(payload, q);
      assert q[0] == [TS][0];
      TwoNames();
      if Stored(payload, q) { StoredIsProper(payload, q); } else { assert q[1..] == []; }
    }
    forall n | [TS, n] in fs ensures !Hidden(n) {
      WrittenEntry(payload, [TS, n]);
      StoredIsProper(payload, [TS, n]);
    }
  }

  lemma TwoNames()
    ensures DATA != TS && Hidden(DATA) && Hidden(TS) && [DATA] != [TS]
  {
    assert DATA[2] == 'd' && TS[2] == '2';
    assert [DATA][0] == DATA && [TS][0] == TS;
  }

  lemma StoredIsProper(payload: Payload, q: Path)
    requires Flat(payload) && Stored(payload, q)
    ensures ProperPath(q[1..]) && !Hidden(q[1])
  {
    assert q[1..] == [q[1]];
  }

  /** There are directories that serve: the one after a first write. */
  lemma WrittenServes(payload: Payload)
    requires Flat(payload)
    ensures Serving(Written(payload), payload)
  {
    hide Written; hide FilesOf; hide Tidy; hide Flat;
    var fs, files := Written(payload), FilesOf(payload);
    TwoNames();
    WrittenIsTidy(payload);
    FlatFiles(payload);
    WrittenEntry(payload, [TS]);
    forall p ensures ExactAt(fs, TS, files, p) {
      WrittenEntry(payload, [TS] + p);
      if p in files { assert p == [p[0]] && Stored(payload, [TS] + p); }
    }
    forall n | n in payload ensures Owned(fs, n) {
      WrittenEntry(payload, [n]);
      assert Visible(payload, [n]);
    }
  }

  /** A plain file in the place of a served name: clearing removes it, the write is skipped
      as unnecessary, and the name stays missing until other files are published. */
  lemma PlainFileHidesName(fs: Tree, payload: Payload, n: Name)
    requires Serving(fs, payload) && Flat(payload) && n in payload
    ensures var broken := fs[[n] := File([])];
      Tidy(broken) && Published(broken, payload) && !Reachable(broken, payload, n)
  {
    hide FilesOf;
    var broken := fs[[n] := File([])];
    ReservedNames();
    assert OrdinaryName(n);
    assert WellFormed(broken) by {
      assert fs[[n]].Link?;
      forall p | p in broken && p != [] ensures IsDir(broken, Up(p)) { assert p == [n] ==> Up(p) == []; }
    }
    var ts := Current(fs).value;
    forall q | Below([ts], q) ensures (q in broken <==> q in fs) && (q in fs ==> broken[q] == fs[q]) {
      assert q[0] == ts;
    }
    assert TidyData(broken, ts) by { assert Below([ts], [ts]); }
    ExactKept(fs, broken, ts, FilesOf(payload));
  }

  lemma UnlinkedIsTidy(payload: Payload, n: Name)
    requires Flat(payload) && n in payload
    ensures var fs := Written(payload) - {[n]}; Tidy(fs) && Current(fs) == Some(TS) && Exact(fs, TS, FilesOf(payload))
  {
    hide Written; hide FilesOf;
    WrittenServes(payload);
    WrittenIsTidy(payload);
    ReservedNames();
    var whole := Written(payload);
    var fs := whole - {[n]};
    assert OrdinaryName(n);
    assert WellFormed(fs) by {
      forall p | p in fs && p != [] ensures IsDir(fs, Up(p)) {
        assert IsDir(whole, Up(p)) && whole[[n]].Link?;
      }
    }
    RemovalKeepsTidy(whole, fs, n);
    forall q | Below([TS], q) ensures (q in fs <==> q in whole) && (q in whole ==> fs[q] == whole[q]) {
      assert q[0] == [TS][0] == TS && Hidden(TS);
    }
    ExactKept(whole, fs, TS, FilesOf(payload));
  }

  /** A name passed over in the first write of all: the rename is done, a file of the payload
      is not seen, and writing the same payload again is skipped as unnecessary. */
  lemma PassedOverStaysMissing(payload: Payload, n: Name)
    requires Flat(payload) && n in payload
    ensures var fs := Written(payload) - {[n]};
      Trace(EMPTY, [EMPTY, fs], 1, 1, payload, true) && !Shows(fs, FilesOf(payload)) && UpToDate(fs, TS, payload)
  {
    hide Written; hide FilesOf; hide Shows; hide Flat; hide Tidy; hide Exact; hide AllLinked; hide Heads;
    hide WellFormed;
    var fs := Written(payload) - {[n]};
    UnlinkedIsTidy(payload, n);
    UnlinkedHides(payload, n);
    FlatHeads(payload);
    assert [n] !in EMPTY && n in Heads(payload);
    assert Same(fs, fs) && [TMP] !in EMPTY by { TidyIsSame(fs); }
    OnlyWrittenLinks(payload, n);
    assert IsDir(fs, [TS]) by { ExactIsDir(fs, payload); }
  }

  lemma TidyIsSame(fs: Tree)
    requires Tidy(fs)
    ensures Same(fs, fs)
  {
  }

  lemma ExactIsDir(fs: Tree, payload: Payload)
    requires Exact(fs, TS, FilesOf(payload))
    ensures IsDir(fs, [TS])
  {
  }

  lemma OnlyWrittenLinks(payload: Payload, n: Name)
    requires Flat(payload)
    ensures OnlyLinksAdded(EMPTY, Written(payload) - {[n]})
  {
    hide Written; hide Flat;
    var fs := Written(payload) - {[n]};
    TwoNames();
    forall m | !Hidden(m) && [m] in fs ensures [m] !in EMPTY && Owned(fs, m) {
      WrittenEntry(payload, [m]);
      assert [m][0] == m;
    }
  }

  lemma UnlinkedHides(payload: Payload, n: Name)
    requires Flat(payload) && n in payload
    ensures var fs := Written(payload) - {[n]}; !Shows(fs, FilesOf(payload)) && !AllLinked(fs)
  {
    hide Written; hide FilesOf; hide Shows; hide Flat; hide Tidy;
    var fs := Written(payload) - {[n]};
    UnlinkedIsTidy(payload, n);
    FlatFiles(payload);
    ExactShowsIff(fs, FilesOf(payload));
    assert [n] in FilesOf(payload) && [n][0] == n;
    assert ExactAt(fs, TS, FilesOf(payload), [n]) && [TS] + [n] == [TS, n];
  }

  lemma NestedElems()
    ensures ValidPath("a") && Clean("a") == "a" && Elems("a") == ["a"]
    ensures ValidPath("a/b") && Clean("a/b") == "a/b" && Elems("a/b") == ["a", "b"] && !Hidden("a/b")
  {
    var es := ["a", "b"];
    SplitJoin(es, SEP);
    assert Join(es, SEP) == "a/b";
    assert Reduce(es, 2, false) == Push(Push([], "a", false), "b", false);
    OrdinaryKey("a");
  }

  /** A payload in which one file is the directory of another is accepted, and no directory
      lets it be written. */
  lemma NestedKeysObstruct(before: Tree)
    ensures var payload: Payload := map["a" := [], "a/b" := []];
      (forall k | k in payload :: ValidPath(k)) && Cleaning(payload, payload) && Obstructed(before, payload)
  {
    hide ValidPath; hide Clean; hide Elems; hide FilesOf;
    NestedElems();
    var payload: Payload := map["a" := [], "a/b" := []];
    NestedIsUnwritable(payload, "a", "a/b");
  }

  /** Publishing `k`, which is `m` below `n`, where `n` is a published file: the comparison
      itself fails, although nothing obstructs the write. */
  lemma FileBecomesDirectory(n: Name, m: Name, k: string)
    requires OrdinaryName(n) && ValidPath(k) && Clean(k) == k && Elems(k) == [n, m]
    ensures var fs, wanted := Written(map[n := []]), map[k := []];
      && Serving(fs, map[n := []]) && Cleaning(wanted, wanted)
      && Incomparable(fs, wanted) && !Obstructed(fs, wanted)
  {
    hide Written; hide ValidPath; hide Clean; hide FilesOf; hide Elems; hide Compare; hide Serving; hide Tidy;
    hide Obstructed; hide OrdinaryName;
    var given: Payload, wanted: Payload := map[n := []], map[k := []];
    WrittenServes(given);
    WrittenIsTidy(given);
    ComparesBelowFile(given, n, m, k);
    CleanedKeyIsWellFormed(k);
    NotObstructed(given, wanted, n, m, k);
  }

  /** There are such names and paths. */
  lemma NestedPathExists()
    ensures OrdinaryName("a") && ValidPath("a/b") && Clean("a/b") == "a/b" && Elems("a/b") == ["a", "b"]
  {
    hide ValidPath; hide Clean; hide Elems;
    NestedElems();
    assert "a"[0] != '.' && "a"[0] != SEP;
  }

  lemma ComparesBelowFile(payload: Payload, n: Name, m: Name, k: string)
    requires Flat(payload) && n in payload && Elems(k) == [n, m]
    ensures Compare(Written(payload), TS, k, []) == Fails
  {
    hide Written; hide Elems;
    var fs := Written(payload);
    WrittenIsTidy(payload);
    WrittenEntry(payload, [TS, n]);
    WrittenEntry(payload, [TS, n, m]);
    CompareFailsIff(fs, TS, k, []);
    assert [TS] + Elems(k) == [TS, n, m] && Up([TS, n, m]) == [TS, n];
  }

  lemma NotObstructed(given: Payload, wanted: Payload, n: Name, m: Name, k: string)
    requires Flat(given) && given == map[n := []] && wanted == map[k := []] && Elems(k) == [n, m] && CleanKey(k)
    ensures !Obstructed(Written(given), wanted)
  {
    hide Written; hide Elems; hide CleanKey;
    DotElems();
    TwoNames();
    ReservedNames();
    WrittenIsTidy(given);
    WrittenEntry(given, [DATA]);
    WrittenEntry(given, [TMP]);
    assert [TMP] != [DATA] && [TMP][0] == TMP && TMP[2] == 'd' && [TMP] != [TS];
    KeyFile(k);
    assert n in Heads(wanted);
    forall h | [TS, h] in Written(given) ensures h in Heads(wanted) {
      WrittenEntry(given, [TS, h]);
      assert [TS, h][1] == h;
    }
    OneFileIsWritable(wanted, k);
  }

  lemma DotElems()
    ensures Elems(".") == []
  {
  }

  lemma OneFileIsWritable(payload: Payload, k: string)
    requires payload == map[k := []] && Elems(k) != []
    ensures Writable(FilesOf(payload))
  {
    assert forall f | f in FilesOf(payload) :: f == Elems(k);
  }

  /** A configuration whose first webhook names a service without a path, whatever follows it
      and whatever the other configuration holds: the program is stopped. */
  lemma NilPathStops(u: WebhookConfig.Urls, name: string, service: WebhookConfig.Service,
    rest: seq<WebhookConfig.Webhook>, validating: WebhookConfig.Config)
    requires service.path.None? && !validating.template.Garbled?
    ensures var first := WebhookConfig.Webhook(name, WebhookConfig.ClientConfig(None, Some(service), []), "");
      var mutating := WebhookConfig.Config(0, WebhookConfig.NoTemplate, [first] + rest);
      Configuration.CrashesOn(u, WebhookConfig.State(
        map[WebhookConfig.Mutating := mutating, WebhookConfig.Validating := validating], []))
  {
    var first := WebhookConfig.Webhook(name, WebhookConfig.ClientConfig(None, Some(service), []), "");
    assert WebhookConfig.GetPath(u, first.client).NilPath?;
    assert first in [first] + rest && Configuration.FirstWithoutPath(u, [first] + rest, 0);
  }
}
