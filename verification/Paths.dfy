/** Path strings: Go's filepath.Clean and filepath.Split on Unix, the writer's path
    validation, and the list of elements each cleaned path string stands for. */
module Paths {
  import opened Text

  const SEP := '/'
  const MAX_FILE_NAME_LENGTH := 255
  const MAX_PATH_LENGTH := 4096

  type Name = string
  type Path = seq<Name>

  /** Pathnames that start with ".." belong to the writer. */
  predicate Hidden(n: Name) { HasPrefix(n, "..") }

  /** What a directory made from the pattern "..2006_01_02_15_04_05." is called. */
  predicate TimestampName(n: Name) { Hidden(n) && |n| > 2 && '0' <= n[2] <= '9' && SEP !in n }

  predicate Plain(e: string) { e != "" && e != "." }

  /** What one element of a cleaned path may be. */
  predicate Proper(e: string) { Plain(e) && e != ".." && SEP !in e && |e| <= MAX_FILE_NAME_LENGTH }

  /** A cleaned relative path: ".", or proper elements with one separator between them. */
  predicate CleanKey(k: string) { k == "." || forall e :: e in Split(k, SEP) ==> Proper(e) }

  /** The directory entries a cleaned relative path walks through. */
  function Elems(k: string): Path { if k == "." then [] else Split(k, SEP) }

  lemma ElemsInjective(a: string, b: string)
    requires Elems(a) == Elems(b)
    ensures a == b
  {
    JoinSplit(a, SEP);
    JoinSplit(b, SEP);
  }

  predicate StrictPrefix(p: Path, q: Path) { |p| < |q| && q[..|p|] == p }

  // ---- filepath.Clean ----

  function Push(stack: Path, e: string, rooted: bool): Path {
    if !Plain(e) then stack
    else if e != ".." then stack + [e]
    else if |stack| > 0 && stack[|stack| - 1] != ".." then stack[..|stack| - 1]
    else if rooted then stack
    else stack + [e]
  }

  function Reduce(es: Path, n: nat, rooted: bool): Path
    requires n <= |es|
  {
    if n == 0 then [] else Push(Reduce(es, n - 1, rooted), es[n - 1], rooted)
  }

  function Clean(p: string): string {
    var rooted := HasPrefix(p, [SEP]);
    var es := Split(p, SEP);
    var body := Reduce(es, |es|, rooted);
    if rooted then [SEP] + Join(body, SEP) else if body == [] then "." else Join(body, SEP)
  }

  /** The elements of a path that carry meaning: neither empty nor ".". */
  function Kept(es: Path, n: nat): Path
    requires n <= |es|
  {
    if n == 0 then [] else Kept(es, n - 1) + if Plain(es[n - 1]) then [es[n - 1]] else []
  }

  function Meaning(p: string): Path {
    var es := Split(p, SEP);
    Kept(es, |es|)
  }

  lemma {:induction false} KeptElement(es: Path, n: nat, e: string)
    requires n <= |es| && e in Kept(es, n)
    ensures e in es && Plain(e)
  {
    if e in Kept(es, n - 1) { KeptElement(es, n - 1, e); }
  }

  lemma {:induction false} ReduceIsKept(es: Path, n: nat)
    requires n <= |es| && ".." !in es
    ensures Reduce(es, n, false) == Kept(es, n)
  {
    if n > 0 { ReduceIsKept(es, n - 1); }
  }

  // ---- validatePath ----

  predicate ValidPath(p: string) {
    var es := Split(p, SEP);
    && p != ""
    && !HasPrefix(p, [SEP])
    && |p| <= MAX_PATH_LENGTH
    && (forall e :: e in es ==> e != ".." && |e| <= MAX_FILE_NAME_LENGTH)
    && !(Hidden(es[0]) && |es[0]| > 2)
  }

  method ValidatePath(targetPath: string) returns (ok: bool)
    ensures ok == ValidPath(targetPath)
  {
    if targetPath == "" { return false; }
    if HasPrefix(targetPath, [SEP]) { return false; }
    if |targetPath| > MAX_PATH_LENGTH { return false; }
    var items := Split(targetPath, SEP);
    for i := 0 to |items|
      invariant forall j :: 0 <= j < i ==> items[j] != ".." && |items[j]| <= MAX_FILE_NAME_LENGTH
    {
      if items[i] == ".." { return false; }
      if |items[i]| > MAX_FILE_NAME_LENGTH { return false; }
    }
    return !(HasPrefix(items[0], "..") && |items[0]| > 2);
  }

  /** What is rejected, and why. */
  lemma RejectedIff(p: string)
    ensures !ValidPath(p) <==>
      || p == "" || p[0] == '/' || |p| > 4096
      || (exists e | e in Split(p, '/') :: e == ".." || |e| > 255)
      || (var first := Split(p, '/')[0]; |first| > 2 && first[..2] == "..")
  {
    assert p != "" ==> (HasPrefix(p, "/") <==> p[0] == '/');
    var first := Split(p, '/')[0];
    assert |first| > 2 ==> (HasPrefix(first, "..") <==> first[..2] == "..");
  }

  function Size(es: Path, n: nat): nat
    requires n <= |es|
  {
    if n == 0 then 0 else Size(es, n - 1) + |es[n - 1]| + 1
  }

  lemma {:induction false} JoinLength(es: Path, n: nat)
    requires 0 < n <= |es|
    ensures |Join(es[..n], SEP)| + 1 == Size(es, n)
  {
    if n > 1 {
      JoinLength(es, n - 1);
      JoinSnoc(es[..n - 1], es[n - 1], SEP);
      assert es[..n] == es[..n - 1] + [es[n - 1]];
    } else {
      assert es[..1] == [es[0]];
      assert Size(es, 1) == Size(es, 0) + |es[0]| + 1;
    }
  }

  lemma {:induction false} SizePrefix(es: Path, fs: Path, n: nat)
    requires n <= |es| && n <= |fs| && es[..n] == fs[..n]
    ensures Size(es, n) == Size(fs, n)
  {
    if n > 0 {
      assert es[..n][n - 1] == fs[..n][n - 1];
      assert es[..n - 1] == es[..n][..n - 1] == fs[..n][..n - 1] == fs[..n - 1];
      SizePrefix(es, fs, n - 1);
    }
  }

  lemma {:induction false} KeptSize(es: Path, n: nat)
    requires n <= |es|
    ensures var ks := Kept(es, n); Size(ks, |ks|) <= Size(es, n)
  {
    if n > 0 {
      KeptSize(es, n - 1);
      var before, ks := Kept(es, n - 1), Kept(es, n);
      SizePrefix(before, ks, |before|);
    }
  }

  lemma CleanIsJoinedMeaning(p: string)
    requires ValidPath(p)
    ensures Clean(p) == if Meaning(p) == [] then "." else Join(Meaning(p), SEP)
    ensures forall e :: e in Meaning(p) ==> Proper(e)
  {
    var es := Split(p, SEP);
    ReduceIsKept(es, |es|);
    forall e | e in Meaning(p) ensures Proper(e) { KeptElement(es, |es|, e); }
  }

  lemma JoinedIsCleanKey(ks: Path)
    requires ks != [] && forall e :: e in ks ==> Proper(e)
    ensures CleanKey(Join(ks, SEP)) && Elems(Join(ks, SEP)) == ks && !HasPrefix(Join(ks, SEP), [SEP])
  {
    var k := Join(ks, SEP);
    SplitJoin(ks, SEP);
    assert Proper(ks[0]);
    assert k != "." by { DotSplit(); }
    RootedHead(k);
  }

  lemma DotSplit()
    ensures Split(".", SEP) == ["."]
  {
  }

  lemma CleanLength(p: string)
    requires Meaning(p) != []
    ensures |Join(Meaning(p), SEP)| <= |p|
  {
    var es, ks := Split(p, SEP), Meaning(p);
    JoinLength(ks, |ks|);
    KeptSize(es, |es|);
    JoinLength(es, |es|);
    assert es[..|es|] == es && ks[..|ks|] == ks;
    JoinSplit(p, SEP);
  }

  /** Cleaning keeps exactly the meaning of an accepted path, so the cleaned key is a
      well-formed relative path within both length limits. */
  lemma CleanedKeyIsWellFormed(p: string)
    requires ValidPath(p)
    ensures CleanKey(Clean(p)) && !HasPrefix(Clean(p), [SEP]) && |Clean(p)| <= 4096
    ensures Elems(Clean(p)) == Meaning(p) && forall e | e in Elems(Clean(p)) :: |e| <= 255
  {
    CleanIsJoinedMeaning(p);
    if Meaning(p) != [] {
      JoinedIsCleanKey(Meaning(p));
      CleanLength(p);
    }
  }

  /** The first element of a split string: what comes before the first separator. */
  lemma HeadOfSplit(s: string)
    ensures var head := Split(s, SEP)[0]; head <= s && (|head| == |s| || s[|head|] == SEP)
  {
    var i := Index(s, SEP);
    if i != -1 { assert Split(s, SEP)[0] == s[..i]; }
  }

  lemma HeadIsHidden(s: string)
    ensures Hidden(s) <==> Hidden(Split(s, SEP)[0])
  {
    hide Split;
    HeadOfSplit(s);
  }

  lemma RootedHead(s: string)
    ensures HasPrefix(s, [SEP]) <==> SEP in s && Split(s, SEP)[0] == ""
  {
    hide Split;
    HeadOfSplit(s);
    var head := Split(s, SEP)[0];
    assert |head| > 0 ==> head[0] == s[0] && head[0] in head;
    assert HasPrefix(s, [SEP]) <==> |s| > 0 && s[0] == SEP;
  }

  /** Two accepted raw keys merge into one cleaned key exactly when they mean the same. */
  lemma CleanMergesEqualMeanings(a: string, b: string)
    requires ValidPath(a) && ValidPath(b)
    ensures Clean(a) == Clean(b) <==> Meaning(a) == Meaning(b)
  {
    CleanedKeyIsWellFormed(a);
    CleanedKeyIsWellFormed(b);
    CleanIsJoinedMeaning(a);
    CleanIsJoinedMeaning(b);
  }

  /** The first element after the meaningless ones at the front. */
  predicate FirstMeaning(es: Path, i: nat) {
    i < |es| && Plain(es[i]) && forall j :: 0 <= j < i ==> !Plain(es[j])
  }

  lemma {:induction false} KeptHead(es: Path, n: nat, i: nat)
    requires FirstMeaning(es, i) && i < n <= |es|
    ensures |Kept(es, n)| > 0 && Kept(es, n)[0] == es[i]
  {
    if n == i + 1 { KeptNothing(es, i); } else { KeptHead(es, n - 1, i); }
  }

  lemma {:induction false} KeptNothing(es: Path, n: nat)
    requires n <= |es| && forall j :: 0 <= j < n ==> !Plain(es[j])
    ensures Kept(es, n) == []
  {
    if n > 0 { KeptNothing(es, n - 1); }
  }

  lemma {:induction false} FindFirstMeaning(es: Path, n: nat) returns (i: nat)
    requires n <= |es| && exists j :: 0 <= j < n && Plain(es[j])
    ensures FirstMeaning(es, i) && i < n
  {
    if exists j :: 0 <= j < n - 1 && Plain(es[j]) { i := FindFirstMeaning(es, n - 1); } else { i := n - 1; }
  }

  /** Exactly which accepted raw paths clean to a reserved name: those whose first
      element is "." and whose first element after the empty and "." ones starts
      with "..". The check looks at the raw path, before it is cleaned. */
  lemma CleanedKeyIsReservedIff(p: string)
    requires ValidPath(p)
    ensures Hidden(Clean(p)) <==>
      var es := Split(p, SEP);
      es[0] == "." && exists i | 0 < i < |es| :: FirstMeaning(es, i) && Hidden(es[i])
  {
    hide Clean; hide Split; hide Join; hide Kept;
    var es := Split(p, SEP);
    CleanIsJoinedMeaning(p);
    HeadIsHidden(p);
    RelativeHead(p);
    if exists j :: 0 <= j < |es| && Plain(es[j]) {
      var i := FindFirstMeaning(es, |es|);
      KeptHead(es, |es|, i);
      JoinedIsCleanKey(Meaning(p));
      HeadIsHidden(Clean(p));
      HeadOfElems(Clean(p));
      FirstMeaningIsHidden(es, i);
    } else {
      KeptNothing(es, |es|);
      assert !Hidden(".");
    }
  }

  lemma RelativeHead(p: string)
    requires p != "" && !HasPrefix(p, [SEP])
    ensures Split(p, SEP)[0] != ""
  {
    RootedHead(p);
    if SEP !in p { assert Split(p, SEP) == [p]; }
  }

  lemma HeadOfElems(k: string)
    requires Elems(k) != []
    ensures Hidden(k) <==> Hidden(Elems(k)[0])
  {
    HeadIsHidden(k);
  }

  lemma FirstMeaningIsHidden(es: Path, i: nat)
    requires FirstMeaning(es, i) && es[0] != "" && !(Hidden(es[0]) && |es[0]| > 2) && ".." !in es
    ensures Hidden(es[i]) <==> es[0] == "." && exists m | 0 < m < |es| :: FirstMeaning(es, m) && Hidden(es[m])
  {
    assert es[0] in es && es[0] != "..";
    assert i > 0 <==> es[0] == ".";
    if m :| 0 < m < |es| && FirstMeaning(es, m) && Hidden(es[m]) { assert m == i; }
  }

  /** The boundary made concrete: "./..data" is accepted and cleans to the writer's own link. */
  lemma DotSlashReachesTheDataLink()
    ensures ValidPath("./..data") && Clean("./..data") == "..data"
  {
    var es := [".", "..data"];
    SplitJoin(es, SEP);
    assert Join(es, SEP) == "./..data";
    assert Reduce(es, 2, false) == Push(Push([], ".", false), "..data", false);
  }

  // ---- the sub-path loop ----

  /** filepath.Split followed by trimming one separator. */
  function Parent(s: string): (d: string)
    ensures s != "" ==> |d| < |s|
  {
    var i := LastIndex(s, SEP);
    if i == -1 then "" else s[..i]
  }

  /** The joined prefixes of `es` that are longer than `n`. */
  ghost function Above(es: Path, n: nat): set<string> {
    set j | n < j <= |es| :: Join(es[..j], SEP)
  }

  ghost function Ancestry(es: Path): set<string> { Above(es, 0) }

  lemma ParentDropsLast(es: Path)
    requires |es| > 0 && forall e :: e in es ==> SEP !in e
    ensures Parent(Join(es, SEP)) == Join(es[..|es| - 1], SEP)
  {
    hide Split; hide Parent; hide LastIndex;
    var init, last := es[..|es| - 1], es[|es| - 1];
    assert SEP !in last;
    if |init| > 0 {
      assert Join(es, SEP) == Join(init, SEP) + [SEP] + last by {
        JoinSnoc(init, last, SEP);
        assert es == init + [last];
      }
      ParentOfJoined(Join(init, SEP), last);
    } else {
      assert es == [last] && init == [];
      ParentOfOne(last);
    }
  }

  lemma ParentOfOne(s: string)
    requires SEP !in s
    ensures Parent(s) == ""
  {
  }

  lemma ParentOfJoined(d: string, last: string)
    requires SEP !in last
    ensures Parent(d + [SEP] + last) == d
  {
    LastIndexIs(d, last, SEP);
  }

  lemma JoinedPrefixIsEmpty(es: Path, n: nat)
    requires n <= |es| && forall e :: e in es ==> e != ""
    ensures Join(es[..n], SEP) == "" <==> n == 0
  {
    if n > 0 { assert es[..n][0] == es[0] && es[0] in es; }
  }

  lemma AboveStep(es: Path, n: nat)
    requires 0 < n <= |es|
    ensures Above(es, n - 1) == Above(es, n) + {Join(es[..n], SEP)}
  {
  }

  lemma CleanKeyElems(k: string)
    requires CleanKey(k)
    ensures forall e :: e in Split(k, SEP) ==> e != ""
  {
    DotSplit();
  }

  /** The loop of `pathsToRemove`: a payload file and every non-empty ancestor of it. */
  method SubPaths(file: string) returns (paths: set<string>)
    requires CleanKey(file)
    ensures paths == Ancestry(Split(file, SEP))
  {
    ghost var es := Split(file, SEP);
    ghost var n := |es|;
    paths := {};
    var subPath := file;
    JoinSplit(file, SEP);
    CleanKeyElems(file);
    assert es[..n] == es;
    while subPath != ""
      invariant 0 <= n <= |es|
      invariant subPath == Join(es[..n], SEP)
      invariant paths == Above(es, n)
      decreases |subPath|
    {
      JoinedPrefixIsEmpty(es, n);
      AboveStep(es, n);
      paths := paths + {subPath};
      ParentOfPrefix(es, n);
      subPath := Parent(subPath);
      n := n - 1;
    }
    JoinedPrefixIsEmpty(es, n);
  }

  lemma ParentOfPrefix(es: Path, n: nat)
    requires 0 < n <= |es| && forall e :: e in es ==> SEP !in e
    ensures Parent(Join(es[..n], SEP)) == Join(es[..n - 1], SEP)
  {
    ParentDropsLast(es[..n]);
    assert es[..n][..n - 1] == es[..n - 1];
  }

  /** A string joined from proper elements is in the ancestry of a key exactly when its
      elements are a non-empty prefix of the key's. */
  lemma AncestryIsPrefixes(rel: Path, es: Path)
    requires |rel| > 0 && forall e :: e in rel ==> SEP !in e
    requires forall e :: e in es ==> SEP !in e
    ensures Join(rel, SEP) in Ancestry(es) <==> |rel| <= |es| && es[..|rel|] == rel
  {
    SplitJoin(rel, SEP);
    forall j | 1 <= j <= |es| && Join(es[..j], SEP) == Join(rel, SEP) ensures es[..j] == rel {
      assert forall e :: e in es[..j] ==> e in es;
      SplitJoin(es[..j], SEP);
    }
  }

  /** The part of a path before its first separator. */
  function LinkName(k: string): string {
    var slashpos := Index(k, SEP);
    if slashpos == -1 then k else k[..slashpos]
  }

  lemma LinkNameIsHead(k: string)
    ensures LinkName(k) == Split(k, SEP)[0]
  {
  }
}
