/** One directory tree, named relative to the directory a writer owns, and the system
    calls that change it one step at a time. Every call may fail, and every state the
    disk passes through is kept, so that a crash can be placed after any step. */
module FileSystem {
  import opened Paths
  import opened Wrappers

  newtype byte = x: int | 0 <= x < 256
  type Bytes = seq<byte>

  datatype Node = File(data: Bytes) | Dir | Link(target: Path)
  type Tree = map<Path, Node>

  /** EIO stands for every failure that the state of the tree does not explain. */
  datatype Errno = OK | ENOENT | EEXIST | ENOTDIR | EISDIR | EINVAL | ENOTEMPTY | ELOOP | EIO

  const MAX_LINKS := 40

  predicate IsDir(fs: Tree, p: Path) { p in fs && fs[p].Dir? }

  function Up(p: Path): Path
    requires p != []
  {
    p[..|p| - 1]
  }

  ghost predicate WellFormed(fs: Tree) {
    && IsDir(fs, [])
    && forall p {:trigger Up(p)} :: p in fs && p != [] ==> IsDir(fs, Up(p))
  }

  /** `q` is `p` or lies below it. */
  predicate Below(p: Path, q: Path) { |p| <= |q| && q[..|p|] == p }

  predicate NoLinkAbove(fs: Tree, p: Path) {
    forall j | 0 <= j < |p| :: p[..j] in fs ==> !fs[p[..j]].Link?
  }

  /** What lstat answers for a path that no link is above. */
  function Probe(fs: Tree, p: Path): (e: Errno)
    ensures e == OK <==> p in fs
    ensures e in {OK, ENOENT, ENOTDIR}
  {
    if p in fs then OK
    else if p == [] then ENOENT
    else if Up(p) in fs then if fs[Up(p)].Dir? then ENOENT else ENOTDIR
    else Probe(fs, Up(p))
  }

  function CreateError(fs: Tree, p: Path): (e: Errno)
    requires p != []
    ensures e != EIO
  {
    if p in fs then EEXIST else if IsDir(fs, Up(p)) then OK else Probe(fs, p)
  }

  datatype Walked = Found(at: Path) | Lost(err: Errno)

  /** Path resolution that follows every symbolic link; a link's target is relative to
      the directory that holds the link. */
  function Walk(fs: Tree, at: Path, rest: Path, links: nat): (w: Walked)
    ensures w.Lost? ==> w.err in {ENOENT, ENOTDIR, ELOOP}
    decreases links, |rest|
  {
    if rest == [] then Found(at)
    else if !IsDir(fs, at) then Lost(ENOTDIR)
    else
      var next := at + [rest[0]];
      if next !in fs then Lost(ENOENT)
      else if fs[next].Link? then
        if links == 0 then Lost(ELOOP) else Walk(fs, at, fs[next].target + rest[1..], links - 1)
      else Walk(fs, next, rest[1..], links)
  }

  function Resolve(fs: Tree, p: Path): Walked { Walk(fs, [], p, MAX_LINKS) }

  /** What a reader that opens `p` gets. */
  function Read(fs: Tree, p: Path): Option<Bytes> {
    match Resolve(fs, p)
    case Lost(_) => None
    case Found(q) => if q in fs && fs[q].File? then Some(fs[q].data) else None
  }

  /** Where no link is below `at`, resolution is plain lookup. */
  lemma {:induction false} WalkWithoutLinks(fs: Tree, at: Path, rest: Path, links: nat)
    requires WellFormed(fs) && at in fs
    requires forall q :: q in fs && Below(at, q) ==> !fs[q].Link?
    ensures Walk(fs, at, rest, links) == if at + rest in fs then Found(at + rest) else Lost(Probe(fs, at + rest))
    decreases |rest|
  {
    if rest == [] {
      assert at + rest == at;
    } else {
      var next := at + [rest[0]];
      assert Below(at, next) && next + rest[1..] == at + rest;
      if next in fs && IsDir(fs, at) {
        assert forall q :: Below(next, q) ==> Below(at, q) by {
          forall q | Below(next, q) ensures Below(at, q) { assert q[..|at|] == q[..|next|][..|at|]; }
        }
        WalkWithoutLinks(fs, next, rest[1..], links);
      } else {
        Missing(fs, at, rest);
      }
    }
  }

  lemma {:induction false} Missing(fs: Tree, at: Path, rest: Path)
    requires WellFormed(fs) && at in fs && rest != []
    requires !(IsDir(fs, at) && at + [rest[0]] in fs)
    ensures at + rest !in fs
    ensures Probe(fs, at + rest) == if IsDir(fs, at) then ENOENT else ENOTDIR
    decreases |rest|
  {
    assert Up(at + rest) == at + rest[..|rest| - 1];
    if |rest| > 1 {
      Missing(fs, at, rest[..|rest| - 1]);
    } else {
      assert at + rest[..0] == at && rest == [rest[0]];
    }
  }

  lemma {:induction false} Ancestors(fs: Tree, p: Path, j: nat)
    requires WellFormed(fs) && p in fs && j <= |p|
    ensures p[..j] in fs
    ensures j < |p| ==> IsDir(fs, p[..j])
    decreases |p|
  {
    if j < |p| {
      assert Up(p)[..j] == p[..j];
      Ancestors(fs, Up(p), j);
      assert j == |Up(p)| ==> p[..j] == Up(p);
    } else {
      assert p[..j] == p;
    }
  }

  /** `a` and `b` differ only at or below `x`. */
  ghost predicate OnlyBelow(a: Tree, b: Tree, x: Path) {
    forall q :: !Below(x, q) ==> (q in a <==> q in b) && (q in a ==> a[q] == b[q])
  }

  /** Every state recorded from position `from` on differs from `base` only below `x`. */
  ghost predicate Confined(base: Tree, log: seq<Tree>, from: nat, x: Path) {
    forall i :: from <= i < |log| ==> WellFormed(log[i]) && OnlyBelow(base, log[i], x)
  }

  /** `b` is `a` with entries taken away. */
  ghost predicate Shrunk(a: Tree, b: Tree) {
    forall q :: q in b ==> q in a && b[q] == a[q]
  }

  ghost predicate Shrinking(base: Tree, log: seq<Tree>, from: nat) {
    forall i :: from <= i < |log| ==> Shrunk(base, log[i])
  }

  lemma ConfinedFrom(base: Tree, mid: Tree, log: seq<Tree>, from: nat, x: Path)
    requires OnlyBelow(base, mid, x) && Confined(mid, log, from, x)
    ensures Confined(base, log, from, x)
  {
  }

  lemma Deepest(s: set<Path>) returns (q: Path)
    requires s != {}
    ensures q in s && forall r :: r in s ==> |r| <= |q|
  {
    q :| q in s;
    if s != {q} {
      var r := Deepest(s - {q});
      if |r| > |q| { q := r; }
    }
  }

  function Subtree(fs: Tree, p: Path): set<Path> { set q | q in fs && Below(p, q) }

  function RelTree(fs: Tree, p: Path): set<Path> {
    set q | q in fs && |p| < |q| && Below(p, q) :: q[|p|..]
  }

  lemma DeepestIsLeaf(fs: Tree, p: Path, q: Path)
    requires q in Subtree(fs, p) && forall r :: r in Subtree(fs, p) ==> |r| <= |q|
    ensures forall r :: r in fs && r != q ==> !Below(q, r)
  {
    forall r | r in fs && Below(q, r) ensures r == q {
      assert r[..|p|] == r[..|q|][..|p|];
      assert r in Subtree(fs, p);
      assert r[..|q|] == r;
    }
  }

  lemma RemoveBelow(base: Tree, fs: Tree, p: Path, q: Path)
    requires OnlyBelow(base, fs, p) && q in Subtree(fs, p)
    ensures OnlyBelow(base, fs - {q}, p)
    ensures Subtree(fs - {q}, p) == Subtree(fs, p) - {q}
  {
  }

  predicate Unheard(fs: Tree, name: Name) {
    [name] !in fs && forall q | q in fs && fs[q].Link? :: name !in fs[q].target
  }

  function FaultsOf(e: Errno): nat { if e == EIO then 1 else 0 }

  class Disk {
    var nodes: Tree
    /** Every state the disk has been in, the present one last. */
    ghost var log: seq<Tree>
    /** Whether a call has failed for a reason outside the tree. */
    ghost var faulted: bool
    /** How many calls have. */
    ghost var faults: nat

    ghost predicate Valid()
      reads this
    {
      WellFormed(nodes) && |log| > 0 && log[|log| - 1] == nodes
    }

    constructor (start: Tree)
      requires WellFormed(start)
      ensures Valid() && nodes == start && log == [start] && !faulted
    {
      nodes, log, faulted, faults := start, [start], false, 0;
    }

    method Lstat(p: Path) returns (e: Errno)
      requires Valid() && NoLinkAbove(nodes, p)
      modifies this`faulted, this`faults
      ensures Valid()
      ensures e == EIO || e == Probe(nodes, p)
      ensures faulted == (old(faulted) || e == EIO) && faults == old(faults) + FaultsOf(e)
    {
      var fault: bool := *;
      e := if fault then EIO else Probe(nodes, p);
      faulted, faults := faulted || e == EIO, faults + FaultsOf(e);
    }

    method Stat(p: Path) returns (e: Errno)
      requires Valid()
      modifies this`faulted, this`faults
      ensures Valid()
      ensures e == EIO || e == match Resolve(nodes, p) case Found(_) => OK case Lost(err) => err
      ensures faulted == (old(faulted) || e == EIO) && faults == old(faults) + FaultsOf(e)
    {
      var fault: bool := *;
      e := if fault then EIO else match Resolve(nodes, p) case Found(_) => OK case Lost(err) => err;
      faulted, faults := faulted || e == EIO, faults + FaultsOf(e);
    }

    method ReadFile(p: Path) returns (e: Errno, data: Bytes)
      requires Valid()
      modifies this`faulted, this`faults
      ensures Valid()
      ensures e == OK ==> Read(nodes, p) == Some(data)
      ensures e != OK && e != EIO ==> Read(nodes, p) == None
      ensures !old(faulted) && faulted ==> e == EIO
      ensures (old(faulted) || e == EIO ==> faulted) && old(faults) <= faults
    {
      data := [];
      if * { faulted, faults := true, faults + 1; return EIO, []; }
      match Resolve(nodes, p) {
        case Lost(err) => e := err; faulted, faults := faulted || e == EIO, faults + FaultsOf(e);
        case Found(q) =>
          if q in nodes && nodes[q].File? {
            e, data := OK, nodes[q].data;
          } else {
            e := EISDIR;
          }
      }
    }

    method Readlink(p: Path) returns (e: Errno, target: Path)
      requires Valid() && NoLinkAbove(nodes, p)
      modifies this`faulted, this`faults
      ensures Valid()
      ensures e == OK <==> e != EIO && p in nodes && nodes[p].Link?
      ensures e == OK ==> target == nodes[p].target
      ensures e == ENOENT || e == ENOTDIR ==> e == Probe(nodes, p)
      ensures e == EINVAL ==> p in nodes && !nodes[p].Link?
      ensures e in {OK, ENOENT, ENOTDIR, EINVAL, EIO}
      ensures faulted == (old(faulted) || e == EIO) && faults == old(faults) + FaultsOf(e)
    {
      target := [];
      if * {
        e := EIO;
      } else if p !in nodes {
        e := Probe(nodes, p);
      } else if nodes[p].Link? {
        e, target := OK, nodes[p].target;
      } else {
        e := EINVAL;
      }
      faulted, faults := faulted || e == EIO, faults + FaultsOf(e);
    }

    method Symlink(target: Path, p: Path) returns (e: Errno)
      requires Valid() && p != [] && NoLinkAbove(nodes, p)
      modifies this
      ensures Valid()
      ensures e == EIO || e == CreateError(old(nodes), p)
      ensures e == OK ==> p !in old(nodes) && nodes == old(nodes)[p := Link(target)] && log == old(log) + [nodes]
      ensures e != OK ==> nodes == old(nodes) && log == old(log)
      ensures faulted == (old(faulted) || e == EIO) && faults == old(faults) + FaultsOf(e)
    {
      e := Create(p, Link(target));
    }

    method Create(p: Path, node: Node) returns (e: Errno)
      requires Valid() && p != []
      modifies this
      ensures Valid()
      ensures e == EIO || e == CreateError(old(nodes), p)
      ensures e == OK ==> p !in old(nodes) && nodes == old(nodes)[p := node] && log == old(log) + [nodes]
      ensures e != OK ==> nodes == old(nodes) && log == old(log)
      ensures faulted == (old(faulted) || e == EIO) && faults == old(faults) + FaultsOf(e)
    {
      var fault: bool := *;
      e := if fault then EIO else CreateError(nodes, p);
      faulted, faults := faulted || e == EIO, faults + FaultsOf(e);
      if e == OK {
        nodes := nodes[p := node];
        log := log + [nodes];
      }
    }

    /** os.MkdirTemp: a directory whose name, which holds the time, is new to the tree, as an
        entry and as the target of a link; or a failure once it gives up. */
    method MkdirTemp() returns (e: Errno, name: Name)
      requires Valid()
      modifies this
      ensures Valid() && (e == OK || e == EIO)
      ensures e == OK ==> TimestampName(name) && Unheard(old(nodes), name) && nodes == old(nodes)[[name] := Dir]
      ensures e == OK ==> log == old(log) + [nodes]
      ensures e != OK ==> nodes == old(nodes) && log == old(log)
      ensures faulted == (old(faulted) || e == EIO) && faults == old(faults) + FaultsOf(e)
    {
      name := *;
      if !TimestampName(name) || !Unheard(nodes, name) {
        e := EIO;
        faulted, faults := true, faults + 1;
      } else {
        e := Create([name], Dir);
      }
    }

    /** filepath.Walk: the relative paths of everything below `root`. */
    method WalkTree(root: Path) returns (e: Errno, found: set<Path>)
      requires Valid() && NoLinkAbove(nodes, root)
      modifies this`faulted, this`faults
      ensures Valid()
      ensures e == EIO || e == Probe(nodes, root)
      ensures e == OK ==> found == RelTree(nodes, root)
      ensures faulted == (old(faulted) || e == EIO) && faults == old(faults) + FaultsOf(e)
    {
      found := RelTree(nodes, root);
      e := Lstat(root);
    }

    /** Changes no contents: modes are not modelled. */
    method Chmod(p: Path) returns (e: Errno)
      requires Valid()
      modifies this`faulted, this`faults
      ensures Valid()
      ensures e == OK || e == EIO
      ensures faulted == (old(faulted) || e == EIO) && faults == old(faults) + FaultsOf(e)
    {
      var fault: bool := *;
      e := if fault then EIO else OK;
      faulted, faults := faulted || e == EIO, faults + FaultsOf(e);
    }

    /** os.Remove: one file, link or empty directory. */
    method Remove(p: Path) returns (e: Errno)
      requires Valid() && p != [] && NoLinkAbove(nodes, p)
      modifies this
      ensures Valid()
      ensures e == OK ==> p in old(nodes) && nodes == old(nodes) - {p} && log == old(log) + [nodes]
      ensures e == OK ==> !exists q :: q in old(nodes) && q != p && Below(p, q)
      ensures e != OK ==> nodes == old(nodes) && log == old(log)
      ensures p in old(nodes) && !old(nodes)[p].Dir? ==> e == OK || e == EIO
      ensures p in old(nodes) && (forall q :: q in old(nodes) && q != p ==> !Below(p, q)) ==> e == OK || e == EIO
      ensures p !in old(nodes) ==> e == Probe(old(nodes), p) || e == EIO
      ensures faulted == (old(faulted) || e == EIO) && faults == old(faults) + FaultsOf(e)
    {
      if * {
        e := EIO;
      } else if p !in nodes {
        e := Probe(nodes, p);
      } else if exists q | q in nodes :: q != p && Below(p, q) {
        e := ENOTEMPTY;
        ghost var q :| q in nodes && q != p && Below(p, q);
        Ancestors(nodes, q, |p|);
      } else {
        e := OK;
        RemoveLeaf(p);
      }
      faulted, faults := faulted || e == EIO, faults + FaultsOf(e);
    }

    method RemoveLeaf(p: Path)
      requires Valid() && p in nodes && p != []
      requires forall q :: q in nodes && q != p ==> !Below(p, q)
      modifies this`nodes, this`log
      ensures Valid() && nodes == old(nodes) - {p} && log == old(log) + [nodes]
    {
      assert forall q :: q in nodes && q != [] && Up(q) == p ==> Below(p, q);
      nodes := nodes - {p};
      log := log + [nodes];
    }

    /** rename(2) of something that is not a directory; it replaces its target in one step. */
    method Rename(from: Path, to: Path) returns (e: Errno)
      requires Valid() && from != [] && to != [] && from != to
      requires from in nodes ==> !nodes[from].Dir?
      requires NoLinkAbove(nodes, from) && NoLinkAbove(nodes, to)
      modifies this
      ensures Valid()
      ensures e == OK ==>
        from in old(nodes) && nodes == (old(nodes) - {from})[to := old(nodes)[from]] && log == old(log) + [nodes]
      ensures e != OK ==> nodes == old(nodes) && log == old(log)
      ensures from in old(nodes) && IsDir(old(nodes), Up(to)) && !IsDir(old(nodes), to) ==> e == OK || e == EIO
      ensures faulted == (old(faulted) || e == EIO) && faults == old(faults) + FaultsOf(e)
    {
      if * {
        e := EIO;
      } else if from !in nodes {
        e := Probe(nodes, from);
      } else if !IsDir(nodes, Up(to)) {
        e := ENOTDIR;
      } else if IsDir(nodes, to) {
        e := EISDIR;
      } else {
        e := OK;
        nodes := (nodes - {from})[to := nodes[from]];
        log := log + [nodes];
      }
      faulted, faults := faulted || e == EIO, faults + FaultsOf(e);
    }

    /** os.MkdirAll, one directory at a time. */
    method MkdirAll(p: Path) returns (e: Errno)
      requires Valid() && p != [] && NoLinkAbove(nodes, p)
      modifies this
      ensures Valid() && old(log) <= log && Confined(old(nodes), log, |old(log)|, p[..1])
      ensures OnlyBelow(old(nodes), nodes, p[..1])
      ensures forall q :: q in nodes && q !in old(nodes) ==> nodes[q].Dir? && Below(q, p) && q != []
      ensures forall q :: q in old(nodes) ==> q in nodes && nodes[q] == old(nodes)[q]
      ensures e == OK ==> IsDir(nodes, p)
      ensures e != OK && e != EIO ==> exists j | 0 < j <= |p| :: p[..j] in old(nodes) && !IsDir(old(nodes), p[..j])
      ensures faulted == (old(faulted) || e == EIO) && faults == old(faults) + FaultsOf(e)
    {
      e := OK;
      for i := 0 to |p|
        invariant Valid() && old(log) <= log && Confined(old(nodes), log, |old(log)|, p[..1])
        invariant OnlyBelow(old(nodes), nodes, p[..1])
        invariant forall q :: q in nodes && q !in old(nodes) ==> nodes[q].Dir? && Below(q, p) && q != []
        invariant forall q :: q in old(nodes) ==> q in nodes && nodes[q] == old(nodes)[q]
        invariant IsDir(nodes, p[..i])
        invariant e == OK && faulted == old(faulted) && faults == old(faults)
      {
        var q := p[..i + 1];
        assert Up(q) == p[..i] && Below(p[..1], q) && Below(q, p);
        if q in nodes {
          if !nodes[q].Dir? { return ENOTDIR; }
        } else {
          e := Create(q, Dir);
          if e != OK { return; }
        }
      }
      assert p[..|p|] == p;
    }

    /** os.WriteFile: the file is created or truncated, then filled; a failure may leave
        any prefix of the data behind. */
    method WriteFile(p: Path, data: Bytes) returns (e: Errno)
      requires Valid() && p != [] && NoLinkAbove(nodes, p) && (p in nodes ==> !nodes[p].Link?)
      modifies this
      ensures Valid() && old(log) <= log && Confined(old(nodes), log, |old(log)|, p[..1])
      ensures OnlyBelow(old(nodes), nodes, p[..1])
      ensures e == OK ==> nodes == old(nodes)[p := File(data)] && !IsDir(old(nodes), p)
      ensures e != OK && e != EIO ==> IsDir(old(nodes), p) || !IsDir(old(nodes), Up(p))
      ensures faulted == (old(faulted) || e == EIO) && faults == old(faults) + FaultsOf(e)
    {
      assert Below(p[..1], p);
      if * {
        e := EIO;
      } else if IsDir(nodes, p) {
        e := EISDIR;
      } else if p !in nodes && !IsDir(nodes, Up(p)) {
        e := Probe(nodes, p);
      } else {
        if p in nodes { Ancestors(nodes, p, |p| - 1); }
        Fill(p, []);
        var n: int := *;
        if 0 <= n < |data| { Fill(p, data[..n]); e := EIO; } else { Fill(p, data); e := OK; }
      }
      faulted, faults := faulted || e == EIO, faults + FaultsOf(e);
    }

    method Fill(p: Path, data: Bytes)
      requires Valid() && p != [] && !IsDir(nodes, p) && IsDir(nodes, Up(p))
      modifies this`nodes, this`log
      ensures Valid() && nodes == old(nodes)[p := File(data)] && log == old(log) + [nodes]
    {
      nodes := nodes[p := File(data)];
      log := log + [nodes];
    }

    /** One unlink of os.RemoveAll: some deepest entry at or below `p`. */
    method RemoveDeepest(p: Path)
      requires Valid() && p != [] && Subtree(nodes, p) != {}
      modifies this`nodes, this`log
      ensures Valid() && log == old(log) + [nodes] && OnlyBelow(old(nodes), nodes, p) && Shrunk(old(nodes), nodes)
      ensures Subtree(nodes, p) < Subtree(old(nodes), p)
    {
      ghost var deepest := Deepest(Subtree(nodes, p));
      var q :| q in Subtree(nodes, p) && forall r | r in Subtree(nodes, p) :: |r| <= |q|;
      DeepestIsLeaf(nodes, p, q);
      RemoveBelow(nodes, nodes, p, q);
      RemoveLeaf(q);
    }

    /** os.RemoveAll: leaf by leaf; a failure may leave any part of the tree behind. */
    method RemoveAll(p: Path) returns (e: Errno)
      requires Valid() && p != []
      modifies this
      ensures Valid() && old(log) <= log && Confined(old(nodes), log, |old(log)|, p)
      ensures OnlyBelow(old(nodes), nodes, p) && Shrunk(old(nodes), nodes) && Shrinking(old(nodes), log, |old(log)|)
      ensures e == OK || e == EIO
      ensures e == OK ==> Subtree(nodes, p) == {}
      ensures faulted == (old(faulted) || e == EIO) && faults == old(faults) + FaultsOf(e)
    {
      while Subtree(nodes, p) != {}
        invariant Valid() && old(log) <= log && Confined(old(nodes), log, |old(log)|, p)
        invariant OnlyBelow(old(nodes), nodes, p) && Shrunk(old(nodes), nodes) && Shrinking(old(nodes), log, |old(log)|)
        invariant faulted == old(faulted) && faults == old(faults)
        decreases Subtree(nodes, p)
      {
        if * { faulted, faults := true, faults + 1; return EIO; }
        RemoveDeepest(p);
      }
      e := OK;
    }
  }
}
