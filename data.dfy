/**
 * hearth/dir/data.py: the directory snapshot `Dir`, its loader and the
 * breadth-first walk over a loaded tree. The same `Dir` and loader appear
 * verbatim in hearth/dirdiff.py.
 *
 * The filesystem is an abstract tree of entries (no symbolic-link cycles).
 * Each entry is classified the way `os.path.isdir` and `os.path.isfile`
 * classify what a path resolves to.
 */
module Data {
  import opened Wrappers
  import opened OsPath
  import StringOrder

  /** One node of a snapshot; `subdirs` maps a child's basename to its own snapshot. */
  datatype Dir = Dir(dirname: string, fullpath: string, files: set<string>, subdirs: map<string, Dir>)

  // ----- comparisons: `__eq__` and `__lt__` (with `@total_ordering` for the rest) -----

  /** `Dir.__eq__`: only the names are compared. */
  predicate DirEq(a: Dir, b: Dir) {
    a.dirname == b.dirname
  }

  /** `Dir.__lt__`: the names are compared as strings. */
  predicate DirLt(a: Dir, b: Dir) {
    StringOrder.Less(a.dirname, b.dirname)
  }

  /** `__le__` as `functools.total_ordering` derives it from `__lt__` and `__eq__`. */
  predicate DirLe(a: Dir, b: Dir) {
    DirLt(a, b) || DirEq(a, b)
  }

  /** Snapshots with the same name are equal whatever their paths, files and children. */
  lemma DirEqIgnoresContents(a: Dir, path: string, files: set<string>, subdirs: map<string, Dir>)
    ensures DirEq(a, Dir(a.dirname, path, files, subdirs))
    ensures !DirLt(a, Dir(a.dirname, path, files, subdirs))
  {
    StringOrder.LessIrreflexive(a.dirname);
  }

  /** `<` on snapshots is a strict order, and exactly one of `<`, `==`, `>` holds for any two. */
  lemma DirOrderIsStrictTotal(a: Dir, b: Dir, c: Dir)
    ensures !DirLt(a, a)
    ensures DirLt(a, b) && DirLt(b, c) ==> DirLt(a, c)
    ensures DirEq(a, b) || DirLt(a, b) || DirLt(b, a)
    ensures !(DirEq(a, b) && DirLt(a, b)) && !(DirLt(a, b) && DirLt(b, a))
  {
    StringOrder.LessIrreflexive(a.dirname);
    if DirLt(a, b) && DirLt(b, c) {
      StringOrder.LessTransitive(a.dirname, b.dirname, c.dirname);
    }
    StringOrder.LessTrichotomy(a.dirname, b.dirname);
  }

  // ----- names -----

  /** Every file name and child key in the tree is a plain entry name. */
  predicate WellNamed(d: Dir) {
    && (forall f :: f in d.files ==> IsName(f))
    && (forall k :: k in d.subdirs ==> IsName(k) && WellNamed(d.subdirs[k]))
  }

  /** Every child key in the tree is a plain entry name: what a lookup by basename needs. */
  predicate KeysNamed(d: Dir) {
    forall k :: k in d.subdirs ==> IsName(k) && KeysNamed(d.subdirs[k])
  }

  /** A well-named tree has plainly named keys. */
  lemma {:induction false} WellNamedKeysNamed(d: Dir)
    requires WellNamed(d)
    ensures KeysNamed(d)
  {
    forall k | k in d.subdirs ensures KeysNamed(d.subdirs[k]) {
      WellNamedKeysNamed(d.subdirs[k]);
    }
  }

  // ----- loading: `loaded_dir` over an abstract filesystem -----

  datatype FsEntry =
    | RegularFile
    | Directory(readable: bool, entries: map<string, FsEntry>)
    | Special   // neither `isdir` nor `isfile`: a socket, a device, a dangling link

  datatype LoadError = NotADirectory(path: string) | PermissionDenied

  /** `listdir` succeeds on this directory and on every directory below it. */
  predicate Listable(e: FsEntry) {
    e.Directory? && e.readable &&
    forall n :: n in e.entries && e.entries[n].Directory? ==> Listable(e.entries[n])
  }

  /** The snapshot built from a listable directory at `path`. */
  function Load(path: string, e: FsEntry): (d: Dir)
    requires Listable(e)
    decreases e
    ensures d.dirname == Basename(path) && d.fullpath == path
    ensures forall n :: n in d.files <==> n in e.entries && e.entries[n].RegularFile?
    ensures forall n :: n in d.subdirs <==> n in e.entries && e.entries[n].Directory?
    ensures forall n :: n in d.subdirs ==> d.subdirs[n] == Load(Join(path, n), e.entries[n])
  {
    Dir(Basename(path), path,
        set n | n in e.entries && e.entries[n].RegularFile?,
        map n | n in e.entries && e.entries[n].Directory? :: Load(Join(path, n), e.entries[n]))
  }

  /**
   * `loaded_dir(path)`: `listdir` raises on a non-directory and on an unreadable
   * directory, anywhere in the recursion; otherwise the snapshot is built.
   */
  function LoadedDir(path: string, e: FsEntry): (r: Result<Dir, LoadError>)
    ensures !e.Directory? ==> r == Failure(NotADirectory(path))
    ensures e.Directory? && !Listable(e) ==> r == Failure(PermissionDenied)
    ensures r.Success? <==> Listable(e)
    ensures r.Success? ==> r.value == Load(path, e)
  {
    if !e.Directory? then Failure(NotADirectory(path))
    else if !Listable(e) then Failure(PermissionDenied)
    else Success(Load(path, e))
  }

  /** Every entry name in the filesystem tree is a plain name. */
  predicate FsWellNamed(e: FsEntry) {
    e.Directory? ==>
      forall n :: n in e.entries ==> IsName(n) && FsWellNamed(e.entries[n])
  }

  /**
   * A loaded child is named by its key: its `dirname` is the key, and its
   * `fullpath` is the parent's joined with the key.
   */
  lemma {:induction false} LoadedTreeWellNamed(path: string, e: FsEntry)
    requires Listable(e) && FsWellNamed(e)
    ensures WellNamed(Load(path, e))
    ensures forall n :: n in Load(path, e).subdirs ==>
      Load(path, e).subdirs[n].dirname == n && Load(path, e).subdirs[n].fullpath == Join(path, n)
    decreases e
  {
    var d := Load(path, e);
    forall n | n in d.subdirs
      ensures IsName(n) && WellNamed(d.subdirs[n])
      ensures d.subdirs[n].dirname == n && d.subdirs[n].fullpath == Join(path, n)
    {
      LoadedTreeWellNamed(Join(path, n), e.entries[n]);
      BasenameOfJoin(path, n);
    }
  }

  // ----- positions in a tree -----

  /** `p` spells a chain of child keys starting at `d`. */
  predicate IsPath(d: Dir, p: seq<string>)
    decreases p
  {
    p == [] || (p[0] in d.subdirs && IsPath(d.subdirs[p[0]], p[1..]))
  }

  function At(d: Dir, p: seq<string>): Dir
    requires IsPath(d, p)
    decreases p
  {
    if p == [] then d else At(d.subdirs[p[0]], p[1..])
  }

  /** The parent of a non-root path. */
  function Parent(p: seq<string>): seq<string>
    requires p != []
  {
    p[..|p| - 1]
  }

  /** All paths of a tree, as a finite set: the root and nothing that is not a path. */
  function Paths(d: Dir): (ps: set<seq<string>>)
    ensures [] in ps
    ensures forall q :: q in ps ==> IsPath(d, q)
  {
    {[]} + set k, q | k in d.subdirs && q in Paths(d.subdirs[k]) :: [k] + q
  }

  lemma {:induction false} PathsComplete(d: Dir, p: seq<string>)
    requires IsPath(d, p)
    ensures p in Paths(d)
    decreases p
  {
    if p != [] {
      PathsComplete(d.subdirs[p[0]], p[1..]);
      assert p == [p[0]] + p[1..];
    }
  }

  /** Extending a path by one key is a path exactly when the key names a child of the node reached. */
  lemma {:induction false} PathExtend(d: Dir, p: seq<string>, k: string)
    requires IsPath(d, p)
    ensures IsPath(d, p + [k]) <==> k in At(d, p).subdirs
    ensures IsPath(d, p + [k]) ==> At(d, p + [k]) == At(d, p).subdirs[k]
    decreases p
  {
    if p != [] {
      assert (p + [k])[1..] == p[1..] + [k];
      PathExtend(d.subdirs[p[0]], p[1..], k);
    }
  }

  lemma {:induction false} ParentIsPath(d: Dir, p: seq<string>)
    requires IsPath(d, p) && p != []
    ensures IsPath(d, Parent(p)) && p[|p| - 1] in At(d, Parent(p)).subdirs
  {
    var q := Parent(p);
    assert p == q + [p[|p| - 1]];
    PrefixIsPath(d, p, |q|);
    PathExtend(d, q, p[|p| - 1]);
  }

  lemma {:induction false} PrefixIsPath(d: Dir, p: seq<string>, n: nat)
    requires IsPath(d, p) && n <= |p|
    ensures IsPath(d, p[..n])
    decreases n
  {
    if n > 0 {
      PrefixIsPath(d.subdirs[p[0]], p[1..], n - 1);
      assert p[..n][1..] == p[1..][..n - 1];
    }
  }

  /** A set of paths holding the root and closed under taking children holds every path. */
  lemma {:induction false} ClosedSetHasAllPaths(d: Dir, s: set<seq<string>>, p: seq<string>)
    requires [] in s
    requires forall q, k :: q in s && IsPath(d, q) && k in At(d, q).subdirs ==> q + [k] in s
    requires IsPath(d, p)
    ensures p in s
    decreases |p|
  {
    if p != [] {
      ParentIsPath(d, p);
      ClosedSetHasAllPaths(d, s, Parent(p));
      assert Parent(p) + [p[|p| - 1]] == p;
    }
  }

  // ----- `dir_walk`: breadth-first, driven by a queue -----

  /** The keys of a map in the (unspecified) order a dict iteration produces them. */
  method KeysInSomeOrder(m: map<string, Dir>) returns (ks: seq<string>)
    ensures forall k :: k in ks <==> k in m
    ensures forall i, j :: 0 <= i < j < |ks| ==> ks[i] != ks[j]
  {
    ks := [];
    var rest := m.Keys;
    while rest != {}
      invariant rest <= m.Keys
      invariant forall k :: k in ks <==> k in m && k !in rest
      invariant forall i, j :: 0 <= i < j < |ks| ==> ks[i] != ks[j]
      decreases rest
    {
      var k :| k in rest;
      ks := ks + [k];
      rest := rest - {k};
    }
  }

  /** Each snapshot in `ds` is the node of `root` at the matching path in `ps`. */
  ghost predicate Tracks(root: Dir, ds: seq<Dir>, ps: seq<seq<string>>) {
    |ds| == |ps| && forall i :: 0 <= i < |ps| ==> IsPath(root, ps[i]) && ds[i] == At(root, ps[i])
  }

  ghost predicate Distinct(ps: seq<seq<string>>) {
    forall i, j :: 0 <= i < j < |ps| ==> ps[i] != ps[j]
  }

  /** Shorter paths (shallower nodes) come first. */
  ghost predicate ByDepth(ps: seq<seq<string>>) {
    forall i, j :: 0 <= i < j < |ps| ==> |ps[i]| <= |ps[j]|
  }

  /** Every non-root path comes after its parent. */
  ghost predicate ParentsFirst(ps: seq<seq<string>>) {
    forall j :: 0 <= j < |ps| && ps[j] != [] ==> Parent(ps[j]) in ps[..j]
  }

  /** The queue spans at most two consecutive depths. */
  ghost predicate Shallow(pending: seq<seq<string>>) {
    forall i :: 0 <= i < |pending| ==> |pending[i]| <= |pending[0]| + 1
  }

  /** Every non-root path seen so far has had its parent visited. */
  ghost predicate ParentsVisited(order: seq<seq<string>>, all: seq<seq<string>>) {
    forall q :: q in all && q != [] ==> Parent(q) in order
  }

  /** Every child of a visited node has been visited or is queued. */
  ghost predicate ChildrenSeen(root: Dir, order: seq<seq<string>>, all: seq<seq<string>>) {
    forall q, k :: q in order && IsPath(root, q) && k in At(root, q).subdirs ==> q + [k] in all
  }

  /** The loop invariant of `dir_walk`: `order` has been handed to `func`, `pending` is the queue. */
  ghost predicate WalkInvariant(root: Dir, queue: seq<Dir>, pending: seq<seq<string>>,
                                visited: seq<Dir>, order: seq<seq<string>>)
  {
    && Tracks(root, queue, pending) && Tracks(root, visited, order)
    && (order == [] ==> pending == [[]])
    && (order != [] ==> order[0] == [])
    && Distinct(order + pending) && ByDepth(order + pending) && Shallow(pending)
    && ParentsVisited(order, order + pending) && ParentsFirst(order)
    && ChildrenSeen(root, order, order + pending)
  }

  ghost function Seen(order: seq<seq<string>>): set<seq<string>> {
    set q | q in order
  }

  function ChildPaths(p: seq<string>, ks: seq<string>): (cs: seq<seq<string>>)
    ensures |cs| == |ks| && forall i :: 0 <= i < |ks| ==> cs[i] == p + [ks[i]]
  {
    seq(|ks|, i requires 0 <= i < |ks| => p + [ks[i]])
  }

  lemma TracksAppend(root: Dir, ds: seq<Dir>, ps: seq<seq<string>>, es: seq<Dir>, qs: seq<seq<string>>)
    requires Tracks(root, ds, ps) && Tracks(root, es, qs)
    ensures Tracks(root, ds + es, ps + qs)
  {
    forall i | 0 <= i < |ps + qs|
      ensures IsPath(root, (ps + qs)[i]) && (ds + es)[i] == At(root, (ps + qs)[i])
    {
      if i >= |ps| {
        assert (ps + qs)[i] == qs[i - |ps|] && (ds + es)[i] == es[i - |ps|];
      }
    }
  }

  lemma {:induction false} ChildrenTracked(root: Dir, here: seq<string>, current: Dir,
                                           ks: seq<string>, children: seq<Dir>)
    requires IsPath(root, here) && current == At(root, here)
    requires forall k :: k in ks ==> k in current.subdirs
    requires |children| == |ks| && forall i :: 0 <= i < |ks| ==> children[i] == current.subdirs[ks[i]]
    ensures Tracks(root, children, ChildPaths(here, ks))
  {
    forall i | 0 <= i < |ks|
      ensures IsPath(root, here + [ks[i]]) && children[i] == At(root, here + [ks[i]])
    {
      PathExtend(root, here, ks[i]);
    }
  }

  /** No queued child path was seen before: its parent, the node just visited, had not been visited. */
  lemma {:induction false} ChildrenAreNew(order: seq<seq<string>>, pending: seq<seq<string>>, ks: seq<string>)
    requires pending != [] && Distinct(order + pending) && ParentsVisited(order, order + pending)
    requires forall i, j :: 0 <= i < j < |ks| ==> ks[i] != ks[j]
    ensures pending[0] !in order
    ensures Distinct(order + [pending[0]] + (pending[1..] + ChildPaths(pending[0], ks)))
  {
    var all := order + pending;
    var cps := ChildPaths(pending[0], ks);
    assert order + [pending[0]] + (pending[1..] + cps) == all + cps;
    assert all[|order|] == pending[0];
    assert pending[0] !in order by {
      forall i | 0 <= i < |order| ensures order[i] != pending[0] {
        assert all[i] == order[i];
      }
    }
    forall i | 0 <= i < |ks| ensures cps[i] !in all {
      assert Parent(cps[i]) == pending[0];
    }
    forall i, j | 0 <= i < j < |all + cps| ensures (all + cps)[i] != (all + cps)[j] {
      if j >= |all| {
        assert (all + cps)[j] == cps[j - |all|];
        if i >= |all| {
          assert (all + cps)[i] == cps[i - |all|];
          assert cps[i - |all|][|pending[0]|] == ks[i - |all|];
        }
      }
    }
  }

  lemma {:induction false} StepKeepsDepthOrder(order: seq<seq<string>>, pending: seq<seq<string>>, ks: seq<string>)
    requires pending != [] && ByDepth(order + pending) && Shallow(pending)
    ensures ByDepth(order + [pending[0]] + (pending[1..] + ChildPaths(pending[0], ks)))
    ensures Shallow(pending[1..] + ChildPaths(pending[0], ks))
  {
    var all := order + pending;
    var cps := ChildPaths(pending[0], ks);
    assert order + [pending[0]] + (pending[1..] + cps) == all + cps;
    assert all[|order|] == pending[0];
    forall i | 0 <= i < |all| ensures |all[i]| <= |pending[0]| + 1 {
      if i >= |order| {
        assert all[i] == pending[i - |order|];
      }
    }
    forall i, j | 0 <= i < j < |all + cps| ensures |(all + cps)[i]| <= |(all + cps)[j]| {
      if j >= |all| {
        assert (all + cps)[j] == cps[j - |all|];
        if i >= |all| {
          assert (all + cps)[i] == cps[i - |all|];
        }
      }
    }
    var p' := pending[1..] + cps;
    if |pending| > 1 {
      assert p'[0] == pending[1] && all[|order| + 1] == pending[1];
      forall i | 0 <= i < |p'| ensures |p'[i]| <= |p'[0]| + 1 {
        if i < |pending| - 1 {
          assert p'[i] == pending[i + 1];
        } else {
          assert p'[i] == cps[i - |pending| + 1];
        }
      }
    }
  }

  lemma {:induction false} StepKeepsParents(root: Dir, order: seq<seq<string>>, pending: seq<seq<string>>, ks: seq<string>)
    requires pending != [] && IsPath(root, pending[0])
    requires ParentsVisited(order, order + pending) && ParentsFirst(order)
    requires ChildrenSeen(root, order, order + pending)
    requires forall k :: k in ks <==> k in At(root, pending[0]).subdirs
    ensures ParentsVisited(order + [pending[0]], order + [pending[0]] + (pending[1..] + ChildPaths(pending[0], ks)))
    ensures ParentsFirst(order + [pending[0]])
    ensures ChildrenSeen(root, order + [pending[0]], order + [pending[0]] + (pending[1..] + ChildPaths(pending[0], ks)))
  {
    var cps := ChildPaths(pending[0], ks);
    assert order + [pending[0]] + (pending[1..] + cps) == order + pending + cps;
    StepParentsVisited(order, pending, ks);
    StepParentsFirst(order, pending[0]);
    StepChildrenSeen(root, order, pending, ks);
  }

  /** Visiting the head of the queue and enqueueing its children keeps every seen path's parent visited. */
  lemma StepParentsVisited(order: seq<seq<string>>, pending: seq<seq<string>>, ks: seq<string>)
    requires pending != [] && ParentsVisited(order, order + pending)
    ensures ParentsVisited(order + [pending[0]], order + pending + ChildPaths(pending[0], ks))
  {
    var here := pending[0];
    var cps := ChildPaths(here, ks);
    forall q | q in order + pending + cps && q != [] ensures Parent(q) in order + [here] {
      if q !in order + pending {
        var i :| 0 <= i < |cps| && cps[i] == q;
        assert Parent(cps[i]) == here;
      }
    }
  }

  /** Appending a path whose parent is already visited keeps parents first. */
  lemma StepParentsFirst(order: seq<seq<string>>, here: seq<string>)
    requires ParentsFirst(order)
    requires here != [] ==> Parent(here) in order
    ensures ParentsFirst(order + [here])
  {
    var order' := order + [here];
    assert order'[..|order|] == order;
    forall j | 0 <= j < |order'| && order'[j] != [] ensures Parent(order'[j]) in order'[..j] {
      if j < |order| {
        assert order'[..j] == order[..j];
      }
    }
  }

  /** Visiting the head of the queue and enqueueing its children keeps every visited node's children seen. */
  lemma StepChildrenSeen(root: Dir, order: seq<seq<string>>, pending: seq<seq<string>>, ks: seq<string>)
    requires pending != [] && IsPath(root, pending[0])
    requires ChildrenSeen(root, order, order + pending)
    requires forall k :: k in ks <==> k in At(root, pending[0]).subdirs
    ensures ChildrenSeen(root, order + [pending[0]], order + pending + ChildPaths(pending[0], ks))
  {
    var here := pending[0];
    var cps := ChildPaths(here, ks);
    forall q, k | q in order + [here] && IsPath(root, q) && k in At(root, q).subdirs
      ensures q + [k] in order + pending + cps
    {
      if q !in order {
        var i :| 0 <= i < |ks| && ks[i] == k;
        assert cps[i] == q + [k];
      }
    }
  }

  /** Visiting a path not visited before leaves fewer paths of the tree unvisited. */
  lemma VisitShrinks(root: Dir, order: seq<seq<string>>, here: seq<string>)
    requires IsPath(root, here) && here !in order
    ensures Paths(root) - Seen(order + [here]) < Paths(root) - Seen(order)
  {
    PathsComplete(root, here);
    assert Seen(order + [here]) == Seen(order) + {here};
  }

  /** One turn of the loop: take the head of the queue, hand it to `func`, enqueue its children. */
  lemma {:induction false} WalkStep(root: Dir, queue: seq<Dir>, pending: seq<seq<string>>,
                                    visited: seq<Dir>, order: seq<seq<string>>, ks: seq<string>, children: seq<Dir>)
    requires WalkInvariant(root, queue, pending, visited, order) && queue != []
    requires forall k :: k in ks <==> k in queue[0].subdirs
    requires forall i, j :: 0 <= i < j < |ks| ==> ks[i] != ks[j]
    requires |children| == |ks| && forall i :: 0 <= i < |ks| ==> children[i] == queue[0].subdirs[ks[i]]
    ensures WalkInvariant(root, queue[1..] + children, pending[1..] + ChildPaths(pending[0], ks),
                          visited + [queue[0]], order + [pending[0]])
    ensures IsPath(root, pending[0]) && pending[0] !in order
  {
    var here := pending[0];
    var cps := ChildPaths(here, ks);
    ChildrenTracked(root, here, queue[0], ks, children);
    TracksAppend(root, queue[1..], pending[1..], children, cps);
    TracksAppend(root, visited, order, [queue[0]], [here]);
    ChildrenAreNew(order, pending, ks);
    StepKeepsDepthOrder(order, pending, ks);
    StepKeepsParents(root, order, pending, ks);
  }

  /**
   * `dir_walk(dir_, func)`: `visited` lists, in order, the snapshots `func`
   * is applied to; the ghost `order` gives the path of each one.
   */
  method DirWalk(root: Dir) returns (visited: seq<Dir>, ghost order: seq<seq<string>>)
    ensures Tracks(root, visited, order)
    ensures |order| > 0 && visited[0] == root && order[0] == []
    ensures Distinct(order) && ByDepth(order) && ParentsFirst(order)
    ensures forall p :: IsPath(root, p) ==> p in order
  {
    var queue: seq<Dir> := [root];
    ghost var pending: seq<seq<string>> := [[]];
    visited, order := [], [];
    while queue != []
      invariant WalkInvariant(root, queue, pending, visited, order)
      decreases Paths(root) - Seen(order)
    {
      var current := queue[0];
      var ks := KeysInSomeOrder(current.subdirs);
      var children := seq(|ks|, i requires 0 <= i < |ks| => current.subdirs[ks[i]]);
      WalkStep(root, queue, pending, visited, order, ks, children);
      VisitShrinks(root, order, pending[0]);
      visited, order := visited + [current], order + [pending[0]];
      queue, pending := queue[1..] + children, pending[1..] + ChildPaths(pending[0], ks);
    }
    assert order + pending == order;
    forall p | IsPath(root, p) ensures p in order {
      ClosedSetHasAllPaths(root, Seen(order), p);
    }
  }
}
