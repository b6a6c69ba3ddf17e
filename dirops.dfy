/**
 * cli/actions/dirops.go: an unfinished builder of directory trees.
 *
 * A `PathTree` is a path spelled as a chain of elements; `AddPathTree`
 * threads one into a `DirTree`, marking a file or descending into a
 * directory that is already there. A directory that is not there yet is
 * built with `ToDirTree`, which creates a `DirTree` literal without maps and
 * then stores into them: on any path longer than one element that is a
 * store into a nil map, a run-time panic, and otherwise it returns nil. So
 * no `DirTree` node is ever allocated. `CompareDirTrees` is a stub.
 *
 * Go references that may be nil are `Option` values (for the read-only
 * `PathTree`) or nullable references (for the mutable `DirTree`).
 */
module DirOps {
  import opened Wrappers

  /** `PathTree`: one element of a path and the rest of it. */
  datatype PathTree = PathTree(curElement: string, childTree: Option<PathTree>, isDir: bool)

  // ----- `ToDirTree` -----

  /** A Go map, which may be nil. */
  datatype GoMap<V> = NilMap | Made(entries: map<string, V>)

  /** `m[k] = v`; `None` is the panic a nil map raises. */
  function Store<V>(m: GoMap<V>, k: string, v: V): Option<GoMap<V>> {
    match m
    case NilMap => None
    case Made(entries) => Some(Made(entries[k := v]))
  }

  /** A `DirTree` as a value, its maps possibly nil. */
  datatype TreeValue = TreeValue(curDir: string, files: GoMap<bool>, dirs: GoMap<Built>)

  /** What a call of `ToDirTree` comes to: nil, a tree, or a panic. */
  datatype Built = NilTree | Tree(tree: TreeValue) | Panic

  /**
   * `(*PathTree).ToDirTree`: nil for a nil receiver or a receiver without a
   * child; otherwise the literal `DirTree{CurDir: p.CurElement}` has nil
   * maps, and storing the child into one of them panics. It never builds a tree.
   */
  function ToDirTree(p: Option<PathTree>): (r: Built)
    ensures !r.Tree?
    ensures r.NilTree? <==> p.None? || p.value.childTree.None?
    decreases p
  {
    if p.None? then NilTree
    else if p.value.childTree.None? then NilTree
    else
      var newDirTree := TreeValue(p.value.curElement, NilMap, NilMap);
      var child := p.value.childTree.value;
      if child.isDir then
        var sub := ToDirTree(p.value.childTree);
        if sub.Panic? then Panic
        else match Store(newDirTree.dirs, child.curElement, sub)
          case None => Panic
          case Some(d) => Tree(newDirTree.(dirs := d))
      else
        match Store(newDirTree.files, child.curElement, true)
        case None => Panic
        case Some(f) => Tree(newDirTree.(files := f))
  }

  // ----- `DirTree` and `AddPathTree` -----

  /**
   * `DirTree`: a directory's name, its files and its subdirectories. A
   * subdirectory entry may hold nil. `Repr` is the node and every node below it.
   */
  class DirTree {
    var curDir: string
    var files: map<string, bool>
    var dirs: map<string, DirTree?>
    ghost var Repr: set<DirTree>

    /** The nodes below form a tree: every child owns a part of `Repr` without this node, and siblings own disjoint parts. */
    ghost predicate Valid()
      reads this, Repr
      decreases Repr
    {
      && this in Repr
      && (forall k :: k in dirs && dirs[k] != null ==>
            && dirs[k] in Repr && dirs[k].Repr <= Repr && this !in dirs[k].Repr && dirs[k].Valid())
      && (forall j, k :: j in dirs && k in dirs && j != k && dirs[j] != null && dirs[k] != null ==>
            dirs[j].Repr !! dirs[k].Repr)
    }
  }

  /** The guards of `AddPathTree` let the call through: neither argument nil, the root elements equal, and a child to add. */
  predicate Proceeds(dt: DirTree?, pt: Option<PathTree>)
    reads dt
  {
    dt != null && pt.Some? && dt.curDir == pt.value.curElement && pt.value.childTree.Some?
  }

  /** `Files[k] = true`, what the file branch leaves behind. */
  function MarkFile(files: map<string, bool>, k: string): map<string, bool> {
    files[k := true]
  }

  /** Marking a file that is already marked changes nothing: a repeated file insertion is a no-op. */
  lemma MarkFileIdempotent(files: map<string, bool>, k: string)
    ensures k in MarkFile(files, k) && MarkFile(files, k)[k]
    ensures MarkFile(MarkFile(files, k), k) == MarkFile(files, k)
    ensures k in files && files[k] ==> MarkFile(files, k) == files
  {
  }

  /**
   * The node where `AddPathTree(pt)` does its work, with the path element
   * it holds there: the guards pass at every node on the way, and the
   * recursion follows each directory element that is already a non-nil
   * entry of `Dirs`. `None` when a guard stops the call first.
   */
  ghost function Target(dt: DirTree, pt: PathTree): (r: Option<(DirTree, PathTree)>)
    requires dt.Valid()
    reads dt.Repr
    ensures r.Some? ==> r.value.0 in dt.Repr && r.value.0.Valid() && r.value.1.childTree.Some?
    ensures r.Some? ==> r.value.0.curDir == r.value.1.curElement
    ensures r.Some? ==> var child := r.value.1.childTree.value;
      !(child.isDir && child.curElement in r.value.0.dirs && r.value.0.dirs[child.curElement] != null)
    decreases pt
  {
    if dt.curDir != pt.curElement || pt.childTree.None? then None
    else
      var child := pt.childTree.value;
      if child.isDir && child.curElement in dt.dirs && dt.dirs[child.curElement] != null then
        Target(dt.dirs[child.curElement], child)
      else
        Some((dt, pt))
  }

  /**
   * The change one node undergoes when it adds `child`, which is not an
   * existing subdirectory: the new maps, or `None` for the panic of
   * `ToDirTree` on a path that goes on below `child`.
   */
  function AddAt(files: map<string, bool>, dirs: map<string, DirTree?>, child: PathTree): (r: Option<(map<string, bool>, map<string, DirTree?>)>)
    ensures r.None? <==> child.isDir && child.childTree.Some?
    ensures r.Some? && !child.isDir ==> r.value.0 == MarkFile(files, child.curElement) && r.value.1 == dirs
    ensures r.Some? && child.isDir ==> r.value.0 == files && r.value.1 == dirs[child.curElement := null]
  {
    if !child.isDir then Some((files[child.curElement := true], dirs))
    else match ToDirTree(Some(child))
      case Panic => None
      case _ => Some((files, dirs[child.curElement := null]))
  }

  /**
   * `(*DirTree).AddPathTree(pt)`. The error is nil on every path; `panicked`
   * reports the panic of `ToDirTree`, which reaches the caller. Only the
   * `Target` node changes, as `AddAt` says: it gains one file mark or one
   * nil subdirectory entry, or the call panics and nothing changes.
   */
  method AddPathTree(dt: DirTree?, pt: Option<PathTree>) returns (err: Option<string>, panicked: bool)
    requires dt != null ==> dt.Valid()
    modifies if dt != null then dt.Repr else {}
    ensures err == None
    ensures dt != null ==> dt.Valid() && dt.Repr == old(dt.Repr)
    ensures dt != null ==> forall m :: m in old(dt.Repr) ==> m.curDir == old(m.curDir) && m.Repr == old(m.Repr)
    ensures dt == null || pt.None? ==> !panicked
    ensures dt != null && pt.Some? ==>
      var t := old(Target(dt, pt.value));
      && (t.None? ==> !panicked && unchanged(dt.Repr))
      && (t.Some? ==>
            var n := t.value.0;
            var r := AddAt(old(n.files), old(n.dirs), t.value.1.childTree.value);
            && (panicked <==> r.None?)
            && (r.None? ==> unchanged(dt.Repr))
            && (r.Some? ==> n.files == r.value.0 && n.dirs == r.value.1 && unchanged(dt.Repr - {n})))
    ensures !old(Proceeds(dt, pt)) ==> !panicked && (dt != null ==> unchanged(dt.Repr))
    ensures old(Proceeds(dt, pt)) && !pt.value.childTree.value.isDir ==>
      && !panicked
      && dt.files == MarkFile(old(dt.files), pt.value.childTree.value.curElement)
      && dt.dirs == old(dt.dirs)
      && unchanged(dt.Repr - {dt})
    ensures old(Proceeds(dt, pt)) && pt.value.childTree.value.isDir ==>
      var name := pt.value.childTree.value.curElement;
      if name in old(dt.dirs) && old(dt.dirs)[name] != null then
        && dt.files == old(dt.files) && dt.dirs == old(dt.dirs)
        && unchanged(dt.Repr - old(dt.dirs)[name].Repr)
      else
        && (panicked <==> pt.value.childTree.value.childTree.Some?)
        && (panicked ==> unchanged(dt.Repr))
        && (!panicked ==> dt.dirs == old(dt.dirs)[name := null] && dt.files == old(dt.files) && unchanged(dt.Repr - {dt}))
    decreases pt
  {
    err := None;
    panicked := false;
    if dt == null || pt.None? {
      return;
    } else if dt.curDir != pt.value.curElement {
      return;
    } else if pt.value.childTree.None? {
      return;
    }

    var child := pt.value.childTree.value;
    var childElement := child.curElement;
    if child.isDir {
      var childDt := if childElement in dt.dirs then dt.dirs[childElement] else null;
      if childDt == null {
        var built := ToDirTree(pt.value.childTree);
        if built.Panic? {
          panicked := true;
          return;
        }
        dt.dirs := dt.dirs[childElement := null];
      } else {
        var _, childPanicked := AddPathTree(childDt, pt.value.childTree);
        panicked := childPanicked;
      }
    } else {
      if !(childElement in dt.files && dt.files[childElement]) {
        dt.files := dt.files[childElement := true];
      }
    }
  }

  /**
   * Adding the file path `r/a/f` to a root `r` whose subdirectory `a`
   * already exists marks `f` in `a`, two levels down, and leaves `r`'s maps
   * as they were; both nodes keep their names, so a second insertion, of
   * `r/g`, goes through and marks `g` in `r`.
   */
  method AddBelowExistingChild() returns (r: DirTree, a: DirTree, panicked: bool)
    ensures !panicked
    ensures r.curDir == "r" && a.curDir == "a" && r.Valid()
    ensures r.dirs == map["a" := a] && r.files == map["g" := true]
    ensures a.files == map["f" := true] && a.dirs == map[]
  {
    a := new DirTree;
    a.curDir, a.files, a.dirs, a.Repr := "a", map[], map[], {a};
    r := new DirTree;
    r.curDir, r.files, r.dirs, r.Repr := "r", map[], map["a" := a], {r, a};
    var path := PathTree("r", Some(PathTree("a", Some(PathTree("f", None, false)), true)), false);
    var _, p := AddPathTree(r, Some(path));
    var _, q := AddPathTree(r, Some(PathTree("r", Some(PathTree("g", None, false)), false)));
    panicked := p || q;
  }

  // ----- `CompareDirTrees` -----

  /** `CompDir`: the three lists a comparison of two trees was meant to fill. */
  datatype CompDir = CompDir(dirOne: seq<string>, dirTwo: seq<string>, both: seq<string>)

  /** `CompareDirTrees`: a stub that returns nil whatever it is given. */
  function CompareDirTrees(dt1: DirTree?, dt2: DirTree?): (r: Option<CompDir>)
    ensures r == None
  {
    if dt1 == null || dt2 == null then None else None
  }
}
