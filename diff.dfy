/**
 * hearth/dir/diff.py: the recursive comparison of two directory snapshots.
 *
 * `_compare_dirs` classifies the files and subdirectories of one level;
 * `_full_diff_helper` then descends into every subdirectory present on both
 * sides and either merges the child's diff (when it is truthy) or lists the
 * child once under `subdirs.shared` (when its whole subtree agrees).
 *
 * Reading file contents (`filecmp.cmpfiles`) is outside the model: an
 * `Oracle` stands for the byte-for-byte comparison of two paths.
 */
module Diff {
  import opened OsPath
  import opened DiffValues
  import opened DiffObjects
  import opened Data

  /** What `cmpfiles(..., shallow=False)` decides about one common file: equal, different, or unreadable. */
  datatype Verdict = Match | Mismatch | Failed

  /** The content comparison of the file at the first path with the file at the second. */
  type Oracle = (string, string) -> Verdict

  // ----- `_prepend_path` -----

  /** The path `_prepend_path` gives one name under `p`. */
  function Qualify(p: string, n: string): string {
    if p != "" then Join(p, n) else n
  }

  /** `_prepend_path(paths, path)`: join every name onto `path`, or keep the names when `path` is empty. */
  function PrependPath(names: set<string>, p: string): set<string> {
    if p != "" then set n | n in names :: Join(p, n) else names
  }

  /** The prepended set holds the qualified path of every name and nothing else. */
  lemma PrependPathShape(names: set<string>, p: string)
    ensures forall n :: n in names ==> Qualify(p, n) in PrependPath(names, p)
    ensures forall x :: x in PrependPath(names, p) ==> exists n :: n in names && x == Qualify(p, n)
    ensures PrependPath(names, p) == {} <==> names == {}
  {
  }

  /** A qualified name is the directory path, a separator unless none is needed, and the name. */
  lemma QualifyGlue(p: string, n: string)
    requires IsName(n)
    ensures Qualify(p, n) == JoinGlue(p) + n
  {
    JoinRelative(p, n);
  }

  /** `basename` recovers the name from its qualified path (what the loop of `_full_diff_helper` relies on). */
  lemma QualifyBasename(p: string, n: string)
    requires IsName(n)
    ensures Basename(Qualify(p, n)) == n
  {
    BasenameOfJoin(p, n);
  }

  /** Distinct names have distinct qualified paths under the same directory. */
  lemma QualifyInjective(p: string, a: string, b: string)
    requires IsName(a) && IsName(b) && Qualify(p, a) == Qualify(p, b)
    ensures a == b
  {
    QualifyBasename(p, a);
    QualifyBasename(p, b);
  }

  /** For plain names, a name's qualified path is in the prepended set exactly when the name is in the original set. */
  lemma {:induction false} PrependPathMembers(names: set<string>, p: string, n: string)
    requires IsName(n) && forall m :: m in names ==> IsName(m)
    ensures Qualify(p, n) in PrependPath(names, p) <==> n in names
  {
    PrependPathShape(names, p);
    if Qualify(p, n) in PrependPath(names, p) {
      var m :| m in names && Qualify(p, n) == Qualify(p, m);
      QualifyGlue(p, n);
      QualifyGlue(p, m);
      JoinRelative(p, n);
      JoinRelative(p, m);
      JoinInjective(p, m, n);
    }
  }

  // ----- one level: `_compare_files`, `_compare_subdirs`, `_compare_dirs` -----

  /** The common files on which the content comparison gives verdict `v`. */
  function Verdicts(s: Dir, c: Dir, o: Oracle, v: Verdict): (r: set<string>)
    ensures forall n :: n in r <==> n in s.files && n in c.files && o(Join(s.fullpath, n), Join(c.fullpath, n)) == v
  {
    set n | n in s.files * c.files && o(Join(s.fullpath, n), Join(c.fullpath, n)) == v
  }

  /**
   * `_compare_files`: the files present on both sides are compared by content;
   * those the comparison could not read are reported nowhere.
   */
  function CompareFiles(s: Dir, c: Dir, p: string, o: Oracle): FileSets {
    var both := s.files * c.files;
    FileSets(
      PrependPath(Verdicts(s, c, o, Mismatch), p),
      PrependPath(s.files - both, p),
      PrependPath(c.files - both, p),
      PrependPath(Verdicts(s, c, o, Match), p))
  }

  /** `_compare_subdirs`: the child names on one side only, and on both. */
  function CompareSubdirs(s: Dir, c: Dir, p: string): SubdirSets {
    var srcSubdirs := s.subdirs.Keys;
    var cmpSubdirs := c.subdirs.Keys;
    SubdirSets(
      PrependPath(srcSubdirs - cmpSubdirs, p),
      PrependPath(cmpSubdirs - srcSubdirs, p),
      PrependPath(srcSubdirs * cmpSubdirs, p))
  }

  /** `_compare_dirs`: both classifications of one level. */
  function CompareDirs(s: Dir, c: Dir, p: string, o: Oracle): Diff {
    Diff(CompareFiles(s, c, p, o), CompareSubdirs(s, c, p))
  }

  /** The unqualified names one level contributes to each field. */
  function LevelEntries(s: Dir, c: Dir, o: Oracle, f: Field): set<string> {
    match f
    case FilesChanged => Verdicts(s, c, o, Mismatch)
    case FilesMissing => s.files - c.files
    case FilesNew => c.files - s.files
    case FilesShared => Verdicts(s, c, o, Match)
    case SubdirsMissing => s.subdirs.Keys - c.subdirs.Keys
    case SubdirsNew => c.subdirs.Keys - s.subdirs.Keys
    case SubdirsShared => s.subdirs.Keys * c.subdirs.Keys
  }

  /** One level agrees: the same file names, no common file with different contents, the same child names. */
  predicate LevelAgrees(s: Dir, c: Dir, o: Oracle) {
    s.files == c.files && Verdicts(s, c, o, Mismatch) == {} && s.subdirs.Keys == c.subdirs.Keys
  }

  /**
   * A level diff is falsy exactly when the level agrees: `FilesDiff.__bool__`
   * when both sides hold the same files and none differs in content,
   * `SubdirDiff.__bool__` when both sides hold the same children.
   */
  lemma LevelTruthiness(s: Dir, c: Dir, p: string, o: Oracle)
    ensures !CompareFiles(s, c, p, o).IsTruthy() <==> s.files == c.files && Verdicts(s, c, o, Mismatch) == {}
    ensures !CompareSubdirs(s, c, p).IsTruthy() <==> s.subdirs.Keys == c.subdirs.Keys
    ensures !CompareDirs(s, c, p, o).IsTruthy() <==> LevelAgrees(s, c, o)
  {
    var both := s.files * c.files;
    PrependPathShape(Verdicts(s, c, o, Mismatch), p);
    PrependPathShape(s.files - both, p);
    PrependPathShape(c.files - both, p);
    PrependPathShape(s.subdirs.Keys - c.subdirs.Keys, p);
    PrependPathShape(c.subdirs.Keys - s.subdirs.Keys, p);
  }

  lemma LevelFields(s: Dir, c: Dir, p: string, o: Oracle, f: Field)
    ensures Get(CompareDirs(s, c, p, o), f) == PrependPath(LevelEntries(s, c, o, f), p)
  {
    assert s.files - s.files * c.files == s.files - c.files;
    assert c.files - s.files * c.files == c.files - s.files;
  }

  // ----- the whole tree: `_full_diff_helper` -----

  /** A diff that lists one subdirectory as shared and nothing else. */
  function SharedOnly(x: string): (r: Diff)
    ensures !r.IsTruthy() && r.subdirs.shared == {x}
  {
    Diff(EmptyFiles, SubdirSets({}, {}, {x}))
  }

  /** A level diff once `subdirs.shared` has been cleared. */
  function Cleared(d: Diff): Diff {
    d.(subdirs := d.subdirs.(shared := {}))
  }

  /**
   * What `_full_diff_helper` returns for the pair (s, c) reached at `p`:
   * the level's own diff without its shared subdirectories, merged with the
   * contribution of every shared subdirectory.
   */
  function FullDiff(s: Dir, c: Dir, p: string, o: Oracle): (r: Diff)
    decreases s, 2
  {
    Cleared(CompareDirs(s, c, p, o)).Union(Flatten(Contributions(s, c, p, o, s.subdirs.Keys * c.subdirs.Keys)))
  }

  /** The contributions of the shared children named in `ks`. */
  function Contributions(s: Dir, c: Dir, p: string, o: Oracle, ks: set<string>): set<Diff>
    requires ks <= s.subdirs.Keys * c.subdirs.Keys
    decreases s, 1
  {
    set k | k in ks :: Contribution(s, c, p, o, k)
  }

  /** One iteration of the loop: a truthy child diff is merged, a falsy one becomes a single shared entry. */
  function Contribution(s: Dir, c: Dir, p: string, o: Oracle, k: string): (r: Diff)
    requires k in s.subdirs && k in c.subdirs
    decreases s, 0
  {
    var child := FullDiff(s.subdirs[k], c.subdirs[k], Qualify(p, k), o);
    if child.IsTruthy() then child else SharedOnly(Qualify(p, k))
  }

  /** Adding one name to `subdirs.shared` is a union with a diff that holds only that name. */
  lemma AddSharedIsUnion(d: Diff, x: string)
    ensures d.(subdirs := d.subdirs.(shared := d.subdirs.shared + {x})) == d.Union(SharedOnly(x))
  {
  }

  lemma MinusStep(a: set<string>, b: set<string>, k: string)
    ensures a - b - {k} == a - (b + {k})
  {
  }

  /** Taking one name out of a set of plain names takes exactly its qualified path out of the prepended set. */
  lemma PrependPathRemove(names: set<string>, p: string, n: string)
    requires n in names && forall m :: m in names ==> IsName(m)
    ensures PrependPath(names - {n}, p) == PrependPath(names, p) - {Qualify(p, n)}
  {
    PrependPathShape(names, p);
    PrependPathShape(names - {n}, p);
    forall x | x in PrependPath(names, p) - {Qualify(p, n)} ensures x in PrependPath(names - {n}, p) {
      var m :| m in names && x == Qualify(p, m);
    }
    forall x | x in PrependPath(names - {n}, p) ensures x in PrependPath(names, p) - {Qualify(p, n)} {
      var m :| m in names - {n} && x == Qualify(p, m);
      PrependPathMembers({n}, p, m);
    }
  }

  /** One step of the loop over the shared subdirectories keeps the accumulated diff equal to the fold so far. */
  lemma {:induction false} ContributionsInsert(s: Dir, c: Dir, p: string, o: Oracle,
                                               done: set<string>, k: string, acc: Diff)
    requires done <= s.subdirs.Keys * c.subdirs.Keys && k in s.subdirs && k in c.subdirs
    ensures acc.Union(Flatten(Contributions(s, c, p, o, done))).Union(Contribution(s, c, p, o, k))
         == acc.Union(Flatten(Contributions(s, c, p, o, done + {k})))
  {
    var d := Contribution(s, c, p, o, k);
    assert Contributions(s, c, p, o, done + {k}) == Contributions(s, c, p, o, done) + {d};
    FoldStep(acc, Contributions(s, c, p, o, done), d);
  }

  /**
   * The body of the loop of `_full_diff_helper`: merging a truthy child diff,
   * or adding the child's path to `subdirs.shared`, extends the fold by that child.
   */
  lemma {:induction false} LoopStep(s: Dir, c: Dir, p: string, o: Oracle, done: set<string>, k: string,
                                    cleared: Diff, acc: Diff, child: Diff, next: Diff)
    requires done <= s.subdirs.Keys * c.subdirs.Keys && k in s.subdirs && k in c.subdirs
    requires acc == cleared.Union(Flatten(Contributions(s, c, p, o, done)))
    requires child == FullDiff(s.subdirs[k], c.subdirs[k], Qualify(p, k), o)
    requires next == if child.IsTruthy() then acc.Union(child)
                     else acc.(subdirs := acc.subdirs.(shared := acc.subdirs.shared + {Qualify(p, k)}))
    ensures next == cleared.Union(Flatten(Contributions(s, c, p, o, done + {k})))
  {
    if !child.IsTruthy() {
      AddSharedIsUnion(acc, Qualify(p, k));
    }
    ContributionsInsert(s, c, p, o, done, k, cleared);
  }

  /**
   * `_full_diff_helper(src_dir, cmp_dir, relative_path)`: builds the level
   * diff, empties its `subdirs.shared` into a working set and folds in every
   * shared child.
   */
  method FullDiffHelper(src: Dir, cmp: Dir, relativePath: string, oracle: Oracle) returns (r: DirDiff)
    requires KeysNamed(src)
    ensures fresh(r) && fresh(r.files) && fresh(r.subdirs)
    ensures r.Value() == FullDiff(src, cmp, relativePath, oracle)
    decreases src, 1
  {
    r := new DirDiff(CompareDirs(src, cmp, relativePath, oracle));
    var subdirs := r.subdirs.shared;
    r.subdirs.ClearShared();
    ghost var cleared := r.Value();
    assert cleared.Union(Flatten(Contributions(src, cmp, relativePath, oracle, {}))) == cleared by {
      assert Contributions(src, cmp, relativePath, oracle, {}) == {};
      FlattenEmpty();
      UnionEmpty(cleared);
    }
    MergeSharedSubdirs(src, cmp, relativePath, oracle, r, subdirs);
  }

  /**
   * The loop of `_full_diff_helper` over the shared subdirectories, in
   * whatever order the set yields them: a truthy child diff is merged into
   * `r`, a falsy one leaves only the child's path in `r.subdirs.shared`.
   */
  method MergeSharedSubdirs(src: Dir, cmp: Dir, relativePath: string, oracle: Oracle, r: DirDiff, subdirs: set<string>)
    requires KeysNamed(src)
    requires subdirs == PrependPath(src.subdirs.Keys * cmp.subdirs.Keys, relativePath)
    requires r.Value() == Cleared(CompareDirs(src, cmp, relativePath, oracle)).Union(Flatten(Contributions(src, cmp, relativePath, oracle, {})))
    modifies r.files, r.subdirs
    ensures r.Value() == FullDiff(src, cmp, relativePath, oracle)
    decreases src, 0
  {
    ghost var keys := src.subdirs.Keys * cmp.subdirs.Keys;
    ghost var cleared := Cleared(CompareDirs(src, cmp, relativePath, oracle));
    ghost var done: set<string> := {};
    var remaining := subdirs;
    assert keys - done == keys;
    while remaining != {}
      invariant done <= keys
      invariant remaining == PrependPath(keys - done, relativePath)
      invariant r.Value() == cleared.Union(Flatten(Contributions(src, cmp, relativePath, oracle, done)))
      decreases remaining
    {
      PrependPathShape(keys - done, relativePath);
      var subdir :| subdir in remaining;
      ghost var k :| k in keys - done && subdir == Qualify(relativePath, k);
      var baseSubdir := Basename(subdir);
      QualifyBasename(relativePath, k);
      var subdirDiff := FullDiffHelper(src.subdirs[baseSubdir], cmp.subdirs[baseSubdir], subdir, oracle);
      ghost var acc := r.Value();
      ghost var child := subdirDiff.Value();
      if subdirDiff.IsTruthy() {
        r.Or(subdirDiff);
        assert r.Value() == acc.Union(child);
      } else {
        assert r.files as object != r.subdirs as object;
        r.subdirs.AddShared(subdir);
        assert r.Value() == acc.(subdirs := acc.subdirs.(shared := acc.subdirs.shared + {subdir}));
      }
      LoopStep(src, cmp, relativePath, oracle, done, k, cleared, acc, child, r.Value());
      PrependPathRemove(keys - done, relativePath, k);
      MinusStep(keys, done, k);
      remaining := remaining - {subdir};
      done := done + {k};
    }
    PrependPathShape(keys - done, relativePath);
    assert done == keys;
  }

  /** `full_diff_dirs(src_dir, cmp_dir)`: the whole comparison, paths relative to the two roots. */
  method FullDiffDirs(src: Dir, cmp: Dir, oracle: Oracle) returns (r: DirDiff)
    requires KeysNamed(src)
    ensures fresh(r) && fresh(r.files) && fresh(r.subdirs)
    ensures r.Value() == FullDiff(src, cmp, "", oracle)
  {
    r := FullDiffHelper(src, cmp, "", oracle);
  }
}
