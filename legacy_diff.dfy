/**
 * hearth/dirdiff.py: the first generation of the directory comparison.
 *
 * Its `Dir` record, its three diff classes (up to `__bool__`) and its
 * per-level functions `_prepend_path`, `_compare_files`, `_compare_subdirs`
 * and `compare_dirs` are, line for line, those of hearth/dir/data.py and
 * hearth/dir/diff.py, so the model reuses `Data.Dir`, the classes of module
 * DiffObjects and `Diff.CompareDirs`. What differs is the whole-tree policy:
 * `_diff_walk` yields the level diff of every directory pair reachable
 * through shared names, pre-order, and `full_diff_dirs` folds all of them
 * with `|=`, so the shared entries of every level survive; and `__bool__`
 * counts the `shared` sets.
 */
module LegacyDiff {
  import opened Wrappers
  import opened OsPath
  import opened DiffValues
  import opened DiffObjects
  import opened Data
  import opened Diff
  import opened DiffProperties

  // ----- `__bool__` -----

  /** `FilesDiff.__bool__` of hearth/dirdiff.py: `shared` counts as well. */
  predicate LegacyFilesTruthy(f: FileSets) {
    f.changed != {} || f.missing != {} || f.added != {} || f.shared != {}
  }

  /** `SubdirDiff.__bool__` of hearth/dirdiff.py. */
  predicate LegacySubdirsTruthy(s: SubdirSets) {
    s.missing != {} || s.added != {} || s.shared != {}
  }

  /** What a `__bool__` method hands back to Python's truth test: a bool, or one of the two field objects. */
  datatype BoolReturn = Bool(b: bool) | FilesObject(files: FileSets) | SubdirsObject(subdirs: SubdirSets)

  /**
   * `DirDiff.__bool__` of hearth/dirdiff.py: `self.files or self.subdirs`
   * yields the field object `files` when it is truthy and the object
   * `subdirs` otherwise, never a bool.
   */
  function LegacyDirBoolReturn(d: DiffValues.Diff): (r: BoolReturn)
    ensures !r.Bool?
    ensures r.FilesObject? <==> LegacyFilesTruthy(d.files)
    ensures r.FilesObject? ==> r.files == d.files
    ensures r.SubdirsObject? ==> r.subdirs == d.subdirs
  {
    if LegacyFilesTruthy(d.files) then FilesObject(d.files) else SubdirsObject(d.subdirs)
  }

  /** Python's `bool(x)` once `x.__bool__()` has returned `r`: anything but a bool raises `TypeError`. */
  function TruthTest(r: BoolReturn): (t: Result<bool, string>)
    ensures t.Success? <==> r.Bool?
    ensures r.Bool? ==> t.value == r.b
  {
    if r.Bool? then Success(r.b) else Failure("TypeError: __bool__ should return bool")
  }

  /** `bool(d)` (or `if d:`) on a legacy `DirDiff`. */
  function LegacyBool(d: DiffValues.Diff): Result<bool, string> {
    TruthTest(LegacyDirBoolReturn(d))
  }

  /** As written, the truth test of every legacy `DirDiff` raises `TypeError`, the empty one included. */
  lemma LegacyBoolRaises(d: DiffValues.Diff)
    ensures LegacyBool(d).Failure?
    ensures LegacyBool(DiffValues.Empty) == Failure("TypeError: __bool__ should return bool")
  {
  }

  /** The truth an object returned by `__bool__` carries under its own `__bool__`. */
  function ObjectTruth(r: BoolReturn): bool {
    match r
    case Bool(b) => b
    case FilesObject(f) => LegacyFilesTruthy(f)
    case SubdirsObject(sd) => LegacySubdirsTruthy(sd)
  }

  /** The evidently intended `DirDiff.__bool__`: `bool(self.files) or bool(self.subdirs)`. */
  predicate LegacyIsTruthy(d: DiffValues.Diff) {
    LegacyFilesTruthy(d.files) || LegacySubdirsTruthy(d.subdirs)
  }

  /** Coercing the object `__bool__` returns gives the intended truth: wrapping the `or` in `bool(...)` repairs the method. */
  lemma IntendedBoolIsReturnedTruth(d: DiffValues.Diff)
    ensures TruthTest(Bool(ObjectTruth(LegacyDirBoolReturn(d)))) == Success(LegacyIsTruthy(d))
  {
  }

  /**
   * One of the two legacy field objects is truthy exactly when one of the
   * seven sets is non-empty, so every diff truthy for hearth/dir/diff.py has
   * a truthy legacy field, and a diff holding only shared entries has one
   * although it is falsy there.
   */
  lemma LegacyTruthyIffSomeField(d: DiffValues.Diff)
    ensures LegacyIsTruthy(d) <==> exists f :: Get(d, f) != {}
    ensures d.IsTruthy() ==> LegacyIsTruthy(d)
    ensures forall x :: LegacyIsTruthy(SharedOnly(x)) && !SharedOnly(x).IsTruthy()
  {
    if LegacyIsTruthy(d) {
      if d.files.shared != {} { assert Get(d, FilesShared) != {}; }
      else if d.subdirs.shared != {} { assert Get(d, SubdirsShared) != {}; }
      else { TruthyIffCountedNonEmpty(d); }
    }
  }

  // ----- `_diff_walk` -----

  /** The level diffs of the directory pairs reached from (s, c) at `p`: the pair itself and everything below its shared names. */
  function ReachableLevels(s: Dir, c: Dir, p: string, o: Oracle): set<DiffValues.Diff>
    decreases s, 1
  {
    {CompareDirs(s, c, p, o)} + ChildLevels(s, c, p, o, s.subdirs.Keys * c.subdirs.Keys)
  }

  /** The level diffs reached below the shared children named in `ks`. */
  function ChildLevels(s: Dir, c: Dir, p: string, o: Oracle, ks: set<string>): set<DiffValues.Diff>
    requires ks <= s.subdirs.Keys * c.subdirs.Keys
    decreases s, 0
  {
    set k, d | k in ks && d in ReachableLevels(s.subdirs[k], c.subdirs[k], Qualify(p, k), o) :: d
  }

  /**
   * `w` is a sequence `_diff_walk(s, c, p)` can yield: the level's own diff
   * first, then, one after the other and in any order, a whole walk of each
   * shared child.
   */
  ghost predicate IsWalk(s: Dir, c: Dir, p: string, o: Oracle, w: seq<DiffValues.Diff>)
    decreases s, 1
  {
    |w| > 0 && w[0] == CompareDirs(s, c, p, o) && IsChildWalks(s, c, p, o, s.subdirs.Keys * c.subdirs.Keys, w[1..])
  }

  /** `w` is the walks of the shared children named in `ks`, one after another, the last one at the end. */
  ghost predicate IsChildWalks(s: Dir, c: Dir, p: string, o: Oracle, ks: set<string>, w: seq<DiffValues.Diff>)
    requires ks <= s.subdirs.Keys * c.subdirs.Keys
    decreases s, 0, |ks|
  {
    if ks == {} then w == []
    else exists k, i | k in ks && 0 <= i <= |w| ::
      IsChildWalks(s, c, p, o, ks - {k}, w[..i]) && IsWalk(s.subdirs[k], c.subdirs[k], Qualify(p, k), o, w[i..])
  }

  lemma ChildWalksAppend(s: Dir, c: Dir, p: string, o: Oracle, done: set<string>, k: string, w: seq<DiffValues.Diff>, v: seq<DiffValues.Diff>)
    requires done <= s.subdirs.Keys * c.subdirs.Keys && k in s.subdirs && k in c.subdirs && k !in done
    requires IsChildWalks(s, c, p, o, done, w)
    requires IsWalk(s.subdirs[k], c.subdirs[k], Qualify(p, k), o, v)
    ensures IsChildWalks(s, c, p, o, done + {k}, w + v)
  {
    assert (done + {k}) - {k} == done;
    assert (w + v)[..|w|] == w && (w + v)[|w|..] == v;
  }

  /**
   * `_diff_walk(src_dir, cmp_dir, relative_path)`, with the yielded diffs
   * collected in order. The shared names are taken from the level diff
   * before it is yielded, so what the consumer later does to that diff
   * cannot change which children are visited; each child is found under
   * the basename of its prefixed name.
   */
  method DiffWalk(src: Dir, cmp: Dir, relativePath: string, oracle: Oracle) returns (walk: seq<DiffValues.Diff>)
    requires KeysNamed(src)
    ensures IsWalk(src, cmp, relativePath, oracle, walk)
    decreases src, 1
  {
    var dirDiff := CompareDirs(src, cmp, relativePath, oracle);
    var subdirs := dirDiff.subdirs.shared;
    walk := [dirDiff];
    ghost var keys := src.subdirs.Keys * cmp.subdirs.Keys;
    ghost var done: set<string> := {};
    var remaining := subdirs;
    assert keys - done == keys;
    while remaining != {}
      invariant done <= keys
      invariant remaining == PrependPath(keys - done, relativePath)
      invariant |walk| > 0 && walk[0] == dirDiff
      invariant IsChildWalks(src, cmp, relativePath, oracle, done, walk[1..])
      decreases remaining
    {
      PrependPathShape(keys - done, relativePath);
      var subdir :| subdir in remaining;
      ghost var k :| k in keys - done && subdir == Qualify(relativePath, k);
      var baseSubdir := Basename(subdir);
      QualifyBasename(relativePath, k);
      var childWalk := DiffWalk(src.subdirs[baseSubdir], cmp.subdirs[baseSubdir], subdir, oracle);
      ChildWalksAppend(src, cmp, relativePath, oracle, done, k, walk[1..], childWalk);
      TailOfAppend(walk, childWalk);
      walk := walk + childWalk;
      PrependPathRemove(keys - done, relativePath, k);
      MinusStep(keys, done, k);
      remaining := remaining - {subdir};
      done := done + {k};
    }
    PrependPathShape(keys - done, relativePath);
    assert done == keys;
  }

  lemma TailOfAppend(a: seq<DiffValues.Diff>, b: seq<DiffValues.Diff>)
    requires |a| > 0
    ensures (a + b)[1..] == a[1..] + b
  {
  }

  /** The diffs of a walk, as a set. */
  function Elems(w: seq<DiffValues.Diff>): set<DiffValues.Diff> {
    set d | d in w
  }

  lemma ElemsPrefix(w: seq<DiffValues.Diff>, i: nat)
    requires i < |w|
    ensures Elems(w[..i + 1]) == Elems(w[..i]) + {w[i]}
  {
    assert w[..i + 1] == w[..i] + [w[i]];
  }

  lemma ChildLevelsInsert(s: Dir, c: Dir, p: string, o: Oracle, ks: set<string>, k: string)
    requires ks <= s.subdirs.Keys * c.subdirs.Keys && k in s.subdirs && k in c.subdirs
    ensures ChildLevels(s, c, p, o, ks + {k})
         == ChildLevels(s, c, p, o, ks) + ReachableLevels(s.subdirs[k], c.subdirs[k], Qualify(p, k), o)
  {
  }

  /** A walk yields the level diff of every reachable pair, and nothing else. */
  lemma {:induction false} WalkLevels(s: Dir, c: Dir, p: string, o: Oracle, w: seq<DiffValues.Diff>)
    requires IsWalk(s, c, p, o, w)
    ensures Elems(w) == ReachableLevels(s, c, p, o)
    decreases s, 1
  {
    ChildWalkLevels(s, c, p, o, s.subdirs.Keys * c.subdirs.Keys, w[1..]);
    assert w == [w[0]] + w[1..];
    assert Elems(w) == {w[0]} + Elems(w[1..]);
  }

  lemma {:induction false} ChildWalkLevels(s: Dir, c: Dir, p: string, o: Oracle, ks: set<string>, w: seq<DiffValues.Diff>)
    requires ks <= s.subdirs.Keys * c.subdirs.Keys
    requires IsChildWalks(s, c, p, o, ks, w)
    ensures Elems(w) == ChildLevels(s, c, p, o, ks)
    decreases s, 0, |ks|
  {
    if ks == {} {
      assert Elems(w) == {};
    } else {
      var k, i :| k in ks && 0 <= i <= |w|
        && IsChildWalks(s, c, p, o, ks - {k}, w[..i]) && IsWalk(s.subdirs[k], c.subdirs[k], Qualify(p, k), o, w[i..]);
      ChildWalkLevels(s, c, p, o, ks - {k}, w[..i]);
      WalkLevels(s.subdirs[k], c.subdirs[k], Qualify(p, k), o, w[i..]);
      assert w == w[..i] + w[i..];
      assert Elems(w) == Elems(w[..i]) + Elems(w[i..]);
      ChildLevelsInsert(s, c, p, o, ks - {k}, k);
      assert (ks - {k}) + {k} == ks;
    }
  }

  // ----- `full_diff_dirs`: `reduce(operator.or_, _diff_walk(...))` -----

  /** What the legacy `full_diff_dirs` returns: the field-wise union of every reachable level diff. */
  function LegacyFullDiff(s: Dir, c: Dir, p: string, o: Oracle): DiffValues.Diff {
    Flatten(ReachableLevels(s, c, p, o))
  }

  /**
   * `reduce(operator.or_, walk)`: the first yielded diff absorbs every later
   * one with `|=`, in the order they are yielded. Each yielded diff is the
   * fresh `DirDiff` that `compare_dirs` builds.
   */
  method Reduce(walk: seq<DiffValues.Diff>) returns (acc: DirDiff)
    requires |walk| > 0
    ensures fresh(acc.files) && fresh(acc.subdirs)
    ensures acc.Value() == Flatten(Elems(walk))
  {
    acc := new DirDiff(walk[0]);
    FlattenSingle(walk[0]);
    assert Elems(walk[..1]) == {walk[0]};
    var i := 1;
    while i < |walk|
      invariant 1 <= i <= |walk|
      invariant fresh(acc.files) && fresh(acc.subdirs)
      invariant acc.Value() == Flatten(Elems(walk[..i]))
    {
      var next := new DirDiff(walk[i]);
      acc.Or(next);
      ElemsPrefix(walk, i);
      FlattenInsert(Elems(walk[..i]), walk[i]);
      i := i + 1;
    }
    assert walk[..i] == walk;
  }

  /** `full_diff_dirs(src_dir, cmp_dir)` of hearth/dirdiff.py. */
  method LegacyFullDiffDirs(src: Dir, cmp: Dir, oracle: Oracle) returns (r: DirDiff)
    requires KeysNamed(src)
    ensures fresh(r.files) && fresh(r.subdirs)
    ensures r.Value() == LegacyFullDiff(src, cmp, "", oracle)
  {
    var walk := DiffWalk(src, cmp, "", oracle);
    WalkLevels(src, cmp, "", oracle, walk);
    r := Reduce(walk);
  }

  // ----- what the legacy result holds -----

  /** An entry of the legacy result is in the level's own diff or in the legacy result of a shared child. */
  lemma LegacyStep(s: Dir, c: Dir, p: string, o: Oracle, f: Field, x: string)
    ensures x in Get(LegacyFullDiff(s, c, p, o), f)
        <==> x in Get(CompareDirs(s, c, p, o), f)
             || exists k :: k in s.subdirs && k in c.subdirs && x in Get(LegacyFullDiff(s.subdirs[k], c.subdirs[k], Qualify(p, k), o), f)
  {
    var keys := s.subdirs.Keys * c.subdirs.Keys;
    var levels := ReachableLevels(s, c, p, o);
    FlattenMembers(levels);
    if x in Get(LegacyFullDiff(s, c, p, o), f) && x !in Get(CompareDirs(s, c, p, o), f) {
      var d :| d in levels && x in Get(d, f);
      assert d in ChildLevels(s, c, p, o, keys);
      var k :| k in keys && d in ReachableLevels(s.subdirs[k], c.subdirs[k], Qualify(p, k), o);
      FlattenMembers(ReachableLevels(s.subdirs[k], c.subdirs[k], Qualify(p, k), o));
    }
    if exists k :: k in s.subdirs && k in c.subdirs && x in Get(LegacyFullDiff(s.subdirs[k], c.subdirs[k], Qualify(p, k), o), f) {
      var k :| k in s.subdirs && k in c.subdirs && x in Get(LegacyFullDiff(s.subdirs[k], c.subdirs[k], Qualify(p, k), o), f);
      var sub := ReachableLevels(s.subdirs[k], c.subdirs[k], Qualify(p, k), o);
      FlattenMembers(sub);
      var d :| d in sub && x in Get(d, f);
      assert d in ChildLevels(s, c, p, o, keys);
    }
  }

  lemma {:induction false} LegacyEntriesSound(s: Dir, c: Dir, p: string, o: Oracle, f: Field, x: string)
    requires x in Get(LegacyFullDiff(s, c, p, o), f)
    ensures exists q, n :: ReportsAt(s, c, p, o, f, x, q, n)
    decreases s
  {
    LegacyStep(s, c, p, o, f, x);
    if x in Get(CompareDirs(s, c, p, o), f) {
      LevelFields(s, c, p, o, f);
      PrependPathShape(LevelEntries(s, c, o, f), p);
      var n :| n in LevelEntries(s, c, o, f) && x == Qualify(p, n);
      ReportsAtRoot(s, c, p, o, f, x, n);
    } else {
      var k :| k in s.subdirs && k in c.subdirs && x in Get(LegacyFullDiff(s.subdirs[k], c.subdirs[k], Qualify(p, k), o), f);
      LegacyEntriesSound(s.subdirs[k], c.subdirs[k], Qualify(p, k), o, f, x);
      var q, n :| ReportsAt(s.subdirs[k], c.subdirs[k], Qualify(p, k), o, f, x, q, n);
      DescendReports(s, c, p, o, f, x, k, q, n);
    }
  }

  lemma {:induction false} LegacyEntriesComplete(s: Dir, c: Dir, p: string, o: Oracle, f: Field, x: string,
                                                 q: seq<string>, n: string)
    requires ReportsAt(s, c, p, o, f, x, q, n)
    ensures x in Get(LegacyFullDiff(s, c, p, o), f)
    decreases q
  {
    LegacyStep(s, c, p, o, f, x);
    if q == [] {
      LevelFields(s, c, p, o, f);
      PrependPathShape(LevelEntries(s, c, o, f), p);
    } else {
      var k := q[0];
      assert ReportsAt(s.subdirs[k], c.subdirs[k], Qualify(p, k), o, f, x, q[1..], n);
      LegacyEntriesComplete(s.subdirs[k], c.subdirs[k], Qualify(p, k), o, f, x, q[1..], n);
    }
  }

  /**
   * Every field of the legacy result, `shared` ones included, holds exactly
   * the full paths of the names some common level puts in that field.
   */
  lemma LegacyReportedEntries(s: Dir, c: Dir, p: string, o: Oracle, f: Field, x: string)
    ensures x in Get(LegacyFullDiff(s, c, p, o), f) <==> exists q, n :: ReportsAt(s, c, p, o, f, x, q, n)
  {
    if x in Get(LegacyFullDiff(s, c, p, o), f) {
      LegacyEntriesSound(s, c, p, o, f, x);
    }
    if exists q, n :: ReportsAt(s, c, p, o, f, x, q, n) {
      var q, n :| ReportsAt(s, c, p, o, f, x, q, n);
      LegacyEntriesComplete(s, c, p, o, f, x, q, n);
    }
  }

  /**
   * The two engines agree on everything that differs: their `changed`,
   * `missing` and `new` sets are the same. They part only on the `shared` sets.
   */
  lemma EnginesAgreeOnCounted(s: Dir, c: Dir, p: string, o: Oracle, f: Field)
    requires Counted(f)
    ensures Get(LegacyFullDiff(s, c, p, o), f) == Get(FullDiff(s, c, p, o), f)
  {
    forall x | true
      ensures x in Get(LegacyFullDiff(s, c, p, o), f) <==> x in Get(FullDiff(s, c, p, o), f)
    {
      LegacyReportedEntries(s, c, p, o, f, x);
      ReportedEntries(s, c, p, o, f, x);
    }
  }

  /** Neither root has a subdirectory, both hold the same files, and the content comparison fails on each of them. */
  predicate NothingComparable(s: Dir, c: Dir, o: Oracle) {
    && s.subdirs.Keys == {} && c.subdirs.Keys == {} && s.files == c.files
    && Verdicts(s, c, o, Match) == {} && Verdicts(s, c, o, Mismatch) == {}
  }

  /** A level diff is empty in every field exactly when the level has nothing comparable. */
  lemma LevelEmptyIff(s: Dir, c: Dir, p: string, o: Oracle)
    ensures (forall f :: Get(CompareDirs(s, c, p, o), f) == {}) <==> NothingComparable(s, c, o)
  {
    var level := CompareDirs(s, c, p, o);
    forall f ensures Get(level, f) == {} <==> LevelEntries(s, c, o, f) == {} {
      LevelFields(s, c, p, o, f);
      PrependPathShape(LevelEntries(s, c, o, f), p);
    }
    if forall f :: Get(level, f) == {} {
      assert LevelEntries(s, c, o, SubdirsMissing) == {} && LevelEntries(s, c, o, SubdirsNew) == {};
      assert LevelEntries(s, c, o, SubdirsShared) == {};
      assert LevelEntries(s, c, o, FilesMissing) == {} && LevelEntries(s, c, o, FilesNew) == {};
      assert LevelEntries(s, c, o, FilesShared) == {} && LevelEntries(s, c, o, FilesChanged) == {};
    }
    if NothingComparable(s, c, o) {
      forall f ensures LevelEntries(s, c, o, f) == {} {
      }
    }
  }

  /** The level's own diff survives into the legacy result, field by field. */
  lemma LevelInLegacy(s: Dir, c: Dir, p: string, o: Oracle, f: Field)
    ensures Get(CompareDirs(s, c, p, o), f) <= Get(LegacyFullDiff(s, c, p, o), f)
  {
    FlattenMembers(ReachableLevels(s, c, p, o));
  }

  /**
   * Because `shared` counts and survives, both field objects of the legacy
   * result are falsy only when neither root has a subdirectory, both hold
   * the same files and the content comparison fails on every one of them;
   * the intended `DirDiff.__bool__` is falsy exactly then.
   */
  lemma LegacyFalsyIff(s: Dir, c: Dir, p: string, o: Oracle)
    ensures var r := LegacyFullDiff(s, c, p, o);
      !LegacyFilesTruthy(r.files) && !LegacySubdirsTruthy(r.subdirs) <==> NothingComparable(s, c, o)
    ensures !LegacyIsTruthy(LegacyFullDiff(s, c, p, o)) <==> NothingComparable(s, c, o)
  {
    var r := LegacyFullDiff(s, c, p, o);
    var level := CompareDirs(s, c, p, o);
    LegacyTruthyIffSomeField(r);
    LevelEmptyIff(s, c, p, o);
    if !LegacyIsTruthy(r) {
      forall f ensures Get(level, f) == {} {
        LevelInLegacy(s, c, p, o, f);
      }
    }
    if NothingComparable(s, c, o) {
      assert ChildLevels(s, c, p, o, s.subdirs.Keys * c.subdirs.Keys) == {};
      assert ReachableLevels(s, c, p, o) == {level};
      FlattenSingle(level);
    }
  }

  // ----- the expectation of test_diff_only_subdirs_same_contents -----

  /** A content comparison that finds every pair of files equal. */
  const AllMatch: Oracle := (a: string, b: string) => Match

  /** One directory `a` holding one file `f`, under the root `root`. */
  function OneSubdir(root: string): Dir {
    Dir("root", root, {}, map["a" := Dir("a", Join(root, "a"), {"f"}, map[])])
  }

  /** What the test expects when both trees hold the same subdirectories with the same contents: only their names, as shared. */
  const SameContentsExpected := Diff(EmptyFiles, SubdirSets({}, {}, {"a"}))

  /** The legacy engine also lists the shared file of the subdirectory, so it misses the test's expectation. */
  lemma LegacyKeepsSharedFiles()
    ensures "a/f" in LegacyFullDiff(OneSubdir("/src"), OneSubdir("/cmp"), "", AllMatch).files.shared
    ensures LegacyFullDiff(OneSubdir("/src"), OneSubdir("/cmp"), "", AllMatch) != SameContentsExpected
  {
    var s, c := OneSubdir("/src"), OneSubdir("/cmp");
    assert IsPath(s, ["a"]) && IsPath(c, ["a"]);
    assert At(s, ["a"]) == s.subdirs["a"] && At(c, ["a"]) == c.subdirs["a"];
    assert "f" in Verdicts(s.subdirs["a"], c.subdirs["a"], AllMatch, Match);
    assert QualifyPath("", ["a"]) == "a";
    assert Qualify("a", "f") == "a/f";
    assert ReportsAt(s, c, "", AllMatch, FilesShared, "a/f", ["a"], "f");
    LegacyEntriesComplete(s, c, "", AllMatch, FilesShared, "a/f", ["a"], "f");
  }

  /** The current engine meets the same expectation. */
  lemma CurrentCollapsesSameContents()
    ensures FullDiff(OneSubdir("/src"), OneSubdir("/cmp"), "", AllMatch) == SameContentsExpected
  {
    var s, c := OneSubdir("/src"), OneSubdir("/cmp");
    forall q | IsPath(s, q) && IsPath(c, q) ensures LevelAgrees(At(s, q), At(c, q), AllMatch) {
      if q != [] {
        assert q[0] == "a";
        assert IsPath(s.subdirs["a"], q[1..]);
        assert q[1..] == [];
        assert At(s, q) == s.subdirs["a"] && At(c, q) == c.subdirs["a"];
      }
    }
    AgreeingTreesCollapse(s, c, "", AllMatch);
    assert Verdicts(s, c, AllMatch, Match) == {};
  }
}
