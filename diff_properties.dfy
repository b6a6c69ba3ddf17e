/**
 * What the result of `full_diff_dirs` / `_full_diff_helper` in
 * hearth/dir/diff.py means, stated against the two trees rather than
 * against the recursion:
 *
 *  - every changed, missing or new entry is reported under its full path,
 *    and nothing else is (`ReportedEntries`);
 *  - the result is falsy exactly when the two trees agree everywhere
 *    (`FalsyIffAgree`);
 *  - a subdirectory present on both sides is listed under `subdirs.shared`
 *    exactly when its whole subtree agrees (`SharedChildListedIffAgree`);
 *  - two agreeing trees give only the top level's shared names
 *    (`AgreeingTreesCollapse`).
 */
module DiffProperties {
  import opened OsPath
  import opened DiffValues
  import opened Data
  import opened Diff

  // ----- one level -----

  /**
   * `_compare_files` puts each plain file name in exactly the field its
   * presence and its content verdict call for; a common file whose
   * comparison failed lands in no field at all.
   */
  lemma CompareFilesClassifies(s: Dir, c: Dir, p: string, o: Oracle, n: string)
    requires WellNamed(s) && WellNamed(c) && IsName(n)
    ensures var r := CompareFiles(s, c, p, o);
            var x := Qualify(p, n);
            var v := o(Join(s.fullpath, n), Join(c.fullpath, n));
      && (x in r.missing <==> n in s.files && n !in c.files)
      && (x in r.added <==> n !in s.files && n in c.files)
      && (x in r.changed <==> n in s.files && n in c.files && v == Mismatch)
      && (x in r.shared <==> n in s.files && n in c.files && v == Match)
  {
    var both := s.files * c.files;
    PrependPathMembers(Verdicts(s, c, o, Mismatch), p, n);
    PrependPathMembers(s.files - both, p, n);
    PrependPathMembers(c.files - both, p, n);
    PrependPathMembers(Verdicts(s, c, o, Match), p, n);
  }

  /** `_compare_subdirs` puts each child name in the field its presence on the two sides calls for. */
  lemma CompareSubdirsClassifies(s: Dir, c: Dir, p: string, k: string)
    requires WellNamed(s) && WellNamed(c) && IsName(k)
    ensures var r := CompareSubdirs(s, c, p);
            var x := Qualify(p, k);
      && (x in r.missing <==> k in s.subdirs && k !in c.subdirs)
      && (x in r.added <==> k !in s.subdirs && k in c.subdirs)
      && (x in r.shared <==> k in s.subdirs && k in c.subdirs)
  {
    var a := s.subdirs.Keys;
    var b := c.subdirs.Keys;
    PrependPathMembers(a - b, p, k);
    PrependPathMembers(b - a, p, k);
    PrependPathMembers(a * b, p, k);
  }

  /** A level agrees exactly when it contributes no name to any field that makes a diff truthy. */
  lemma LevelAgreesIffNoEntries(s: Dir, c: Dir, o: Oracle)
    ensures LevelAgrees(s, c, o) <==> forall f :: Counted(f) ==> LevelEntries(s, c, o, f) == {}
  {
    if forall f :: Counted(f) ==> LevelEntries(s, c, o, f) == {} {
      assert LevelEntries(s, c, o, FilesMissing) == {} && LevelEntries(s, c, o, FilesNew) == {};
      assert LevelEntries(s, c, o, FilesChanged) == {};
      assert LevelEntries(s, c, o, SubdirsMissing) == {} && LevelEntries(s, c, o, SubdirsNew) == {};
      assert s.files == c.files;
      assert s.subdirs.Keys == c.subdirs.Keys;
    }
  }

  // ----- positions -----

  /** The path `_full_diff_helper` reaches after descending along the keys `q` from `p`. */
  function QualifyPath(p: string, q: seq<string>): string
    decreases q
  {
    if q == [] then p else QualifyPath(Qualify(p, q[0]), q[1..])
  }

  /** `x` is the full path of the name `n` that the level at common path `q` puts in field `f`. */
  ghost predicate ReportsAt(s: Dir, c: Dir, p: string, o: Oracle, f: Field, x: string, q: seq<string>, n: string) {
    IsPath(s, q) && IsPath(c, q) && n in LevelEntries(At(s, q), At(c, q), o, f) && x == Qualify(QualifyPath(p, q), n)
  }

  /** The two trees agree at every position they have in common. */
  ghost predicate Agree(s: Dir, c: Dir, o: Oracle) {
    forall q :: IsPath(s, q) && IsPath(c, q) ==> LevelAgrees(At(s, q), At(c, q), o)
  }

  lemma {:induction false} DescendReports(s: Dir, c: Dir, p: string, o: Oracle, f: Field, x: string,
                                          k: string, q: seq<string>, n: string)
    requires k in s.subdirs && k in c.subdirs
    requires ReportsAt(s.subdirs[k], c.subdirs[k], Qualify(p, k), o, f, x, q, n)
    ensures ReportsAt(s, c, p, o, f, x, [k] + q, n)
  {
    assert ([k] + q)[0] == k && ([k] + q)[1..] == q;
  }

  /** The only entry of a falsy child's contribution is the child's own path, under `subdirs.shared`. */
  lemma FalsyContribution(s: Dir, c: Dir, p: string, o: Oracle, k: string)
    requires k in s.subdirs && k in c.subdirs
    requires !FullDiff(s.subdirs[k], c.subdirs[k], Qualify(p, k), o).IsTruthy()
    ensures forall f, x :: x in Get(Contribution(s, c, p, o, k), f) <==> f == SubdirsShared && x == Qualify(p, k)
  {
    assert Contribution(s, c, p, o, k) == SharedOnly(Qualify(p, k));
  }

  /** The counted fields of a shared child's contribution are those of the child's own diff. */
  lemma ContributionCounted(s: Dir, c: Dir, p: string, o: Oracle, k: string, f: Field)
    requires k in s.subdirs && k in c.subdirs && Counted(f)
    ensures Get(Contribution(s, c, p, o, k), f) == Get(FullDiff(s.subdirs[k], c.subdirs[k], Qualify(p, k), o), f)
  {
    TruthyIffCountedNonEmpty(FullDiff(s.subdirs[k], c.subdirs[k], Qualify(p, k), o));
  }

  lemma ReportsAtRoot(s: Dir, c: Dir, p: string, o: Oracle, f: Field, x: string, n: string)
    requires n in LevelEntries(s, c, o, f) && x == Qualify(p, n)
    ensures ReportsAt(s, c, p, o, f, x, [], n)
  {
  }

  /** An entry of a counted field is the level's own, or an entry of the same field of a shared child's diff. */
  lemma CountedEntryOrigin(s: Dir, c: Dir, p: string, o: Oracle, f: Field, x: string) returns (k: string)
    requires Counted(f) && x in Get(FullDiff(s, c, p, o), f)
    requires x !in Get(CompareDirs(s, c, p, o), f)
    ensures k in s.subdirs && k in c.subdirs
    ensures x in Get(FullDiff(s.subdirs[k], c.subdirs[k], Qualify(p, k), o), f)
  {
    var keys := s.subdirs.Keys * c.subdirs.Keys;
    var cs := Contributions(s, c, p, o, keys);
    var level := CompareDirs(s, c, p, o);
    GetUnion(Cleared(level), Flatten(cs));
    FlattenWitness(cs, f, x);
    var d :| d in cs && x in Get(d, f);
    k :| k in keys && d == Contribution(s, c, p, o, k);
    ContributionCounted(s, c, p, o, k, f);
  }

  /** Every entry of a changed, missing or new field comes from a name some common level puts there. */
  lemma {:induction false} ReportedEntriesSound(s: Dir, c: Dir, p: string, o: Oracle, f: Field, x: string)
    requires Counted(f) && x in Get(FullDiff(s, c, p, o), f)
    ensures exists q, n :: ReportsAt(s, c, p, o, f, x, q, n)
    decreases s
  {
    LevelFields(s, c, p, o, f);
    if x in Get(CompareDirs(s, c, p, o), f) {
      PrependPathShape(LevelEntries(s, c, o, f), p);
      var n :| n in LevelEntries(s, c, o, f) && x == Qualify(p, n);
      ReportsAtRoot(s, c, p, o, f, x, n);
    } else {
      var k := CountedEntryOrigin(s, c, p, o, f, x);
      ReportedEntriesSound(s.subdirs[k], c.subdirs[k], Qualify(p, k), o, f, x);
      var q, n :| ReportsAt(s.subdirs[k], c.subdirs[k], Qualify(p, k), o, f, x, q, n);
      DescendReports(s, c, p, o, f, x, k, q, n);
    }
  }

  /** Every name a common level puts in a changed, missing or new field is reported under its full path. */
  lemma {:induction false} ReportedEntriesComplete(s: Dir, c: Dir, p: string, o: Oracle, f: Field, x: string,
                                                   q: seq<string>, n: string)
    requires Counted(f) && ReportsAt(s, c, p, o, f, x, q, n)
    ensures x in Get(FullDiff(s, c, p, o), f)
    decreases q
  {
    var keys := s.subdirs.Keys * c.subdirs.Keys;
    var cs := Contributions(s, c, p, o, keys);
    var level := CompareDirs(s, c, p, o);
    GetUnion(Cleared(level), Flatten(cs));
    if q == [] {
      LevelFields(s, c, p, o, f);
    } else {
      var k := q[0];
      assert ReportsAt(s.subdirs[k], c.subdirs[k], Qualify(p, k), o, f, x, q[1..], n);
      ReportedEntriesComplete(s.subdirs[k], c.subdirs[k], Qualify(p, k), o, f, x, q[1..], n);
      ContributionCounted(s, c, p, o, k, f);
      assert Contribution(s, c, p, o, k) in cs;
      FlattenMembers(cs);
    }
  }

  /**
   * The entries of a changed, missing or new field of the whole diff are
   * exactly the full paths of the names some common level puts there.
   */
  lemma ReportedEntries(s: Dir, c: Dir, p: string, o: Oracle, f: Field, x: string)
    requires Counted(f)
    ensures x in Get(FullDiff(s, c, p, o), f) <==> exists q, n :: ReportsAt(s, c, p, o, f, x, q, n)
  {
    if x in Get(FullDiff(s, c, p, o), f) {
      ReportedEntriesSound(s, c, p, o, f, x);
    }
    if exists q, n :: ReportsAt(s, c, p, o, f, x, q, n) {
      var q, n :| ReportsAt(s, c, p, o, f, x, q, n);
      ReportedEntriesComplete(s, c, p, o, f, x, q, n);
    }
  }

  /** `DirDiff.__bool__` of the whole diff is false exactly when the two trees agree everywhere. */
  lemma FalsyIffAgree(s: Dir, c: Dir, p: string, o: Oracle)
    ensures !FullDiff(s, c, p, o).IsTruthy() <==> Agree(s, c, o)
  {
    var r := FullDiff(s, c, p, o);
    TruthyIffCountedNonEmpty(r);
    if r.IsTruthy() {
      var f :| Counted(f) && Get(r, f) != {};
      var x :| x in Get(r, f);
      ReportedEntries(s, c, p, o, f, x);
      var q, n :| ReportsAt(s, c, p, o, f, x, q, n);
      LevelAgreesIffNoEntries(At(s, q), At(c, q), o);
    }
    if !Agree(s, c, o) {
      var q :| IsPath(s, q) && IsPath(c, q) && !LevelAgrees(At(s, q), At(c, q), o);
      LevelAgreesIffNoEntries(At(s, q), At(c, q), o);
      var f :| Counted(f) && LevelEntries(At(s, q), At(c, q), o, f) != {};
      var n :| n in LevelEntries(At(s, q), At(c, q), o, f);
      var x := Qualify(QualifyPath(p, q), n);
      assert ReportsAt(s, c, p, o, f, x, q, n);
      ReportedEntries(s, c, p, o, f, x);
    }
  }

  /** Agreement is inherited by every shared child. */
  lemma AgreeChild(s: Dir, c: Dir, o: Oracle, k: string)
    requires Agree(s, c, o) && k in s.subdirs && k in c.subdirs
    ensures Agree(s.subdirs[k], c.subdirs[k], o)
  {
    forall q | IsPath(s.subdirs[k], q) && IsPath(c.subdirs[k], q)
      ensures LevelAgrees(At(s.subdirs[k], q), At(c.subdirs[k], q), o)
    {
      assert ([k] + q)[0] == k && ([k] + q)[1..] == q;
      assert IsPath(s, [k] + q) && IsPath(c, [k] + q);
    }
  }

  // ----- where entries sit -----

  /** `x` lies strictly below the directory prefix `g`. */
  predicate Under(g: string, x: string) {
    |x| > |g| && x[..|g|] == g
  }

  lemma UnderLonger(g: string, w: string, x: string)
    requires Under(g + w, x)
    ensures Under(g, x)
  {
    assert x[..|g|] == x[..|g + w|][..|g|];
  }

  lemma LevelEntriesNamed(s: Dir, c: Dir, o: Oracle, f: Field)
    requires WellNamed(s) && WellNamed(c)
    ensures forall n :: n in LevelEntries(s, c, o, f) ==> IsName(n)
  {
  }

  /** The prefix below a child's path: the parent's prefix, the child's name and a separator. */
  lemma GlueOfQualified(p: string, k: string)
    requires IsName(k)
    ensures JoinGlue(Qualify(p, k)) == JoinGlue(p) + (k + "/")
  {
    QualifyGlue(p, k);
    var x := JoinGlue(p) + k;
    assert x[|x| - 1] == k[|k| - 1];
    assert x + "/" == JoinGlue(p) + (k + "/");
  }

  /** Every entry of every field of the diff reached at `p` lies below `p`. */
  lemma {:induction false} EntriesUnder(s: Dir, c: Dir, p: string, o: Oracle)
    requires WellNamed(s) && WellNamed(c)
    ensures forall f, x :: x in Get(FullDiff(s, c, p, o), f) ==> Under(JoinGlue(p), x)
    decreases s
  {
    var keys := s.subdirs.Keys * c.subdirs.Keys;
    var cs := Contributions(s, c, p, o, keys);
    var level := CompareDirs(s, c, p, o);
    GetUnion(Cleared(level), Flatten(cs));
    FlattenMembers(cs);
    forall f, x | x in Get(FullDiff(s, c, p, o), f) ensures Under(JoinGlue(p), x) {
      LevelFields(s, c, p, o, f);
      LevelEntriesNamed(s, c, o, f);
      if x in Get(Cleared(level), f) {
        assert x in Get(level, f);
        PrependPathShape(LevelEntries(s, c, o, f), p);
        var n :| n in LevelEntries(s, c, o, f) && x == Qualify(p, n);
        QualifyGlue(p, n);
      } else {
        var d :| d in cs && x in Get(d, f);
        var k :| k in keys && d == Contribution(s, c, p, o, k);
        var child := FullDiff(s.subdirs[k], c.subdirs[k], Qualify(p, k), o);
        QualifyGlue(p, k);
        if child.IsTruthy() {
          EntriesUnder(s.subdirs[k], c.subdirs[k], Qualify(p, k), o);
          GlueOfQualified(p, k);
          UnderLonger(JoinGlue(p), k + "/", x);
        } else {
          FalsyContribution(s, c, p, o, k);
        }
      }
    }
  }

  /** The path of one name is never below the directory of another name in the same parent. */
  lemma {:induction false} SiblingNotBelow(g: string, j: string, k: string)
    requires IsName(j) && IsName(k)
    ensures !Under(g + (j + "/"), g + k)
  {
    var pre, x := g + (j + "/"), g + k;
    if |x| > |pre| {
      assert pre[|g| + |j|] == '/';
      assert x[|g| + |j|] == k[|j|] != '/';
      assert x[..|pre|][|g| + |j|] != pre[|g| + |j|];
    }
  }

  /** The level's own shared subdirectories are cleared: every shared subdirectory comes from a child. */
  lemma SharedFromChildren(s: Dir, c: Dir, p: string, o: Oracle)
    ensures FullDiff(s, c, p, o).subdirs.shared
         == Flatten(Contributions(s, c, p, o, s.subdirs.Keys * c.subdirs.Keys)).subdirs.shared
  {
  }

  /** A child's path is never an entry of a truthy child diff, its own or a sibling's. */
  lemma ChildPathNotBelowChild(s: Dir, c: Dir, p: string, o: Oracle, k: string, j: string)
    requires WellNamed(s) && WellNamed(c)
    requires k in s.subdirs && j in s.subdirs && j in c.subdirs
    ensures forall f :: Qualify(p, k) !in Get(FullDiff(s.subdirs[j], c.subdirs[j], Qualify(p, j), o), f)
  {
    EntriesUnder(s.subdirs[j], c.subdirs[j], Qualify(p, j), o);
    GlueOfQualified(p, j);
    QualifyGlue(p, k);
    SiblingNotBelow(JoinGlue(p), j, k);
  }

  /**
   * A subdirectory present on both sides appears under `subdirs.shared`
   * exactly when its whole subtree agrees: a differing subtree is reported
   * through its entries instead.
   */
  lemma SharedChildListedIffAgree(s: Dir, c: Dir, p: string, o: Oracle, k: string)
    requires WellNamed(s) && WellNamed(c) && k in s.subdirs && k in c.subdirs
    ensures Qualify(p, k) in FullDiff(s, c, p, o).subdirs.shared <==> Agree(s.subdirs[k], c.subdirs[k], o)
  {
    FalsyIffAgree(s.subdirs[k], c.subdirs[k], Qualify(p, k), o);
    if Qualify(p, k) in FullDiff(s, c, p, o).subdirs.shared {
      ListedChildIsFalsy(s, c, p, o, k);
    }
    if Agree(s.subdirs[k], c.subdirs[k], o) {
      FalsyChildIsListed(s, c, p, o, k);
    }
  }

  /**
   * Every entry of the parent's `subdirs.shared` comes from one common child:
   * a truthy child that lists it itself, or a falsy child whose own path it is.
   */
  lemma SharedEntryWitness(s: Dir, c: Dir, p: string, o: Oracle, x: string) returns (j: string)
    requires x in FullDiff(s, c, p, o).subdirs.shared
    ensures j in s.subdirs && j in c.subdirs
    ensures var child := FullDiff(s.subdirs[j], c.subdirs[j], Qualify(p, j), o);
      if child.IsTruthy() then x in Get(child, SubdirsShared) else x == Qualify(p, j)
  {
    var cs := Contributions(s, c, p, o, s.subdirs.Keys * c.subdirs.Keys);
    SharedFromChildren(s, c, p, o);
    FlattenWitness(cs, SubdirsShared, x);
    var d :| d in cs && x in Get(d, SubdirsShared);
    j :| j in s.subdirs.Keys * c.subdirs.Keys && d == Contribution(s, c, p, o, j);
    if !FullDiff(s.subdirs[j], c.subdirs[j], Qualify(p, j), o).IsTruthy() {
      FalsyContribution(s, c, p, o, j);
    }
  }

  lemma ListedChildIsFalsy(s: Dir, c: Dir, p: string, o: Oracle, k: string)
    requires WellNamed(s) && WellNamed(c) && k in s.subdirs && k in c.subdirs
    requires Qualify(p, k) in FullDiff(s, c, p, o).subdirs.shared
    ensures !FullDiff(s.subdirs[k], c.subdirs[k], Qualify(p, k), o).IsTruthy()
  {
    var j := SharedEntryWitness(s, c, p, o, Qualify(p, k));
    ChildPathNotBelowChild(s, c, p, o, k, j);
    if !FullDiff(s.subdirs[j], c.subdirs[j], Qualify(p, j), o).IsTruthy() {
      QualifyInjective(p, k, j);
    }
  }

  lemma FalsyChildIsListed(s: Dir, c: Dir, p: string, o: Oracle, k: string)
    requires k in s.subdirs && k in c.subdirs
    requires !FullDiff(s.subdirs[k], c.subdirs[k], Qualify(p, k), o).IsTruthy()
    ensures Qualify(p, k) in FullDiff(s, c, p, o).subdirs.shared
  {
    var cs := Contributions(s, c, p, o, s.subdirs.Keys * c.subdirs.Keys);
    SharedFromChildren(s, c, p, o);
    FalsyContribution(s, c, p, o, k);
    assert Contribution(s, c, p, o, k) in cs;
    FlattenMembers(cs);
  }

  /**
   * Two trees that agree everywhere give a diff whose only entries are the
   * top level's matching files and the top level's subdirectories, each
   * listed once under `shared`: nothing below the top level is reported.
   */
  lemma AgreeingTreesCollapse(s: Dir, c: Dir, p: string, o: Oracle)
    requires Agree(s, c, o)
    ensures FullDiff(s, c, p, o)
         == Diff(FileSets({}, {}, {}, PrependPath(Verdicts(s, c, o, Match), p)),
                 SubdirSets({}, {}, PrependPath(s.subdirs.Keys, p)))
  {
    var keys := s.subdirs.Keys * c.subdirs.Keys;
    var cs := Contributions(s, c, p, o, keys);
    var level := CompareDirs(s, c, p, o);
    var r := FullDiff(s, c, p, o);
    var expected := Diff(FileSets({}, {}, {}, PrependPath(Verdicts(s, c, o, Match), p)),
                         SubdirSets({}, {}, PrependPath(s.subdirs.Keys, p)));
    assert IsPath(s, []) && IsPath(c, []);
    assert LevelAgrees(s, c, o);
    assert keys == s.subdirs.Keys;
    forall k | k in keys
      ensures Contribution(s, c, p, o, k) == SharedOnly(Qualify(p, k))
    {
      AgreeChild(s, c, o, k);
      FalsyIffAgree(s.subdirs[k], c.subdirs[k], Qualify(p, k), o);
    }
    GetUnion(Cleared(level), Flatten(cs));
    FlattenMembers(cs);
    forall f ensures Get(r, f) == Get(expected, f) {
      LevelFields(s, c, p, o, f);
      if f == SubdirsShared {
        forall x | x in Get(expected, f) ensures x in Get(r, f) {
          var k :| k in keys && x == Qualify(p, k);
          assert SharedOnly(Qualify(p, k)) in cs;
        }
      }
    }
    Extensionality(r, expected);
  }
}
