/**
 * The values held by the diff records of hearth/dir/diff.py (and, with the
 * same fields, hearth/dirdiff.py): what a FilesDiff, a SubdirDiff and a
 * DirDiff contain at one moment. The mutable records themselves are the
 * classes of module DiffObjects; these datatypes are their abstract values
 * and what the pure per-level functions compute.
 *
 * The Python field `new` is spelled `added` here (`new` is a Dafny keyword).
 */
module DiffValues {

  datatype FileSets = FileSets(changed: set<string>, missing: set<string>, added: set<string>, shared: set<string>)
  {
    /** `FilesDiff.__or__`, as a value: every field is the union of both operands' fields. */
    function Union(other: FileSets): FileSets {
      FileSets(changed + other.changed, missing + other.missing, added + other.added, shared + other.shared)
    }

    /** `FilesDiff.__bool__` of hearth/dir/diff.py: `shared` does not count. */
    predicate IsTruthy() {
      changed != {} || missing != {} || added != {}
    }
  }

  datatype SubdirSets = SubdirSets(missing: set<string>, added: set<string>, shared: set<string>)
  {
    /** `SubdirDiff.__or__`, as a value. */
    function Union(other: SubdirSets): SubdirSets {
      SubdirSets(missing + other.missing, added + other.added, shared + other.shared)
    }

    /** `SubdirDiff.__bool__` of hearth/dir/diff.py: `shared` does not count. */
    predicate IsTruthy() {
      missing != {} || added != {}
    }
  }

  datatype Diff = Diff(files: FileSets, subdirs: SubdirSets)
  {
    /** `DirDiff.__or__`, as a value. */
    function Union(other: Diff): Diff {
      Diff(files.Union(other.files), subdirs.Union(other.subdirs))
    }

    /** `DirDiff.__bool__` of hearth/dir/diff.py. */
    predicate IsTruthy() {
      files.IsTruthy() || subdirs.IsTruthy()
    }
  }

  const EmptyFiles := FileSets({}, {}, {}, {})
  const EmptySubdirs := SubdirSets({}, {}, {})
  const Empty := Diff(EmptyFiles, EmptySubdirs)

  /** The seven sets of a diff, named so that lemmas can speak of all of them at once. */
  datatype Field =
    | FilesChanged | FilesMissing | FilesNew | FilesShared
    | SubdirsMissing | SubdirsNew | SubdirsShared

  function Get(d: Diff, f: Field): set<string> {
    match f
    case FilesChanged => d.files.changed
    case FilesMissing => d.files.missing
    case FilesNew => d.files.added
    case FilesShared => d.files.shared
    case SubdirsMissing => d.subdirs.missing
    case SubdirsNew => d.subdirs.added
    case SubdirsShared => d.subdirs.shared
  }

  /** The fields that make a diff truthy in hearth/dir/diff.py: all but the two `shared` sets. */
  predicate Counted(f: Field) {
    f != FilesShared && f != SubdirsShared
  }

  /** Two diffs with the same seven sets are the same diff. */
  lemma Extensionality(a: Diff, b: Diff)
    requires forall f :: Get(a, f) == Get(b, f)
    ensures a == b
  {
    assert Get(a, FilesChanged) == Get(b, FilesChanged);
    assert Get(a, FilesMissing) == Get(b, FilesMissing);
    assert Get(a, FilesNew) == Get(b, FilesNew);
    assert Get(a, FilesShared) == Get(b, FilesShared);
    assert Get(a, SubdirsMissing) == Get(b, SubdirsMissing);
    assert Get(a, SubdirsNew) == Get(b, SubdirsNew);
    assert Get(a, SubdirsShared) == Get(b, SubdirsShared);
  }

  /** Truthiness of hearth/dir/diff.py: some counted field is non-empty. */
  lemma TruthyIffCountedNonEmpty(d: Diff)
    ensures d.IsTruthy() <==> exists f :: Counted(f) && Get(d, f) != {}
  {
    if d.IsTruthy() {
      if d.files.changed != {} { assert Counted(FilesChanged) && Get(d, FilesChanged) != {}; }
      else if d.files.missing != {} { assert Counted(FilesMissing) && Get(d, FilesMissing) != {}; }
      else if d.files.added != {} { assert Counted(FilesNew) && Get(d, FilesNew) != {}; }
      else if d.subdirs.missing != {} { assert Counted(SubdirsMissing) && Get(d, SubdirsMissing) != {}; }
      else { assert Counted(SubdirsNew) && Get(d, SubdirsNew) != {}; }
    }
  }

  /** Each field of a union is the union of the operands' fields. */
  lemma GetUnion(a: Diff, b: Diff)
    ensures forall f :: Get(a.Union(b), f) == Get(a, f) + Get(b, f)
  {
  }

  /** The field-wise union of a whole set of diffs: the result of folding them with `|=` in any order. */
  function Flatten(ds: set<Diff>): Diff {
    Diff(
      FileSets(
        set d, x | d in ds && x in d.files.changed :: x,
        set d, x | d in ds && x in d.files.missing :: x,
        set d, x | d in ds && x in d.files.added :: x,
        set d, x | d in ds && x in d.files.shared :: x),
      SubdirSets(
        set d, x | d in ds && x in d.subdirs.missing :: x,
        set d, x | d in ds && x in d.subdirs.added :: x,
        set d, x | d in ds && x in d.subdirs.shared :: x))
  }

  /** An entry is in a field of the flattened diff exactly when it is in that field of one of the diffs. */
  lemma FlattenMembers(ds: set<Diff>)
    ensures forall f, x :: x in Get(Flatten(ds), f) <==> exists d :: d in ds && x in Get(d, f)
  {
  }

  /** A member of a flattened field was contributed by one of the diffs. */
  lemma FlattenWitness(ds: set<Diff>, f: Field, x: string)
    requires x in Get(Flatten(ds), f)
    ensures exists d :: d in ds && x in Get(d, f)
  {
    FlattenMembers(ds);
  }

  // ----- the union as a value operation -----

  lemma UnionCommutative(a: Diff, b: Diff)
    ensures a.Union(b) == b.Union(a)
  {
    Extensionality(a.Union(b), b.Union(a));
  }

  lemma UnionAssociative(a: Diff, b: Diff, c: Diff)
    ensures a.Union(b).Union(c) == a.Union(b.Union(c))
  {
    Extensionality(a.Union(b).Union(c), a.Union(b.Union(c)));
  }

  lemma UnionIdempotent(a: Diff)
    ensures a.Union(a) == a
  {
    Extensionality(a.Union(a), a);
  }

  /** A union is truthy exactly when one of its operands is. */
  lemma UnionTruthy(a: Diff, b: Diff)
    ensures a.Union(b).IsTruthy() <==> a.IsTruthy() || b.IsTruthy()
  {
  }

  lemma FlattenEmpty()
    ensures Flatten({}) == Empty
  {
    Extensionality(Flatten({}), Empty);
  }

  /** Folding one more diff into a flattened set is flattening the larger set. */
  lemma FlattenInsert(ds: set<Diff>, d: Diff)
    ensures Flatten(ds + {d}) == Flatten(ds).Union(d)
  {
    Extensionality(Flatten(ds + {d}), Flatten(ds).Union(d));
  }

  /** Folding one more diff into an accumulator that already holds a flattened set. */
  lemma FoldStep(acc: Diff, ds: set<Diff>, d: Diff)
    ensures acc.Union(Flatten(ds)).Union(d) == acc.Union(Flatten(ds + {d}))
  {
    FlattenInsert(ds, d);
    UnionAssociative(acc, Flatten(ds), d);
  }

  lemma FlattenUnion(ds: set<Diff>, es: set<Diff>)
    ensures Flatten(ds + es) == Flatten(ds).Union(Flatten(es))
  {
    Extensionality(Flatten(ds + es), Flatten(ds).Union(Flatten(es)));
  }

  lemma FlattenSingle(d: Diff)
    ensures Flatten({d}) == d
  {
    Extensionality(Flatten({d}), d);
  }

  /** Union with the empty diff changes nothing. */
  lemma UnionEmpty(a: Diff)
    ensures a.Union(Empty) == a && Empty.Union(a) == a
  {
    Extensionality(a.Union(Empty), a);
    Extensionality(Empty.Union(a), a);
  }
}
