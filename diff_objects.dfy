/**
 * The mutable diff records of hearth/dir/diff.py (the same three classes,
 * field for field, appear in hearth/dirdiff.py). `__or__` updates the left
 * operand in place and returns it, so `a |= b` leaves `a`'s fields equal to
 * the unions and `b` as it was. The `__bool__` of each class reads its fields.
 */
module DiffObjects {
  import opened DiffValues

  class FilesDiff {
    var changed: set<string>
    var missing: set<string>
    var added: set<string>
    var shared: set<string>

    function Value(): FileSets
      reads this
    {
      FileSets(changed, missing, added, shared)
    }

    constructor (v: FileSets)
      ensures Value() == v
    {
      changed, missing, added, shared := v.changed, v.missing, v.added, v.shared;
    }

    /** `__or__`: each field of `this` absorbs the corresponding field of `other`. */
    method Or(other: FilesDiff)
      modifies this
      ensures Value() == old(Value()).Union(old(other.Value()))
    {
      changed := changed + other.changed;
      missing := missing + other.missing;
      added := added + other.added;
      shared := shared + other.shared;
    }

    predicate IsTruthy()
      reads this
      ensures IsTruthy() <==> Value().IsTruthy()
    {
      changed != {} || missing != {} || added != {}
    }
  }

  class SubdirDiff {
    var missing: set<string>
    var added: set<string>
    var shared: set<string>

    function Value(): SubdirSets
      reads this
    {
      SubdirSets(missing, added, shared)
    }

    constructor (v: SubdirSets)
      ensures Value() == v
    {
      missing, added, shared := v.missing, v.added, v.shared;
    }

    method Or(other: SubdirDiff)
      modifies this
      ensures Value() == old(Value()).Union(old(other.Value()))
    {
      missing := missing + other.missing;
      added := added + other.added;
      shared := shared + other.shared;
    }

    /** `self.subdirs.shared.clear()`. */
    method ClearShared()
      modifies this
      ensures Value() == old(Value()).(shared := {})
    {
      shared := {};
    }

    /** `self.subdirs.shared.add(name)`. */
    method AddShared(name: string)
      modifies this
      ensures Value() == old(Value()).(shared := old(shared) + {name})
    {
      shared := shared + {name};
    }

    predicate IsTruthy()
      reads this
      ensures IsTruthy() <==> Value().IsTruthy()
    {
      missing != {} || added != {}
    }
  }

  class DirDiff {
    const files: FilesDiff
    const subdirs: SubdirDiff

    function Value(): Diff
      reads this, files, subdirs
    {
      Diff(files.Value(), subdirs.Value())
    }

    /** `DirDiff(files=FilesDiff(...), subdirs=SubdirDiff(...))` with fresh records, as `_compare_dirs` builds it. */
    constructor (v: Diff)
      ensures fresh(files) && fresh(subdirs)
      ensures Value() == v
    {
      files := new FilesDiff(v.files);
      subdirs := new SubdirDiff(v.subdirs);
    }

    /** `__or__`: delegates to the two records; `other` keeps its value unless it shares them. */
    method Or(other: DirDiff)
      modifies files, subdirs
      ensures Value() == old(Value()).Union(old(other.Value()))
      ensures other.files != files && other.subdirs != subdirs ==> other.Value() == old(other.Value())
    {
      files.Or(other.files);
      subdirs.Or(other.subdirs);
    }

    predicate IsTruthy()
      reads this, files, subdirs
      ensures IsTruthy() <==> Value().IsTruthy()
    {
      files.IsTruthy() || subdirs.IsTruthy()
    }
  }
}
