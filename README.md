# hearth: directory comparison, modelled in Dafny

hearth backs up a directory by comparing it with an older copy. The
comparison works on snapshots of the two trees. A snapshot (`Dir`) is a
directory's name, its full path, the names of its regular files, and a map
from each subdirectory name to that subdirectory's snapshot.

The model covers these parts:

- **Data** (`data.dfy`, hearth/dir/data.py):
  - the `Dir` record, whose `==` and `<` look only at `dirname`;
  - `loaded_dir`, over an abstract file-system tree (`FsEntry`) in place of `listdir`/`isdir`/`isfile`;
  - `dir_walk`, the breadth-first walk driven by a queue. It is a `while` loop over a queue of snapshots and returns the nodes it hands to `func`, in order.
- **The current engine** (`diff_values.dfy`, `diff_objects.dfy`, `diff.dfy`, `diff_properties.dfy`, hearth/dir/diff.py):
  - **The three mutable diff records.** `FilesDiff` has `changed`/`missing`/`new`/`shared`; `SubdirDiff` has `missing`/`new`/`shared`; `DirDiff` has `files`/`subdirs`. They are classes whose in-place `|=` (`Or`), `clear` and `add` are methods. Each class's abstract value is a datatype (`FileSets`, `SubdirSets`, `Diff`). `new` is spelled `added`, because `new` is a Dafny keyword.
  - **One level.** `_prepend_path`, `_compare_files`, `_compare_subdirs` and `_compare_dirs` are functions.
  - **The whole tree.** `_full_diff_helper` is a method. It clears the level's shared subdirectories, then loops over them in whatever order the set gives, and either merges a truthy child diff or lists the child's path as shared. It is proved equal to `Diff.FullDiff`, a declarative description of the result.
  - **Proved about `FullDiff`:**
    - an entry is reported exactly where a level below puts it, under the full relative path;
    - the result is falsy exactly when the trees agree at every common position;
    - a shared child is listed exactly when its own subtree agrees;
    - agreeing trees collapse to the top level's shared names.
- **The older engine** (`legacy_diff.dfy`, hearth/dirdiff.py):
  - **Shared per-level code.** Its `Dir`, its three diff classes (except `__bool__`) and its per-level functions are identical to the current ones, so the model uses them once.
  - **The walk.** `_diff_walk` is a method that returns the sequence the generator yields: the level diff first, then each shared child's walk.
  - **The fold.** `reduce(operator.or_, ...)` is a loop of `Or` calls.
  - **Proved:** the result is the union of the level diffs of every pair reachable through shared names, and it agrees with the current engine on `changed`/`missing`/`new`. Shared entries of every level survive, and the field objects' `__bool__` counts them. `DirDiff.__bool__` returns one of the two field objects instead of a bool, so Python's truth test raises `TypeError` on every legacy `DirDiff`. The model states this and proves the intended truth test separately (see Findings).
- **The Go comparator** (`compare.dfy`, cli/actions/compare.go):
  - `StringHeap` is a class over a sequence, with `Len`, `Less`, `Swap`, `Push` and `Pop`.
  - `heap.Push`/`heap.Pop` are modelled up to their sifting.
  - The `prettyPrintWithPreface` drain loop returns the lines it would print.
  - `compareDirectories` takes the two directory listings, each with the error of its walk. It partitions the keys into three heaps with two loops.
- **The Go tree builder** (`dirops.dfy`, cli/actions/dirops.go):
  - `DirTree` is a class whose maps `AddPathTree` updates in place; `PathTree` is a value.
  - `ToDirTree` is a function over Go's possibly-nil maps, so its stores into the nil maps of a fresh `DirTree` show up as panics.
  - `CompareDirTrees` is the stub it is.

Supporting modules:

- `wrappers.dfy`: `Option`/`Result`.
- `ospath.dfy`: `os.path.join` and `basename` on `/`-separated paths.
- `string_order.dfy`: Go's `<` on strings.

**Content comparison.** `filecmp.cmpfiles(..., shallow=False)` is an oracle of type `(string, string) -> Verdict`. It is applied to `join(dir.fullpath, name)` on both sides, and `Verdict` is `Match | Mismatch | Failed`. Names whose comparison fails land in no field, because the code discards `cmpfiles`' third result (hearth/dir/diff.py:94-96). So a file that cannot be read on either side is reported neither as changed nor as shared.

**Names.** The engine finds a child by the basename of its prefixed path. So the engines require `KeysNamed`: every subdirectory key, at every level, is a non-empty name without `/`. The properties of the result also use `WellNamed`, which asks the same of file names. `Data.LoadedTreeWellNamed` proves that the loader builds well-named snapshots from a file system whose entry names are names, and `Data.WellNamedKeysNamed` that such snapshots meet `KeysNamed`.

## Model

| member | source | states |
|---|---|---|
| OsPath.Join | hearth/dir/diff.py:86 | `os.path.join(a, b)`: `b` itself when absolute, otherwise `a`, a `/` unless `a` is empty or already ends in one, then `b` |
| OsPath.Basename | hearth/dir/diff.py:143 | `basename` is the longest suffix without `/`, and the character before it is a `/` |
| OsPath.JoinRelative | hearth/dir/diff.py:86 | joining a name appends it to the glued prefix |
| OsPath.BasenameOfJoin | hearth/dir/diff.py:143-144 | the basename of `join(a, n)` is `n` for every name `n` |
| OsPath.JoinInjective | hearth/dir/diff.py:86 | joining distinct names onto one prefix gives distinct paths |
| StringOrder.LessIrreflexive | cli/actions/compare.go:48 | Go's `<` on strings is irreflexive |
| StringOrder.LessTransitive | cli/actions/compare.go:48 | Go's `<` on strings is transitive |
| StringOrder.LessTrichotomy | cli/actions/compare.go:48 | two strings are equal or exactly one is less than the other |
| Data.DirEqIgnoresContents | hearth/dir/data.py:26-30 | two `Dir`s with the same `dirname` are `==` and neither is `<` the other, whatever their paths, files and subdirectories |
| Data.DirOrderIsStrictTotal | hearth/dirdiff.py:29-33 | `<` on `Dir` is irreflexive and transitive, and for any two `Dir`s exactly one of `==`, `<`, `>` holds |
| Data.Load | hearth/dir/data.py:34-40 | a loaded node has `dirname` = basename(path) and `fullpath` = path; `files` holds exactly the regular-file entries and `subdirs` exactly the directory entries; each child is loaded from `join(path, name)` |
| Data.LoadedDir | hearth/dir/data.py:34-35 | loading fails when `listdir` fails (not a directory, or not readable) and otherwise is `Load` |
| Data.LoadedTreeWellNamed | hearth/dir/data.py:37-40 | a loaded tree is `WellNamed`, and each child is keyed by its own `dirname`, with `fullpath` = `join(path, name)` |
| Data.WellNamedKeysNamed | hearth/dir/diff.py:143-144 | a well-named snapshot has plain names as keys at every level, which is what the lookup by basename needs |
| Data.Paths | hearth/dir/data.py:53-54 | the set of positions of a finite tree contains the root, and every member is a position of the tree |
| Data.PathsComplete | hearth/dir/data.py:53-54 | every position of the tree is in `Paths` |
| Data.PathExtend | hearth/dir/data.py:53-54 | a position extends by `k` exactly when `k` is a subdirectory there, and leads to that subdirectory |
| Data.ParentIsPath | hearth/dir/data.py:53-54 | the parent of a position is a position that has it as a child |
| Data.PrefixIsPath | hearth/dir/data.py:53-54 | every prefix of a position is a position |
| Data.ClosedSetHasAllPaths | hearth/dir/data.py:53-54 | a set of positions holding the root and closed under taking children holds every position |
| Data.KeysInSomeOrder | hearth/dir/data.py:53 | iterating `subdirs` visits each key exactly once |
| Data.TracksAppend | hearth/dir/data.py:54 | appending two node/position queues that match the tree gives a matching queue |
| Data.ChildrenTracked | hearth/dir/data.py:53-54 | the children enqueued for a node sit at that node's position extended by their keys |
| Data.ChildrenAreNew | hearth/dir/data.py:48-54 | the node taken from the queue has not been visited, and its children are new positions |
| Data.StepKeepsDepthOrder | hearth/dir/data.py:48-54 | one step of the loop keeps the visit order and the queue sorted by depth |
| Data.StepKeepsParents | hearth/dir/data.py:48-54 | one step of the loop keeps every visited node's parent visited before it and every child of a visited node visited or queued |
| Data.StepParentsVisited | hearth/dir/data.py:49-54 | after a step every seen path, the newly enqueued children included, has its parent visited |
| Data.StepParentsFirst | hearth/dir/data.py:49-51 | visiting a node whose parent was visited keeps every parent before its children in the visit order |
| Data.StepChildrenSeen | hearth/dir/data.py:53-54 | after a step every child of a visited node, the new one included, is visited or queued |
| Data.VisitShrinks | hearth/dir/data.py:48-49 | visiting a new position shrinks the set of unvisited positions, so the loop ends |
| Data.WalkStep | hearth/dir/data.py:48-54 | one iteration of the `while` loop keeps the walk invariant |
| Data.DirWalk | hearth/dir/data.py:43-54 | `func` is applied first to the root, exactly once to every node of the tree, breadth-first and with every parent before its children |
| DiffValues.Extensionality | hearth/dir/diff.py:68-71 | two diffs with the same seven sets are equal |
| DiffValues.TruthyIffCountedNonEmpty | hearth/dir/diff.py:40-45 | a diff is truthy exactly when some `changed`/`missing`/`new` set is non-empty; `shared` never counts |
| DiffValues.GetUnion | hearth/dir/diff.py:73-77 | each field of the merge `__or__` computes is the union of the two operands' fields |
| DiffValues.FlattenMembers | hearth/dir/diff.py:150 | an entry is in a field of the merge of a set of diffs exactly when it is in that field of one of them |
| DiffValues.FlattenWitness | hearth/dir/diff.py:150 | an entry of the merge comes from one of the merged diffs |
| DiffValues.UnionCommutative | hearth/dir/diff.py:73-77 | `__or__` on diff values is commutative |
| DiffValues.UnionAssociative | hearth/dir/diff.py:73-77 | `__or__` on diff values is associative |
| DiffValues.UnionIdempotent | hearth/dir/diff.py:73-77 | `__or__` on diff values is idempotent |
| DiffValues.UnionTruthy | hearth/dir/diff.py:79-80 | a merge is truthy exactly when one of its operands is |
| DiffValues.FlattenEmpty | hearth/dir/diff.py:137-140 | merging no diffs gives the empty diff |
| DiffValues.FlattenInsert | hearth/dir/diff.py:150 | merging one more diff is one more `__or__` |
| DiffValues.FoldStep | hearth/dir/diff.py:150 | folding one more diff into an accumulated merge adds it to the merged set |
| DiffValues.FlattenUnion | hearth/dir/diff.py:150 | merging two sets of diffs is the `__or__` of the two merges |
| DiffValues.FlattenSingle | hearth/dirdiff.py:180-183 | merging a single diff gives that diff |
| DiffValues.UnionEmpty | hearth/dir/diff.py:73-77 | the empty diff is the unit of `__or__` |
| DiffObjects.FilesDiff.constructor | hearth/dir/diff.py:25-30 | a new `FilesDiff` holds exactly the given sets |
| DiffObjects.FilesDiff.Or | hearth/dir/diff.py:32-38 | the in-place `__or__` makes each field of `self` the union of both fields |
| DiffObjects.FilesDiff.IsTruthy | hearth/dir/diff.py:40-45 | `bool(FilesDiff)` is the truthiness of its value: some `changed`/`missing`/`new` name |
| DiffObjects.SubdirDiff.constructor | hearth/dir/diff.py:48-52 | a new `SubdirDiff` holds exactly the given sets |
| DiffObjects.SubdirDiff.Or | hearth/dir/diff.py:54-59 | the in-place `__or__` makes each field of `self` the union of both fields |
| DiffObjects.SubdirDiff.ClearShared | hearth/dir/diff.py:140 | `shared.clear()` empties `shared` and nothing else |
| DiffObjects.SubdirDiff.AddShared | hearth/dir/diff.py:152 | `shared.add(x)` adds `x` to `shared` and nothing else |
| DiffObjects.SubdirDiff.IsTruthy | hearth/dir/diff.py:61-65 | `bool(SubdirDiff)` is the truthiness of its value: some `missing`/`new` name |
| DiffObjects.DirDiff.constructor | hearth/dir/diff.py:127-130 | a new `DirDiff` owns fresh field objects holding the given value |
| DiffObjects.DirDiff.Or | hearth/dir/diff.py:73-77 | the in-place `__or__` merges field by field and leaves `other` unchanged when the two share no field object |
| DiffObjects.DirDiff.IsTruthy | hearth/dir/diff.py:79-80 | `bool(DirDiff)` is the truthiness of its value |
| Diff.PrependPathShape | hearth/dir/diff.py:83-88 | `_prepend_path` holds the qualified path of every name and nothing else; it is empty only for no names |
| Diff.QualifyGlue | hearth/dir/diff.py:86-88 | the qualified path of a name is the glued prefix followed by the name, or the name itself under an empty prefix |
| Diff.QualifyBasename | hearth/dirdiff.py:169 | the basename of a prefixed name recovers the name, as the child lookup needs |
| Diff.QualifyInjective | hearth/dir/diff.py:83-88 | `_prepend_path` maps distinct names to distinct paths |
| Diff.PrependPathMembers | hearth/dir/diff.py:83-88 | a name's qualified path is in the prepended set exactly when the name is in the original set |
| Diff.Verdicts | hearth/dir/diff.py:95-99 | the names `cmpfiles` reports with a verdict are exactly the common files whose comparison gives that verdict |
| Diff.LevelTruthiness | hearth/dir/diff.py:124-130 | a level's files diff is falsy exactly when both sides hold the same files and none differs in content; its subdirectory diff is falsy exactly when both hold the same children |
| Diff.LevelFields | hearth/dir/diff.py:101-121 | each field of `_compare_dirs` is the prepended set of its names |
| Diff.SharedOnly | hearth/dir/diff.py:152 | a diff with one shared subdirectory and nothing else is falsy |
| Diff.AddSharedIsUnion | hearth/dir/diff.py:152 | adding a shared path is a merge with a diff that holds only that path |
| Diff.MinusStep | hearth/dir/diff.py:142 | removing one more visited key from the unvisited keys |
| Diff.PrependPathRemove | hearth/dir/diff.py:142-143 | the paths still to visit are the prefixed unvisited keys |
| Diff.ContributionsInsert | hearth/dir/diff.py:142-152 | merging one more child's contribution is merging the contributions of one more key |
| Diff.LoopStep | hearth/dir/diff.py:142-152 | one iteration of the loop turns the merge of the visited keys' contributions into that of one more key |
| Diff.FullDiffHelper | hearth/dir/diff.py:133-154 | `_full_diff_helper` returns fresh objects whose value is `FullDiff` |
| Diff.MergeSharedSubdirs | hearth/dir/diff.py:142-152 | the loop, in any order, merges each truthy child diff and lists each falsy child's path as shared |
| Diff.FullDiffDirs | hearth/dir/diff.py:157-163 | `full_diff_dirs` is `FullDiff` at the empty prefix |
| DiffProperties.CompareFilesClassifies | hearth/dir/diff.py:91-106 | each file name is in `missing` exactly when only the source has it, in `new` exactly when only the other side has it, in `changed`/`shared` exactly when both have it and the contents differ/match; a failed comparison puts it nowhere |
| DiffProperties.CompareSubdirsClassifies | hearth/dir/diff.py:109-121 | each subdirectory name is in exactly the field its presence on the two sides calls for |
| DiffProperties.LevelAgreesIffNoEntries | hearth/dir/diff.py:124-130 | a level agrees exactly when it contributes no `changed`/`missing`/`new` name |
| DiffProperties.DescendReports | hearth/dir/diff.py:144-147 | what a shared child reports at a position, its parent reports one level deeper |
| DiffProperties.FalsyContribution | hearth/dir/diff.py:151-152 | a falsy child contributes only its own path, as shared |
| DiffProperties.ContributionCounted | hearth/dir/diff.py:149-150 | in the counted fields a child contributes exactly its own diff |
| DiffProperties.ReportsAtRoot | hearth/dir/diff.py:137 | the level's own entries are reported at the empty position |
| DiffProperties.CountedEntryOrigin | hearth/dir/diff.py:149-150 | a counted entry not from the level itself comes from some shared child's diff |
| DiffProperties.ReportedEntriesSound | hearth/dir/diff.py:133-154 | every `changed`/`missing`/`new` entry of the result is a name some level below reports, under its full relative path |
| DiffProperties.ReportedEntriesComplete | hearth/dir/diff.py:133-154 | every `changed`/`missing`/`new` name of every common position appears in the result under its full relative path |
| DiffProperties.ReportedEntries | hearth/dir/diff.py:133-154 | a `changed`/`missing`/`new` entry is in the result exactly when some common position reports it, so a difference k levels down carries the full prefix |
| DiffProperties.FalsyIffAgree | hearth/dir/diff.py:133-154 | the result is falsy exactly when the two trees agree at every position they share |
| DiffProperties.AgreeChild | hearth/dir/diff.py:144-147 | agreement passes down to every shared child |
| DiffProperties.UnderLonger | hearth/dir/diff.py:146 | an entry under a longer prefix is under the shorter one |
| DiffProperties.LevelEntriesNamed | hearth/dir/diff.py:95-120 | every name a level reports is a plain name |
| DiffProperties.GlueOfQualified | hearth/dir/diff.py:146 | the glued form of a child's path is the parent's glued form, the name and a `/` |
| DiffProperties.EntriesUnder | hearth/dir/diff.py:133-154 | every entry of the result lies under the prefix it was computed at |
| DiffProperties.SiblingNotBelow | hearth/dir/diff.py:146 | a sibling's path never lies under another sibling's prefix |
| DiffProperties.SharedFromChildren | hearth/dir/diff.py:139-152 | the level's own shared subdirectories are cleared; every shared subdirectory comes from a child |
| DiffProperties.ChildPathNotBelowChild | hearth/dir/diff.py:146-150 | a child's path is never an entry of its own or a sibling's diff |
| DiffProperties.SharedChildListedIffAgree | hearth/dir/diff.py:149-152 | a shared child's path is listed in `subdirs.shared` exactly when its subtree agrees |
| DiffProperties.SharedEntryWitness | hearth/dir/diff.py:149-152 | every shared entry is a falsy child's path or an entry of a truthy child's diff |
| DiffProperties.ListedChildIsFalsy | hearth/dir/diff.py:149-152 | a shared child listed in the result has a falsy diff |
| DiffProperties.FalsyChildIsListed | hearth/dir/diff.py:151-152 | a shared child with a falsy diff is listed in the result |
| DiffProperties.AgreeingTreesCollapse | hearth/dir/diff.py:133-154 | when the trees agree everywhere, the result holds only the top level's matching files and the top level's subdirectory names, as shared |
| LegacyDiff.LegacyDirBoolReturn | hearth/dirdiff.py:95-96 | `DirDiff.__bool__` returns the `files` object when that is truthy and the `subdirs` object otherwise, never a bool |
| LegacyDiff.TruthTest | hearth/dirdiff.py:95-96 | Python's truth test succeeds exactly when `__bool__` returned a bool, and then gives that bool |
| LegacyDiff.LegacyBoolRaises | hearth/dirdiff.py:95-96 | the truth test of every legacy `DirDiff`, the empty one included, raises `TypeError` |
| LegacyDiff.IntendedBoolIsReturnedTruth | hearth/dirdiff.py:95-96 | coercing the returned object with `bool(...)` gives the intended answer: one of the two field objects is truthy |
| LegacyDiff.LegacyTruthyIffSomeField | hearth/dirdiff.py:54-81 | one of the two legacy field objects is truthy (their `__bool__` counts `shared`) exactly when one of the seven sets is non-empty; this holds whenever the current `__bool__` is true, and also for a diff holding only a shared entry |
| LegacyDiff.ChildWalksAppend | hearth/dirdiff.py:168-173 | appending one more shared child's walk extends the walks of the children done so far |
| LegacyDiff.DiffWalk | hearth/dirdiff.py:159-173 | `_diff_walk` yields the level diff first, then, for each shared subdirectory in some order, that child's walk |
| LegacyDiff.TailOfAppend | hearth/dirdiff.py:170 | the part of the walk after the first yield grows by each child's walk |
| LegacyDiff.ElemsPrefix | hearth/dirdiff.py:180-183 | the diffs folded so far grow by the next yielded one |
| LegacyDiff.ChildLevelsInsert | hearth/dirdiff.py:168-173 | the levels below one more shared child are those of the child added to those so far |
| LegacyDiff.WalkLevels | hearth/dirdiff.py:159-173 | whatever the sibling order, a walk yields exactly the level diffs of the pairs reachable through shared names |
| LegacyDiff.ChildWalkLevels | hearth/dirdiff.py:168-173 | the walks of the shared children yield exactly the levels below them |
| LegacyDiff.Reduce | hearth/dirdiff.py:180-183 | `reduce(operator.or_, walk)` is the field-wise union of every yielded diff |
| LegacyDiff.LegacyFullDiffDirs | hearth/dirdiff.py:176-183 | `full_diff_dirs` is the field-wise union of the level diffs of every pair reachable through shared names |
| LegacyDiff.LegacyStep | hearth/dirdiff.py:163-173 | an entry of the legacy result is in the level's own diff or in the legacy result of a shared child |
| LegacyDiff.LegacyEntriesSound | hearth/dirdiff.py:176-183 | every entry of the legacy result, `shared` included, is reported by some common position under its full path |
| LegacyDiff.LegacyEntriesComplete | hearth/dirdiff.py:176-183 | every name every common position reports, `shared` included, is in the legacy result under its full path |
| LegacyDiff.LegacyReportedEntries | hearth/dirdiff.py:176-183 | an entry is in a field of the legacy result exactly when some common position reports it: shared entries of every level survive |
| LegacyDiff.EnginesAgreeOnCounted | hearth/dirdiff.py:176-183 | on `changed`/`missing`/`new` the two engines give the same sets |
| LegacyDiff.LevelEmptyIff | hearth/dirdiff.py:150-156 | a level diff is empty in every field exactly when neither side has a subdirectory, both hold the same files, and every comparison fails |
| LegacyDiff.LevelInLegacy | hearth/dirdiff.py:163-166 | the level's own diff survives into the legacy result |
| LegacyDiff.LegacyFalsyIff | hearth/dirdiff.py:54-81 | both field objects of the legacy result are falsy exactly when neither root has a subdirectory, both hold the same files and every content comparison fails; the intended `DirDiff` truth test is false exactly then |
| LegacyDiff.LegacyKeepsSharedFiles | test/test_dirdiff.py:148-169 | for two trees holding a subdirectory `a` with the same file `f`, the legacy result lists `a/f` as shared and so differs from the test's expectation |
| LegacyDiff.CurrentCollapsesSameContents | test/test_dirdiff.py:148-169 | the current engine returns exactly the test's expectation for the same trees: only `a`, as shared |
| Compare.StringHeap.constructor | cli/actions/compare.go:99-102 | a new heap is empty |
| Compare.StringHeap.Swap | cli/actions/compare.go:49 | `Swap(i, j)` exchanges two elements and keeps the contents |
| Compare.StringHeap.Push | cli/actions/compare.go:51-53 | `Push` appends at the end |
| Compare.StringHeap.Pop | cli/actions/compare.go:55-60 | `Pop` removes and returns the last element |
| Compare.HeapPush | cli/actions/compare.go:106 | `heap.Push` adds exactly one copy of the element to the heap's contents |
| Compare.HeapPop | cli/actions/compare.go:81 | `heap.Pop` returns the heap's first element and removes exactly that one copy |
| Compare.IndentedSnoc | cli/actions/compare.go:81 | printing one more popped element adds one more indented line |
| Compare.PrettyPrintWithPreface | cli/actions/compare.go:74-85 | the preface, then "No contents" for an empty heap or one indented line per popped element, each element once; the heap is empty afterwards |
| Compare.DirCompareResult.constructor | cli/actions/compare.go:99 | a new result holds three distinct empty heaps |
| Compare.AddOne | cli/actions/compare.go:106-108 | pushing a new key adds one copy of it |
| Compare.CompareDirectories | cli/actions/compare.go:88-119 | a failed first walk returns its error and an empty result, whatever the second listing holds; a failed second walk returns its error and an empty result; otherwise the three heaps hold the keys only in the first, in both and only in the second, each once |
| Compare.SplitFirstListing | cli/actions/compare.go:104-110 | each key of the first listing goes to exactly one of the first-only and both heaps |
| Compare.CollectSecondOnly | cli/actions/compare.go:112-116 | the to-only heap receives exactly the keys of the second listing the first lacks |
| Compare.FirstListingSplit | cli/actions/compare.go:104-110 | the first-only and both sets are disjoint and together are the first listing's keys |
| Compare.ThreeWayPartition | cli/actions/compare.go:104-116 | for listings whose values are all true, the three sets are the set differences and the intersection of the key sets, pairwise disjoint, together the union of the keys |
| Compare.FalseEntriesOverlap | cli/actions/compare.go:105 | a key mapped to false counts as absent, so it can land in both the first-only and the to-only heap |
| DirOps.ToDirTree | cli/actions/dirops.go:75-93 | `ToDirTree` is nil for a nil receiver or one without a child, and otherwise panics on its store into a nil map; it never returns a tree |
| DirOps.MarkFileIdempotent | cli/actions/dirops.go:65-69 | marking a file sets it true; marking it again, or marking a file already true, changes nothing |
| DirOps.Target | cli/actions/dirops.go:42-63 | the node the recursion reaches: it passes every guard, its path element has a child, and that child is not an existing non-nil subdirectory |
| DirOps.AddAt | cli/actions/dirops.go:56-69 | at the reached node, a file child is marked and `Dirs` is kept; a directory child becomes a nil entry; the call panics exactly when the path goes on below that directory |
| DirOps.AddPathTree | cli/actions/dirops.go:41-72 | returns nil on every path. When a guard stops the call, at `dt` or at any node on the way down, nothing changes. Otherwise the recursion through existing subdirectories reaches the `Target` node. That node changes as `AddAt` says and nothing else changes, or the call panics and nothing changes. Every node keeps its `curDir` and its `Repr`, so insertions chain. The one-level cases are also stated directly: a file child of `dt` is marked; an existing directory child keeps `dt`'s own maps; a missing one becomes a nil entry or a panic. The tree stays a tree |
| DirOps.AddBelowExistingChild | cli/actions/dirops.go:57-69 | adding `r/a/f` to a root with an existing empty subdirectory `a` marks `f` in `a` and leaves the root's maps as they were; both nodes keep their names and the tree stays a tree, so a second insertion, of `r/g`, marks `g` in the root |
| DirOps.CompareDirTrees | cli/actions/dirops.go:131-136 | returns nil for all inputs |

## Left out

- The byte comparison of `filecmp.cmpfiles` is an oracle parameter. The model does not read files.
- `listdir`/`isdir`/`isfile` are an abstract file-system tree (`FsEntry`). Symbolic links and entries that change during the walk are not modelled.
- The model follows the code on failed comparisons: such names are dropped, not reported as changed.
- `func` of `dir_walk` is not called. `Data.DirWalk` returns the nodes in the order it would be called on them. Snapshots are values, so the walk cannot modify the tree.
- `Data.DirWalk` iterates the children with `Data.KeysInSomeOrder`, in whatever order the map gives. Python's insertion order is not modelled.
- Diff.FullDiffHelper: requires `KeysNamed(src)` (also `FullDiffDirs`, `LegacyDiff.DiffWalk` and `LegacyDiff.LegacyFullDiffDirs`). The basename lookup finds the right child only when subdirectory keys hold no `/`, which a loaded snapshot always satisfies (`Data.LoadedTreeWellNamed`, `Data.WellNamedKeysNamed`).
- Shared default instances of `FilesDiff()`/`SubdirDiff()` in `DirDiff`'s defaults are not modelled. The engine always builds fresh field objects, and `DiffObjects.DirDiff.constructor` does too.
- The unused `full_paths` parameter is not modelled.
- The loop of `_full_diff_helper` is the method `Diff.MergeSharedSubdirs`, the two loops of `compareDirectories` are `Compare.SplitFirstListing` and `Compare.CollectSecondOnly`, and the walk's loop is `LegacyDiff.DiffWalk`. Set iteration order is left open (`:|`).
- The generator of `_diff_walk` is a method that returns the whole yielded sequence. Laziness is not modelled. The shared names are read before the yielded diff is used, so the consumer's `|=` cannot change what is visited.
- Compare.HeapPush: does not model the sift-up of `container/heap`; it states only the new contents, as a multiset.
- Compare.HeapPop: does not model the sift-down; it states the element returned (the first one) and the remaining contents, as a multiset. So the printed order is not proved sorted.
- Compare.PrettyPrintWithPreface: printing is the returned list of lines. Their order after the first popped line is left open with the heap order.
- `getDirectoryContents` (a `filepath.Walk`) is a `Listing` parameter: a key map and the walk's error.
- `result.prettyPrint` and the command wiring of `NewCompareCommand` are console I/O and are not modelled.
- DirOps.AddPathTree: Dafny maps are never nil, so the panic of a store into a nil `Files`/`Dirs` map of `dt` itself is not modelled. Only `ToDirTree`'s panic is.
- DirOps.AddPathTree: requires `Valid`, so a `DirTree` graph in which one node sits under two keys or below itself is not modelled. Go's method accepts such graphs and still terminates, because it recurses on the finite `PathTree`. No code in the repository builds a `DirTree` at all.
- `AsPathTree` and `GetDirectoryContents` in cli/actions/dirops.go are file-system I/O and are not modelled.
- hearth/main.py, hearth/sync_central.py, hearth/dirsync.py and the Go command files are CLI glue and persistence, and are not part of this model.

## Findings

| source | as written | input that shows it | evidently intended | confidence | as-written member | corrected member |
|---|---|---|---|---|---|---|
| test/test_dirdiff.py:148-169 | the tests import `hearth.dirdiff`, whose `full_diff_dirs` keeps the shared files and subdirectories of every level | both trees hold one subdirectory `a` with one file `f`, and every content comparison matches: the result also lists `a/f` in `files.shared` | the result lists only `a` in `subdirs.shared`, which the current engine in hearth/dir/diff.py returns | not executed | LegacyDiff.LegacyKeepsSharedFiles | DiffProperties.AgreeingTreesCollapse |
| hearth/dirdiff.py:95-96 | `DirDiff.__bool__` returns `self.files or self.subdirs`, a `FilesDiff` or `SubdirDiff` object, so `bool()` on a legacy `DirDiff` raises `TypeError` | any legacy `DirDiff`, the empty one included | `__bool__` returns `bool(self.files) or bool(self.subdirs)`, which is false exactly for a diff with all seven sets empty, and for a full result exactly when nothing was comparable | not executed | LegacyDiff.LegacyBoolRaises | LegacyDiff.LegacyFalsyIff |
