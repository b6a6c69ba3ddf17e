/**
 * cli/actions/compare.go: the Go comparator. Two directory listings (path
 * keys that `getDirectoryContents` maps to `true`) are split into the paths
 * only the first holds, the paths both hold and the paths only the second
 * holds, each pushed onto its own `StringHeap`.
 *
 * `getDirectoryContents` walks the filesystem; here each listing is an
 * input (the map it built and the walk's error). The sift-up and sift-down
 * of `container/heap` are library code: `heap.Push` and `heap.Pop` are
 * stated on the heap's contents as a multiset.
 */
module Compare {
  import opened Wrappers
  import StringOrder

  /** `StringHeap`: a slice of strings driven by `container/heap` through Len, Less, Swap, Push and Pop. */
  class StringHeap {
    var elems: seq<string>

    /** The zero value, an empty slice. */
    constructor ()
      ensures elems == []
    {
      elems := [];
    }

    function Len(): nat
      reads this
    {
      |elems|
    }

    /** `h[i] < h[j]` on strings; indices out of range make Go panic, so they are required. */
    predicate Less(i: int, j: int)
      reads this
      requires 0 <= i < |elems| && 0 <= j < |elems|
    {
      StringOrder.Less(elems[i], elems[j])
    }

    /** `Swap(i, j)` exchanges two entries and keeps the contents. */
    method Swap(i: int, j: int)
      requires 0 <= i < |elems| && 0 <= j < |elems|
      modifies this
      ensures elems == old(elems)[i := old(elems)[j]][j := old(elems)[i]]
      ensures multiset(elems) == multiset(old(elems))
    {
      elems := elems[i := elems[j]][j := elems[i]];
    }

    /** `Push(x)`: `*h = append(*h, x)`. */
    method Push(x: string)
      modifies this
      ensures elems == old(elems) + [x]
    {
      elems := elems + [x];
    }

    /** `Pop()`: removes and returns the last entry, undoing a `Push`; an empty slice makes Go panic. */
    method Pop() returns (x: string)
      requires |elems| > 0
      modifies this
      ensures old(elems) == elems + [x]
    {
      x := elems[|elems| - 1];
      elems := elems[..|elems| - 1];
    }
  }

  /** `heap.Push(h, x)`: `h.Push(x)` followed by the library's sift-up, which only reorders. */
  method HeapPush(h: StringHeap, x: string)
    modifies h
    ensures multiset(h.elems) == multiset(old(h.elems)) + multiset{x}
  {
    h.Push(x);
  }

  /**
   * `heap.Pop(h)`: swaps the first entry to the end, lets the library sift
   * the rest (which leaves the last slot alone) and pops it, so it returns
   * the entry that was first, the least one on a well-formed heap.
   */
  method HeapPop(h: StringHeap) returns (x: string)
    requires h.Len() > 0
    modifies h
    ensures x == old(h.elems)[0]
    ensures multiset(h.elems) + multiset{x} == multiset(old(h.elems))
    ensures |h.elems| == |old(h.elems)| - 1
  {
    var n := h.Len() - 1;
    h.Swap(0, n);
    assert h.elems[n] == old(h.elems)[0];
    x := h.Pop();
  }

  /** The lines `fmt.Printf("\t%s\n", ...)` writes for a sequence of entries. */
  function Indented(xs: seq<string>): seq<string> {
    seq(|xs|, i requires 0 <= i < |xs| => "\t" + xs[i])
  }

  lemma IndentedSnoc(xs: seq<string>, x: string)
    ensures Indented(xs + [x]) == Indented(xs) + ["\t" + x]
  {
  }

  /**
   * `prettyPrintWithPreface`: the preface, then either a placeholder line or
   * one line per entry, popped until `Len() == 0`. The lines are returned
   * instead of printed; `popped` is the order they came out in.
   */
  method PrettyPrintWithPreface(h: StringHeap, preface: string) returns (lines: seq<string>, ghost popped: seq<string>)
    modifies h
    ensures h.elems == []
    ensures multiset(popped) == multiset(old(h.elems))
    ensures old(h.elems) == [] ==> lines == [preface, "\tNo contents"]
    ensures old(h.elems) != [] ==> lines == [preface] + Indented(popped) && popped[0] == old(h.elems)[0]
  {
    lines := [preface];
    popped := [];
    if h.Len() == 0 {
      lines := lines + ["\tNo contents"];
    } else {
      while h.Len() > 0
        invariant multiset(h.elems) + multiset(popped) == multiset(old(h.elems))
        invariant lines == [preface] + Indented(popped)
        invariant popped == [] ==> h.elems == old(h.elems)
        invariant popped != [] ==> popped[0] == old(h.elems)[0]
        decreases |h.elems|
      {
        var x := HeapPop(h);
        IndentedSnoc(popped, x);
        lines := lines + ["\t" + x];
        popped := popped + [x];
      }
    }
  }

  // ----- `compareDirectories` -----

  /** What `getDirectoryContents` returns: every path it walked, mapped to `true`, and the walk's error. */
  datatype Listing = Listing(contents: map<string, bool>, err: Option<string>)

  /** `m[k]` in Go: a missing key reads as `false`. */
  predicate Has(m: map<string, bool>, k: string) {
    k in m && m[k]
  }

  /** The keys of `ks` that `m` does not hold (as `true`). */
  function Absent(ks: set<string>, m: map<string, bool>): set<string> {
    set k | k in ks && !Has(m, k)
  }

  /** The keys of `ks` that `m` holds (as `true`). */
  function Present(ks: set<string>, m: map<string, bool>): set<string> {
    set k | k in ks && Has(m, k)
  }

  function FromOnly(from: map<string, bool>, to: map<string, bool>): set<string> {
    Absent(from.Keys, to)
  }

  function Both(from: map<string, bool>, to: map<string, bool>): set<string> {
    Present(from.Keys, to)
  }

  function ToOnly(from: map<string, bool>, to: map<string, bool>): set<string> {
    Absent(to.Keys, from)
  }

  /** `DirCompareResult`: the three heaps, each its own slice. */
  class DirCompareResult {
    const fromDirOnly: StringHeap
    const toDirOnly: StringHeap
    const bothDirs: StringHeap

    /** `DirCompareResult{}`: three empty heaps. */
    constructor ()
      ensures fresh(fromDirOnly) && fresh(toDirOnly) && fresh(bothDirs)
      ensures Separate()
      ensures fromDirOnly.elems == [] && toDirOnly.elems == [] && bothDirs.elems == []
    {
      fromDirOnly := new StringHeap();
      toDirOnly := new StringHeap();
      bothDirs := new StringHeap();
    }

    predicate Separate() {
      fromDirOnly != toDirOnly && fromDirOnly != bothDirs && toDirOnly != bothDirs
    }
  }

  lemma AddOne(s: set<string>, k: string)
    requires k !in s
    ensures multiset(s + {k}) == multiset(s) + multiset{k}
  {
  }

  /**
   * `compareDirectories`: an error of the first listing, or else of the
   * second, is returned with an empty result; otherwise every key of the
   * first listing goes to `FromDirOnly` or `BothDirs`, and every key of the
   * second listing the first lacks goes to `ToDirOnly`, each exactly once.
   */
  method CompareDirectories(fromDir: Listing, toDir: Listing) returns (result: DirCompareResult, err: Option<string>)
    ensures fresh(result) && fresh(result.fromDirOnly) && fresh(result.toDirOnly) && fresh(result.bothDirs)
    ensures result.Separate()
    ensures fromDir.err.Some? ==> err == fromDir.err
    ensures fromDir.err.None? ==> err == toDir.err
    ensures err.Some? ==> result.fromDirOnly.elems == [] && result.toDirOnly.elems == [] && result.bothDirs.elems == []
    ensures err.None? ==>
      && multiset(result.fromDirOnly.elems) == multiset(FromOnly(fromDir.contents, toDir.contents))
      && multiset(result.bothDirs.elems) == multiset(Both(fromDir.contents, toDir.contents))
      && multiset(result.toDirOnly.elems) == multiset(ToOnly(fromDir.contents, toDir.contents))
  {
    if fromDir.err.Some? {
      result := new DirCompareResult();
      err := fromDir.err;
      return;
    }
    if toDir.err.Some? {
      result := new DirCompareResult();
      err := toDir.err;
      return;
    }
    result := new DirCompareResult();
    err := None;
    SplitFirstListing(result, fromDir.contents, toDir.contents);
    CollectSecondOnly(result, fromDir.contents, toDir.contents);
  }

  /** The first loop of `compareDirectories`: each key of the first listing to `FromDirOnly` or `BothDirs`. */
  method SplitFirstListing(result: DirCompareResult, fromContents: map<string, bool>, toContents: map<string, bool>)
    requires result.Separate()
    requires result.fromDirOnly.elems == [] && result.bothDirs.elems == []
    modifies result.fromDirOnly, result.bothDirs
    ensures multiset(result.fromDirOnly.elems) == multiset(FromOnly(fromContents, toContents))
    ensures multiset(result.bothDirs.elems) == multiset(Both(fromContents, toContents))
  {
    var keys := fromContents.Keys;
    ghost var seen: set<string> := {};
    while keys != {}
      invariant seen <= fromContents.Keys && keys == fromContents.Keys - seen
      invariant multiset(result.fromDirOnly.elems) == multiset(Absent(seen, toContents))
      invariant multiset(result.bothDirs.elems) == multiset(Present(seen, toContents))
      decreases keys
    {
      var k :| k in keys;
      if !Has(toContents, k) {
        HeapPush(result.fromDirOnly, k);
        assert Absent(seen + {k}, toContents) == Absent(seen, toContents) + {k};
        AddOne(Absent(seen, toContents), k);
        assert Present(seen + {k}, toContents) == Present(seen, toContents);
      } else {
        HeapPush(result.bothDirs, k);
        assert Present(seen + {k}, toContents) == Present(seen, toContents) + {k};
        AddOne(Present(seen, toContents), k);
        assert Absent(seen + {k}, toContents) == Absent(seen, toContents);
      }
      keys := keys - {k};
      seen := seen + {k};
    }
    assert seen == fromContents.Keys;
  }

  /** The second loop of `compareDirectories`: each key of the second listing the first lacks to `ToDirOnly`. */
  method CollectSecondOnly(result: DirCompareResult, fromContents: map<string, bool>, toContents: map<string, bool>)
    requires result.toDirOnly.elems == []
    modifies result.toDirOnly
    ensures multiset(result.toDirOnly.elems) == multiset(ToOnly(fromContents, toContents))
  {
    var keys := toContents.Keys;
    ghost var seen: set<string> := {};
    while keys != {}
      invariant seen <= toContents.Keys && keys == toContents.Keys - seen
      invariant multiset(result.toDirOnly.elems) == multiset(Absent(seen, fromContents))
      decreases keys
    {
      var k :| k in keys;
      if !Has(fromContents, k) {
        HeapPush(result.toDirOnly, k);
        assert Absent(seen + {k}, fromContents) == Absent(seen, fromContents) + {k};
        AddOne(Absent(seen, fromContents), k);
      } else {
        assert Absent(seen + {k}, fromContents) == Absent(seen, fromContents);
      }
      keys := keys - {k};
      seen := seen + {k};
    }
    assert seen == toContents.Keys;
  }

  // ----- the partition -----

  /** `getDirectoryContents` stores only `true`. */
  predicate AllTrue(m: map<string, bool>) {
    forall k :: k in m ==> m[k]
  }

  /** Every key of the first listing lands in exactly one of `FromDirOnly` and `BothDirs`, whatever the maps hold. */
  lemma FirstListingSplit(from: map<string, bool>, to: map<string, bool>)
    ensures FromOnly(from, to) + Both(from, to) == from.Keys
    ensures FromOnly(from, to) !! Both(from, to)
    ensures ToOnly(from, to) <= to.Keys
  {
  }

  /**
   * For listings as `getDirectoryContents` builds them, the three results
   * are the set differences and the intersection of the two key sets:
   * pairwise disjoint and together the union of both.
   */
  lemma ThreeWayPartition(from: map<string, bool>, to: map<string, bool>)
    requires AllTrue(from) && AllTrue(to)
    ensures FromOnly(from, to) == from.Keys - to.Keys
    ensures Both(from, to) == from.Keys * to.Keys
    ensures ToOnly(from, to) == to.Keys - from.Keys
    ensures FromOnly(from, to) !! Both(from, to) && FromOnly(from, to) !! ToOnly(from, to) && Both(from, to) !! ToOnly(from, to)
    ensures FromOnly(from, to) + Both(from, to) + ToOnly(from, to) == from.Keys + to.Keys
  {
  }

  /** A key mapped to `false` on both sides would be reported as only in each: the partition relies on `AllTrue`. */
  lemma FalseEntriesOverlap()
    ensures "x" in FromOnly(map["x" := false], map["x" := false])
    ensures "x" in ToOnly(map["x" := false], map["x" := false])
  {
  }
}
