/**
 * The two POSIX path helpers the Python code relies on: `os.path.join` with
 * two arguments and `os.path.basename`, over strings as sequences of chars.
 */
module OsPath {

  /** A directory entry name as the filesystem hands it out: non-empty and free of separators. */
  predicate IsName(n: string) {
    n != "" && '/' !in n
  }

  /** `os.path.join(a, b)`: an absolute `b` replaces `a`; otherwise one separator goes between them. */
  function Join(a: string, b: string): (r: string)
    ensures |b| > 0 && b[0] == '/' ==> r == b
    ensures !(|b| > 0 && b[0] == '/') ==>
      && (|r| == |a| + |b| || (|r| == |a| + |b| + 1 && r[|a|] == '/'))
      && r[..|a|] == a && r[|r| - |b|..] == b
  {
    if |b| > 0 && b[0] == '/' then b
    else if a == "" || a[|a| - 1] == '/' then a + b
    else a + "/" + b
  }

  /** `os.path.basename(p)`: everything after the last separator. */
  function Basename(p: string): (r: string)
    ensures '/' !in r
    ensures |r| <= |p| && r == p[|p| - |r|..]
    ensures |r| < |p| ==> p[|p| - |r| - 1] == '/'
  {
    if p == "" then ""
    else if p[|p| - 1] == '/' then ""
    else Basename(p[..|p| - 1]) + [p[|p| - 1]]
  }

  /** The separator Join puts between `a` and a relative name: the name follows it directly. */
  function JoinGlue(a: string): string {
    if a == "" || a[|a| - 1] == '/' then a else a + "/"
  }

  lemma JoinRelative(a: string, n: string)
    requires IsName(n)
    ensures Join(a, n) == JoinGlue(a) + n
  {
    if !(a == "" || a[|a| - 1] == '/') {
      assert a + "/" + n == (a + "/") + n;
    }
  }

  /** Joining a name onto any directory path and taking the basename gives the name back. */
  lemma BasenameOfJoin(a: string, n: string)
    requires IsName(n)
    ensures Basename(Join(a, n)) == n
  {
    JoinRelative(a, n);
    var x := JoinGlue(a);
    var p := x + n;
    var r := Basename(p);
    assert x == "" || x[|x| - 1] == '/';
    assert r == p[|x|..] == n;
  }

  /** Joining is injective in the name: distinct names give distinct paths under one directory. */
  lemma {:induction false} JoinInjective(a: string, m: string, n: string)
    requires IsName(m) && IsName(n)
    requires Join(a, m) == Join(a, n)
    ensures m == n
  {
    JoinRelative(a, m);
    JoinRelative(a, n);
    var x := JoinGlue(a);
    assert m == (x + m)[|x|..] == (x + n)[|x|..] == n;
  }
}
