/** The two os.path functions the renaming code uses, as posixpath defines them. */
module Paths {

  /** The index just after the last '/', or 0 when there is none. */
  function AfterLastSlash(p: string): (i: nat)
    ensures i <= |p|
    ensures '/' !in p[i..]
    ensures i > 0 ==> p[i - 1] == '/'
  {
    if p == [] then 0
    else if p[|p| - 1] == '/' then |p|
    else AfterLastSlash(p[..|p| - 1])
  }

  predicate AllSlashes(h: string)
  {
    forall i :: 0 <= i < |h| ==> h[i] == '/'
  }

  /** h.rstrip('/') */
  function RStripSlash(h: string): (r: string)
    ensures |r| <= |h| && r == h[..|r|]
    ensures r != [] ==> r[|r| - 1] != '/'
    ensures forall i :: |r| <= i < |h| ==> h[i] == '/'
  {
    if h != [] && h[|h| - 1] == '/' then RStripSlash(h[..|h| - 1]) else h
  }

  /** os.path.split(p)[0]: the directory part, trailing slashes removed unless it is only slashes. */
  function Head(p: string): string
  {
    var h := p[..AfterLastSlash(p)];
    if h != [] && !AllSlashes(h) then RStripSlash(h) else h
  }

  /** os.path.split(p)[1]: the part after the last '/'. */
  function Tail(p: string): string
  {
    p[AfterLastSlash(p)..]
  }

  /** os.path.join(a, b) */
  function PathJoin(a: string, b: string): string
  {
    if b != [] && b[0] == '/' then b
    else if a == [] || a[|a| - 1] == '/' then a + b
    else a + "/" + b
  }

  /** The shapes Head can return: empty, only slashes, or not ending in a slash. */
  predicate CanonicalDirectory(d: string)
  {
    d == [] || AllSlashes(d) || d[|d| - 1] != '/'
  }

  lemma {:induction false} HeadIsCanonical(p: string)
    ensures CanonicalDirectory(Head(p))
  {
    var h := p[..AfterLastSlash(p)];
    if h != [] && !AllSlashes(h) {
      var r := RStripSlash(h);
      var k :| 0 <= k < |h| && h[k] != '/';
      assert k < |r|;
    }
  }

  lemma {:induction false} AfterLastSlashOfAppend(x: string, n: string)
    requires x != [] && x[|x| - 1] == '/'
    requires '/' !in n
    ensures AfterLastSlash(x + n) == |x|
  {
    if n != [] {
      var m := n[..|n| - 1];
      assert (x + n)[..|x + n| - 1] == x + m;
      AfterLastSlashOfAppend(x, m);
    } else {
      assert x + n == x;
    }
  }

  /**
   * A name without '/' joined to a directory of the shape Head returns
   * splits back into that directory and that name: the renamed file stays
   * in its directory.
   */
  lemma {:induction false} JoinStaysInDirectory(d: string, n: string)
    requires CanonicalDirectory(d)
    requires '/' !in n
    ensures Head(PathJoin(d, n)) == d
    ensures Tail(PathJoin(d, n)) == n
  {
    var j := PathJoin(d, n);
    if d == [] {
      assert j == n;
      assert AfterLastSlash(n) == 0;
    } else if d[|d| - 1] == '/' {
      assert j == d + n;
      AfterLastSlashOfAppend(d, n);
      assert j[..|d|] == d;
    } else {
      var x := d + "/";
      assert j == x + n;
      AfterLastSlashOfAppend(x, n);
      assert j[..|x|] == x;
      assert !AllSlashes(x) by { assert x[|d| - 1] != '/'; }
      assert RStripSlash(x) == RStripSlash(d) == d by { assert x[..|x| - 1] == d; }
    }
  }

  /** os.path.join(os.path.split(p)[0], name): where the renaming code puts a new name. */
  function InSameDirectory(p: string, name: string): string
  {
    PathJoin(Head(p), name)
  }

  lemma {:induction false} InSameDirectoryKeepsDirectory(p: string, name: string)
    requires '/' !in name
    ensures Head(InSameDirectory(p, name)) == Head(p)
    ensures Tail(InSameDirectory(p, name)) == name
  {
    HeadIsCanonical(p);
    JoinStaysInDirectory(Head(p), name);
  }
}
