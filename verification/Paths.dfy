/** Virtual DAV paths: normalisation and the "equal to or below" relation between them. */
module Paths {
  import opened Text

  predicate IsSlash(c: char) {
    c == '/'
  }

  /** `"/" + path.strip("/")`. */
  function Normalize(path: string): string {
    "/" + TrimBy(path, IsSlash)
  }

  function AsFolder(path: string): string {
    TrimEndBy(path, IsSlash) + "/"
  }

  predicate IsEqualOrChild(parent: string, child: string) {
    AsFolder(parent) <= AsFolder(child)
  }

  /** One listing contains the other's root: equal, above or below. */
  predicate Related(a: string, b: string) {
    IsEqualOrChild(a, b) || IsEqualOrChild(b, a)
  }

  /** What lies below `key` and is touched by a write at `p` makes `key` and `p` related. */
  lemma TouchedBelowIsRelated(key: string, q: string, p: string)
    requires IsEqualOrChild(key, q) && Related(q, p)
    ensures Related(key, p)
  {
    var a, b, c := AsFolder(key), AsFolder(q), AsFolder(p);
    if c <= b {
      if |a| <= |c| {
        assert a == b[..|a|] && c[..|a|] == b[..|a|];
      } else {
        assert c == b[..|c|] && a[..|c|] == b[..|c|];
      }
    }
  }

  /** Normalising twice is normalising once. */
  lemma NormalizeIdempotent(path: string)
    ensures Normalize(Normalize(path)) == Normalize(path)
  {
    var t := TrimBy(path, IsSlash);
    if t == [] {
      assert Normalize(path) == "/";
      assert TrimEndBy("/", IsSlash) == [];
    } else {
      TrimByEnds(path, IsSlash);
      TrimByStrips("/", t, "", IsSlash);
      assert "/" + t + "" == "/" + t;
    }
  }

  /** Normal form: one slash, then the path without slashes at its ends. */
  lemma NormalizeStrips(before: string, path: string, after: string)
    requires AllDropped(before, IsSlash) && AllDropped(after, IsSlash)
    requires path != [] ==> path[0] != '/' && path[|path| - 1] != '/'
    ensures Normalize(before + path + after) == "/" + path
  {
    TrimByFrame(before, path, after, IsSlash);
    TrimByKeeps(path, IsSlash);
  }

  predicate IsNormal(path: string) {
    path != [] && path[0] == '/' && (path == "/" || path[|path| - 1] != '/')
  }

  lemma NormalizeIsNormal(path: string)
    ensures IsNormal(Normalize(path))
  {
    TrimByEnds(path, IsSlash);
  }

  /** Of normal paths: the same one, or below it with a slash in between; everything is below the root. */
  lemma IsEqualOrChildIff(parent: string, child: string)
    requires IsNormal(parent) && IsNormal(child)
    ensures IsEqualOrChild(parent, child) <==> parent == child || parent == "/" || parent + "/" <= child
  {
    NormalFolder(parent);
    NormalFolder(child);
    if parent != "/" && child != "/" && parent + "/" <= child + "/" {
      assert (child + "/")[..|parent|] == parent;
      if |parent| < |child| {
        assert (child + "/")[..|parent| + 1] == child[..|parent| + 1];
      } else {
        assert (child + "/")[..|child|] == child;
      }
    }
  }

  lemma NormalFolder(path: string)
    requires IsNormal(path)
    ensures AsFolder(path) == if path == "/" then "/" else path + "/"
  {
    if path == "/" {
      assert TrimEndBy("/", IsSlash) == [];
    }
  }
}
