/**
 * The three functions of Go's `path/filepath` package that the tool uses,
 * for '/'-separated paths. `Join` does not apply `filepath.Clean`.
 */
module FilePath {
  import opened Strings

  /** `p` with its trailing run of separators removed. */
  function TrimTrailingSlashes(p: string): (r: string)
    ensures HasPrefix(p, r)
    ensures r == [] || r[|r| - 1] != '/'
    ensures forall i :: |r| <= i < |p| ==> p[i] == '/'
  {
    if p != [] && p[|p| - 1] == '/' then TrimTrailingSlashes(p[..|p| - 1]) else p
  }

  /** The text after the last separator of `p` (all of `p` if it has none). */
  function LastElement(p: string): (r: string)
    ensures HasSuffix(p, r) && '/' !in r
    ensures |r| < |p| ==> p[|p| - |r| - 1] == '/'
  {
    if p == [] || p[|p| - 1] == '/' then [] else LastElement(p[..|p| - 1]) + [p[|p| - 1]]
  }

  /**
   * filepath.Base: the last element of the path, ignoring trailing
   * separators; "." for the empty path and "/" for a path of separators only.
   */
  function Base(path: string): (r: string)
    ensures r != []
    ensures r == "/" || '/' !in r
    ensures path != [] && path[|path| - 1] != '/' ==> HasSuffix(path, r) || r == "/"
  {
    if path == [] then "."
    else
      var last := LastElement(TrimTrailingSlashes(path));
      if last == [] then "/" else last
  }

  /**
   * Base is exactly filepath.Base: "." for the empty path, "/" when only
   * separators are left after trimming, and otherwise the whole last element
   * of the trimmed path, which starts the path or follows a separator.
   */
  lemma BaseIsLastElement(path: string)
    ensures path == [] ==> Base(path) == "."
    ensures path != [] && TrimTrailingSlashes(path) == [] ==> Base(path) == "/"
    ensures var t, r := TrimTrailingSlashes(path), Base(path);
      t != [] ==> HasSuffix(t, r) && '/' !in r && (|r| == |t| || t[|t| - |r| - 1] == '/')
  {
    if path != [] {
      var t := TrimTrailingSlashes(path);
      var last := LastElement(t);
      assert Base(path) == if last == [] then "/" else last;
      if t != [] {
        assert last == LastElement(t[..|t| - 1]) + [t[|t| - 1]];
        assert Base(path) == last;
      }
    }
  }

  /**
   * filepath.Ext: the suffix of the path from the last '.' of its last
   * element, or "" when that element has no '.'.
   */
  function Ext(path: string): (r: string)
    ensures r == [] || (r[0] == '.' && HasSuffix(path, r) && '/' !in r && '.' !in r[1..])
    ensures r == [] ==> '.' !in LastElement(path)
  {
    if path == [] || path[|path| - 1] == '/' then []
    else if path[|path| - 1] == '.' then "."
    else
      var e := Ext(path[..|path| - 1]);
      if e == [] then [] else e + [path[|path| - 1]]
  }

  /** filepath.Join of two elements, with empty elements ignored. */
  function Join(dir: string, name: string): string
  {
    if dir == [] then name else if name == [] then dir else dir + "/" + name
  }

  /** The name with its extension removed, as strings.TrimSuffix(name, filepath.Ext(name)). */
  lemma StemAndExt(name: string)
    ensures TrimSuffix(name, Ext(name)) + Ext(name) == name
  {
  }

  /** After a separator (or at the start of the path), the last element is everything that follows. */
  lemma {:induction false} LastElementAfter(a: string, b: string)
    requires '/' !in b
    requires a == [] || a[|a| - 1] == '/'
    ensures LastElement(a + b) == b
    decreases |b|
  {
    var p := a + b;
    if b != [] {
      assert p[..|p| - 1] == a + b[..|b| - 1];
      assert b[..|b| - 1] + [b[|b| - 1]] == b;
      LastElementAfter(a, b[..|b| - 1]);
    }
  }

  /** Joining a plain name onto a directory and taking the base gives the name back. */
  lemma BaseOfJoin(dir: string, name: string)
    requires name != [] && '/' !in name
    ensures Base(Join(dir, name)) == name
  {
    var p := Join(dir, name);
    assert p[|p| - 1] == name[|name| - 1];
    assert TrimTrailingSlashes(p) == p;
    if dir == [] {
      LastElementAfter([], name);
      assert [] + name == name;
    } else {
      LastElementAfter(dir + "/", name);
      assert dir + "/" + name == p;
    }
  }
}
