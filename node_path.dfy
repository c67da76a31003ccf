/** Node's `path.join` on POSIX paths, as the file store uses it: an
    absolute, already normal directory joined with a relative name. The
    name is cut at '/', empty and "." segments are dropped, ".." removes
    the last segment (never going above the root) and any other segment is
    appended. */
module NodePath {
  import opened Text

  /** An absolute path, as its segments below the root. */
  type Path = seq<string>

  /** No segment is empty, "." or "..": the form `path.join` returns. */
  predicate Normal(p: Path) {
    forall k :: 0 <= k < |p| ==> p[k] != "" && p[k] != "." && p[k] != ".."
  }

  /** A segment that names an entry rather than moving around. */
  predicate Plain(s: string) {
    s != "" && s != "." && s != ".."
  }

  /** The path reached from `base` by following `segs` in turn. */
  function Walk(base: Path, segs: seq<string>): (r: Path)
    ensures Normal(base) ==> Normal(r)
    decreases |segs|
  {
    if segs == [] then base
    else
      var s := segs[0];
      var next := if s == "" || s == "." then base
                  else if s == ".." then (if base == [] then [] else base[..|base| - 1])
                  else base + [s];
      Walk(next, segs[1..])
  }

  /** `path.join(base, rel)`. */
  function Join(base: Path, rel: string): Path {
    Walk(base, Split(rel, '/'))
  }

  /** Without ".." the walk never leaves `base`: the result extends it. */
  lemma {:induction false} WalkStaysBelow(base: Path, segs: seq<string>)
    requires ".." !in segs
    ensures |Walk(base, segs)| >= |base| && Walk(base, segs)[..|base|] == base
    decreases |segs|
  {
    if segs != [] {
      var s := segs[0];
      var next := if s == "" || s == "." then base else base + [s];
      assert ".." !in segs[1..];
      WalkStaysBelow(next, segs[1..]);
      assert Walk(base, segs) == Walk(next, segs[1..]);
      assert next[..|base|] == base;
    }
  }

  /** Joining a name with no '/' and no ".." segments stays inside `base`. */
  lemma JoinStaysBelow(base: Path, rel: string)
    requires ".." !in Split(rel, '/')
    ensures |Join(base, rel)| >= |base| && Join(base, rel)[..|base|] == base
  {
    WalkStaysBelow(base, Split(rel, '/'));
  }

  /** A plain name without '/' is appended as one segment. */
  lemma JoinPlain(base: Path, name: string)
    requires '/' !in name && Plain(name)
    ensures Join(base, name) == base + [name]
  {
    assert Split(name, '/') == [name] + [];
    WalkDown(base, name, []);
    assert Walk(base + [name], []) == base + [name];
  }

  /** A plain segment is appended. */
  lemma WalkDown(base: Path, s: string, rest: seq<string>)
    requires Plain(s)
    ensures Walk(base, [s] + rest) == Walk(base + [s], rest)
  {
    assert ([s] + rest)[0] == s && ([s] + rest)[1..] == rest;
  }

  /** ".." removes the last segment. */
  lemma WalkUp(base: Path, rest: seq<string>)
    requires base != []
    ensures Walk(base, [".."] + rest) == Walk(base[..|base| - 1], rest)
  {
    assert ([".."] + rest)[0] == ".." && ([".."] + rest)[1..] == rest;
  }

  /** Cutting at the first '/': the text before it is the first segment. */
  lemma SplitAtSlash(a: string, b: string)
    requires '/' !in a
    ensures Split(a + "/" + b, '/') == [a] + Split(b, '/')
  {
    var s := a + "/" + b;
    assert s[|a|] == '/';
    var k := FirstIndex(s, '/');
    assert k == |a| by {
      assert forall i :: 0 <= i < |a| ==> s[i] == a[i];
    }
    assert s[..k] == a && s[k + 1..] == b;
  }
}
