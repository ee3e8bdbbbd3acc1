/** The parent directory of a stored path, as `path.posix.dirname` finds it. */
module PosixPath {
  import opened Common

  /** Stored paths are never empty and never absolute. */
  predicate Relative(path: string) { path != "" && path[0] != '/' }

  function WithoutSlashes(path: string): (bare: string)
    ensures bare <= path
  {
    if path != "" && path[|path| - 1] == '/' then WithoutSlashes(path[..|path| - 1]) else path
  }

  function BeforeLastSlash(path: string): string {
    if path == "" then "."
    else if path[|path| - 1] == '/' && |path| > 1 then path[..|path| - 1]
    else BeforeLastSlash(path[..|path| - 1])
  }

  function Dirname(path: string): string { BeforeLastSlash(WithoutSlashes(path)) }

  // ---------- what it means ----------

  predicate AllSlashes(s: string) { forall ch :: ch in s ==> ch == '/' }

  /** A single name, possibly followed by slashes. */
  predicate IsName(name: string, slashes: string) { name != "" && '/' !in name && AllSlashes(slashes) }

  /** The path is a name in the directory, or the directory is the root and the path is a name alone. */
  predicate Lies(path: string, directory: string, name: string, slashes: string) {
    && IsName(name, slashes)
    && ((directory == "." && path == name + slashes) || (directory != "" && path == directory + "/" + name + slashes))
  }

  ghost predicate IsParent(directory: string, path: string) {
    exists name, slashes :: Lies(path, directory, name, slashes)
  }

  lemma {:induction false} StripsSlashes(bare: string, slashes: string)
    requires bare != "" && bare[|bare| - 1] != '/' && AllSlashes(slashes)
    ensures WithoutSlashes(bare + slashes) == bare
  {
    var path := bare + slashes;
    if slashes == "" {
      assert path == bare;
    } else {
      var fewer := slashes[..|slashes| - 1];
      assert forall ch :: ch in fewer ==> ch in slashes;
      assert path[|path| - 1] == slashes[|slashes| - 1] && slashes[|slashes| - 1] in slashes;
      assert path[..|path| - 1] == bare + fewer;
      StripsSlashes(bare, fewer);
    }
  }

  lemma {:induction false} StrippedRest(path: string)
    requires Relative(path)
    ensures var bare := WithoutSlashes(path);
            bare != "" && bare[|bare| - 1] != '/' && AllSlashes(path[|bare|..])
  {
    if path[|path| - 1] == '/' {
      var front := path[..|path| - 1];
      StrippedRest(front);
      var bare := WithoutSlashes(front);
      assert path[|bare|..] == front[|bare|..] + "/";
    }
  }

  lemma {:induction false} SkipsName(head: string, name: string)
    requires '/' !in name
    ensures BeforeLastSlash(head + name) == BeforeLastSlash(head)
  {
    var path := head + name;
    if name == "" {
      assert path == head;
    } else {
      var shorter := name[..|name| - 1];
      assert path[|path| - 1] == name[|name| - 1] && name[|name| - 1] in name;
      assert path[..|path| - 1] == head + shorter;
      SkipsName(head, shorter);
    }
  }

  lemma {:induction false} LastName(path: string) returns (name: string)
    requires Relative(path) && path[|path| - 1] != '/'
    ensures name != "" && '/' !in name
    ensures var d := BeforeLastSlash(path); (d == "." && path == name) || (d != "" && path == d + "/" + name)
  {
    var front, last := path[..|path| - 1], path[|path| - 1];
    assert path == front + [last];
    if front == "" {
      name := path;
    } else if front[|front| - 1] == '/' {
      name := [last];
      assert front == front[..|front| - 1] + "/";
    } else {
      var before := LastName(front);
      name := before + [last];
    }
  }

  lemma LiesDetermines(path: string, directory: string, name: string, slashes: string)
    requires Lies(path, directory, name, slashes)
    ensures Dirname(path) == directory
  {
    var head := if path == name + slashes && directory == "." then "" else directory + "/";
    var bare := head + name;
    assert path == bare + slashes;
    assert bare[|bare| - 1] == name[|name| - 1] && name[|name| - 1] in name;
    StripsSlashes(bare, slashes);
    SkipsName(head, name);
    if head != "" {
      assert head[..|head| - 1] == directory;
    }
  }

  /** Main result: every stored path has exactly one parent, and this is it. */
  lemma DirnameIsParent(path: string, directory: string)
    requires Relative(path)
    ensures directory == Dirname(path) <==> IsParent(directory, path)
  {
    if IsParent(directory, path) {
      var name, slashes :| Lies(path, directory, name, slashes);
      LiesDetermines(path, directory, name, slashes);
    }
    StrippedRest(path);
    var bare := WithoutSlashes(path);
    var name := LastName(bare);
    assert path == bare + path[|bare|..];
    var d := Dirname(path);
    assert path == name + path[|bare|..] || path == d + "/" + name + path[|bare|..];
    assert Lies(path, d, name, path[|bare|..]);
  }
}
