/** Which paths `path.posix.normalize` leaves alone (src/content-archive.js:282-287). */
module NormalPaths {
  import opened ContentArchive

  /** The parts between slashes, put together again. */
  ghost function Joined(parts: seq<string>): string {
    if parts == [] then "" else if |parts| == 1 then parts[0] else parts[0] + "/" + Joined(parts[1..])
  }

  /** Empty and dot parts go; a parent part takes back a name before it. */
  ghost function Resolved(parts: seq<string>): seq<string> {
    if parts == [] then []
    else
      var before, part := Resolved(parts[..|parts| - 1]), parts[|parts| - 1];
      if part == "" || part == "." then before
      else if part == ".." && before != [] && before[|before| - 1] != ".." then before[..|before| - 1]
      else before + [part]
  }

  /** `path.posix.normalize` of a path that does not start with a slash. */
  ghost function Normalized(path: string): string {
    var trailing := path != "" && path[|path| - 1] == '/';
    var resolved := Joined(Resolved(Segments(path)));
    if resolved == "" then (if trailing then "./" else ".") else resolved + if trailing then "/" else ""
  }

  predicate Proper(part: string) { part != "" && part != "." && part != ".." && '/' !in part }

  lemma {:induction false} SegmentsJoin(path: string)
    ensures Segments(path) != [] && Joined(Segments(path)) == path
    ensures forall s :: s in Segments(path) ==> '/' !in s
  {
    if path != "" {
      SegmentsJoin(path[1..]);
      var rest, all := Segments(path[1..]), Segments(path);
      assert path == [path[0]] + path[1..];
      if path[0] == '/' {
        assert all[1..] == rest;
      } else {
        assert all[1..] == rest[1..];
      }
    }
  }

  lemma {:induction false} SegmentsOfName(name: string, rest: string)
    requires '/' !in name
    ensures Segments(name) == [name]
    ensures Segments(name + "/" + rest) == [name] + Segments(rest)
  {
    if name == "" {
      var path := name + "/" + rest;
      assert path[1..] == rest;
    } else {
      SegmentsOfName(name[1..], rest);
      assert name == [name[0]] + name[1..];
      assert (name + "/" + rest)[1..] == name[1..] + "/" + rest;
    }
  }

  lemma {:induction false} JoinedSegments(parts: seq<string>)
    requires parts != [] && forall s :: s in parts ==> '/' !in s
    ensures Segments(Joined(parts)) == parts
  {
    if |parts| == 1 {
      SegmentsOfName(parts[0], "");
    } else {
      JoinedSegments(parts[1..]);
      SegmentsOfName(parts[0], Joined(parts[1..]));
    }
  }

  lemma {:induction false} TrailingSlash(path: string)
    ensures Segments(path + "/") == Segments(path) + [""]
  {
    var longer := path + "/";
    if path == "" {
      assert longer[1..] == "";
      assert Segments("") == [""];
    } else {
      TrailingSlash(path[1..]);
      assert longer[1..] == path[1..] + "/";
    }
  }

  ghost predicate AllProper(parts: seq<string>) { forall s :: s in parts ==> Proper(s) }

  lemma {:induction false} ProperResolve(parts: seq<string>)
    requires AllProper(parts)
    ensures Resolved(parts) == parts
  {
    if parts != [] {
      var front := parts[..|parts| - 1];
      assert parts == front + [parts[|parts| - 1]];
      assert parts[|parts| - 1] in parts;
      ProperResolve(front);
    }
  }

  lemma {:induction false} ResolvedIsProper(parts: seq<string>)
    requires ".." !in parts && forall s :: s in parts ==> '/' !in s
    ensures AllProper(Resolved(parts))
  {
    if parts != [] {
      var front := parts[..|parts| - 1];
      assert parts == front + [parts[|parts| - 1]];
      ResolvedIsProper(front);
    }
  }

  lemma ResolvedBeforeSlash(path: string)
    ensures Resolved(Segments(path + "/")) == Resolved(Segments(path))
  {
    TrailingSlash(path);
    var parts := Segments(path + "/");
    assert parts[..|parts| - 1] == Segments(path);
  }

  lemma JoinedIsEmpty(parts: seq<string>)
    requires AllProper(parts)
    ensures Joined(parts) == "" <==> parts == []
  {
    if parts != [] { assert parts[0] in parts; }
  }

  /** A path without a trailing slash. */
  lemma BareNormal(bare: string)
    requires bare != ""
    ensures AllProper(Segments(bare)) ==> Joined(Resolved(Segments(bare))) == bare
    ensures ".." !in Segments(bare) && Joined(Resolved(Segments(bare))) == bare ==> AllProper(Segments(bare))
  {
    var parts := Segments(bare);
    SegmentsJoin(bare);
    if AllProper(parts) {
      ProperResolve(parts);
    }
    if ".." !in parts && Joined(Resolved(parts)) == bare {
      ResolvedIsProper(parts);
      JoinedIsEmpty(Resolved(parts));
      JoinedSegments(Resolved(parts));
    }
  }

  lemma NothingResolved(bare: string)
    requires ".." !in Segments(bare) && Joined(Resolved(Segments(bare))) == ""
    ensures Resolved(Segments(bare)) == []
  {
    SegmentsJoin(bare);
    ResolvedIsProper(Segments(bare));
    JoinedIsEmpty(Resolved(Segments(bare)));
  }

  lemma DotResolves()
    ensures Segments(".") == ["."] && Resolved(["."]) == []
  {
    SegmentsOfName(".", "");
  }

  lemma NormalizedSlash(bare: string)
    ensures Normalized(bare + "/") == (var resolved := Joined(Resolved(Segments(bare))); if resolved == "" then "./" else resolved + "/")
    ensures ".." in Segments(bare + "/") <==> ".." in Segments(bare)
  {
    ResolvedBeforeSlash(bare);
    TrailingSlash(bare);
    assert (bare + "/")[|bare + "/"| - 1] == '/';
  }

  /** When normalising leaves a bare path alone. */
  lemma BareMeans(bare: string)
    requires bare != ""
    ensures var resolved := Joined(Resolved(Segments(bare)));
            bare == "." || AllProper(Segments(bare)) <==>
              ".." !in Segments(bare) && (if resolved == "" then bare == "." else resolved == bare)
  {
    DotResolves();
    BareNormal(bare);
    if AllProper(Segments(bare)) {
      assert !Proper("..");
    }
  }

  lemma NormalBare(bare: string)
    requires bare != "" && bare[|bare| - 1] != '/'
    ensures NormalPath(bare) <==> bare == "." || AllProper(Segments(bare))
  {
    SegmentsJoin(bare);
    DotResolves();
  }

  lemma SameSlash(a: string, b: string)
    ensures a + "/" == b + "/" <==> a == b
  {
    if a + "/" == b + "/" {
      assert (a + "/")[..|a|] == a;
    }
  }

  lemma NormalSlash(bare: string)
    requires bare != ""
    ensures NormalPath(bare + "/") <==> bare == "." || AllProper(Segments(bare))
  {
    SegmentsJoin(bare);
    var path := bare + "/";
    assert path[..|path| - 1] == bare && path[|path| - 1] == '/';
    SameSlash(bare, ".");
  }

  /** Main result: accepted are exactly the paths that normalising leaves as they are, without a parent part. */
  lemma NormalPathMeans(path: string)
    requires path != "" && path[0] != '/'
    ensures NormalPath(path) <==> Normalized(path) == path && ".." !in Segments(path)
  {
    if path[|path| - 1] != '/' {
      BareMeans(path);
      NormalBare(path);
    } else {
      var bare := path[..|path| - 1];
      assert path == bare + "/";
      NormalizedSlash(bare);
      BareMeans(bare);
      NormalSlash(bare);
      SameSlash(Joined(Resolved(Segments(bare))), bare);
      SameSlash(".", bare);
    }
  }
}
