/** Which files count as renamed, said of the two snapshots alone (src/project-structure.js:395-415). */
module SnapshotRenames {
  import opened Common
  import opened SnapshotDiff

  /** A path of the old snapshot only, with this hash. */
  ghost predicate GoneWith(previous: seq<File>, current: seq<File>, path: string, hash: string) {
    exists i :: 0 <= i < |previous| && previous[i] == File(path, Some(hash)) && !HasPath(current, path)
  }

  /** The first new file with this hash. */
  ghost predicate FirstNew(previous: seq<File>, current: seq<File>, i: nat, hash: string) {
    && i < |current| && current[i].hash == Some(hash) && !HasPath(previous, current[i].path)
    && forall j :: 0 <= j < i && current[j].hash == Some(hash) ==> HasPath(previous, current[j].path)
  }

  /** One path with the hash has gone, and this is the first new file that has it. */
  ghost predicate MovedTo(previous: seq<File>, current: seq<File>, i: nat, r: Rename) {
    && FirstNew(previous, current, i, r.hash) && current[i].path == r.to
    && GoneWith(previous, current, r.from, r.hash) && forall p :: GoneWith(previous, current, p, r.hash) ==> p == r.from
  }

  // ---------- the path that has gone ----------

  lemma {:induction false} MatchesAreUnique(deleted: seq<File>, hash: string)
    requires UniquePaths(deleted)
    ensures UniquePaths(Matches(deleted, hash))
  {
    if deleted != [] {
      var front, last := deleted[..|deleted| - 1], deleted[|deleted| - 1];
      assert deleted == front + [last];
      MatchesAreUnique(front, hash);
      KeptPathsAreOld(deleted, Matches(front, hash));
      UniqueSnoc(Matches(front, hash), last);
    }
  }

  lemma MatchIsGone(previous: seq<File>, current: seq<File>, path: string, hash: string)
    ensures GoneWith(previous, current, path, hash) <==> File(path, Some(hash)) in Matches(Without(previous, current), hash)
  {
    var f := File(path, Some(hash));
    if f in previous && !HasPath(current, path) {
      var i :| 0 <= i < |previous| && previous[i] == f;
      assert GoneWith(previous, current, path, hash);
    }
  }

  lemma TwoDiffer(files: seq<File>)
    requires UniquePaths(files)
    ensures |files| > 1 ==> files[0].path != files[1].path
  {
  }

  lemma Single(matches: seq<File>, hash: string, from: string)
    requires UniquePaths(matches) && forall f :: f in matches ==> f.hash == Some(hash)
    ensures |matches| == 1 && matches[0].path == from <==>
              File(from, Some(hash)) in matches && forall p :: File(p, Some(hash)) in matches ==> p == from
  {
    if |matches| == 1 && matches[0].path == from {
      assert matches[0] == File(from, Some(hash));
    }
    if File(from, Some(hash)) in matches && forall p :: File(p, Some(hash)) in matches ==> p == from {
      forall i | 0 <= i < |matches| ensures matches[i].path == from {
        assert matches[i] in matches && matches[i] == File(matches[i].path, Some(hash));
      }
      TwoDiffer(matches);
    }
  }

  lemma OneMatch(previous: seq<File>, current: seq<File>, hash: string, from: string)
    requires UniquePaths(previous)
    ensures var matches := Matches(Without(previous, current), hash);
            |matches| == 1 && matches[0].path == from <==>
              GoneWith(previous, current, from, hash) && forall p :: GoneWith(previous, current, p, hash) ==> p == from
  {
    var matches := Matches(Without(previous, current), hash);
    WithoutIsUnique(previous, current);
    MatchesAreUnique(Without(previous, current), hash);
    Single(matches, hash, from);
    forall p ensures GoneWith(previous, current, p, hash) <==> File(p, Some(hash)) in matches {
      MatchIsGone(previous, current, p, hash);
    }
  }

  // ---------- the file it became ----------

  /** The first file of a list with a hash, by path. */
  ghost predicate FirstPath(files: seq<File>, hash: string, path: string) {
    exists i: nat :: FirstWith(files, i, hash) && files[i].path == path
  }

  ghost predicate FirstNewPath(previous: seq<File>, current: seq<File>, hash: string, path: string) {
    exists i: nat :: FirstNew(previous, current, i, hash) && current[i].path == path
  }

  ghost predicate NoneWith(files: seq<File>, hash: string) { forall f :: f in files ==> f.hash != Some(hash) }

  ghost predicate AllOld(previous: seq<File>, files: seq<File>, hash: string) {
    forall f :: f in files && f.hash == Some(hash) ==> HasPath(previous, f.path)
  }

  lemma NoneNew(previous: seq<File>, files: seq<File>, hash: string)
    ensures NoneWith(Without(files, previous), hash) <==> AllOld(previous, files, hash)
  {
    var added := Without(files, previous);
    assert forall f :: f in added <==> f in files && !HasPath(previous, f.path);
  }

  lemma FirstPathSnoc(front: seq<File>, last: File, hash: string, path: string)
    ensures FirstPath(front + [last], hash, path) <==>
              FirstPath(front, hash, path)
              || (last == File(path, Some(hash)) && NoneWith(front, hash))
  {
    var all := front + [last];
    forall i: nat | i < |front| ensures FirstWith(all, i, hash) <==> FirstWith(front, i, hash) {
      FirstStays(front, last, i, hash);
    }
    FirstStays(front, last, 0, hash);
    if FirstPath(front, hash, path) {
      var i: nat :| FirstWith(front, i, hash) && front[i].path == path;
      assert FirstWith(all, i, hash) && all[i].path == path;
    }
    if last == File(path, Some(hash)) && NoneWith(front, hash) {
      assert FirstWith(all, |front|, hash) && all[|front|].path == path;
    }
  }

  lemma FirstNewSnoc(previous: seq<File>, front: seq<File>, last: File, hash: string, path: string)
    ensures FirstNewPath(previous, front + [last], hash, path) <==>
              FirstNewPath(previous, front, hash, path)
              || (last == File(path, Some(hash)) && !HasPath(previous, path) && AllOld(previous, front, hash))
  {
    var all := front + [last];
    assert forall j :: 0 <= j < |front| ==> all[j] == front[j];
    forall i: nat | i < |front| ensures FirstNew(previous, all, i, hash) <==> FirstNew(previous, front, i, hash) {
    }
    if FirstNewPath(previous, front, hash, path) {
      var i: nat :| FirstNew(previous, front, i, hash) && front[i].path == path;
      assert FirstNew(previous, all, i, hash) && all[i].path == path;
    }
    if FirstNew(previous, all, |front|, hash) {
      forall f | f in front && f.hash == Some(hash) ensures HasPath(previous, f.path) {
        var j :| 0 <= j < |front| && front[j] == f;
        assert all[j] == f;
      }
    }
    if last == File(path, Some(hash)) && !HasPath(previous, path) && AllOld(previous, front, hash) {
      assert FirstNew(previous, all, |front|, hash) && all[|front|].path == path;
    }
  }

  lemma WithoutSnoc(front: seq<File>, last: File, previous: seq<File>)
    ensures Without(front + [last], previous) == Without(front, previous) + if HasPath(previous, last.path) then [] else [last]
  {
    assert (front + [last])[..|front|] == front;
  }

  lemma AddedStep(previous: seq<File>, front: seq<File>, last: File, hash: string, path: string)
    requires FirstPath(Without(front, previous), hash, path) <==> FirstNewPath(previous, front, hash, path)
    ensures FirstPath(Without(front + [last], previous), hash, path) <==> FirstNewPath(previous, front + [last], hash, path)
  {
    var added := Without(front, previous);
    WithoutSnoc(front, last, previous);
    FirstNewSnoc(previous, front, last, hash, path);
    if HasPath(previous, last.path) {
      assert added + [] == added;
    } else {
      FirstPathSnoc(added, last, hash, path);
      NoneNew(previous, front, hash);
    }
  }

  lemma {:induction false} FirstOfAdded(previous: seq<File>, current: seq<File>, hash: string, path: string)
    ensures FirstPath(Without(current, previous), hash, path) <==> FirstNewPath(previous, current, hash, path)
  {
    if current != [] {
      var front, last := current[..|current| - 1], current[|current| - 1];
      assert current == front + [last];
      FirstOfAdded(previous, front, hash, path);
      AddedStep(previous, front, last, hash, path);
    }
  }

  /** Main result: the renames are exactly the moves of the snapshots. */
  lemma RenamedExactlyWhen(previous: seq<File>, current: seq<File>, r: Rename)
    requires UniquePaths(previous) && UniquePaths(current)
    ensures r in ChangesBetween(Some(previous), current).renamed <==> exists i: nat :: MovedTo(previous, current, i, r)
  {
    var added, deleted := Without(current, previous), Without(previous, current);
    WithoutIsUnique(current, previous);
    WithoutIsUnique(previous, current);
    RenamesAreExact(added, deleted);
    FirstOfAdded(previous, current, r.hash, r.to);
    OneMatch(previous, current, r.hash, r.from);
    if i: nat :| IsRename(added, deleted, i, r) {
      assert FirstPath(added, r.hash, r.to);
      var j: nat :| FirstNew(previous, current, j, r.hash) && current[j].path == r.to;
      assert MovedTo(previous, current, j, r);
    }
    if i: nat :| MovedTo(previous, current, i, r) {
      assert FirstNewPath(previous, current, r.hash, r.to);
      var j: nat :| FirstWith(added, j, r.hash) && added[j].path == r.to;
      assert IsRename(added, deleted, j, r);
    }
  }
}
