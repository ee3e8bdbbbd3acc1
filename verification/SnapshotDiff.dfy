/** The difference of two project snapshots, with rename detection (src/project-structure.js:385-421). */
module SnapshotDiff {
  import opened Common
  import opened StringOrder

  /** Of a file only the path and the content hash matter; skipped files have no hash. */
  datatype File = File(path: string, hash: Option<string>)

  ghost predicate UniquePaths(files: seq<File>) {
    forall i, j :: 0 <= i < j < |files| ==> files[i].path != files[j].path
  }

  datatype Rename = Rename(from: string, to: string, hash: string)

  datatype Changes = Changes(added: seq<string>, changed: seq<string>, deleted: seq<string>, renamed: seq<Rename>)

  predicate HasPath(files: seq<File>, path: string) { exists i :: 0 <= i < |files| && files[i].path == path }

  lemma NotTheLast(files: seq<File>, path: string)
    requires HasPath(files, path) && files[|files| - 1].path != path
    ensures HasPath(files[..|files| - 1], path)
  {
    var i :| 0 <= i < |files| && files[i].path == path;
    assert files[..|files| - 1][i].path == path;
  }

  function HashOf(files: seq<File>, path: string): Option<string>
    requires HasPath(files, path)
  {
    if files[|files| - 1].path == path then files[|files| - 1].hash
    else
      NotTheLast(files, path);
      HashOf(files[..|files| - 1], path)
  }

  lemma {:induction false} HashAt(files: seq<File>, i: nat)
    requires UniquePaths(files) && i < |files|
    ensures HashOf(files, files[i].path) == files[i].hash
  {
    var last := files[|files| - 1];
    if i < |files| - 1 {
      assert files[..|files| - 1][i] == files[i];
      HashAt(files[..|files| - 1], i);
    }
  }

  // ---------- the parts ----------

  function Paths(files: seq<File>): (r: seq<string>)
    ensures |r| == |files| && forall i :: 0 <= i < |files| ==> r[i] == files[i].path
  {
    seq(|files|, i requires 0 <= i < |files| => files[i].path)
  }

  lemma PathsAre(files: seq<File>, p: string)
    ensures p in Paths(files) <==> HasPath(files, p)
  {
    if HasPath(files, p) {
      var i :| 0 <= i < |files| && files[i].path == p;
      assert Paths(files)[i] == p;
    }
  }

  /** Files of the first list whose path the second does not have, in order. */
  function Without(files: seq<File>, other: seq<File>): (r: seq<File>)
    ensures forall f :: f in r <==> f in files && !HasPath(other, f.path)
  {
    if files == [] then []
    else
      var front, last := files[..|files| - 1], files[|files| - 1];
      assert files == front + [last];
      Without(front, other) + if HasPath(other, last.path) then [] else [last]
  }

  function ChangedFiles(current: seq<File>, previous: seq<File>): (r: seq<File>)
    ensures forall f :: f in r <==> f in current && HasPath(previous, f.path) && HashOf(previous, f.path) != f.hash
  {
    if current == [] then []
    else
      var front, last := current[..|current| - 1], current[|current| - 1];
      assert current == front + [last];
      ChangedFiles(front, previous)
      + if HasPath(previous, last.path) && HashOf(previous, last.path) != last.hash then [last] else []
  }

  lemma MemberIndex(files: seq<File>, f: File)
    requires f in files
    ensures HasPath(files, f.path)
  {
    var i :| 0 <= i < |files| && files[i] == f;
    assert files[i].path == f.path;
  }

  lemma SamePathSameFile(files: seq<File>, a: File, b: File)
    requires UniquePaths(files) && a in files && b in files && a.path == b.path
    ensures a == b
  {
    var i :| 0 <= i < |files| && files[i] == a;
    var j :| 0 <= j < |files| && files[j] == b;
  }

  lemma UniqueSnoc(files: seq<File>, f: File)
    requires UniquePaths(files) && !HasPath(files, f.path)
    ensures UniquePaths(files + [f])
  {
  }

  lemma {:induction false} WithoutIsUnique(files: seq<File>, other: seq<File>)
    requires UniquePaths(files)
    ensures UniquePaths(Without(files, other))
  {
    if files != [] {
      var front, last := files[..|files| - 1], files[|files| - 1];
      WithoutIsUnique(front, other);
      KeptPathsAreOld(files, Without(front, other));
      UniqueSnoc(Without(front, other), last);
    }
  }

  lemma {:induction false} ChangedIsUnique(current: seq<File>, previous: seq<File>)
    requires UniquePaths(current)
    ensures UniquePaths(ChangedFiles(current, previous))
  {
    if current != [] {
      var front, last := current[..|current| - 1], current[|current| - 1];
      ChangedIsUnique(front, previous);
      KeptPathsAreOld(current, ChangedFiles(front, previous));
      UniqueSnoc(ChangedFiles(front, previous), last);
    }
  }

  lemma KeptPathsAreOld(files: seq<File>, kept: seq<File>)
    requires UniquePaths(files) && files != [] && forall f :: f in kept ==> f in files[..|files| - 1]
    ensures !HasPath(kept, files[|files| - 1].path)
  {
    var front, last := files[..|files| - 1], files[|files| - 1];
    forall i | 0 <= i < |kept| ensures kept[i].path != last.path {
      assert kept[i] in kept;
      var j :| 0 <= j < |front| && front[j] == kept[i];
    }
  }

  // ---------- renames ----------

  /** Deleted files with a given hash. */
  function Matches(deleted: seq<File>, hash: string): (r: seq<File>)
    ensures forall f :: f in r <==> f in deleted && f.hash == Some(hash)
  {
    if deleted == [] then []
    else
      var front, last := deleted[..|deleted| - 1], deleted[|deleted| - 1];
      assert deleted == front + [last];
      Matches(front, hash) + if last.hash == Some(hash) then [last] else []
  }

  predicate Taken(renames: seq<Rename>, from: string) { exists i :: 0 <= i < |renames| && renames[i].from == from }

  function Consider(renames: seq<Rename>, deleted: seq<File>, file: File): seq<Rename> {
    if file.hash.None? then renames
    else
      var matches := Matches(deleted, file.hash.value);
      if |matches| != 1 || Taken(renames, matches[0].path) then renames
      else renames + [Rename(matches[0].path, file.path, file.hash.value)]
  }

  function Renames(added: seq<File>, deleted: seq<File>): seq<Rename> {
    if added == [] then []
    else Consider(Renames(added[..|added| - 1], deleted), deleted, added[|added| - 1])
  }

  predicate FirstWith(added: seq<File>, i: nat, hash: string) {
    i < |added| && added[i].hash == Some(hash) && forall j :: 0 <= j < i ==> added[j].hash != Some(hash)
  }

  /** When a file counts as renamed: a single deleted file has its hash, and no earlier added file does. */
  ghost predicate IsRename(added: seq<File>, deleted: seq<File>, i: nat, r: Rename) {
    && FirstWith(added, i, r.hash) && added[i].path == r.to
    && |Matches(deleted, r.hash)| == 1 && Matches(deleted, r.hash)[0].path == r.from
  }

  lemma {:induction false} FirstExists(added: seq<File>, hash: string, j: nat)
    requires j < |added| && added[j].hash == Some(hash)
    ensures exists i :: 0 <= i <= j && FirstWith(added, i, hash)
    decreases j
  {
    if k :| 0 <= k < j && added[k].hash == Some(hash) {
      FirstExists(added, hash, k);
      var i :| 0 <= i <= k && FirstWith(added, i, hash);
      assert 0 <= i <= j && FirstWith(added, i, hash);
    } else {
      assert FirstWith(added, j, hash);
    }
  }

  ghost predicate Exact(renames: seq<Rename>, added: seq<File>, deleted: seq<File>) {
    && (forall r :: r in renames ==> exists i: nat :: IsRename(added, deleted, i, r))
    && (forall i: nat, r: Rename :: IsRename(added, deleted, i, r) ==> r in renames)
    && (forall k, l :: 0 <= k < l < |renames| ==> renames[k].from != renames[l].from && renames[k].to != renames[l].to)
  }

  lemma OnlyMatch(deleted: seq<File>, a: string, b: string)
    requires UniquePaths(deleted) && |Matches(deleted, a)| == 1 && |Matches(deleted, b)| == 1
    requires Matches(deleted, a)[0].path == Matches(deleted, b)[0].path
    ensures a == b
  {
    var f, g := Matches(deleted, a)[0], Matches(deleted, b)[0];
    assert f in Matches(deleted, a) && g in Matches(deleted, b);
    SamePathSameFile(deleted, f, g);
  }

  /** A deleted file is taken exactly when an earlier added file has its hash. */
  lemma TakenMeansEarlier(renames: seq<Rename>, added: seq<File>, deleted: seq<File>, hash: string)
    requires UniquePaths(deleted) && Exact(renames, added, deleted) && |Matches(deleted, hash)| == 1
    ensures Taken(renames, Matches(deleted, hash)[0].path) <==> exists j :: 0 <= j < |added| && added[j].hash == Some(hash)
  {
    var from := Matches(deleted, hash)[0].path;
    if Taken(renames, from) {
      var k :| 0 <= k < |renames| && renames[k].from == from;
      assert renames[k] in renames;
      var i: nat :| IsRename(added, deleted, i, renames[k]);
      OnlyMatch(deleted, hash, renames[k].hash);
    }
    if j :| 0 <= j < |added| && added[j].hash == Some(hash) {
      FirstExists(added, hash, j);
      var i :| 0 <= i <= j && FirstWith(added, i, hash);
      var r := Rename(from, added[i].path, hash);
      assert IsRename(added, deleted, i, r);
      var k :| 0 <= k < |renames| && renames[k] == r;
      assert renames[k].from == from;
    }
  }

  lemma FirstStays(front: seq<File>, last: File, i: nat, hash: string)
    ensures i < |front| ==> (FirstWith(front + [last], i, hash) <==> FirstWith(front, i, hash))
    ensures FirstWith(front + [last], |front|, hash) <==> last.hash == Some(hash) && forall j :: 0 <= j < |front| ==> front[j].hash != Some(hash)
  {
    assert forall j :: 0 <= j < |front| ==> (front + [last])[j] == front[j];
  }

  lemma RenameStays(front: seq<File>, last: File, deleted: seq<File>)
    ensures forall i: nat, r: Rename :: i < |front| ==> (IsRename(front + [last], deleted, i, r) <==> IsRename(front, deleted, i, r))
  {
    forall i: nat, r: Rename | i < |front| ensures IsRename(front + [last], deleted, i, r) <==> IsRename(front, deleted, i, r) {
      FirstStays(front, last, i, r.hash);
    }
  }

  /** Whether the newly considered file is renamed, and from where. */
  lemma LastRename(renames: seq<Rename>, front: seq<File>, last: File, deleted: seq<File>)
    requires UniquePaths(deleted) && Exact(renames, front, deleted)
    ensures Consider(renames, deleted, last) == renames ==> forall r :: !IsRename(front + [last], deleted, |front|, r)
    ensures Consider(renames, deleted, last) != renames ==>
              var r := Consider(renames, deleted, last)[|renames|];
              && Consider(renames, deleted, last) == renames + [r] && !Taken(renames, r.from) && r.to == last.path
              && IsRename(front + [last], deleted, |front|, r)
              && forall q :: IsRename(front + [last], deleted, |front|, q) ==> q == r
  {
    if last.hash.Some? {
      var h := last.hash.value;
      FirstStays(front, last, |front|, h);
      if |Matches(deleted, h)| == 1 {
        TakenMeansEarlier(renames, front, deleted, h);
      }
    }
  }

  lemma KeepsExact(renames: seq<Rename>, front: seq<File>, last: File, deleted: seq<File>)
    requires UniquePaths(deleted) && Exact(renames, front, deleted) && !HasPath(front, last.path)
    ensures Exact(Consider(renames, deleted, last), front + [last], deleted)
  {
    var after, all := Consider(renames, deleted, last), front + [last];
    RenameStays(front, last, deleted);
    LastRename(renames, front, last, deleted);
    forall r | r in after ensures exists i: nat :: IsRename(all, deleted, i, r) {
      if r in renames {
        var i: nat :| IsRename(front, deleted, i, r);
        assert IsRename(all, deleted, i, r);
      } else {
        assert IsRename(all, deleted, |front|, r);
      }
    }
    forall i: nat, r: Rename | IsRename(all, deleted, i, r) ensures r in after {
      if i < |front| { assert IsRename(front, deleted, i, r); }
    }
    forall k | 0 <= k < |renames| ensures renames[k].to != last.path {
      assert renames[k] in renames;
      var i: nat :| IsRename(front, deleted, i, renames[k]);
      assert front[i].path == renames[k].to;
    }
  }

  /** Main result: renames are one-to-one and happen exactly as described. */
  lemma {:induction false} RenamesAreExact(added: seq<File>, deleted: seq<File>)
    requires UniquePaths(added) && UniquePaths(deleted)
    ensures Exact(Renames(added, deleted), added, deleted)
  {
    if added != [] {
      var front, last := added[..|added| - 1], added[|added| - 1];
      RenamesAreExact(front, deleted);
      assert added == front + [last];
      KeepsExact(Renames(front, deleted), front, last, deleted);
    }
  }

  // ---------- the changes ----------

  function TargetsOf(renames: seq<Rename>): (r: seq<string>)
    ensures |r| == |renames| && forall i :: 0 <= i < |renames| ==> r[i] == renames[i].to
  {
    seq(|renames|, i requires 0 <= i < |renames| => renames[i].to)
  }

  function SourcesOf(renames: seq<Rename>): (r: seq<string>)
    ensures |r| == |renames| && forall i :: 0 <= i < |renames| ==> r[i] == renames[i].from
  {
    seq(|renames|, i requires 0 <= i < |renames| => renames[i].from)
  }

  function Minus(paths: seq<string>, out: seq<string>): (r: seq<string>)
    ensures forall p :: p in r <==> p in paths && p !in out
  {
    if paths == [] then []
    else
      var front, last := paths[..|paths| - 1], paths[|paths| - 1];
      assert paths == front + [last];
      Minus(front, out) + if last in out then [] else [last]
  }

  /** Everything of the new snapshot is added when there was none before; that list alone keeps file order. */
  function ChangesBetween(previous: Option<seq<File>>, current: seq<File>): Changes {
    if previous.None? then Changes(Paths(current), [], [], [])
    else
      var added, deleted := Without(current, previous.value), Without(previous.value, current);
      var renamed := Renames(added, deleted);
      Changes(Sort(Minus(Paths(added), TargetsOf(renamed))), Sort(Paths(ChangedFiles(current, previous.value))),
              Sort(Minus(Paths(deleted), SourcesOf(renamed))), renamed)
  }

  // ---------- the loops ----------

  ghost predicate Groups(byHash: map<string, seq<File>>, deleted: seq<File>) {
    forall h :: Matches(deleted, h) == if h in byHash then byHash[h] else []
  }

  method GroupByHash(deleted: seq<File>) returns (byHash: map<string, seq<File>>)
    ensures Groups(byHash, deleted)
  {
    byHash := map[];
    for i := 0 to |deleted|
      invariant Groups(byHash, deleted[..i])
    {
      var file := deleted[i];
      assert deleted[..i + 1][..i] == deleted[..i];
      if file.hash.Some? {
        var values := if file.hash.value in byHash then byHash[file.hash.value] else [];
        byHash := byHash[file.hash.value := values + [file]];
      }
    }
    assert deleted[..|deleted|] == deleted;
  }

  method DetectRenames(added: seq<File>, deleted: seq<File>) returns (renamed: seq<Rename>)
    ensures renamed == Renames(added, deleted)
  {
    renamed := [];
    var deletedByHash := GroupByHash(deleted);
    var renamedFrom: set<string> := {};
    for i := 0 to |added|
      invariant renamed == Renames(added[..i], deleted)
      invariant forall p :: p in renamedFrom <==> Taken(renamed, p)
    {
      var file := added[i];
      assert added[..i + 1][..i] == added[..i];
      if file.hash.Some? {
        assert Matches(deleted, file.hash.value) == if file.hash.value in deletedByHash then deletedByHash[file.hash.value] else [];
        var matches := if file.hash.value in deletedByHash then deletedByHash[file.hash.value] else [];
        if |matches| == 1 && matches[0].path !in renamedFrom {
          var source := matches[0];
          TakenAfter(renamed, Rename(source.path, file.path, file.hash.value));
          renamedFrom := renamedFrom + {source.path};
          renamed := renamed + [Rename(source.path, file.path, file.hash.value)];
        }
      }
    }
    assert added[..|added|] == added;
  }

  lemma TakenAfter(renames: seq<Rename>, r: Rename)
    ensures forall p :: Taken(renames + [r], p) <==> Taken(renames, p) || p == r.from
  {
    assert (renames + [r])[|renames|] == r;
    forall p | Taken(renames, p) ensures Taken(renames + [r], p) {
      var i :| 0 <= i < |renames| && renames[i].from == p;
      assert (renames + [r])[i].from == p;
    }
  }

  method StructureChanges(previous: Option<seq<File>>, current: seq<File>) returns (changes: Changes)
    ensures changes == ChangesBetween(previous, current)
  {
    if previous.None? {
      return Changes(Paths(current), [], [], []);
    }
    var added, deleted := Without(current, previous.value), Without(previous.value, current);
    var renamed := DetectRenames(added, deleted);
    return Changes(Sort(Minus(Paths(added), TargetsOf(renamed))), Sort(Paths(ChangedFiles(current, previous.value))),
                   Sort(Minus(Paths(deleted), SourcesOf(renamed))), renamed);
  }
}
