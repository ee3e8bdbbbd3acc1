/** A snapshot difference says enough: applied to the old snapshot it gives the new one. */
module SnapshotReconstruct {
  import opened Common
  import opened StringOrder
  import opened SnapshotDiff

  type PathMap = map<string, Option<string>>

  function MapOf(files: seq<File>): PathMap {
    map p | p in Paths(files) :: (PathsAre(files, p); HashOf(files, p))
  }

  function RenamedHash(renamed: seq<Rename>, to: string): Option<string> {
    if renamed == [] then None
    else if renamed[|renamed| - 1].to == to then Some(renamed[|renamed| - 1].hash)
    else RenamedHash(renamed[..|renamed| - 1], to)
  }

  predicate Gone(c: Changes, p: string) { p in c.deleted || p in SourcesOf(c.renamed) }

  /** The hash of a path after the changes; only added and changed files need the new snapshot for it. */
  function NewHash(before: PathMap, c: Changes, contents: PathMap, p: string): Option<string> {
    if p in c.added || p in c.changed then (if p in contents then contents[p] else None)
    else if p in TargetsOf(c.renamed) then RenamedHash(c.renamed, p)
    else if p in before then before[p]
    else None
  }

  function Apply(before: PathMap, c: Changes, contents: PathMap): PathMap {
    map p | p in before.Keys + (set x | x in c.added) + (set x | x in TargetsOf(c.renamed)) && !Gone(c, p)
      :: NewHash(before, c, contents, p)
  }

  // ---------- which path is in which class ----------

  lemma WithoutPaths(files: seq<File>, other: seq<File>, p: string)
    ensures HasPath(Without(files, other), p) <==> HasPath(files, p) && !HasPath(other, p)
  {
    var kept := Without(files, other);
    if HasPath(kept, p) {
      var i :| 0 <= i < |kept| && kept[i].path == p;
      assert kept[i] in kept;
      MemberIndex(files, kept[i]);
    }
    if HasPath(files, p) && !HasPath(other, p) {
      var i :| 0 <= i < |files| && files[i].path == p;
      assert files[i] in kept;
      MemberIndex(kept, files[i]);
    }
  }

  lemma ChangedPaths(current: seq<File>, previous: seq<File>, p: string)
    requires UniquePaths(current)
    ensures HasPath(ChangedFiles(current, previous), p)
       <==> HasPath(current, p) && HasPath(previous, p) && HashOf(previous, p) != HashOf(current, p)
  {
    var changed := ChangedFiles(current, previous);
    if HasPath(changed, p) {
      var i :| 0 <= i < |changed| && changed[i].path == p;
      assert changed[i] in changed;
      var j :| 0 <= j < |current| && current[j] == changed[i];
      HashAt(current, j);
      assert current[j].path == p;
    }
    if HasPath(current, p) && HasPath(previous, p) && HashOf(previous, p) != HashOf(current, p) {
      var i :| 0 <= i < |current| && current[i].path == p;
      HashAt(current, i);
      assert current[i] in changed;
      MemberIndex(changed, current[i]);
    }
  }

  lemma PathsDistinct(files: seq<File>)
    requires UniquePaths(files)
    ensures Distinct(Paths(files))
  {
  }

  lemma {:induction false} MinusIsDistinct(paths: seq<string>, out: seq<string>)
    requires Distinct(paths)
    ensures Distinct(Minus(paths, out))
  {
    if paths != [] {
      var front, last := paths[..|paths| - 1], paths[|paths| - 1];
      MinusIsDistinct(front, out);
      NotInFront(paths);
      assert last !in Minus(front, out);
    }
  }

  lemma NotInFront(s: seq<string>)
    requires Distinct(s) && s != []
    ensures s[|s| - 1] !in s[..|s| - 1]
  {
  }

  /** A rename leads from a deleted path to an added one and keeps the content. */
  ghost predicate GoodRename(previous: seq<File>, current: seq<File>, r: Rename) {
    && HasPath(previous, r.from) && !HasPath(current, r.from) && HashOf(previous, r.from) == Some(r.hash)
    && HasPath(current, r.to) && !HasPath(previous, r.to) && HashOf(current, r.to) == Some(r.hash)
  }

  lemma RenameIsGood(previous: seq<File>, current: seq<File>, r: Rename)
    requires UniquePaths(previous) && UniquePaths(current)
    requires r in Renames(Without(current, previous), Without(previous, current))
    ensures GoodRename(previous, current, r)
  {
    var added, deleted := Without(current, previous), Without(previous, current);
    WithoutIsUnique(current, previous);
    WithoutIsUnique(previous, current);
    RenamesAreExact(added, deleted);
    var i: nat :| IsRename(added, deleted, i, r);
    assert added[i] in added;
    var source := Matches(deleted, r.hash)[0];
    assert source in Matches(deleted, r.hash);
    FileFacts(current, added[i]);
    FileFacts(previous, source);
  }

  lemma FileFacts(files: seq<File>, f: File)
    requires UniquePaths(files) && f in files
    ensures HasPath(files, f.path) && HashOf(files, f.path) == f.hash
  {
    var i :| 0 <= i < |files| && files[i] == f;
    HashAt(files, i);
  }

  ghost predicate Classified(c: Changes, previous: seq<File>, current: seq<File>) {
    && (forall p :: p in c.added <==> HasPath(current, p) && !HasPath(previous, p) && p !in TargetsOf(c.renamed))
    && (forall p :: p in c.deleted <==> HasPath(previous, p) && !HasPath(current, p) && p !in SourcesOf(c.renamed))
    && (forall p :: p in c.changed <==> HasPath(previous, p) && HasPath(current, p) && HashOf(previous, p) != HashOf(current, p))
    && (forall r :: r in c.renamed ==> GoodRename(previous, current, r))
    && StrictlyAscending(c.added) && StrictlyAscending(c.deleted) && StrictlyAscending(c.changed)
    && (forall k, l :: 0 <= k < l < |c.renamed| ==> c.renamed[k].from != c.renamed[l].from && c.renamed[k].to != c.renamed[l].to)
  }

  lemma AddedAre(previous: seq<File>, current: seq<File>, targets: seq<string>)
    requires UniquePaths(current)
    ensures var paths := Sort(Minus(Paths(Without(current, previous)), targets));
            && StrictlyAscending(paths)
            && (forall p :: p in paths <==> HasPath(current, p) && !HasPath(previous, p) && p !in targets)
  {
    var added := Without(current, previous);
    WithoutIsUnique(current, previous);
    PathsDistinct(added);
    MinusIsDistinct(Paths(added), targets);
    SortFacts(Minus(Paths(added), targets));
    forall p ensures p in Paths(added) <==> HasPath(current, p) && !HasPath(previous, p) {
      PathsAre(added, p);
      WithoutPaths(current, previous, p);
    }
  }

  lemma ChangedAre(previous: seq<File>, current: seq<File>)
    requires UniquePaths(current)
    ensures var paths := Sort(Paths(ChangedFiles(current, previous)));
            && StrictlyAscending(paths)
            && (forall p :: p in paths <==> HasPath(previous, p) && HasPath(current, p) && HashOf(previous, p) != HashOf(current, p))
  {
    var changed := ChangedFiles(current, previous);
    ChangedIsUnique(current, previous);
    PathsDistinct(changed);
    SortFacts(Paths(changed));
    forall p ensures p in Paths(changed) <==> HasPath(previous, p) && HasPath(current, p) && HashOf(previous, p) != HashOf(current, p) {
      PathsAre(changed, p);
      ChangedPaths(current, previous, p);
    }
  }

  /** Main result: what each class holds, independently of how it is computed. */
  lemma ChangesAreClassified(previous: seq<File>, current: seq<File>)
    requires UniquePaths(previous) && UniquePaths(current)
    ensures Classified(ChangesBetween(Some(previous), current), previous, current)
  {
    var added, deleted := Without(current, previous), Without(previous, current);
    var renamed := Renames(added, deleted);
    AddedAre(previous, current, TargetsOf(renamed));
    AddedAre(current, previous, SourcesOf(renamed));
    ChangedAre(previous, current);
    WithoutIsUnique(current, previous);
    WithoutIsUnique(previous, current);
    RenamesAreExact(added, deleted);
    forall r | r in renamed ensures GoodRename(previous, current, r) { RenameIsGood(previous, current, r); }
  }

  lemma EndsOfRenames(c: Changes, previous: seq<File>, current: seq<File>, p: string)
    requires Classified(c, previous, current)
    ensures p in TargetsOf(c.renamed) ==> HasPath(current, p) && !HasPath(previous, p)
    ensures p in SourcesOf(c.renamed) ==> HasPath(previous, p) && !HasPath(current, p)
  {
    if p in TargetsOf(c.renamed) {
      var i :| 0 <= i < |c.renamed| && TargetsOf(c.renamed)[i] == p;
      assert c.renamed[i] in c.renamed;
    }
    if p in SourcesOf(c.renamed) {
      var i :| 0 <= i < |c.renamed| && SourcesOf(c.renamed)[i] == p;
      assert c.renamed[i] in c.renamed;
    }
  }

  /** The classes do not overlap. */
  lemma ClassesAreDisjoint(c: Changes, previous: seq<File>, current: seq<File>, p: string)
    requires Classified(c, previous, current)
    ensures p in c.added ==> p !in c.changed && p !in c.deleted && p !in SourcesOf(c.renamed) && p !in TargetsOf(c.renamed)
    ensures p in c.changed ==> p !in c.deleted && p !in SourcesOf(c.renamed) && p !in TargetsOf(c.renamed)
    ensures p in c.deleted ==> p !in SourcesOf(c.renamed) && p !in TargetsOf(c.renamed)
    ensures p in SourcesOf(c.renamed) ==> p !in TargetsOf(c.renamed)
  {
    EndsOfRenames(c, previous, current, p);
  }

  // ---------- reconstruction ----------

  lemma {:induction false} RenamedHashIs(renamed: seq<Rename>, current: seq<File>, p: string)
    requires forall r :: r in renamed ==> HasPath(current, r.to) && HashOf(current, r.to) == Some(r.hash)
    requires p in TargetsOf(renamed)
    ensures HasPath(current, p) && RenamedHash(renamed, p) == HashOf(current, p)
  {
    var front, last := renamed[..|renamed| - 1], renamed[|renamed| - 1];
    assert renamed == front + [last];
    assert last in renamed;
    if last.to != p {
      var i :| 0 <= i < |renamed| && TargetsOf(renamed)[i] == p;
      assert TargetsOf(front)[i] == p;
      RenamedHashIs(front, current, p);
    }
  }

  /** The hashes of the added and changed files, and perhaps anything else. */
  ghost predicate Supplies(contents: PathMap, c: Changes, current: seq<File>) {
    forall p :: HasPath(current, p) && (p in c.added || p in c.changed) ==> p in contents && contents[p] == HashOf(current, p)
  }

  lemma HashIsRight(c: Changes, previous: seq<File>, current: seq<File>, contents: PathMap, p: string)
    requires Classified(c, previous, current) && Supplies(contents, c, current) && HasPath(current, p)
    ensures NewHash(MapOf(previous), c, contents, p) == HashOf(current, p)
  {
    PathsAre(current, p);
    PathsAre(previous, p);
    EndsOfRenames(c, previous, current, p);
    if p in TargetsOf(c.renamed) {
      RenamedHashIs(c.renamed, current, p);
    }
  }

  lemma KeysAreRight(c: Changes, previous: seq<File>, current: seq<File>, contents: PathMap, p: string)
    requires Classified(c, previous, current)
    ensures p in Apply(MapOf(previous), c, contents) <==> HasPath(current, p)
  {
    PathsAre(previous, p);
    EndsOfRenames(c, previous, current, p);
  }

  /** Main result: the changes and the hashes of added and changed files turn the old path-to-hash map into the new one. */
  lemma ChangesReconstruct(previous: seq<File>, current: seq<File>, contents: PathMap)
    requires UniquePaths(previous) && UniquePaths(current)
    requires Supplies(contents, ChangesBetween(Some(previous), current), current)
    ensures Apply(MapOf(previous), ChangesBetween(Some(previous), current), contents) == MapOf(current)
  {
    ChangesAreClassified(previous, current);
    AppliedIsCurrent(ChangesBetween(Some(previous), current), previous, current, contents);
  }

  lemma AppliedIsCurrent(c: Changes, previous: seq<File>, current: seq<File>, contents: PathMap)
    requires Classified(c, previous, current) && Supplies(contents, c, current)
    ensures Apply(MapOf(previous), c, contents) == MapOf(current)
  {
    var after, goal := Apply(MapOf(previous), c, contents), MapOf(current);
    forall p ensures p in after <==> p in goal {
      KeysAreRight(c, previous, current, contents, p);
      PathsAre(current, p);
    }
    assert after.Keys == goal.Keys;
    forall p | p in after ensures after[p] == goal[p] {
      PathsAre(current, p);
      HashIsRight(c, previous, current, contents, p);
    }
  }

  /** Without an old snapshot the added files are the whole new one. */
  lemma FirstSnapshotReconstructs(current: seq<File>)
    ensures Apply(map[], ChangesBetween(None, current), MapOf(current)) == MapOf(current)
  {
    var c := ChangesBetween(None, current);
    var after := Apply(map[], c, MapOf(current));
    assert TargetsOf(c.renamed) == [];
    assert after.Keys == MapOf(current).Keys;
  }
}
