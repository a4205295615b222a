/** Restoring a backup into a directory, and what a backup followed by a restore leaves there. */
module Restore {
  import opened Sequences
  import opened Octal
  import opened TarHeader
  import opened TarArchive
  import opened Collect
  import opened Backup

  datatype DiskFile = DiskFile(bytes: Bytes, mode: int)

  /** A file system without links: its files, and its directories besides. */
  datatype DiskState = DiskState(files: map<Path, DiskFile>, dirs: set<Path>)

  datatype RestoreResult = RestoreResult(ok: bool, dryRun: bool, restored: seq<Bytes>)

  datatype RestoreOptions = RestoreOptions(
    target: Path, allowed: Path, dryRun: bool, force: bool, writable: bool)

  /** The proper ancestors of a path, the root directory among them. */
  function Ancestors(p: Path): set<Path> {
    set k | 0 <= k < |p| :: p[..k]
  }

  /** `mkdir -p`: fails on a file in the way. */
  function MakeDirs(d: DiskState, p: Path): Option<DiskState> {
    if (exists q :: q in Ancestors(p) + {p} && q in d.files) then None
    else Some(d.(dirs := d.dirs + Ancestors(p) + {p}))
  }

  function TargetPath(target: Path, name: Bytes): Path { target + SplitOn(name, SLASH) }

  function RestoredFile(e: Entry): DiskFile {
    DiskFile(e.body, if e.mode.Some? then e.mode.value % 512 else 0)
  }

  /** One entry written below the target; `None` when the path is blocked. */
  function RestoreOne(d: DiskState, target: Path, e: Entry): Option<DiskState> {
    var path := TargetPath(target, e.name);
    if target == [] then None  // "/" followed by a separator is no prefix of any target path
    else
      var made := MakeDirs(d, path[..|path| - 1]);
      if made.None? || path in made.value.dirs then None
      else Some(made.value.(files := made.value.files[path := RestoredFile(e)]))
  }

  datatype Progress = Progress(disk: DiskState, restored: seq<Bytes>, ok: bool)

  /** The entries in order, up to the first that cannot be written. */
  function RestoreAll(d: DiskState, target: Path, files: seq<Entry>): Progress
    decreases |files|
  {
    if files == [] then Progress(d, [], true)
    else if files[0].name == MANIFEST_NAME then RestoreAll(d, target, files[1..])
    else match RestoreOne(d, target, files[0])
      case None => Progress(d, [], false)
      case Some(d') =>
        var rest := RestoreAll(d', target, files[1..]);
        rest.(restored := [files[0].name] + rest.restored)
  }

  function RestoreBackup(env: Env, d: DiskState, archive: Bytes, o: RestoreOptions)
    : (Result<RestoreResult, BackupError>, DiskState)
  {
    var read := ReadArchive(archive);
    if !Within(o.allowed, o.target) then (Failure(OutsideRoot), d)
    else if !GoodBackup(env, read) then (Success(RestoreResult(false, o.dryRun, [])), d)
    else if o.dryRun then
      (Success(RestoreResult((o.target in d.dirs || o.target in d.files) && o.writable, true, [])), d)
    else if !o.force then (Failure(ForceRequired), d)
    else match MakeDirs(d, o.target)
      case None => (Failure(TargetBlocked), d)
      case Some(d') =>
        var p := RestoreAll(d', o.target, FilesOf(read.entries));
        (Success(RestoreResult(p.ok, false, p.restored)), p.disk)
  }

  // ----- a conflict-free target -----

  /** Nothing on disk stands in the way of a file at this path. */
  predicate Clear(d: DiskState, path: Path) {
    && path != []
    && path !in d.dirs
    && forall q :: q in Ancestors(path) ==> q !in d.files
  }

  /** None of these paths leads through another. */
  predicate Flat(paths: seq<Path>) {
    forall i, j :: 0 <= i < |paths| && 0 <= j < |paths| && i != j ==> !(paths[i] <= paths[j])
  }

  function Paths(target: Path, files: seq<Entry>): (ps: seq<Path>)
    ensures |ps| == |files| && forall i :: 0 <= i < |files| ==> ps[i] == TargetPath(target, files[i].name)
  {
    seq(|files|, i requires 0 <= i < |files| => TargetPath(target, files[i].name))
  }

  /** What the entries put on disk. */
  function Placed(target: Path, files: seq<Entry>): map<Path, DiskFile> {
    if files == [] then map[]
    else map[TargetPath(target, files[0].name) := RestoredFile(files[0])] + Placed(target, files[1..])
  }

  function Names(files: seq<Entry>): (ns: seq<Bytes>)
    ensures |ns| == |files| && forall i :: 0 <= i < |files| ==> ns[i] == files[i].name
  {
    seq(|files|, i requires 0 <= i < |files| => files[i].name)
  }

  lemma ClearStep(d: DiskState, target: Path, e: Entry)
    requires target != [] && Clear(d, TargetPath(target, e.name)) && |TargetPath(target, e.name)| > |target|
    ensures var path := TargetPath(target, e.name);
            RestoreOne(d, target, e)
            == Some(DiskState(d.files[path := RestoredFile(e)], d.dirs + Ancestors(path)))
  {
    var path := TargetPath(target, e.name);
    var parent := path[..|path| - 1];
    AncestorsByParent(path);
    assert d.dirs + Ancestors(parent) + {parent} == d.dirs + Ancestors(path);
  }

  lemma StillClear(d: DiskState, path: Path, file: DiskFile, other: Path)
    requires Clear(d, other) && !(path <= other) && !(other <= path)
    ensures Clear(DiskState(d.files[path := file], d.dirs + Ancestors(path)), other)
  {
    assert other !in Ancestors(path) && path !in Ancestors(other);
  }

  lemma Unfold(d: DiskState, target: Path, files: seq<Entry>)
    requires files != []
    ensures Placed(target, files) ==
              map[TargetPath(target, files[0].name) := RestoredFile(files[0])] + Placed(target, files[1..])
    ensures files[0].name == MANIFEST_NAME ==> RestoreAll(d, target, files) == RestoreAll(d, target, files[1..])
    ensures files[0].name != MANIFEST_NAME && RestoreOne(d, target, files[0]).Some? ==>
              var rest := RestoreAll(RestoreOne(d, target, files[0]).value, target, files[1..]);
              RestoreAll(d, target, files) == rest.(restored := [files[0].name] + rest.restored)
  {
    hide RestoreOne;
  }

  lemma FlatTail(paths: seq<Path>)
    requires paths != [] && Flat(paths)
    ensures Flat(paths[1..])
    ensures forall i :: 0 < i < |paths| ==> !(paths[0] <= paths[i]) && !(paths[i] <= paths[0])
  {
    assert forall i :: 0 <= i < |paths[1..]| ==> paths[1..][i] == paths[i + 1];
  }

  /** Into a clear target, every entry is restored, in order, and nothing else changes. */
  lemma {:induction false} RestoresAll(d: DiskState, target: Path, files: seq<Entry>)
    requires target != []
    requires forall i :: 0 <= i < |files| ==> files[i].name != MANIFEST_NAME
    requires Flat(Paths(target, files))
    requires forall i :: 0 <= i < |files| ==> Clear(d, Paths(target, files)[i])
    ensures var p := RestoreAll(d, target, files);
            p.ok && p.restored == Names(files) && p.disk.files == d.files + Placed(target, files)
    decreases |files|
  {
    if files != [] {
      hide *;
      RestoresFirst(d, target, files);
      var d' := RestoreOne(d, target, files[0]).value;
      RestoresAll(d', target, files[1..]);
      Unfold(d, target, files);
      assert Names(files) == [files[0].name] + Names(files[1..]);
      MapPlusAssociates(d.files, TargetPath(target, files[0].name), RestoredFile(files[0]), Placed(target, files[1..]));
    }
  }

  lemma MapPlusAssociates<K, V>(a: map<K, V>, k: K, v: V, b: map<K, V>)
    ensures a + (map[k := v] + b) == a[k := v] + b
  {
  }

  lemma RestoresFirst(d: DiskState, target: Path, files: seq<Entry>)
    requires target != [] && files != []
    requires Flat(Paths(target, files))
    requires forall i :: 0 <= i < |files| ==> Clear(d, Paths(target, files)[i])
    ensures var path := TargetPath(target, files[0].name);
            var d' := DiskState(d.files[path := RestoredFile(files[0])], d.dirs + Ancestors(path));
            && RestoreOne(d, target, files[0]) == Some(d')
            && Flat(Paths(target, files[1..]))
            && forall i :: 0 <= i < |files[1..]| ==> Clear(d', Paths(target, files[1..])[i])
  {
    hide *;
    var ps := Paths(target, files);
    var path := TargetPath(target, files[0].name);
    assert ps[0] == path;
    PathIsLonger(target, files[0].name);
    ClearStep(d, target, files[0]);
    FlatTail(ps);
    assert Paths(target, files[1..]) == ps[1..];
    var d' := DiskState(d.files[path := RestoredFile(files[0])], d.dirs + Ancestors(path));
    forall i | 0 <= i < |files[1..]| ensures Clear(d', Paths(target, files[1..])[i]) {
      StillClear(d, path, RestoredFile(files[0]), ps[i + 1]);
    }
  }

  /** One entry can be written exactly where nothing stands in its way. */
  lemma RestoredIffClear(d: DiskState, target: Path, e: Entry)
    requires target != []
    ensures RestoreOne(d, target, e).Some? <==> Clear(d, TargetPath(target, e.name))
    ensures RestoreOne(d, target, e).Some? ==>
              var path := TargetPath(target, e.name);
              RestoreOne(d, target, e)
                == Some(DiskState(d.files[path := RestoredFile(e)], d.dirs + Ancestors(path)))
  {
    hide TargetPath, RestoredFile;
    PathIsLonger(target, e.name);
    var path := TargetPath(target, e.name);
    AncestorsByParent(path);
    if Clear(d, path) {
      ClearStep(d, target, e);
    }
  }

  lemma AncestorsByParent(path: Path)
    requires path != []
    ensures Ancestors(path) == Ancestors(path[..|path| - 1]) + {path[..|path| - 1]}
  {
    var parent := path[..|path| - 1];
    forall k | 0 <= k < |parent| ensures parent[..k] == path[..k] {
    }
    forall q | q in Ancestors(path) ensures q in Ancestors(parent) + {parent} {
      var k :| 0 <= k < |path| && q == path[..k];
      if k < |parent| {
        assert q == parent[..k];
      }
    }
  }

  /** Writing one file changes nothing for paths that do not lead through one another. */
  lemma ClearUnchanged(d: DiskState, path: Path, file: DiskFile, other: Path)
    requires !(path <= other) && !(other <= path)
    ensures Clear(DiskState(d.files[path := file], d.dirs + Ancestors(path)), other) <==> Clear(d, other)
  {
    assert other !in Ancestors(path) && path !in Ancestors(other);
  }

  /** Flat entries are all restored exactly when nothing stands in the way of any. */
  lemma {:induction false} RestoresIff(d: DiskState, target: Path, files: seq<Entry>)
    requires target != []
    requires forall i :: 0 <= i < |files| ==> files[i].name != MANIFEST_NAME
    requires Flat(Paths(target, files))
    ensures RestoreAll(d, target, files).ok <==>
              forall i :: 0 <= i < |files| ==> Clear(d, Paths(target, files)[i])
    decreases |files|
  {
    if files != [] {
      hide RestoreOne, Clear, Flat, TargetPath, RestoredFile, Placed;
      RestoredIffClear(d, target, files[0]);
      var ps := Paths(target, files);
      assert ps[0] == TargetPath(target, files[0].name);
      if RestoreOne(d, target, files[0]).Some? {
        var d' := RestoreOne(d, target, files[0]).value;
        FlatTail(ps);
        assert Paths(target, files[1..]) == ps[1..];
        RestoresIff(d', target, files[1..]);
        forall i | 0 < i < |files| ensures Clear(d', ps[1..][i - 1]) <==> Clear(d, ps[i]) {
          ClearUnchanged(d, ps[0], RestoredFile(files[0]), ps[i]);
        }
        assert forall i :: 0 <= i < |files| - 1 ==> ps[1..][i] == ps[i + 1];
        Unfold(d, target, files);
      }
    }
  }

  lemma PathIsLonger(target: Path, name: Bytes)
    ensures |TargetPath(target, name)| > |target|
  {
  }

  lemma {:induction false} PlacedAt(target: Path, files: seq<Entry>, i: nat)
    requires i < |files| && Flat(Paths(target, files))
    ensures Paths(target, files)[i] in Placed(target, files)
    ensures Placed(target, files)[Paths(target, files)[i]] == RestoredFile(files[i])
    decreases |files|
  {
    hide TargetPath, RestoredFile;
    var ps := Paths(target, files);
    assert Paths(target, files[1..]) == ps[1..];
    FlatTail(ps);
    PlacedKeys(target, files[1..]);
    if i > 0 {
      PlacedAt(target, files[1..], i - 1);
    } else {
      assert ps[0] !in Placed(target, files[1..]);
    }
  }

  lemma {:induction false} PlacedKeys(target: Path, files: seq<Entry>)
    ensures forall path :: path in Placed(target, files) <==>
                             exists i :: 0 <= i < |files| && Paths(target, files)[i] == path
    decreases |files|
  {
    hide TargetPath, RestoredFile;
    if files != [] {
      var ps := Paths(target, files);
      assert Paths(target, files[1..]) == ps[1..];
      PlacedKeys(target, files[1..]);
      forall path
        ensures path in Placed(target, files) <==> exists i :: 0 <= i < |files| && ps[i] == path
      {
        if path in Placed(target, files[1..]) {
          var i :| 0 <= i < |files[1..]| && ps[1..][i] == path;
          assert ps[i + 1] == path;
        }
        if i :| 0 <= i < |files| && ps[i] == path {
          if i > 0 {
            assert ps[1..][i - 1] == path;
          }
        }
      }
    }
  }

  // ----- backup, then restore -----

  lemma SplitInjective(a: Bytes, b: Bytes)
    requires SplitOn(a, SLASH) == SplitOn(b, SLASH)
    ensures a == b
  {
    JoinOfSplit(a, SLASH);
    JoinOfSplit(b, SLASH);
  }

  lemma ManifestPathsFlat(t: Tree, m: seq<ManifestEntry>, target: Path)
    requires DistinctPaths(m) && forall e :: e in m ==> Resolvable(t, e.path)
    ensures Flat(Paths(target, EntriesFor(t, m)))
  {
    var ps := Paths(target, EntriesFor(t, m));
    forall i, j | 0 <= i < |ps| && 0 <= j < |ps| && i != j ensures !(ps[i] <= ps[j]) {
      var p, p' := SplitOn(m[i].path, SLASH), SplitOn(m[j].path, SLASH);
      assert ps[i] == target + p && ps[j] == target + p';
      assert Resolvable(t, m[i].path) && Resolvable(t, m[j].path);
      assert p != p' by {
        if p == p' {
          SplitInjective(m[i].path, m[j].path);
        }
      }
      if ps[i] <= ps[j] {
        assert p == ps[i][|target|..] && p' == ps[j][|target|..];
        assert p <= p';
        FilesDoNotNest(t, p, p');
      }
    }
  }

  lemma ClearAfterMkdir(d: DiskState, target: Path, path: Path)
    requires MakeDirs(d, target).Some? && target <= path && target != path
    ensures Clear(MakeDirs(d, target).value, path) <==> Clear(d, path)
  {
    assert path !in Ancestors(target);
  }

  /** What a backup holds, restored: the collected files below the target, and nothing else changed. */
  ghost predicate RestoredExactly(t: Tree, files: seq<Path>, target: Path, d: DiskState, d': DiskState) {
    && AllFiles(t, files)
    && (forall p :: p in files ==>
          && target + p in d'.files
          && d'.files[target + p] == DiskFile(Lookup(t, p).value.bytes, Lookup(t, p).value.mode % 512))
    && (forall path :: path in d'.files ==>
          || (path in d.files && d'.files[path] == d.files[path])
          || (exists p :: p in files && path == target + p))
    && (forall path :: path in d.files ==> path in d'.files)
  }

  /** Line by line: where each file of the manifest goes, and what is put there. */
  lemma LineRestored(env: Env, t: Tree, ps: seq<Path>, m: seq<ManifestEntry>, target: Path, i: nat)
    requires i < |m| && forall e :: e in m ==> Resolvable(t, e.path) && Describes(env, t, ps, e)
    ensures var p := SplitOn(m[i].path, SLASH);
            && p in ps && Lookup(t, p).Some? && Lookup(t, p).value.File?
            && EntriesFor(t, m)[i].name == m[i].path
            && Paths(target, EntriesFor(t, m))[i] == target + p
            && RestoredFile(EntriesFor(t, m)[i]) == DiskFile(Lookup(t, p).value.bytes, Lookup(t, p).value.mode % 512)
  {
    hide IsUnsafeTarPath, SplitOn, Lookup;
    assert Describes(env, t, ps, m[i]) && Resolvable(t, m[i].path);
  }

  lemma FilesRestored(env: Env, t: Tree, ps: seq<Path>, m: seq<ManifestEntry>, target: Path, d: DiskState)
    requires target != [] && DistinctPaths(m) && AllFiles(t, ps)
    requires forall i :: 0 <= i < |m| ==> m[i].path != MANIFEST_NAME
    requires forall e :: e in m ==> Resolvable(t, e.path) && Describes(env, t, ps, e)
    requires forall p :: p in ps ==> exists e :: e in m && SplitOn(e.path, SLASH) == p
    requires forall p :: p in ps ==> Clear(d, target + p)
    ensures var p := RestoreAll(d, target, EntriesFor(t, m));
            && p.ok && p.restored == Names(EntriesFor(t, m))
            && RestoredExactly(t, ps, target, d, p.disk)
  {
    hide *;
    var es := EntriesFor(t, m);
    forall i | 0 <= i < |m| ensures es[i].name != MANIFEST_NAME && Clear(d, Paths(target, es)[i]) {
      LineRestored(env, t, ps, m, target, i);
    }
    ManifestPathsFlat(t, m, target);
    RestoresAll(d, target, es);
    PlacedIsExact(env, t, ps, m, target, d);
    var d' := RestoreAll(d, target, es).disk;
    SameFiles(t, ps, target, d, d.(files := d.files + Placed(target, es)), d');
  }

  lemma {:induction false} PlacedIsExact(env: Env, t: Tree, ps: seq<Path>, m: seq<ManifestEntry>, target: Path,
                                         d: DiskState)
    requires AllFiles(t, ps) && (forall e :: e in m ==> Resolvable(t, e.path) && Describes(env, t, ps, e))
    requires forall p :: p in ps ==> exists e :: e in m && SplitOn(e.path, SLASH) == p
    requires Flat(Paths(target, EntriesFor(t, m)))
    ensures RestoredExactly(t, ps, target, d, d.(files := d.files + Placed(target, EntriesFor(t, m))))
  {
    hide IsUnsafeTarPath, Flat, Resolvable, Describes, SplitOn, Lookup, Placed, EntryFor, TargetPath, RestoredFile;
    var es := EntriesFor(t, m);
    var placed := Placed(target, es);
    PlacedKeys(target, es);
    forall p | p in ps
      ensures target + p in placed
      ensures placed[target + p] == DiskFile(Lookup(t, p).value.bytes, Lookup(t, p).value.mode % 512)
    {
      var e :| e in m && SplitOn(e.path, SLASH) == p;
      var i :| 0 <= i < |m| && m[i] == e;
      LineRestored(env, t, ps, m, target, i);
      PlacedAt(target, es, i);
    }
    forall path | path in placed ensures exists p :: p in ps && path == target + p {
      var i :| 0 <= i < |es| && Paths(target, es)[i] == path;
      LineRestored(env, t, ps, m, target, i);
    }
  }

  /** A backup of any root but "/", restored into a conflict-free target, leaves exactly the collected files there. */
  lemma {:induction false} BackupThenRestore(env: Env, t: Tree, root: Path, includes: seq<Bytes>, excluded: seq<Bytes>,
                                             now: nat, mode: nat, d: DiskState, o: RestoreOptions)
    requires ProperTree(t) && Sound(env) && root != []
    requires CreateBackup(env, t, root, includes, excluded, now, mode).Success?
    requires var m := CreateBackup(env, t, root, includes, excluded, now, mode).value.manifest;
             && |env.encode(m)| <= MANIFEST_LIMIT
             && forall i :: 0 <= i < |m| ==> m[i].path != MANIFEST_NAME
    requires o.force && !o.dryRun && Within(o.allowed, o.target) && o.target != [] && MakeDirs(d, o.target).Some?
    requires CollectFiles(root, t, includes, excluded).Success?
    requires forall p :: p in Dedup(CollectFiles(root, t, includes, excluded).value) ==> Clear(d, o.target + p)
    ensures var b := CreateBackup(env, t, root, includes, excluded, now, mode).value;
            var files := Dedup(CollectFiles(root, t, includes, excluded).value);
            var (r, d') := RestoreBackup(env, d, b.archive, o);
            && r.Success? && r.value.ok && |r.value.restored| == |b.manifest|
            && (forall i :: 0 <= i < |b.manifest| ==> r.value.restored[i] == b.manifest[i].path)
            && RestoredExactly(t, files, o.target, d, d')
  {
    hide *;
    CreatedManifest(env, t, root, includes, excluded, now, mode);
    ManifestLimitIsSmaller();
    CreatedIsGood(env, t, root, includes, excluded, now, mode);
    var b := CreateBackup(env, t, root, includes, excluded, now, mode).value;
    var files := Dedup(CollectFiles(root, t, includes, excluded).value);
    NamedBackupMatches(env, t, files, b.manifest);
    MadeOfFiles(env, root, t, files, b.manifest);
    NamedBackupFits(env, t, b.manifest);
    RestoreRuns(env, t, files, b.manifest, mode, b.archive, d, o);
  }

  lemma MadeOfFiles(env: Env, root: Path, t: Tree, files: seq<Path>, m: seq<ManifestEntry>)
    requires MadeOf(env, root, t, files, m)
    ensures AllFiles(t, files)
    ensures ListsAll(m, files) ==> forall p :: p in files ==> exists e :: e in m && SplitOn(e.path, SLASH) == p
  {
    hide FitLine, LineFor, Lookup, SplitOn;
  }

  lemma NamedBackupFits(env: Env, t: Tree, m: seq<ManifestEntry>)
    requires |env.encode(m)| <= MANIFEST_LIMIT && forall i :: 0 <= i < |m| ==> m[i].path != MANIFEST_NAME
    requires DistinctPaths(m) && HashesMatch(env, t, m)
    ensures Fit(env, t, m)
  {
    hide HashesMatch, DistinctPaths;
  }

  /** A created backup that reads back but does not fit is refused, and nothing is restored. */
  lemma UnfitBackupRefused(env: Env, t: Tree, root: Path, includes: seq<Bytes>, excluded: seq<Bytes>,
                           now: nat, mode: nat, d: DiskState, o: RestoreOptions)
    requires ProperTree(t) && Sound(env) && Within(o.allowed, o.target)
    requires CreateBackup(env, t, root, includes, excluded, now, mode).Success?
    requires var m := CreateBackup(env, t, root, includes, excluded, now, mode).value.manifest;
             |env.encode(m)| <= MAX_FILE_SIZE && SizesMatch(t, m) && !Fit(env, t, m)
    ensures var b := CreateBackup(env, t, root, includes, excluded, now, mode).value;
            RestoreBackup(env, d, b.archive, o) == (Success(RestoreResult(false, o.dryRun, [])), d)
  {
    hide CreateBackup, GoodBackup, ReadArchive, Fit, SizesMatch;
    CreatedIsGood(env, t, root, includes, excluded, now, mode);
  }

  /** Such a backup is restored completely exactly when the target is free of conflicts. */
  lemma {:induction false} RestoredIffConflictFree(env: Env, t: Tree, root: Path, includes: seq<Bytes>,
                                                   excluded: seq<Bytes>, now: nat, mode: nat, d: DiskState,
                                                   o: RestoreOptions)
    requires ProperTree(t) && Sound(env) && root != []
    requires CreateBackup(env, t, root, includes, excluded, now, mode).Success?
    requires var m := CreateBackup(env, t, root, includes, excluded, now, mode).value.manifest;
             && |env.encode(m)| <= MANIFEST_LIMIT
             && forall i :: 0 <= i < |m| ==> m[i].path != MANIFEST_NAME
    requires o.force && !o.dryRun && Within(o.allowed, o.target) && o.target != [] && MakeDirs(d, o.target).Some?
    requires CollectFiles(root, t, includes, excluded).Success?
    ensures var b := CreateBackup(env, t, root, includes, excluded, now, mode).value;
            var files := Dedup(CollectFiles(root, t, includes, excluded).value);
            var r := RestoreBackup(env, d, b.archive, o).0;
            r.Success? && (r.value.ok <==> forall p :: p in files ==> Clear(d, o.target + p))
  {
    hide *;
    CreatedManifest(env, t, root, includes, excluded, now, mode);
    ManifestLimitIsSmaller();
    CreatedIsGood(env, t, root, includes, excluded, now, mode);
    var b := CreateBackup(env, t, root, includes, excluded, now, mode).value;
    var files := Dedup(CollectFiles(root, t, includes, excluded).value);
    NamedBackupMatches(env, t, files, b.manifest);
    MadeOfFiles(env, root, t, files, b.manifest);
    NamedBackupFits(env, t, b.manifest);
    RestoreRunsIff(env, t, files, b.manifest, mode, b.archive, d, o);
  }

  /** The entries restored are those after the manifest. */
  lemma RestoreTakesLines(env: Env, t: Tree, m: seq<ManifestEntry>, mode: nat, archive: Bytes, d: DiskState,
                          o: RestoreOptions)
    requires o.force && !o.dryRun && Within(o.allowed, o.target) && MakeDirs(d, o.target).Some?
    requires forall e :: e in m ==> Resolvable(t, e.path)
    requires ReadArchive(archive) == Reading([ManifestEntryOf(env.encode(m), mode)] + EntriesFor(t, m), None)
    requires GoodBackup(env, ReadArchive(archive))
    ensures var p := RestoreAll(MakeDirs(d, o.target).value, o.target, EntriesFor(t, m));
            RestoreBackup(env, d, archive, o) == (Success(RestoreResult(p.ok, false, p.restored)), p.disk)
  {
    hide GoodBackup, ReadArchive, Resolvable, RestoreAll, FileAt;
    var first := ManifestEntryOf(env.encode(m), mode);
    var es := [first] + EntriesFor(t, m);
    assert FilesOf(es) == es by {
      AllFileEntries(t, m);
      FilterAll(es, IsFileEntry);
    }
    Unfold(MakeDirs(d, o.target).value, o.target, es);
    assert es[1..] == EntriesFor(t, m);
  }

  lemma RestoreRunsIff(env: Env, t: Tree, files: seq<Path>, m: seq<ManifestEntry>, mode: nat, archive: Bytes,
                       d: DiskState, o: RestoreOptions)
    requires o.force && !o.dryRun && Within(o.allowed, o.target) && o.target != [] && MakeDirs(d, o.target).Some?
    requires DistinctPaths(m) && AllFiles(t, files)
    requires forall i :: 0 <= i < |m| ==> m[i].path != MANIFEST_NAME
    requires forall e :: e in m ==> Resolvable(t, e.path) && Describes(env, t, files, e)
    requires forall p :: p in files ==> exists e :: e in m && SplitOn(e.path, SLASH) == p
    requires ReadArchive(archive) == Reading([ManifestEntryOf(env.encode(m), mode)] + EntriesFor(t, m), None)
    requires GoodBackup(env, ReadArchive(archive))
    ensures var r := RestoreBackup(env, d, archive, o).0;
            r.Success? && (r.value.ok <==> forall p :: p in files ==> Clear(d, o.target + p))
  {
    hide *;
    RestoreTakesLines(env, t, m, mode, archive, d, o);
    var d1 := MakeDirs(d, o.target).value;
    var es := EntriesFor(t, m);
    forall i | 0 <= i < |m|
      ensures es[i].name != MANIFEST_NAME && SplitOn(m[i].path, SLASH) in files
      ensures Clear(d1, Paths(o.target, es)[i]) <==> Clear(d, o.target + SplitOn(m[i].path, SLASH))
    {
      LineRestored(env, t, files, m, o.target, i);
      NotRoot(env, t, files, m, SplitOn(m[i].path, SLASH));
      ClearAfterMkdir(d, o.target, o.target + SplitOn(m[i].path, SLASH));
    }
    ManifestPathsFlat(t, m, o.target);
    RestoresIff(d1, o.target, es);
    if forall i :: 0 <= i < |es| ==> Clear(d1, Paths(o.target, es)[i]) {
      forall p | p in files ensures Clear(d, o.target + p) {
        var e :| e in m && SplitOn(e.path, SLASH) == p;
        var i :| 0 <= i < |m| && m[i] == e;
        assert Clear(d1, Paths(o.target, es)[i]);
      }
    }
  }

  lemma RestoreRuns(env: Env, t: Tree, files: seq<Path>, m: seq<ManifestEntry>, mode: nat, archive: Bytes,
                    d: DiskState, o: RestoreOptions)
    requires o.force && !o.dryRun && Within(o.allowed, o.target) && o.target != [] && MakeDirs(d, o.target).Some?
    requires DistinctPaths(m) && AllFiles(t, files)
    requires forall i :: 0 <= i < |m| ==> m[i].path != MANIFEST_NAME
    requires forall e :: e in m ==> Resolvable(t, e.path) && Describes(env, t, files, e)
    requires forall p :: p in files ==> exists e :: e in m && SplitOn(e.path, SLASH) == p
    requires forall p :: p in files ==> Clear(d, o.target + p)
    requires ReadArchive(archive) == Reading([ManifestEntryOf(env.encode(m), mode)] + EntriesFor(t, m), None)
    requires GoodBackup(env, ReadArchive(archive))
    ensures var (r, d') := RestoreBackup(env, d, archive, o);
            && r.Success? && r.value.ok && |r.value.restored| == |m|
            && (forall i :: 0 <= i < |m| ==> r.value.restored[i] == m[i].path)
            && RestoredExactly(t, files, o.target, d, d')
  {
    hide GoodBackup, ReadArchive, Describes, Resolvable, Clear, RestoreAll, RestoredExactly, FileAt, RestoreBackup;
    RestoreTakesLines(env, t, m, mode, archive, d, o);
    var d1 := MakeDirs(d, o.target).value;
    forall p | p in files ensures Clear(d1, o.target + p) {
      NotRoot(env, t, files, m, p);
      ClearAfterMkdir(d, o.target, o.target + p);
    }
    FilesRestored(env, t, files, m, o.target, d1);
    var d2 := RestoreAll(d1, o.target, EntriesFor(t, m)).disk;
    assert RestoredExactly(t, files, o.target, d, d2) by {
      SameStart(t, files, o.target, d1, d, d2);
    }
  }

  /** Only the files of a disk matter here. */
  lemma SameFiles(t: Tree, files: seq<Path>, target: Path, d: DiskState, d1: DiskState, d2: DiskState)
    requires RestoredExactly(t, files, target, d, d1) && d1.files == d2.files
    ensures RestoredExactly(t, files, target, d, d2)
  {
  }

  lemma SameStart(t: Tree, files: seq<Path>, target: Path, d1: DiskState, d: DiskState, d2: DiskState)
    requires RestoredExactly(t, files, target, d1, d2) && d1.files == d.files
    ensures RestoredExactly(t, files, target, d, d2)
  {
  }

  lemma NotRoot(env: Env, t: Tree, files: seq<Path>, m: seq<ManifestEntry>, p: Path)
    requires exists e :: e in m && SplitOn(e.path, SLASH) == p
    ensures p != []
  {
  }

  // ----- on a disk -----

  class Disk {
    var files: map<Path, DiskFile>
    var dirs: set<Path>

    ghost function State(): DiskState
      reads this
    {
      DiskState(files, dirs)
    }

    method MakeDirectories(p: Path) returns (ok: bool)
      modifies this
      ensures ok <==> MakeDirs(old(State()), p).Some?
      ensures State() == if ok then MakeDirs(old(State()), p).value else old(State())
    {
      if exists q :: q in Ancestors(p) + {p} && q in files {
        return false;
      }
      dirs := dirs + Ancestors(p) + {p};
      ok := true;
    }

    method WriteFile(path: Path, file: DiskFile) returns (ok: bool)
      modifies this
      ensures ok <==> path !in old(dirs)
      ensures dirs == old(dirs) && files == if ok then old(files)[path := file] else old(files)
    {
      if path in dirs {
        return false;
      }
      files := files[path := file];
      ok := true;
    }

    /** The restoring callback; a failed write leaves the directories it made. */
    method RestoreEntry(target: Path, e: Entry) returns (ok: bool)
      modifies this
      ensures ok <==> RestoreOne(old(State()), target, e).Some?
      ensures ok ==> State() == RestoreOne(old(State()), target, e).value
      ensures !ok ==> files == old(files)
    {
      if target == [] {
        return false;
      }
      var path := TargetPath(target, e.name);
      ok := MakeDirectories(path[..|path| - 1]);
      if ok {
        ok := WriteFile(path, RestoredFile(e));
      }
    }
  }

  /** The second pass over the archive, one entry at a time. */
  method RestoreEntries(disk: Disk, target: Path, entries: seq<Entry>) returns (ok: bool, restored: seq<Bytes>)
    modifies disk
    ensures var p := RestoreAll(old(disk.State()), target, FilesOf(entries));
            ok == p.ok && restored == p.restored && disk.files == p.disk.files && (ok ==> disk.State() == p.disk)
  {
    hide RestoreOne, MakeDirs, TargetPath, FilesOf;
    restored := [];
    ghost var whole := RestoreAll(disk.State(), target, FilesOf(entries));
    assert entries[0..] == entries;
    for i := 0 to |entries|
      invariant var rest := RestoreAll(disk.State(), target, FilesOf(entries[i..]));
                whole == rest.(restored := restored + rest.restored)
    {
      FilesFrom(entries, i);
      var e := entries[i];
      if !e.isDir {
        ghost var rest := FilesOf(entries[i..]);
        assert rest[0] == e && rest[1..] == FilesOf(entries[i + 1..]);
        Unfold(disk.State(), target, rest);
        if e.name != MANIFEST_NAME {
          ghost var before := disk.State();
          var written := disk.RestoreEntry(target, e);
          if !written {
            return false, restored;
          }
          assert disk.State() == RestoreOne(before, target, rest[0]).value;
          ghost var more := RestoreAll(disk.State(), target, rest[1..]).restored;
          assert restored + ([e.name] + more) == restored + [e.name] + more;
          restored := restored + [e.name];
        }
      } else {
        assert FilesOf(entries[i..]) == FilesOf(entries[i + 1..]);
      }
    }
    assert entries[|entries|..] == [];
    NothingLeft(disk.State(), target);
    assert restored + [] == restored;
    ok := true;
  }

  lemma NothingLeft(d: DiskState, target: Path)
    ensures RestoreAll(d, target, FilesOf([])) == Progress(d, [], true)
  {
  }

  lemma {:induction false} FilesFrom(es: seq<Entry>, i: nat)
    requires i < |es|
    ensures FilesOf(es[i..]) == (if es[i].isDir then [] else [es[i]]) + FilesOf(es[i + 1..])
  {
    assert es[i..] == [es[i]] + es[i + 1..];
    FilterConcat([es[i]], es[i + 1..], IsFileEntry);
    assert [es[i]][..0] == [];
  }

  /** Restoring reads the archive twice, each time in chunks of its own. */
  method RestoreBackupArchive(env: Env, disk: Disk, first: seq<Bytes>, second: seq<Bytes>, o: RestoreOptions)
    returns (r: Result<RestoreResult, BackupError>)
    requires Flatten(first) == Flatten(second) && RejectsEmpty(env)
    modifies disk
    ensures r == RestoreBackup(env, old(disk.State()), Flatten(first), o).0
    ensures disk.files == RestoreBackup(env, old(disk.State()), Flatten(first), o).1.files
    ensures r.Success? && r.value.ok ==> disk.State() == RestoreBackup(env, old(disk.State()), Flatten(first), o).1
    ensures o.dryRun || !o.force || !Within(o.allowed, o.target) ==> disk.State() == old(disk.State())
    ensures o.dryRun || !o.force || !GoodBackup(env, ReadArchive(Flatten(first))) ==> disk.State() == old(disk.State())
  {
    hide GoodBackup, RestoreAll, ReadArchive, MakeDirs;
    if !Within(o.allowed, o.target) {
      return Failure(OutsideRoot);
    }
    var reader := new ChunkReader(first);
    var inspected := Inspect(env, reader);
    if !inspected.ok {
      return Success(RestoreResult(false, o.dryRun, []));
    }
    if o.dryRun {
      return Success(RestoreResult((o.target in disk.dirs || o.target in disk.files) && o.writable, true, []));
    }
    if !o.force {
      return Failure(ForceRequired);
    }
    var made := disk.MakeDirectories(o.target);
    if !made {
      return Failure(TargetBlocked);
    }
    var again := new ChunkReader(second);
    var entries, error := ReadTar(again);
    var ok, restored := RestoreEntries(disk, o.target, entries);
    r := Success(RestoreResult(ok, false, restored));
  }
}