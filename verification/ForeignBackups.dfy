/** Restoring an archive that need not come from this program: when a restore touches the disk, where, and with what. */
module ForeignBackups {
  import opened Sequences
  import opened Octal
  import opened TarHeader
  import opened TarArchive
  import opened Collect
  import opened Backup
  import opened Restore

  // ----- which archives are good backups -----

  /** The line that describes an entry. */
  function LineOf(env: Env, e: Entry): RawEntry {
    RawEntry(Some(e.name), Some(|e.body|), Some(env.hash(e.body)))
  }

  ghost predicate Describing(env: Env, files: seq<Entry>, line: RawEntry) {
    exists e :: e in files && e.name != MANIFEST_NAME && line == LineOf(env, e)
  }

  /** One line for each file but the manifest, in any order, each once, with a safe path and a hash in its form. */
  ghost predicate ListsExactly(env: Env, lines: seq<RawEntry>, files: seq<Entry>) {
    && (forall i :: 0 <= i < |lines| ==> Describing(env, files, lines[i]))
    && (forall e :: e in files && e.name != MANIFEST_NAME ==> LineOf(env, e) in lines)
    && (forall i, j :: 0 <= i < j < |lines| ==> lines[i].path != lines[j].path)
    && (forall e :: e in files && e.name != MANIFEST_NAME ==> !IsUnsafeTarPath(e.name) && IsHex64(env.hash(e.body)))
  }

  ghost predicate HoldsManifest(env: Env, files: seq<Entry>, m: Entry) {
    && m in files && m.name == MANIFEST_NAME && m.size <= MANIFEST_LIMIT
    && env.decode(m.body).Some?
    && ListsExactly(env, env.decode(m.body).value, files)
  }

  /** An archive, whoever made it, is a good backup exactly when it reads to its end, names no file twice, and holds a
      manifest within its limit that lists exactly the other files, by name, size and hash. */
  lemma {:induction false} GoodIff(env: Env, read: Reading)
    ensures var files := FilesOf(read.entries);
            GoodBackup(env, read) <==>
              && read.error.None? && DistinctNames(files)
              && exists m :: HoldsManifest(env, files, m)
  {
    hide *;
    var files := FilesOf(read.entries);
    if DistinctNames(files) {
      if m :| m in files && m.name == MANIFEST_NAME {
        OneManifest(files, m);
        ManifestSizes(files, m);
        if env.decode(m.body).Some? {
          ListsExactlyIff(env, env.decode(m.body).value, files);
        }
        GoodByManifest(env, read, m);
      } else {
        NoManifestIsBad(env, read);
      }
    } else {
      NotDistinctIsBad(env, read);
    }
  }

  lemma NotDistinctIsBad(env: Env, read: Reading)
    requires !DistinctNames(FilesOf(read.entries))
    ensures !GoodBackup(env, read)
  {
    hide ValidManifest, Declared, Actual, FilesOf, ManifestBytes, NamesOf, DistinctNames;
  }

  lemma NoManifestIsBad(env: Env, read: Reading)
    requires forall m :: m in FilesOf(read.entries) ==> m.name != MANIFEST_NAME
    ensures !GoodBackup(env, read) && forall m :: !HoldsManifest(env, FilesOf(read.entries), m)
  {
    hide ValidManifest, Declared, Actual, FilesOf, ManifestBytes, Acceptable, ListsExactly;
  }

  lemma ManifestSizes(files: seq<Entry>, m: Entry)
    requires DistinctNames(files) && m in files && m.name == MANIFEST_NAME
    ensures Acceptable(files) <==> m.size <= MANIFEST_LIMIT
    ensures MANIFEST_NAME in NamesOf(files)
    ensures forall other :: other in files && other.name == MANIFEST_NAME ==> other == m
  {
    var k :| 0 <= k < |files| && files[k] == m;
    assert files[k].name in NamesOf(files);
  }

  lemma GoodByManifest(env: Env, read: Reading, m: Entry)
    requires var files := FilesOf(read.entries);
             && DistinctNames(files) && m in files && m.name == MANIFEST_NAME
             && (Acceptable(files) <==> m.size <= MANIFEST_LIMIT)
             && MANIFEST_NAME in NamesOf(files)
             && ManifestBytes(files) == m.body
             && (forall other :: other in files && other.name == MANIFEST_NAME ==> other == m)
             && (env.decode(m.body).Some? ==>
                   var raws := env.decode(m.body).value;
                   ListsExactly(env, raws, files) <==> ValidManifest(raws) && Declared(raws) == Actual(env, files))
    ensures GoodBackup(env, read) <==>
              read.error.None? && exists m :: HoldsManifest(env, FilesOf(read.entries), m)
  {
    hide ValidManifest, Declared, Actual, FilesOf, ManifestBytes, NamesOf, DistinctNames, Acceptable, ListsExactly;
    var files := FilesOf(read.entries);
    if n :| HoldsManifest(env, files, n) {
      assert n == m;
    }
    if GoodBackup(env, read) {
      assert HoldsManifest(env, files, m);
    }
  }

  lemma {:induction false} OneManifest(files: seq<Entry>, m: Entry)
    requires DistinctNames(files) && m in files && m.name == MANIFEST_NAME
    ensures ManifestBytes(files) == m.body
  {
    var front, last := files[..|files| - 1], files[|files| - 1];
    assert files == front + [last];
    if last.name == MANIFEST_NAME {
      assert last == m;
      NoManifestNoBytes(front);
    } else {
      OneManifest(front, m);
    }
  }

  lemma {:induction false} ActualKeys(env: Env, files: seq<Entry>)
    ensures forall name :: name in Actual(env, files) ==>
                             exists e :: e in files && e.name == name && name != MANIFEST_NAME
  {
    if files != [] {
      ActualKeys(env, files[..|files| - 1]);
      assert files == files[..|files| - 1] + [files[|files| - 1]];
    }
  }

  /** What the content is, entry by entry. */
  lemma ActualIs(env: Env, files: seq<Entry>)
    requires DistinctNames(files)
    ensures forall e :: e in files && e.name != MANIFEST_NAME ==>
                          && e.name in Actual(env, files)
                          && Actual(env, files)[e.name] == (env.hash(e.body), |e.body|)
    ensures forall name :: name in Actual(env, files) ==>
                             exists e :: e in files && e.name == name && name != MANIFEST_NAME
  {
    hide Actual, DistinctNames;
    forall e | e in files && e.name != MANIFEST_NAME
      ensures e.name in Actual(env, files)
      ensures Actual(env, files)[e.name] == (env.hash(e.body), |e.body|)
    {
      var i :| 0 <= i < |files| && files[i] == e;
      ActualAt(env, files, i);
    }
    ActualKeys(env, files);
  }

  lemma {:induction false} ListsExactlyIff(env: Env, lines: seq<RawEntry>, files: seq<Entry>)
    requires DistinctNames(files)
    ensures ListsExactly(env, lines, files) <==> ValidManifest(lines) && Declared(lines) == Actual(env, files)
  {
    hide *;
    ActualIs(env, files);
    if ListsExactly(env, lines, files) {
      ListedIsValid(env, lines, files);
      DeclaredIff(lines, Actual(env, files));
      ListedMatches(env, lines, files);
    }
    if ValidManifest(lines) {
      EntriesValid(lines);
      if Declared(lines) == Actual(env, files) {
        DeclaredIff(lines, Actual(env, files));
        MatchedLists(env, lines, files);
      }
    }
  }

  lemma ListedIsValid(env: Env, lines: seq<RawEntry>, files: seq<Entry>)
    requires ListsExactly(env, lines, files)
    ensures ValidManifest(lines)
  {
    hide IsUnsafeTarPath, IsHex64;
    forall i | 0 <= i < |lines| ensures ValidEntry(lines[i]) {
      assert Describing(env, files, lines[i]);
    }
  }

  lemma ListedMatches(env: Env, lines: seq<RawEntry>, files: seq<Entry>)
    requires ListsExactly(env, lines, files)
    requires forall e :: e in files && e.name != MANIFEST_NAME ==>
                           && e.name in Actual(env, files)
                           && Actual(env, files)[e.name] == (env.hash(e.body), |e.body|)
    requires forall name :: name in Actual(env, files) ==>
                              exists e :: e in files && e.name == name && name != MANIFEST_NAME
    ensures forall j :: 0 <= j < |lines| ==> Matches(lines[j], Actual(env, files))
    ensures forall name :: name in Actual(env, files) ==> Listed(lines, name)
  {
    hide Actual, IsUnsafeTarPath, IsHex64;
    forall j | 0 <= j < |lines| ensures Matches(lines[j], Actual(env, files)) {
      assert Describing(env, files, lines[j]);
    }
    forall name | name in Actual(env, files) ensures Listed(lines, name) {
      var e :| e in files && e.name == name && name != MANIFEST_NAME;
      var i :| 0 <= i < |lines| && lines[i] == LineOf(env, e);
    }
  }

  lemma MatchedLists(env: Env, lines: seq<RawEntry>, files: seq<Entry>)
    requires ValidManifest(lines)
    requires forall e :: e in files && e.name != MANIFEST_NAME ==>
                           && e.name in Actual(env, files)
                           && Actual(env, files)[e.name] == (env.hash(e.body), |e.body|)
    requires forall name :: name in Actual(env, files) ==>
                              exists e :: e in files && e.name == name && name != MANIFEST_NAME
    requires forall j :: 0 <= j < |lines| ==> Matches(lines[j], Actual(env, files))
    requires forall name :: name in Actual(env, files) ==> Listed(lines, name)
    ensures ListsExactly(env, lines, files)
  {
    hide Actual, IsUnsafeTarPath, IsHex64;
    forall i | 0 <= i < |lines| ensures Describing(env, files, lines[i]) {
      assert Matches(lines[i], Actual(env, files));
      var e :| e in files && e.name == lines[i].path.value && e.name != MANIFEST_NAME;
      assert lines[i] == LineOf(env, e);
    }
    forall e | e in files && e.name != MANIFEST_NAME
      ensures LineOf(env, e) in lines && !IsUnsafeTarPath(e.name) && IsHex64(env.hash(e.body))
    {
      assert Listed(lines, e.name);
      var i :| 0 <= i < |lines| && lines[i].path == Some(e.name);
      assert Matches(lines[i], Actual(env, files));
      assert ValidEntry(lines[i]);
      assert lines[i] == LineOf(env, e);
    }
  }

  // ----- when nothing is touched -----

  /** At the allowed directory or below it; below "/" itself nothing counts. */
  ghost predicate Inside(allowed: Path, target: Path) {
    exists rest: Path :: target == allowed + rest && (rest == [] || allowed != [])
  }

  lemma InsideIsWithin(allowed: Path, target: Path)
    ensures Within(allowed, target) <==> Inside(allowed, target)
  {
    if Within(allowed, target) {
      assert target == allowed + target[|allowed|..];
    }
  }

  /** A disk is touched only by a forced restore of a good backup into the allowed directory, not by a dry run. Which
      answer each other call gets, for every archive, disk and options. */
  lemma RestoreGuards(env: Env, d: DiskState, archive: Bytes, o: RestoreOptions)
    ensures var (r, d') := RestoreBackup(env, d, archive, o);
            var good := GoodBackup(env, ReadArchive(archive));
            && (r == Failure(OutsideRoot) <==> !Inside(o.allowed, o.target))
            && (r == Failure(ForceRequired) <==> Inside(o.allowed, o.target) && good && !o.dryRun && !o.force)
            && (Inside(o.allowed, o.target) && !good ==> r == Success(RestoreResult(false, o.dryRun, [])))
            && (Inside(o.allowed, o.target) && good && o.dryRun ==>
                  && r.Success? && r.value.dryRun && r.value.restored == []
                  && (r.value.ok <==> o.writable && (o.target in d.dirs || o.target in d.files)))
            && (r == Failure(TargetBlocked) <==>
                  && Inside(o.allowed, o.target) && good && !o.dryRun && o.force
                  && exists k :: 0 <= k <= |o.target| && o.target[..k] in d.files)
            && (o.dryRun || !o.force || !good || !Inside(o.allowed, o.target) || r == Failure(TargetBlocked) ==>
                  d' == d)
  {
    hide GoodBackup, ReadArchive, Within, Inside, MakeDirs;
    InsideIsWithin(o.allowed, o.target);
    BlockedByFile(d, o.target);
  }

  lemma BlockedByFile(d: DiskState, target: Path)
    ensures MakeDirs(d, target).None? <==> exists k :: 0 <= k <= |target| && target[..k] in d.files
  {
    assert target[..|target|] == target;
    if k :| 0 <= k <= |target| && target[..k] in d.files {
      assert target[..k] in Ancestors(target) + {target};
    }
  }

  // ----- where it is touched -----

  /** A name is safe exactly when it holds no backslash, starts with no drive, and joins to any target as its parts, one
      below the other; it then leads strictly below the target. */
  lemma SafeNameStaysBelow(target: Path, name: Bytes)
    ensures var path := Normalize(SplitOn(name, SLASH), target);
            && (!IsUnsafeTarPath(name) <==>
                  && BACKSLASH !in name
                  && !(|name| >= 2 && IsLetter(name[0]) && name[1] == COLON)
                  && path == TargetPath(target, name))
            && (path == TargetPath(target, name) ==> target <= path && target != path)
  {
    hide Normalize, IsLetter;
    var parts := SplitOn(name, SLASH);
    PlainIff(parts, target);
    PathIsLonger(target, name);
    if name == [] || name[0] == SLASH {
      assert IsSkipped(parts[0]);
    }
    if !IsUnsafeTarPath(name) {
      forall i | 0 <= i < |parts| ensures !IsSkipped(parts[i]) && parts[i] != [DOT, DOT] {
        assert parts[i] in parts;
      }
    }
    if part :| part in parts && (part == [DOT, DOT] || part == [] || part == [DOT]) {
      var i :| 0 <= i < |parts| && parts[i] == part;
      assert IsSkipped(parts[i]) || parts[i] == [DOT, DOT];
    }
  }

  /** A restored file has the bytes of its entry and the low nine bits of its mode, so no set-user-id, set-group-id or
      sticky bit of a foreign archive; an unreadable mode gives no permission at all. */
  lemma PermissionBitsOnly(e: Entry)
    ensures var file := RestoredFile(e);
            && file.bytes == e.body && 0 <= file.mode < 8 * 8 * 8
            && (e.mode.Some? ==> exists high :: e.mode.value == 8 * 8 * 8 * high + file.mode)
            && (e.mode.None? ==> file.mode == 0)
  {
    if e.mode.Some? {
      assert e.mode.value == 512 * (e.mode.value / 512) + RestoredFile(e).mode;
    }
  }

  /** The files that a restore writes: all but the manifest. */
  function Wanted(files: seq<Entry>): seq<Entry>
    decreases |files|
  {
    if files == [] then []
    else (if files[0].name == MANIFEST_NAME then [] else [files[0]]) + Wanted(files[1..])
  }

  lemma {:induction false} WantedAre(files: seq<Entry>)
    ensures forall e :: e in Wanted(files) <==> e in files && e.name != MANIFEST_NAME
    decreases |files|
  {
    if files != [] {
      WantedAre(files[1..]);
      assert files == [files[0]] + files[1..];
    }
  }

  lemma {:induction false} WantedAreDistinct(files: seq<Entry>)
    requires DistinctNames(files)
    ensures DistinctNames(Wanted(files))
    decreases |files|
  {
    if files != [] {
      WantedAre(files[1..]);
      forall i, j | 0 <= i < j < |files[1..]| ensures files[1..][i].name != files[1..][j].name {
        assert files[i + 1].name != files[j + 1].name;
      }
      WantedAreDistinct(files[1..]);
      assert forall e :: e in files[1..] ==> e.name != files[0].name;
    }
  }

  lemma {:induction false} ManifestSkipped(d: DiskState, target: Path, files: seq<Entry>)
    ensures RestoreAll(d, target, files) == RestoreAll(d, target, Wanted(files))
    decreases |files|
  {
    if files != [] {
      hide RestoreOne, TargetPath;
      if files[0].name == MANIFEST_NAME {
        assert Wanted(files) == Wanted(files[1..]);
        ManifestSkipped(d, target, files[1..]);
      } else {
        var wanted := Wanted(files);
        assert wanted[0] == files[0] && wanted[1..] == Wanted(files[1..]);
        var next := RestoreOne(d, target, files[0]);
        if next.Some? {
          ManifestSkipped(next.value, target, files[1..]);
        }
      }
    }
  }

  ghost predicate FileFrom(target: Path, files: seq<Entry>, path: Path, file: DiskFile) {
    exists e :: e in files && path == TargetPath(target, e.name) && file == RestoredFile(e)
  }

  ghost predicate DirFrom(target: Path, files: seq<Entry>, dir: Path) {
    exists e :: e in files && dir in Ancestors(TargetPath(target, e.name))
  }

  /** Whatever has changed on the disk comes from these entries: files at their places, with their bytes and permission
      bits, and directories leading to them. Nothing is removed. */
  ghost predicate OnlyFrom(target: Path, files: seq<Entry>, d: DiskState, d': DiskState) {
    && d.files.Keys <= d'.files.Keys
    && d.dirs <= d'.dirs
    && (forall path :: path in d'.files ==>
          (path in d.files && d'.files[path] == d.files[path]) || FileFrom(target, files, path, d'.files[path]))
    && (forall dir :: dir in d'.dirs ==> dir in d.dirs || DirFrom(target, files, dir))
  }

  /** Even a restore that stops half-way puts only these entries on the disk, in order. */
  lemma {:induction false} ChangesOnlyFrom(d: DiskState, target: Path, files: seq<Entry>)
    requires forall e :: e in files ==> e.name != MANIFEST_NAME
    ensures var p := RestoreAll(d, target, files);
            && OnlyFrom(target, files, d, p.disk)
            && p.restored <= Names(files)
            && (p.ok <==> p.restored == Names(files))
            && (forall i :: 0 <= i < |p.restored| ==> TargetPath(target, files[i].name) in p.disk.files)
    decreases |files|
  {
    if files != [] {
      hide *;
      var next := RestoreOne(d, target, files[0]);
      assert files[0] in files;
      FirstNames(files);
      if next.None? {
        Stopped(d, target, files);
        NothingChanged(target, files, d);
      } else {
        OneFrom(d, target, files);
        ChangesOnlyFrom(next.value, target, files[1..]);
        Unfold(d, target, files);
        ThenFrom(target, files, d, next.value, RestoreAll(next.value, target, files[1..]).disk);
        StillThere(target, files, next.value, RestoreAll(d, target, files), RestoreAll(next.value, target, files[1..]));
      }
    } else {
      NothingChanged(target, files, d);
    }
  }

  lemma FirstNames(files: seq<Entry>)
    requires files != []
    ensures Names(files) == [files[0].name] + Names(files[1..])
  {
  }

  lemma Stopped(d: DiskState, target: Path, files: seq<Entry>)
    requires files != [] && files[0].name != MANIFEST_NAME && RestoreOne(d, target, files[0]).None?
    ensures RestoreAll(d, target, files) == Progress(d, [], false)
  {
    hide RestoreOne;
  }

  lemma NothingChanged(target: Path, files: seq<Entry>, d: DiskState)
    ensures OnlyFrom(target, files, d, d)
    ensures RestoreAll(d, target, []) == Progress(d, [], true)
  {
    hide FileFrom, DirFrom;
  }

  lemma OneFrom(d: DiskState, target: Path, files: seq<Entry>)
    requires files != [] && RestoreOne(d, target, files[0]).Some?
    ensures OnlyFrom(target, files, d, RestoreOne(d, target, files[0]).value)
    ensures TargetPath(target, files[0].name) in RestoreOne(d, target, files[0]).value.files
  {
    hide TargetPath, RestoredFile, RestoreOne;
    RootTakesNothing(d, files[0]);
    RestoredIffClear(d, target, files[0]);
    assert files[0] in files;
  }

  /** No target path starts with "/" and a further separator. */
  lemma RootTakesNothing(d: DiskState, e: Entry)
    ensures RestoreOne(d, [], e).None?
  {
  }

  lemma ThenFrom(target: Path, files: seq<Entry>, d: DiskState, d1: DiskState, d2: DiskState)
    requires files != [] && OnlyFrom(target, files, d, d1) && OnlyFrom(target, files[1..], d1, d2)
    ensures OnlyFrom(target, files, d, d2)
  {
    hide TargetPath, RestoredFile;
    assert forall e :: e in files[1..] ==> e in files;
    forall path | path in d2.files && FileFrom(target, files[1..], path, d2.files[path])
      ensures FileFrom(target, files, path, d2.files[path])
    {
    }
    forall dir | dir in d2.dirs && DirFrom(target, files[1..], dir) ensures DirFrom(target, files, dir) {
    }
  }

  lemma StillThere(target: Path, files: seq<Entry>, d: DiskState, p: Progress, rest: Progress)
    requires files != [] && p == rest.(restored := [files[0].name] + rest.restored)
    requires TargetPath(target, files[0].name) in d.files && d.files.Keys <= rest.disk.files.Keys
    requires rest.restored <= Names(files[1..]) && (rest.ok <==> rest.restored == Names(files[1..]))
    requires forall i :: 0 <= i < |rest.restored| ==> TargetPath(target, files[1..][i].name) in rest.disk.files
    ensures p.restored <= Names(files) && (p.ok <==> p.restored == Names(files))
    ensures forall i :: 0 <= i < |p.restored| ==> TargetPath(target, files[i].name) in p.disk.files
  {
    hide TargetPath;
    FirstNames(files);
    forall i | 0 <= i < |p.restored| ensures TargetPath(target, files[i].name) in p.disk.files {
      if i > 0 {
        assert files[1..][i - 1] == files[i];
      }
    }
  }

  // ----- exactly when all is restored -----

  lemma {:induction false} DistinctPlaces(target: Path, files: seq<Entry>)
    requires DistinctNames(files)
    ensures forall i, j :: 0 <= i < j < |files| ==> Paths(target, files)[i] != Paths(target, files)[j]
  {
    hide SplitOn;
    forall i, j | 0 <= i < j < |files| ensures Paths(target, files)[i] != Paths(target, files)[j] {
      if TargetPath(target, files[i].name) == TargetPath(target, files[j].name) {
        assert SplitOn(files[i].name, SLASH) == TargetPath(target, files[i].name)[|target|..];
        assert SplitOn(files[j].name, SLASH) == TargetPath(target, files[j].name)[|target|..];
        SplitInjective(files[i].name, files[j].name);
      }
    }
  }

  /** Another file stands in the way exactly of the paths leading through it or that it leads through. */
  lemma ClearAfterFile(d: DiskState, path: Path, file: DiskFile, other: Path)
    requires path != other && path != []
    ensures Clear(DiskState(d.files[path := file], d.dirs + Ancestors(path)), other) <==>
              Clear(d, other) && !(path <= other) && !(other <= path)
  {
    if path <= other {
      assert path == other[..|path|];
      assert path in Ancestors(other);
    } else if other <= path {
      assert other == path[..|other|];
      assert other in Ancestors(path);
    } else {
      ClearUnchanged(d, path, file, other);
    }
  }

  /** Entries of distinct names are all restored exactly when nothing stands in the way of any, on the disk or among
      themselves. */
  lemma {:induction false} AllRestoredIff(d: DiskState, target: Path, files: seq<Entry>)
    requires DistinctNames(files)
    requires forall e :: e in files ==> e.name != MANIFEST_NAME
    ensures RestoreAll(d, target, files).ok <==>
              (files == [] || target != []) &&
              Flat(Paths(target, files)) && forall i :: 0 <= i < |files| ==> Clear(d, Paths(target, files)[i])
    decreases |files|
  {
    if files != [] {
      hide *;
      var ps := Paths(target, files);
      assert ps[0] == TargetPath(target, files[0].name);
      assert files[0] in files && DistinctNames(files[1..]) by {
        TailDistinct(files);
      }
      RootTakesNothing(d, files[0]);
      if target != [] {
        RestoredIffClear(d, target, files[0]);
      }
      PathIsLonger(target, files[0].name);
      assert Paths(target, files[1..]) == ps[1..];
      if RestoreOne(d, target, files[0]).Some? {
        var d' := RestoreOne(d, target, files[0]).value;
        AllRestoredIff(d', target, files[1..]);
        Unfold(d, target, files);
        DistinctPlaces(target, files);
        forall i | 0 < i < |files|
          ensures Clear(d', ps[i]) <==> Clear(d, ps[i]) && !(ps[0] <= ps[i]) && !(ps[i] <= ps[0])
        {
          ClearAfterFile(d, ps[0], RestoredFile(files[0]), ps[i]);
        }
        FlatCons(ps);
        ShiftClear(d', ps);
      } else {
        Stopped(d, target, files);
      }
    } else {
      NothingChanged(target, [], d);
      assert Paths(target, files) == [];
    }
  }

  lemma TailDistinct(files: seq<Entry>)
    requires files != [] && DistinctNames(files)
    ensures DistinctNames(files[1..])
  {
    forall i, j | 0 <= i < j < |files[1..]| ensures files[1..][i].name != files[1..][j].name {
      assert files[i + 1].name != files[j + 1].name;
    }
  }

  lemma FlatCons(ps: seq<Path>)
    requires ps != []
    ensures Flat(ps) <==>
              Flat(ps[1..]) && forall i :: 0 < i < |ps| ==> !(ps[0] <= ps[i]) && !(ps[i] <= ps[0])
  {
    if Flat(ps) {
      FlatTail(ps);
    }
    if Flat(ps[1..]) && forall i :: 0 < i < |ps| ==> !(ps[0] <= ps[i]) && !(ps[i] <= ps[0]) {
      forall i, j | 0 <= i < |ps| && 0 <= j < |ps| && i != j ensures !(ps[i] <= ps[j]) {
        if i > 0 && j > 0 {
          assert ps[1..][i - 1] == ps[i] && ps[1..][j - 1] == ps[j];
        }
      }
    }
  }

  lemma ShiftClear(d: DiskState, ps: seq<Path>)
    requires ps != []
    ensures (forall i :: 0 <= i < |ps[1..]| ==> Clear(d, ps[1..][i])) <==> forall i :: 0 < i < |ps| ==> Clear(d, ps[i])
  {
    hide Clear;
    if forall i :: 0 <= i < |ps[1..]| ==> Clear(d, ps[1..][i]) {
      forall i | 0 < i < |ps| ensures Clear(d, ps[i]) {
        assert ps[1..][i - 1] == ps[i];
      }
    }
  }

  // ----- the whole restore -----

  /** A forced restore of any good backup changes only what the backup's files stand for. It is complete exactly when
      none of those meets another, or anything on the disk; and then exactly those files have changed. */
  lemma {:induction false} GoodBackupRestored(env: Env, d: DiskState, archive: Bytes, o: RestoreOptions)
    requires GoodBackup(env, ReadArchive(archive)) && Inside(o.allowed, o.target)
    requires o.force && !o.dryRun && MakeDirs(d, o.target).Some?
    ensures var (r, d') := RestoreBackup(env, d, archive, o);
            var files := Wanted(FilesOf(ReadArchive(archive).entries));
            && r.Success? && !r.value.dryRun && r.value.restored <= Names(files)
            && OnlyFrom(o.target, files, MakeDirs(d, o.target).value, d')
            && (r.value.ok <==>
                  && (files == [] || o.target != [])
                  && Flat(Paths(o.target, files))
                  && forall i :: 0 <= i < |files| ==> Clear(d, Paths(o.target, files)[i]))
            && (r.value.ok <==> r.value.restored == Names(files))
            && (r.value.ok ==> d'.files == d.files + Placed(o.target, files))
  {
    hide *;
    var all := FilesOf(ReadArchive(archive).entries);
    var files := Wanted(all);
    GoodIsDistinct(env, ReadArchive(archive));
    InsideIsWithin(o.allowed, o.target);
    ForcedRestore(env, d, archive, o);
    var d1 := MakeDirs(d, o.target).value;
    WantedAre(all);
    WantedAreDistinct(all);
    ManifestSkipped(d1, o.target, all);
    ChangesOnlyFrom(d1, o.target, files);
    AllRestoredIff(d1, o.target, files);
    forall i | 0 <= i < |files|
      ensures files[i] in files
      ensures Clear(d1, Paths(o.target, files)[i]) <==> Clear(d, Paths(o.target, files)[i])
    {
      PathIsLonger(o.target, files[i].name);
      assert o.target <= TargetPath(o.target, files[i].name) by {
        TargetComesFirst(o.target, files[i].name);
      }
      ClearAfterMkdir(d, o.target, Paths(o.target, files)[i]);
    }
    if files == [] {
      NothingChanged(o.target, files, d1);
      assert Placed(o.target, files) == map[] by { NothingPlaced(o.target); }
    } else if RestoreAll(d1, o.target, files).ok {
      RestoresAll(d1, o.target, files);
    }
  }

  lemma NothingPlaced(target: Path)
    ensures Placed(target, []) == map[]
  {
  }

  lemma TargetComesFirst(target: Path, name: Bytes)
    ensures target <= TargetPath(target, name)
  {
  }

  lemma GoodIsDistinct(env: Env, read: Reading)
    requires GoodBackup(env, read)
    ensures DistinctNames(FilesOf(read.entries))
  {
    hide ValidManifest, Declared, Actual, FilesOf, ManifestBytes, NamesOf;
  }

  lemma ForcedRestore(env: Env, d: DiskState, archive: Bytes, o: RestoreOptions)
    requires GoodBackup(env, ReadArchive(archive)) && Within(o.allowed, o.target)
    requires o.force && !o.dryRun && MakeDirs(d, o.target).Some?
    ensures MakeDirs(d, o.target).value.files == d.files
    ensures var p := RestoreAll(MakeDirs(d, o.target).value, o.target, FilesOf(ReadArchive(archive).entries));
            RestoreBackup(env, d, archive, o) == (Success(RestoreResult(p.ok, false, p.restored)), p.disk)
  {
    hide GoodBackup, ReadArchive, RestoreAll, FilesOf;
  }
}
