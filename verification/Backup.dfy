/** Creating, inspecting and restoring a backup: the archive engine put to work on a file system. */
module Backup {
  import opened Sequences
  import opened Octal
  import opened TarHeader
  import opened TarArchive
  import opened Collect

  /** "backup-manifest.json" */
  const MANIFEST_NAME: Bytes :=
    [98, 97, 99, 107, 117, 112, 45, 109, 97, 110, 105, 102, 101, 115, 116, 46, 106, 115, 111, 110]
  const MANIFEST_LIMIT: nat := 1024 * 1024

  datatype ManifestEntry = ManifestEntry(path: Bytes, size: nat, sha256: string, mode: nat)

  /** An entry of a parsed manifest; `None` where the field is missing or not of its type. */
  datatype RawEntry = RawEntry(path: Option<Bytes>, size: Option<int>, sha256: Option<string>)

  /** SHA-256, JSON text and `localeCompare` sorting are taken as given. */
  datatype Env = Env(
    hash: Bytes -> string,
    encode: seq<ManifestEntry> -> Bytes,
    decode: Bytes -> Option<seq<RawEntry>>,
    sort: seq<ManifestEntry> -> seq<ManifestEntry>)

  function RawOf(e: ManifestEntry): RawEntry {
    RawEntry(Some(e.path), Some(e.size), Some(e.sha256))
  }

  function RawsOf(m: seq<ManifestEntry>): (raws: seq<RawEntry>)
    ensures |raws| == |m| && forall i :: 0 <= i < |m| ==> raws[i] == RawOf(m[i])
  {
    seq(|m|, i requires 0 <= i < |m| => RawOf(m[i]))
  }

  predicate IsHex64(s: string) {
    |s| == 64 && forall i :: 0 <= i < |s| ==> 'a' <= s[i] <= 'f' || '0' <= s[i] <= '9'
  }

  /** Lower-case digits and letters, in ASCII. */
  lemma HexIs(s: string)
    ensures IsHex64(s) <==> |s| == 64 && forall c :: c in s ==> 48 <= c as int < 48 + 10 || 97 <= c as int < 97 + 6
  {
    if |s| == 64 && forall c :: c in s ==> 48 <= c as int < 48 + 10 || 97 <= c as int < 97 + 6 {
      forall i | 0 <= i < |s| ensures 'a' <= s[i] <= 'f' || '0' <= s[i] <= '9' {
        assert s[i] in s;
      }
    }
  }

  /** Empty text is not JSON. */
  predicate RejectsEmpty(env: Env) { env.decode([]).None? }

  /** Parsing undoes printing, and sorting only reorders. */
  ghost predicate Sound(env: Env) {
    && (forall b :: IsHex64(env.hash(b)))
    && (forall m :: env.decode(env.encode(m)) == Some(RawsOf(m)))
    && RejectsEmpty(env)
    && (forall m :: multiset(env.sort(m)) == multiset(m))
  }

  datatype BackupError =
    | Collecting(why: CollectError) | NoFiles | UnsafeName | TooLarge | Archiving(cause: TarError) | Unreadable
    | OutsideRoot | ForceRequired | TargetBlocked

  // ----- creating -----

  predicate AllFiles(t: Tree, ps: seq<Path>) {
    forall p :: p in ps ==> Lookup(t, p).Some? && Lookup(t, p).value.File?
  }

  /** `name.slice(1)` on the name's UTF-16 text: a character of four bytes is two units, and half of it is written as
      the replacement character. */
  function Cut(name: Bytes): (rest: Bytes)
    ensures name != [] ==> |rest| < |name|
    ensures NUL !in name ==> NUL !in rest
  {
    if name == [] then []
    else if name[0] < 0xC0 || |name| < 2 then name[1..]
    else if name[0] < 0xE0 || |name| < 3 then name[2..]
    else if name[0] < 0xF0 || |name| < 4 then name[3..]
    else [0xEF, 0xBF, 0xBD] + name[4..]
  }

  /** One character as RFC 3629, section 3, writes it. */
  function Utf8(c: nat): Bytes
    requires c < 0x11_0000
  {
    if c < 0x80 then [c]
    else if c < 0x800 then [0xC0 + c / 64, 0x80 + c % 64]
    else if c < 0x1_0000 then [0xE0 + c / 4096, 0x80 + c / 64 % 64, 0x80 + c % 64]
    else [0xF0 + c / 262144, 0x80 + c / 4096 % 64, 0x80 + c / 64 % 64, 0x80 + c % 64]
  }

  /** The first character goes; of one that takes two UTF-16 units, U+FFFD is left. */
  lemma CutTakesOneUnit(c: nat, rest: Bytes)
    requires c < 0x11_0000
    ensures Cut(Utf8(c) + rest) == if c < 0x1_0000 then rest else Utf8(0xFFFD) + rest
  {
    var name := Utf8(c) + rest;
    assert name[|Utf8(c)|..] == rest && name[0] == Utf8(c)[0];
  }

  /** `file.slice(rootDir.length + 1)`: the root and the separator after it. The root "/" is its own separator, so there
      the first character of the name goes as well. */
  function RelativeName(root: Path, p: Path): Bytes {
    if root == [] then Cut(JoinWith(p, SLASH)) else JoinWith(p, SLASH)
  }

  function LineFor(env: Env, root: Path, t: Tree, p: Path): ManifestEntry
    requires Lookup(t, p).Some? && Lookup(t, p).value.File?
  {
    var file := Lookup(t, p).value;
    ManifestEntry(RelativeName(root, p), |file.bytes|, env.hash(file.bytes), file.mode)
  }

  function DescribeOne(env: Env, root: Path, t: Tree, p: Path): Result<ManifestEntry, BackupError>
    requires Lookup(t, p).Some? && Lookup(t, p).value.File?
  {
    if IsUnsafeTarPath(RelativeName(root, p)) then Failure(UnsafeName)
    else if |Lookup(t, p).value.bytes| > MAX_FILE_SIZE then Failure(TooLarge)
    else Success(LineFor(env, root, t, p))
  }

  function Describe(env: Env, root: Path, t: Tree, ps: seq<Path>): (r: Result<seq<ManifestEntry>, BackupError>)
    requires AllFiles(t, ps)
  {
    if ps == [] then Success([])
    else match Describe(env, root, t, ps[..|ps| - 1])
      case Failure(e) => Failure(e)
      case Success(front) =>
        match DescribeOne(env, root, t, ps[|ps| - 1])
        case Failure(e) => Failure(e)
        case Success(last) => Success(front + [last])
  }

  predicate Resolvable(t: Tree, name: Bytes) {
    var node := Lookup(t, SplitOn(name, SLASH));
    node.Some? && node.value.File?
  }

  function FileAt(t: Tree, name: Bytes): (f: Tree)
    requires Resolvable(t, name)
    ensures f.File?
  {
    Lookup(t, SplitOn(name, SLASH)).value
  }

  function SourceOf(t: Tree, e: ManifestEntry, now: nat): Source
    requires Resolvable(t, e.path)
  {
    Source(e.path, e.size, now, FileAt(t, e.path).mode, false, FileAt(t, e.path).bytes)
  }

  function SourcesOf(t: Tree, m: seq<ManifestEntry>, now: nat): (es: seq<Source>)
    requires forall e :: e in m ==> Resolvable(t, e.path)
    ensures |es| == |m|
  {
    seq(|m|, i requires 0 <= i < |m| => SourceOf(t, m[i], now))
  }

  /** The lines up to the first whose path is not that of a file. */
  function Readable(t: Tree, m: seq<ManifestEntry>): (good: seq<ManifestEntry>)
    ensures good <= m && forall e :: e in good ==> Resolvable(t, e.path)
    ensures good == m <==> forall e :: e in m ==> Resolvable(t, e.path)
  {
    if m == [] || !Resolvable(t, m[0].path) then [] else [m[0]] + Readable(t, m[1..])
  }

  function ManifestSource(text: Bytes, now: nat, mode: nat): Source {
    Source(MANIFEST_NAME, |text|, now, mode, false, text)
  }

  // ----- the manifest describes the collected files -----

  lemma {:induction false} Described(env: Env, root: Path, t: Tree, ps: seq<Path>)
    requires AllFiles(t, ps) && Describe(env, root, t, ps).Success?
    ensures var m := Describe(env, root, t, ps).value;
            |m| == |ps| && forall i :: 0 <= i < |ps| ==> DescribeOne(env, root, t, ps[i]) == Success(m[i])
  {
    hide DescribeOne;
    if ps != [] {
      Described(env, root, t, ps[..|ps| - 1]);
    }
  }

  lemma {:induction false} JoinedNulFree(p: Path)
    requires forall c :: c in p ==> NUL !in c
    ensures NUL !in JoinWith(p, SLASH)
  {
    if |p| > 1 {
      JoinedNulFree(p[1..]);
    }
  }

  /** A name joined from proper components leads back to them. */
  lemma NameLeadsBack(t: Tree, p: Path)
    requires ProperTree(t) && Lookup(t, p).Some? && Lookup(t, p).value.File? && p != []
    ensures SplitOn(JoinWith(p, SLASH), SLASH) == p
  {
    ProperPath(t, p);
    SplitOfJoin(p, SLASH);
  }

  lemma NamesAreNulFree(root: Path, t: Tree, p: Path)
    requires ProperTree(t) && Lookup(t, p).Some?
    ensures NUL !in RelativeName(root, p)
  {
    ProperPath(t, p);
    JoinedNulFree(p);
  }

  lemma NulFreeKept(name: Bytes)
    requires NUL !in name && name != [] && name[0] != SLASH && Representable(name)
    ensures NameKept(name)
  {
    var base, prefix := BaseOf(name), PrefixOf(name);
    assert forall i :: 0 <= i < |name| ==> name[i] != NUL;
    if |name| > 100 {
      assert name == prefix + [SLASH] + base;
      assert prefix == name[..|prefix|] && base == name[|prefix| + 1..];
    }
  }

  lemma PlainNameFits(name: Bytes)
    requires 2 < |name| <= 100 && name[1] != COLON
    requires SLASH !in name && BACKSLASH !in name && NUL !in name
    ensures !IsUnsafeTarPath(name) && Representable(name) && NameKept(name) && SplitOn(name, SLASH) == [name]
  {
    SplitNothing(name, SLASH);
    NulFreeKept(name);
  }

  lemma ManifestNameFits()
    ensures !IsUnsafeTarPath(MANIFEST_NAME) && Representable(MANIFEST_NAME) && NameKept(MANIFEST_NAME)
  {
    hide IsUnsafeTarPath, Representable, NameKept, SplitOn;
    assert |MANIFEST_NAME| == 20;
    PlainNameFits(MANIFEST_NAME);
  }

  predicate FitLine(e: ManifestEntry) { !IsUnsafeTarPath(e.path) && NUL !in e.path && e.size <= MAX_FILE_SIZE }

  /** What holds of every entry of a manifest whose paths lead back to the files it was made of. */
  ghost predicate Describes(env: Env, t: Tree, ps: seq<Path>, e: ManifestEntry) {
    && Resolvable(t, e.path)
    && SplitOn(e.path, SLASH) in ps
    && e == ManifestEntry(e.path, |FileAt(t, e.path).bytes|, env.hash(FileAt(t, e.path).bytes), FileAt(t, e.path).mode)
    && FitLine(e)
  }

  lemma DescribedOne(env: Env, root: Path, t: Tree, ps: seq<Path>, p: Path)
    requires ProperTree(t) && AllFiles(t, ps) && p in ps && DescribeOne(env, root, t, p).Success?
    ensures DescribeOne(env, root, t, p).value == LineFor(env, root, t, p)
    ensures FitLine(LineFor(env, root, t, p))
    ensures root != [] ==>
              && Describes(env, t, ps, LineFor(env, root, t, p))
              && SplitOn(RelativeName(root, p), SLASH) == p
  {
    hide IsUnsafeTarPath;
    NamesAreNulFree(root, t, p);
    if root != [] {
      EmptyNameIsUnsafe();
      NameLeadsBack(t, p);
    }
  }

  lemma EmptyNameIsUnsafe()
    ensures IsUnsafeTarPath(JoinWith([], SLASH))
  {
  }

  /** The lines are those of the files, one each. */
  ghost predicate MadeOf(env: Env, root: Path, t: Tree, ps: seq<Path>, m: seq<ManifestEntry>) {
    && AllFiles(t, ps) && |m| == |ps|
    && (forall e :: e in m ==> FitLine(e) && exists p :: p in ps && e == LineFor(env, root, t, p))
    && (forall p :: p in ps ==> LineFor(env, root, t, p) in m)
  }

  predicate DistinctPaths(m: seq<ManifestEntry>) {
    forall i, j :: 0 <= i < j < |m| ==> m[i].path != m[j].path
  }

  lemma {:induction false} CountDistinct(m: seq<ManifestEntry>, e: ManifestEntry)
    requires DistinctPaths(m)
    ensures multiset(m)[e] <= 1
  {
    if m != [] {
      var front := m[..|m| - 1];
      assert m == front + [m[|m| - 1]];
      CountDistinct(front, e);
      if e == m[|m| - 1] {
        assert e !in front;
      }
    }
  }

  lemma CountTwice(m: seq<ManifestEntry>, i: nat, j: nat)
    requires i < j < |m| && m[i] == m[j]
    ensures multiset(m)[m[i]] >= 2
  {
    assert m == m[..i] + [m[i]] + m[i + 1..j] + [m[j]] + m[j + 1..];
  }

  lemma {:induction false} SortedIsPermuted(env: Env, d: seq<ManifestEntry>)
    requires Sound(env)
    ensures |env.sort(d)| == |d| && forall e :: e in env.sort(d) <==> e in d
  {
    var m := env.sort(d);
    assert multiset(m) == multiset(d);
    assert |m| == |multiset(m)|;
    forall e ensures e in m <==> e in d {
      assert e in m <==> e in multiset(m);
      assert e in d <==> e in multiset(d);
    }
  }

  /** Sorted or not, the manifest is made of the files. */
  lemma {:induction false} ManifestMade(env: Env, root: Path, t: Tree, ps: seq<Path>)
    requires Sound(env) && ProperTree(t) && AllFiles(t, ps) && Describe(env, root, t, ps).Success?
    ensures MadeOf(env, root, t, ps, env.sort(Describe(env, root, t, ps).value))
  {
    hide Describe, DescribeOne, FitLine, LineFor, Sound;
    var d := Describe(env, root, t, ps).value;
    Described(env, root, t, ps);
    SortedIsPermuted(env, d);
    forall i | 0 <= i < |ps| ensures d[i] == LineFor(env, root, t, ps[i]) && FitLine(d[i]) && d[i] in d {
      DescribedOne(env, root, t, ps, ps[i]);
    }
    forall e | e in d ensures FitLine(e) && exists p :: p in ps && e == LineFor(env, root, t, p) {
      var i :| 0 <= i < |d| && d[i] == e;
      assert ps[i] in ps;
    }
    forall p | p in ps ensures LineFor(env, root, t, p) in d {
      var i :| 0 <= i < |ps| && ps[i] == p;
      assert d[i] in d;
    }
  }

  /** Below any root but "/", sorting the manifest changes neither which files it lists nor that it lists each once. */
  lemma {:induction false} SortedManifest(env: Env, root: Path, t: Tree, ps: seq<Path>)
    requires Sound(env) && ProperTree(t) && AllFiles(t, ps) && Describe(env, root, t, ps).Success? && root != []
    requires forall i, j :: 0 <= i < j < |ps| ==> ps[i] != ps[j]
    ensures var m := env.sort(Describe(env, root, t, ps).value);
            && |m| == |ps| && DistinctPaths(m)
            && (forall e :: e in m ==> Resolvable(t, e.path) && Describes(env, t, ps, e))
            && (forall p :: p in ps ==> exists e :: e in m && SplitOn(e.path, SLASH) == p)
  {
    hide Describe, DescribeOne, Describes, LineFor, Sound;
    var d := Describe(env, root, t, ps).value;
    var m := env.sort(d);
    Described(env, root, t, ps);
    SortedIsPermuted(env, d);
    forall i | 0 <= i < |ps| ensures Describes(env, t, ps, d[i]) && SplitOn(d[i].path, SLASH) == ps[i] {
      DescribedOne(env, root, t, ps, ps[i]);
      LinePath(env, root, t, ps[i]);
    }
    forall e | e in m ensures Resolvable(t, e.path) && Describes(env, t, ps, e) {
      var i :| 0 <= i < |d| && d[i] == e;
    }
    SortedStaysDistinct(env, d);
    forall p | p in ps ensures exists e :: e in m && SplitOn(e.path, SLASH) == p {
      var i :| 0 <= i < |ps| && ps[i] == p;
      assert d[i] in m;
    }
  }

  lemma LinePath(env: Env, root: Path, t: Tree, p: Path)
    requires Lookup(t, p).Some? && Lookup(t, p).value.File?
    ensures LineFor(env, root, t, p).path == RelativeName(root, p)
  {
  }

  lemma SortedStaysDistinct(env: Env, d: seq<ManifestEntry>)
    requires Sound(env) && DistinctPaths(d)
    ensures DistinctPaths(env.sort(d))
  {
    var m := env.sort(d);
    SortedIsPermuted(env, d);
    forall i, j | 0 <= i < j < |m| ensures m[i].path != m[j].path {
      assert m[i] in d && m[j] in d;
      if m[i] == m[j] {
        CountTwice(m, i, j);
        CountDistinct(d, m[i]);
      }
    }
  }

  // ----- the archive holds the manifest and the files -----

  /** `createBackupArchive`, for a tree that does not change meanwhile. */
  datatype BackupResult = BackupResult(manifest: seq<ManifestEntry>, archive: Bytes)

  /** Every line has the size of the file its path leads to. */
  predicate SizesMatch(t: Tree, m: seq<ManifestEntry>) {
    forall e :: e in m ==> Resolvable(t, e.path) && |FileAt(t, e.path).bytes| == e.size
  }

  predicate HashesMatch(env: Env, t: Tree, m: seq<ManifestEntry>) {
    forall e :: e in m ==> Resolvable(t, e.path) && env.hash(FileAt(t, e.path).bytes) == e.sha256
  }

  /** The entries can be archived exactly when the manifest is within the size limit of a file and the sizes match. */
  lemma EntriesArchivable(t: Tree, m: seq<ManifestEntry>, text: Bytes, now: nat, mode: nat)
    requires forall e :: e in m ==> FitLine(e) && Resolvable(t, e.path)
    requires var es := [ManifestSource(text, now, mode)] + SourcesOf(t, m, now); WriteArchive(es).Success?
    ensures var es := [ManifestSource(text, now, mode)] + SourcesOf(t, m, now);
            (forall s :: s in es ==> Archivable(s)) <==> |text| <= MAX_FILE_SIZE && SizesMatch(t, m)
  {
    hide IsUnsafeTarPath, NameKept, Representable, BuildHeader, Resolvable, FileAt;
    var es := [ManifestSource(text, now, mode)] + SourcesOf(t, m, now);
    ManifestNameFits();
    assert es[0] in es && (Archivable(es[0]) <==> |text| <= MAX_FILE_SIZE);
    forall i | 0 < i < |es|
      ensures es[i] in es && m[i - 1] in m
      ensures Archivable(es[i]) <==> |FileAt(t, m[i - 1].path).bytes| == m[i - 1].size
    {
      AllRepresentable(es, i);
      assert es[i] == SourceOf(t, m[i - 1], now);
      SafeNameKept(es[i].name);
    }
    if forall s :: s in es ==> Archivable(s) {
      forall e | e in m ensures |FileAt(t, e.path).bytes| == e.size {
        var i :| 0 <= i < |m| && m[i] == e;
        assert Archivable(es[i + 1]);
      }
    }
  }

  lemma SafeNameKept(name: Bytes)
    requires !IsUnsafeTarPath(name) && NUL !in name && Representable(name)
    ensures NameKept(name)
  {
    NulFreeKept(name);
  }

  lemma {:induction false} AllRepresentable(es: seq<Source>, i: nat)
    requires WriteArchive(es).Success? && i < |es|
    ensures Representable(es[i].name)
  {
    hide Representable;
    if i == 0 {
      BuiltIsRepresentable(es[0]);
    } else {
      AllRepresentable(es[1..], i - 1);
    }
  }

  // ----- inspecting -----

  predicate IsFileEntry(e: Entry) { !e.isDir }

  function FilesOf(es: seq<Entry>): seq<Entry> { Filter(es, IsFileEntry) }

  predicate DistinctNames(files: seq<Entry>) {
    forall i, j :: 0 <= i < j < |files| ==> files[i].name != files[j].name
  }

  function NamesOf(files: seq<Entry>): set<Bytes> {
    set i | 0 <= i < |files| :: files[i].name
  }

  /** The bytes gathered for the manifest; empty when there is none. */
  function ManifestBytes(files: seq<Entry>): Bytes {
    if files == [] then []
    else
      var last := files[|files| - 1];
      ManifestBytes(files[..|files| - 1]) + (if last.name == MANIFEST_NAME then last.body else [])
  }

  /** What the archive holds: name to hash and size, the manifest apart. */
  function Actual(env: Env, files: seq<Entry>): map<Bytes, (string, int)> {
    if files == [] then map[]
    else
      var front, last := Actual(env, files[..|files| - 1]), files[|files| - 1];
      if last.name == MANIFEST_NAME then front else front[last.name := (env.hash(last.body), |last.body|)]
  }

  predicate ValidEntry(r: RawEntry) {
    && r.path.Some? && !IsUnsafeTarPath(r.path.value)
    && r.size.Some? && r.size.value >= 0
    && r.sha256.Some? && IsHex64(r.sha256.value)
  }

  predicate ValidManifest(raws: seq<RawEntry>) {
    && (forall i :: 0 <= i < |raws| ==> ValidEntry(raws[i]))
    && (forall i, j :: 0 <= i < j < |raws| ==> raws[i].path != raws[j].path)
  }

  /** What the manifest declares: path to hash and size. */
  function Declared(raws: seq<RawEntry>): map<Bytes, (string, int)>
    requires forall i :: 0 <= i < |raws| ==> ValidEntry(raws[i])
  {
    if raws == [] then map[]
    else
      var last := raws[|raws| - 1];
      assert ValidEntry(last);
      Declared(raws[..|raws| - 1])[last.path.value := (last.sha256.value, last.size.value)]
  }

  /** The callback's own checks: no repeated name, no oversized manifest. */
  predicate Acceptable(files: seq<Entry>) {
    && DistinctNames(files)
    && forall i :: 0 <= i < |files| && files[i].name == MANIFEST_NAME ==> files[i].size <= MANIFEST_LIMIT
  }

  /** A backup is good when it reads to its end, names each file once, has a manifest, and holds exactly what that
      declares. */
  predicate GoodBackup(env: Env, read: Reading) {
    var files := FilesOf(read.entries);
    && read.error.None?
    && Acceptable(files)
    && MANIFEST_NAME in NamesOf(files)
    && var raws := env.decode(ManifestBytes(files));
    && raws.Some?
    && ValidManifest(raws.value)
    && Declared(raws.value) == Actual(env, files)
  }

  lemma {:induction false} DeclaredAt(raws: seq<RawEntry>, i: nat)
    requires ValidManifest(raws) && i < |raws|
    ensures raws[i].path.value in Declared(raws)
    ensures Declared(raws)[raws[i].path.value] == (raws[i].sha256.value, raws[i].size.value)
  {
    hide IsUnsafeTarPath, IsHex64;
    if i < |raws| - 1 {
      DeclaredAt(raws[..|raws| - 1], i);
    }
  }

  lemma {:induction false} DeclaredKeys(raws: seq<RawEntry>, name: Bytes)
    requires ValidManifest(raws)
    ensures name in Declared(raws) <==> exists i :: 0 <= i < |raws| && raws[i].path == Some(name)
  {
    hide IsUnsafeTarPath, IsHex64;
    if raws != [] {
      var front := raws[..|raws| - 1];
      DeclaredKeys(front, name);
      assert forall i :: 0 <= i < |front| ==> front[i] == raws[i];
      assert forall i :: 0 <= i < |raws| - 1 ==> raws[i] == front[i];
    }
  }

  datatype Issue = MissingFile(name: Bytes) | Mismatch(name: Bytes) | UnexpectedFile(name: Bytes)

  /** Manifest and content compared one entry at a time, as the inspection reports them. */
  method Compare(raws: seq<RawEntry>, hashes: map<Bytes, (string, int)>) returns (issues: seq<Issue>)
    requires ValidManifest(raws)
    ensures issues == [] <==> Declared(raws) == hashes
  {
    hide IsUnsafeTarPath, IsHex64, Declared;
    issues := [];
    for i := 0 to |raws|
      invariant issues == [] <==> forall j :: 0 <= j < i ==> Matches(raws[j], hashes)
    {
      assert ValidEntry(raws[i]);
      var path := raws[i].path.value;
      if path !in hashes {
        issues := issues + [MissingFile(path)];
      } else {
        if hashes[path].0 != raws[i].sha256.value {
          issues := issues + [Mismatch(path)];
        }
        if hashes[path].1 != raws[i].size.value {
          issues := issues + [Mismatch(path)];
        }
      }
    }
    ghost var matched := issues == [];
    var names := hashes.Keys;
    while names != {}
      invariant names <= hashes.Keys
      invariant issues == [] <==> matched && forall name :: name in hashes.Keys - names ==> Listed(raws, name)
    {
      var name :| name in names;
      if !Listed(raws, name) {
        issues := issues + [UnexpectedFile(name)];
      }
      names := names - {name};
    }
    DeclaredIff(raws, hashes);
  }

  predicate Matches(r: RawEntry, hashes: map<Bytes, (string, int)>) {
    && r.path.Some? && r.size.Some? && r.sha256.Some?
    && r.path.value in hashes && hashes[r.path.value] == (r.sha256.value, r.size.value)
  }

  predicate Listed(raws: seq<RawEntry>, name: Bytes) {
    exists i :: 0 <= i < |raws| && raws[i].path == Some(name)
  }

  lemma {:induction false} DeclaredIff(raws: seq<RawEntry>, hashes: map<Bytes, (string, int)>)
    requires ValidManifest(raws)
    ensures Declared(raws) == hashes <==>
              && (forall j :: 0 <= j < |raws| ==> Matches(raws[j], hashes))
              && (forall name :: name in hashes ==> Listed(raws, name))
  {
    hide IsUnsafeTarPath, IsHex64, Declared;
    forall j | 0 <= j < |raws|
      ensures ValidEntry(raws[j])
      ensures raws[j].path.value in Declared(raws)
      ensures Declared(raws)[raws[j].path.value] == (raws[j].sha256.value, raws[j].size.value)
    {
      DeclaredAt(raws, j);
    }
    forall name ensures name in Declared(raws) <==> Listed(raws, name) {
      DeclaredKeys(raws, name);
    }
  }

  datatype InspectResult = InspectResult(ok: bool, manifest: Option<seq<RawEntry>>, fileCount: nat)

  lemma FilesOfPrefix(es: seq<Entry>, i: nat)
    requires i < |es|
    ensures FilesOf(es[..i + 1]) == FilesOf(es[..i]) + (if es[i].isDir then [] else [es[i]])
    ensures Acceptable(FilesOf(es)) ==> Acceptable(FilesOf(es[..i + 1]))
  {
    assert es[..i + 1][..i] == es[..i];
    assert es == es[..i + 1] + es[i + 1..];
    FilterConcat(es[..i + 1], es[i + 1..], IsFileEntry);
    var whole, part := FilesOf(es), FilesOf(es[..i + 1]);
    assert forall k :: 0 <= k < |part| ==> whole[k] == part[k];
  }

  /** One callback: what it adds, and exactly when it objects. */
  lemma ScanStep(env: Env, files: seq<Entry>, e: Entry)
    ensures NamesOf(files + [e]) == NamesOf(files) + {e.name}
    ensures ManifestBytes(files + [e]) == ManifestBytes(files) + (if e.name == MANIFEST_NAME then e.body else [])
    ensures Actual(env, files + [e]) ==
              if e.name == MANIFEST_NAME then Actual(env, files)
              else Actual(env, files)[e.name := (env.hash(e.body), |e.body|)]
    ensures Acceptable(files) ==>
              (Acceptable(files + [e]) <==>
                 e.name !in NamesOf(files) && (e.name == MANIFEST_NAME ==> e.size <= MANIFEST_LIMIT))
  {
    hide *;
    NamesStep(files, e);
    if Acceptable(files) {
      AcceptStep(files, e);
    }
    ContentStep(env, files, e);
  }

  lemma NamesStep(files: seq<Entry>, e: Entry)
    ensures NamesOf(files + [e]) == NamesOf(files) + {e.name}
  {
    var all := files + [e];
    assert forall i :: 0 <= i < |files| ==> all[i] == files[i];
    assert all[|files|] == e;
  }

  lemma AcceptStep(files: seq<Entry>, e: Entry)
    requires Acceptable(files)
    ensures Acceptable(files + [e]) <==>
              e.name !in NamesOf(files) && (e.name == MANIFEST_NAME ==> e.size <= MANIFEST_LIMIT)
  {
    var all := files + [e];
    assert forall i :: 0 <= i < |files| ==> all[i] == files[i];
    assert all[|files|] == e;
    if e.name in NamesOf(files) {
      var k :| 0 <= k < |files| && files[k].name == e.name;
      assert all[k].name == all[|files|].name;
    }
  }

  lemma ContentStep(env: Env, files: seq<Entry>, e: Entry)
    ensures ManifestBytes(files + [e]) == ManifestBytes(files) + (if e.name == MANIFEST_NAME then e.body else [])
    ensures Actual(env, files + [e]) ==
              if e.name == MANIFEST_NAME then Actual(env, files)
              else Actual(env, files)[e.name := (env.hash(e.body), |e.body|)]
  {
    assert (files + [e])[..|files|] == files;
  }

  /** The callbacks of the inspection, in reading order. */
  method Scan(env: Env, entries: seq<Entry>)
    returns (acceptable: bool, manifestBytes: Bytes, hashes: map<Bytes, (string, int)>, fileCount: nat)
    ensures acceptable <==> Acceptable(FilesOf(entries))
    ensures acceptable ==> manifestBytes == ManifestBytes(FilesOf(entries)) && hashes == Actual(env, FilesOf(entries))
  {
    hide FilesOf, NamesOf, ManifestBytes, Actual, Acceptable;
    manifestBytes, hashes, fileCount := [], map[], 0;
    var names: set<Bytes> := {};
    NoFilesYet(env, entries);
    for i := 0 to |entries|
      invariant Acceptable(FilesOf(entries[..i]))
      invariant names == NamesOf(FilesOf(entries[..i]))
      invariant manifestBytes == ManifestBytes(FilesOf(entries[..i])) && hashes == Actual(env, FilesOf(entries[..i]))
    {
      var entry := entries[i];
      FilesOfPrefix(entries, i);
      assert FilesOf(entries[..i]) + [] == FilesOf(entries[..i]);
      if !entry.isDir {
        ScanStep(env, FilesOf(entries[..i]), entry);
        if entry.name in names {
          return false, [], map[], 0;
        }
        names := names + {entry.name};
        if entry.name == MANIFEST_NAME {
          if entry.size > MANIFEST_LIMIT {
            return false, [], map[], 0;
          }
          manifestBytes := manifestBytes + entry.body;
        } else {
          hashes := hashes[entry.name := (env.hash(entry.body), |entry.body|)];
          fileCount := fileCount + 1;
        }
        assert manifestBytes + [] == manifestBytes;
      }
    }
    assert entries[..|entries|] == entries;
    acceptable := true;
  }

  lemma NoFilesYet(env: Env, entries: seq<Entry>)
    ensures FilesOf(entries[..0]) == []
    ensures Acceptable([]) && NamesOf([]) == {} && ManifestBytes([]) == [] && Actual(env, []) == map[]
  {
  }

  lemma {:induction false} NoManifestNoBytes(files: seq<Entry>)
    ensures MANIFEST_NAME !in NamesOf(files) ==> ManifestBytes(files) == []
  {
    if files != [] {
      hide NamesOf;
      var front, last := files[..|files| - 1], files[|files| - 1];
      assert files == front + [last];
      NoManifestNoBytes(front);
      NamesStep(front, last);
    }
  }

  /** Whatever the bytes, the inspection says ok exactly for a good backup. */
  method Inspect(env: Env, reader: ChunkReader) returns (r: InspectResult)
    requires RejectsEmpty(env)
    modifies reader
    ensures r.ok <==> GoodBackup(env, ReadArchive(old(reader.Remaining())))
    ensures r.ok ==> r.manifest == env.decode(ManifestBytes(FilesOf(ReadArchive(old(reader.Remaining())).entries)))
  {
    hide FilesOf, Acceptable, ValidManifest, ReadArchive, ManifestBytes, Actual, Declared, NamesOf;
    var entries, error := ReadTar(reader);
    NoManifestNoBytes(FilesOf(entries));
    var acceptable, manifestBytes, hashes, fileCount := Scan(env, entries);
    if !acceptable || error.Some? {
      return InspectResult(false, None, 0);
    }
    var raws := env.decode(manifestBytes);
    if raws.None? || !ValidManifest(raws.value) {
      return InspectResult(false, None, fileCount);
    }
    var issues := Compare(raws.value, hashes);
    r := InspectResult(issues == [], raws, fileCount);
  }

  // ----- a created backup is good -----

  function CreateBackup(env: Env, t: Tree, root: Path, includes: seq<Bytes>, excluded: seq<Bytes>, now: nat, mode: nat)
    : Result<BackupResult, BackupError>
    requires ProperTree(t)
  {
    match CollectFiles(root, t, includes, excluded)
    case Failure(e) => Failure(Collecting(e))
    case Success(found) =>
      var files := Dedup(found);
      CollectedAreFiles(root, t, includes, excluded);
      if files == [] then Failure(NoFiles)
      else match Describe(env, root, t, files)
        case Failure(e) => Failure(e)
        case Success(described) => Archived(env, t, env.sort(described), now, mode)
  }

  /** The entries are read and written in turn, up to the first path without a file. */
  function Archived(env: Env, t: Tree, m: seq<ManifestEntry>, now: nat, mode: nat): Result<BackupResult, BackupError> {
    var good := Readable(t, m);
    match WriteArchive([ManifestSource(env.encode(m), now, mode)] + SourcesOf(t, good, now))
    case Failure(e) => Failure(Archiving(e))
    case Success(archive) => if |good| < |m| then Failure(Unreadable) else Success(BackupResult(m, archive))
  }

  lemma CollectedAreFiles(root: Path, t: Tree, includes: seq<Bytes>, excluded: seq<Bytes>)
    requires ProperTree(t) && CollectFiles(root, t, includes, excluded).Success?
    ensures var files := Dedup(CollectFiles(root, t, includes, excluded).value);
            AllFiles(t, files) && forall i, j :: 0 <= i < j < |files| ==> files[i] != files[j]
  {
    hide CollectFiles, IncludePath;
    CollectedExactlyOnce(root, t, includes, excluded);
  }

  method DescribeFiles(env: Env, root: Path, t: Tree, files: seq<Path>)
    returns (r: Result<seq<ManifestEntry>, BackupError>)
    requires AllFiles(t, files)
    ensures r == Describe(env, root, t, files)
  {
    hide DescribeOne;
    var entries: seq<ManifestEntry> := [];
    for i := 0 to |files|
      invariant Describe(env, root, t, files[..i]) == Success(entries)
    {
      assert files[..i + 1][..i] == files[..i];
      var one := DescribeOne(env, root, t, files[i]);
      if one.Failure? {
        DescribeStops(env, root, t, files, i + 1);
        return Failure(one.error);
      }
      entries := entries + [one.value];
    }
    assert files[..|files|] == files;
    r := Success(entries);
  }

  lemma {:induction false} DescribeStops(env: Env, root: Path, t: Tree, files: seq<Path>, i: nat)
    requires AllFiles(t, files) && i <= |files|
    requires Describe(env, root, t, files[..i]).Failure?
    ensures Describe(env, root, t, files) == Describe(env, root, t, files[..i])
    decreases |files| - i
  {
    hide DescribeOne;
    if i < |files| {
      assert files[..i + 1][..i] == files[..i];
      DescribeStops(env, root, t, files, i + 1);
    } else {
      assert files[..i] == files;
    }
  }

  method CreateBackupArchive(env: Env, t: Tree, root: Path, includes: seq<Bytes>, excluded: seq<Bytes>,
                             now: nat, mode: nat)
    returns (r: Result<BackupResult, BackupError>)
    requires ProperTree(t)
    ensures r == CreateBackup(env, t, root, includes, excluded, now, mode)
  {
    hide CollectFiles, Describe, WriteArchive, Resolvable, SplitOn, AllFiles;
    var found := CollectInto(root, t, includes, excluded);
    if found.Failure? {
      return Failure(Collecting(found.error));
    }
    var files := Dedup(found.value);
    CollectedAreFiles(root, t, includes, excluded);
    if files == [] {
      return Failure(NoFiles);
    }
    var described := DescribeFiles(env, root, t, files);
    if described.Failure? {
      return Failure(described.error);
    }
    var m := env.sort(described.value);
    var sources, all := OpenSources(t, m, now);
    var archive := WriteTar([ManifestSource(env.encode(m), now, mode)] + sources);
    if archive.Failure? {
      return Failure(Archiving(archive.error));
    }
    if !all {
      return Failure(Unreadable);
    }
    r := Success(BackupResult(m, archive.value));
  }

  /** The sources of the first `i` lines, all of them readable. */
  ghost predicate OpenedTo(t: Tree, m: seq<ManifestEntry>, i: nat, sources: seq<Source>, now: nat) {
    && i <= |m| && Readable(t, m) == m[..i] + Readable(t, m[i..])
    && (forall e :: e in m[..i] ==> Resolvable(t, e.path))
    && sources == SourcesOf(t, m[..i], now)
  }

  lemma OpenedStart(t: Tree, m: seq<ManifestEntry>, now: nat)
    ensures OpenedTo(t, m, 0, [], now)
  {
    hide Readable, Resolvable;
    assert m[..0] == [] && m[0..] == m && [] + Readable(t, m) == Readable(t, m);
  }

  lemma OpenedStep(t: Tree, m: seq<ManifestEntry>, i: nat, sources: seq<Source>, now: nat)
    requires OpenedTo(t, m, i, sources, now) && i < |m| && Resolvable(t, m[i].path)
    ensures OpenedTo(t, m, i + 1, sources + [SourceOf(t, m[i], now)], now)
  {
    hide Readable, Resolvable, SourcesOf, SourceOf;
    ReadableStep(t, m, i);
    SourcesStep(t, m[..i], m[i], now);
    assert m[..i + 1] == m[..i] + [m[i]];
    assert m[..i] + ([m[i]] + Readable(t, m[i + 1..])) == m[..i] + [m[i]] + Readable(t, m[i + 1..]);
  }

  lemma OpenedEnd(t: Tree, m: seq<ManifestEntry>, i: nat, sources: seq<Source>, now: nat)
    requires OpenedTo(t, m, i, sources, now) && (i < |m| ==> !Resolvable(t, m[i].path))
    ensures Readable(t, m) == m[..i] && |Readable(t, m)| == i && sources == SourcesOf(t, Readable(t, m), now)
  {
    hide Readable, Resolvable, SourcesOf;
    ReadableEnds(t, m, i);
    assert m[..i] + [] == m[..i];
  }

  /** The files behind the manifest's paths, up to the first that cannot be read. */
  method OpenSources(t: Tree, m: seq<ManifestEntry>, now: nat) returns (sources: seq<Source>, all: bool)
    ensures sources == SourcesOf(t, Readable(t, m), now)
    ensures all <==> |Readable(t, m)| == |m|
  {
    hide *;
    sources := [];
    var i := 0;
    OpenedStart(t, m, now);
    while i < |m| && Resolvable(t, m[i].path)
      invariant 0 <= i <= |m| && OpenedTo(t, m, i, sources, now)
    {
      OpenedStep(t, m, i, sources, now);
      sources := sources + [SourceOf(t, m[i], now)];
      i := i + 1;
    }
    OpenedEnd(t, m, i, sources, now);
    all := i == |m|;
  }

  lemma ReadableStep(t: Tree, m: seq<ManifestEntry>, i: nat)
    requires i < |m| && Resolvable(t, m[i].path)
    ensures Readable(t, m[i..]) == [m[i]] + Readable(t, m[i + 1..])
  {
    hide Resolvable;
    assert m[i..][0] == m[i] && m[i..][1..] == m[i + 1..];
  }

  lemma ReadableEnds(t: Tree, m: seq<ManifestEntry>, i: nat)
    requires i <= |m| && (i < |m| ==> !Resolvable(t, m[i].path))
    ensures Readable(t, m[i..]) == []
  {
    hide Resolvable;
    if i < |m| {
      assert m[i..][0] == m[i];
    }
  }

  lemma SourcesStep(t: Tree, good: seq<ManifestEntry>, e: ManifestEntry, now: nat)
    requires (forall x :: x in good ==> Resolvable(t, x.path)) && Resolvable(t, e.path)
    ensures forall x :: x in good + [e] ==> Resolvable(t, x.path)
    ensures SourcesOf(t, good + [e], now) == SourcesOf(t, good, now) + [SourceOf(t, e, now)]
  {
    hide Resolvable, SourceOf;
  }

  /** The entry a manifest line leads to. */
  function EntryFor(t: Tree, e: ManifestEntry): Entry
    requires Resolvable(t, e.path)
  {
    Entry(e.path, e.size, Some(FileAt(t, e.path).mode % 512), false, FileAt(t, e.path).bytes)
  }

  function EntriesFor(t: Tree, m: seq<ManifestEntry>): (es: seq<Entry>)
    requires forall e :: e in m ==> Resolvable(t, e.path)
    ensures |es| == |m| && forall i :: 0 <= i < |m| ==> es[i] == EntryFor(t, m[i])
  {
    seq(|m|, i requires 0 <= i < |m| => EntryFor(t, m[i]))
  }

  function ManifestEntryOf(text: Bytes, mode: nat): Entry {
    Entry(MANIFEST_NAME, |text|, Some(mode % 512), false, text)
  }

  lemma DeliveredBackup(t: Tree, m: seq<ManifestEntry>, text: Bytes, now: nat, mode: nat)
    requires forall e :: e in m ==> Resolvable(t, e.path)
    ensures DeliveredAll([ManifestSource(text, now, mode)] + SourcesOf(t, m, now))
            == [ManifestEntryOf(text, mode)] + EntriesFor(t, m)
  {
    hide Resolvable, FileAt;
    var es := [ManifestSource(text, now, mode)] + SourcesOf(t, m, now);
    forall i | 0 <= i < |es| ensures Delivered(es[i]) == ([ManifestEntryOf(text, mode)] + EntriesFor(t, m))[i] {
      if i > 0 {
        assert es[i] == SourceOf(t, m[i - 1], now);
      }
    }
  }

  lemma {:induction false} CreatedContent(env: Env, t: Tree, m: seq<ManifestEntry>, first: Entry)
    requires SizesMatch(t, m) && HashesMatch(env, t, m)
    requires first.name == MANIFEST_NAME && forall i :: 0 <= i < |m| ==> m[i].path != MANIFEST_NAME
    requires forall i :: 0 <= i < |m| ==> ValidEntry(RawsOf(m)[i])
    ensures Actual(env, [first] + EntriesFor(t, m)) == Declared(RawsOf(m))
  {
    hide *;
    MatchesResolve(t, m);
    if m == [] {
      NothingButManifest(env, t, first);
    } else {
      var front, last := m[..|m| - 1], m[|m| - 1];
      assert m == front + [last];
      assert forall i :: 0 <= i < |front| ==> RawsOf(front)[i] == RawsOf(m)[i];
      FrontMatches(env, t, m);
      CreatedContent(env, t, front, first);
      EntryForLine(env, t, m, last);
      assert [first] + EntriesFor(t, m) == [first] + EntriesFor(t, front) + [EntryFor(t, last)];
      assert RawsOf(m) == RawsOf(front) + [RawOf(last)];
      ContentStep(env, [first] + EntriesFor(t, front), EntryFor(t, last));
      DeclaredStep(RawsOf(front), RawOf(last));
    }
  }

  lemma MatchesResolve(t: Tree, m: seq<ManifestEntry>)
    requires SizesMatch(t, m)
    ensures forall e :: e in m ==> Resolvable(t, e.path)
  {
    hide Resolvable, FileAt;
  }

  lemma FrontMatches(env: Env, t: Tree, m: seq<ManifestEntry>)
    requires SizesMatch(t, m) && HashesMatch(env, t, m) && m != []
    ensures SizesMatch(t, m[..|m| - 1]) && HashesMatch(env, t, m[..|m| - 1])
  {
    hide Resolvable, FileAt;
  }

  lemma NothingButManifest(env: Env, t: Tree, first: Entry)
    requires first.name == MANIFEST_NAME
    ensures Actual(env, [first] + EntriesFor(t, [])) == Declared(RawsOf([]))
  {
    assert [first] + EntriesFor(t, []) == [first];
    assert [first][..0] == [];
  }

  lemma EntryForLine(env: Env, t: Tree, m: seq<ManifestEntry>, e: ManifestEntry)
    requires SizesMatch(t, m) && HashesMatch(env, t, m) && e in m
    ensures Resolvable(t, e.path)
    ensures var entry := EntryFor(t, e);
            entry.name == e.path && (env.hash(entry.body), |entry.body|) == (e.sha256, e.size)
    ensures RawOf(e) == RawEntry(Some(e.path), Some(e.size), Some(e.sha256))
  {
    hide FileAt, Resolvable;
  }

  lemma DeclaredStep(raws: seq<RawEntry>, r: RawEntry)
    requires forall i :: 0 <= i < |raws + [r]| ==> ValidEntry((raws + [r])[i])
    ensures (forall i :: 0 <= i < |raws| ==> ValidEntry(raws[i])) && r.path.Some? && r.size.Some? && r.sha256.Some?
    ensures Declared(raws + [r]) == Declared(raws)[r.path.value := (r.sha256.value, r.size.value)]
  {
    hide IsUnsafeTarPath, IsHex64;
    assert (raws + [r])[|raws|] == r && (raws + [r])[..|raws|] == raws;
    assert forall i :: 0 <= i < |raws| ==> (raws + [r])[i] == raws[i];
  }

  /** The only manifest among the entries gives its bytes. */
  lemma {:induction false} CreatedBytes(t: Tree, m: seq<ManifestEntry>, first: Entry)
    requires forall e :: e in m ==> Resolvable(t, e.path)
    requires first.name == MANIFEST_NAME && forall i :: 0 <= i < |m| ==> m[i].path != MANIFEST_NAME
    ensures ManifestBytes([first] + EntriesFor(t, m)) == first.body
  {
    hide Resolvable, FileAt;
    var es := [first] + EntriesFor(t, m);
    if m == [] {
      assert es == [first] && [first][..0] == [];
    } else {
      var front := m[..|m| - 1];
      CreatedBytes(t, front, first);
      assert es[..|es| - 1] == [first] + EntriesFor(t, front);
      assert es[|es| - 1].name == m[|m| - 1].path;
      assert first.body + [] == first.body;
    }
  }

  /** Where names are distinct, each entry's hash and size are found under its name. */
  lemma {:induction false} ActualAt(env: Env, files: seq<Entry>, i: nat)
    requires DistinctNames(files) && i < |files| && files[i].name != MANIFEST_NAME
    ensures files[i].name in Actual(env, files)
    ensures Actual(env, files)[files[i].name] == (env.hash(files[i].body), |files[i].body|)
  {
    if i < |files| - 1 {
      var front := files[..|files| - 1];
      assert forall k :: 0 <= k < |front| ==> front[k] == files[k];
      ActualAt(env, front, i);
    }
  }

  lemma HashAt(env: Env, t: Tree, m: seq<ManifestEntry>, es: seq<Entry>, i: nat)
    requires i < |m| && i + 1 < |es| && Resolvable(t, m[i].path) && es[i + 1] == EntryFor(t, m[i])
    requires ValidManifest(RawsOf(m)) && DistinctNames(es) && m[i].path != MANIFEST_NAME
    requires Declared(RawsOf(m)) == Actual(env, es)
    ensures env.hash(FileAt(t, m[i].path).bytes) == m[i].sha256
  {
    hide Declared, Actual, Resolvable, FileAt, ValidManifest, DistinctNames;
    EntriesValid(RawsOf(m));
    DeclaredAt(RawsOf(m), i);
    ActualAt(env, es, i + 1);
    assert RawsOf(m)[i] == RawOf(m[i]);
  }

  lemma EntriesAfterManifest(t: Tree, m: seq<ManifestEntry>, first: Entry, i: nat)
    requires forall e :: e in m ==> Resolvable(t, e.path)
    requires DistinctNames([first] + EntriesFor(t, m)) && first.name == MANIFEST_NAME && i < |m|
    ensures m[i].path != MANIFEST_NAME && ([first] + EntriesFor(t, m))[i + 1] == EntryFor(t, m[i])
  {
    hide Resolvable, FileAt;
    var es := [first] + EntriesFor(t, m);
    assert es[0].name != es[i + 1].name;
  }

  lemma HashesFromContent(env: Env, t: Tree, m: seq<ManifestEntry>, first: Entry)
    requires ValidManifest(RawsOf(m)) && first.name == MANIFEST_NAME
    requires forall e :: e in m ==> Resolvable(t, e.path)
    requires DistinctNames([first] + EntriesFor(t, m))
    requires Declared(RawsOf(m)) == Actual(env, [first] + EntriesFor(t, m))
    ensures HashesMatch(env, t, m)
  {
    hide Declared, Actual, Resolvable, FileAt, ValidManifest, DistinctNames, EntryFor;
    forall e | e in m ensures env.hash(FileAt(t, e.path).bytes) == e.sha256 {
      var i :| 0 <= i < |m| && m[i] == e;
      EntriesAfterManifest(t, m, first, i);
      HashAt(env, t, m, [first] + EntriesFor(t, m), i);
    }
  }

  /** The entries hold what the lines declare exactly when the hashes match. */
  lemma ContentIff(env: Env, t: Tree, m: seq<ManifestEntry>, first: Entry)
    requires SizesMatch(t, m) && ValidManifest(RawsOf(m)) && first.name == MANIFEST_NAME
    requires forall e :: e in m ==> Resolvable(t, e.path)
    requires DistinctNames([first] + EntriesFor(t, m))
    ensures Declared(RawsOf(m)) == Actual(env, [first] + EntriesFor(t, m)) <==> HashesMatch(env, t, m)
  {
    hide *;
    EntriesValid(RawsOf(m));
    if HashesMatch(env, t, m) {
      forall i | 0 <= i < |m| ensures m[i].path != MANIFEST_NAME {
        EntriesAfterManifest(t, m, first, i);
      }
      CreatedContent(env, t, m, first);
    }
    if Declared(RawsOf(m)) == Actual(env, [first] + EntriesFor(t, m)) {
      HashesFromContent(env, t, m, first);
    }
  }

  lemma CreatedValid(env: Env, m: seq<ManifestEntry>)
    requires DistinctPaths(m) && forall e :: e in m ==> FitLine(e) && IsHex64(e.sha256)
    ensures ValidManifest(RawsOf(m))
  {
    hide IsUnsafeTarPath, IsHex64;
    forall i | 0 <= i < |m| ensures ValidEntry(RawsOf(m)[i]) {
      assert m[i] in m;
    }
  }

  lemma CreatedAcceptable(t: Tree, m: seq<ManifestEntry>, first: Entry)
    requires forall e :: e in m ==> Resolvable(t, e.path)
    requires first.name == MANIFEST_NAME
    ensures Acceptable([first] + EntriesFor(t, m)) <==>
              && first.size <= MANIFEST_LIMIT && DistinctPaths(m)
              && forall i :: 0 <= i < |m| ==> m[i].path != MANIFEST_NAME
  {
    hide Resolvable, FileAt, Acceptable;
    var rest := EntriesFor(t, m);
    assert forall i :: 0 <= i < |m| ==> rest[i].name == m[i].path;
    assert DistinctNames(rest) <==> DistinctPaths(m);
    AcceptableCons(first, rest);
  }

  lemma DistinctCons(first: Entry, rest: seq<Entry>)
    ensures DistinctNames([first] + rest) <==>
              DistinctNames(rest) && forall i :: 0 <= i < |rest| ==> rest[i].name != first.name
  {
    var es := [first] + rest;
    assert forall i :: 0 <= i < |rest| ==> es[i + 1] == rest[i];
    if DistinctNames(es) {
      forall i | 0 <= i < |rest| ensures rest[i].name != first.name {
        assert es[0].name != es[i + 1].name;
      }
      forall i, j | 0 <= i < j < |rest| ensures rest[i].name != rest[j].name {
        assert es[i + 1].name != es[j + 1].name;
      }
    }
    if DistinctNames(rest) && forall i :: 0 <= i < |rest| ==> rest[i].name != first.name {
      forall i, j | 0 <= i < j < |es| ensures es[i].name != es[j].name {
        assert es[j] == rest[j - 1];
        assert i > 0 ==> es[i] == rest[i - 1];
      }
    }
  }

  lemma AcceptableCons(first: Entry, rest: seq<Entry>)
    requires first.name == MANIFEST_NAME
    ensures Acceptable([first] + rest) <==>
              && first.size <= MANIFEST_LIMIT && DistinctNames(rest)
              && forall i :: 0 <= i < |rest| ==> rest[i].name != MANIFEST_NAME
  {
    hide DistinctNames;
    DistinctCons(first, rest);
    var es := [first] + rest;
    assert es[0] == first;
    assert forall i :: 0 < i < |es| ==> es[i] == rest[i - 1];
  }

  /** A file that can be backed up: its relative name is safe, fits a header and leads to a file, and it is not too
      large. */
  predicate Storable(root: Path, t: Tree, p: Path)
    requires Lookup(t, p).Some? && Lookup(t, p).value.File?
  {
    var name := RelativeName(root, p);
    && !IsUnsafeTarPath(name) && Representable(name) && Resolvable(t, name)
    && |Lookup(t, p).value.bytes| <= MAX_FILE_SIZE
  }

  /** Below any root but "/" a safe name leads to its own file. */
  lemma SafeNameLeadsBack(root: Path, t: Tree, p: Path)
    requires ProperTree(t) && Lookup(t, p).Some? && Lookup(t, p).value.File?
    requires root != [] && !IsUnsafeTarPath(RelativeName(root, p))
    ensures SplitOn(RelativeName(root, p), SLASH) == p && Resolvable(t, RelativeName(root, p))
  {
    hide IsUnsafeTarPath;
    EmptyNameIsUnsafe();
    NameLeadsBack(t, p);
  }

  lemma {:induction false} DescribeIff(env: Env, root: Path, t: Tree, ps: seq<Path>)
    requires AllFiles(t, ps)
    ensures Describe(env, root, t, ps).Success? <==> forall p :: p in ps ==> DescribeOne(env, root, t, p).Success?
  {
    hide DescribeOne;
    if ps != [] {
      DescribeIff(env, root, t, ps[..|ps| - 1]);
      assert ps == ps[..|ps| - 1] + [ps[|ps| - 1]];
    }
  }

  lemma {:induction false} WriteIff(es: seq<Source>)
    ensures WriteArchive(es).Success? <==> forall i :: 0 <= i < |es| ==> Representable(es[i].name)
  {
    if es != [] {
      hide BuildHeader, Representable;
      BuiltIsRepresentable(es[0]);
      if Representable(es[0].name) {
        HeaderInversion(HeaderOf(es[0]));
      }
      WriteIff(es[1..]);
      assert forall i :: 0 < i < |es| ==> es[i] == es[1..][i - 1];
      assert forall i :: 0 <= i < |es| - 1 ==> es[1..][i] == es[i + 1];
    }
  }

  lemma WritesIff(t: Tree, m: seq<ManifestEntry>, text: Bytes, now: nat, mode: nat)
    requires forall e :: e in m ==> Resolvable(t, e.path)
    ensures WriteArchive([ManifestSource(text, now, mode)] + SourcesOf(t, m, now)).Success? <==>
              forall e :: e in m ==> Representable(e.path)
  {
    hide WriteArchive, Resolvable, Representable, IsUnsafeTarPath, NameKept, FileAt;
    var es := [ManifestSource(text, now, mode)] + SourcesOf(t, m, now);
    WriteIff(es);
    ManifestNameFits();
    assert forall i :: 0 <= i < |m| ==> es[i + 1].name == m[i].path;
    assert forall i :: 0 < i < |es| ==> es[i].name == m[i - 1].path;
  }

  lemma ArchivedIff(env: Env, t: Tree, m: seq<ManifestEntry>, now: nat, mode: nat)
    ensures Archived(env, t, m, now, mode).Success? <==>
              forall e :: e in m ==> Resolvable(t, e.path) && Representable(e.path)
    ensures Archived(env, t, m, now, mode).Success? ==>
              && Readable(t, m) == m
              && Archived(env, t, m, now, mode).value.manifest == m
              && var sources := [ManifestSource(env.encode(m), now, mode)] + SourcesOf(t, m, now);
                 WriteArchive(sources) == Success(Archived(env, t, m, now, mode).value.archive)
  {
    hide Readable, Resolvable, Representable, WriteArchive;
    var good := Readable(t, m);
    assert |good| == |m| ==> good == m;
    WritesIff(t, good, env.encode(m), now, mode);
  }

  /** A backup is created exactly when collecting succeeds with some files, all of which can be stored; below any root
      but "/" a file that is safe by name needs no more than to fit. */
  lemma {:induction false} CreatedIff(env: Env, t: Tree, root: Path, includes: seq<Bytes>, excluded: seq<Bytes>,
                                      now: nat, mode: nat)
    requires ProperTree(t) && Sound(env)
    ensures CreateBackup(env, t, root, includes, excluded, now, mode).Success? <==>
              var found := CollectFiles(root, t, includes, excluded);
              && found.Success? && found.value != []
              && AllFiles(t, found.value) && forall p :: p in found.value ==> Storable(root, t, p)
  {
    hide CollectFiles, Describe, Resolvable, Representable, IsUnsafeTarPath, Dedup, Archived, RelativeName, Sound;
    var found := CollectFiles(root, t, includes, excluded);
    if found.Success? {
      CollectedAreFiles(root, t, includes, excluded);
      SameAsCollected(root, t, includes, excluded);
      var files := Dedup(found.value);
      DescribeIff(env, root, t, files);
      if files != [] && Describe(env, root, t, files).Success? {
        ManifestMade(env, root, t, files);
        var m := env.sort(Describe(env, root, t, files).value);
        ArchivedIff(env, t, m, now, mode);
        PathsAreNames(env, root, t, files, m);
      }
    }
  }

  lemma SameAsCollected(root: Path, t: Tree, includes: seq<Bytes>, excluded: seq<Bytes>)
    requires ProperTree(t) && CollectFiles(root, t, includes, excluded).Success?
    ensures var found := CollectFiles(root, t, includes, excluded).value;
            (forall p :: p in Dedup(found) <==> p in found) && (Dedup(found) == [] <==> found == [])
  {
    hide CollectFiles, Dedup;
    var found := CollectFiles(root, t, includes, excluded).value;
    DedupOnce(found);
    assert forall p :: p in Dedup(found) <==> p in found;
    if found != [] {
      assert found[0] in Dedup(found);
    }
    if Dedup(found) != [] {
      assert Dedup(found)[0] in found;
    }
  }

  /** The paths of the manifest are the relative names of the files. */
  lemma PathsAreNames(env: Env, root: Path, t: Tree, files: seq<Path>, m: seq<ManifestEntry>)
    requires MadeOf(env, root, t, files, m)
    ensures (forall e :: e in m ==> Resolvable(t, e.path) && Representable(e.path)) <==>
              forall p :: p in files ==>
                Resolvable(t, RelativeName(root, p)) && Representable(RelativeName(root, p))
  {
    hide Resolvable, Representable, FitLine, RelativeName;
    forall p | p in files
      ensures LineFor(env, root, t, p) in m && LineFor(env, root, t, p).path == RelativeName(root, p)
    {
    }
    forall e | e in m ensures exists p :: p in files && e.path == RelativeName(root, p) {
      var p :| p in files && e == LineFor(env, root, t, p);
    }
  }

  /** Each collected file is listed under its own path. */
  ghost predicate ListsAll(m: seq<ManifestEntry>, files: seq<Path>) {
    forall p :: p in files ==> exists e :: e in m && SplitOn(e.path, SLASH) == p
  }

  /** The manifest of a created backup has one line for each collected file, with its size and hash; the files are
      listed under their own paths, each once, exactly when the root is not "/". */
  lemma {:induction false} CreatedManifest(env: Env, t: Tree, root: Path, includes: seq<Bytes>, excluded: seq<Bytes>,
                                           now: nat, mode: nat)
    requires ProperTree(t) && Sound(env)
    requires CreateBackup(env, t, root, includes, excluded, now, mode).Success?
    ensures CollectFiles(root, t, includes, excluded).Success?
    ensures var m := CreateBackup(env, t, root, includes, excluded, now, mode).value.manifest;
            var files := Dedup(CollectFiles(root, t, includes, excluded).value);
            && MadeOf(env, root, t, files, m)
            && (ListsAll(m, files) <==> root != [])
            && (root != [] ==>
                  DistinctPaths(m) && forall e :: e in m ==> Resolvable(t, e.path) && Describes(env, t, files, e))
  {
    hide CollectFiles, Describe, Describes, Archived, Resolvable, SplitOn, AllFiles, MadeOf, Sound;
    CollectedAreFiles(root, t, includes, excluded);
    var files := Dedup(CollectFiles(root, t, includes, excluded).value);
    var m := env.sort(Describe(env, root, t, files).value);
    ManifestMade(env, root, t, files);
    ArchivedIff(env, t, m, now, mode);
    if root != [] {
      SortedManifest(env, root, t, files);
    } else {
      CutNamesLeadElsewhere(env, t, files, m);
    }
  }

  lemma {:induction false} LongestName(ps: seq<Path>) returns (p: Path)
    requires ps != []
    ensures p in ps && forall q :: q in ps ==> |JoinWith(q, SLASH)| <= |JoinWith(p, SLASH)|
  {
    hide JoinWith;
    if |ps| == 1 {
      p := ps[0];
    } else {
      var front, last := ps[..|ps| - 1], ps[|ps| - 1];
      assert ps == front + [last];
      p := LongestName(front);
      if |JoinWith(last, SLASH)| > |JoinWith(p, SLASH)| {
        p := last;
      }
    }
  }

  lemma CutIsShorter(p: Path, longest: Path)
    requires |JoinWith(p, SLASH)| <= |JoinWith(longest, SLASH)| && !IsUnsafeTarPath(Cut(JoinWith(p, SLASH)))
    ensures SplitOn(Cut(JoinWith(p, SLASH)), SLASH) != longest
  {
    hide IsUnsafeTarPath, SplitOn, JoinWith;
    EmptyNameIsUnsafe();
    assert JoinWith([], SLASH) == [] by { NothingJoined(); }
    JoinOfSplit(Cut(JoinWith(p, SLASH)), SLASH);
  }

  lemma NothingJoined()
    ensures JoinWith([], SLASH) == []
  {
  }

  /** With the first characters gone, no line is left for the file with the longest name. */
  lemma CutNamesLeadElsewhere(env: Env, t: Tree, files: seq<Path>, m: seq<ManifestEntry>)
    requires MadeOf(env, [], t, files, m) && files != []
    ensures !ListsAll(m, files)
  {
    hide IsUnsafeTarPath, SplitOn, JoinWith, Cut, Lookup;
    var longest := LongestName(files);
    forall e | e in m ensures SplitOn(e.path, SLASH) != longest {
      var p := FileOfLine(env, t, files, m, e);
      CutIsShorter(p, longest);
    }
  }

  lemma FileOfLine(env: Env, t: Tree, files: seq<Path>, m: seq<ManifestEntry>, e: ManifestEntry) returns (p: Path)
    requires MadeOf(env, [], t, files, m) && e in m
    ensures p in files && e.path == Cut(JoinWith(p, SLASH)) && !IsUnsafeTarPath(e.path)
  {
    hide IsUnsafeTarPath, JoinWith, Cut, Lookup;
    p :| p in files && e == LineFor(env, [], t, p);
  }

  /** What inspection asks of a created backup. */
  ghost predicate Fit(env: Env, t: Tree, m: seq<ManifestEntry>) {
    && |env.encode(m)| <= MANIFEST_LIMIT
    && (forall i :: 0 <= i < |m| ==> m[i].path != MANIFEST_NAME)
    && DistinctPaths(m) && HashesMatch(env, t, m)
  }

  /** A created backup reads back exactly when its manifest is within the size limit of a file and the files read have
      the sizes listed; it then passes inspection exactly when no file takes the manifest's name, the manifest is small,
      and no path is listed twice or with another file's hash. */
  lemma {:induction false} CreatedIsGood(env: Env, t: Tree, root: Path, includes: seq<Bytes>, excluded: seq<Bytes>,
                                         now: nat, mode: nat)
    requires ProperTree(t) && Sound(env)
    requires CreateBackup(env, t, root, includes, excluded, now, mode).Success?
    ensures var b := CreateBackup(env, t, root, includes, excluded, now, mode).value;
            var text := env.encode(b.manifest);
            var read := ReadArchive(b.archive);
            && (forall e :: e in b.manifest ==> Resolvable(t, e.path))
            && (read == Reading([ManifestEntryOf(text, mode)] + EntriesFor(t, b.manifest), None) <==>
                  |text| <= MAX_FILE_SIZE && SizesMatch(t, b.manifest))
            && (|text| <= MAX_FILE_SIZE && SizesMatch(t, b.manifest) ==>
                  (GoodBackup(env, read) <==> Fit(env, t, b.manifest)))
  {
    hide CollectFiles, Describe, Archived, Archivable, WriteArchive, ReadArchive, Resolvable, GoodBackup, EntryFor;
    hide Fit, SizesMatch, IsUnsafeTarPath, LineFor, Sound;
    var b := CreateBackup(env, t, root, includes, excluded, now, mode).value;
    var files := Dedup(CollectFiles(root, t, includes, excluded).value);
    CollectedAreFiles(root, t, includes, excluded);
    ManifestMade(env, root, t, files);
    var m, text := b.manifest, env.encode(b.manifest);
    ArchivedIff(env, t, env.sort(Describe(env, root, t, files).value), now, mode);
    var es := [ManifestSource(text, now, mode)] + SourcesOf(t, m, now);
    EntriesArchivable(t, m, text, now, mode);
    RoundTrip(es);
    DeliveredBackup(t, m, text, now, mode);
    if SizesMatch(t, m) {
      LinesAreHashed(env, root, t, files, m);
      GoodEntries(env, t, m, mode);
    }
  }

  lemma LinesAreHashed(env: Env, root: Path, t: Tree, files: seq<Path>, m: seq<ManifestEntry>)
    requires Sound(env) && MadeOf(env, root, t, files, m)
    ensures forall e :: e in m ==> FitLine(e) && IsHex64(e.sha256)
  {
    hide IsHex64, FitLine, RelativeName;
  }

  /** Below any root but "/" sizes, hashes and paths are right of themselves. */
  lemma NamedBackupMatches(env: Env, t: Tree, files: seq<Path>, m: seq<ManifestEntry>)
    requires forall e :: e in m ==> Resolvable(t, e.path) && Describes(env, t, files, e)
    ensures SizesMatch(t, m) && HashesMatch(env, t, m)
  {
    hide FitLine, SplitOn, Lookup;
  }

  lemma ManifestLimitIsSmaller()
    ensures MANIFEST_LIMIT <= MAX_FILE_SIZE
  {
  }

  lemma GoodEntries(env: Env, t: Tree, m: seq<ManifestEntry>, mode: nat)
    requires Sound(env) && SizesMatch(t, m)
    requires forall e :: e in m ==> Resolvable(t, e.path) && FitLine(e) && IsHex64(e.sha256)
    ensures GoodBackup(env, Reading([ManifestEntryOf(env.encode(m), mode)] + EntriesFor(t, m), None)) <==>
              Fit(env, t, m)
  {
    hide Resolvable, Acceptable, ManifestBytes, Actual, Declared, ValidManifest, EntryFor, FitLine, IsHex64;
    hide HashesMatch, SizesMatch;
    var first := ManifestEntryOf(env.encode(m), mode);
    var es := [first] + EntriesFor(t, m);
    assert FilesOf(es) == es by {
      AllFileEntries(t, m);
      FilterAll(es, IsFileEntry);
    }
    CreatedAcceptable(t, m, first);
    assert es[0].name == MANIFEST_NAME && MANIFEST_NAME in NamesOf(es);
    if Acceptable(es) {
      AcceptableIsDistinct(es);
      CreatedValid(env, m);
      CreatedBytes(t, m, first);
      ContentIff(env, t, m, first);
    }
  }

  lemma AcceptableIsDistinct(files: seq<Entry>)
    requires Acceptable(files)
    ensures DistinctNames(files)
  {
  }

  lemma EntriesValid(raws: seq<RawEntry>)
    requires ValidManifest(raws)
    ensures forall i :: 0 <= i < |raws| ==> ValidEntry(raws[i])
  {
  }

  lemma AllFileEntries(t: Tree, m: seq<ManifestEntry>)
    requires forall e :: e in m ==> Resolvable(t, e.path)
    ensures forall i :: 0 <= i < |m| ==> IsFileEntry(EntriesFor(t, m)[i])
  {
    hide Resolvable, FileAt;
  }
}
