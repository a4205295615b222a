/** The assumptions on hashing, JSON and sorting can be met together: an environment made for the purpose, and a backup
    made and restored in it. */
module BackupExample {
  import opened Sequences
  import opened Octal
  import opened TarHeader
  import opened TarArchive
  import opened Collect
  import opened Backup
  import opened Restore

  const ONE: Byte := 1
  const MARK: Byte := 2

  // ----- numbers in unary -----

  function Ones(n: nat): (s: Bytes)
    ensures |s| == n
  {
    if n == 0 then [] else [ONE] + Ones(n - 1)
  }

  function Unary(ns: seq<nat>): Bytes {
    if ns == [] then [] else Ones(ns[0]) + [NUL] + Unary(ns[1..])
  }

  /** The numbers written, `n` being the ones already seen of the first. */
  function Counted(s: Bytes, n: nat): seq<nat> {
    if s == [] then []
    else if s[0] == NUL then [n] + Counted(s[1..], 0)
    else Counted(s[1..], n + 1)
  }

  lemma {:induction false} CountedOnes(n: nat, rest: Bytes, seen: nat)
    ensures Counted(Ones(n) + [NUL] + rest, seen) == [seen + n] + Counted(rest, 0)
    decreases n
  {
    var s := Ones(n) + [NUL] + rest;
    if n == 0 {
      assert s[1..] == rest;
    } else {
      assert s[1..] == Ones(n - 1) + [NUL] + rest;
      CountedOnes(n - 1, rest, seen + 1);
    }
  }

  lemma {:induction false} CountedUnary(ns: seq<nat>)
    ensures Counted(Unary(ns), 0) == ns
  {
    if ns != [] {
      hide Counted;
      CountedOnes(ns[0], Unary(ns[1..]), 0);
      CountedUnary(ns[1..]);
    } else {
      assert Unary(ns) == [];
    }
  }

  lemma {:induction false} UnaryLength(ns: seq<nat>, bound: nat)
    requires forall i :: 0 <= i < |ns| ==> ns[i] < bound
    ensures |Unary(ns)| <= bound * |ns|
  {
    if ns != [] {
      var rest := ns[1..];
      UnaryLength(rest, bound);
      assert |Unary(ns)| == ns[0] + 1 + |Unary(rest)|;
      MoreOf(bound, |rest|);
    }
  }

  lemma MoreOf(bound: nat, n: nat)
    ensures bound * (n + 1) == bound * n + bound
  {
  }

  // ----- manifests as numbers -----

  function ByteOf(n: nat): Byte { if n < 256 then n else 0 }

  function CharOf(n: nat): char { if n < 0xD800 || 0xE000 <= n < 0x11_0000 then n as char else ' ' }

  function BytesOf(ns: seq<nat>): (s: Bytes)
    ensures |s| == |ns| && forall i :: 0 <= i < |ns| ==> s[i] == ByteOf(ns[i])
  {
    seq(|ns|, i requires 0 <= i < |ns| => ByteOf(ns[i]))
  }

  function TextOf(ns: seq<nat>): (s: string)
    ensures |s| == |ns| && forall i :: 0 <= i < |ns| ==> s[i] == CharOf(ns[i])
  {
    seq(|ns|, i requires 0 <= i < |ns| => CharOf(ns[i]))
  }

  function NumbersOfBytes(s: Bytes): (ns: seq<nat>)
    ensures |ns| == |s| && forall i :: 0 <= i < |s| ==> ns[i] == s[i]
  {
    seq(|s|, i requires 0 <= i < |s| => s[i])
  }

  function NumbersOfText(s: string): (ns: seq<nat>)
    ensures |ns| == |s| && forall i :: 0 <= i < |s| ==> ns[i] == s[i] as int
  {
    seq(|s|, i requires 0 <= i < |s| => s[i] as int)
  }

  function Line(e: ManifestEntry): seq<nat> {
    [|e.path|] + NumbersOfBytes(e.path) + [e.size] + [|e.sha256|] + NumbersOfText(e.sha256)
  }

  function Lines(m: seq<ManifestEntry>): seq<nat> {
    if m == [] then [] else Line(m[0]) + Lines(m[1..])
  }

  function Parsed(ns: seq<nat>): seq<RawEntry>
    decreases |ns|
  {
    if ns == [] || |ns| < 3 + ns[0] || |ns| < 3 + ns[0] + ns[2 + ns[0]] then []
    else
      var p := ns[0];
      var end := 3 + p + ns[2 + p];
      [RawEntry(Some(BytesOf(ns[1..1 + p])), Some(ns[1 + p]), Some(TextOf(ns[3 + p..end])))] + Parsed(ns[end..])
  }

  lemma ParsedLine(e: ManifestEntry, rest: seq<nat>)
    ensures Parsed(Line(e) + rest) == [RawOf(e)] + Parsed(rest)
  {
    var ns := Line(e) + rest;
    var p, q := |e.path|, |e.sha256|;
    assert ns[0] == p && ns[1 + p] == e.size && ns[2 + p] == q;
    assert BytesOf(ns[1..1 + p]) == e.path;
    assert TextOf(ns[3 + p..3 + p + q]) == e.sha256;
    assert ns[3 + p + q..] == rest;
  }

  lemma RawsCons(m: seq<ManifestEntry>)
    requires m != []
    ensures RawsOf(m) == [RawOf(m[0])] + RawsOf(m[1..])
  {
    hide RawOf;
  }

  lemma {:induction false} ParsedLines(m: seq<ManifestEntry>)
    ensures Parsed(Lines(m)) == RawsOf(m)
  {
    hide Parsed, Line, RawOf, RawsOf;
    if m != [] {
      ParsedLine(m[0], Lines(m[1..]));
      ParsedLines(m[1..]);
      RawsCons(m);
    } else {
      NoLines();
    }
  }

  lemma NoLines()
    ensures Parsed(Lines([])) == RawsOf([])
  {
  }

  // ----- the environment -----

  function Hash64(): (h: string)
    ensures IsHex64(h) && forall i :: 0 <= i < 64 ==> h[i] == '0'
  {
    seq(64, _ => '0')
  }

  function Encoded(m: seq<ManifestEntry>): Bytes { [MARK] + Unary(Lines(m)) }

  function Decoded(s: Bytes): Option<seq<RawEntry>> {
    if s == [] || s[0] != MARK then None else Some(Parsed(Counted(s[1..], 0)))
  }

  function Plain(): Env {
    Env(_ => Hash64(), m => Encoded(m), s => Decoded(s), m => m)
  }

  lemma DecodedEncoded(m: seq<ManifestEntry>)
    ensures Decoded(Encoded(m)) == Some(RawsOf(m))
  {
    assert Encoded(m)[1..] == Unary(Lines(m));
    CountedUnary(Lines(m));
    ParsedLines(m);
  }

  /** The assumptions of the backup's theorems can be met. */
  lemma PlainIsSound()
    ensures Sound(Plain())
  {
    hide Encoded, Decoded;
    forall m ensures Plain().decode(Plain().encode(m)) == Some(RawsOf(m)) {
      DecodedEncoded(m);
    }
    assert Decoded([]) == None by { NothingDecoded(); }
  }

  lemma NothingDecoded()
    ensures Decoded([]) == None
  {
  }

  // ----- one file backed up and restored -----

  const LETTER: Byte := 97
  const NAME: Bytes := [LETTER]
  const FILE: Tree := File([LETTER], 420)
  const TREE: Tree := Dir([Child(NAME, FILE)])
  const ROOT: Path := [[98]]
  const TARGET: Path := [[99]]
  const EMPTY_DISK: DiskState := DiskState(map[], {})
  const FORCED: RestoreOptions := RestoreOptions(TARGET, TARGET, false, true, true)

  lemma OneFileTree()
    ensures ProperTree(TREE) && Lookup(TREE, [NAME]) == Some(FILE)
  {
    assert [NAME][1..] == [];
    assert [Child(NAME, FILE)][1..] == [];
  }

  lemma NameIsPlain()
    ensures SplitOn(NAME, SLASH) == [NAME] && RelativeName(ROOT, [NAME]) == NAME
    ensures !IsUnsafeTarPath(NAME) && Representable(NAME)
  {
    SplitNothing(NAME, SLASH);
  }

  lemma OneFileCollected()
    ensures CollectFiles(ROOT, TREE, [NAME], []) == Success([[NAME]])
    ensures Dedup([[NAME]]) == [[NAME]]
  {
    NameIsPlain();
    OneFileTree();
    assert [NAME][1..] == [];
    assert Normalize([NAME], ROOT) == Normalize([NAME][1..], ROOT + [NAME]) == ROOT + [NAME];
    assert Resolve(ROOT, NAME) == ROOT + [NAME];
    assert (ROOT + [NAME])[|ROOT|..] == [NAME];
    assert CollectFiles(ROOT, TREE, [], []) == Success([]);
    assert [[NAME]] + [] == [[NAME]];
    assert [[NAME]][..0] == [];
  }

  lemma OneFileCreated()
    ensures ProperTree(TREE) && Sound(Plain())
    ensures CreateBackup(Plain(), TREE, ROOT, [NAME], [], 0, 420).Success?
  {
    hide CreateBackup, CollectFiles, IsUnsafeTarPath, Representable, Sound;
    PlainIsSound();
    OneFileTree();
    OneFileCollected();
    NameIsPlain();
    CreatedIff(Plain(), TREE, ROOT, [NAME], [], 0, 420);
  }

  lemma OneLineManifest(e: ManifestEntry)
    requires |e.path| == 1 && e.size == 1 && e.sha256 == Hash64()
    ensures |Encoded([e])| <= MANIFEST_LIMIT
  {
    var ns := Line(e);
    assert [e][1..] == [] && Lines([]) == [];
    assert Lines([e]) == ns + [] == ns;
    assert |ns| == 68;
    forall i | 0 <= i < |ns| ensures ns[i] < 256 {
      if i >= 4 {
        assert ns[i] == NumbersOfText(e.sha256)[i - 4];
      }
    }
    UnaryLength(ns, 256);
  }

  /** The manifest of the example: one line, small and not of the manifest's own name. */
  lemma OneFileManifest()
    ensures ProperTree(TREE) && Sound(Plain())
    ensures CreateBackup(Plain(), TREE, ROOT, [NAME], [], 0, 420).Success?
    ensures var m := CreateBackup(Plain(), TREE, ROOT, [NAME], [], 0, 420).value.manifest;
            |m| == 1 && m[0].path == NAME && |Plain().encode(m)| <= MANIFEST_LIMIT
  {
    hide CreateBackup, CollectFiles, Sound, Encoded, Dedup, Resolvable, Describes, MadeOf;
    OneFileCreated();
    OneFileCollected();
    CreatedManifest(Plain(), TREE, ROOT, [NAME], [], 0, 420);
    OneLine(CreateBackup(Plain(), TREE, ROOT, [NAME], [], 0, 420).value.manifest);
  }

  lemma OneLine(m: seq<ManifestEntry>)
    requires MadeOf(Plain(), ROOT, TREE, [[NAME]], m)
    requires forall e :: e in m ==> Resolvable(TREE, e.path) && Describes(Plain(), TREE, [[NAME]], e)
    ensures |m| == 1 && m[0].path == NAME && |Plain().encode(m)| <= MANIFEST_LIMIT
  {
    hide FitLine, LineFor, FileAt, JoinWith, SplitOn, Encoded, Resolvable;
    var e := m[0];
    assert e in m && SplitOn(e.path, SLASH) == [NAME];
    LineOfFile(e);
    OneLineManifest(e);
    assert m == [e];
  }

  lemma LineOfFile(e: ManifestEntry)
    requires Describes(Plain(), TREE, [[NAME]], e) && SplitOn(e.path, SLASH) == [NAME]
    ensures e == ManifestEntry(NAME, 1, Hash64(), 420)
  {
    hide IsUnsafeTarPath, SplitOn;
    JoinOfSplit(e.path, SLASH);
    OneFileTree();
  }

  /** A backup of one file, restored to an empty disk, puts that file there and nothing else. */
  lemma OneFileRestored()
    ensures ProperTree(TREE) && Sound(Plain())
    ensures CreateBackup(Plain(), TREE, ROOT, [NAME], [], 0, 420).Success?
    ensures var b := CreateBackup(Plain(), TREE, ROOT, [NAME], [], 0, 420).value;
            var (r, d) := RestoreBackup(Plain(), EMPTY_DISK, b.archive, FORCED);
            && r.Success? && r.value.ok && r.value.restored == [NAME]
            && d.files == map[TARGET + [NAME] := DiskFile([LETTER], 420)]
  {
    hide CreateBackup, CollectFiles, RestoreBackup, Sound, Encoded, Dedup, Plain;
    OneFileManifest();
    OneFileCollected();
    OneFileTree();
    BackupThenRestore(Plain(), TREE, ROOT, [NAME], [], 0, 420, EMPTY_DISK, FORCED);
    var b := CreateBackup(Plain(), TREE, ROOT, [NAME], [], 0, 420).value;
    var (r, d) := RestoreBackup(Plain(), EMPTY_DISK, b.archive, FORCED);
    assert [NAME] in [[NAME]];
    assert d.files.Keys == {TARGET + [NAME]};
  }

  // ----- the same file below "/" -----

  lemma CollectedBelowSlash()
    ensures CollectFiles([], TREE, [[DOT]], []) == Success([[NAME]])
  {
    SplitNothing([DOT], SLASH);
    assert [[DOT]][1..] == [];
    assert Normalize([[DOT]], []) == Normalize([[DOT]][1..], []) == [];
    assert IncludePath([], [DOT]) == Some([]);
    assert CollectFiles([], TREE, [], []) == Success([]);
    assert [Child(NAME, FILE)][1..] == [] && [] + [NAME] == [NAME] && [[NAME]] + [] == [[NAME]];
    assert WalkChild(Child(NAME, FILE), [], []) == Success([[NAME]]);
    assert Walk(TREE, [], []) == Append([[NAME]], WalkChildren([], [], [])) == Success([[NAME]]);
  }

  lemma NameIsCutAway()
    ensures DescribeOne(Plain(), [], TREE, [NAME]) == Failure(UnsafeName)
  {
    OneFileTree();
    assert RelativeName([], [NAME]) == [];
    EmptyNameIsUnsafe();
  }

  /** The file "/a", backed up from the root "/", loses its whole name, which is refused. */
  lemma OneFileBelowSlashRefused()
    ensures ProperTree(TREE)
    ensures CreateBackup(Plain(), TREE, [], [[DOT]], [], 0, 420) == Failure(UnsafeName)
  {
    hide CollectFiles, Dedup, Plain, DescribeOne;
    OneFileTree();
    CollectedBelowSlash();
    OneFileCollected();
    NameIsCutAway();
    assert [[NAME]][..0] == [];
    assert Describe(Plain(), [], TREE, [[NAME]][..0]) == Success([]);
  }
}
