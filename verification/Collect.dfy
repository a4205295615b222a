/** Which files a backup takes: the include list, the directory walk with its exclusions, and the removal of repeats. */
module Collect {
  import opened Sequences
  import opened Octal
  import opened TarHeader

  type Path = seq<Bytes>

  /** The file system below the backup root; children are in the order `readdirSync(dir).sort()` gives them. */
  datatype Tree =
    | File(bytes: Bytes, mode: nat)
    | Dir(children: seq<Child>)
    | Symlink(dangling: bool)
    | Special
  datatype Child = Child(name: Bytes, node: Tree)

  datatype CollectError = EscapesRoot | SymlinkFound | NotADirectory

  type Collected = Result<seq<Path>, CollectError>

  /** What a POSIX file system guarantees: entry names are distinct and hold neither '/' nor NUL. */
  predicate ProperTree(t: Tree) {
    t.Dir? ==> ProperChildren(t.children)
  }

  predicate ProperChildren(cs: seq<Child>) {
    cs != [] ==>
      && SLASH !in cs[0].name && NUL !in cs[0].name
      && FindChild(cs[1..], cs[0].name).None?
      && (cs[0].node.Dir? ==> ProperChildren(cs[0].node.children))
      && ProperChildren(cs[1..])
  }

  function FindChild(cs: seq<Child>, name: Bytes): Option<Tree> {
    if cs == [] then None
    else if cs[0].name == name then Some(cs[0].node)
    else FindChild(cs[1..], name)
  }

  function Lookup(t: Tree, p: Path): Option<Tree>
    decreases |p|
  {
    if p == [] then Some(t)
    else if t.Dir? then
      match FindChild(t.children, p[0])
      case None => None
      case Some(child) => Lookup(child, p[1..])
    else None
  }

  // ----- the walk -----

  function Append(out: seq<Path>, r: Collected): Collected {
    match r
    case Failure(e) => Failure(e)
    case Success(more) => Success(out + more)
  }

  /** What one directory entry adds to the list. */
  function WalkChild(c: Child, dir: Path, excluded: seq<Bytes>): Collected
    decreases c, 0
  {
    match c.node
    case Symlink(_) => Failure(SymlinkFound)
    case Dir(children) => if c.name in excluded then Success([]) else WalkChildren(children, dir + [c.name], excluded)
    case File(_, _) => Success([dir + [c.name]])
    case Special => Success([])
  }

  function WalkChildren(cs: seq<Child>, dir: Path, excluded: seq<Bytes>): Collected
    decreases cs
  {
    if cs == [] then Success([])
    else match WalkChild(cs[0], dir, excluded)
      case Failure(e) => Failure(e)
      case Success(first) => Append(first, WalkChildren(cs[1..], dir, excluded))
  }

  function Walk(t: Tree, dir: Path, excluded: seq<Bytes>): Collected {
    match t
    case Symlink(_) => Failure(SymlinkFound)
    case File(_, _) => Success([dir])
    case Dir(children) => WalkChildren(children, dir, excluded)
    case Special => Failure(NotADirectory)
  }

  // ----- the include list -----

  predicate IsSkipped(part: Bytes) { part == [] || part == [DOT] }

  /** So many levels up, at most to "/". */
  function Up(p: Path, levels: nat): Path { p[..if levels <= |p| then |p| - levels else 0] }

  function Entered(base: Path, part: Bytes): Path {
    if IsSkipped(part) then base
    else if part == [DOT, DOT] then Up(base, 1)
    else base + [part]
  }

  /** One path component at a time, as `path.resolve` does. */
  function Normalize(parts: seq<Bytes>, base: Path): Path {
    if parts == [] then base else Normalize(parts[1..], Entered(base, parts[0]))
  }

  function Resolve(root: Path, relative: Bytes): Path {
    Normalize(SplitOn(relative, SLASH), if relative != [] && relative[0] == SLASH then [] else root)
  }

  /** `full === root || full.startsWith(root + sep)`; below "/" itself the second test never holds. */
  predicate Within(root: Path, full: Path) {
    full == root || (root != [] && root <= full)
  }

  /** The path below the root that an include stands for. */
  function IncludePath(root: Path, relative: Bytes): Option<Path> {
    var full := Resolve(root, relative);
    if Within(root, full) then Some(full[|root|..]) else None
  }

  // ----- where an include leads -----

  /** A path read from its end: each `..` takes away the nearest name before it that none after has taken. The names
      that stay, and the `..` that find no name. */
  function Kept(parts: seq<Bytes>, up: nat): (Path, nat) {
    if parts == [] then ([], up)
    else
      var front, last := parts[..|parts| - 1], parts[|parts| - 1];
      if IsSkipped(last) then Kept(front, up)
      else if last == [DOT, DOT] then Kept(front, up + 1)
      else if up > 0 then Kept(front, up - 1)
      else (Kept(front, 0).0 + [last], Kept(front, 0).1)
  }

  lemma {:induction false} NormalizeLast(parts: seq<Bytes>, base: Path)
    requires parts != []
    ensures Normalize(parts, base) == Entered(Normalize(parts[..|parts| - 1], base), parts[|parts| - 1])
  {
    hide Entered;
    if |parts| > 1 {
      var front, rest := parts[..|parts| - 1], parts[1..];
      assert front[0] == parts[0] && rest[..|rest| - 1] == front[1..];
      NormalizeLast(rest, Entered(base, parts[0]));
    } else {
      assert parts[1..] == [] && parts[..0] == [];
    }
  }

  lemma {:induction false} ReadFromTheEnd(parts: seq<Bytes>, base: Path, up: nat)
    ensures Up(Normalize(parts, base), up) == Up(base, Kept(parts, up).1) + Kept(parts, up).0
  {
    if parts != [] {
      hide Normalize;
      var front, last := parts[..|parts| - 1], parts[|parts| - 1];
      NormalizeLast(parts, base);
      if IsSkipped(last) {
        ReadFromTheEnd(front, base, up);
      } else if last == [DOT, DOT] {
        ReadFromTheEnd(front, base, up + 1);
      } else if up > 0 {
        ReadFromTheEnd(front, base, up - 1);
      } else {
        ReadFromTheEnd(front, base, 0);
        assert Up(base, Kept(front, 0).1) + Kept(front, 0).0 + [last] == Up(base, Kept(parts, 0).1) + Kept(parts, 0).0;
      }
    }
  }

  /** An include stands for the names it keeps, below what its spare `..` leave of the root, or below "/" if it starts
      there; and it is refused exactly when that does not lie within the root. */
  lemma IncludeLeads(root: Path, relative: Bytes)
    ensures var (kept, up) := Kept(SplitOn(relative, SLASH), 0);
            var full := (if relative != [] && relative[0] == SLASH then [] else Up(root, up)) + kept;
            && Resolve(root, relative) == full
            && (IncludePath(root, relative).Some? <==> if root == [] then full == [] else root <= full)
            && (IncludePath(root, relative).Some? ==> root + IncludePath(root, relative).value == full)
  {
    hide Normalize, Kept, SplitOn;
    var parts := SplitOn(relative, SLASH);
    var base := if relative != [] && relative[0] == SLASH then [] else root;
    ReadFromTheEnd(parts, base, 0);
  }

  /** A path is what its parts say, one below the other, exactly when none of them is empty, `.` or `..`. */
  lemma {:induction false} PlainIff(parts: seq<Bytes>, base: Path)
    ensures |Normalize(parts, base)| <= |base| + |parts|
    ensures Normalize(parts, base) == base + parts <==>
              forall i :: 0 <= i < |parts| ==> !IsSkipped(parts[i]) && parts[i] != [DOT, DOT]
  {
    if parts != [] {
      var part, rest := parts[0], parts[1..];
      var next := Entered(base, part);
      PlainIff(rest, next);
      assert Normalize(parts, base) == Normalize(rest, next);
      assert forall i :: 0 < i < |parts| ==> parts[i] == rest[i - 1];
      if !IsSkipped(part) && part != [DOT, DOT] {
        assert next + rest == base + parts;
      }
    }
  }

  predicate Exists(t: Tree, p: Path) {
    Lookup(t, p).Some? && Lookup(t, p) != Some(Symlink(true))
  }

  function CollectFiles(root: Path, tree: Tree, includes: seq<Bytes>, excluded: seq<Bytes>): Collected {
    if includes == [] then Success([])
    else
      match IncludePath(root, includes[0])
      case None => Failure(EscapesRoot)
      case Some(p) =>
        var rest := CollectFiles(root, tree, includes[1..], excluded);
        if !Exists(tree, p) then rest
        else
          match Walk(Lookup(tree, p).value, p, excluded)
          case Failure(e) => Failure(e)
          case Success(first) => Append(first, rest)
  }

  /** `[...new Set(files)]`: the first occurrence of each. */
  function Dedup(ps: seq<Path>): seq<Path> {
    if ps == [] then []
    else
      var front := Dedup(ps[..|ps| - 1]);
      if ps[|ps| - 1] in front then front else front + [ps[|ps| - 1]]
  }

  // ----- what the walk finds -----

  predicate IsFile(t: Tree) { t.File? }

  predicate IsSymlink(t: Tree) { t.Symlink? }

  /** `r` leads from a directory with these entries to a wanted node, past no excluded directory. */
  predicate Found(cs: seq<Child>, excluded: seq<Bytes>, r: Path, want: Tree -> bool)
    decreases |r|
  {
    r != [] &&
    var c := FindChild(cs, r[0]);
    c.Some? &&
    if |r| == 1 then want(c.value)
    else r[0] !in excluded && c.value.Dir? && Found(c.value.children, excluded, r[1..], want)
  }

  lemma {:induction false} FoundIsLookup(cs: seq<Child>, excluded: seq<Bytes>, r: Path, want: Tree -> bool)
    requires r != []
    ensures Found(cs, excluded, r, want) <==>
              && Lookup(Dir(cs), r).Some? && want(Lookup(Dir(cs), r).value)
              && forall k :: 0 <= k < |r| - 1 ==> r[k] !in excluded
    decreases |r|
  {
    var c := FindChild(cs, r[0]);
    if |r| == 1 {
      assert c.Some? ==> Lookup(c.value, r[1..]) == c;
    } else {
      var tail := r[1..];
      assert (forall k :: 0 <= k < |r| - 1 ==> r[k] !in excluded) <==>
             r[0] !in excluded && (forall k :: 0 <= k < |tail| - 1 ==> tail[k] !in excluded) by {
        assert forall k :: 0 <= k < |tail| ==> tail[k] == r[k + 1];
        assert forall k :: 0 < k < |r| ==> r[k] == tail[k - 1];
      }
      if c.Some? && c.value.Dir? {
        FoundIsLookup(c.value.children, excluded, tail, want);
      }
    }
  }

  lemma WalkSplits(cs: seq<Child>, dir: Path, excluded: seq<Bytes>)
    requires cs != []
    ensures var first, rest := WalkChild(cs[0], dir, excluded), WalkChildren(cs[1..], dir, excluded);
            WalkChildren(cs, dir, excluded) == if first.Failure? then first else Append(first.value, rest)
    ensures cs[0].node.Dir? && cs[0].name !in excluded ==>
              WalkChild(cs[0], dir, excluded) == WalkChildren(cs[0].node.children, dir + [cs[0].name], excluded)
  {
  }

  lemma {:induction false} WalkedBelow(cs: seq<Child>, dir: Path, excluded: seq<Bytes>, p: Path)
    requires WalkChildren(cs, dir, excluded).Success? && p in WalkChildren(cs, dir, excluded).value
    ensures |p| > |dir| && dir <= p && FindChild(cs, p[|dir|]).Some?
    decreases cs
  {
    var first := WalkChild(cs[0], dir, excluded).value;
    if p in first {
      if cs[0].node.Dir? {
        WalkedBelow(cs[0].node.children, dir + [cs[0].name], excluded, p);
      }
    } else {
      WalkedBelow(cs[1..], dir, excluded, p);
    }
  }

  /** The walk lists a path below `dir` exactly when a file is found there. */
  lemma {:induction false} WalkFinds(cs: seq<Child>, dir: Path, excluded: seq<Bytes>, r: Path)
    requires ProperChildren(cs) && WalkChildren(cs, dir, excluded).Success?
    ensures dir + r in WalkChildren(cs, dir, excluded).value <==> Found(cs, excluded, r, IsFile)
    decreases cs
  {
    var p := dir + r;
    var all := WalkChildren(cs, dir, excluded).value;
    if r == [] {
      if p in all {
        WalkedBelow(cs, dir, excluded, p);
      }
    } else if cs != [] {
      var c := cs[0];
      var first, rest := WalkChild(c, dir, excluded).value, WalkChildren(cs[1..], dir, excluded).value;
      WalkSplits(cs, dir, excluded);
      WalkFinds(cs[1..], dir, excluded, r);
      assert p in all <==> p in first || p in rest;
      if p in first {
        FirstBelow(c, dir, excluded, p);
      }
      if p in rest {
        WalkedBelow(cs[1..], dir, excluded, p);
      }
      if r[0] == c.name {
        assert r == [c.name] + r[1..];
        assert dir + [c.name] + r[1..] == p;
        assert FindChild(cs, r[0]) == Some(c.node) && p !in rest;
        if c.node.Dir? && c.name !in excluded {
          WalkFinds(c.node.children, dir + [c.name], excluded, r[1..]);
          assert p in first <==> Found(c.node.children, excluded, r[1..], IsFile);
          assert Found(cs, excluded, r, IsFile) <==> p in first;
        } else if |r| == 1 {
          assert r == [c.name];
        } else {
          assert |p| != |dir + [c.name]|;
        }
      } else {
        assert Found(cs, excluded, r, IsFile) <==> Found(cs[1..], excluded, r, IsFile);
      }
    }
  }

  lemma FirstBelow(c: Child, dir: Path, excluded: seq<Bytes>, p: Path)
    requires WalkChild(c, dir, excluded).Success? && p in WalkChild(c, dir, excluded).value
    ensures |p| > |dir| && p[|dir|] == c.name
  {
    if c.node.Dir? {
      WalkedBelow(c.node.children, dir + [c.name], excluded, p);
    }
  }

  lemma {:induction false} SymlinkStopsWalk(cs: seq<Child>, dir: Path, excluded: seq<Bytes>, r: Path)
    requires Found(cs, excluded, r, IsSymlink)
    ensures WalkChildren(cs, dir, excluded).Failure?
    decreases cs
  {
    WalkSplits(cs, dir, excluded);
    var c := cs[0];
    if r[0] != c.name {
      SymlinkStopsWalk(cs[1..], dir, excluded, r);
    } else if |r| > 1 {
      SymlinkStopsWalk(c.node.children, dir + [c.name], excluded, r[1..]);
    }
  }

  lemma {:induction false} StoppedAtSymlink(cs: seq<Child>, dir: Path, excluded: seq<Bytes>) returns (r: Path)
    requires ProperChildren(cs) && WalkChildren(cs, dir, excluded).Failure?
    ensures WalkChildren(cs, dir, excluded).error == SymlinkFound
    ensures Found(cs, excluded, r, IsSymlink)
    decreases cs
  {
    WalkSplits(cs, dir, excluded);
    var c := cs[0];
    if WalkChild(c, dir, excluded).Success? {
      r := StoppedAtSymlink(cs[1..], dir, excluded);
    } else if c.node.Symlink? {
      r := [c.name];
    } else {
      var tail := StoppedAtSymlink(c.node.children, dir + [c.name], excluded);
      r := [c.name] + tail;
      assert r[1..] == tail;
    }
  }

  ghost predicate HasSymlink(cs: seq<Child>, excluded: seq<Bytes>) {
    exists r :: Found(cs, excluded, r, IsSymlink)
  }

  /** The walk fails exactly when it meets a symbolic link. */
  lemma {:induction false} WalkFails(cs: seq<Child>, dir: Path, excluded: seq<Bytes>)
    requires ProperChildren(cs)
    ensures WalkChildren(cs, dir, excluded).Failure? <==> HasSymlink(cs, excluded)
  {
    if WalkChildren(cs, dir, excluded).Failure? {
      var r := StoppedAtSymlink(cs, dir, excluded);
      assert HasSymlink(cs, excluded);
    }
    forall r | Found(cs, excluded, r, IsSymlink) ensures WalkChildren(cs, dir, excluded).Failure? {
      SymlinkStopsWalk(cs, dir, excluded, r);
    }
  }

  // ----- what collecting finds, said without the walk -----

  /** A file at or below `q`, in no excluded directory strictly below `q`. */
  predicate TakenBy(t: Tree, q: Path, excluded: seq<Bytes>, p: Path) {
    && q <= p
    && Lookup(t, p).Some? && Lookup(t, p).value.File?
    && forall k :: |q| <= k < |p| - 1 ==> p[k] !in excluded
  }

  /** Something at or below `q` that the walk refuses. */
  ghost predicate Refused(t: Tree, q: Path, excluded: seq<Bytes>) {
    && Lookup(t, q).Some?
    && match Lookup(t, q).value
       case File(_, _) => false
       case Symlink(dangling) => !dangling
       case Special => true
       case Dir(cs) => HasSymlink(cs, excluded)
  }

  lemma {:induction false} LookupConcat(t: Tree, q: Path, r: Path)
    ensures Lookup(t, q + r) == if Lookup(t, q).None? then None else Lookup(Lookup(t, q).value, r)
    decreases |q|
  {
    if q == [] {
      assert q + r == r;
    } else {
      assert (q + r)[1..] == q[1..] + r;
      if t.Dir? && FindChild(t.children, q[0]).Some? {
        LookupConcat(FindChild(t.children, q[0]).value, q[1..], r);
      }
    }
  }

  lemma {:induction false} ProperBelow(t: Tree, q: Path)
    requires ProperTree(t) && Lookup(t, q).Some?
    ensures ProperTree(Lookup(t, q).value)
    decreases |q|
  {
    if q != [] {
      ProperChild(t.children, q[0]);
      ProperBelow(FindChild(t.children, q[0]).value, q[1..]);
    }
  }

  lemma {:induction false} ProperChild(cs: seq<Child>, name: Bytes)
    requires ProperChildren(cs) && FindChild(cs, name).Some?
    ensures ProperTree(FindChild(cs, name).value) && SLASH !in name && NUL !in name
  {
    if cs[0].name != name {
      ProperChild(cs[1..], name);
    }
  }

  lemma {:induction false} ProperPath(t: Tree, p: Path)
    requires ProperTree(t) && Lookup(t, p).Some?
    ensures forall c :: c in p ==> SLASH !in c && NUL !in c
    decreases |p|
  {
    if p != [] {
      ProperChild(t.children, p[0]);
      ProperPath(FindChild(t.children, p[0]).value, p[1..]);
      assert p == [p[0]] + p[1..];
    }
  }

  /** One include: the walk lists exactly the files taken by it. */
  lemma WalkTakes(t: Tree, q: Path, excluded: seq<Bytes>, p: Path)
    requires ProperTree(t) && Lookup(t, q).Some? && Walk(Lookup(t, q).value, q, excluded).Success?
    ensures p in Walk(Lookup(t, q).value, q, excluded).value <==> TakenBy(t, q, excluded, p)
  {
    var node := Lookup(t, q).value;
    var found := Walk(node, q, excluded).value;
    ProperBelow(t, q);
    if node.Dir? && p in found {
      WalkedBelow(node.children, q, excluded, p);
    }
    if q <= p {
      var r := p[|q|..];
      assert p == q + r;
      LookupConcat(t, q, r);
      if node.Dir? {
        WalkFinds(node.children, q, excluded, r);
        if r != [] {
          FoundIsLookup(node.children, excluded, r, IsFile);
          assert (forall k :: |q| <= k < |p| - 1 ==> p[k] !in excluded) <==>
                 (forall k :: 0 <= k < |r| - 1 ==> r[k] !in excluded) by {
            assert forall k :: |q| <= k < |p| ==> p[k] == r[k - |q|];
            assert forall k :: 0 <= k < |r| ==> r[k] == p[k + |q|];
          }
        }
      } else if node.File? {
        assert r == [] <==> p == q;
      }
    }
  }

  lemma NothingTaken(t: Tree, q: Path, excluded: seq<Bytes>, p: Path)
    requires !Exists(t, q)
    ensures !TakenBy(t, q, excluded, p)
  {
    if q <= p {
      LookupConcat(t, q, p[|q|..]);
      assert p == q + p[|q|..];
    }
  }

  /** Exactly the files some include takes are collected. */
  lemma {:induction false} CollectsTaken(root: Path, t: Tree, includes: seq<Bytes>, excluded: seq<Bytes>, p: Path)
    requires ProperTree(t) && CollectFiles(root, t, includes, excluded).Success?
    ensures p in CollectFiles(root, t, includes, excluded).value <==>
              exists i :: 0 <= i < |includes| && IncludePath(root, includes[i]).Some?
                          && TakenBy(t, IncludePath(root, includes[i]).value, excluded, p)
  {
    hide IncludePath, Walk, TakenBy;
    if includes != [] {
      CollectsTaken(root, t, includes[1..], excluded, p);
      var q := IncludePath(root, includes[0]).value;
      if Exists(t, q) {
        WalkTakes(t, q, excluded, p);
      } else {
        NothingTaken(t, q, excluded, p);
      }
      assert forall i :: 0 < i < |includes| ==> includes[i] == includes[1..][i - 1];
      assert forall i :: 0 <= i < |includes[1..]| ==> includes[1..][i] == includes[i + 1];
    }
  }

  /** Collecting fails exactly when an include escapes the root or leads to something refused. */
  lemma {:induction false} CollectFails(root: Path, t: Tree, includes: seq<Bytes>, excluded: seq<Bytes>)
    requires ProperTree(t)
    ensures CollectFiles(root, t, includes, excluded).Failure? <==>
              exists i :: 0 <= i < |includes| &&
                          (IncludePath(root, includes[i]).None?
                           || Refused(t, IncludePath(root, includes[i]).value, excluded))
  {
    hide IncludePath, WalkChildren, HasSymlink;
    if includes != [] {
      CollectFails(root, t, includes[1..], excluded);
      if IncludePath(root, includes[0]).Some? {
        var q := IncludePath(root, includes[0]).value;
        if Lookup(t, q).Some? {
          ProperBelow(t, q);
          var node := Lookup(t, q).value;
          if node.Dir? {
            WalkFails(node.children, q, excluded);
          }
          assert Exists(t, q) && Walk(node, q, excluded).Failure? <==> Refused(t, q, excluded);
        }
      }
      assert forall i :: 0 < i < |includes| ==> includes[i] == includes[1..][i - 1];
      assert forall i :: 0 <= i < |includes[1..]| ==> includes[1..][i] == includes[i + 1];
    }
  }

  lemma {:induction false} DedupOnce(ps: seq<Path>)
    ensures forall p :: p in Dedup(ps) <==> p in ps
    ensures forall i, j :: 0 <= i < j < |Dedup(ps)| ==> Dedup(ps)[i] != Dedup(ps)[j]
  {
    if ps != [] {
      DedupOnce(ps[..|ps| - 1]);
      assert ps == ps[..|ps| - 1] + [ps[|ps| - 1]];
    }
  }

  /** With repeats removed, every taken file is listed exactly once, however the includes overlap. */
  lemma {:induction false} CollectedExactlyOnce(root: Path, t: Tree, includes: seq<Bytes>, excluded: seq<Bytes>)
    requires ProperTree(t) && CollectFiles(root, t, includes, excluded).Success?
    ensures var files := Dedup(CollectFiles(root, t, includes, excluded).value);
            && (forall i, j :: 0 <= i < j < |files| ==> files[i] != files[j])
            && (forall p :: p in files <==>
                  exists i :: 0 <= i < |includes| && IncludePath(root, includes[i]).Some?
                              && TakenBy(t, IncludePath(root, includes[i]).value, excluded, p))
  {
    hide CollectFiles, IncludePath, TakenBy;
    DedupOnce(CollectFiles(root, t, includes, excluded).value);
    forall p
      ensures p in CollectFiles(root, t, includes, excluded).value <==>
                exists i :: 0 <= i < |includes| && IncludePath(root, includes[i]).Some?
                            && TakenBy(t, IncludePath(root, includes[i]).value, excluded, p)
    {
      CollectsTaken(root, t, includes, excluded, p);
    }
  }

  /** No file's path leads through another file. */
  lemma {:induction false} FilesDoNotNest(t: Tree, p: Path, p': Path)
    requires Lookup(t, p).Some? && Lookup(t, p).value.File?
    requires Lookup(t, p').Some? && p <= p'
    ensures p == p'
  {
    LookupConcat(t, p, p'[|p|..]);
    assert p' == p + p'[|p|..];
  }

  // ----- the loops -----

  lemma AppendTwice(a: seq<Path>, b: seq<Path>, r: Collected)
    ensures Append(a, Append(b, r)) == Append(a + b, r)
    ensures Append(a, Success([])) == Success(a) && Append([], r) == r
  {
    assert a + [] == a;
    if r.Success? {
      assert a + (b + r.value) == a + b + r.value;
      assert [] + r.value == r.value;
    }
  }

  lemma AppendWalk(out: seq<Path>, cs: seq<Child>, dir: Path, excluded: seq<Bytes>)
    requires cs != []
    ensures var step := Append(out, WalkChild(cs[0], dir, excluded));
            Append(out, WalkChildren(cs, dir, excluded))
            == if step.Failure? then step else Append(step.value, WalkChildren(cs[1..], dir, excluded))
  {
    hide WalkChildren, WalkChild;
    WalkSplits(cs, dir, excluded);
    if WalkChild(cs[0], dir, excluded).Success? {
      AppendTwice(out, WalkChild(cs[0], dir, excluded).value, WalkChildren(cs[1..], dir, excluded));
    }
  }

  method WalkEntry(c: Child, dir: Path, excluded: seq<Bytes>, soFar: seq<Path>) returns (r: Collected)
    ensures r == Append(soFar, WalkChild(c, dir, excluded))
    decreases c, 0
  {
    AppendTwice(soFar, [], Success([]));
    match c.node {
      case Symlink(_) =>
        r := Failure(SymlinkFound);
      case Dir(children) =>
        if c.name in excluded {
          r := Success(soFar);
        } else {
          r := WalkDirectory(children, dir + [c.name], excluded, soFar);
        }
      case File(_, _) =>
        r := Success(soFar + [dir + [c.name]]);
      case Special =>
        r := Success(soFar);
    }
  }

  method WalkDirectory(cs: seq<Child>, dir: Path, excluded: seq<Bytes>, soFar: seq<Path>) returns (r: Collected)
    ensures r == Append(soFar, WalkChildren(cs, dir, excluded))
    decreases cs
  {
    hide Append, WalkChild;
    var out := soFar;
    assert cs[0..] == cs;
    for i := 0 to |cs|
      invariant Append(soFar, WalkChildren(cs, dir, excluded)) == Append(out, WalkChildren(cs[i..], dir, excluded))
    {
      assert cs[i..][0] == cs[i] && cs[i..][1..] == cs[i + 1..];
      AppendWalk(out, cs[i..], dir, excluded);
      var step := WalkEntry(cs[i], dir, excluded, out);
      if step.Failure? {
        return step;
      }
      out := step.value;
    }
    assert cs[|cs|..] == [];
    AppendTwice(out, [], Success([]));
    r := Success(out);
  }

  lemma AppendCollect(out: seq<Path>, root: Path, t: Tree, includes: seq<Bytes>, excluded: seq<Bytes>)
    requires includes != []
    ensures var p := IncludePath(root, includes[0]);
            var rest := CollectFiles(root, t, includes[1..], excluded);
            Append(out, CollectFiles(root, t, includes, excluded))
            == if p.None? then Failure(EscapesRoot)
               else if !Exists(t, p.value) then Append(out, rest)
               else
                 var step := Append(out, Walk(Lookup(t, p.value).value, p.value, excluded));
                 if step.Failure? then step else Append(step.value, rest)
  {
    hide IncludePath, Walk;
    var p := IncludePath(root, includes[0]);
    if p.Some? && Exists(t, p.value) {
      var first := Walk(Lookup(t, p.value).value, p.value, excluded);
      if first.Success? {
        AppendTwice(out, first.value, CollectFiles(root, t, includes[1..], excluded));
      }
    }
  }

  method WalkInclude(t: Tree, q: Path, excluded: seq<Bytes>, soFar: seq<Path>) returns (r: Collected)
    ensures r == Append(soFar, Walk(t, q, excluded))
  {
    match t {
      case Symlink(_) =>
        r := Failure(SymlinkFound);
      case File(_, _) =>
        r := Success(soFar + [q]);
      case Dir(children) =>
        r := WalkDirectory(children, q, excluded, soFar);
      case Special =>
        r := Failure(NotADirectory);
    }
  }

  method CollectInto(root: Path, t: Tree, includes: seq<Bytes>, excluded: seq<Bytes>) returns (r: Collected)
    ensures r == CollectFiles(root, t, includes, excluded)
  {
    hide Append, IncludePath, Walk;
    var files: seq<Path> := [];
    assert includes[0..] == includes;
    AppendTwice([], [], CollectFiles(root, t, includes, excluded));
    for i := 0 to |includes|
      invariant CollectFiles(root, t, includes, excluded)
                == Append(files, CollectFiles(root, t, includes[i..], excluded))
    {
      assert includes[i..][0] == includes[i] && includes[i..][1..] == includes[i + 1..];
      AppendCollect(files, root, t, includes[i..], excluded);
      var p := IncludePath(root, includes[i]);
      if p.None? {
        return Failure(EscapesRoot);
      }
      if Exists(t, p.value) {
        var step := WalkInclude(Lookup(t, p.value).value, p.value, excluded, files);
        if step.Failure? {
          return step;
        }
        files := step.value;
      }
    }
    assert includes[|includes|..] == [];
    AppendTwice(files, [], Success([]));
    r := Success(files);
  }
}
