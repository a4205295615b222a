/** Writing and reading a whole archive: padded bodies, the end marker, and a reader fed by arbitrary chunks. */
module TarArchive {
  import opened Sequences
  import opened Octal
  import opened TarHeader

  const PIECE: nat := 64 * 1024

  /** What the writer is given: the size and mode it measured, and the bytes it then copies. */
  datatype Source = Source(name: Bytes, size: nat, mtime: nat, mode: nat, isDir: bool, body: Bytes)

  /** What the reader finds; file entries are handed to the callback, directories only checked. */
  datatype Entry = Entry(name: Bytes, size: nat, mode: Option<int>, isDir: bool, body: Bytes)

  /** The entries read before the reader stopped, and why it stopped; `None` is a proper end. */
  datatype Reading = Reading(entries: seq<Entry>, error: Option<TarError>)

  function PadLength(size: nat): (n: nat)
    ensures n < BLOCK && (size + n) % BLOCK == 0
  {
    assert size % BLOCK > 0 ==> size + (BLOCK - size % BLOCK) == BLOCK * (size / BLOCK + 1);
    (BLOCK - size % BLOCK) % BLOCK
  }

  /** The bytes an entry occupies: header, body and padding. */
  function Span(size: nat): (n: nat)
    ensures n >= BLOCK + size && n % BLOCK == 0
  {
    BLOCK + size + PadLength(size)
  }

  // ----- the writer -----

  function HeaderOf(e: Source): HeaderInput {
    HeaderInput(e.name, e.size, e.mtime, e.mode % 512, if e.isDir then TYPE_DIR else TYPE_FILE)
  }

  /** A directory has no content, whatever size was measured for it. */
  function Content(e: Source): Bytes {
    if e.isDir then [] else e.body
  }

  function Payload(e: Source): Bytes {
    if e.isDir then [] else e.body + Zeros(PadLength(e.size))
  }

  function Prepend(out: Bytes, r: Result<Bytes, TarError>): Result<Bytes, TarError> {
    match r
    case Failure(e) => Failure(e)
    case Success(rest) => Success(out + rest)
  }

  function WriteArchive(es: seq<Source>): Result<Bytes, TarError> {
    if es == [] then Success(Zeros(2 * BLOCK))
    else match BuildHeader(HeaderOf(es[0]))
      case Failure(e) => Failure(e)
      case Success(header) => Prepend(header + Payload(es[0]), WriteArchive(es[1..]))
  }

  lemma PrependCases(out: Bytes, rest: Bytes, e: TarError)
    ensures Prepend(out, Success(rest)) == Success(out + rest)
    ensures Prepend(out, Failure(e)) == Failure(e)
  {
  }

  lemma PrependTwice(a: Bytes, b: Bytes, r: Result<Bytes, TarError>)
    ensures Prepend(a, Prepend(b, r)) == Prepend(a + b, r)
    ensures Prepend([], r) == r
  {
    if r.Success? {
      assert a + (b + r.value) == a + b + r.value;
      assert [] + r.value == r.value;
    }
  }

  // ----- the reader -----

  function EntryName(info: HeaderInfo): Bytes {
    if info.typ == TYPE_DIR && info.name != [] && info.name[|info.name| - 1] == SLASH
    then info.name[..|info.name| - 1] else info.name
  }

  /** The checks a header must pass, in the reader's order; the entry has no body yet. */
  function Admit(header: Bytes): (r: Result<Entry, TarError>)
    requires |header| == BLOCK
    ensures r.Success? ==> !IsUnsafeTarPath(r.value.name) && r.value.size <= MAX_FILE_SIZE && r.value.body == []
  {
    var info := ParseHeader(header);
    var name := EntryName(info);
    if !info.checksumValid then Failure(BadChecksum)
    else if IsUnsafeTarPath(name) then Failure(UnsafePath)
    else if info.size.None? || info.size.value < 0 || info.size.value > MAX_FILE_SIZE then Failure(BadSize)
    else if info.typ == TYPE_SYMLINK || info.typ == TYPE_HARD_LINK then Failure(LinkEntry)
    else if info.typ != TYPE_FILE && info.typ != TYPE_DIR then Failure(UnsupportedType)
    else Success(Entry(name, info.size.value, info.mode, info.typ == TYPE_DIR, []))
  }

  /** What may follow a first zero block: another, and then nothing but zeros. */
  function ReadEnd(rest: Bytes): Option<TarError> {
    if |rest| < BLOCK then Some(Truncated)
    else if !AllZero(rest[..BLOCK]) then Some(BadEndMarker)
    else if !AllZero(rest[BLOCK..]) then Some(TrailingData)
    else None
  }

  /** What reading the byte stream `s` yields, whatever its chunks. */
  function ReadArchive(s: Bytes): Reading
    decreases |s|
  {
    if |s| < BLOCK then Reading([], Some(Truncated))
    else if AllZero(s[..BLOCK]) then Reading([], ReadEnd(s[BLOCK..]))
    else match Admit(s[..BLOCK])
      case Failure(e) => Reading([], Some(e))
      case Success(head) =>
        if |s| < BLOCK + head.size then Reading([], Some(Truncated))
        else
          var entry := head.(body := s[BLOCK..BLOCK + head.size]);
          if |s| < Span(head.size) then Reading([entry], Some(Truncated))
          else
            var rest := ReadArchive(s[Span(head.size)..]);
            Reading([entry] + rest.entries, rest.error)
  }

  lemma ReadShort(s: Bytes)
    requires |s| < BLOCK
    ensures ReadArchive(s) == Reading([], Some(Truncated))
  {
  }

  /** One step of the reader, in terms of what follows the header. */
  lemma ReadUnfolds(s: Bytes)
    requires |s| >= BLOCK
    ensures AllZero(s[..BLOCK]) ==> ReadArchive(s) == Reading([], ReadEnd(s[BLOCK..]))
    ensures !AllZero(s[..BLOCK]) && Admit(s[..BLOCK]).Failure? ==>
              ReadArchive(s) == Reading([], Some(Admit(s[..BLOCK]).error))
    ensures !AllZero(s[..BLOCK]) && Admit(s[..BLOCK]).Success? ==>
              var head, rest := Admit(s[..BLOCK]).value, s[BLOCK..];
              if |rest| < head.size then ReadArchive(s) == Reading([], Some(Truncated))
              else
                var entry := head.(body := rest[..head.size]);
                if |rest| < head.size + PadLength(head.size) then ReadArchive(s) == Reading([entry], Some(Truncated))
                else
                  var tail := ReadArchive(rest[head.size + PadLength(head.size)..]);
                  ReadArchive(s) == Reading([entry] + tail.entries, tail.error)
  {
    hide Admit, PadLength, AllZero, ReadEnd;
    if !AllZero(s[..BLOCK]) && Admit(s[..BLOCK]).Success? {
      var size := Admit(s[..BLOCK]).value.size;
      var rest := s[BLOCK..];
      if |rest| >= size {
        assert rest[..size] == s[BLOCK..BLOCK + size];
      }
      if |rest| >= size + PadLength(size) {
        assert rest[size + PadLength(size)..] == s[Span(size)..];
      }
    }
  }

  // ----- the archive grammar, independent of any reading order -----

  datatype Member = Member(header: Bytes, body: Bytes, pad: Bytes)

  predicate WellFormed(m: Member) {
    && |m.header| == BLOCK
    && !AllZero(m.header)
    && Admit(m.header).Success?
    && |m.body| == Admit(m.header).value.size
    && |m.pad| == PadLength(|m.body|)
  }

  function EntryOf(m: Member): Entry
    requires WellFormed(m)
  {
    Admit(m.header).value.(body := m.body)
  }

  function MemberBytes(ms: seq<Member>): Bytes {
    if ms == [] then [] else ms[0].header + ms[0].body + ms[0].pad + MemberBytes(ms[1..])
  }

  function EntriesOf(ms: seq<Member>): (es: seq<Entry>)
    requires forall m :: m in ms ==> WellFormed(m)
    ensures |es| == |ms|
  {
    if ms == [] then [] else [EntryOf(ms[0])] + EntriesOf(ms[1..])
  }

  lemma ReadStep(m: Member, rest: Bytes)
    requires WellFormed(m)
    ensures var tail := ReadArchive(rest);
            ReadArchive(m.header + m.body + m.pad + rest) == Reading([EntryOf(m)] + tail.entries, tail.error)
  {
    hide Admit, PadLength, ReadArchive;
    var s := m.header + m.body + m.pad + rest;
    assert s[..BLOCK] == m.header && s[BLOCK..] == m.body + m.pad + rest;
    assert s[BLOCK..][..|m.body|] == m.body && s[BLOCK..][|m.body| + |m.pad|..] == rest;
    ReadUnfolds(s);
  }

  lemma {:induction false} ReadMembers(ms: seq<Member>, zeros: nat)
    requires forall m :: m in ms ==> WellFormed(m)
    requires zeros >= 2 * BLOCK
    ensures ReadArchive(MemberBytes(ms) + Zeros(zeros)) == Reading(EntriesOf(ms), None)
  {
    if ms == [] {
      assert MemberBytes(ms) + Zeros(zeros) == Zeros(zeros);
    } else {
      var rest := MemberBytes(ms[1..]) + Zeros(zeros);
      assert MemberBytes(ms) + Zeros(zeros) == ms[0].header + ms[0].body + ms[0].pad + rest;
      ReadStep(ms[0], rest);
      ReadMembers(ms[1..], zeros);
    }
  }

  lemma EndIsZeros(s: Bytes)
    requires ReadArchive(s).error.None? && AllZero(s[..BLOCK])
    ensures |s| >= 2 * BLOCK && s == MemberBytes([]) + Zeros(|s|)
    ensures ReadArchive(s).entries == EntriesOf([])
  {
    hide ReadArchive;
    if |s| < BLOCK {
      ReadShort(s);
    }
    ReadUnfolds(s);
    forall i | 0 <= i < |s| ensures s[i] == NUL {
      if i < BLOCK {
        assert s[i] == s[..BLOCK][i];
      } else if i < 2 * BLOCK {
        assert s[i] == s[BLOCK..][..BLOCK][i - BLOCK];
      } else {
        assert s[i] == s[BLOCK..][BLOCK..][i - 2 * BLOCK];
      }
    }
    assert MemberBytes([]) + Zeros(|s|) == Zeros(|s|);
  }

  /** An accepted archive that is not at its end starts with a member. */
  lemma FirstMember(s: Bytes) returns (m: Member, tail: Bytes)
    requires ReadArchive(s).error.None? && !AllZero(s[..BLOCK])
    ensures WellFormed(m) && |tail| < |s| && s == m.header + m.body + m.pad + tail
    ensures ReadArchive(tail).error.None?
    ensures ReadArchive(s).entries == [EntryOf(m)] + ReadArchive(tail).entries
  {
    hide Admit, PadLength, ReadArchive, AllZero;
    if |s| < BLOCK {
      ReadShort(s);
    }
    ReadUnfolds(s);
    var rest := s[BLOCK..];
    var size := Admit(s[..BLOCK]).value.size;
    m := Member(s[..BLOCK], rest[..size], rest[size..size + PadLength(size)]);
    tail := rest[size + PadLength(size)..];
    assert rest == m.body + m.pad + tail;
  }

  lemma MembersCons(m: Member, ms: seq<Member>)
    requires WellFormed(m) && forall m' :: m' in ms ==> WellFormed(m')
    ensures MemberBytes([m] + ms) == m.header + m.body + m.pad + MemberBytes(ms)
    ensures EntriesOf([m] + ms) == [EntryOf(m)] + EntriesOf(ms)
  {
    assert ([m] + ms)[1..] == ms;
  }

  lemma {:induction false} SplitIntoMembers(s: Bytes) returns (ms: seq<Member>, zeros: nat)
    requires ReadArchive(s).error.None?
    ensures zeros >= 2 * BLOCK && (forall m :: m in ms ==> WellFormed(m))
    ensures s == MemberBytes(ms) + Zeros(zeros)
    ensures ReadArchive(s).entries == EntriesOf(ms)
    decreases |s|
  {
    hide *;
    if |s| < BLOCK {
      ReadShort(s);
    } else if AllZero(s[..BLOCK]) {
      EndIsZeros(s);
      ms, zeros := [], |s|;
    } else {
      var m, tail := FirstMember(s);
      var rest, z := SplitIntoMembers(tail);
      ms, zeros := [m] + rest, z;
      MembersCons(m, rest);
      assert s == m.header + m.body + m.pad + MemberBytes(rest) + Zeros(z);
    }
  }

  ghost predicate IsArchive(s: Bytes, ms: seq<Member>, zeros: nat) {
    && zeros >= 2 * BLOCK
    && (forall m :: m in ms ==> WellFormed(m))
    && s == MemberBytes(ms) + Zeros(zeros)
  }

  /** The reader accepts exactly the well-formed archives, and delivers exactly their entries. */
  lemma {:induction false} ReaderSoundAndComplete(s: Bytes)
    ensures ReadArchive(s).error.None? <==> exists ms, zeros :: IsArchive(s, ms, zeros)
    ensures forall ms, zeros :: IsArchive(s, ms, zeros) ==> ReadArchive(s).entries == EntriesOf(ms)
  {
    if ReadArchive(s).error.None? {
      var ms, zeros := SplitIntoMembers(s);
      assert IsArchive(s, ms, zeros);
    }
    forall ms, zeros | IsArchive(s, ms, zeros) ensures ReadArchive(s) == Reading(EntriesOf(ms), None) {
      ReadMembers(ms, zeros);
    }
  }

  // ----- where the reader stands -----

  /** The bytes these entries take up, headers and padding included: always whole blocks. */
  function Offset(es: seq<Entry>): (n: nat)
    ensures n % BLOCK == 0
  {
    if es == [] then 0
    else
      WholeBlocks(Span(es[0].size), Offset(es[1..]));
      Span(es[0].size) + Offset(es[1..])
  }

  lemma WholeBlocks(a: nat, b: nat)
    requires a % BLOCK == 0 && b % BLOCK == 0
    ensures (a + b) % BLOCK == 0
  {
    var i, j := a / 512, b / 512;
    assert a == 512 * i && b == 512 * j;
    assert a + b == 512 * (i + j);
  }

  lemma {:induction false} OffsetStep(es: seq<Entry>, e: Entry)
    ensures Offset(es + [e]) == Offset(es) + Span(e.size)
  {
    if es == [] {
      assert [e][1..] == [];
    } else {
      assert (es + [e])[1..] == es[1..] + [e];
      OffsetStep(es[1..], e);
    }
  }

  /** The first entry, and what is read from where its blocks end. */
  lemma FirstRead(s: Bytes)
    requires ReadArchive(s).entries != []
    ensures |s| >= BLOCK
    ensures var es := ReadArchive(s).entries;
            Span(es[0].size) <= |s| ==>
              var rest := ReadArchive(s[Span(es[0].size)..]);
              rest == Reading(es[1..], ReadArchive(s).error)
  {
    hide ReadArchive, Admit, PadLength;
    if |s| < BLOCK {
      ReadShort(s);
    }
    ReadUnfolds(s);
    var size := ReadArchive(s).entries[0].size;
    if Span(size) <= |s| {
      assert s[BLOCK..][size + PadLength(size)..] == s[Span(size)..];
    }
  }

  lemma OffsetFirst(es: seq<Entry>, i: nat)
    requires 0 < i <= |es|
    ensures Offset(es[..i]) == Span(es[0].size) + Offset(es[1..][..i - 1])
  {
    assert es[..i][1..] == es[1..][..i - 1];
  }

  lemma Drop(s: Bytes, i: nat, j: nat)
    requires i <= j <= |s|
    ensures s[i..][j - i..] == s[j..]
  {
  }

  /** Whatever the input, the reader goes on from a whole number of blocks: each entry it delivers is read from where
      the blocks of the entries before it end, and the rest of its result is that of the input from there. */
  lemma {:induction false} ReaderStandsAtBlocks(s: Bytes, i: nat)
    requires i <= |ReadArchive(s).entries|
    ensures i < |ReadArchive(s).entries| ==> Offset(ReadArchive(s).entries[..i]) + BLOCK <= |s|
    ensures var at := Offset(ReadArchive(s).entries[..i]);
            at % BLOCK == 0
            && (at <= |s| ==>
                  ReadArchive(s[at..]) == Reading(ReadArchive(s).entries[i..], ReadArchive(s).error))
    decreases i
  {
    hide ReadArchive, PadLength, Offset;
    var es := ReadArchive(s).entries;
    if i == 0 {
      NoOffset();
      assert s[0..] == s && es[..0] == [] && es[0..] == es;
      if es != [] {
        FirstRead(s);
      }
    } else {
      FirstRead(s);
      OffsetFirst(es, i);
      var span := Span(es[0].size);
      if span <= |s| {
        ReaderStandsAtBlocks(s[span..], i - 1);
        var at := Offset(es[..i]);
        if at <= |s| {
          Drop(s, span, at);
          assert es[1..][i - 1..] == es[i..];
        }
      } else if i < |es| {
        OneEntryAtMost(s);
      }
    }
  }

  lemma OneEntryAtMost(s: Bytes)
    requires ReadArchive(s).entries != [] && Span(ReadArchive(s).entries[0].size) > |s|
    ensures |ReadArchive(s).entries| == 1
  {
    hide ReadArchive, Admit, PadLength;
    FirstRead(s);
    ReadUnfolds(s);
  }

  // ----- what a header must say -----

  /** A header the reader goes on from: its checksum is right, it is that of a file or a directory, its name is safe and
      its size is within the limit. */
  predicate SoundHeader(header: Bytes)
    requires |header| == BLOCK
  {
    var info := ParseHeader(header);
    && ChecksumValid(header)
    && (info.typ == TYPE_FILE || info.typ == TYPE_DIR)
    && !IsUnsafeTarPath(EntryName(info))
    && info.size.Some? && 0 <= info.size.value <= MAX_FILE_SIZE
  }

  /** The entry a header and the bytes after it make. */
  predicate MadeFrom(e: Entry, header: Bytes, rest: Bytes)
    requires |header| == BLOCK
  {
    var info := ParseHeader(header);
    && e.name == EntryName(info) && info.size == Some(e.size) && e.mode == info.mode
    && (e.isDir <==> info.typ == TYPE_DIR)
    && e.size <= |rest| && e.body == rest[..e.size]
  }

  /** What is wrong with an unsound header, the first fault first. */
  function Fault(header: Bytes): TarError
    requires |header| == BLOCK && !SoundHeader(header)
  {
    var info := ParseHeader(header);
    if !ChecksumValid(header) then BadChecksum
    else if IsUnsafeTarPath(EntryName(info)) then UnsafePath
    else if info.size.None? || !(0 <= info.size.value <= MAX_FILE_SIZE) then BadSize
    else if info.typ in {TYPE_SYMLINK, TYPE_HARD_LINK} then LinkEntry
    else UnsupportedType
  }

  /** What the reader makes of the block it stands at: nothing is delivered of an unsound header. */
  lemma HeaderDecides(s: Bytes)
    requires |s| >= BLOCK && !AllZero(s[..BLOCK])
    ensures ReadArchive(s).entries != [] ==>
              SoundHeader(s[..BLOCK]) && MadeFrom(ReadArchive(s).entries[0], s[..BLOCK], s[BLOCK..])
    ensures !SoundHeader(s[..BLOCK]) ==> ReadArchive(s) == Reading([], Some(Fault(s[..BLOCK])))
  {
    hide AllZero, PadLength, ReadArchive, IsUnsafeTarPath, ChecksumValid, StoredName, ParseField, EntryName;
    ReadUnfolds(s);
  }

  /** And what it makes of the bytes behind a sound header: an entry as soon as the body is there, and what follows once
      its blocks are. */
  lemma SoundHeaderReads(s: Bytes)
    requires |s| >= BLOCK && !AllZero(s[..BLOCK]) && SoundHeader(s[..BLOCK])
    ensures var size := ParseHeader(s[..BLOCK]).size.value;
            var r := ReadArchive(s);
            && (|s| < BLOCK + size ==> r == Reading([], Some(Truncated)))
            && (BLOCK + size <= |s| < Span(size) ==> |r.entries| == 1 && r.error == Some(Truncated))
            && (Span(size) <= |s| ==>
                  && |r.entries| == 1 + |ReadArchive(s[Span(size)..]).entries|
                  && r.entries[1..] == ReadArchive(s[Span(size)..]).entries
                  && r.error == ReadArchive(s[Span(size)..]).error)
  {
    hide AllZero, PadLength, ReadArchive, IsUnsafeTarPath, ChecksumValid, StoredName, ParseField, EntryName;
    ReadUnfolds(s);
    var size := ParseHeader(s[..BLOCK]).size.value;
    if Span(size) <= |s| {
      assert s[BLOCK..][size + PadLength(size)..] == s[Span(size)..];
    }
  }

  /** A directory is delivered without the slash its name ends in, if any. */
  lemma DirectorySlashGoes(info: HeaderInfo)
    ensures var name := EntryName(info);
            if info.typ == TYPE_DIR && exists front :: info.name == front + [SLASH]
            then name + [SLASH] == info.name
            else name == info.name
  {
    if info.name != [] {
      var n := |info.name| - 1;
      assert info.name == info.name[..n] + [info.name[n]];
    }
  }

  /** Where a zero block stands nothing more is delivered; the ways in which the archive ends there. */
  lemma EndDecides(s: Bytes)
    requires |s| >= BLOCK && forall k :: 0 <= k < BLOCK ==> s[k] == NUL
    ensures var r := ReadArchive(s);
            && r.entries == []
            && (r.error == Some(Truncated) <==> |s| < 2 * BLOCK)
            && (r.error == Some(BadEndMarker) <==>
                  |s| >= 2 * BLOCK && exists k :: BLOCK <= k < 2 * BLOCK && s[k] != NUL)
            && (r.error == Some(TrailingData) <==>
                  && |s| >= 2 * BLOCK && (forall k :: BLOCK <= k < 2 * BLOCK ==> s[k] == NUL)
                  && exists k :: 2 * BLOCK <= k < |s| && s[k] != NUL)
            && (r.error == None <==> |s| >= 2 * BLOCK && forall k :: 0 <= k < |s| ==> s[k] == NUL)
  {
    hide ReadArchive;
    ReadUnfolds(s);
    var rest := s[BLOCK..];
    if |rest| >= BLOCK {
      assert forall k :: BLOCK <= k < 2 * BLOCK ==> s[k] == rest[..BLOCK][k - BLOCK];
      assert forall k :: 2 * BLOCK <= k < |s| ==> s[k] == rest[BLOCK..][k - 2 * BLOCK];
      assert forall k :: 0 <= k < BLOCK ==> rest[..BLOCK][k] == s[k + BLOCK];
      assert forall k :: 0 <= k < |s| - 2 * BLOCK ==> rest[BLOCK..][k] == s[k + 2 * BLOCK];
    }
  }

  /** Every entry any reading delivers comes from a sound header, at the block where it stands. */
  lemma {:induction false} DeliveredFromSoundHeader(s: Bytes, i: nat)
    requires i < |ReadArchive(s).entries|
    ensures var at := Offset(ReadArchive(s).entries[..i]);
            && at + BLOCK <= |s| && SoundHeader(s[at..at + BLOCK])
            && MadeFrom(ReadArchive(s).entries[i], s[at..at + BLOCK], s[at + BLOCK..])
  {
    hide ReadArchive, Offset, SoundHeader, MadeFrom, AllZero;
    ReaderStandsAtBlocks(s, i);
    var at := Offset(ReadArchive(s).entries[..i]);
    var here := s[at..];
    assert ReadArchive(here).entries[0] == ReadArchive(s).entries[i];
    assert here[..BLOCK] == s[at..at + BLOCK] && here[BLOCK..] == s[at + BLOCK..];
    NoZeroBlockDelivered(here);
    HeaderDecides(here);
  }

  lemma NoZeroBlockDelivered(s: Bytes)
    requires |s| >= BLOCK && ReadArchive(s).entries != []
    ensures !AllZero(s[..BLOCK])
  {
    hide ReadArchive, Admit, ReadEnd, PadLength;
    ReadUnfolds(s);
  }

  // ----- truncation -----

  /** Where an accepted archive with these entries may end at the earliest. */
  function ArchiveSize(es: seq<Entry>): nat {
    Offset(es) + 2 * BLOCK
  }

  /** A prefix of an accepted archive is accepted exactly from the second zero block on. */
  lemma {:induction false} PrefixAccepted(s: Bytes, k: nat)
    requires ReadArchive(s).error.None? && k <= |s|
    ensures ReadArchive(s[..k]).error.None? <==> k >= ArchiveSize(ReadArchive(s).entries)
    decreases |s|
  {
    hide Admit, PadLength, ReadArchive;
    if |s| < BLOCK || k < BLOCK {
      ReadShort(s[..k]);
      if |s| < BLOCK {
        ReadShort(s);
      }
    } else {
      var rest, rest' := s[BLOCK..], s[BLOCK..k];
      assert s[..k][..BLOCK] == s[..BLOCK] && s[..k][BLOCK..] == rest';
      ReadUnfolds(s);
      ReadUnfolds(s[..k]);
      if AllZero(s[..BLOCK]) {
        if k >= 2 * BLOCK {
          assert rest'[..BLOCK] == rest[..BLOCK];
          assert rest[BLOCK..] == rest'[BLOCK..] + s[k..];
        }
      } else {
        var size := Admit(s[..BLOCK]).value.size;
        var next := size + PadLength(size);
        assert ReadArchive(s).entries[1..] == ReadArchive(rest[next..]).entries;
        if |rest'| >= next {
          assert rest'[next..] == rest[next..][..k - BLOCK - next];
          PrefixAccepted(rest[next..], k - BLOCK - next);
        }
      }
    }
  }

  lemma {:induction false} EntriesRead(s: Bytes, i: nat)
    requires i < |ReadArchive(s).entries|
    ensures var e := ReadArchive(s).entries[i];
            |e.body| == e.size && e.size <= MAX_FILE_SIZE && !IsUnsafeTarPath(e.name)
    decreases |s|
  {
    hide *;
    if |s| < BLOCK {
      ReadShort(s);
    } else {
      ReadUnfolds(s);
      if i > 0 {
        var size := Admit(s[..BLOCK]).value.size;
        EntriesRead(s[BLOCK..][size + PadLength(size)..], i - 1);
      }
    }
  }

  // ----- the round trip -----

  function Delivered(e: Source): Entry {
    Entry(e.name, e.size, Some(e.mode % 512), e.isDir, Content(e))
  }

  function DeliveredAll(es: seq<Source>): (ds: seq<Entry>)
    ensures |ds| == |es| && forall i :: 0 <= i < |es| ==> ds[i] == Delivered(es[i]) && ds[i].size == es[i].size
  {
    seq(|es|, i requires 0 <= i < |es| => Delivered(es[i]))
  }

  /** What a caller must see to: the name is storable, the size is within the limit, and the body is as measured. */
  predicate Archivable(e: Source) {
    && Representable(e.name)
    && NameKept(e.name)
    && !IsUnsafeTarPath(e.name)
    && e.size <= MAX_FILE_SIZE
    && |Content(e)| == e.size
  }

  lemma BuiltHeaderAdmitted(e: Source)
    requires Representable(e.name) && NameKept(e.name) && !IsUnsafeTarPath(e.name) && e.size <= MAX_FILE_SIZE
    ensures BuildHeader(HeaderOf(e)).Success?
    ensures var header := BuildHeader(HeaderOf(e)).value;
            && |header| == BLOCK && !AllZero(header)
            && Admit(header) == Success(Delivered(e).(body := []))
  {
    hide BuildHeader, ParseHeader, IsUnsafeTarPath, NameKept, Representable;
    HeaderInversion(HeaderOf(e));
    if e.name != [] && e.name[|e.name| - 1] == SLASH {
      SplitLast(e.name);
    }
  }

  /** A safe name does not end in a slash. */
  lemma SplitLast(name: Bytes)
    requires name != [] && name[|name| - 1] == SLASH
    ensures IsUnsafeTarPath(name)
  {
    SplitEndsEmpty(name, SLASH);
    var part: Bytes := [];
    assert part in SplitOn(name, SLASH);
  }

  lemma {:induction false} SplitEndsEmpty(s: Bytes, sep: Byte)
    requires s != [] && s[|s| - 1] == sep
    ensures [] in SplitOn(s, sep)[1..]
  {
    var rest := SplitOn(s[1..], sep);
    if |s| == 1 {
      assert rest == [[]];
      assert SplitOn(s, sep)[1..] == rest;
      assert rest[0] == [];
    } else {
      SplitEndsEmpty(s[1..], sep);
      assert SplitOn(s, sep)[1..] == rest || SplitOn(s, sep)[1..] == rest[1..];
      var k :| 0 <= k < |rest[1..]| && rest[1..][k] == [];
      assert rest[k + 1] == [];
    }
  }

  /** The first entry written, seen as a member of the archive. */
  lemma FirstWritten(es: seq<Source>)
    requires es != [] && Archivable(es[0])
    ensures WriteArchive(es).Success? <==> WriteArchive(es[1..]).Success?
    ensures WriteArchive(es).Success? ==>
              var tail := ReadArchive(WriteArchive(es[1..]).value);
              && ReadArchive(WriteArchive(es).value) == Reading([Delivered(es[0])] + tail.entries, tail.error)
              && |WriteArchive(es).value| == Span(es[0].size) + |WriteArchive(es[1..]).value|
  {
    hide BuildHeader, Admit, Representable, NameKept, IsUnsafeTarPath, ReadArchive;
    var e := es[0];
    BuiltHeaderAdmitted(e);
    if WriteArchive(es[1..]).Success? {
      var m := Member(BuildHeader(HeaderOf(e)).value, Content(e), Zeros(PadLength(e.size)));
      assert Payload(e) == m.body + m.pad;
      var rest := WriteArchive(es[1..]).value;
      assert WriteArchive(es).value == m.header + m.body + m.pad + rest;
      ReadStep(m, rest);
    }
  }

  lemma EmptyArchive()
    ensures WriteArchive([]) == Success(Zeros(2 * BLOCK))
    ensures ReadArchive(Zeros(2 * BLOCK)) == Reading(DeliveredAll([]), None)
    ensures ArchiveSize(DeliveredAll([])) == |Zeros(2 * BLOCK)|
  {
    ReadMembers([], 2 * BLOCK);
    assert MemberBytes([]) + Zeros(2 * BLOCK) == Zeros(2 * BLOCK);
  }

  lemma ArchiveSizeCons(es: seq<Entry>)
    requires es != []
    ensures ArchiveSize(es) == Span(es[0].size) + ArchiveSize(es[1..])
  {
  }

  lemma {:induction false} RoundTripForward(es: seq<Source>)
    requires forall e :: e in es ==> Archivable(e)
    ensures WriteArchive(es).Success?
    ensures ReadArchive(WriteArchive(es).value) == Reading(DeliveredAll(es), None)
    ensures |WriteArchive(es).value| == ArchiveSize(DeliveredAll(es))
  {
    hide *;
    if es == [] {
      EmptyArchive();
    } else {
      assert Archivable(es[0]);
      RoundTripForward(es[1..]);
      FirstWritten(es);
      var ds := DeliveredAll(es);
      assert ds[1..] == DeliveredAll(es[1..]) && ds == [Delivered(es[0])] + ds[1..];
      ArchiveSizeCons(ds);
    }
  }

  lemma AdmittedNameKept(e: Source)
    requires Representable(e.name)
    requires BuildHeader(HeaderOf(e)).Success? && |BuildHeader(HeaderOf(e)).value| == BLOCK
    requires Admit(BuildHeader(HeaderOf(e)).value).Success?
    requires Admit(BuildHeader(HeaderOf(e)).value).value.name == e.name
    ensures NameKept(e.name)
  {
    hide BuildHeader, ParseHeader, IsUnsafeTarPath, NameKept, Representable;
    HeaderInversion(HeaderOf(e));
  }

  /** An entry that is delivered as it was given was fit to be archived. */
  lemma FirstArchivable(es: seq<Source>)
    requires es != [] && WriteArchive(es).Success?
    requires var read := ReadArchive(WriteArchive(es).value).entries; read != [] && read[0] == Delivered(es[0])
    ensures Archivable(es[0])
  {
    hide *;
    var e := es[0];
    var s := WriteArchive(es).value;
    EntriesRead(s, 0);
    FirstHeaderWritten(es);
    FirstHeaderRead(s);
    DeliveredFields(e);
    AdmittedNameKept(e);
    FitIsArchivable(e);
  }

  /** The written archive starts with the first entry's header. */
  lemma FirstHeaderWritten(es: seq<Source>)
    requires es != [] && WriteArchive(es).Success?
    ensures Representable(es[0].name) && BuildHeader(HeaderOf(es[0])).Success?
    ensures |BuildHeader(HeaderOf(es[0])).value| == BLOCK && !AllZero(BuildHeader(HeaderOf(es[0])).value)
    ensures var s := WriteArchive(es).value;
            |s| >= BLOCK && s[..BLOCK] == BuildHeader(HeaderOf(es[0])).value
  {
    hide BuildHeader, Payload, Representable, AllZero;
    BuiltIsRepresentable(es[0]);
    HeaderInversion(HeaderOf(es[0]));
  }

  lemma BuiltIsRepresentable(e: Source)
    ensures BuildHeader(HeaderOf(e)).Success? ==> Representable(e.name)
  {
  }

  /** The first entry read is the one its header admits, with a body. */
  lemma FirstHeaderRead(s: Bytes)
    requires |s| >= BLOCK && !AllZero(s[..BLOCK]) && ReadArchive(s).entries != []
    ensures Admit(s[..BLOCK]).Success?
    ensures Admit(s[..BLOCK]).value.name == ReadArchive(s).entries[0].name
  {
    hide Admit, AllZero, PadLength, ReadArchive;
    ReadUnfolds(s);
  }

  lemma DeliveredFields(e: Source)
    ensures Delivered(e).name == e.name && Delivered(e).size == e.size && Delivered(e).body == Content(e)
  {
  }

  lemma FitIsArchivable(e: Source)
    requires Representable(e.name) && NameKept(e.name) && !IsUnsafeTarPath(e.name) && e.size <= MAX_FILE_SIZE
    requires |Content(e)| == e.size
    ensures Archivable(e)
  {
  }

  lemma {:induction false} RoundTripBackward(es: seq<Source>)
    requires WriteArchive(es).Success?
    requires ReadArchive(WriteArchive(es).value) == Reading(DeliveredAll(es), None)
    ensures forall e :: e in es ==> Archivable(e)
  {
    hide *;
    if es != [] {
      var ds := DeliveredAll(es);
      assert ds[1..] == DeliveredAll(es[1..]) && ds == [Delivered(es[0])] + ds[1..];
      FirstArchivable(es);
      FirstWritten(es);
      RoundTripBackward(es[1..]);
    }
  }

  /** Reading back what was written delivers every entry as it was given, exactly when every entry is fit. */
  lemma {:induction false} RoundTrip(es: seq<Source>)
    ensures (WriteArchive(es).Success? && ReadArchive(WriteArchive(es).value) == Reading(DeliveredAll(es), None))
            <==> forall e :: e in es ==> Archivable(e)
  {
    hide WriteArchive, ReadArchive, Archivable;
    if forall e :: e in es ==> Archivable(e) {
      RoundTripForward(es);
    } else if WriteArchive(es).Success? && ReadArchive(WriteArchive(es).value) == Reading(DeliveredAll(es), None) {
      RoundTripBackward(es);
      assert false;
    }
  }

  /** No archive cut short anywhere is accepted. */
  lemma {:induction false} TruncationRejected(es: seq<Source>, k: nat)
    requires forall e :: e in es ==> Archivable(e)
    requires WriteArchive(es).Success? && k < |WriteArchive(es).value|
    ensures ReadArchive(WriteArchive(es).value[..k]).error.Some?
  {
    hide WriteArchive, ReadArchive, Archivable;
    RoundTripForward(es);
    PrefixAccepted(WriteArchive(es).value, k);
  }

  // ----- damage -----

  /** The members written, without the two blocks after them. */
  function Members(es: seq<Source>): (ms: Bytes)
    requires forall e :: e in es ==> Archivable(e)
  {
    if es == [] then [] else BuiltHeader(es[0]) + Payload(es[0]) + Members(es[1..])
  }

  function BuiltHeader(e: Source): (header: Bytes)
    requires Archivable(e)
    ensures |header| == BLOCK
  {
    HeaderInversion(HeaderOf(e));
    BuildHeader(HeaderOf(e)).value
  }

  lemma {:induction false} WrittenIsMembers(es: seq<Source>)
    requires forall e :: e in es ==> Archivable(e)
    ensures WriteArchive(es) == Success(Members(es) + Zeros(2 * BLOCK))
  {
    hide Archivable, BuildHeader, Payload;
    if es == [] {
      assert [] + Zeros(2 * BLOCK) == Zeros(2 * BLOCK);
    } else {
      assert es[0] in es;
      WrittenIsMembers(es[1..]);
      FirstIsBuilt(es[0]);
      var first := BuiltHeader(es[0]) + Payload(es[0]);
      assert first + (Members(es[1..]) + Zeros(2 * BLOCK)) == first + Members(es[1..]) + Zeros(2 * BLOCK);
    }
  }

  lemma FirstIsBuilt(e: Source)
    requires Archivable(e)
    ensures BuildHeader(HeaderOf(e)) == Success(BuiltHeader(e))
  {
    HeaderInversion(HeaderOf(e));
  }

  lemma {:induction false} MembersConcat(a: seq<Source>, b: seq<Source>)
    requires forall e :: e in a + b ==> Archivable(e)
    ensures (forall e :: e in a ==> Archivable(e)) && (forall e :: e in b ==> Archivable(e))
    ensures Members(a + b) == Members(a) + Members(b)
  {
    hide Archivable, Payload, BuiltHeader;
    if a == [] {
      assert a + b == b && [] + Members(b) == Members(b);
    } else {
      assert (a + b)[1..] == a[1..] + b && (a + b)[0] == a[0];
      MembersConcat(a[1..], b);
      var first := BuiltHeader(a[0]) + Payload(a[0]);
      assert first + (Members(a[1..]) + Members(b)) == first + Members(a[1..]) + Members(b);
    }
  }

  /** Whatever follows them, written members are delivered and the reader goes on after them. */
  lemma {:induction false} ReadsThrough(es: seq<Source>, tail: Bytes)
    requires forall e :: e in es ==> Archivable(e)
    ensures ReadArchive(Members(es) + tail)
              == Reading(DeliveredAll(es) + ReadArchive(tail).entries, ReadArchive(tail).error)
    ensures |Members(es)| == Offset(DeliveredAll(es))
  {
    hide *;
    if es == [] {
      NoMembers(tail);
    } else {
      assert es[0] in es;
      ReadsThrough(es[1..], tail);
      ReadsFirst(es, tail);
      var ds, rest := DeliveredAll(es), ReadArchive(tail).entries;
      DeliveredCons(es);
      assert [Delivered(es[0])] + (DeliveredAll(es[1..]) + rest) == ds + rest;
    }
  }

  lemma NoMembers(tail: Bytes)
    ensures Members([]) + tail == tail && DeliveredAll([]) == [] && Offset([]) == 0
    ensures ReadArchive(tail) == Reading([] + ReadArchive(tail).entries, ReadArchive(tail).error)
    ensures |Members([])| == 0
  {
    assert [] + ReadArchive(tail).entries == ReadArchive(tail).entries;
  }

  lemma DeliveredCons(es: seq<Source>)
    requires es != []
    ensures DeliveredAll(es) == [Delivered(es[0])] + DeliveredAll(es[1..])
    ensures Offset(DeliveredAll(es)) == Span(es[0].size) + Offset(DeliveredAll(es[1..]))
  {
    var ds := DeliveredAll(es);
    assert ds[1..] == DeliveredAll(es[1..]);
  }

  lemma ReadsFirst(es: seq<Source>, tail: Bytes)
    requires es != [] && forall e :: e in es ==> Archivable(e)
    ensures var rest := ReadArchive(Members(es[1..]) + tail);
            ReadArchive(Members(es) + tail) == Reading([Delivered(es[0])] + rest.entries, rest.error)
    ensures |Members(es)| == Span(es[0].size) + |Members(es[1..])|
  {
    hide BuildHeader, Admit, Representable, NameKept, IsUnsafeTarPath, ReadArchive, AllZero, HeaderOf, PadLength;
    var e := es[0];
    assert e in es;
    BuiltHeaderAdmitted(e);
    FirstIsBuilt(e);
    var m := Member(BuiltHeader(e), Content(e), Zeros(PadLength(e.size)));
    var rest := Members(es[1..]) + tail;
    assert Payload(e) == m.body + m.pad;
    assert Members(es) + tail == m.header + m.body + m.pad + rest;
    ReadStep(m, rest);
  }

  /** With any unsound block in the place of a header, the entries before it are delivered and nothing more. */
  lemma UnsoundHeaderStops(es: seq<Source>, header: Bytes, rest: Bytes)
    requires forall e :: e in es ==> Archivable(e)
    requires |header| == BLOCK && !AllZero(header) && !SoundHeader(header)
    ensures ReadArchive(Members(es) + header + rest) == Reading(DeliveredAll(es), Some(Fault(header)))
  {
    hide ReadArchive, Members, SoundHeader, AllZero, ChecksumValid;
    var tail := header + rest;
    assert Members(es) + header + rest == Members(es) + tail;
    assert tail[..BLOCK] == header && tail[BLOCK..] == rest;
    ReadsThrough(es, tail);
    HeaderDecides(tail);
    assert DeliveredAll(es) + [] == DeliveredAll(es);
  }

  /** A header of any other type stops the reader, links by their own error. */
  lemma ForeignTypeStops(es: seq<Source>, h: HeaderInput, rest: Bytes)
    requires forall e :: e in es ==> Archivable(e)
    requires Representable(h.name) && NameKept(h.name) && !IsUnsafeTarPath(h.name) && h.size <= MAX_FILE_SIZE
    requires h.typ != TYPE_FILE && h.typ != TYPE_DIR
    ensures BuildHeader(h).Success?
    ensures ReadArchive(Members(es) + BuildHeader(h).value + rest)
              == Reading(DeliveredAll(es),
                         Some(if h.typ == TYPE_SYMLINK || h.typ == TYPE_HARD_LINK then LinkEntry else UnsupportedType))
  {
    hide ReadArchive, Members, AllZero, ChecksumValid, BuildHeader, Representable, NameKept, IsUnsafeTarPath;
    hide StoredName, ParseField;
    HeaderInversion(h);
    var header := BuildHeader(h).value;
    var tail := header + rest;
    assert Members(es) + header + rest == Members(es) + tail;
    assert tail[..BLOCK] == header && tail[BLOCK..] == rest;
    ReadsThrough(es, tail);
    HeaderDecides(tail);
    assert DeliveredAll(es) + [] == DeliveredAll(es);
  }

  lemma StillNoZeroBlock(h: HeaderInput, k: nat, v: Byte)
    requires Representable(h.name) && BuildHeader(h).Success? && |BuildHeader(h).value| == BLOCK && k < BLOCK
    ensures !AllZero(BuildHeader(h).value[k := v])
  {
    hide OctalField, BaseOf, PrefixOf, Representable, CheckField, Sum;
    var header := BuildHeader(h).value;
    assert header[257] == MAGIC[0] && header[258] == MAGIC[1];
    var other := if k == 257 then 258 else 257;
    assert header[k := v][other] != NUL;
  }

  /** One changed byte anywhere in a header but its checksum field: the reading ends there, with that error. */
  lemma HeaderByteChanged(es: seq<Source>, i: nat, k: nat, v: Byte)
    requires i < |es| && forall e :: e in es ==> Archivable(e)
    requires k < BLOCK && !(148 <= k < 156)
    ensures WriteArchive(es).Success?
    ensures var w := WriteArchive(es).value;
            var at := Offset(DeliveredAll(es[..i]));
            && at + BLOCK <= |w|
            && (v != w[at + k] ==> ReadArchive(w[at + k := v]) == Reading(DeliveredAll(es[..i]), Some(BadChecksum)))
  {
    hide ReadArchive, Members, AllZero, ChecksumValid, BuiltHeader, Archivable, Payload, Offset, WriteArchive;
    hide Representable, BuildHeader, SoundHeader;
    WrittenIsMembers(es);
    var w := WriteArchive(es).value;
    var before, e, after := es[..i], es[i], es[i + 1..];
    assert es == before + es[i..] && es[i..] == [e] + after;
    MembersConcat(before, es[i..]);
    assert e in es;
    MembersFirst(es[i..]);
    var header := BuiltHeader(e);
    var rest := Payload(e) + Members(after) + Zeros(2 * BLOCK);
    assert w == Members(before) + header + rest;
    ReadsThrough(before, []);
    var at := |Members(before)|;
    if v != w[at + k] {
      assert w[at + k] == header[k];
      assert w[at + k := v] == Members(before) + header[k := v] + rest;
      BuiltHeaderDamaged(e, k, v);
      UnsoundHeaderStops(before, header[k := v], rest);
    }
  }

  lemma MembersFirst(es: seq<Source>)
    requires es != [] && forall e :: e in es ==> Archivable(e)
    ensures Members(es) == BuiltHeader(es[0]) + Payload(es[0]) + Members(es[1..])
  {
  }

  lemma BuiltHeaderDamaged(e: Source, k: nat, v: Byte)
    requires Archivable(e) && k < BLOCK && !(148 <= k < 156) && v != BuiltHeader(e)[k]
    ensures var damaged := BuiltHeader(e)[k := v];
            |damaged| == BLOCK && !AllZero(damaged) && !ChecksumValid(damaged) && !SoundHeader(damaged)
  {
    hide AllZero, ChecksumValid, BuildHeader, Representable, NameKept, IsUnsafeTarPath;
    FirstIsBuilt(e);
    HeaderInversion(HeaderOf(e));
    StillNoZeroBlock(HeaderOf(e), k, v);
    ByteChangeDetected(BuiltHeader(e), k, v);
  }

  // ----- in place -----

  /** The archive stream: the chunk being consumed, and those still to come. */
  class ChunkReader {
    var pending: Bytes
    var chunks: seq<Bytes>

    constructor (chunks: seq<Bytes>)
      ensures Remaining() == Flatten(chunks)
    {
      this.pending, this.chunks := [], chunks;
    }

    ghost function Remaining(): Bytes
      reads this
    {
      pending + Flatten(chunks)
    }

    method Refill() returns (done: bool)
      requires pending == []
      modifies this
      ensures Remaining() == old(Remaining())
      ensures if done then Remaining() == [] else |chunks| < |old(chunks)|
    {
      if chunks == [] {
        return true;
      }
      pending, chunks := chunks[0], chunks[1..];
      done := false;
    }

    method TakePending(take: nat) returns (part: Bytes)
      requires take <= |pending|
      modifies this
      ensures part == old(pending)[..take] && pending == old(pending)[take..] && chunks == old(chunks)
      ensures old(Remaining()) == part + Remaining()
    {
      part := pending[..take];
      assert pending + Flatten(chunks) == pending[..take] + (pending[take..] + Flatten(chunks));
      pending := pending[take..];
    }

    /** Exactly `size` bytes, however the stream is cut. */
    method Read(size: nat) returns (r: Result<Bytes, TarError>)
      modifies this
      ensures |old(Remaining())| >= size ==>
                r == Success(old(Remaining())[..size]) && Remaining() == old(Remaining())[size..]
      ensures |old(Remaining())| < size ==> r == Failure(Truncated) && Remaining() == []
    {
      hide Flatten;
      var data: Bytes := [];
      var remaining: nat := size;
      while remaining > 0
        invariant |data| + remaining == size
        invariant old(Remaining()) == data + Remaining()
        decreases remaining, |chunks|
      {
        if pending == [] {
          var done := Refill();
          if done {
            return Failure(Truncated);
          }
        }
        var take := if remaining < |pending| then remaining else |pending|;
        var part := TakePending(take);
        data := data + part;
        remaining := remaining - take;
      }
      assert old(Remaining())[..size] == data;
      r := Success(data);
    }

    /** The rest of the stream, read to its end. */
    method RestIsZero() returns (zero: bool)
      modifies this
      ensures zero <==> AllZero(old(Remaining()))
    {
      assert forall i :: 0 <= i < |pending| ==> Remaining()[i] == pending[i];
      if !AllZero(pending) {
        return false;
      }
      ghost var seen := pending;
      while chunks != []
        invariant old(Remaining()) == seen + Flatten(chunks) && AllZero(seen)
        decreases |chunks|
      {
        var chunk := chunks[0];
        if !AllZero(chunk) {
          assert forall i :: 0 <= i < |chunk| ==> old(Remaining())[|seen| + i] == chunk[i];
          return false;
        }
        seen := seen + chunk;
        chunks := chunks[1..];
      }
      zero := true;
    }

    /** A body, read in pieces of at most 64 KiB. */
    method ReadBody(size: nat) returns (r: Result<Bytes, TarError>)
      modifies this
      ensures |old(Remaining())| >= size ==>
                r == Success(old(Remaining())[..size]) && Remaining() == old(Remaining())[size..]
      ensures |old(Remaining())| < size ==> r == Failure(Truncated)
    {
      hide Flatten;
      var body: Bytes := [];
      var remaining: nat := size;
      while remaining > 0
        invariant |body| + remaining == size
        invariant old(Remaining()) == body + Remaining()
      {
        ghost var before := Remaining();
        var data := Read(if remaining < PIECE then remaining else PIECE);
        if data.Failure? {
          return data;
        }
        assert before == data.value + Remaining();
        assert body + (data.value + Remaining()) == body + data.value + Remaining();
        body := body + data.value;
        remaining := remaining - |data.value|;
      }
      assert old(Remaining())[..size] == body;
      r := Success(body);
    }
  }

  method ReadEndMarker(reader: ChunkReader) returns (error: Option<TarError>)
    modifies reader
    ensures error == ReadEnd(old(reader.Remaining()))
  {
    var second := reader.Read(BLOCK);
    if second.Failure? {
      return Some(second.error);
    }
    if !AllZero(second.value) {
      return Some(BadEndMarker);
    }
    var zero := reader.RestIsZero();
    error := if zero then None else Some(TrailingData);
  }

  /** The body and padding of an admitted entry; the entry is complete before its padding is read. */
  method ReadContent(reader: ChunkReader, head: Entry) returns (entry: Option<Entry>, error: Option<TarError>)
    modifies reader
    ensures var rest := old(reader.Remaining());
            if |rest| < head.size then entry == None && error == Some(Truncated)
            else
              && entry == Some(head.(body := rest[..head.size]))
              && (if |rest| < head.size + PadLength(head.size) then error == Some(Truncated)
                  else error == None && reader.Remaining() == rest[head.size + PadLength(head.size)..])
  {
    var body := reader.ReadBody(head.size);
    if body.Failure? {
      return None, Some(body.error);
    }
    entry := Some(head.(body := body.value));
    var padding := reader.Read(PadLength(head.size));
    error := if padding.Failure? then Some(padding.error) else None;
  }

  /** The next member's place is a whole number of blocks further on. */
  lemma NextMember(whole: Bytes, entries: seq<Entry>, e: Entry)
    requires Offset(entries) + Span(e.size) <= |whole|
    ensures Offset(entries + [e]) == Offset(entries) + Span(e.size)
    ensures whole[Offset(entries)..][BLOCK..][e.size + PadLength(e.size)..] == whole[Offset(entries + [e])..]
  {
    hide Offset, PadLength;
    OffsetStep(entries, e);
  }

  /** One turn of the reading loop: an entry, unless the archive ends or fails before one is complete. */
  method ReadMember(reader: ChunkReader) returns (entry: Option<Entry>, error: Option<TarError>, last: bool)
    modifies reader
    ensures var here := old(reader.Remaining());
            if last then ReadArchive(here) == Reading(if entry.Some? then [entry.value] else [], error)
            else
              && entry.Some? && Span(entry.value.size) <= |here|
              && reader.Remaining() == here[BLOCK..][entry.value.size + PadLength(entry.value.size)..]
              && var rest := ReadArchive(reader.Remaining());
                 ReadArchive(here) == Reading([entry.value] + rest.entries, rest.error)
  {
    hide Admit, ReadArchive, ReadEnd, PadLength;
    ghost var here := reader.Remaining();
    var header := reader.Read(BLOCK);
    if header.Failure? {
      ReadShort(here);
      return None, Some(header.error), true;
    }
    ReadUnfolds(here);
    if AllZero(header.value) {
      error := ReadEndMarker(reader);
      return None, error, true;
    }
    var head := Admit(header.value);
    if head.Failure? {
      return None, Some(head.error), true;
    }
    entry, error := ReadContent(reader, head.value);
    last := error.Some?;
  }

  /** The reading loop, at a whole number of blocks each time it turns; file entries are the ones handed to the
      callback, in this order. */
  method ReadTar(reader: ChunkReader) returns (entries: seq<Entry>, error: Option<TarError>)
    modifies reader
    ensures Reading(entries, error) == ReadArchive(old(reader.Remaining()))
  {
    hide ReadArchive, PadLength, Offset;
    entries := [];
    ghost var whole := reader.Remaining();
    NoOffset();
    while true
      invariant var rest := ReadArchive(reader.Remaining());
                ReadArchive(whole) == Reading(entries + rest.entries, rest.error)
      invariant Offset(entries) % BLOCK == 0 && Offset(entries) <= |whole|
      invariant reader.Remaining() == whole[Offset(entries)..]
      decreases |reader.Remaining()|
    {
      var entry, stopped, last := ReadMember(reader);
      if last {
        entries := entries + (if entry.Some? then [entry.value] else []);
        return entries, stopped;
      }
      NextMember(whole, entries, entry.value);
      ghost var tail := ReadArchive(reader.Remaining()).entries;
      assert entries + ([entry.value] + tail) == entries + [entry.value] + tail;
      entries := entries + [entry.value];
    }
  }

  lemma NoOffset()
    ensures Offset([]) == 0
  {
  }

  /** The writing loop: header, body and padding of each entry, then two zero blocks. */
  method WriteTar(es: seq<Source>) returns (r: Result<Bytes, TarError>)
    ensures r == WriteArchive(es)
  {
    hide BuildHeader, Prepend;
    var out: Bytes := [];
    assert es[0..] == es;
    PrependTwice([], [], WriteArchive(es));
    for i := 0 to |es|
      invariant WriteArchive(es) == Prepend(out, WriteArchive(es[i..]))
    {
      var e := es[i];
      ghost var before := out;
      assert es[i..][1..] == es[i + 1..];
      var header := BuildTarHeader(HeaderOf(e));
      if header.Failure? {
        PrependCases(out, [], header.error);
        return Failure(header.error);
      }
      out := out + header.value[..];
      if !e.isDir {
        out := out + e.body;
        var padding := PadLength(e.size);
        if padding > 0 {
          out := out + Zeros(padding);
        }
      }
      assert out == before + (header.value[..] + Payload(e));
      PrependTwice(before, header.value[..] + Payload(e), WriteArchive(es[i + 1..]));
    }
    assert es[|es|..] == [];
    r := Success(out + Zeros(2 * BLOCK));
    PrependCases(out, Zeros(2 * BLOCK), NotRepresentable);
  }
}
