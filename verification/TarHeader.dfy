/** The 512-byte ustar header: layout, checksum, the name/prefix split, and reading it back. */
module TarHeader {
  import opened Sequences
  import opened Octal

  const BLOCK: nat := 512
  const MAX_FILE_SIZE: nat := 8 * 1024 * 1024 * 1024 - 1
  const SLASH: Byte := 47
  const BACKSLASH: Byte := 92
  const COLON: Byte := 58
  const DOT: Byte := 46
  const TYPE_FILE: Byte := 48  // '0'
  const TYPE_HARD_LINK: Byte := 49  // '1'
  const TYPE_SYMLINK: Byte := 50  // '2'
  const TYPE_DIR: Byte := 53  // '5'
  const BLANKS: Bytes := [SPACE, SPACE, SPACE, SPACE, SPACE, SPACE, SPACE, SPACE]
  const MAGIC: Bytes := [117, 115, 116, 97, 114, 0, 48, 48]  // "ustar\0" and version "00"

  /** What a header is built from. Names are UTF-8 byte strings. */
  datatype HeaderInput = HeaderInput(name: Bytes, size: nat, mtime: nat, mode: nat, typ: Byte)

  /** What a header says; `None` is NaN. */
  datatype HeaderInfo = HeaderInfo(
    name: Bytes, size: Option<int>, mtime: Option<int>, mode: Option<int>, typ: Byte, checksumValid: bool)

  datatype TarError =
    | NotRepresentable | Truncated | BadEndMarker | TrailingData | BadChecksum
    | UnsafePath | BadSize | LinkEntry | UnsupportedType

  // ----- names -----

  predicate CanSplitAt(name: Bytes, i: nat) {
    i < |name| && name[i] == SLASH && i <= 155 && |name| - i - 1 <= 100
  }

  /** The latest position below `limit` at which the name can be split. */
  function FindSplit(name: Bytes, limit: nat): (r: Option<nat>)
    requires limit <= |name|
    ensures r.Some? ==> r.value < limit && CanSplitAt(name, r.value)
    ensures r.Some? ==> forall i :: r.value < i < limit ==> !CanSplitAt(name, i)
    ensures r.None? ==> forall i :: 0 <= i < limit ==> !CanSplitAt(name, i)
  {
    if limit == 0 then None
    else if CanSplitAt(name, limit - 1) then Some(limit - 1)
    else FindSplit(name, limit - 1)
  }

  /** A name fits the header when it is short, or has some slash to split at. */
  predicate Representable(name: Bytes) {
    |name| <= 100 || exists i: nat :: i < |name| && CanSplitAt(name, i)
  }

  predicate SplitsInto(name: Bytes, prefix: Bytes, base: Bytes) {
    name == prefix + [SLASH] + base && |prefix| <= 155 && |base| <= 100
  }

  lemma SplitWhere(name: Bytes, i: nat)
    ensures CanSplitAt(name, i) ==> SplitsInto(name, name[..i], name[i + 1..])
  {
    if CanSplitAt(name, i) {
      assert name == name[..i] + [SLASH] + name[i + 1..];
    }
  }

  lemma SplitHere(name: Bytes, prefix: Bytes, base: Bytes)
    requires SplitsInto(name, prefix, base)
    ensures CanSplitAt(name, |prefix|)
  {
  }

  /** Exactly the names of at most 100 bytes, and those with a slash before at most 100 and behind at most 155. */
  lemma NameFitsIff(name: Bytes)
    ensures Representable(name) <==> |name| <= 100 || exists prefix, base :: SplitsInto(name, prefix, base)
  {
    hide CanSplitAt, SplitsInto;
    if i: nat :| i < |name| && CanSplitAt(name, i) {
      SplitWhere(name, i);
    }
    if prefix, base :| SplitsInto(name, prefix, base) {
      SplitHere(name, prefix, base);
      SplitIsWithin(name, prefix, base);
    }
  }

  lemma SplitIsWithin(name: Bytes, prefix: Bytes, base: Bytes)
    requires SplitsInto(name, prefix, base)
    ensures |prefix| < |name|
  {
  }

  /** Of all such ways to split a name, the one with the longest prefix is taken. */
  lemma LongestPrefix(name: Bytes, prefix: Bytes, base: Bytes)
    requires |name| > 100 && SplitsInto(name, prefix, base)
    ensures Representable(name) && |prefix| <= |PrefixOf(name)|
    ensures name == PrefixOf(name) + [SLASH] + BaseOf(name)
  {
    assert CanSplitAt(name, |prefix|);
  }

  function BaseOf(name: Bytes): (base: Bytes)
    requires Representable(name)
    ensures |base| <= 100
  {
    if |name| <= 100 then name else name[FindSplit(name, |name|).value + 1..]
  }

  function PrefixOf(name: Bytes): (prefix: Bytes)
    requires Representable(name)
    ensures |prefix| <= 155
    ensures |name| > 100 ==> name == prefix + [SLASH] + BaseOf(name)
  {
    if |name| <= 100 then [] else name[..FindSplit(name, |name|).value]
  }

  predicate EndsWithNul(s: Bytes) { s != [] && s[|s| - 1] == NUL }

  /** The names whose stored form loses nothing. */
  predicate NameKept(name: Bytes)
    requires Representable(name)
  {
    && !EndsWithNul(BaseOf(name))
    && (|name| > 100 ==> PrefixOf(name) != [] && !EndsWithNul(PrefixOf(name)))
  }

  predicate IsNul(b: Byte) { b == NUL }

  predicate IsLetter(b: Byte) { 65 <= b <= 90 || 97 <= b <= 122 }

  /** In ASCII two blocks of 26. */
  lemma LettersAre(b: Byte)
    ensures IsLetter(b) <==> ('A' as int <= b < 'A' as int + 26) || ('a' as int <= b < 'a' as int + 26)
  {
  }

  predicate IsUnsafeTarPath(name: Bytes) {
    || name == []
    || name[0] == SLASH
    || BACKSLASH in name
    || (|name| >= 2 && IsLetter(name[0]) && name[1] == COLON)
    || exists part :: part in SplitOn(name, SLASH) && (part == [DOT, DOT] || part == [] || part == [DOT])
  }

  // ----- layout -----

  function HeaderByte(h: HeaderInput, check: Bytes, i: nat): Byte
    requires Representable(h.name) && |check| == 8 && i < BLOCK
  {
    if i < 100 then (if i < |BaseOf(h.name)| then BaseOf(h.name)[i] else NUL)
    else if i < 108 then OctalField(8, h.mode % 4096)[i - 100]
    else if i < 116 then OctalField(8, 0)[i - 108]
    else if i < 124 then OctalField(8, 0)[i - 116]
    else if i < 136 then OctalField(12, h.size)[i - 124]
    else if i < 148 then OctalField(12, h.mtime)[i - 136]
    else if i < 156 then check[i - 148]
    else if i == 156 then h.typ
    else if 257 <= i < 265 then MAGIC[i - 257]
    else if 345 <= i < 345 + |PrefixOf(h.name)| then PrefixOf(h.name)[i - 345]
    else NUL
  }

  function HeaderWith(h: HeaderInput, check: Bytes): (header: Bytes)
    requires Representable(h.name) && |check| == 8
    ensures |header| == BLOCK
  {
    seq(BLOCK, i requires 0 <= i < BLOCK => HeaderByte(h, check, i))
  }

  function Sum(s: Bytes): nat {
    if s == [] then 0 else Sum(s[..|s| - 1]) + s[|s| - 1]
  }

  function CheckField(sum: nat): (check: Bytes)
    ensures |check| == 8
  {
    Padded(6, sum)[..6] + [NUL, SPACE]
  }

  function BuildHeader(h: HeaderInput): Result<Bytes, TarError> {
    if !Representable(h.name) then Failure(NotRepresentable)
    else Success(HeaderWith(h, CheckField(Sum(HeaderWith(h, BLANKS)))))
  }

  /** The header with its checksum field read as blanks. */
  function Blanked(header: Bytes): (b: Bytes)
    requires |header| == BLOCK
    ensures |b| == BLOCK
  {
    header[..148] + BLANKS + header[156..]
  }

  predicate ChecksumValid(header: Bytes)
    requires |header| == BLOCK
  {
    FieldText(header[148..156]) == Padded(6, Sum(Blanked(header)))
  }

  function Rejoin(prefix: Bytes, base: Bytes): Bytes {
    if prefix != [] then prefix + [SLASH] + base else base
  }

  function StoredName(header: Bytes): Bytes
    requires |header| == BLOCK
  {
    Rejoin(TrimEnd(header[345..500], IsNul), TrimEnd(header[..100], IsNul))
  }

  function ParseHeader(header: Bytes): HeaderInfo
    requires |header| == BLOCK
  {
    HeaderInfo(StoredName(header), ParseField(header[124..136]), ParseField(header[136..148]),
               ParseField(header[100..108]), header[156], ChecksumValid(header))
  }

  // ----- the checksum -----

  lemma {:induction false} SumBound(s: Bytes)
    ensures Sum(s) <= 255 * |s|
  {
    if s != [] {
      SumBound(s[..|s| - 1]);
    }
  }

  lemma {:induction false} SumUpdate(s: Bytes, i: nat, v: Byte)
    requires i < |s|
    ensures Sum(s[i := v]) == Sum(s) - s[i] + v
  {
    if i == |s| - 1 {
      assert s[i := v][..|s| - 1] == s[..|s| - 1];
    } else {
      assert s[i := v][..|s| - 1] == s[..|s| - 1][i := v];
      SumUpdate(s[..|s| - 1], i, v);
    }
  }

  /** The six digits always suffice: 512 * 255 < 8^6. */
  lemma {:induction false} ChecksumFits(header: Bytes)
    requires |header| == BLOCK
    ensures |Padded(6, Sum(header))| == 6
  {
    SumBound(header);
    assert Pow8(6) == 262144;
    PaddedLength(6, Sum(header));
  }

  /** Changing any one byte outside the checksum field of a valid header is noticed. */
  lemma {:induction false} ByteChangeDetected(header: Bytes, i: nat, v: Byte)
    requires |header| == BLOCK && ParseHeader(header).checksumValid
    requires i < BLOCK && !(148 <= i < 156) && v != header[i]
    ensures !ParseHeader(header[i := v]).checksumValid
  {
    var changed := header[i := v];
    assert changed[148..156] == header[148..156];
    assert Blanked(changed) == Blanked(header)[i := v] by {
      assert forall k :: 0 <= k < BLOCK ==> Blanked(changed)[k] == Blanked(header)[i := v][k];
    }
    SumUpdate(Blanked(header), i, v);
    PaddedInjective(6, Sum(Blanked(header)), Sum(Blanked(changed)));
  }

  // ----- inversion -----

  lemma FieldAt(h: HeaderInput, check: Bytes, offset: nat, field: Bytes)
    requires Representable(h.name) && |check| == 8 && offset + |field| <= BLOCK
    requires forall i :: 0 <= i < |field| ==> HeaderByte(h, check, offset + i) == field[i]
    ensures HeaderWith(h, check)[offset..offset + |field|] == field
  {
    var header := HeaderWith(h, check);
    forall i | 0 <= i < |field| ensures header[offset..offset + |field|][i] == field[i] {
      assert header[offset + i] == HeaderByte(h, check, offset + i);
    }
  }

  lemma HeaderFields(h: HeaderInput, check: Bytes)
    requires Representable(h.name) && |check| == 8
    ensures var header := HeaderWith(h, check);
            && header[100..108] == OctalField(8, h.mode % 4096)
            && header[124..136] == OctalField(12, h.size)
            && header[136..148] == OctalField(12, h.mtime)
            && header[148..156] == check
            && header[156] == h.typ
            && header[257] == 117
  {
    FieldAt(h, check, 100, OctalField(8, h.mode % 4096));
    FieldAt(h, check, 124, OctalField(12, h.size));
    FieldAt(h, check, 136, OctalField(12, h.mtime));
    FieldAt(h, check, 148, check);
  }

  lemma HeaderNames(h: HeaderInput, check: Bytes)
    requires Representable(h.name) && |check| == 8
    ensures var header := HeaderWith(h, check);
            && header[..100] == BaseOf(h.name) + Zeros(100 - |BaseOf(h.name)|)
            && header[345..500] == PrefixOf(h.name) + Zeros(155 - |PrefixOf(h.name)|)
  {
    FieldAt(h, check, 0, BaseOf(h.name) + Zeros(100 - |BaseOf(h.name)|));
    FieldAt(h, check, 345, PrefixOf(h.name) + Zeros(155 - |PrefixOf(h.name)|));
  }

  /** The block a header is written as, field by field, as ustar lays it out; user and group are 0. */
  lemma UstarLayout(h: HeaderInput)
    requires Representable(h.name)
    ensures BuildHeader(h).Success?
    ensures var header := BuildHeader(h).value;
            var sum := Sum(header[..148] + BLANKS + header[156..]);
            && header[..100] == BaseOf(h.name) + Zeros(100 - |BaseOf(h.name)|)
            && header[100..108] == OctalField(8, h.mode % 4096)
            && header[108..116] == [48, 48, 48, 48, 48, 48, 48, 0]
            && header[116..124] == [48, 48, 48, 48, 48, 48, 48, 0]
            && header[124..136] == OctalField(12, h.size)
            && header[136..148] == OctalField(12, h.mtime)
            && header[148..156] == Padded(6, sum)[..6] + [0, 32]
            && header[156] == h.typ
            && header[157..257] == Zeros(100)
            && header[257..265] == [117, 115, 116, 97, 114, 0, 48, 48]
            && header[265..345] == Zeros(80)
            && header[345..500] == PrefixOf(h.name) + Zeros(155 - |PrefixOf(h.name)|)
            && header[500..512] == Zeros(12)
  {
    hide OctalField, Sum, Padded;
    var check := CheckField(Sum(HeaderWith(h, BLANKS)));
    HeaderFields(h, check);
    HeaderNames(h, check);
    BlankedHeader(h, check);
    NoOwner();
    FieldAt(h, check, 108, OctalField(8, 0));
    FieldAt(h, check, 116, OctalField(8, 0));
    FieldAt(h, check, 157, Zeros(100));
    FieldAt(h, check, 257, MAGIC);
    FieldAt(h, check, 265, Zeros(80));
    FieldAt(h, check, 500, Zeros(12));
  }

  lemma NoOwner()
    ensures OctalField(8, 0) == [48, 48, 48, 48, 48, 48, 48, 0]
  {
  }

  lemma BlankedHeader(h: HeaderInput, check: Bytes)
    requires Representable(h.name) && |check| == 8
    ensures Blanked(HeaderWith(h, check)) == HeaderWith(h, BLANKS)
  {
    var a, b := Blanked(HeaderWith(h, check)), HeaderWith(h, BLANKS);
    forall i | 0 <= i < BLOCK ensures a[i] == b[i] {
      if 148 <= i < 156 {
        assert a[i] == BLANKS[i - 148];
      }
    }
  }

  lemma {:induction false} StripPadding(s: Bytes, n: nat)
    ensures TrimEnd(s + Zeros(n), IsNul) == TrimEnd(s, IsNul)
  {
    if n == 0 {
      assert s + Zeros(0) == s;
    } else {
      assert (s + Zeros(n))[..|s| + n - 1] == s + Zeros(n - 1);
      StripPadding(s, n - 1);
    }
  }

  lemma StripKeeps(s: Bytes)
    ensures |TrimEnd(s, IsNul)| <= |s|
    ensures TrimEnd(s, IsNul) == s <==> !EndsWithNul(s)
    ensures |TrimEnd(s, IsNul)| == |s| <==> !EndsWithNul(s)
  {
    TrimEndIsPrefix(s, IsNul);
  }

  lemma StrippedParts(name: Bytes)
    requires Representable(name)
    ensures var stored := Rejoin(TrimEnd(PrefixOf(name), IsNul), TrimEnd(BaseOf(name), IsNul));
            |stored| <= |name| && (stored == name <==> NameKept(name))
  {
    StripKeeps(BaseOf(name));
    StripKeeps(PrefixOf(name));
    if |name| > 100 {
      assert |name| == |PrefixOf(name)| + 1 + |BaseOf(name)|;
    }
  }

  lemma NameFromParts(name: Bytes, header: Bytes)
    requires Representable(name) && |header| == BLOCK
    requires header[..100] == BaseOf(name) + Zeros(100 - |BaseOf(name)|)
    requires header[345..500] == PrefixOf(name) + Zeros(155 - |PrefixOf(name)|)
    ensures |StoredName(header)| <= |name|
    ensures StoredName(header) == name <==> NameKept(name)
  {
    var base, prefix := BaseOf(name), PrefixOf(name);
    assert TrimEnd(header[..100], IsNul) == TrimEnd(base, IsNul) by {
      StripPadding(base, 100 - |base|);
    }
    assert TrimEnd(header[345..500], IsNul) == TrimEnd(prefix, IsNul) by {
      StripPadding(prefix, 155 - |prefix|);
    }
    StrippedParts(name);
  }

  /** A name comes back exactly when neither of its stored parts loses NULs and the prefix is not empty. */
  lemma {:induction false} NameInversion(h: HeaderInput, check: Bytes)
    requires Representable(h.name) && |check| == 8
    ensures |StoredName(HeaderWith(h, check))| <= |h.name|
    ensures StoredName(HeaderWith(h, check)) == h.name <==> NameKept(h.name)
  {
    HeaderNames(h, check);
    NameFromParts(h.name, HeaderWith(h, check));
  }

  /** `MAX_FILE_SIZE` is exactly what the eleven digits of the size field hold. */
  lemma {:induction false} SizeLimitIsElevenDigits()
    ensures MAX_FILE_SIZE + 1 == Pow8(11)
  {
    assert Pow8(7) == 2097152;
    assert Pow8(9) == 64 * Pow8(7);
    assert Pow8(11) == 64 * Pow8(9);
  }

  lemma BuiltChecksumValid(h: HeaderInput)
    requires Representable(h.name)
    ensures BuildHeader(h).Success? && ChecksumValid(BuildHeader(h).value)
  {
    var blank := HeaderWith(h, BLANKS);
    var check := CheckField(Sum(blank));
    HeaderFields(h, check);
    BlankedHeader(h, check);
    ChecksumFits(blank);
    assert check == Padded(6, Sum(blank)) + [NUL, SPACE];
    FieldTextOfDigits(Padded(6, Sum(blank)));
  }

  lemma NumbersInversion(h: HeaderInput)
    ensures ParseField(OctalField(8, h.mode % 4096)) == Some(h.mode % 4096)
    ensures var size := ParseField(OctalField(12, h.size));
            size.Some? && 0 <= size.value <= MAX_FILE_SIZE && (size == Some(h.size) <==> h.size <= MAX_FILE_SIZE)
    ensures ParseField(OctalField(12, h.mtime)) == Some(h.mtime) <==> h.mtime <= MAX_FILE_SIZE
  {
    SizeLimitIsElevenDigits();
    assert Pow8(7) == 2097152;
    OctalFieldInversion(8, h.mode % 4096);
    OctalFieldInversion(12, h.size);
    OctalFieldInversion(12, h.mtime);
  }

  /** Reading back a built header: every field, and exactly when the name and the numbers survive. */
  lemma {:induction false} HeaderInversion(h: HeaderInput)
    requires Representable(h.name)
    ensures BuildHeader(h).Success? && |BuildHeader(h).value| == BLOCK
    ensures var info := ParseHeader(BuildHeader(h).value);
            && info.checksumValid
            && info.typ == h.typ
            && info.mode == Some(h.mode % 4096)
            && info.size.Some? && 0 <= info.size.value <= MAX_FILE_SIZE
            && (info.size == Some(h.size) <==> h.size <= MAX_FILE_SIZE)
            && (info.mtime == Some(h.mtime) <==> h.mtime <= MAX_FILE_SIZE)
            && (info.name == h.name <==> NameKept(h.name))
            && |info.name| <= |h.name|
    ensures !AllZero(BuildHeader(h).value)
  {
    var check := CheckField(Sum(HeaderWith(h, BLANKS)));
    var header := HeaderWith(h, check);
    HeaderFields(h, check);
    NameInversion(h, check);
    BuiltChecksumValid(h);
    NumbersInversion(h);
    assert header[257] != NUL;
  }

  // ----- in place -----

  method SumBytes(buffer: array<Byte>) returns (sum: nat)
    ensures sum == Sum(buffer[..])
  {
    sum := 0;
    for i := 0 to buffer.Length
      invariant sum == Sum(buffer[..i])
    {
      assert buffer[..i + 1][..i] == buffer[..i];
      sum := sum + buffer[i];
    }
    assert buffer[..buffer.Length] == buffer[..];
  }

  method CopyInto(buffer: array<Byte>, offset: nat, part: Bytes)
    requires offset + |part| <= buffer.Length
    modifies buffer
    ensures forall i :: offset <= i < offset + |part| ==> buffer[i] == part[i - offset]
    ensures forall i :: 0 <= i < buffer.Length && !(offset <= i < offset + |part|) ==> buffer[i] == old(buffer[i])
  {
    for i := 0 to |part|
      invariant forall j :: 0 <= j < i ==> buffer[offset + j] == part[j]
      invariant forall j :: 0 <= j < buffer.Length && !(offset <= j < offset + i) ==> buffer[j] == old(buffer[j])
    {
      buffer[offset + i] := part[i];
    }
  }

  /** Every field but the checksum, over a zeroed buffer; the checksum field holds blanks. */
  method FillFields(header: array<Byte>, h: HeaderInput, base: Bytes, prefix: Bytes)
    requires header.Length == BLOCK && AllZero(header[..])
    requires Representable(h.name) && base == BaseOf(h.name) && prefix == PrefixOf(h.name)
    modifies header
    ensures header[..] == HeaderWith(h, BLANKS)
  {
    assert forall i :: 0 <= i < BLOCK ==> header[i] == header[..][i];
    CopyInto(header, 0, base);
    WriteOctal(header, 100, 8, h.mode % 4096);
    WriteOctal(header, 108, 8, 0);
    WriteOctal(header, 116, 8, 0);
    WriteOctal(header, 124, 12, h.size);
    WriteOctal(header, 136, 12, h.mtime);
    CopyInto(header, 148, BLANKS);
    header[156] := h.typ;
    CopyInto(header, 257, MAGIC);
    CopyInto(header, 345, prefix);
    assert forall i :: 0 <= i < BLOCK ==> header[i] == HeaderByte(h, BLANKS, i);
  }

  method BuildTarHeader(h: HeaderInput) returns (r: Result<array<Byte>, TarError>)
    ensures r.Success? <==> BuildHeader(h).Success?
    ensures r.Success? ==> fresh(r.value) && r.value[..] == BuildHeader(h).value
    ensures r.Failure? ==> BuildHeader(h) == Failure(r.error)
  {
    var base, prefix := h.name, [];
    if |base| > 100 {
      var split := FindSplit(h.name, |h.name|);
      if split.None? {
        return Failure(NotRepresentable);
      }
      base := h.name[split.value + 1..];
      prefix := h.name[..split.value];
    }
    var header := new Byte[BLOCK](_ => NUL);
    FillFields(header, h, base, prefix);
    var sum := SumBytes(header);
    CopyInto(header, 148, Padded(6, sum)[..6]);
    header[154] := NUL;
    header[155] := SPACE;
    assert header[..] == HeaderWith(h, CheckField(sum));
    r := Success(header);
  }

  method ParseTarHeader(header: array<Byte>) returns (info: HeaderInfo)
    requires header.Length == BLOCK
    ensures info == ParseHeader(header[..])
  {
    hide ParseField, FieldText, Padded, Sum, TrimEnd, Rejoin;
    var bytes := header[..];
    var base := TrimEnd(bytes[..100], IsNul);
    var prefix := TrimEnd(bytes[345..500], IsNul);
    var name := Rejoin(prefix, base);
    var size := ParseField(bytes[124..136]);
    var mtime := ParseField(bytes[136..148]);
    var mode := ParseField(bytes[100..108]);
    var stored := FieldText(bytes[148..156]);
    var saved := new Byte[BLOCK](i requires 0 <= i < BLOCK => bytes[i]);
    CopyInto(saved, 148, BLANKS);
    var sum := SumBytes(saved);
    assert saved[..] == Blanked(bytes);
    info := HeaderInfo(name, size, mtime, mode, bytes[156], stored == Padded(6, sum));
  }
}
