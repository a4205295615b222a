/** Escaping of ServerQuery values, and the key=value line parser. */
module Escape {
  import opened Sequences

  const BEL: char := 7 as char
  const BACKSPACE: char := 8 as char
  const TAB: char := 9 as char
  const LF: char := 10 as char
  const VT: char := 11 as char
  const FF: char := 12 as char
  const CR: char := 13 as char
  const ESC: char := '\\'
  const PROTO: string := "__proto__"

  // ----- escaping: eleven replacements, one after the other -----

  function ReplaceAll(s: string, c: char, sub: string): string {
    if s == "" then "" else (if s[0] == c then sub else [s[0]]) + ReplaceAll(s[1..], c, sub)
  }

  function EscapeQueryValue(value: string): string {
    var s0 := ReplaceAll(value, ESC, [ESC, ESC]);
    var s1 := ReplaceAll(s0, '/', [ESC, '/']);
    var s2 := ReplaceAll(s1, BEL, [ESC, 'a']);
    var s3 := ReplaceAll(s2, BACKSPACE, [ESC, 'b']);
    var s4 := ReplaceAll(s3, FF, [ESC, 'f']);
    var s5 := ReplaceAll(s4, LF, [ESC, 'n']);
    var s6 := ReplaceAll(s5, CR, [ESC, 'r']);
    var s7 := ReplaceAll(s6, TAB, [ESC, 't']);
    var s8 := ReplaceAll(s7, VT, [ESC, 'v']);
    var s9 := ReplaceAll(s8, ' ', [ESC, 's']);
    ReplaceAll(s9, '|', [ESC, 'p'])
  }

  /** The letter that follows the backslash in place of `c`, if `c` is escaped at all. */
  function EscapeLetter(c: char): Option<char> {
    if c == ESC then Some(ESC)
    else if c == '/' then Some('/')
    else if c == BEL then Some('a')
    else if c == BACKSPACE then Some('b')
    else if c == FF then Some('f')
    else if c == LF then Some('n')
    else if c == CR then Some('r')
    else if c == TAB then Some('t')
    else if c == VT then Some('v')
    else if c == ' ' then Some('s')
    else if c == '|' then Some('p')
    else None
  }

  function EscapeChar(c: char): (e: string)
    ensures 1 <= |e| <= 2
  {
    match EscapeLetter(c)
    case None => [c]
    case Some(letter) => [ESC, letter]
  }

  /** Escaping as one pass over the characters. */
  function EscapeEach(s: string): string {
    if s == "" then "" else EscapeChar(s[0]) + EscapeEach(s[1..])
  }

  lemma {:induction false} ReplaceConcat(a: string, b: string, c: char, sub: string)
    ensures ReplaceAll(a + b, c, sub) == ReplaceAll(a, c, sub) + ReplaceAll(b, c, sub)
  {
    if a == "" {
      assert a + b == b;
    } else {
      assert (a + b)[1..] == a[1..] + b;
      ReplaceConcat(a[1..], b, c, sub);
    }
  }

  lemma EscapeConcat(a: string, b: string)
    ensures EscapeQueryValue(a + b) == EscapeQueryValue(a) + EscapeQueryValue(b)
  {
    hide ReplaceAll;
    var a0, b0 := ReplaceAll(a, ESC, [ESC, ESC]), ReplaceAll(b, ESC, [ESC, ESC]);
    ReplaceConcat(a, b, ESC, [ESC, ESC]);
    var a1, b1 := ReplaceAll(a0, '/', [ESC, '/']), ReplaceAll(b0, '/', [ESC, '/']);
    ReplaceConcat(a0, b0, '/', [ESC, '/']);
    var a2, b2 := ReplaceAll(a1, BEL, [ESC, 'a']), ReplaceAll(b1, BEL, [ESC, 'a']);
    ReplaceConcat(a1, b1, BEL, [ESC, 'a']);
    var a3, b3 := ReplaceAll(a2, BACKSPACE, [ESC, 'b']), ReplaceAll(b2, BACKSPACE, [ESC, 'b']);
    ReplaceConcat(a2, b2, BACKSPACE, [ESC, 'b']);
    var a4, b4 := ReplaceAll(a3, FF, [ESC, 'f']), ReplaceAll(b3, FF, [ESC, 'f']);
    ReplaceConcat(a3, b3, FF, [ESC, 'f']);
    var a5, b5 := ReplaceAll(a4, LF, [ESC, 'n']), ReplaceAll(b4, LF, [ESC, 'n']);
    ReplaceConcat(a4, b4, LF, [ESC, 'n']);
    var a6, b6 := ReplaceAll(a5, CR, [ESC, 'r']), ReplaceAll(b5, CR, [ESC, 'r']);
    ReplaceConcat(a5, b5, CR, [ESC, 'r']);
    var a7, b7 := ReplaceAll(a6, TAB, [ESC, 't']), ReplaceAll(b6, TAB, [ESC, 't']);
    ReplaceConcat(a6, b6, TAB, [ESC, 't']);
    var a8, b8 := ReplaceAll(a7, VT, [ESC, 'v']), ReplaceAll(b7, VT, [ESC, 'v']);
    ReplaceConcat(a7, b7, VT, [ESC, 'v']);
    var a9, b9 := ReplaceAll(a8, ' ', [ESC, 's']), ReplaceAll(b8, ' ', [ESC, 's']);
    ReplaceConcat(a8, b8, ' ', [ESC, 's']);
    ReplaceConcat(a9, b9, '|', [ESC, 'p']);
  }

  /** A string that does not hold the character is left alone; a lone character is replaced as a whole. */
  lemma {:induction false} ReplaceNothing(s: string, c: char, sub: string)
    requires c !in s
    ensures ReplaceAll(s, c, sub) == s
  {
    if s != "" {
      ReplaceNothing(s[1..], c, sub);
    }
  }

  lemma ReplaceLone(c: char)
    ensures forall d: char, sub: string {:trigger ReplaceAll([c], d, sub)} ::
              ReplaceAll([c], d, sub) == if c == d then sub else [c]
  {
    assert [c][1..] == "";
  }

  lemma ReplaceAfter(letter: char)
    ensures forall d: char, sub: string {:trigger ReplaceAll([ESC, letter], d, sub)} ::
              d != ESC && d != letter ==> ReplaceAll([ESC, letter], d, sub) == [ESC, letter]
  {
    forall d: char, sub: string | d != ESC && d != letter
      ensures ReplaceAll([ESC, letter], d, sub) == [ESC, letter]
    {
      ReplaceNothing([ESC, letter], d, sub);
    }
  }

  /** Passes made before a character's own leave it alone, and those made after leave its replacement alone. */
  lemma EscapeOne(c: char)
    ensures EscapeQueryValue([c]) == EscapeChar(c)
  {
    hide ReplaceAll;
    ReplaceLone(c);
    if EscapeLetter(c).Some? {
      ReplaceAfter(EscapeLetter(c).value);
    }
  }

  /** The eleven passes come to one per-character map. */
  lemma {:induction false} EscapeIsEach(s: string)
    ensures EscapeQueryValue(s) == EscapeEach(s)
  {
    if s == "" {
    } else {
      hide EscapeQueryValue;
      EscapeIsEach(s[1..]);
      EscapeOne(s[0]);
      EscapeConcat([s[0]], s[1..]);
      assert s == [s[0]] + s[1..];
    }
  }

  // ----- unescaping -----

  function UnescapeLetter(letter: char): string {
    if letter == 's' then " "
    else if letter == 'p' then "|"
    else if letter == '/' then "/"
    else if letter == ESC then [ESC]
    else if letter == 'a' then [BEL]
    else if letter == 'b' then [BACKSPACE]
    else if letter == 'f' then [FF]
    else if letter == 'n' then [LF]
    else if letter == 'r' then [CR]
    else if letter == 't' then [TAB]
    else if letter == 'v' then [VT]
    else [ESC, letter]
  }

  function Unescape(s: string): string {
    if s == "" then ""
    else if s[0] != ESC || |s| == 1 then [s[0]] + Unescape(s[1..])
    else UnescapeLetter(s[1]) + Unescape(s[2..])
  }

  lemma UnescapeStep(s: string)
    ensures Unescape(s) ==
              if s == "" then ""
              else if s[0] != ESC || |s| == 1 then [s[0]] + Unescape(s[1..])
              else UnescapeLetter(s[1]) + Unescape(s[2..])
  {
  }

  /** The inverse of `EscapeLetter`: the character the letter stands for, or the pair as it is if it stands for none. */
  method DecodeLetter(next: char) returns (text: string)
    ensures forall c :: EscapeLetter(c) == Some(next) ==> text == [c]
    ensures (forall c :: EscapeLetter(c) != Some(next)) ==> text == [ESC, next]
    ensures text == UnescapeLetter(next)
  {
    text := "";
    if next == 's' { text := " "; }
    else if next == 'p' { text := "|"; }
    else if next == '/' { text := "/"; }
    else if next == ESC { text := [ESC]; }
    else if next == 'a' { text := [BEL]; }
    else if next == 'b' { text := [BACKSPACE]; }
    else if next == 'f' { text := [FF]; }
    else if next == 'n' { text := [LF]; }
    else if next == 'r' { text := [CR]; }
    else if next == 't' { text := [TAB]; }
    else if next == 'v' { text := [VT]; }
    else { text := [ESC, next]; }
  }

  method UnescapeQueryValue(value: string) returns (out: string)
    ensures out == Unescape(value)
  {
    hide Unescape, UnescapeLetter;
    out := "";
    var i := 0;
    assert value[0..] == value;
    while i < |value|
      invariant i <= |value|
      invariant Unescape(value) == out + Unescape(value[i..])
    {
      var ch := value[i];
      ghost var rest := value[i..];
      UnescapeStep(rest);
      if ch != ESC || i + 1 >= |value| {
        assert rest[1..] == value[i + 1..];
        assert out + ([ch] + Unescape(value[i + 1..])) == out + [ch] + Unescape(value[i + 1..]);
        out := out + [ch];
        i := i + 1;
        continue;
      }
      var next := value[i + 1];
      assert rest[1] == next && rest[2..] == value[i + 2..];
      var text := DecodeLetter(next);
      assert out + (text + Unescape(value[i + 2..])) == out + text + Unescape(value[i + 2..]);
      out := out + text;
      i := i + 2;
    }
    assert value[i..] == "";
    UnescapeStep("");
  }

  /** Unescaping undoes escaping, on every string. */
  lemma {:induction false} UnescapeEscape(s: string)
    ensures Unescape(EscapeQueryValue(s)) == s
  {
    hide *;
    EscapeIsEach(s);
    UnescapeEach(s);
  }

  lemma UnescapeOne(c: char, rest: string)
    ensures Unescape(EscapeChar(c) + rest) == [c] + Unescape(rest)
  {
    hide Unescape;
    var e := EscapeChar(c);
    assert (e + rest)[|e|..] == rest && (e + rest)[..|e|] == e;
    UnescapeStep(e + rest);
  }

  lemma {:induction false} UnescapeEach(s: string)
    ensures Unescape(EscapeEach(s)) == s
  {
    if s != "" {
      hide Unescape, EscapeChar;
      UnescapeEach(s[1..]);
      UnescapeOne(s[0], EscapeEach(s[1..]));
      assert s == [s[0]] + s[1..];
    }
  }

  predicate IsControlOrSeparator(c: char) {
    c in {BEL, BACKSPACE, TAB, LF, VT, FF, CR, ' ', '|'}
  }

  /** The output is at most twice as long, and holds no raw separator or control character of the escaped set. */
  lemma {:induction false} EscapedIsClean(s: string)
    ensures |s| <= |EscapeQueryValue(s)| <= 2 * |s|
    ensures forall c :: c in EscapeQueryValue(s) ==> !IsControlOrSeparator(c)
  {
    hide EscapeQueryValue;
    EscapeIsEach(s);
    if s != "" {
      EscapeIsEach(s[1..]);
      EscapedIsClean(s[1..]);
    }
  }

  // ----- key=value lines -----

  type Record = map<string, string>

  /** `out[key] = value` on a plain object: assigning a string to `__proto__` stores nothing. */
  function Put(out: Record, key: string, value: string): Record {
    if key == PROTO then out else out[key := value]
  }

  datatype Scan = Scan(out: Record, key: string, value: string, inValue: bool) {
    function Push(text: string): Scan {
      if inValue then this.(value := value + text) else this.(key := key + text)
    }

    function Commit(): Record {
      Put(out, Unescape(key), Unescape(value))
    }

    function Finish(): Record {
      if |key| > 0 || |value| > 0 then Commit() else out
    }
  }

  const IDLE: Scan := Scan(map[], "", "", false)

  function ScanLine(line: string, st: Scan): Record
    decreases |line|
  {
    if line == "" then st.Finish()
    else if line[0] == ESC && |line| > 1 then ScanLine(line[2..], st.Push(line[..2]))
    else if line[0] == '=' && !st.inValue then ScanLine(line[1..], st.(inValue := true))
    else if line[0] == ' ' && st.inValue then ScanLine(line[1..], Scan(st.Commit(), "", "", false))
    else ScanLine(line[1..], st.Push(line[..1]))
  }

  function ParseLine(line: string): Record { ScanLine(line, IDLE) }

  method ParseKeyValueLine(line: string) returns (out: Record)
    ensures out == ParseLine(line)
  {
    out := map[];
    var key, value, inValue := "", "", false;
    var i := 0;
    assert line[0..] == line;
    while i < |line|
      invariant i <= |line|
      invariant ParseLine(line) == ScanLine(line[i..], Scan(out, key, value, inValue))
    {
      hide Unescape, Put;
      var ch := line[i];
      ghost var rest := line[i..];
      assert rest[1..] == line[i + 1..] && rest[..1] == [ch];
      if ch == ESC && i + 1 < |line| {
        var escaped := line[i..i + 2];
        assert rest[..2] == escaped && rest[2..] == line[i + 2..];
        if inValue {
          value := value + escaped;
        } else {
          key := key + escaped;
        }
        i := i + 2;
        continue;
      }
      i := i + 1;
      if ch == '=' && !inValue {
        inValue := true;
        continue;
      }
      if ch == ' ' && inValue {
        var k := UnescapeQueryValue(key);
        var v := UnescapeQueryValue(value);
        out := Put(out, k, v);
        key, value, inValue := "", "", false;
        continue;
      }
      if inValue {
        value := value + [ch];
      } else {
        key := key + [ch];
      }
    }
    assert line[i..] == "";
    if |key| > 0 || |value| > 0 {
      var k := UnescapeQueryValue(key);
      var v := UnescapeQueryValue(value);
      out := Put(out, k, v);
    }
  }

  // ----- printing and reading back -----

  datatype Field = Field(key: string, value: string)

  predicate IsWord(c: char) {
    'a' <= c <= 'z' || 'A' <= c <= 'Z' || '0' <= c <= '9' || c == '_'
  }

  /** In ASCII, letters, digits and the underscore. */
  lemma WordCharsAre(c: char)
    ensures IsWord(c) <==> var n := c as int; 65 <= n < 65 + 26 || 97 <= n < 97 + 26 || 48 <= n < 48 + 10 || n == 95
  {
  }

  predicate ValidKey(key: string) {
    key != "" && forall i :: 0 <= i < |key| ==> IsWord(key[i])
  }

  predicate ValidFields(fields: seq<Field>) {
    forall i :: 0 <= i < |fields| ==> ValidKey(fields[i].key)
  }

  function PrintField(f: Field): string {
    f.key + "=" + EscapeQueryValue(f.value)
  }

  function PrintFields(fields: seq<Field>): (ps: seq<string>)
    ensures |ps| == |fields| && forall i :: 0 <= i < |fields| ==> ps[i] == PrintField(fields[i])
  {
    seq(|fields|, i requires 0 <= i < |fields| => PrintField(fields[i]))
  }

  function PrintLine(fields: seq<Field>): string {
    JoinWith(PrintFields(fields), ' ')
  }

  /** What a plain object holds after the fields are assigned in order. */
  function Assigned(fields: seq<Field>, out: Record): Record {
    if fields == [] then out else Assigned(fields[1..], Put(out, fields[0].key, fields[0].value))
  }

  lemma {:induction false} ScanKey(key: string, rest: string, st: Scan)
    requires !st.inValue && forall i :: 0 <= i < |key| ==> IsWord(key[i])
    ensures ScanLine(key + "=" + rest, st) == ScanLine(rest, st.(key := st.key + key, inValue := true))
    decreases |key|
  {
    hide Unescape, Put;
    var line := key + "=" + rest;
    if key == "" {
      assert line[1..] == rest && line[0] == '=';
      assert st.key + key == st.key;
    } else {
      assert line[1..] == key[1..] + "=" + rest && line[..1] == [key[0]];
      ScanKey(key[1..], rest, st.Push([key[0]]));
      assert st.key + [key[0]] + key[1..] == st.key + key;
    }
  }

  lemma ScanEscaped(c: char, rest: string, st: Scan)
    requires st.inValue
    ensures ScanLine(EscapeChar(c) + rest, st) == ScanLine(rest, st.Push(EscapeChar(c)))
  {
    var e := EscapeChar(c);
    assert (e + rest)[|e|..] == rest && (e + rest)[..|e|] == e;
  }

  lemma {:induction false} ScanValue(value: string, rest: string, st: Scan)
    requires st.inValue
    ensures ScanLine(EscapeEach(value) + rest, st) == ScanLine(rest, st.(value := st.value + EscapeEach(value)))
    decreases |value|
  {
    hide ScanLine, EscapeChar;
    if value == "" {
      assert EscapeEach(value) + rest == rest;
      assert st.value + "" == st.value;
    } else {
      var e, more := EscapeChar(value[0]), EscapeEach(value[1..]);
      assert EscapeEach(value) + rest == e + (more + rest);
      ScanEscaped(value[0], more + rest, st);
      ScanValue(value[1..], rest, st.Push(e));
      assert st.value + e + more == st.value + EscapeEach(value);
    }
  }

  lemma {:induction false} PlainUnescape(key: string)
    requires forall i :: 0 <= i < |key| ==> IsWord(key[i])
    ensures Unescape(key) == key
  {
    if key != "" {
      PlainUnescape(key[1..]);
    }
  }

  lemma ScanField(f: Field, rest: string, out: Record)
    requires ValidKey(f.key)
    ensures ScanLine(PrintField(f) + rest, Scan(out, "", "", false))
            == ScanLine(rest, Scan(out, f.key, EscapeQueryValue(f.value), true))
  {
    hide EscapeQueryValue, ScanLine;
    var v := EscapeQueryValue(f.value);
    assert PrintField(f) + rest == f.key + "=" + (v + rest);
    ScanKey(f.key, v + rest, Scan(out, "", "", false));
    EscapeIsEach(f.value);
    ScanValue(f.value, rest, Scan(out, f.key, "", true));
    assert "" + f.key == f.key && "" + v == v;
  }

  lemma CommitField(f: Field, out: Record)
    requires ValidKey(f.key)
    ensures Scan(out, f.key, EscapeQueryValue(f.value), true).Commit() == Put(out, f.key, f.value)
  {
    hide EscapeQueryValue, Put;
    PlainUnescape(f.key);
    UnescapeEscape(f.value);
  }

  lemma LineCons(fields: seq<Field>)
    requires fields != []
    ensures PrintLine(fields) ==
              if |fields| == 1 then PrintField(fields[0]) else PrintField(fields[0]) + " " + PrintLine(fields[1..])
  {
    hide PrintField;
    assert PrintFields(fields)[1..] == PrintFields(fields[1..]);
  }

  lemma ScanNext(f: Field, more: string, out: Record)
    requires ValidKey(f.key)
    ensures ScanLine(PrintField(f) + (" " + more), Scan(out, "", "", false))
              == ScanLine(more, Scan(Put(out, f.key, f.value), "", "", false))
    ensures ScanLine(PrintField(f), Scan(out, "", "", false)) == Put(out, f.key, f.value)
  {
    hide PrintField, EscapeQueryValue, Put;
    CommitField(f, out);
    ScanField(f, " " + more, out);
    assert (" " + more)[1..] == more;
    ScanField(f, "", out);
    assert PrintField(f) + "" == PrintField(f);
  }

  lemma {:induction false} ScanFields(fields: seq<Field>, out: Record)
    requires ValidFields(fields)
    ensures ScanLine(PrintLine(fields), Scan(out, "", "", false)) == Assigned(fields, out)
    decreases |fields|
  {
    hide PrintField, EscapeQueryValue, Put, PrintLine, ScanLine;
    if fields == [] {
      ScanNothing(out);
    } else {
      var f, rest := fields[0], fields[1..];
      LineCons(fields);
      ScanNext(f, PrintLine(rest), out);
      if rest != [] {
        assert PrintField(f) + (" " + PrintLine(rest)) == PrintLine(fields);
        ScanFields(rest, Put(out, f.key, f.value));
      }
    }
  }

  lemma ScanNothing(out: Record)
    ensures ScanLine(PrintLine([]), Scan(out, "", "", false)) == out
  {
  }

  /** A printed line reads back as its fields, assigned in order. */
  lemma {:induction false} ParsePrinted(fields: seq<Field>)
    requires ValidFields(fields)
    ensures ParseLine(PrintLine(fields)) == Assigned(fields, map[])
  {
    ScanFields(fields, map[]);
  }

  // ----- lines this program would not print -----

  lemma {:induction false} NothingToUnescape(s: string)
    requires ESC !in s
    ensures Unescape(s) == s
  {
    if s != "" {
      assert s[0] in s;
      NothingToUnescape(s[1..]);
    }
  }

  lemma {:induction false} ScanRawKey(key: string, rest: string, st: Scan)
    requires !st.inValue && ESC !in key && '=' !in key
    ensures ScanLine(key + rest, st) == ScanLine(rest, st.(key := st.key + key))
    decreases |key|
  {
    hide Unescape, Put;
    if key == "" {
      assert key + rest == rest && st.key + key == st.key;
    } else {
      var line := key + rest;
      assert key[0] in key;
      assert line[1..] == key[1..] + rest && line[..1] == [key[0]];
      ScanRawKey(key[1..], rest, st.Push([key[0]]));
      assert st.key + [key[0]] + key[1..] == st.key + key;
    }
  }

  lemma {:induction false} ScanRawValue(value: string, rest: string, st: Scan)
    requires st.inValue && ESC !in value && ' ' !in value
    ensures ScanLine(value + rest, st) == ScanLine(rest, st.(value := st.value + value))
    decreases |value|
  {
    hide Unescape, Put;
    if value == "" {
      assert value + rest == rest && st.value + value == st.value;
    } else {
      var line := value + rest;
      assert value[0] in value;
      assert line[1..] == value[1..] + rest && line[..1] == [value[0]];
      ScanRawValue(value[1..], rest, st.Push([value[0]]));
      assert st.value + [value[0]] + value[1..] == st.value + value;
    }
  }

  /** A key runs to the first `=`, spaces and all; its value from there to the next space, further `=` and all. Neither
      needs to be there: only at the end of the line a field without both is none. */
  lemma RawField(key: string, value: string, rest: string, out: Record)
    requires ESC !in key && '=' !in key && ESC !in value && ' ' !in value
    ensures ScanLine(key + "=" + value + " " + rest, Scan(out, "", "", false))
              == ScanLine(rest, Scan(Put(out, key, value), "", "", false))
    ensures ScanLine(key + "=" + value, Scan(out, "", "", false))
              == if key == "" && value == "" then out else Put(out, key, value)
  {
    hide Unescape, Put, ScanLine;
    NothingToUnescape(key);
    NothingToUnescape(value);
    var start := Scan(out, "", "", false);
    assert key + "=" + value + " " + rest == key + ("=" + (value + (" " + rest)));
    assert key + "=" + value == key + ("=" + (value + ""));
    forall more: string
      ensures ScanLine(key + ("=" + (value + more)), start) == ScanLine(more, Scan(out, key, value, true))
    {
      ScanRawKey(key, "=" + (value + more), start);
      assert "" + key == key && "" + value == value;
      ScanEquals(value + more, Scan(out, key, "", false));
      ScanRawValue(value, more, Scan(out, key, "", true));
    }
    ScanBreak(rest, Scan(out, key, value, true));
  }

  lemma ScanEquals(more: string, st: Scan)
    requires !st.inValue
    ensures ScanLine("=" + more, st) == ScanLine(more, st.(inValue := true))
  {
    assert ("=" + more)[1..] == more;
  }

  lemma ScanBreak(rest: string, st: Scan)
    requires st.inValue
    ensures ScanLine(" " + rest, st) == ScanLine(rest, Scan(st.Commit(), "", "", false))
    ensures ScanLine("", st) == st.Finish()
  {
    assert (" " + rest)[1..] == rest;
  }

  /** Text without any `=` is one key without a value. */
  lemma RawKey(key: string, out: Record)
    requires ESC !in key && '=' !in key
    ensures ScanLine(key, Scan(out, "", "", false)) == if key == "" then out else Put(out, key, "")
  {
    hide Unescape, Put;
    NothingToUnescape(key);
    NothingToUnescape("");
    ScanRawKey(key, "", Scan(out, "", "", false));
    assert key + "" == key && "" + key == key;
  }

  // ----- what a record holds -----

  predicate DistinctKeys(fields: seq<Field>) {
    forall i, j :: 0 <= i < j < |fields| ==> fields[i].key != fields[j].key
  }

  /** The record holds each field under its key, and nothing else. */
  predicate Holds(r: Record, fields: seq<Field>) {
    && (forall i :: 0 <= i < |fields| ==> fields[i].key in r && r[fields[i].key] == fields[i].value)
    && (forall k :: k in r ==> exists i :: 0 <= i < |fields| && fields[i].key == k)
  }

  lemma {:induction false} AssignedContent(fields: seq<Field>, out: Record, k: string)
    requires DistinctKeys(fields)
    ensures k in Assigned(fields, out) <==>
              k in out || (k != PROTO && exists i :: 0 <= i < |fields| && fields[i].key == k)
    ensures forall i :: 0 <= i < |fields| && fields[i].key == k && k != PROTO ==>
                          Assigned(fields, out)[k] == fields[i].value
    ensures k in out && (k == PROTO || forall i :: 0 <= i < |fields| ==> fields[i].key != k) ==>
              Assigned(fields, out)[k] == out[k]
    decreases |fields|
  {
    if fields != [] {
      var rest := fields[1..];
      AssignedContent(rest, Put(out, fields[0].key, fields[0].value), k);
      assert forall i :: 0 < i < |fields| ==> fields[i] == rest[i - 1];
      assert forall i :: 0 <= i < |rest| ==> rest[i] == fields[i + 1];
    }
  }

  /** Distinct fields are all held exactly when none is called `__proto__`. */
  lemma {:induction false} AssignedHolds(fields: seq<Field>)
    requires DistinctKeys(fields)
    ensures Holds(Assigned(fields, map[]), fields) <==>
              forall i :: 0 <= i < |fields| ==> fields[i].key != PROTO
  {
    var r := Assigned(fields, map[]);
    forall k
      ensures k in r <==> k != PROTO && exists i :: 0 <= i < |fields| && fields[i].key == k
      ensures forall i :: 0 <= i < |fields| && fields[i].key == k && k != PROTO ==> r[k] == fields[i].value
    {
      AssignedContent(fields, map[], k);
    }
    hide Assigned;
  }
}
