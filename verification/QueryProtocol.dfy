/** ServerQuery text: building a command line, and parsing a response. */
module QueryProtocol {
  import opened Sequences
  import opened Escape

  /** The white space of JavaScript's `trim` and `\s`. */
  predicate IsSpace(c: char) {
    var n := c as int;
    9 <= n <= 13 || n == 32 || n == 0xA0 || n == 0x1680 || 0x2000 <= n <= 0x200A
    || n == 0x2028 || n == 0x2029 || n == 0x202F || n == 0x205F || n == 0x3000 || n == 0xFEFF
  }

  /** One by one, as ECMA-262 lists white space and line terminators. */
  lemma SpacesAre(c: char)
    ensures IsSpace(c) <==>
              c as int in {0x9, 0xA, 0xB, 0xC, 0xD, 0x20, 0xA0, 0x1680, 0x2000, 0x2001, 0x2002, 0x2003, 0x2004, 0x2005,
                           0x2006, 0x2007, 0x2008, 0x2009, 0x200A, 0x2028, 0x2029, 0x202F, 0x205F, 0x3000, 0xFEFF}
  {
  }

  const NOTIFY: string := "notify"
  const ERROR: string := "error"
  const ERROR_LINE: string := "error "

  // ----- commands -----

  datatype ParamValue = Text(text: string) | Flag(on: bool) | Number(digits: string)

  datatype Param = Param(key: string, value: ParamValue)

  datatype CommandError = InvalidName | InvalidParameter(key: string)

  function Rendered(v: ParamValue): string {
    match v
    case Text(s) => s
    case Flag(on) => if on then "1" else "0"
    case Number(digits) => digits
  }

  function FieldOf(p: Param): Field { Field(p.key, Rendered(p.value)) }

  function FieldsOf(ps: seq<Param>): (fs: seq<Field>)
    ensures |fs| == |ps| && forall i :: 0 <= i < |ps| ==> fs[i] == FieldOf(ps[i])
  {
    seq(|ps|, i requires 0 <= i < |ps| => FieldOf(ps[i]))
  }

  predicate ValidName(name: string) {
    name != "" && 'a' <= name[0] <= 'z' &&
    forall i :: 0 <= i < |name| ==> 'a' <= name[i] <= 'z' || '0' <= name[i] <= '9' || name[i] == '_'
  }

  predicate Accepted(name: string, ps: seq<Param>) {
    ValidName(name) && forall i :: 0 <= i < |ps| ==> ValidKey(ps[i].key)
  }

  /** A command name is a key that starts with a letter and has no upper-case letter. */
  lemma NameIff(name: string)
    ensures ValidName(name) <==>
              && ValidKey(name) && name[0] as int > 96
              && forall i :: 0 <= i < |name| ==> !(65 <= name[i] as int <= 90)
  {
    if ValidKey(name) {
      assert IsWord(name[0]);
    }
    forall i | 0 <= i < |name| ensures IsWord(name[i]) <==>
        'a' <= name[i] <= 'z' || '0' <= name[i] <= '9' || name[i] == '_' || 65 <= name[i] as int <= 90 {
    }
  }

  /** The text after the command name, without the newline. */
  function Arguments(ps: seq<Param>): string { PrintLine(FieldsOf(ps)) }

  method BuildCommand(name: string, ps: seq<Param>) returns (r: Result<string, CommandError>)
    ensures r.Success? <==> Accepted(name, ps)
    ensures r.Success? ==> r.value == (if ps == [] then name else name + " " + Arguments(ps)) + [LF]
    ensures !ValidName(name) ==> r == Failure(InvalidName)
    ensures ValidName(name) && r.Failure? ==>
              exists i :: 0 <= i < |ps| && r.error == InvalidParameter(ps[i].key) && !ValidKey(ps[i].key)
                          && forall j :: 0 <= j < i ==> ValidKey(ps[j].key)
  {
    if !ValidName(name) {
      return Failure(InvalidName);
    }
    hide EscapeQueryValue, ValidName;
    var parts: seq<string> := [name];
    for i := 0 to |ps|
      invariant forall j :: 0 <= j < i ==> ValidKey(ps[j].key)
      invariant |parts| == i + 1 && parts[0] == name
      invariant forall j :: 0 <= j < i ==> parts[j + 1] == PrintField(FieldOf(ps[j]))
    {
      if !ValidKey(ps[i].key) {
        return Failure(InvalidParameter(ps[i].key));
      }
      var rendered := match ps[i].value
        case Flag(on) => if on then "1" else "0"
        case Text(s) => s
        case Number(digits) => digits;
      parts := parts + [ps[i].key + "=" + EscapeQueryValue(rendered)];
    }
    assert parts == [name] + PrintFields(FieldsOf(ps));
    assert parts[1..] == PrintFields(FieldsOf(ps));
    assert ps != [] ==> JoinWith(parts, ' ') == name + " " + Arguments(ps);
    r := Success(JoinWith(parts, ' ') + [LF]);
  }

  function Count(s: string, c: char): nat {
    if s == "" then 0 else (if s[0] == c then 1 else 0) + Count(s[1..], c)
  }

  lemma {:induction false} CountConcat(a: string, b: string, c: char)
    ensures Count(a + b, c) == Count(a, c) + Count(b, c)
  {
    if a == "" {
      assert a + b == b;
    } else {
      assert (a + b)[1..] == a[1..] + b;
      CountConcat(a[1..], b, c);
    }
  }

  lemma {:induction false} CountAbsent(s: string, c: char)
    requires c !in s
    ensures Count(s, c) == 0
  {
    if s != "" {
      CountAbsent(s[1..], c);
    }
  }

  lemma FieldIsClean(f: Field)
    requires ValidKey(f.key)
    ensures ' ' !in PrintField(f) && LF !in PrintField(f) && '|' !in PrintField(f)
  {
    hide EscapeQueryValue;
    EscapedIsClean(f.value);
    forall c | c in f.key ensures c != ' ' && c != LF && c != '|' {
      var i :| 0 <= i < |f.key| && f.key[i] == c;
      assert IsWord(f.key[i]);
    }
  }

  lemma {:induction false} ArgumentsAreClean(fields: seq<Field>)
    requires ValidFields(fields)
    ensures LF !in PrintLine(fields) && '|' !in PrintLine(fields)
    ensures Count(PrintLine(fields), ' ') == if fields == [] then 0 else |fields| - 1
    decreases |fields|
  {
    hide PrintField;
    if fields != [] {
      FieldIsClean(fields[0]);
      CountAbsent(PrintField(fields[0]), ' ');
      if |fields| > 1 {
        var rest := fields[1..];
        ArgumentsAreClean(rest);
        assert PrintFields(fields)[1..] == PrintFields(rest);
        CountConcat(PrintField(fields[0]) + [' '], PrintLine(rest), ' ');
        CountConcat(PrintField(fields[0]), [' '], ' ');
        assert Count([' '], ' ') == 1;
      }
    }
  }

  /** An accepted command is one line, closed by its only newline, with one space before each parameter. */
  lemma {:induction false} CommandIsOneLine(name: string, ps: seq<Param>)
    requires Accepted(name, ps)
    ensures var body := if ps == [] then name else name + " " + Arguments(ps);
            LF !in body && Count(body, ' ') == |ps|
  {
    hide EscapeQueryValue, PrintField;
    assert ' ' !in name && LF !in name by {
      assert forall i :: 0 <= i < |name| ==> name[i] != ' ' && name[i] != LF;
    }
    CountAbsent(name, ' ');
    ArgumentsAreClean(FieldsOf(ps));
    if ps != [] {
      CountConcat(name + " ", Arguments(ps), ' ');
      CountConcat(name, " ", ' ');
      assert Count(" ", ' ') == 1;
    }
  }

  /** The parameters read back exactly when none is called `__proto__`, whatever their values. */
  lemma {:induction false} CommandRoundTrip(name: string, ps: seq<Param>)
    requires Accepted(name, ps) && DistinctKeys(FieldsOf(ps))
    ensures Holds(ParseLine(Arguments(ps)), FieldsOf(ps)) <==> forall i :: 0 <= i < |ps| ==> ps[i].key != PROTO
  {
    hide ParseLine, EscapeQueryValue;
    ParsePrinted(FieldsOf(ps));
    AssignedHolds(FieldsOf(ps));
    assert forall i :: 0 <= i < |ps| ==> FieldsOf(ps)[i].key == ps[i].key;
  }

  /** The server reads a text as it was, a flag as 1 or 0 and a number as its digits. */
  lemma {:induction false} ParamsReadBack(name: string, ps: seq<Param>, i: nat)
    requires Accepted(name, ps) && DistinctKeys(FieldsOf(ps)) && i < |ps|
    requires forall j :: 0 <= j < |ps| ==> ps[j].key != PROTO
    ensures var r := ParseLine(Arguments(ps));
            && ps[i].key in r
            && (ps[i].value.Text? ==> r[ps[i].key] == ps[i].value.text)
            && (ps[i].value.Number? ==> r[ps[i].key] == ps[i].value.digits)
            && (ps[i].value == Flag(true) ==> r[ps[i].key] == "1")
            && (ps[i].value == Flag(false) ==> r[ps[i].key] == "0")
  {
    hide ParseLine, Arguments;
    CommandRoundTrip(name, ps);
    assert FieldsOf(ps)[i] == FieldOf(ps[i]);
  }

  // ----- responses -----

  datatype QueryError = QueryError(id: string, msg: string, extra: Record)

  datatype Notification = Notification(event: string, params: Record)

  datatype Response = Response(entries: seq<Record>, error: QueryError, notifications: seq<Notification>)

  /** The trimmed lines of a text that are not empty. */
  function CleanLines(pieces: seq<string>): seq<string> {
    if pieces == [] then []
    else
      var line := Trim(pieces[0], IsSpace);
      (if line == "" then [] else [line]) + CleanLines(pieces[1..])
  }

  function Lookup(r: Record, key: string): string {
    if key in r then r[key] else ""
  }

  function ErrorOf(params: Record): QueryError {
    QueryError(Lookup(params, "id"), Lookup(params, "msg"), params - {"id", "msg"})
  }

  /** `line.replace(/^error\s+/, '')` */
  function AfterError(line: string): string {
    if ERROR <= line && |line| > 5 && IsSpace(line[5]) then TrimStart(line[5..], IsSpace) else line
  }

  /** What goes is the word `error` and all the white space after it, of which there must be some. */
  lemma {:induction false} AfterErrorIff(line: string)
    ensures forall blanks: string, rest: string ::
              && line == ERROR + blanks + rest && blanks != "" && (rest == "" || !IsSpace(rest[0]))
              && (forall i :: 0 <= i < |blanks| ==> IsSpace(blanks[i])) ==>
                AfterError(line) == rest
    ensures !(ERROR <= line) || |line| == 5 || !IsSpace(line[5]) ==> AfterError(line) == line
  {
    hide IsSpace;
    forall blanks: string, rest: string | line == ERROR + blanks + rest && blanks != ""
        && (rest == "" || !IsSpace(rest[0])) && (forall i :: 0 <= i < |blanks| ==> IsSpace(blanks[i]))
      ensures AfterError(line) == rest
    {
      assert line[5..] == blanks + rest && line[5] == blanks[0];
      BlanksGo(blanks, rest);
    }
  }

  lemma {:induction false} BlanksGo(blanks: string, rest: string)
    requires (rest == "" || !IsSpace(rest[0])) && forall i :: 0 <= i < |blanks| ==> IsSpace(blanks[i])
    ensures TrimStart(blanks + rest, IsSpace) == rest
  {
    hide IsSpace;
    if blanks == "" {
      assert blanks + rest == rest;
    } else {
      assert (blanks + rest)[1..] == blanks[1..] + rest;
      BlanksGo(blanks[1..], rest);
    }
  }

  function ErrorOfLine(line: string): QueryError {
    ErrorOf(ParseLine(AfterError(line)))
  }

  function Event(line: string): string { SplitOn(line, ' ')[0] }

  function NotificationOf(line: string): Notification {
    var event := Event(line);
    Notification(event, ParseLine(if |event| >= |line| then "" else line[|event| + 1..]))
  }

  function ParseEach(parts: seq<string>): (rs: seq<Record>)
    ensures |rs| == |parts| && forall i :: 0 <= i < |parts| ==> rs[i] == ParseLine(parts[i])
  {
    seq(|parts|, i requires 0 <= i < |parts| => ParseLine(parts[i]))
  }

  function EntriesOf(line: string): seq<Record> { ParseEach(SplitOn(line, '|')) }

  /** A response is what its lines say up to the first `error` line; `None` when there is none. */
  function ParseLines(lines: seq<string>): Option<Response> {
    if lines == [] then None
    else if ERROR_LINE <= lines[0] then Some(Response([], ErrorOfLine(lines[0]), []))
    else
      match ParseLines(lines[1..])
      case None => None
      case Some(rest) =>
        if NOTIFY <= lines[0]
        then Some(rest.(notifications := [NotificationOf(lines[0])] + rest.notifications))
        else Some(rest.(entries := EntriesOf(lines[0]) + rest.entries))
  }

  /** The line break `\r?\n` of the source: the optional carriage return goes with the trimming. */
  function ParseRaw(raw: string): Option<Response> {
    ParseLines(CleanLines(SplitOn(raw, LF)))
  }

  method ParseErrorLine(line: string) returns (e: QueryError)
    ensures e == ErrorOfLine(line)
  {
    var params := ParseKeyValueLine(AfterError(line));
    var extra: Record := map[];
    var keys := params.Keys;
    while keys != {}
      invariant keys <= params.Keys
      invariant extra == (params - {"id", "msg"}) - keys
    {
      var key :| key in keys;
      if key != "id" && key != "msg" {
        extra := extra[key := params[key]];
      }
      keys := keys - {key};
    }
    assert extra == params - {"id", "msg"};
    e := QueryError(Lookup(params, "id"), Lookup(params, "msg"), extra);
  }

  method ParseNotification(line: string) returns (n: Notification)
    ensures n == NotificationOf(line)
  {
    var event := Event(line);
    var params := ParseKeyValueLine(if |event| >= |line| then "" else line[|event| + 1..]);
    n := Notification(event, params);
  }

  method ParseEntries(line: string) returns (entries: seq<Record>)
    ensures entries == EntriesOf(line)
  {
    var parts := SplitOn(line, '|');
    entries := [];
    for i := 0 to |parts|
      invariant entries == ParseEach(parts[..i])
    {
      var entry := ParseKeyValueLine(parts[i]);
      entries := entries + [entry];
      assert parts[..i + 1] == parts[..i] + [parts[i]];
    }
    assert parts[..|parts|] == parts;
  }

  function Prefixed(entries: seq<Record>, notifications: seq<Notification>, rest: Option<Response>): Option<Response> {
    match rest
    case None => None
    case Some(r) => Some(Response(entries + r.entries, r.error, notifications + r.notifications))
  }

  lemma PrefixedTwice(es: seq<Record>, ns: seq<Notification>, es': seq<Record>, ns': seq<Notification>,
                      rest: Option<Response>)
    ensures Prefixed(es, ns, Prefixed(es', ns', rest)) == Prefixed(es + es', ns + ns', rest)
    ensures Prefixed([], [], rest) == rest && es + [] == es && ns + [] == ns
  {
    if rest.Some? {
      assert [] + rest.value.entries == rest.value.entries;
      assert [] + rest.value.notifications == rest.value.notifications;
      assert es + (es' + rest.value.entries) == es + es' + rest.value.entries;
      assert ns + (ns' + rest.value.notifications) == ns + ns' + rest.value.notifications;
    }
  }

  lemma ParseLinesStep(lines: seq<string>)
    requires lines != []
    ensures ERROR_LINE <= lines[0] ==> ParseLines(lines) == Some(Response([], ErrorOfLine(lines[0]), []))
    ensures !(ERROR_LINE <= lines[0]) ==>
              ParseLines(lines) == if NOTIFY <= lines[0]
                                   then Prefixed([], [NotificationOf(lines[0])], ParseLines(lines[1..]))
                                   else Prefixed(EntriesOf(lines[0]), [], ParseLines(lines[1..]))
  {
    hide ErrorOfLine, NotificationOf, EntriesOf;
    var rest := ParseLines(lines[1..]);
    if rest.Some? {
      assert [] + rest.value.entries == rest.value.entries;
      assert [] + rest.value.notifications == rest.value.notifications;
    }
  }

  method ParseRawResponse(raw: string) returns (r: Option<Response>)
    ensures r == ParseRaw(raw)
  {
    hide ErrorOfLine, NotificationOf, EntriesOf, ParseLines, Prefixed;
    var lines := CleanLines(SplitOn(raw, LF));
    var entries: seq<Record>, notifications: seq<Notification> := [], [];
    assert lines[0..] == lines;
    PrefixedTwice([], [], [], [], ParseLines(lines));
    for i := 0 to |lines|
      invariant ParseLines(lines) == Prefixed(entries, notifications, ParseLines(lines[i..]))
    {
      var line := lines[i];
      assert lines[i..][0] == line && lines[i..][1..] == lines[i + 1..];
      ParseLinesStep(lines[i..]);
      if ERROR_LINE <= line {
        var error := ParseErrorLine(line);
        PrefixedSome(entries, notifications, Response([], error, []));
        return Some(Response(entries, error, notifications));
      }
      ghost var rest := ParseLines(lines[i + 1..]);
      if NOTIFY <= line {
        var n := ParseNotification(line);
        PrefixedTwice(entries, notifications, [], [n], rest);
        notifications := notifications + [n];
      } else {
        var more := ParseEntries(line);
        PrefixedTwice(entries, notifications, more, [], rest);
        entries := entries + more;
      }
    }
    assert lines[|lines|..] == [];
    r := None;
    NoLinesNoResponse(entries, notifications);
  }

  lemma PrefixedSome(es: seq<Record>, ns: seq<Notification>, r: Response)
    requires r.entries == [] && r.notifications == []
    ensures Prefixed(es, ns, Some(r)) == Some(Response(es, r.error, ns))
  {
    assert es + [] == es && ns + [] == ns;
  }

  lemma NoLinesNoResponse(es: seq<Record>, ns: seq<Notification>)
    ensures Prefixed(es, ns, ParseLines([])) == None
  {
  }
}
