/** Responses printed and read back: records, notifications, and the error line with all its fields. */
module QueryRoundTrip {
  import opened Sequences
  import opened Escape
  import opened QueryProtocol

  // ----- printing -----

  /** White space that escaping leaves as it is, and trimming therefore takes. */
  predicate IsBareSpace(c: char) { IsSpace(c) && EscapeLetter(c).None? }

  function BareTrim(v: string): string { TrimEnd(v, IsBareSpace) }

  predicate EndsBare(v: string) { v != "" && IsBareSpace(v[|v| - 1]) }

  function TrimLast(fields: seq<Field>): (fs: seq<Field>)
    requires fields != []
    ensures |fs| == |fields|
  {
    var last := fields[|fields| - 1];
    fields[..|fields| - 1] + [last.(value := BareTrim(last.value))]
  }

  predicate ValidRecord(fields: seq<Field>) { fields != [] && ValidFields(fields) }

  predicate ValidRecords(rs: seq<seq<Field>>) {
    forall i :: 0 <= i < |rs| ==> ValidRecord(rs[i])
  }

  function PrintEach(rs: seq<seq<Field>>): (ps: seq<string>)
    ensures |ps| == |rs| && forall i :: 0 <= i < |rs| ==> ps[i] == PrintLine(rs[i])
  {
    seq(|rs|, i requires 0 <= i < |rs| => PrintLine(rs[i]))
  }

  function PrintRecords(rs: seq<seq<Field>>): string { JoinWith(PrintEach(rs), '|') }

  /** What the server sends on one line: records, or a notification. */
  datatype Item = Data(records: seq<seq<Field>>) | Note(event: string, params: seq<Field>)

  /** A notification's name is made of word characters and starts with `notify`. */
  predicate ValidItem(item: Item) {
    match item
    case Data(rs) => rs != [] && ValidRecords(rs)
    case Note(event, params) => ValidKey(event) && NOTIFY <= event && ValidFields(params)
  }

  predicate ValidItems(items: seq<Item>) {
    forall i :: 0 <= i < |items| ==> ValidItem(items[i])
  }

  function PrintItem(item: Item): string {
    match item
    case Data(rs) => PrintRecords(rs)
    case Note(event, params) => if params == [] then event else event + " " + PrintLine(params)
  }

  function ErrorFields(id: string, msg: string, extra: seq<Field>): seq<Field> {
    [Field("id", id), Field("msg", msg)] + extra
  }

  /** The further fields of an error line: named differently from the first two. */
  predicate ValidExtra(extra: seq<Field>) {
    ValidFields(extra) && DistinctKeys(extra)
    && forall i :: 0 <= i < |extra| ==> extra[i].key != "id" && extra[i].key != "msg"
  }

  function PrintErrorLine(fields: seq<Field>): string { ERROR_LINE + PrintLine(fields) }

  /** The lines in order, the error line, and whatever text comes after it. */
  function PrintResponse(items: seq<Item>, fields: seq<Field>, after: string): string {
    if items == [] then PrintErrorLine(fields) + [LF] + after
    else PrintItem(items[0]) + [LF] + PrintResponse(items[1..], fields, after)
  }

  lemma {:induction false} EscapeEachConcat(a: string, b: string)
    ensures EscapeEach(a + b) == EscapeEach(a) + EscapeEach(b)
  {
    if a == "" {
      assert a + b == b;
    } else {
      assert (a + b)[1..] == a[1..] + b;
      EscapeEachConcat(a[1..], b);
    }
  }

  lemma EscapedLast(front: string, c: char)
    ensures EscapeEach(front + [c]) == EscapeEach(front) + EscapeChar(c)
  {
    EscapeEachConcat(front, [c]);
    assert EscapeChar(c) + "" == EscapeChar(c);
  }

  lemma TrimEndLast<T>(s: seq<T>, x: T, blank: T -> bool)
    ensures TrimEnd(s + [x], blank) == if blank(x) then TrimEnd(s, blank) else s + [x]
  {
    assert (s + [x])[..|s|] == s;
  }

  lemma {:induction false} TrimEscaped(x: string, v: string)
    requires x != "" && !IsSpace(x[|x| - 1])
    ensures TrimEnd(x + EscapeEach(v), IsSpace) == x + EscapeEach(BareTrim(v))
  {
    if v == "" {
      assert x + "" == x;
    } else {
      hide EscapeEach, EscapeLetter;
      var front, c := v[..|v| - 1], v[|v| - 1];
      assert v == front + [c];
      EscapedLast(front, c);
      TrimEndLast(front, c, IsBareSpace);
      var e := EscapeChar(c);
      var line := x + EscapeEach(front);
      assert x + EscapeEach(v) == line + e[..|e| - 1] + [e[|e| - 1]];
      EscapedBlank(c);
      TrimEndLast(line + e[..|e| - 1], e[|e| - 1], IsSpace);
      if IsBareSpace(c) {
        assert line + e[..|e| - 1] == line;
        TrimEscaped(x, front);
      }
    }
  }

  /** An escape ends in a blank exactly for a blank that is not escaped. */
  lemma EscapedBlank(c: char)
    ensures var e := EscapeChar(c);
            e != "" && (IsSpace(e[|e| - 1]) <==> IsBareSpace(c)) && (IsBareSpace(c) ==> e == [c])
  {
  }

  lemma TrimField(pre: string, f: Field)
    requires ValidKey(f.key)
    ensures TrimEnd(pre + PrintField(f), IsSpace) == pre + PrintField(f.(value := BareTrim(f.value)))
  {
    hide *;
    var x := pre + f.key + "=";
    EqualsIsNoSpace();
    TrimEscaped(x, f.value);
    FieldAfter(pre, f);
    FieldAfter(pre, f.(value := BareTrim(f.value)));
  }

  lemma FieldAfter(pre: string, f: Field)
    ensures pre + PrintField(f) == pre + f.key + "=" + EscapeEach(f.value)
  {
    hide EscapeQueryValue;
    EscapeIsEach(f.value);
  }

  lemma EqualsIsNoSpace()
    ensures !IsSpace('=')
  {
  }

  lemma RecordsCons(rs: seq<seq<Field>>)
    requires rs != []
    ensures PrintRecords(rs) ==
              if |rs| == 1 then PrintLine(rs[0]) else PrintLine(rs[0]) + "|" + PrintRecords(rs[1..])
  {
    hide PrintLine;
    assert PrintEach(rs)[1..] == PrintEach(rs[1..]);
  }

  lemma {:induction false} TrimLine(pre: string, fields: seq<Field>)
    requires ValidRecord(fields)
    ensures TrimEnd(pre + PrintLine(fields), IsSpace) == pre + PrintLine(TrimLast(fields))
    decreases |fields|
  {
    hide PrintField, BareTrim, TrimEnd, PrintLine;
    var fs := TrimLast(fields);
    LineCons(fields);
    LineCons(fs);
    if |fields| == 1 {
      TrimField(pre, fields[0]);
    } else {
      var rest := fields[1..];
      var pre' := pre + PrintField(fields[0]) + " ";
      TrimLine(pre', rest);
      assert fs[1..] == TrimLast(rest);
      assert pre + PrintLine(fields) == pre' + PrintLine(rest);
      assert pre + PrintLine(fs) == pre' + PrintLine(TrimLast(rest));
    }
  }

  /** The records as trimming the line leaves them. */
  function TrimRecords(rs: seq<seq<Field>>): (ts: seq<seq<Field>>)
    requires rs != [] && ValidRecords(rs)
    ensures |ts| == |rs|
  {
    rs[..|rs| - 1] + [TrimLast(rs[|rs| - 1])]
  }

  lemma {:induction false} TrimAll(pre: string, rs: seq<seq<Field>>)
    requires rs != [] && ValidRecords(rs)
    ensures TrimEnd(pre + PrintRecords(rs), IsSpace) == pre + PrintRecords(TrimRecords(rs))
    decreases |rs|
  {
    hide PrintLine, TrimLast, TrimEnd, PrintRecords;
    var ts := TrimRecords(rs);
    RecordsCons(rs);
    RecordsCons(ts);
    if |rs| == 1 {
      TrimLine(pre, rs[0]);
    } else {
      var rest := rs[1..];
      var pre' := pre + PrintLine(rs[0]) + "|";
      TrimAll(pre', rest);
      assert ts[1..] == TrimRecords(rest);
      assert pre + PrintRecords(rs) == pre' + PrintRecords(rest);
      assert pre + PrintRecords(ts) == pre' + PrintRecords(TrimRecords(rest));
    }
  }

  /** A printed record starts with its first key and an equals sign. */
  lemma LineStarts(fields: seq<Field>)
    requires ValidRecord(fields)
    ensures fields[0].key + "=" <= PrintLine(fields)
  {
    hide EscapeQueryValue, PrintLine;
    LineCons(fields);
  }

  lemma RecordsStart(rs: seq<seq<Field>>)
    requires rs != [] && ValidRecords(rs)
    ensures rs[0][0].key + "=" <= PrintRecords(rs)
  {
    hide PrintLine, PrintRecords;
    LineStarts(rs[0]);
    RecordsCons(rs);
  }

  /** No data line is taken for an error line, and only a first key can make it a notification. */
  lemma DataLine(key: string, line: string)
    requires ValidKey(key) && key + "=" <= line
    ensures line != "" && !IsSpace(line[0])
    ensures !(ERROR_LINE <= line)
    ensures NOTIFY <= line <==> NOTIFY <= key
  {
    assert line[|key|] == '=';
    assert forall i :: 0 <= i < |key| ==> line[i] == key[i] && IsWord(key[i]);
    assert forall i :: 0 <= i < 6 ==> ERROR_LINE[i] != '=' && NOTIFY[i] != '=';
    if |line| >= 6 {
      assert |key| >= 5 ==> line[5] != ERROR_LINE[5];
      assert |key| < 5 ==> line[|key|] != ERROR_LINE[|key|];
      assert |key| < 6 ==> line[|key|] != NOTIFY[|key|];
    }
    if |key| >= 6 {
      assert line[..6] == key[..6];
    }
  }

  lemma {:induction false} RecordsAreClean(rs: seq<seq<Field>>)
    requires ValidRecords(rs)
    ensures LF !in PrintRecords(rs)
    decreases |rs|
  {
    hide PrintLine;
    if rs != [] {
      ArgumentsAreClean(rs[0]);
      RecordsAreClean(rs[1..]);
      RecordsCons(rs);
    }
  }

  function AssignEach(rs: seq<seq<Field>>): (ms: seq<Record>)
    ensures |ms| == |rs| && forall i :: 0 <= i < |rs| ==> ms[i] == Assigned(rs[i], map[])
  {
    seq(|rs|, i requires 0 <= i < |rs| => Assigned(rs[i], map[]))
  }

  lemma EntriesReadBack(rs: seq<seq<Field>>)
    requires rs != [] && ValidRecords(rs)
    ensures EntriesOf(PrintRecords(rs)) == AssignEach(rs)
  {
    hide PrintLine, ParseLine, Assigned;
    forall p | p in PrintEach(rs) ensures '|' !in p {
      var i :| 0 <= i < |rs| && PrintEach(rs)[i] == p;
      ArgumentsAreClean(rs[i]);
    }
    SplitOfJoin(PrintEach(rs), '|');
    forall i | 0 <= i < |rs| ensures ParseLine(PrintEach(rs)[i]) == Assigned(rs[i], map[]) {
      ParsePrinted(rs[i]);
    }
  }

  lemma LookupOf(r: Record, key: string, value: string)
    requires key in r && r[key] == value
    ensures Lookup(r, key) == value
  {
  }

  /** The record of an error line, apart from `id` and `msg`, is that of its further fields. */
  lemma {:induction false} ExtraIsRest(id: string, msg: string, extra: seq<Field>)
    requires ValidExtra(extra)
    ensures var r := Assigned(ErrorFields(id, msg, extra), map[]);
            Lookup(r, "id") == id && Lookup(r, "msg") == msg && r - {"id", "msg"} == Assigned(extra, map[])
  {
    hide Assigned;
    var fields := ErrorFields(id, msg, extra);
    var r, rest := Assigned(fields, map[]), Assigned(extra, map[]);
    assert DistinctKeys(fields) by {
      assert forall i :: 2 <= i < |fields| ==> fields[i] == extra[i - 2];
    }
    assert |"id"| != |PROTO| && |"msg"| != |PROTO|;
    AssignedContent(fields, map[], "id");
    AssignedContent(fields, map[], "msg");
    assert fields[0].key == "id" && fields[1].key == "msg";
    LookupOf(r, "id", id);
    LookupOf(r, "msg", msg);
    forall k | k != "id" && k != "msg"
      ensures k in r <==> k in rest
      ensures k in r ==> r[k] == rest[k]
    {
      AssignedContent(fields, map[], k);
      AssignedContent(extra, map[], k);
      SameFieldsLater(fields, extra, k);
    }
    forall k | k in rest ensures k != "id" && k != "msg" {
      AssignedContent(extra, map[], k);
    }
    assert r - {"id", "msg"} == rest;
  }

  lemma SameFieldsLater(fields: seq<Field>, extra: seq<Field>, k: string)
    requires |fields| == |extra| + 2 && fields[2..] == extra && fields[0].key != k && fields[1].key != k
    ensures (exists i :: 0 <= i < |fields| && fields[i].key == k) <==> exists i :: 0 <= i < |extra| && extra[i].key == k
    ensures forall i :: 0 <= i < |extra| ==> fields[i + 2] == extra[i]
  {
    assert forall i :: 0 <= i < |extra| ==> fields[i + 2] == extra[i];
    if i :| 0 <= i < |fields| && fields[i].key == k {
      assert extra[i - 2].key == k;
    }
  }

  /** An error line reads back: `id`, `msg`, and of the further fields all but one called `__proto__`. */
  lemma ErrorReadsBack(id: string, msg: string, extra: seq<Field>)
    requires ValidExtra(extra)
    ensures ErrorOfLine(PrintErrorLine(ErrorFields(id, msg, extra))) == QueryError(id, msg, Assigned(extra, map[]))
  {
    hide PrintLine, ParseLine, Assigned, Lookup;
    var fields := ErrorFields(id, msg, extra);
    var line := PrintErrorLine(fields);
    ValidErrorFields(id, msg, extra);
    LineStarts(fields);
    assert PrintLine(fields)[0] == ("id" + "=")[0] == 'i';
    assert line[..5] == ERROR && line[5] == ' ' && line[5..][1..] == PrintLine(fields);
    assert TrimStart(line[5..], IsSpace) == PrintLine(fields);
    ParsePrinted(fields);
    ExtraIsRest(id, msg, extra);
  }

  /** Of the further fields, `extra` holds exactly those not called `__proto__`. */
  lemma ExtraKept(id: string, msg: string, extra: seq<Field>)
    requires ValidExtra(extra)
    ensures var e := ErrorOfLine(PrintErrorLine(ErrorFields(id, msg, extra)));
            && e.id == id && e.msg == msg
            && (forall i :: 0 <= i < |extra| && extra[i].key != PROTO ==>
                  extra[i].key in e.extra && e.extra[extra[i].key] == extra[i].value)
            && (forall k :: k in e.extra ==> k != PROTO && exists i :: 0 <= i < |extra| && extra[i].key == k)
  {
    hide ErrorOfLine, PrintErrorLine, Assigned;
    ErrorReadsBack(id, msg, extra);
    forall k
      ensures k in Assigned(extra, map[]) <==> k != PROTO && exists i :: 0 <= i < |extra| && extra[i].key == k
      ensures forall i :: 0 <= i < |extra| && extra[i].key == k && k != PROTO ==>
                            Assigned(extra, map[])[k] == extra[i].value
    {
      AssignedContent(extra, map[], k);
    }
  }

  lemma ValidErrorFields(id: string, msg: string, extra: seq<Field>)
    requires ValidExtra(extra)
    ensures ValidRecord(ErrorFields(id, msg, extra))
    ensures var fields := TrimLast(ErrorFields(id, msg, extra));
            if extra == [] then fields == ErrorFields(id, BareTrim(msg), [])
            else fields == ErrorFields(id, msg, TrimLast(extra)) && ValidExtra(TrimLast(extra))
  {
    hide BareTrim;
    var fields := ErrorFields(id, msg, extra);
    assert |fields| == |extra| + 2;
    if extra != [] {
      assert fields[..|fields| - 1] == [Field("id", id), Field("msg", msg)] + extra[..|extra| - 1];
    }
  }

  lemma TrimmedErrorLine(fields: seq<Field>)
    requires ValidRecord(fields)
    ensures Trim(PrintErrorLine(fields), IsSpace) == PrintErrorLine(TrimLast(fields))
    ensures LF !in PrintErrorLine(fields) && ERROR_LINE <= PrintErrorLine(fields)
  {
    hide PrintLine, BareTrim, TrimLast;
    TrimLine(ERROR_LINE, fields);
    ArgumentsAreClean(fields);
    assert PrintErrorLine(fields)[0] == 'e';
  }

  /** The message and the further fields as trimming the line leaves them. */
  function TrimmedError(id: string, msg: string, extra: seq<Field>): QueryError {
    if extra == [] then QueryError(id, BareTrim(msg), map[]) else QueryError(id, msg, Assigned(TrimLast(extra), map[]))
  }

  /** The error line ends the response; nothing after it is read. */
  lemma ErrorLineEnds(id: string, msg: string, extra: seq<Field>, after: string)
    requires ValidExtra(extra)
    ensures ParseRaw(PrintErrorLine(ErrorFields(id, msg, extra)) + [LF] + after)
            == Some(Response([], TrimmedError(id, msg, extra), []))
  {
    hide PrintErrorLine, Trim, TrimLast, ErrorOfLine, BareTrim, Assigned, CleanLines;
    var fields := ErrorFields(id, msg, extra);
    var line := PrintErrorLine(fields);
    ValidErrorFields(id, msg, extra);
    TrimmedErrorLine(fields);
    SplitPiece(line, after, LF);
    var line' := PrintErrorLine(TrimLast(fields));
    assert ERROR_LINE <= line' by { ErrorLineStarts(TrimLast(fields)); }
    FirstLine(line, SplitOn(after, LF));
    ParseLinesStep([line'] + CleanLines(SplitOn(after, LF)));
    if extra == [] {
      ErrorReadsBack(id, BareTrim(msg), []);
      NothingAssigned();
    } else {
      ErrorReadsBack(id, msg, TrimLast(extra));
    }
  }

  lemma NothingAssigned()
    ensures Assigned([], map[]) == map[]
  {
  }

  lemma ErrorLineStarts(fields: seq<Field>)
    ensures ERROR_LINE <= PrintErrorLine(fields)
  {
    hide PrintLine;
  }

  lemma FirstLine(line: string, rest: seq<string>)
    requires Trim(line, IsSpace) != ""
    ensures CleanLines([line] + rest) == [Trim(line, IsSpace)] + CleanLines(rest)
  {
    assert ([line] + rest)[1..] == rest;
  }

  lemma TrimmedDataLine(rs: seq<seq<Field>>)
    requires rs != [] && ValidRecords(rs)
    ensures Trim(PrintRecords(rs), IsSpace) == PrintRecords(TrimRecords(rs))
    ensures ValidRecords(TrimRecords(rs)) && TrimRecords(rs)[0][0].key == rs[0][0].key
  {
    hide BareTrim, PrintRecords;
    RecordsStart(rs);
    DataLine(rs[0][0].key, PrintRecords(rs));
    TrimAll("", rs);
    assert "" + PrintRecords(rs) == PrintRecords(rs);
    assert "" + PrintRecords(TrimRecords(rs)) == PrintRecords(TrimRecords(rs));
  }

  // ----- what each line is read as -----

  /** A data line is taken for a notification if its first key starts with `notify`. */
  predicate Misread(item: Item)
    requires ValidItem(item)
  {
    item.Data? && NOTIFY <= item.records[0][0].key
  }

  function EntriesIn(item: Item): seq<Record>
    requires ValidItem(item)
  {
    if item.Data? && !Misread(item) then AssignEach(TrimRecords(item.records)) else []
  }

  function NotesIn(item: Item): seq<Notification>
    requires ValidItem(item)
  {
    match item
    case Data(rs) => if Misread(item) then [NotificationOf(PrintRecords(TrimRecords(rs)))] else []
    case Note(event, params) =>
      [Notification(event, if params == [] then map[] else Assigned(TrimLast(params), map[]))]
  }

  function AllEntries(items: seq<Item>): seq<Record>
    requires ValidItems(items)
  {
    if items == [] then [] else EntriesIn(items[0]) + AllEntries(items[1..])
  }

  function AllNotes(items: seq<Item>): seq<Notification>
    requires ValidItems(items)
  {
    if items == [] then [] else NotesIn(items[0]) + AllNotes(items[1..])
  }

  /** A name of word characters has no blank to trim and no space to split at. */
  lemma WordsStay(event: string)
    requires ValidKey(event)
    ensures ' ' !in event && LF !in event && Trim(event, IsSpace) == event && !IsSpace(event[0])
  {
    assert forall i :: 0 <= i < |event| ==> IsWord(event[i]);
    assert Trimmed(event, IsSpace);
    TrimOfTrimmed(event, IsSpace);
  }

  lemma EventLine(event: string, rest: string)
    requires ' ' !in event
    ensures NotificationOf(event + " " + rest) == Notification(event, ParseLine(rest))
    ensures NotificationOf(event) == Notification(event, ParseLine(""))
  {
    hide ParseLine;
    SplitPiece(event, rest, ' ');
    SplitNothing(event, ' ');
    assert event + [' '] + rest == event + " " + rest;
    assert (event + " " + rest)[|event| + 1..] == rest;
  }

  lemma NothingParsed()
    ensures ParseLine("") == map[]
  {
  }

  /** The line of a notification, trimmed, reads back. */
  lemma NoteReadsBack(event: string, params: seq<Field>)
    requires ValidItem(Note(event, params))
    ensures var line := PrintItem(Note(event, params));
            var trimmed := Trim(line, IsSpace);
            && LF !in line && NOTIFY <= trimmed && !(ERROR_LINE <= trimmed)
            && [NotificationOf(trimmed)] == NotesIn(Note(event, params))
  {
    hide PrintLine, ParseLine, Assigned, Trim, TrimLast, NotificationOf;
    WordsStay(event);
    NothingParsed();
    assert NOTIFY[0] != ERROR_LINE[0];
    if params == [] {
      EventLine(event, "");
    } else {
      ArgumentsAreClean(params);
      TrimNote(event, params);
      EventLine(event, PrintLine(TrimLast(params)));
      assert ValidFields(TrimLast(params)) by { TrimLastIsValid(params); }
      ParsePrinted(TrimLast(params));
    }
  }

  lemma TrimNote(event: string, params: seq<Field>)
    requires ValidKey(event) && ValidRecord(params)
    ensures Trim(event + " " + PrintLine(params), IsSpace) == event + " " + PrintLine(TrimLast(params))
  {
    hide PrintLine, TrimLast;
    WordsStay(event);
    TrimLine(event + " ", params);
    assert (event + " " + PrintLine(params))[0] == event[0];
  }

  lemma TrimLastIsValid(fields: seq<Field>)
    requires ValidRecord(fields)
    ensures ValidRecord(TrimLast(fields))
  {
    hide BareTrim;
  }

  /** The line of some records, trimmed, is read as they are, or as a notification. */
  lemma DataReadsBack(rs: seq<seq<Field>>)
    requires ValidItem(Data(rs))
    ensures var line := PrintRecords(rs);
            var trimmed := Trim(line, IsSpace);
            && LF !in line && trimmed != "" && !(ERROR_LINE <= trimmed)
            && (NOTIFY <= trimmed <==> Misread(Data(rs)))
            && NotesIn(Data(rs)) == (if Misread(Data(rs)) then [NotificationOf(trimmed)] else [])
            && EntriesIn(Data(rs)) == (if Misread(Data(rs)) then [] else EntriesOf(trimmed))
  {
    hide PrintRecords, Trim, TrimRecords, EntriesOf, NotificationOf, BareTrim, AssignEach;
    RecordsAreClean(rs);
    TrimmedDataLine(rs);
    RecordsStart(TrimRecords(rs));
    DataLine(rs[0][0].key, PrintRecords(TrimRecords(rs)));
    EntriesReadBack(TrimRecords(rs));
  }

  /** One line more in front. */
  lemma ItemReadsBack(item: Item, rest: string)
    requires ValidItem(item)
    ensures ParseRaw(PrintItem(item) + [LF] + rest) == Prefixed(EntriesIn(item), NotesIn(item), ParseRaw(rest))
  {
    hide Trim, EntriesOf, NotificationOf, EntriesIn, NotesIn, CleanLines, PrintItem, Misread, ParseLines, Prefixed;
    var line := PrintItem(item);
    match item {
      case Data(rs) =>
        assert line == PrintRecords(rs) by { PrintedItem(item); }
        DataReadsBack(rs);
      case Note(event, params) =>
        NoteReadsBack(event, params);
        NoEntries(item);
    }
    var trimmed := Trim(line, IsSpace);
    SplitPiece(line, rest, LF);
    FirstLine(line, SplitOn(rest, LF));
    var lines := [trimmed] + CleanLines(SplitOn(rest, LF));
    assert lines[1..] == CleanLines(SplitOn(rest, LF));
    ParseLinesStep(lines);
  }

  lemma PrintedItem(item: Item)
    ensures item.Data? ==> PrintItem(item) == PrintRecords(item.records)
  {
    hide PrintRecords, PrintLine;
  }

  lemma NoEntries(item: Item)
    requires ValidItem(item) && item.Note?
    ensures EntriesIn(item) == []
  {
    hide AssignEach, TrimRecords;
  }

  /** What the parser makes of any printed response: every line in order, and the error with its further fields. */
  lemma {:induction false} ResponseReadsBack(items: seq<Item>, id: string, msg: string, extra: seq<Field>,
                                             after: string)
    requires ValidItems(items) && ValidExtra(extra)
    ensures ParseRaw(PrintResponse(items, ErrorFields(id, msg, extra), after))
            == Some(Response(AllEntries(items), TrimmedError(id, msg, extra), AllNotes(items)))
    decreases |items|
  {
    hide ParseRaw, EntriesIn, NotesIn, TrimmedError, ErrorFields, PrintErrorLine;
    if items == [] {
      ErrorLineEnds(id, msg, extra, after);
    } else {
      hide PrintItem;
      ResponseReadsBack(items[1..], id, msg, extra, after);
      ItemReadsBack(items[0], PrintResponse(items[1..], ErrorFields(id, msg, extra), after));
    }
  }

  // ----- exactly when a response is recovered -----

  /** Records and notifications, each in their order, are those that were printed. */
  predicate RecoversItems(entries: seq<Record>, notes: seq<Notification>, items: seq<Item>)
    decreases |items|
  {
    if items == [] then entries == [] && notes == []
    else match items[0]
      case Data(rs) =>
        && |entries| >= |rs|
        && (forall i :: 0 <= i < |rs| ==> Holds(entries[i], rs[i]))
        && RecoversItems(entries[|rs|..], notes, items[1..])
      case Note(event, params) =>
        && notes != [] && notes[0].event == event && Holds(notes[0].params, params)
        && RecoversItems(entries, notes[1..], items[1..])
  }

  /** The parser gives back the records, the notifications and the error as they were printed. */
  predicate Recovers(r: Option<Response>, items: seq<Item>, id: string, msg: string, extra: seq<Field>) {
    && r.Some?
    && RecoversItems(r.value.entries, r.value.notifications, items)
    && r.value.error.id == id && r.value.error.msg == msg && Holds(r.value.error.extra, extra)
  }

  predicate NoProto(fields: seq<Field>) {
    forall i :: 0 <= i < |fields| ==> fields[i].key != PROTO
  }

  predicate NoBareEnd(fields: seq<Field>) {
    fields == [] || !EndsBare(fields[|fields| - 1].value)
  }

  predicate DistinctItem(item: Item) {
    match item
    case Data(rs) => forall i :: 0 <= i < |rs| ==> DistinctKeys(rs[i])
    case Note(_, params) => DistinctKeys(params)
  }

  /** Nothing on this line is lost: no key is `__proto__`, the first of a data line does not start with `notify`, and
      the last value does not end in white space that escaping leaves bare. */
  predicate Faithful(item: Item) {
    match item
    case Data(rs) =>
      rs != [] && rs[0] != [] && !(NOTIFY <= rs[0][0].key)
      && (forall i :: 0 <= i < |rs| ==> NoProto(rs[i])) && NoBareEnd(rs[|rs| - 1])
    case Note(_, params) => NoProto(params) && NoBareEnd(params)
  }

  lemma BareTrimKeeps(v: string)
    ensures BareTrim(v) == v <==> !EndsBare(v)
  {
    TrimEndIsPrefix(v, IsBareSpace);
  }

  lemma TrimmedHolds(fields: seq<Field>)
    requires ValidRecord(fields) && DistinctKeys(fields)
    ensures Holds(Assigned(TrimLast(fields), map[]), fields) <==> NoProto(fields) && NoBareEnd(fields)
  {
    hide BareTrim, EndsBare, Assigned;
    var ts := TrimLast(fields);
    var r := Assigned(ts, map[]);
    var last := |fields| - 1;
    BareTrimKeeps(fields[last].value);
    assert forall i :: 0 <= i < |fields| ==> ts[i].key == fields[i].key;
    assert forall i :: 0 <= i < last ==> ts[i] == fields[i];
    AssignedHolds(ts);
    if Holds(r, fields) {
      forall i | 0 <= i < |fields| ensures fields[i].key != PROTO {
        AssignedContent(ts, map[], PROTO);
        assert fields[i].key in r;
      }
      assert r[ts[last].key] == ts[last].value;
    }
    if NoProto(fields) && !EndsBare(fields[last].value) {
      assert ts == fields;
    }
  }

  /** The same, of fields that may be none. */
  lemma MaybeTrimmedHolds(fields: seq<Field>)
    requires ValidFields(fields) && DistinctKeys(fields)
    ensures Holds(if fields == [] then map[] else Assigned(TrimLast(fields), map[]), fields) <==>
              NoProto(fields) && NoBareEnd(fields)
  {
    hide Assigned, TrimLast, EndsBare;
    if fields != [] {
      TrimmedHolds(fields);
    }
  }

  lemma NoProtoMeans(fields: seq<Field>)
    ensures NoProto(fields) <==> forall i :: 0 <= i < |fields| ==> fields[i].key != PROTO
  {
  }

  /** All records of a data line come back exactly when it loses nothing. */
  lemma {:induction false} RecordsHold(rs: seq<seq<Field>>)
    requires ValidItem(Data(rs)) && DistinctItem(Data(rs)) && !Misread(Data(rs))
    ensures (forall i :: 0 <= i < |rs| ==> Holds(AssignEach(TrimRecords(rs))[i], rs[i])) <==> Faithful(Data(rs))
  {
    hide Assigned, Holds, NoBareEnd, NoProto, TrimLast;
    var n := |rs| - 1;
    TrimmedHolds(rs[n]);
    forall i | 0 <= i < n ensures Holds(Assigned(rs[i], map[]), rs[i]) <==> NoProto(rs[i]) {
      AssignedHolds(rs[i]);
      NoProtoMeans(rs[i]);
    }
    var ts := TrimRecords(rs);
    assert forall i :: 0 <= i < n ==> ts[i] == rs[i];
    assert ts[n] == TrimLast(rs[n]);
  }

  function NoteCount(items: seq<Item>): nat {
    if items == [] then 0 else (if items[0].Note? then 1 else 0) + NoteCount(items[1..])
  }

  lemma {:induction false} RecoveredNotes(entries: seq<Record>, notes: seq<Notification>, items: seq<Item>)
    requires RecoversItems(entries, notes, items)
    ensures |notes| == NoteCount(items)
    decreases |items|
  {
    if items != [] {
      hide Holds;
      match items[0] {
        case Data(rs) => RecoveredNotes(entries[|rs|..], notes, items[1..]);
        case Note(event, params) => RecoveredNotes(entries, notes[1..], items[1..]);
      }
    }
  }

  /** Every misread data line is one notification too many. */
  lemma {:induction false} MisreadCounts(items: seq<Item>)
    requires ValidItems(items)
    ensures |AllNotes(items)| >= NoteCount(items)
    ensures |AllNotes(items)| == NoteCount(items) <==> forall i :: 0 <= i < |items| ==> !Misread(items[i])
    decreases |items|
  {
    if items != [] {
      hide NotificationOf, Assigned, TrimLast, TrimRecords, PrintRecords, Misread;
      MisreadCounts(items[1..]);
      assert forall i :: 0 < i < |items| ==> items[i] == items[1..][i - 1];
    }
  }

  lemma {:induction false} ItemsRecovered(items: seq<Item>)
    requires ValidItems(items) && forall i :: 0 <= i < |items| ==> DistinctItem(items[i]) && !Misread(items[i])
    ensures RecoversItems(AllEntries(items), AllNotes(items), items) <==>
              forall i :: 0 <= i < |items| ==> Faithful(items[i])
    decreases |items|
  {
    if items != [] {
      hide Assigned, Holds, NoBareEnd, NoProto, TrimLast, AssignEach, TrimRecords, Faithful, Misread;
      ItemsRecovered(items[1..]);
      assert forall i :: 0 < i < |items| ==> items[i] == items[1..][i - 1];
      FirstRecovered(items);
    }
  }

  lemma FirstRecovered(items: seq<Item>)
    requires items != [] && ValidItems(items) && DistinctItem(items[0]) && !Misread(items[0])
    ensures RecoversItems(AllEntries(items), AllNotes(items), items) <==>
              Faithful(items[0]) && RecoversItems(AllEntries(items[1..]), AllNotes(items[1..]), items[1..])
  {
    hide Assigned, Holds, NoBareEnd, NoProto, TrimLast, AssignEach, TrimRecords;
    match items[0] {
      case Data(rs) =>
        RecordsHold(rs);
        var entries := AssignEach(TrimRecords(rs));
        assert AllEntries(items) == entries + AllEntries(items[1..]);
        assert AllNotes(items) == AllNotes(items[1..]);
        assert AllEntries(items)[|rs|..] == AllEntries(items[1..]);
        assert forall i :: 0 <= i < |rs| ==> AllEntries(items)[i] == entries[i];
      case Note(event, params) =>
        MaybeTrimmedHolds(params);
        assert AllNotes(items)[1..] == AllNotes(items[1..]);
        assert AllEntries(items) == AllEntries(items[1..]);
    }
  }

  lemma {:induction false} ItemsRecoveredIff(items: seq<Item>)
    requires ValidItems(items) && forall i :: 0 <= i < |items| ==> DistinctItem(items[i])
    ensures RecoversItems(AllEntries(items), AllNotes(items), items) <==>
              forall i :: 0 <= i < |items| ==> Faithful(items[i])
  {
    hide RecoversItems, AllEntries, AllNotes, Misread, Faithful, DistinctItem;
    MisreadCounts(items);
    if RecoversItems(AllEntries(items), AllNotes(items), items) {
      RecoveredNotes(AllEntries(items), AllNotes(items), items);
    }
    forall i | 0 <= i < |items| && Faithful(items[i]) ensures !Misread(items[i]) {
      FaithfulIsRead(items[i]);
    }
    if forall i :: 0 <= i < |items| ==> !Misread(items[i]) {
      ItemsRecovered(items);
    }
  }

  lemma ErrorRecovered(id: string, msg: string, extra: seq<Field>)
    requires ValidExtra(extra)
    ensures var e := TrimmedError(id, msg, extra);
            (e.id == id && e.msg == msg && Holds(e.extra, extra)) <==>
              NoProto(extra) && NoBareEnd(ErrorFields(id, msg, extra))
  {
    hide Assigned, TrimLast, EndsBare, BareTrim;
    BareTrimKeeps(msg);
    MaybeTrimmedHolds(extra);
    var fields := ErrorFields(id, msg, extra);
    assert fields[|fields| - 1] == if extra == [] then Field("msg", msg) else extra[|extra| - 1];
  }

  /** A whole response, of data lines, notifications and an error line with any further fields, round trips exactly when
      no line of it loses anything. */
  lemma {:induction false} ResponseRoundTrip(items: seq<Item>, id: string, msg: string, extra: seq<Field>,
                                             after: string)
    requires ValidItems(items) && ValidExtra(extra) && forall i :: 0 <= i < |items| ==> DistinctItem(items[i])
    ensures Recovers(ParseRaw(PrintResponse(items, ErrorFields(id, msg, extra), after)), items, id, msg, extra) <==>
              && (forall i :: 0 <= i < |items| ==> Faithful(items[i]))
              && NoProto(extra) && NoBareEnd(ErrorFields(id, msg, extra))
  {
    hide *;
    ResponseReadsBack(items, id, msg, extra, after);
    ErrorRecovered(id, msg, extra);
    ItemsRecoveredIff(items);
    RecoversMeans(Response(AllEntries(items), TrimmedError(id, msg, extra), AllNotes(items)), items, id, msg, extra);
  }

  lemma FaithfulIsRead(item: Item)
    requires ValidItem(item) && Faithful(item)
    ensures !Misread(item)
  {
    hide NoProto, NoBareEnd;
  }

  lemma RecoversMeans(r: Response, items: seq<Item>, id: string, msg: string, extra: seq<Field>)
    ensures Recovers(Some(r), items, id, msg, extra) <==>
              && RecoversItems(r.entries, r.notifications, items)
              && r.error.id == id && r.error.msg == msg && Holds(r.error.extra, extra)
  {
    hide RecoversItems, Holds;
  }
}
