/** Splitting, joining, trimming and filtering of sequences, shared by the archive and the query protocol. */
module Sequences {

  datatype Option<+T> = None | Some(value: T)

  datatype Result<+T, +E> = Success(value: T) | Failure(error: E)

  /** JavaScript's `s.split(sep)` for a separator of one element. */
  function SplitOn<T(==)>(s: seq<T>, sep: T): (parts: seq<seq<T>>)
    ensures |parts| >= 1
  {
    if s == [] then [[]]
    else
      var rest := SplitOn(s[1..], sep);
      if s[0] == sep then [[]] + rest else [[s[0]] + rest[0]] + rest[1..]
  }

  /** JavaScript's `parts.join(sep)`. */
  function JoinWith<T>(parts: seq<seq<T>>, sep: T): seq<T> {
    if |parts| == 0 then []
    else if |parts| == 1 then parts[0]
    else parts[0] + [sep] + JoinWith(parts[1..], sep)
  }

  lemma {:induction false} SplitPiece<T>(a: seq<T>, b: seq<T>, sep: T)
    requires sep !in a
    ensures SplitOn(a + [sep] + b, sep) == [a] + SplitOn(b, sep)
  {
    if a == [] {
      assert (a + [sep] + b)[1..] == b;
    } else {
      assert (a + [sep] + b)[1..] == a[1..] + [sep] + b;
      SplitPiece(a[1..], b, sep);
      assert [a[0]] + a[1..] == a;
      assert (a + [sep] + b)[0] != sep;
    }
  }

  lemma {:induction false} SplitNothing<T>(a: seq<T>, sep: T)
    requires sep !in a
    ensures SplitOn(a, sep) == [a]
  {
    if a != [] {
      SplitNothing(a[1..], sep);
      assert [a[0]] + a[1..] == a;
    }
  }

  lemma {:induction false} SplitOfJoin<T>(parts: seq<seq<T>>, sep: T)
    requires parts != []
    requires forall p :: p in parts ==> sep !in p
    ensures SplitOn(JoinWith(parts, sep), sep) == parts
  {
    if |parts| == 1 {
      SplitNothing(parts[0], sep);
    } else {
      SplitPiece(parts[0], JoinWith(parts[1..], sep), sep);
      SplitOfJoin(parts[1..], sep);
      assert parts == [parts[0]] + parts[1..];
    }
  }

  lemma {:induction false} JoinOfSplit<T>(s: seq<T>, sep: T)
    ensures JoinWith(SplitOn(s, sep), sep) == s
    ensures forall p :: p in SplitOn(s, sep) ==> sep !in p
  {
    if s != [] {
      JoinOfSplit(s[1..], sep);
      var rest := SplitOn(s[1..], sep);
      if s[0] == sep {
        assert SplitOn(s, sep)[1..] == rest;
      } else {
        assert SplitOn(s, sep)[1..] == rest[1..];
      }
    }
  }

  function TrimStart<T>(s: seq<T>, blank: T -> bool): seq<T> {
    if s != [] && blank(s[0]) then TrimStart(s[1..], blank) else s
  }

  function TrimEnd<T>(s: seq<T>, blank: T -> bool): seq<T> {
    if s != [] && blank(s[|s| - 1]) then TrimEnd(s[..|s| - 1], blank) else s
  }

  /** JavaScript's `s.trim()`, for the given notion of white space. */
  function Trim<T>(s: seq<T>, blank: T -> bool): seq<T> {
    TrimEnd(TrimStart(s, blank), blank)
  }

  /** No white space at either end: what `trim` leaves, and leaves alone. */
  predicate Trimmed<T>(s: seq<T>, blank: T -> bool) {
    s != [] ==> !blank(s[0]) && !blank(s[|s| - 1])
  }

  lemma {:induction false} TrimStartIsSuffix<T>(s: seq<T>, blank: T -> bool)
    ensures exists k: nat :: k <= |s| && TrimStart(s, blank) == s[k..]
    ensures TrimStart(s, blank) != [] ==> !blank(TrimStart(s, blank)[0])
  {
    if s != [] && blank(s[0]) {
      TrimStartIsSuffix(s[1..], blank);
      var k: nat :| k <= |s[1..]| && TrimStart(s[1..], blank) == s[1..][k..];
      assert s[1..][k..] == s[k + 1..];
    } else {
      assert s[0..] == s;
    }
  }

  lemma {:induction false} TrimEndIsPrefix<T>(s: seq<T>, blank: T -> bool)
    ensures TrimEnd(s, blank) <= s
    ensures TrimEnd(s, blank) != [] ==> !blank(TrimEnd(s, blank)[|TrimEnd(s, blank)| - 1])
  {
    if s != [] && blank(s[|s| - 1]) {
      TrimEndIsPrefix(s[..|s| - 1], blank);
    }
  }

  lemma TrimIsTrimmed<T>(s: seq<T>, blank: T -> bool)
    ensures Trimmed(Trim(s, blank), blank)
    ensures forall x :: x in Trim(s, blank) ==> x in s
  {
    TrimStartIsSuffix(s, blank);
    TrimEndIsPrefix(TrimStart(s, blank), blank);
  }

  lemma TrimOfTrimmed<T>(s: seq<T>, blank: T -> bool)
    requires Trimmed(s, blank)
    ensures Trim(s, blank) == s
  {
  }

  lemma {:induction false} TrimStartSkips<T>(blanks: seq<T>, s: seq<T>, blank: T -> bool)
    requires (s == [] || !blank(s[0])) && forall i :: 0 <= i < |blanks| ==> blank(blanks[i])
    ensures TrimStart(blanks + s, blank) == s
  {
    if blanks == [] {
      assert blanks + s == s;
    } else {
      assert (blanks + s)[1..] == blanks[1..] + s;
      TrimStartSkips(blanks[1..], s, blank);
    }
  }

  lemma {:induction false} TrimEndBehind<T>(a: seq<T>, b: seq<T>, blank: T -> bool)
    requires a != [] && !blank(a[|a| - 1])
    ensures TrimEnd(a + b, blank) == a + TrimEnd(b, blank)
  {
    if b == [] {
      assert a + b == a;
    } else if blank(b[|b| - 1]) {
      assert (a + b)[..|a + b| - 1] == a + b[..|b| - 1];
      TrimEndBehind(a, b[..|b| - 1], blank);
    }
  }

  function Filter<T>(s: seq<T>, keep: T -> bool): seq<T> {
    if s == [] then []
    else Filter(s[..|s| - 1], keep) + (if keep(s[|s| - 1]) then [s[|s| - 1]] else [])
  }

  lemma {:induction false} FilterAll<T>(s: seq<T>, keep: T -> bool)
    requires forall i :: 0 <= i < |s| ==> keep(s[i])
    ensures Filter(s, keep) == s
  {
    if s != [] {
      var front := s[..|s| - 1];
      FilterAll(front, keep);
      assert s == front + [s[|s| - 1]];
    }
  }

  lemma {:induction false} FilterConcat<T>(a: seq<T>, b: seq<T>, keep: T -> bool)
    ensures Filter(a + b, keep) == Filter(a, keep) + Filter(b, keep)
  {
    if b == [] {
      assert a + b == a;
    } else {
      assert (a + b)[..|a + b| - 1] == a + b[..|b| - 1];
      FilterConcat(a, b[..|b| - 1], keep);
    }
  }

  function Flatten<T>(parts: seq<seq<T>>): seq<T> {
    if parts == [] then [] else parts[0] + Flatten(parts[1..])
  }

  lemma {:induction false} FlattenConcat<T>(a: seq<seq<T>>, b: seq<seq<T>>)
    ensures Flatten(a + b) == Flatten(a) + Flatten(b)
  {
    if a == [] {
      assert a + b == b;
    } else {
      assert (a + b)[1..] == a[1..] + b;
      FlattenConcat(a[1..], b);
    }
  }
}
