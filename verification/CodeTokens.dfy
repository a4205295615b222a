/** The codes a text contains: its maximal runs of letters and digits of the right length. */
module CodeTokens {
  const MIN_CODE: nat := 6
  const MAX_CODE: nat := 64

  predicate IsCodeChar(c: char) { 'A' <= c <= 'Z' || 'a' <= c <= 'z' || '0' <= c <= '9' }

  /** In ASCII these are three blocks of 26, 26 and 10. */
  lemma CodeCharsAre(c: char)
    ensures IsCodeChar(c) <==> var n := c as int; 65 <= n < 65 + 26 || 97 <= n < 97 + 26 || 48 <= n < 48 + 10
  {
  }

  /** The letters and digits the text starts with. */
  function RunLength(value: string): (n: nat)
    ensures n <= |value|
    ensures forall k :: 0 <= k < n ==> IsCodeChar(value[k])
    ensures n < |value| ==> !IsCodeChar(value[n])
  {
    if value == "" || !IsCodeChar(value[0]) then 0 else 1 + RunLength(value[1..])
  }

  function FindTokens(value: string): seq<string>
    decreases |value|
  {
    if value == "" then []
    else
      var n := RunLength(value);
      if n == 0 then FindTokens(value[1..])
      else (if MIN_CODE <= n <= MAX_CODE then [value[..n]] else []) + FindTokens(value[n..])
  }

  /** `t` stands at `i` with no letter or digit on either side. */
  predicate TokenAt(value: string, i: nat, t: string) {
    && i + |t| <= |value| && value[i..i + |t|] == t
    && MIN_CODE <= |t| <= MAX_CODE
    && (forall k :: 0 <= k < |t| ==> IsCodeChar(t[k]))
    && (i > 0 ==> !IsCodeChar(value[i - 1]))
    && (i + |t| < |value| ==> !IsCodeChar(value[i + |t|]))
  }

  ghost predicate HasToken(value: string, t: string) { exists i: nat :: TokenAt(value, i, t) }

  /** Past the first run, or past one other character, the tokens are those of the rest. */
  lemma TokenAtShifted(value: string, n: nat, i: nat, t: string)
    requires 0 < n <= |value| && (n < |value| ==> IsCodeChar(value[n - 1]) ==> !IsCodeChar(value[n]))
    ensures TokenAt(value[n..], i, t) <==> TokenAt(value, n + i, t)
  {
    var rest := value[n..];
    if i + |t| <= |rest| {
      assert rest[i..i + |t|] == value[n + i..n + i + |t|];
      if i == 0 && |t| > 0 && t == rest[..|t|] {
        assert t[0] == value[n];
      }
    }
  }

  lemma FirstRunOnly(value: string, i: nat, t: string)
    requires TokenAt(value, i, t) && i < RunLength(value)
    ensures i == 0 && t == value[..RunLength(value)]
  {
    assert i == 0;
    assert t == value[..|t|];
  }

  lemma TokensStep(value: string)
    requires value != ""
    ensures var n := RunLength(value);
            FindTokens(value) ==
              if n == 0 then FindTokens(value[1..])
              else (if MIN_CODE <= n <= MAX_CODE then [value[..n]] else []) + FindTokens(value[n..])
  {
  }

  /** The tokens found are exactly the maximal runs of six to sixty-four letters and digits. */
  lemma {:induction false} FoundIffMaximalRun(value: string, t: string)
    ensures t in FindTokens(value) <==> HasToken(value, t)
    decreases |value|
  {
    if value == "" {
      assert !HasToken(value, t);
    } else {
      hide FindTokens, TokenAt;
      TokensStep(value);
      var n := RunLength(value);
      var cut := if n == 0 then 1 else n;
      FoundIffMaximalRun(value[cut..], t);
      ShiftTokens(value, cut, t);
      FirstToken(value, t);
    }
  }

  lemma ShiftTokens(value: string, cut: nat, t: string)
    requires value != "" && cut == (if RunLength(value) == 0 then 1 else RunLength(value))
    ensures HasToken(value[cut..], t) <==> exists i: nat :: i >= cut && TokenAt(value, i, t)
  {
    hide TokenAt, RunLength;
    var n := RunLength(value);
    forall i: nat ensures TokenAt(value[cut..], i, t) <==> TokenAt(value, cut + i, t) {
      TokenAtShifted(value, cut, i, t);
    }
    if HasToken(value[cut..], t) {
      var i: nat :| TokenAt(value[cut..], i, t);
      assert TokenAt(value, cut + i, t);
    }
    if i: nat :| i >= cut && TokenAt(value, i, t) {
      assert TokenAt(value[cut..], i - cut, t);
    }
  }

  /** A token that starts before the cut is the first run itself. */
  lemma FirstToken(value: string, t: string)
    requires value != ""
    ensures var n := RunLength(value);
            var cut := if n == 0 then 1 else n;
            (exists i: nat :: i < cut && TokenAt(value, i, t)) <==>
              MIN_CODE <= n <= MAX_CODE && t == value[..n]
  {
    var n := RunLength(value);
    var cut := if n == 0 then 1 else n;
    if MIN_CODE <= n <= MAX_CODE && t == value[..n] {
      assert TokenAt(value, 0, t);
    }
    if i: nat :| i < cut && TokenAt(value, i, t) {
      if n == 0 {
        assert false;
      } else {
        FirstRunOnly(value, i, t);
      }
    }
  }

  lemma NoStartBefore(value: string, i: nat, t: string)
    requires value != "" && TokenAt(value, i, t)
    requires i < (if RunLength(value) == 0 then 1 else RunLength(value))
    ensures i == 0 && t == value[..RunLength(value)] && MIN_CODE <= RunLength(value) <= MAX_CODE
  {
    if RunLength(value) > 0 {
      FirstRunOnly(value, i, t);
    }
  }

  /** The places where these tokens stand, in order and all of them. */
  ghost predicate StandAt(value: string, starts: seq<nat>, tokens: seq<string>) {
    && |starts| == |tokens|
    && (forall j, k :: 0 <= j < k < |starts| ==> starts[j] < starts[k])
    && (forall k :: 0 <= k < |starts| ==> TokenAt(value, starts[k], tokens[k]))
    && (forall i: nat, t :: TokenAt(value, i, t) ==> i in starts)
  }

  function Shifted(starts: seq<nat>, cut: nat): (shifted: seq<nat>)
    ensures |shifted| == |starts| && forall k :: 0 <= k < |starts| ==> shifted[k] == starts[k] + cut
  {
    seq(|starts|, k requires 0 <= k < |starts| => starts[k] + cut)
  }

  lemma LaterTokens(value: string, cut: nat, rest: seq<nat>, tokens: seq<string>)
    requires value != "" && cut == (if RunLength(value) == 0 then 1 else RunLength(value))
    requires StandAt(value[cut..], rest, tokens)
    ensures |rest| == |tokens| && forall k :: 0 <= k < |rest| ==> TokenAt(value, Shifted(rest, cut)[k], tokens[k])
    ensures forall i: nat, t :: i >= cut && TokenAt(value, i, t) ==> i in Shifted(rest, cut)
  {
    hide TokenAt, RunLength;
    RunEnds(value);
    forall k | 0 <= k < |rest| ensures TokenAt(value, Shifted(rest, cut)[k], tokens[k]) {
      TokenAtShifted(value, cut, rest[k], tokens[k]);
    }
    forall i: nat, t | i >= cut && TokenAt(value, i, t) ensures i in Shifted(rest, cut) {
      TokenAtShifted(value, cut, i - cut, t);
      assert i - cut in rest;
      var k :| 0 <= k < |rest| && rest[k] == i - cut;
      assert Shifted(rest, cut)[k] == i;
    }
  }

  lemma FirstAndLater(value: string, rest: seq<nat>, tokens: seq<string>)
    requires value != ""
    requires var n := RunLength(value);
             StandAt(value[if n == 0 then 1 else n..], rest, tokens)
    ensures var n := RunLength(value);
            var later := Shifted(rest, if n == 0 then 1 else n);
            if MIN_CODE <= n <= MAX_CODE then StandAt(value, [0] + later, [value[..n]] + tokens)
            else StandAt(value, later, tokens)
  {
    hide *;
    var n := RunLength(value);
    var cut := if n == 0 then 1 else n;
    var later := Shifted(rest, cut);
    LaterTokens(value, cut, rest, tokens);
    InOrder(value[cut..], rest, tokens);
    forall i: nat, t | TokenAt(value, i, t) ensures (i == 0 && MIN_CODE <= n <= MAX_CODE) || i in later {
      if i < cut {
        NoStartBefore(value, i, t);
      }
    }
    if MIN_CODE <= n <= MAX_CODE {
      FirstIsToken(value);
      FirstStands(value, later, value[..n], tokens);
    } else {
      AllStand(value, later, tokens);
    }
  }

  lemma InOrder(value: string, starts: seq<nat>, tokens: seq<string>)
    requires StandAt(value, starts, tokens)
    ensures |starts| == |tokens| && forall j, k :: 0 <= j < k < |starts| ==> starts[j] < starts[k]
  {
    hide TokenAt;
  }

  lemma AllStand(value: string, starts: seq<nat>, tokens: seq<string>)
    requires |starts| == |tokens| && forall j, k :: 0 <= j < k < |starts| ==> starts[j] < starts[k]
    requires forall k :: 0 <= k < |starts| ==> TokenAt(value, starts[k], tokens[k])
    requires forall i: nat, t :: TokenAt(value, i, t) ==> i in starts
    ensures StandAt(value, starts, tokens)
  {
    hide TokenAt;
  }

  lemma FirstStands(value: string, later: seq<nat>, first: string, tokens: seq<string>)
    requires |later| == |tokens| && forall j, k :: 0 <= j < k < |later| ==> later[j] < later[k]
    requires forall k :: 0 <= k < |later| ==> later[k] > 0 && TokenAt(value, later[k], tokens[k])
    requires TokenAt(value, 0, first)
    requires forall i: nat, t :: TokenAt(value, i, t) ==> i == 0 || i in later
    ensures StandAt(value, [0] + later, [first] + tokens)
  {
    hide TokenAt;
    var starts, all := [0] + later, [first] + tokens;
    forall k | 0 <= k < |starts| ensures TokenAt(value, starts[k], all[k]) {
      if k > 0 {
        assert starts[k] == later[k - 1] && all[k] == tokens[k - 1];
      }
    }
    forall j, k | 0 <= j < k < |starts| ensures starts[j] < starts[k] {
      assert starts[k] == later[k - 1];
      if j > 0 {
        assert starts[j] == later[j - 1];
      }
    }
  }

  /** The tokens are listed in the order in which they stand, each once for each place where it stands. */
  lemma {:induction false} TokensInOrder(value: string) returns (starts: seq<nat>)
    ensures StandAt(value, starts, FindTokens(value))
    decreases |value|
  {
    hide FindTokens, StandAt, RunLength;
    if value == "" {
      starts := [];
      NothingStands();
    } else {
      TokensStep(value);
      var n := RunLength(value);
      var cut := if n == 0 then 1 else n;
      var rest := TokensInOrder(value[cut..]);
      FirstAndLater(value, rest, FindTokens(value[cut..]));
      starts := (if MIN_CODE <= n <= MAX_CODE then [0] else []) + Shifted(rest, cut);
      assert [] + FindTokens(value[cut..]) == FindTokens(value[cut..]);
      assert [] + Shifted(rest, cut) == Shifted(rest, cut);
    }
  }

  lemma NothingStands()
    ensures StandAt("", [], FindTokens(""))
  {
  }

  lemma RunEnds(value: string)
    requires value != ""
    ensures var n := RunLength(value);
            var cut := if n == 0 then 1 else n;
            cut <= |value| && (cut < |value| ==> IsCodeChar(value[cut - 1]) ==> !IsCodeChar(value[cut]))
  {
  }

  lemma FirstIsToken(value: string)
    requires MIN_CODE <= RunLength(value) <= MAX_CODE
    ensures TokenAt(value, 0, value[..RunLength(value)])
  {
  }

  method RunEnd(value: string, start: nat) returns (end: nat)
    requires start <= |value|
    ensures end - start == RunLength(value[start..]) && start <= end <= |value|
  {
    end := start;
    while end < |value| && IsCodeChar(value[end])
      invariant start <= end <= |value|
      invariant RunLength(value[start..]) == end - start + RunLength(value[end..])
    {
      assert value[end..][1..] == value[end + 1..];
      end := end + 1;
    }
  }

  method FindCodes(value: string) returns (codes: seq<string>)
    ensures codes == FindTokens(value)
  {
    hide FindTokens, RunLength;
    codes := [];
    var i := 0;
    assert value[0..] == value;
    while i < |value|
      invariant 0 <= i <= |value|
      invariant FindTokens(value) == codes + FindTokens(value[i..])
    {
      TokensStep(value[i..]);
      var end := RunEnd(value, i);
      if end == i {
        assert value[i..][1..] == value[i + 1..];
        i := i + 1;
      } else {
        assert value[i..][end - i..] == value[end..];
        assert value[i..][..end - i] == value[i..end];
        ghost var rest := FindTokens(value[end..]);
        assert codes + ([value[i..end]] + rest) == codes + [value[i..end]] + rest;
        assert codes + ([] + rest) == codes + rest;
        if MIN_CODE <= end - i <= MAX_CODE {
          codes := codes + [value[i..end]];
        }
        i := end;
      }
    }
    assert value[i..] == "";
    NoTokens();
    assert codes + [] == codes;
  }

  lemma NoTokens()
    ensures FindTokens("") == []
  {
  }
}
