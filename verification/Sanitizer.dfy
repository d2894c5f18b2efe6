/**
  Control characters in log lines: `_sanitize_for_terminal` of
  dashboard/backend/app/routers/logs_ws.py, against a reading of its result place by place.
  */
module Sanitizer {
  import opened Bytes

  const ESC := '\U{1b}'

  // ---------------------------------------------------------------- what the code takes for what

  /** The regular expression's class between introducer and final byte, in any mixture. */
  predicate IsMiddle(c: char) {
    0x20 as char <= c <= 0x3f as char
  }

  predicate IsFinal(c: char) {
    0x40 as char <= c <= 0x7e as char
  }

  /** What the regular expression matches as a whole. */
  ghost predicate IsMatch(s: string) {
    && |s| >= 3 && s[0] == ESC && s[1] == '['
    && (forall k | 2 <= k < |s| - 1 :: IsMiddle(s[k]))
    && IsFinal(s[|s| - 1])
  }

  /** The controls that the code replaces; those of the C1 set are not among them. */
  predicate IsReplaced(c: char) {
    c < 0x20 as char || c == 0x7f as char
  }

  predicate IsLayout(c: char) {
    c == '\t' || c == '\n' || c == '\r'
  }

  /** Of these, all but tab, newline and carriage return are shown as a dot. */
  function Clean(c: char): char {
    if IsLayout(c) then c else if IsReplaced(c) then '.' else c
  }

  /** Without NUL and BEL. */
  function Strip(raw: string): string {
    if raw == "" then ""
    else if raw[0] == 0x00 as char || raw[0] == 0x07 as char then Strip(raw[1..])
    else [raw[0]] + Strip(raw[1..])
  }

  // ---------------------------------------------------------------- the code

  function ParametersEnd(s: string, k: nat): (e: nat)
    requires k <= |s|
    ensures k <= e <= |s|
    ensures forall i | k <= i < e :: IsMiddle(s[i])
    ensures e < |s| ==> !IsMiddle(s[e])
    decreases |s| - k
  {
    if k < |s| && IsMiddle(s[k]) then ParametersEnd(s, k + 1) else k
  }

  /** The length of the match at the start of `s`, 0 for none. */
  function Match(s: string): (n: nat)
    ensures n <= |s|
    ensures n > 0 ==> IsMatch(s[..n])
    ensures n == 0 ==> forall j | 0 <= j <= |s| :: !IsMatch(s[..j])
  {
    if |s| < 2 || s[0] != ESC || s[1] != '[' then 0 else
    var e := ParametersEnd(s, 2);
    if e < |s| && IsFinal(s[e]) then e + 1 else
      assert forall j | 3 <= j <= |s| && IsFinal(s[..j][j - 1]) :: !IsMiddle(s[j - 1]);
      assert forall j | e + 2 <= j <= |s| :: s[..j][e] == s[e];
      0
  }

  /** What stands at place `i` of the result. */
  ghost function Shown(s: string, i: nat): char
    requires i < |s|
  {
    if StartsMatch(s, i) then s[i] else Clean(s[i])
  }

  ghost predicate StartsMatch(s: string, i: nat)
    requires i < |s|
  {
    exists j | i <= j <= |s| :: IsMatch(s[i..j])
  }

  ghost predicate IsSanitized(r: string, s: string) {
    |r| == |s| && forall i | 0 <= i < |s| :: r[i] == Shown(s, i)
  }

  lemma {:induction false} NoMatch(s: string, i: nat)
    requires i < |s|
    requires s[i] != ESC || i + 1 == |s| || s[i + 1] != '[' || Match(s[i..]) == 0
    ensures !StartsMatch(s, i)
  {
    forall j | i <= j <= |s| ensures !IsMatch(s[i..j]) {
      assert s[i..j] == s[i..][..j - i];
    }
  }

  lemma {:induction false} MatchIsShown(s: string, i: nat)
    requires i < |s| && Match(s[i..]) > 0
    ensures forall k | i <= k < i + Match(s[i..]) :: s[k] == Shown(s, k)
  {
    var n := Match(s[i..]);
    assert s[i..i + n] == s[i..][..n];
    assert StartsMatch(s, i);
    MatchHasNoControls(s, i, i + n);
  }

  lemma {:induction false} MatchHasNoControls(s: string, i: nat, j: nat)
    requires i <= j <= |s| && IsMatch(s[i..j])
    ensures s[i] == ESC && forall k | i < k < j :: s[k] != ESC && Clean(s[k]) == s[k]
  {
    assert s[i..j][0] == s[i] && s[i..j][1] == s[i + 1];
    forall k | i < k < j ensures s[k] != ESC && Clean(s[k]) == s[k] {
      assert s[k] == s[i..j][k - i];
    }
  }

  /** What is shown of the first i places. */
  ghost predicate ShownUpTo(r: string, s: string, i: nat) {
    |r| == i <= |s| && forall k | 0 <= k < i :: r[k] == Shown(s, k)
  }

  lemma {:induction false} MatchIsNext(r: string, s: string, i: nat, n: nat)
    requires ShownUpTo(r, s, i) && i < |s| && n == Match(s[i..]) > 0
    ensures ShownUpTo(r + s[i..][..n], s, i + n)
  {
    MatchIsShown(s, i);
    assert s[i..][..n] == s[i..i + n];
  }

  lemma {:induction false} CharIsNext(r: string, s: string, i: nat)
    requires ShownUpTo(r, s, i) && i < |s| && !StartsMatch(s, i)
    ensures ShownUpTo(r + [Clean(s[i])], s, i + 1)
  {
  }

  method Sanitize(raw: string) returns (r: string)
    ensures IsSanitized(r, Strip(raw))
  {
    var s := Strip(raw);
    r := "";
    var i := 0;
    while i < |s|
      invariant ShownUpTo(r, s, i)
    {
      if s[i] == ESC && i + 1 < |s| && s[i + 1] == '[' {
        var n := Match(s[i..]);
        if n > 0 {
          MatchIsNext(r, s, i, n);
          r := r + s[i..][..n];
          i := i + n;
          continue;
        }
      }
      NoMatch(s, i);
      CharIsNext(r, s, i);
      if IsLayout(s[i]) {
        r := r + [s[i]];
        i := i + 1;
        continue;
      }
      if IsReplaced(s[i]) {
        r := r + ['.'];
      } else {
        r := r + [s[i]];
      }
      i := i + 1;
    }
  }

  // ---------------------------------------------------------------- the properties

  lemma {:induction false} PrefixFree(a: string, b: string)
    ensures IsMatch(a) && a <= b && |a| < |b| ==> !IsMatch(b)
  {
    assert IsMatch(a) && a <= b && |a| < |b| ==> b[|a| - 1] == a[|a| - 1];
  }

  lemma {:induction false} OneEnd(s: string, i: nat, j: nat, k: nat)
    requires i <= j <= |s| && i <= k <= |s| && IsMatch(s[i..j]) && IsMatch(s[i..k])
    ensures j == k
  {
    var a, b := s[i..j], s[i..k];
    assert a <= b || b <= a;
    PrefixFree(a, b);
    PrefixFree(b, a);
  }

  lemma {:induction false} MatchIsKept(r: string, s: string, i: nat, j: nat)
    requires IsSanitized(r, s) && i <= j <= |s| && IsMatch(s[i..j])
    ensures r[i..j] == s[i..j]
  {
    MatchHasNoControls(s, i, j);
    assert StartsMatch(s, i);
    forall k | i <= k < j ensures r[k] == s[k] {
      assert r[k] == Shown(s, k);
    }
  }

  /** The result has a match exactly where the text without NUL and BEL has one, the same one. */
  lemma {:induction false} SameSequences(r: string, s: string, i: nat, j: nat)
    requires IsSanitized(r, s) && i <= j <= |s|
    ensures IsMatch(r[i..j]) <==> IsMatch(s[i..j])
    ensures IsMatch(s[i..j]) ==> r[i..j] == s[i..j]
  {
    if IsMatch(s[i..j]) {
      MatchIsKept(r, s, i, j);
    }
    if IsMatch(r[i..j]) {
      assert r[i..j][0] == r[i] == Shown(s, i);
      assert StartsMatch(s, i);
      var k :| i <= k <= |s| && IsMatch(s[i..k]);
      MatchIsKept(r, s, i, k);
      OneEnd(r, i, j, k);
    }
  }

  /** Nothing is left to replace but layout and the first character of a match. */
  ghost predicate IsTidy(s: string) {
    forall i | 0 <= i < |s| :: TidyAt(s, i)
  }

  ghost predicate TidyAt(s: string, i: nat)
    requires i < |s|
  {
    StartsMatch(s, i) || s[i] == Clean(s[i])
  }

  lemma {:induction false} ResultIsTidy(r: string, s: string)
    requires IsSanitized(r, s)
    ensures IsTidy(r)
  {
    forall i | 0 <= i < |r| ensures TidyAt(r, i) {
      if StartsMatch(s, i) {
        var j :| i <= j <= |s| && IsMatch(s[i..j]);
        SameSequences(r, s, i, j);
      }
    }
  }

  lemma {:induction false} StripTidy(s: string)
    requires forall i | 0 <= i < |s| :: s[i] != 0x00 as char && s[i] != 0x07 as char
    ensures Strip(s) == s
  {
    if s != "" {
      StripTidy(s[1..]);
      assert s == [s[0]] + s[1..];
    }
  }

  lemma {:induction false} TidyHasNoNulOrBel(s: string)
    requires IsTidy(s)
    ensures Strip(s) == s
  {
    forall i | 0 <= i < |s| ensures s[i] != 0x00 as char && s[i] != 0x07 as char {
      assert TidyAt(s, i);
      if StartsMatch(s, i) {
        var j :| i <= j <= |s| && IsMatch(s[i..j]);
        assert s[i..j][0] == s[i];
      }
    }
    StripTidy(s);
  }

  /** The texts that sanitizing leaves alone. */
  lemma {:induction false} TidyIff(s: string)
    ensures IsTidy(s) <==> IsSanitized(s, Strip(s))
  {
    if IsTidy(s) {
      TidyHasNoNulOrBel(s);
      forall i | 0 <= i < |s| ensures s[i] == Shown(s, i) {
        assert TidyAt(s, i);
      }
    }
    if IsSanitized(s, Strip(s)) {
      ResultIsTidy(s, Strip(s));
    }
  }

  /** Sanitizing twice is sanitizing once. */
  lemma {:induction false} Idempotent(raw: string, once: string, twice: string)
    requires IsSanitized(once, Strip(raw)) && IsSanitized(twice, Strip(once))
    ensures twice == once
  {
    ResultIsTidy(once, Strip(raw));
    TidyHasNoNulOrBel(once);
    TidyIff(once);
    assert |twice| == |once| && forall i | 0 <= i < |once| :: twice[i] == once[i];
  }

  /** It never lengthens: it is shorter by the NULs and BELs, no more and no less. */
  lemma {:induction false} NeverLonger(raw: string, r: string)
    requires IsSanitized(r, Strip(raw))
    ensures |r| == |raw| - multiset(raw)[0x00 as char] - multiset(raw)[0x07 as char]
  {
    StripLength(raw);
  }

  lemma {:induction false} StripLength(raw: string)
    ensures |Strip(raw)| == |raw| - multiset(raw)[0x00 as char] - multiset(raw)[0x07 as char]
  {
    if raw != "" {
      StripLength(raw[1..]);
      assert raw == [raw[0]] + raw[1..];
    }
  }

  // ---------------------------------------------------------------- what the result is made of

  ghost predicate IsCodePiece(p: string) {
    IsMatch(p) || (|p| == 1 && (IsLayout(p[0]) || !IsReplaced(p[0])))
  }

  ghost predicate InCodeGrammar(s: string) {
    exists parts: seq<string> :: CodePieces(parts) && Concat(parts) == s
  }

  ghost predicate CodePieces(parts: seq<string>) {
    forall i | 0 <= i < |parts| :: IsCodePiece(parts[i])
  }

  lemma {:induction false} SuffixIsTidy(s: string, n: nat)
    requires n <= |s| && IsTidy(s)
    ensures IsTidy(s[n..])
  {
    forall i | 0 <= i < |s[n..]| ensures TidyAt(s[n..], i) {
      assert TidyAt(s, n + i);
      if StartsMatch(s, n + i) {
        var j :| n + i <= j <= |s| && IsMatch(s[n + i..j]);
        assert s[n..][i..j - n] == s[n + i..j];
      }
    }
  }

  lemma {:induction false} SplitTidy(s: string) returns (parts: seq<string>)
    requires IsTidy(s)
    ensures CodePieces(parts) && Concat(parts) == s
    decreases |s|
  {
    if s == "" {
      parts := [];
    } else {
      var n := if Match(s) > 0 then Match(s) else 1;
      SuffixIsTidy(s, n);
      var rest := SplitTidy(s[n..]);
      parts := [s[..n]] + rest;
      assert parts[1..] == rest && s == s[..n] + s[n..];
      assert TidyAt(s, 0);
      if Match(s) == 0 {
        assert s[0..] == s;
        NoMatch(s, 0);
      }
    }
  }

  lemma {:induction false} PiecesAreTidy(parts: seq<string>)
    requires CodePieces(parts)
    ensures IsTidy(Concat(parts))
  {
    if parts != [] {
      var p, rest := parts[0], Concat(parts[1..]);
      PiecesAreTidy(parts[1..]);
      var s := p + rest;
      forall i | 0 <= i < |s| ensures TidyAt(s, i) {
        if i < |p| {
          assert s[0..|p|] == p;
          if IsMatch(p) {
            MatchHasNoControls(s, 0, |p|);
          }
        } else {
          assert TidyAt(rest, i - |p|);
          if StartsMatch(rest, i - |p|) {
            var j :| i - |p| <= j <= |rest| && IsMatch(rest[i - |p|..j]);
            assert s[i..j + |p|] == rest[i - |p|..j];
          }
        }
      }
    }
  }

  /** Sanitizing leaves alone exactly the concatenations of matches, layout and characters it does not replace. */
  lemma {:induction false} LeftAloneIff(s: string)
    ensures IsSanitized(s, Strip(s)) <==> InCodeGrammar(s)
  {
    TidyIff(s);
    if IsTidy(s) {
      var parts := SplitTidy(s);
    }
    if InCodeGrammar(s) {
      var parts: seq<string> :| CodePieces(parts) && Concat(parts) == s;
      PiecesAreTidy(parts);
    }
  }

  lemma {:induction false} ResultSplits(r: string, raw: string)
    requires IsSanitized(r, Strip(raw))
    ensures InCodeGrammar(r)
  {
    ResultIsTidy(r, Strip(raw));
    TidyIff(r);
    LeftAloneIff(r);
  }

  // ---------------------------------------------------------------- ECMA-48

  /** Parameter bytes, section 5.4.1 of ECMA-48. */
  predicate IsParameter(c: char) {
    0x30 as char <= c <= 0x3f as char
  }

  /** Intermediate bytes, section 5.4 of ECMA-48. */
  predicate IsIntermediate(c: char) {
    0x20 as char <= c <= 0x2f as char
  }

  /** A control sequence in its 7-bit form: introducer, parameter bytes, then intermediate bytes, final byte. */
  ghost predicate IsSequence(s: string) {
    && |s| >= 3 && s[0] == ESC && s[1] == '[' && IsFinal(s[|s| - 1])
    && exists m :: 2 <= m <= |s| - 1 && SplitsAt(s, m)
  }

  ghost predicate SplitsAt(s: string, m: nat)
    requires 2 <= m <= |s| - 1
  {
    && (forall k | 2 <= k < m :: IsParameter(s[k]))
    && (forall k | m <= k < |s| - 1 :: IsIntermediate(s[k]))
  }

  /** An intermediate byte comes before a parameter byte. */
  ghost predicate IsMixed(s: string) {
    exists a, b | 2 <= a < b < |s| - 1 :: IsIntermediate(s[a]) && IsParameter(s[b])
  }

  /** The control characters of the C0 and C1 sets, and DEL. */
  predicate IsControl(c: char) {
    c < 0x20 as char || 0x7f as char <= c <= 0x9f as char
  }

  predicate IsC1(c: char) {
    0x80 as char <= c <= 0x9f as char
  }

  lemma {:induction false} FirstIntermediate(s: string, k: nat) returns (m: nat)
    requires 2 <= k <= |s| - 1
    ensures 2 <= m <= k && (m < k ==> IsIntermediate(s[m])) && forall i | 2 <= i < m :: !IsIntermediate(s[i])
  {
    if k == 2 {
      m := 2;
    } else {
      m := FirstIntermediate(s, k - 1);
      if m == k - 1 && !IsIntermediate(s[m]) {
        m := k;
      }
    }
  }

  /** A match is a control sequence exactly when nothing in it is out of order. */
  lemma {:induction false} SequenceIff(s: string)
    ensures IsSequence(s) <==> IsMatch(s) && !IsMixed(s)
  {
    if IsMatch(s) && !IsMixed(s) {
      var m := FirstIntermediate(s, |s| - 1);
      forall k | m <= k < |s| - 1 ensures IsIntermediate(s[k]) {
        assert IsMiddle(s[k]);
        if k > m {
          assert IsIntermediate(s[m]) && !IsParameter(s[k]);
        }
      }
      assert forall k | 2 <= k < m :: IsMiddle(s[k]) && IsParameter(s[k]);
      assert SplitsAt(s, m);
    }
    if IsSequence(s) {
      var m :| 2 <= m <= |s| - 1 && SplitsAt(s, m);
      assert forall k | 2 <= k < |s| - 1 ::
          (if k < m then IsParameter(s[k]) else IsIntermediate(s[k])) && IsMiddle(s[k]);
    }
  }

  /** Every control sequence that survives the removal of NUL and BEL is kept, in its place. */
  lemma {:induction false} SequenceIsKept(r: string, raw: string, i: nat, j: nat)
    requires IsSanitized(r, Strip(raw)) && i <= j <= |Strip(raw)| && IsSequence(Strip(raw)[i..j])
    ensures r[i..j] == Strip(raw)[i..j]
  {
    SequenceIff(Strip(raw)[i..j]);
    SameSequences(r, Strip(raw), i, j);
  }

  ghost predicate IsPiece(p: string) {
    IsSequence(p) || (|p| == 1 && (IsLayout(p[0]) || !IsControl(p[0])))
  }

  ghost predicate Pieces(parts: seq<string>) {
    forall i | 0 <= i < |parts| :: IsPiece(parts[i])
  }

  /** A concatenation of complete control sequences, layout and characters that are not controls. */
  ghost predicate InGrammar(s: string) {
    exists parts: seq<string> :: Pieces(parts) && Concat(parts) == s
  }

  ghost predicate NoC1(s: string) {
    forall i | 0 <= i < |s| :: !IsC1(s[i])
  }

  ghost predicate NoMixedMatch(s: string) {
    forall i, j | 0 <= i <= j <= |s| && IsMatch(s[i..j]) :: !IsMixed(s[i..j])
  }

  /** A match in `p + rest` is `p` itself or lies in `rest`. */
  lemma {:induction false} MatchInPieces(p: string, rest: string, i: nat, j: nat)
    requires IsPiece(p) && i <= j <= |p| + |rest| && IsMatch((p + rest)[i..j])
    ensures if i < |p| then (p + rest)[i..j] == p && IsSequence(p) else (p + rest)[i..j] == rest[i - |p|..j - |p|]
  {
    var s := p + rest;
    assert s[i..j][0] == s[i];
    if i < |p| {
      SequenceIff(p);
      assert s[0..|p|] == p;
      if IsSequence(p) {
        MatchHasNoControls(s, 0, |p|);
        OneEnd(s, 0, |p|, j);
      }
    }
  }

  lemma {:induction false} NoC1Together(p: string, rest: string)
    requires IsPiece(p) && NoC1(rest)
    ensures NoC1(p + rest)
  {
    SequenceIff(p);
    forall i | 0 <= i < |p + rest| ensures !IsC1((p + rest)[i]) {
      if i < |p| && IsSequence(p) && 2 <= i < |p| - 1 {
        assert IsMiddle(p[i]);
      }
    }
  }

  lemma {:induction false} PiecesAreStrict(parts: seq<string>)
    requires Pieces(parts)
    ensures NoC1(Concat(parts)) && NoMixedMatch(Concat(parts))
  {
    if parts != [] {
      var p, rest := parts[0], Concat(parts[1..]);
      PiecesAreStrict(parts[1..]);
      NoC1Together(p, rest);
      forall i, j | 0 <= i <= j <= |p + rest| && IsMatch((p + rest)[i..j]) ensures !IsMixed((p + rest)[i..j]) {
        MatchInPieces(p, rest, i, j);
        SequenceIff(p);
      }
    }
  }

  lemma {:induction false} PartsAreIn(parts: seq<string>, k: nat) returns (at: nat)
    requires k < |parts|
    ensures at + |parts[k]| <= |Concat(parts)| && Concat(parts)[at..at + |parts[k]|] == parts[k]
  {
    var p, rest := parts[0], Concat(parts[1..]);
    if k == 0 {
      at := 0;
    } else {
      var m := PartsAreIn(parts[1..], k - 1);
      at := |p| + m;
      assert (p + rest)[at..at + |parts[k]|] == rest[m..m + |parts[k]|];
    }
  }

  lemma {:induction false} StrictPieces(parts: seq<string>)
    requires CodePieces(parts) && NoC1(Concat(parts)) && NoMixedMatch(Concat(parts))
    ensures Pieces(parts)
  {
    forall k | 0 <= k < |parts| ensures IsPiece(parts[k]) {
      assert IsCodePiece(parts[k]);
      var at := PartsAreIn(parts, k);
      SequenceIff(parts[k]);
      if !IsMatch(parts[k]) {
        assert parts[k][0] == Concat(parts)[at..at + 1][0] == Concat(parts)[at];
      }
    }
  }

  lemma {:induction false} StrictIff(s: string)
    requires InCodeGrammar(s)
    ensures InGrammar(s) <==> NoC1(s) && NoMixedMatch(s)
  {
    if InGrammar(s) {
      var parts: seq<string> :| Pieces(parts) && Concat(parts) == s;
      PiecesAreStrict(parts);
    }
    if NoC1(s) && NoMixedMatch(s) {
      var parts: seq<string> :| CodePieces(parts) && Concat(parts) == s;
      StrictPieces(parts);
    }
  }

  lemma {:induction false} C1Stays(r: string, s: string)
    requires IsSanitized(r, s)
    ensures NoC1(r) <==> NoC1(s)
  {
    forall i | 0 <= i < |s| ensures IsC1(r[i]) <==> IsC1(s[i]) {
      assert r[i] == Shown(s, i);
    }
  }

  lemma {:induction false} MixedStays(r: string, s: string)
    requires IsSanitized(r, s)
    ensures NoMixedMatch(r) <==> NoMixedMatch(s)
  {
    forall i, j | 0 <= i <= j <= |s| && (IsMatch(r[i..j]) || IsMatch(s[i..j])) ensures r[i..j] == s[i..j] {
      SameSequences(r, s, i, j);
    }
  }

  /**
    The result is a concatenation of complete control sequences, layout and characters that are no controls if and
    only if the text, without NUL and BEL, has no C1 control and no match with an intermediate byte before a
    parameter byte.
    */
  lemma {:induction false} ResultInGrammarIff(r: string, raw: string)
    requires IsSanitized(r, Strip(raw))
    ensures InGrammar(r) <==> NoC1(Strip(raw)) && NoMixedMatch(Strip(raw))
  {
    ResultSplits(r, raw);
    StrictIff(r);
    C1Stays(r, Strip(raw));
    MixedStays(r, Strip(raw));
  }

  /** ESC [ space 0 m is no control sequence, and is kept whole. */
  lemma {:induction false} MixedIsKept(raw: string, r: string)
    requires raw == [ESC, '[', ' ', '0', 'm'] && IsSanitized(r, Strip(raw))
    ensures r == raw && !IsSequence(raw) && !InGrammar(r)
  {
    StripTidy(raw);
    assert raw[0..5] == raw && IsMatch(raw[0..5]);
    assert IsIntermediate(raw[2]) && IsParameter(raw[3]);
    assert IsMixed(raw[0..5]);
    SequenceIff(raw);
    SameSequences(r, raw, 0, 5);
    assert r[0..5] == r;
    ResultInGrammarIff(r, raw);
  }

  /** U+009B, the 8-bit introducer, passes. */
  lemma {:induction false} C1IsKept(raw: string, r: string)
    requires raw == [0x9b as char, '3', '1', 'm'] && IsSanitized(r, Strip(raw))
    ensures r == raw && !InGrammar(r)
  {
    StripTidy(raw);
    forall i | 0 <= i < |raw| ensures r[i] == raw[i] {
      assert r[i] == Shown(raw, i);
    }
    assert IsC1(raw[0]);
    ResultInGrammarIff(r, raw);
  }
}
