/** deployment/internal/feedback/feedback.go: the retry counter kept inside the header text. */
module RetryHeader {
  const HINT := "retrying to get status #"
  const PREFIX := "(" + HINT
  const MAX_INT: int := 0x7fff_ffff_ffff_ffff

  predicate IsDigit(c: char) {
    '0' <= c <= '9'
  }

  /** The characters of the regular expression class \s. */
  predicate IsSpace(c: char) {
    c == ' ' || c == '\t' || c == '\n' || c == '\r' || c == '\U{000C}'
  }

  predicate AllDigits(s: string) {
    forall i :: 0 <= i < |s| ==> IsDigit(s[i])
  }

  function Digits(n: nat): string {
    if n < 10 then [(n as char) + '0'] else Digits(n / 10) + [((n % 10) as char) + '0']
  }

  function Itoa(n: int): string {
    if n < 0 then "-" + Digits(-n) else Digits(n)
  }

  function DigitsValue(s: string): nat
    requires AllDigits(s)
  {
    if s == "" then 0 else 10 * DigitsValue(s[..|s| - 1]) + (s[|s| - 1] - '0') as nat
  }

  /** A value out of range reads as the largest 64-bit integer, the error being ignored. */
  function Atoi(s: string): int
    requires AllDigits(s)
  {
    if DigitsValue(s) > MAX_INT then MAX_INT else DigitsValue(s)
  }

  /** A 64-bit increment. */
  function Increment(n: int): int {
    if n == MAX_INT then -MAX_INT - 1 else n + 1
  }

  /** The end of the run of digits that starts at i. */
  function DigitsEnd(s: string, i: nat): (e: nat)
    requires i <= |s|
    ensures i <= e <= |s| && AllDigits(s[i..e])
    decreases |s| - i
  {
    if i < |s| && IsDigit(s[i]) then
      assert forall e :: i < e <= |s| ==> s[i..e] == [s[i]] + s[i + 1..e];
      DigitsEnd(s, i + 1)
    else i
  }

  /** Where the match of \(retrying to get status #([0-9]+)\) that starts at i ends, or -1 when there is none.
      The digits are followed by a parenthesis, so the greedy run is the only candidate. */
  function MatchEnd(s: string, i: nat): (e: int)
    ensures e != -1 ==>
              && i + |PREFIX| + 1 < e <= |s|
              && s[i..i + |PREFIX|] == PREFIX
              && AllDigits(s[i + |PREFIX|..e - 1])
              && s[e - 1] == ')'
  {
    var from := i + |PREFIX|;
    if from <= |s| && s[i..from] == PREFIX && from < DigitsEnd(s, from) < |s| && s[DigitsEnd(s, from)] == ')'
    then DigitsEnd(s, from) + 1
    else -1
  }

  predicate HasMarker(s: string) {
    exists i :: 0 <= i < |s| && MatchEnd(s, i) != -1
  }

  predicate OccursAt(s: string, sub: string, i: nat) {
    i + |sub| <= |s| && s[i..i + |sub|] == sub
  }

  predicate Contains(s: string, sub: string) {
    exists i :: 0 <= i <= |s| && OccursAt(s, sub, i)
  }

  function Bump(n: string): string
    requires |n| > |PREFIX| + 1 ==> AllDigits(n[|PREFIX|..|n| - 1])
  {
    if |n| <= |PREFIX| + 1 then n else PREFIX + Itoa(Increment(Atoi(n[|PREFIX|..|n| - 1]))) + ")"
  }

  /** ReplaceAllStringFunc from i on: every match is bumped, the rest is copied. */
  function BumpAll(s: string, i: nat): string
    requires i <= |s|
    decreases |s| - i
  {
    if i == |s| then ""
    else if MatchEnd(s, i) != -1 then
      var e := MatchEnd(s, i);
      assert s[i..e][|PREFIX|..e - i - 1] == s[i + |PREFIX|..e - 1];
      Bump(s[i..e]) + BumpAll(s, e)
    else [s[i]] + BumpAll(s, i + 1)
  }

  function UpdateCounter(input: string): string {
    if input == "" then PREFIX + "1)"
    else if !HasMarker(input) then input + " " + PREFIX + "1)"
    else BumpAll(input, 0)
  }

  /** ReplaceAllString of \s?\(retrying to get status #([0-9]+)\) by nothing, from i on. */
  function ClearFrom(s: string, i: nat): string
    requires i <= |s|
    decreases |s| - i
  {
    if i == |s| then ""
    else if IsSpace(s[i]) && MatchEnd(s, i + 1) != -1 then ClearFrom(s, MatchEnd(s, i + 1))
    else if MatchEnd(s, i) != -1 then ClearFrom(s, MatchEnd(s, i))
    else [s[i]] + ClearFrom(s, i + 1)
  }

  function ClearCounter(input: string): string {
    ClearFrom(input, 0)
  }

  // ----- What the header looks like -----

  function Marker(k: int): string {
    PREFIX + Itoa(k) + ")"
  }

  function Marked(base: string, k: int): string {
    if base == "" then Marker(k) else base + " " + Marker(k)
  }

  /** The header after some failures in a row. */
  function Header(base: string, failures: nat): string {
    if failures == 0 then base else Marked(base, failures)
  }

  lemma {:induction false} DigitsRoundTrip(n: nat)
    ensures Digits(n) != "" && AllDigits(Digits(n)) && DigitsValue(Digits(n)) == n
  {
    if n >= 10 {
      DigitsRoundTrip(n / 10);
      assert Digits(n)[..|Digits(n)| - 1] == Digits(n / 10);
    }
  }

  lemma {:induction false} DigitsEndAt(s: string, i: nat, e: nat)
    requires i <= e <= |s| && AllDigits(s[i..e]) && (e < |s| ==> !IsDigit(s[e]))
    ensures DigitsEnd(s, i) == e
    decreases e - i
  {
    if i < e {
      assert s[i] == s[i..e][0];
      assert s[i + 1..e] == s[i..e][1..];
      DigitsEndAt(s, i + 1, e);
    }
  }

  lemma MarkerMatches(a: string, k: nat)
    ensures MatchEnd(a + Marker(k), |a|) == |a + Marker(k)|
  {
    var s, from := a + Marker(k), |a| + |PREFIX|;
    DigitsRoundTrip(k);
    assert s[|a|..from] == PREFIX;
    assert s[from..|s| - 1] == Digits(k);
    DigitsEndAt(s, from, |s| - 1);
  }

  /** No match starts in the base and runs into the marker behind it. */
  lemma NoStraddlingMatch(base: string, c: char, rest: string, i: nat)
    requires !HasMarker(base) && i <= |base| && c != '(' && c != ')'
    ensures MatchEnd(base + [c, '('] + rest, i) == -1
  {
    var s := base + [c, '('] + rest;
    var e, n := MatchEnd(s, i), |base|;
    if e != -1 {
      MarkerHasNoInnerParenthesis(s, i);
      assert s[n] == c && s[n + 1] == '(';
      assert e - 1 < n;
      assert s[..n] == base;
      MatchInside(s, n, i);
    }
  }

  lemma MatchInside(s: string, n: nat, i: nat)
    requires n <= |s| && MatchEnd(s, i) != -1 && MatchEnd(s, i) <= n
    ensures MatchEnd(s[..n], i) == MatchEnd(s, i)
  {
    var b, e, from := s[..n], MatchEnd(s, i), i + |PREFIX|;
    assert b[i..from] == s[i..from];
    assert b[from..e - 1] == s[from..e - 1];
    DigitsEndAt(b, from, e - 1);
  }

  lemma MarkerHasNoInnerParenthesis(s: string, i: nat)
    requires MatchEnd(s, i) != -1
    ensures forall x :: i < x < MatchEnd(s, i) - 1 ==> s[x] != '(' && s[x] != ')'
  {
    var e := MatchEnd(s, i);
    forall x | i < x < e - 1 ensures s[x] != '(' && s[x] != ')' {
      if x < i + |PREFIX| {
        assert s[x] == s[i..i + |PREFIX|][x - i];
        assert forall j :: 0 <= j < |HINT| ==> HINT[j] != '(' && HINT[j] != ')';
      } else {
        assert s[x] == s[i + |PREFIX|..e - 1][x - i - |PREFIX|];
      }
    }
  }

  lemma SliceHead(s: string, i: nat, n: nat, rest: string)
    requires i < n <= |s|
    ensures s[i..n] + rest == [s[i]] + (s[i + 1..n] + rest)
  {}

  lemma BumpAllStep(s: string, i: nat)
    requires i < |s| && MatchEnd(s, i) == -1
    ensures BumpAll(s, i) == [s[i]] + BumpAll(s, i + 1)
  {}

  lemma ClearStep(s: string, i: nat)
    requires i < |s| && MatchEnd(s, i) == -1 && MatchEnd(s, i + 1) == -1
    ensures ClearFrom(s, i) == [s[i]] + ClearFrom(s, i + 1)
  {}

  lemma {:induction false} BumpAllCopies(s: string, i: nat, n: nat)
    requires i <= n <= |s| && forall h :: i <= h < n ==> MatchEnd(s, h) == -1
    ensures BumpAll(s, i) == s[i..n] + BumpAll(s, n)
    decreases n - i
  {
    if i < n {
      BumpAllCopies(s, i + 1, n);
      BumpAllStep(s, i);
      SliceHead(s, i, n, BumpAll(s, n));
    }
  }

  lemma {:induction false} ClearCopies(s: string, i: nat, n: nat)
    requires i <= n <= |s|
    requires forall h :: i <= h <= n ==> MatchEnd(s, h) == -1
    ensures ClearFrom(s, i) == s[i..n] + ClearFrom(s, n)
    decreases n - i
  {
    if i < n {
      ClearCopies(s, i + 1, n);
      ClearStep(s, i);
      SliceHead(s, i, n, ClearFrom(s, n));
    }
  }

  /** In a marked header the only match is the marker at its end. */
  lemma OnlyTheMarkerMatches(base: string, failures: nat) returns (n: nat)
    requires !HasMarker(base) && failures > 0
    ensures var s := Header(base, failures);
            && n <= |s| && s[n..] == Marker(failures)
            && MatchEnd(s, n) == |s|
            && (forall h :: 0 <= h < n ==> MatchEnd(s, h) == -1)
            && s[..n] == if base == "" then "" else base + " "
  {
    var a := if base == "" then "" else base + " ";
    n := |a|;
    assert Header(base, failures) == a + Marker(failures);
    MarkerMatches(a, failures);
    if base != "" {
      assert Header(base, failures) == base + [' ', '('] + Marker(failures)[1..];
      forall h | 0 <= h < n ensures MatchEnd(a + Marker(failures), h) == -1 {
        NoStraddlingMatch(base, ' ', Marker(failures)[1..], h);
      }
    }
  }

  /** What a counter becomes: reading one beyond the largest 64-bit integer saturates, and adding one to that wraps. */
  function Next(k: nat): int {
    if k < MAX_INT then k + 1 else -MAX_INT - 1
  }

  lemma BumpMarker(k: nat)
    ensures |Marker(k)| > |PREFIX| + 1 && AllDigits(Marker(k)[|PREFIX|..|Marker(k)| - 1])
    ensures Bump(Marker(k)) == Marker(Next(k))
  {
    DigitsRoundTrip(k);
    assert Marker(k)[|PREFIX|..|Marker(k)| - 1] == Digits(k);
  }

  lemma BumpAllOfMarker(s: string, n: nat, k: nat)
    requires n <= |s| && s[n..] == Marker(k) && MatchEnd(s, n) == |s|
    ensures BumpAll(s, n) == Marker(Next(k))
  {
    BumpMarker(k);
    var m := s[n..|s|];
    assert m == Marker(k);
    assert BumpAll(s, n) == Bump(m) + BumpAll(s, |s|);
  }

  lemma BumpAllAtEnd(s: string, n: nat, k: nat)
    requires n <= |s| && s[n..] == Marker(k)
    requires MatchEnd(s, n) == |s| && forall h :: 0 <= h < n ==> MatchEnd(s, h) == -1
    ensures BumpAll(s, 0) == s[..n] + Marker(Next(k))
  {
    BumpAllOfMarker(s, n, k);
    BumpAllCopies(s, 0, n);
    assert s[0..n] == s[..n];
  }

  lemma UpdateBumpsTheMarker(base: string, failures: nat)
    requires !HasMarker(base) && failures > 0
    ensures UpdateCounter(Header(base, failures)) == Marked(base, Next(failures))
  {
    var s := Header(base, failures);
    var n := OnlyTheMarkerMatches(base, failures);
    BumpAllAtEnd(s, n, failures);
    UpdateBumps(s, n);
    MarkedIs(base, Next(failures));
  }

  lemma MarkedIs(base: string, k: int)
    ensures Marked(base, k) == (if base == "" then "" else base + " ") + Marker(k)
  {}

  lemma FirstFailure(base: string)
    requires !HasMarker(base)
    ensures UpdateCounter(base) == Header(base, 1)
  {
    assert Digits(1) == "1";
  }

  lemma NextIsOneMore(base: string, failures: nat)
    ensures Marked(base, Next(failures)) == Marked(base, failures + 1) <==> failures < MAX_INT
  {
    NextIs(failures);
    SameCount(base, Next(failures), failures + 1);
  }

  lemma NextIs(k: nat)
    ensures if k < MAX_INT then Next(k) == k + 1 else Next(k) < 0
  {}

  lemma SameCount(base: string, n: int, k: nat)
    requires n == k || n < 0
    ensures Marked(base, n) == Marked(base, k) <==> n == k
  {
    if n < 0 {
      NegativeIsNoCount(base, n, k);
    }
  }

  lemma UpdateBumps(s: string, n: nat)
    requires MatchEnd(s, n) != -1
    ensures UpdateCounter(s) == BumpAll(s, 0)
  {
    assert n < |s|;
  }

  /** One more failure adds one to the counter if and only if the counter is below the largest 64-bit integer. */
  lemma UpdateCountsFailures(base: string, failures: nat)
    requires !HasMarker(base)
    ensures UpdateCounter(Header(base, failures)) == Header(base, failures + 1) <==> failures < MAX_INT
  {
    if failures == 0 {
      FirstFailure(base);
    } else {
      UpdateBumpsTheMarker(base, failures);
      NextIsOneMore(base, failures);
    }
  }

  /** A marker behind one more character of white space is cleared together with that character. */
  lemma ClearAtEnd(s: string, n: nat)
    requires n + 1 < |s| && IsSpace(s[n]) && MatchEnd(s, n + 1) == |s|
    requires forall h :: 0 <= h <= n ==> MatchEnd(s, h) == -1
    ensures ClearCounter(s) == s[..n]
  {
    ClearCopies(s, 0, n);
    assert ClearFrom(s, n) == ClearFrom(s, |s|) == "";
    assert s[0..n] == s[..n];
  }

  /** Clearing takes the marker away with one character of white space before it, of whichever kind. */
  lemma ClearTakesOneSpace(base: string, c: char, k: nat)
    requires !HasMarker(base) && c as int in {9, 10, 12, 13, 32}
    ensures ClearCounter(base + [c] + Marker(k)) == base
  {
    var s, n := base + [c] + Marker(k), |base|;
    assert Marker(k) == ['('] + Marker(k)[1..];
    assert s == base + [c, '('] + Marker(k)[1..];
    forall h | 0 <= h <= n ensures MatchEnd(s, h) == -1 {
      NoStraddlingMatch(base, c, Marker(k)[1..], h);
    }
    MarkerMatches(base + [c], k);
    assert s[n] == c && s[..n] == base;
    ClearAtEnd(s, n);
  }

  /** Any other character before the marker is kept. */
  lemma ClearKeepsOther(base: string, c: char, k: nat)
    requires !HasMarker(base + [c]) && c as int !in {9, 10, 12, 13, 32}
    ensures ClearCounter(base + [c] + Marker(k)) == base + [c]
  {
    var s, n := base + [c] + Marker(k), |base| + 1;
    MarkerMatches(base + [c], k);
    forall h | 0 <= h < n ensures MatchEnd(s, h) == -1 {
      NoMatchBefore(base + [c], k, h);
    }
    assert s[n..] == Marker(k) && s[..n] == base + [c] && s[n - 1] == c;
    ClearMarkerOnly(s, n);
  }

  lemma NoMatchBefore(a: string, k: nat, h: nat)
    requires !HasMarker(a) && h < |a|
    ensures MatchEnd(a + Marker(k), h) == -1
  {
    var s, n := a + Marker(k), |a|;
    var e := MatchEnd(s, h);
    if e != -1 {
      MarkerHasNoInnerParenthesis(s, h);
      assert s[n] == '(' && s[e - 1] == ')';
      assert s[..n] == a;
      MatchInside(s, n, h);
    }
  }

  lemma ClearMarkerOnly(s: string, n: nat)
    requires 0 < n < |s| && MatchEnd(s, n) == |s| && !IsSpace(s[n - 1])
    requires forall h :: 0 <= h < n ==> MatchEnd(s, h) == -1
    ensures ClearCounter(s) == s[..n]
  {
    ClearCopies(s, 0, n - 1);
    assert ClearFrom(s, n) == ClearFrom(s, |s|) == "";
    assert ClearFrom(s, n - 1) == [s[n - 1]] + ClearFrom(s, n);
    assert s[0..n - 1] + [s[n - 1]] == s[..n];
  }

  /** Clearing undoes any number of failures, whatever the base ends with. */
  lemma ClearUndoesFailures(base: string, failures: nat)
    requires !HasMarker(base)
    ensures ClearCounter(Header(base, failures)) == base
  {
    var s := Header(base, failures);
    if failures == 0 {
      ClearCopies(s, 0, |s|);
    } else {
      var n := OnlyTheMarkerMatches(base, failures);
      if base == "" {
        assert ClearFrom(s, 0) == ClearFrom(s, |s|);
      } else {
        assert s[|base|] == s[..n][|base|] == ' ';
        assert s[..|base|] == s[..n][..|base|] == base;
        ClearAtEnd(s, |base|);
      }
    }
  }

  /** The guard of the clearing always sees a counter. */
  lemma CounterIsSeen(base: string, failures: nat)
    requires failures > 0
    ensures Contains(Header(base, failures), HINT)
  {
    var a := if base == "" then "(" else base + " (";
    assert Header(base, failures) == a + HINT + (Itoa(failures) + ")");
    OccursInside(a, HINT, Itoa(failures) + ")");
  }

  lemma OccursInside(a: string, sub: string, b: string)
    ensures Contains(a + sub + b, sub)
  {
    var s := a + sub + b;
    assert s[|a|..|a| + |sub|] == sub;
    assert OccursAt(s, sub, |a|);
  }

  /** From the largest 64-bit integer on, the counter wraps to a negative number. */
  lemma CounterWraps(base: string, failures: nat)
    requires !HasMarker(base) && failures >= MAX_INT
    ensures UpdateCounter(Header(base, failures)) == Marked(base, -MAX_INT - 1)
  {
    UpdateBumpsTheMarker(base, failures);
  }

  lemma NegativeIsNoCount(base: string, n: int, k: nat)
    requires n < 0
    ensures Marked(base, n) != Marked(base, k)
  {
    DigitsRoundTrip(k);
    CounterStart(base, n);
    CounterStart(base, k);
    assert Itoa(n)[0] == '-' && Itoa(k) == Digits(k) && IsDigit(Digits(k)[0]);
  }

  lemma CounterStart(base: string, k: int)
    requires Itoa(k) != ""
    ensures var n := |PREFIX| + if base == "" then 0 else |base| + 1;
            n < |Marked(base, k)| && Marked(base, k)[n] == Itoa(k)[0]
  {}
}
