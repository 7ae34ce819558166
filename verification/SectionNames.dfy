/** config/config.go: the names of the sections that hold remotes, printed and parsed. */
module SectionNames {
  import opened Sequences

  const OPENING := "remote \""

  function RemoteSection(name: string): string {
    OPENING + name + "\""
  }

  /** The end of the line that starts at i. */
  function LineEnd(s: string, i: nat): (e: nat)
    requires i <= |s|
    ensures i <= e <= |s| && '\n' !in s[i..e] && (e < |s| ==> s[e] == '\n')
    decreases |s| - i
  {
    if i < |s| && s[i] != '\n' then
      assert forall e :: i < e <= |s| ==> s[i..e] == [s[i]] + s[i + 1..e];
      LineEnd(s, i + 1)
    else i
  }

  /** The last quote of s, or -1. */
  function LastQuote(s: string): (q: int)
    ensures -1 <= q < |s|
    ensures q != -1 ==> s[q] == '"'
    ensures forall j :: q < j < |s| ==> s[j] != '"'
  {
    if s == "" then -1
    else if s[|s| - 1] == '"' then |s| - 1
    else LastQuote(s[..|s| - 1])
  }

  /** The group of remote \"(.*)\", if it matches at i: it is greedy and stays within its line. */
  function GroupAt(s: string, i: nat): Option<string> {
    if i + |OPENING| > |s| then None
    else
      var from := i + |OPENING|;
      var line := s[from..LineEnd(s, from)];
      if s[i..from] == OPENING && LastQuote(line) != -1 then Some(line[..LastQuote(line)]) else None
  }

  /** The leftmost match at or after i. */
  function ParseFrom(s: string, i: nat): Option<string>
    requires i <= |s|
    decreases |s| - i
  {
    if i + |OPENING| > |s| then None
    else
      match GroupAt(s, i)
      case Some(name) => Some(name)
      case None => ParseFrom(s, i + 1)
  }

  function ParseRemoteSectionName(s: string): Option<string> {
    ParseFrom(s, 0)
  }

  ghost predicate NoBreak(s: string, i: int, j: int) {
    0 <= i && j <= |s| && forall x :: i <= x < j ==> s[x] != '\n'
  }

  /** The opening at i is followed, on the same line, by the name and a quote, the last one of the line. */
  ghost predicate MatchesAt(s: string, i: int, name: string) {
    var (from, end) := (i + |OPENING|, i + |OPENING| + |name|);
    && 0 <= i && end < |s| && s[i..from] == "remote \""
    && s[from..end] == name && NoBreak(s, from, end) && s[end] == '"'
    && forall q :: end < q < |s| && s[q] == '"' ==> !NoBreak(s, end, q)
  }

  ghost predicate SomeMatch(s: string, i: int) {
    exists name :: MatchesAt(s, i, name)
  }

  /** The end of the line is the first line break, or the end of the string. */
  lemma LineEndIsFirst(s: string, i: nat)
    requires i <= |s|
    ensures var e := LineEnd(s, i); i <= e && NoBreak(s, i, e) && (e < |s| ==> s[e] == '\n')
  {
    var e := LineEnd(s, i);
    forall x | i <= x < e ensures s[x] != '\n' {
      assert s[i..e][x - i] == s[x];
    }
  }

  lemma MatchIsLastQuote(s: string, i: nat, name: string)
    requires MatchesAt(s, i, name)
    ensures var from := i + |OPENING|;
            var line := s[from..LineEnd(s, from)];
            LastQuote(line) == |name| && line[..|name|] == name
  {
    var from := i + |OPENING|;
    var end := from + |name|;
    LineEndIsFirst(s, from);
    var e := LineEnd(s, from);
    assert end < e;
    var line := s[from..e];
    assert line[|name|] == s[end] == '"' && line[..|name|] == s[from..end];
    forall j | |name| < j < |line| ensures line[j] != '"' {
      assert line[j] == s[from + j];
      assert NoBreak(s, end, from + j);
    }
  }

  lemma LastQuoteMatches(s: string, i: nat, q: nat)
    requires i + |OPENING| <= |s| && s[i..i + |OPENING|] == OPENING
    requires LastQuote(s[i + |OPENING|..LineEnd(s, i + |OPENING|)]) == q
    ensures MatchesAt(s, i, s[i + |OPENING|..i + |OPENING| + q])
  {
    var from := i + |OPENING|;
    LineEndIsFirst(s, from);
    var e := LineEnd(s, from);
    var line := s[from..e];
    assert line[q] == s[from + q];
    forall x | from + q < x < e ensures s[x] != '"' {
      assert line[x - from] == s[x];
    }
    forall x | from + q < x < |s| && s[x] == '"' ensures !NoBreak(s, from + q, x) {
      assert s[e] == '\n' && e < x;
    }
  }

  lemma GroupIs(s: string, i: nat, name: string)
    ensures GroupAt(s, i) == Some(name) <==> MatchesAt(s, i, name)
  {
    if MatchesAt(s, i, name) {
      MatchIsLastQuote(s, i, name);
    }
    if GroupAt(s, i).Some? {
      var from := i + |OPENING|;
      var q := LastQuote(s[from..LineEnd(s, from)]);
      LastQuoteMatches(s, i, q);
      assert s[from..LineEnd(s, from)][..q] == s[from..from + q];
    }
  }

  /** The leftmost match at or after i. */
  ghost predicate Leftmost(s: string, i: int, j: int, name: string) {
    i <= j && MatchesAt(s, j, name) && forall h :: i <= h < j ==> !SomeMatch(s, h)
  }

  lemma {:induction false} ParseFromIs(s: string, i: nat, name: string)
    requires i <= |s|
    ensures ParseFrom(s, i) == Some(name) <==> exists j :: Leftmost(s, i, j, name)
    decreases |s| - i
  {
    if i + |OPENING| > |s| {
    } else {
      ParseFromIs(s, i + 1, name);
      GroupIs(s, i, name);
      if GroupAt(s, i).Some? {
        GroupIs(s, i, GroupAt(s, i).value);
        MatchHere(s, i, name, GroupAt(s, i).value);
      } else {
        forall n ensures !MatchesAt(s, i, n) {
          GroupIs(s, i, n);
        }
        NoMatchHere(s, i, i + 1, name);
      }
    }
  }

  lemma MatchHere(s: string, i: int, name: string, here: string)
    requires MatchesAt(s, i, here) && (MatchesAt(s, i, name) ==> name == here)
    ensures (exists j :: Leftmost(s, i, j, name)) <==> name == here
  {
    assert SomeMatch(s, i);
    if name == here {
      assert Leftmost(s, i, i, name);
    }
  }

  lemma NoMatchHere(s: string, i: int, next: int, name: string)
    requires !SomeMatch(s, i) && next == i + 1
    ensures (exists j :: Leftmost(s, i, j, name)) <==> exists j :: Leftmost(s, next, j, name)
  {
    if j :| Leftmost(s, i, j, name) {
      assert j != i;
      assert Leftmost(s, next, j, name);
    }
    if j :| Leftmost(s, next, j, name) {
      assert Leftmost(s, i, j, name);
    }
  }

  /** A section gives the name iff the leftmost match of the pattern in it does. */
  lemma ParseIs(s: string, name: string)
    ensures ParseRemoteSectionName(s) == Some(name) <==>
            exists j :: 0 <= j && MatchesAt(s, j, name) && forall h :: 0 <= h < j ==> !SomeMatch(s, h)
  {
    ParseFromIs(s, 0, name);
    forall j ensures Leftmost(s, 0, j, name) <==>
                     0 <= j && MatchesAt(s, j, name) && forall h :: 0 <= h < j ==> !SomeMatch(s, h) {}
  }

  lemma {:induction false} ParsedHasOneLine(s: string, i: nat)
    requires i <= |s|
    ensures ParseFrom(s, i).Some? ==> '\n' !in ParseFrom(s, i).value
    decreases |s| - i
  {
    if i + |OPENING| <= |s| {
      ParsedHasOneLine(s, i + 1);
    }
  }

  lemma {:induction false} LineEndIs(s: string, i: nat)
    requires i <= |s| && '\n' !in s[i..]
    ensures LineEnd(s, i) == |s|
    decreases |s| - i
  {
    if i < |s| {
      assert s[i] in s[i..];
      assert forall c :: c in s[i + 1..] ==> c in s[i..];
      LineEndIs(s, i + 1);
    }
  }

  /** The parser inverts the printer for exactly the names without a line break, quotes included. */
  lemma ParseInvertsPrint(name: string)
    ensures ParseRemoteSectionName(RemoteSection(name)) == Some(name) <==> '\n' !in name
  {
    var s := RemoteSection(name);
    ParsedHasOneLine(s, 0);
    if '\n' !in name {
      assert s[..|OPENING|] == s[0..|OPENING|] == OPENING;
      assert s[|OPENING|..] == name + "\"";
      LineEndIs(s, |OPENING|);
      assert s[|OPENING|..|s|] == name + "\"";
      assert LastQuote(name + "\"") == |name|;
    }
  }

  // ----- Sections that are printed names -----

  predicate IsRemoteSection(s: string) {
    |s| > |OPENING| && s[..|OPENING|] == OPENING && s[|s| - 1] == '"'
  }

  function NameOf(s: string): string
    requires IsRemoteSection(s)
  {
    s[|OPENING|..|s| - 1]
  }

  lemma NameRoundTrip(name: string)
    ensures IsRemoteSection(RemoteSection(name)) && NameOf(RemoteSection(name)) == name
  {
    assert RemoteSection(name)[|OPENING|..|RemoteSection(name)| - 1] == name;
  }

  lemma SectionRoundTrip(s: string)
    requires IsRemoteSection(s)
    ensures RemoteSection(NameOf(s)) == s
  {
    assert s == s[..|OPENING|] + s[|OPENING|..|s| - 1] + [s[|s| - 1]];
  }
}
