/** command/env-var/set/set.go, command/env-var/internal/commands/commands.go: variables read from a file. */
module EnvFile {
  import opened Sequences
  import opened Text

  datatype Env = Env(name: string, value: string)

  datatype AddEnvs = NoEnvToAdd | InvalidPair(pair: string) | Envs(envs: seq<Env>)

  // ----- From the text to the arguments -----

  /** strings.Replace of every CRLF by LF. */
  function ReplaceCRLF(s: string): string {
    if s == "" then ""
    else if HasPrefix(s, "\r\n") then "\n" + ReplaceCRLF(s[2..])
    else [s[0]] + ReplaceCRLF(s[1..])
  }

  /** strings.Split at every c. */
  function Split(s: string, c: char): seq<string>
    decreases |s|
  {
    var i := Index(s, c);
    if i == -1 then [s] else [s[..i]] + Split(s[i + 1..], c)
  }

  function ReadEnvs(text: string): seq<string> {
    Split(ReplaceCRLF(text), '\n')
  }

  function NonEmpty(): string -> bool {
    (s: string) => s != ""
  }

  method FilterEmptyEnvValues(envKeys: seq<string>) returns (filtered: seq<string>)
    ensures filtered == Filter(envKeys, NonEmpty())
  {
    filtered := [];
    for i := 0 to |envKeys|
      invariant filtered == Filter(envKeys[..i], NonEmpty())
    {
      assert envKeys[..i + 1][..i] == envKeys[..i];
      if envKeys[i] != "" {
        filtered := filtered + [envKeys[i]];
      }
    }
    assert envKeys[..|envKeys|] == envKeys;
  }

  /** The variable of a pair with an equals sign. */
  function EnvOf(pair: string): Env
    requires '=' in pair
  {
    Env(pair[..Index(pair, '=')], pair[Index(pair, '=') + 1..])
  }

  predicate AllPairs(args: seq<string>) {
    forall a :: a in args ==> '=' in a
  }

  function EnvsOf(args: seq<string>): seq<Env>
    requires AllPairs(args)
  {
    seq(|args|, i requires 0 <= i < |args| => EnvOf(args[i]))
  }

  /** Two arguments without an equals sign are one name and its value. */
  predicate IsNameAndValue(args: seq<string>) {
    |args| == 2 && '=' !in args[0] && '=' !in args[1]
  }

  method SplitEnvKeyValueParameters(args: seq<string>) returns (r: AddEnvs)
    ensures |args| == 2 && '=' !in args[0] && '=' !in args[1] ==> r == Envs([Env(args[0], args[1])])
    ensures (forall a :: a in args ==> '=' in a) ==> r == Envs(EnvsOf(args))
    ensures r.Envs? <==> (|args| == 2 && '=' !in args[0] && '=' !in args[1]) || forall a :: a in args ==> '=' in a
    ensures !r.Envs? ==> r.InvalidPair? && r.pair in args && '=' !in r.pair
  {
    if |args| == 2 && Index(args[0], '=') == -1 && Index(args[1], '=') == -1 {
      return Envs([Env(args[0], args[1])]);
    }
    var envs := [];
    for i := 0 to |args|
      invariant AllPairs(args[..i]) && envs == EnvsOf(args[..i])
    {
      var kv := SplitFirst(args[i], '=');
      if |kv| != 2 {
        return InvalidPair(args[i]);
      }
      assert args[..i + 1] == args[..i] + [args[i]];
      envs := envs + [Env(kv[0], kv[1])];
    }
    assert args[..|args|] == args;
    return Envs(envs);
  }

  /** getAddEnvs without a prompt. */
  method GetAddEnvs(args: seq<string>) returns (r: AddEnvs)
    ensures var kept := Filter(args, NonEmpty());
            && (r == NoEnvToAdd <==> kept == [])
            && (kept != [] && !IsNameAndValue(kept) && AllPairs(kept) ==> r == Envs(EnvsOf(kept)))
            && (kept != [] && IsNameAndValue(kept) ==> r == Envs([Env(kept[0], kept[1])]))
            && (kept != [] && !IsNameAndValue(kept) && !AllPairs(kept) ==>
                  r.InvalidPair? && r.pair in kept && '=' !in r.pair)
  {
    var kept := FilterEmptyEnvValues(args);
    FilterElements(args, NonEmpty());
    if Joined(kept) == "" {
      JoinedIsEmpty(kept);
      return NoEnvToAdd;
    }
    r := SplitEnvKeyValueParameters(kept);
  }

  function Joined(args: seq<string>): string {
    if args == [] then "" else Joined(args[..|args| - 1]) + args[|args| - 1]
  }

  lemma JoinedIsEmpty(args: seq<string>)
    requires forall a :: a in args ==> a != ""
    ensures Joined(args) == "" <==> args == []
  {
    if args != [] {
      assert args[|args| - 1] in args;
    }
  }

  // ----- A file of variables, as text -----

  datatype Line = Blank | Pair(env: Env)

  datatype Eol = LF | CRLF

  function Content(line: Line): string {
    match line
    case Blank => ""
    case Pair(env) => env.name + "=" + env.value
  }

  function Ending(eol: Eol): string {
    if eol.LF? then "\n" else "\r\n"
  }

  /** Each line with its ending; the last one may go without. */
  function Print(lines: seq<(Line, Eol)>, last: Line): string {
    if lines == [] then Content(last) else Content(lines[0].0) + Ending(lines[0].1) + Print(lines[1..], last)
  }

  function Contents(lines: seq<(Line, Eol)>, last: Line): seq<string> {
    if lines == [] then [Content(last)] else [Content(lines[0].0)] + Contents(lines[1..], last)
  }

  /** The variable of a line, if it has one. */
  function VariableOf(line: Line): seq<Env> {
    match line
    case Blank => []
    case Pair(env) => [env]
  }

  /** The variables of the file, in order. */
  function Variables(lines: seq<(Line, Eol)>, last: Line): seq<Env> {
    if lines == [] then VariableOf(last) else VariableOf(lines[0].0) + Variables(lines[1..], last)
  }

  predicate EndsWithCR(s: string) {
    s != "" && s[|s| - 1] == '\r'
  }

  /** A content is on one line, and its end is not taken for a part of the line ending. */
  predicate IsOneLine(content: string, eol: Eol) {
    '\n' !in content && !(eol.LF? && EndsWithCR(content))
  }

  predicate AllOneLine(lines: seq<(Line, Eol)>, last: Line) {
    '\n' !in Content(last) && forall i :: 0 <= i < |lines| ==> IsOneLine(Content(lines[i].0), lines[i].1)
  }

  predicate HasPlainName(line: Line) {
    line.Pair? ==> '=' !in line.env.name
  }

  /** Every content is on one line, and no name has an equals sign. */
  predicate AllPrintable(lines: seq<(Line, Eol)>, last: Line) {
    AllOneLine(lines, last) && HasPlainName(last) && forall i :: 0 <= i < |lines| ==> HasPlainName(lines[i].0)
  }

  // ----- Replacing and splitting, line by line -----

  lemma {:induction false} ReplaceKeeps(s: string, rest: string)
    requires '\n' !in s && (EndsWithCR(s) && rest != "" ==> rest[0] != '\n')
    ensures ReplaceCRLF(s + rest) == s + ReplaceCRLF(rest)
  {
    if s == "" {
      assert s + rest == rest;
    } else {
      ReplaceKeeps(s[1..], rest);
      assert s + rest == [s[0]] + (s[1..] + rest);
      ReplaceStep(s[0], s[1..] + rest);
      assert s == [s[0]] + s[1..];
      Associative([s[0]], s[1..], ReplaceCRLF(rest));
    }
  }

  lemma ReplaceStep(c: char, t: string)
    requires !(c == '\r' && t != "" && t[0] == '\n')
    ensures ReplaceCRLF([c] + t) == [c] + ReplaceCRLF(t)
  {
    assert ([c] + t)[1..] == t;
    assert !HasPrefix([c] + t, "\r\n");
  }

  lemma Associative(a: string, b: string, c: string)
    ensures a + b + c == a + (b + c)
  {}

  predicate EndsWithLF(s: string) {
    s != "" && s[|s| - 1] == '\n'
  }

  lemma {:induction false} ReplaceConcat(a: string, rest: string)
    requires EndsWithLF(a)
    ensures ReplaceCRLF(a + rest) == ReplaceCRLF(a) + ReplaceCRLF(rest) && EndsWithLF(ReplaceCRLF(a))
    decreases |a|
  {
    var k := if HasPrefix(a, "\r\n") then 2 else 1;
    ReplaceHead(a, rest, k);
    if a[k..] == "" {
      assert ReplaceCRLF(a) == "\n";
      assert a[k..] + rest == rest;
    } else {
      ReplaceConcat(a[k..], rest);
      Associative(if k == 2 then "\n" else [a[0]], ReplaceCRLF(a[k..]), ReplaceCRLF(rest));
    }
  }

  lemma ReplaceHead(a: string, rest: string, k: nat)
    requires EndsWithLF(a) && k == if HasPrefix(a, "\r\n") then 2 else 1
    ensures var head := if k == 2 then "\n" else [a[0]];
            && ReplaceCRLF(a) == head + ReplaceCRLF(a[k..])
            && ReplaceCRLF(a + rest) == head + ReplaceCRLF(a[k..] + rest)
  {
    assert (a + rest)[k..] == a[k..] + rest;
    assert HasPrefix(a + rest, "\r\n") <==> HasPrefix(a, "\r\n");
  }

  function Front(s: seq<string>): seq<string>
    requires s != []
  {
    s[..|s| - 1]
  }

  lemma {:induction false} SplitConcat(a: string, rest: string)
    requires EndsWithLF(a)
    ensures Split(a, '\n') != [] && Split(a + rest, '\n') == Front(Split(a, '\n')) + Split(rest, '\n')
    decreases |a|
  {
    var i := Index(a, '\n');
    IndexIs(a + rest, '\n', i);
    assert (a + rest)[..i] == a[..i] && (a + rest)[i + 1..] == a[i + 1..] + rest;
    if i == |a| - 1 {
      assert a[i + 1..] == "" && a[i + 1..] + rest == rest;
      assert Split(a, '\n') == [a[..i]] + [""];
    } else {
      SplitConcat(a[i + 1..], rest);
      FrontOfCons(a[..i], Split(a[i + 1..], '\n'), Split(rest, '\n'));
    }
  }

  lemma FrontOfCons(x: string, s: seq<string>, rest: seq<string>)
    requires s != []
    ensures Front([x] + s) + rest == [x] + (Front(s) + rest)
  {}

  lemma {:induction false} PiecesHaveNoBreak(s: string)
    ensures Split(s, '\n') != [] && forall p :: p in Split(s, '\n') ==> '\n' !in p
    decreases |s|
  {
    var i := Index(s, '\n');
    if i != -1 {
      PiecesHaveNoBreak(s[i + 1..]);
    }
  }

  ghost predicate SomePair(pieces: seq<string>) {
    exists p :: p in pieces && '=' in p
  }

  lemma {:induction false} SplitKeepsEquals(s: string)
    requires '=' in s
    ensures SomePair(Split(s, '\n'))
    decreases |s|
  {
    var i := Index(s, '\n');
    if i == -1 {
      assert s in Split(s, '\n');
    } else if '=' in s[..i] {
      assert s[..i] in Split(s, '\n');
    } else {
      assert s == s[..i] + ['\n'] + s[i + 1..];
      SplitKeepsEquals(s[i + 1..]);
      var p :| p in Split(s[i + 1..], '\n') && '=' in p;
      assert p in Split(s, '\n');
    }
  }

  lemma {:induction false} ReplaceKeepsEquals(s: string)
    requires '=' in s
    ensures '=' in ReplaceCRLF(s)
    decreases |s|
  {
    if HasPrefix(s, "\r\n") {
      assert s == ['\r', '\n'] + s[2..];
      ReplaceKeepsEquals(s[2..]);
    } else if s[0] != '=' {
      assert s == [s[0]] + s[1..];
      ReplaceKeepsEquals(s[1..]);
    }
  }

  /** What reading makes of one line. */
  function PiecesOf(content: string, eol: Eol): (pieces: seq<string>) {
    var split := ReadEnvs(content + Ending(eol));
    if split == [] then [] else Front(split)
  }

  lemma SplitOneLine(s: string)
    requires '\n' !in s
    ensures Split(s + "\n", '\n') == [s, ""]
  {
    var t := s + "\n";
    assert t[..|s|] == s && t[|s| + 1..] == "";
    IndexIs(t, '\n', |s|);
  }

  /** A content on one line is read as one piece: itself, unless its end was taken for a part of the ending. */
  lemma LineReads(content: string, eol: Eol)
    requires '\n' !in content
    ensures PiecesOf(content, eol) == [content] <==> IsOneLine(content, eol)
    ensures |PiecesOf(content, eol)| == 1
  {
    if eol.CRLF? {
      ReadsLine(content, "\r\n");
    } else if EndsWithCR(content) {
      var s := content[..|content| - 1];
      assert content + "\n" == s + "\r\n";
      ReadsLine(s, "\r\n");
    } else {
      ReadsLine(content, "\n");
    }
  }

  lemma ReadsLine(s: string, ending: string)
    requires '\n' !in s && (ending == "\r\n" || (ending == "\n" && !EndsWithCR(s)))
    ensures ReadEnvs(s + ending) == [s, ""] && Front(ReadEnvs(s + ending)) == [s]
  {
    ReplaceKeeps(s, ending);
    EndingReads(ending);
    SplitOneLine(s);
  }

  lemma EndingReads(ending: string)
    requires ending == "\r\n" || ending == "\n"
    ensures ReplaceCRLF(ending) == "\n"
  {
    assert ending == "\n" ==> ending[1..] == "";
    assert ending == "\r\n" ==> ending[2..] == "";
  }

  /** What is read of a line ends in an empty piece, after the end of the line. */
  lemma LineIsSplit(content: string, eol: Eol)
    ensures var split := ReadEnvs(content + Ending(eol));
            && EndsWithLF(ReplaceCRLF(content + Ending(eol)))
            && |split| > 1 && split == PiecesOf(content, eol) + [""]
  {
    var t := content + Ending(eol);
    ReplaceConcat(t, "");
    LastPieceIsEmpty(ReplaceCRLF(t));
  }

  lemma PiecesHaveThePair(content: string, eol: Eol)
    requires '=' in content
    ensures SomePair(PiecesOf(content, eol))
  {
    var t := content + Ending(eol);
    LineIsSplit(content, eol);
    ReplaceKeepsEquals(t);
    SplitKeepsEquals(ReplaceCRLF(t));
    var p :| p in ReadEnvs(t) && '=' in p;
    assert p in PiecesOf(content, eol);
  }

  lemma BrokenContentIsNoPiece(content: string, eol: Eol)
    requires '\n' in content
    ensures content !in PiecesOf(content, eol)
  {
    LineIsSplit(content, eol);
    PiecesHaveNoBreak(ReplaceCRLF(content + Ending(eol)));
    assert forall p :: p in PiecesOf(content, eol) ==> p in ReadEnvs(content + Ending(eol));
  }

  /** The content is among the pieces of its line iff it is on one line; and then it is the only one. */
  lemma PiecesAre(content: string, eol: Eol)
    ensures PiecesOf(content, eol) != []
    ensures content in PiecesOf(content, eol) <==> IsOneLine(content, eol)
    ensures IsOneLine(content, eol) ==> PiecesOf(content, eol) == [content]
    ensures '=' in content ==> SomePair(PiecesOf(content, eol))
  {
    LineIsSplit(content, eol);
    if '\n' in content {
      BrokenContentIsNoPiece(content, eol);
    } else {
      LineReads(content, eol);
      assert PiecesOf(content, eol) == [PiecesOf(content, eol)[0]];
    }
    if '=' in content {
      PiecesHaveThePair(content, eol);
    }
  }

  lemma LastPieceIsEmpty(s: string)
    requires EndsWithLF(s)
    ensures |Split(s, '\n')| > 1 && Split(s, '\n') == Front(Split(s, '\n')) + [""]
  {
    SplitConcat(s, "");
    assert s + "" == s;
    FirstBreak(s);
  }

  lemma FirstBreak(s: string)
    requires EndsWithLF(s)
    ensures |Split(s, '\n')| > 1
  {
    var i := Index(s, '\n');
    PiecesHaveNoBreak(s[i + 1..]);
  }

  /** The file is read line by line. */
  lemma ReadOneMore(lines: seq<(Line, Eol)>, last: Line)
    requires lines != []
    ensures ReadEnvs(Print(lines, last)) ==
            PiecesOf(Content(lines[0].0), lines[0].1) + ReadEnvs(Print(lines[1..], last))
  {
    var t, rest := Content(lines[0].0) + Ending(lines[0].1), Print(lines[1..], last);
    ReplaceConcat(t, rest);
    SplitConcat(ReplaceCRLF(t), ReplaceCRLF(rest));
  }

  lemma LastReads(content: string)
    ensures content in ReadEnvs(content) <==> '\n' !in content
    ensures '\n' !in content ==> ReadEnvs(content) == [content]
    ensures '=' in content ==> SomePair(ReadEnvs(content))
  {
    PiecesHaveNoBreak(ReplaceCRLF(content));
    if '\n' !in content {
      ReplaceKeeps(content, "");
      assert content + "" == content;
    }
    if '=' in content {
      ReplaceKeepsEquals(content);
      SplitKeepsEquals(ReplaceCRLF(content));
    }
  }

  lemma {:induction false} ReadsAtLeast(lines: seq<(Line, Eol)>, last: Line)
    ensures |ReadEnvs(Print(lines, last))| >= |lines| + 1
  {
    if lines == [] {
      PiecesHaveNoBreak(ReplaceCRLF(Content(last)));
    } else {
      ReadsAtLeast(lines[1..], last);
      ReadOneMore(lines, last);
      PiecesAre(Content(lines[0].0), lines[0].1);
    }
  }

  lemma {:induction false} CountContents(lines: seq<(Line, Eol)>, last: Line)
    ensures |Contents(lines, last)| == |lines| + 1
  {
    if lines == [] {
    } else {
      CountContents(lines[1..], last);
    }
  }

  lemma SameHalves<T>(a: seq<T>, b: seq<T>, x: seq<T>, y: seq<T>)
    requires |a| >= |x| && |b| >= |y|
    ensures a + b == x + y <==> a == x && b == y
  {
    if a + b == x + y {
      assert |a| == |x|;
      assert (a + b)[..|a|] == a && (x + y)[..|x|] == x;
      assert (a + b)[|a|..] == b && (x + y)[|x|..] == y;
    }
  }

  lemma AllOneLineCons(lines: seq<(Line, Eol)>, last: Line)
    requires lines != []
    ensures AllOneLine(lines, last) <==>
            IsOneLine(Content(lines[0].0), lines[0].1) && AllOneLine(lines[1..], last)
  {
    assert AllOneLine(lines[1..], last) && IsOneLine(Content(lines[0].0), lines[0].1) ==>
             forall i :: 0 < i < |lines| ==> lines[i] == lines[1..][i - 1];
  }

  /** Whatever the line endings, reading gives back the contents of the lines iff each of them is on one line. */
  lemma {:induction false} ReadsContents(lines: seq<(Line, Eol)>, last: Line)
    ensures ReadEnvs(Print(lines, last)) == Contents(lines, last) <==> AllOneLine(lines, last)
  {
    if lines == [] {
      LastReads(Content(last));
    } else {
      var (content, eol) := (Content(lines[0].0), lines[0].1);
      ReadsContents(lines[1..], last);
      ReadOneMore(lines, last);
      PiecesAre(content, eol);
      ReadsAtLeast(lines[1..], last);
      CountContents(lines[1..], last);
      SameHalves(PiecesOf(content, eol), ReadEnvs(Print(lines[1..], last)), [content], Contents(lines[1..], last));
      AllOneLineCons(lines, last);
    }
  }

  // ----- The variables -----

  /** The pieces, as arguments, are exactly the variables. */
  ghost predicate AreVariables(pieces: seq<string>, envs: seq<Env>) {
    var kept := Filter(pieces, NonEmpty());
    AllPairs(kept) && EnvsOf(kept) == envs
  }

  lemma PairOf(env: Env, p: string)
    ensures '=' in p && EnvOf(p) == env <==> p == Content(Pair(env)) && '=' !in env.name
  {
    var s := env.name + "=" + env.value;
    assert s[..|env.name|] == env.name && s[|env.name|] == '=' && s[|env.name| + 1..] == env.value;
    if '=' !in env.name {
      IndexIs(s, '=', |env.name|);
    }
    if '=' in p && EnvOf(p) == env {
      assert p == p[..Index(p, '=')] + "=" + p[Index(p, '=') + 1..];
    }
  }

  lemma KeptOne(s: string)
    requires s != ""
    ensures Filter([s], NonEmpty()) == [s]
  {
    FilterSnoc([], s, NonEmpty());
    assert [] + [s] == [s];
  }

  lemma SomePairIsKept(pieces: seq<string>)
    ensures SomePair(pieces) ==> |Filter(pieces, NonEmpty())| >= 1
    ensures SomePair(pieces) <==> SomePair(Filter(pieces, NonEmpty()))
  {
    FilterElements(pieces, NonEmpty());
    if SomePair(pieces) {
      var p :| p in pieces && '=' in p;
      assert p in Filter(pieces, NonEmpty());
    }
  }

  /** The pieces of one line are its variable iff the content is on one line and the name is plain. */
  lemma VariableReads(line: Line, pieces: seq<string>, oneLine: bool)
    requires Content(line) in pieces <==> oneLine
    requires oneLine ==> pieces == [Content(line)]
    requires line.Pair? ==> SomePair(pieces)
    requires line.Blank? ==> oneLine
    ensures |Filter(pieces, NonEmpty())| >= |VariableOf(line)|
    ensures AreVariables(pieces, VariableOf(line)) <==> oneLine && HasPlainName(line)
  {
    match line
    case Blank =>
      FilterSnoc([], "", NonEmpty());
      assert [] + [""] == [""];
    case Pair(env) => PairReads(env, pieces, oneLine);
  }

  lemma PairReads(env: Env, pieces: seq<string>, oneLine: bool)
    requires Content(Pair(env)) in pieces <==> oneLine
    requires oneLine ==> pieces == [Content(Pair(env))]
    requires SomePair(pieces)
    ensures |Filter(pieces, NonEmpty())| >= 1
    ensures AreVariables(pieces, [env]) <==> oneLine && '=' !in env.name
  {
    SomePairIsKept(pieces);
    var kept := Filter(pieces, NonEmpty());
    FilterElements(pieces, NonEmpty());
    assert kept[0] in kept;
    PairOf(env, kept[0]);
    if oneLine {
      KeptOne(Content(Pair(env)));
    }
    OnePair(kept, env);
  }

  lemma OnePair(kept: seq<string>, env: Env)
    requires kept != []
    ensures AllPairs(kept) && EnvsOf(kept) == [env] <==> |kept| == 1 && '=' in kept[0] && EnvOf(kept[0]) == env
  {
    if AllPairs(kept) && EnvsOf(kept) == [env] {
      assert |EnvsOf(kept)| == |kept|;
      assert EnvsOf(kept)[0] == EnvOf(kept[0]);
    }
  }

  lemma VariablesConcat(a: seq<string>, b: seq<string>, x: seq<Env>, y: seq<Env>)
    requires |Filter(a, NonEmpty())| >= |x| && |Filter(b, NonEmpty())| >= |y|
    ensures AreVariables(a + b, x + y) <==> AreVariables(a, x) && AreVariables(b, y)
    ensures |Filter(a + b, NonEmpty())| >= |x + y|
  {
    var (k, l) := (Filter(a, NonEmpty()), Filter(b, NonEmpty()));
    FilterConcat(a, b, NonEmpty());
    assert AllPairs(k + l) <==> AllPairs(k) && AllPairs(l);
    if AllPairs(k + l) {
      assert EnvsOf(k + l) == EnvsOf(k) + EnvsOf(l);
      SameHalves(EnvsOf(k), EnvsOf(l), x, y);
    }
  }

  lemma AllPrintableCons(lines: seq<(Line, Eol)>, last: Line)
    requires lines != []
    ensures AllPrintable(lines, last) <==>
            && IsOneLine(Content(lines[0].0), lines[0].1) && HasPlainName(lines[0].0)
            && AllPrintable(lines[1..], last)
  {
    AllOneLineCons(lines, last);
    assert AllPrintable(lines[1..], last) && HasPlainName(lines[0].0) ==>
             forall i :: 0 < i < |lines| ==> lines[i] == lines[1..][i - 1];
  }

  lemma LineVariable(line: Line, eol: Eol)
    ensures |Filter(PiecesOf(Content(line), eol), NonEmpty())| >= |VariableOf(line)|
    ensures AreVariables(PiecesOf(Content(line), eol), VariableOf(line)) <==>
            IsOneLine(Content(line), eol) && HasPlainName(line)
  {
    PiecesAre(Content(line), eol);
    VariableReads(line, PiecesOf(Content(line), eol), IsOneLine(Content(line), eol));
  }

  lemma {:induction false} VariablesRead(lines: seq<(Line, Eol)>, last: Line)
    ensures |Filter(ReadEnvs(Print(lines, last)), NonEmpty())| >= |Variables(lines, last)|
    ensures AreVariables(ReadEnvs(Print(lines, last)), Variables(lines, last)) <==> AllPrintable(lines, last)
  {
    if lines == [] {
      LastReads(Content(last));
      VariableReads(last, ReadEnvs(Content(last)), '\n' !in Content(last));
    } else {
      var (line, eol) := lines[0];
      VariablesRead(lines[1..], last);
      ReadOneMore(lines, last);
      LineVariable(line, eol);
      VariablesConcat(PiecesOf(Content(line), eol), ReadEnvs(Print(lines[1..], last)),
                      VariableOf(line), Variables(lines[1..], last));
      AllPrintableCons(lines, last);
    }
  }

  lemma {:induction false} SomePairIsRead(lines: seq<(Line, Eol)>, last: Line)
    ensures Variables(lines, last) != [] ==> SomePair(ReadEnvs(Print(lines, last)))
    ensures Variables(lines, last) == [] ==> AllPrintable(lines, last)
  {
    if lines == [] {
      LastReads(Content(last));
    } else {
      SomePairIsRead(lines[1..], last);
      ReadOneMore(lines, last);
      PiecesAre(Content(lines[0].0), lines[0].1);
      AllPrintableCons(lines, last);
      var (a, b) := (PiecesOf(Content(lines[0].0), lines[0].1), ReadEnvs(Print(lines[1..], last)));
      assert forall p :: p in a || p in b ==> p in a + b;
    }
  }

  /** A file of variables, with any mix of line endings and any blank lines, reads back as the same variables in order
      if and only if each of them is on one line and no name has an equals sign; the special case of two arguments
      never fires on any file of variables. */
  lemma EnvFileRoundTrip(lines: seq<(Line, Eol)>, last: Line)
    ensures var kept := Filter(ReadEnvs(Print(lines, last)), NonEmpty());
            && (AllPairs(kept) && EnvsOf(kept) == Variables(lines, last) <==> AllPrintable(lines, last))
            && !IsNameAndValue(kept)
  {
    VariablesRead(lines, last);
    SomePairIsRead(lines, last);
    if Variables(lines, last) != [] {
      SomePairIsKept(ReadEnvs(Print(lines, last)));
      PairIsNoNameAndValue(Filter(ReadEnvs(Print(lines, last)), NonEmpty()));
    }
  }

  lemma PairIsNoNameAndValue(args: seq<string>)
    requires SomePair(args)
    ensures !IsNameAndValue(args)
  {
    var p :| p in args && '=' in p;
    assert |args| == 2 ==> p == args[0] || p == args[1];
  }

  ghost predicate Adds(r: AddEnvs, envs: seq<Env>) {
    r == if envs == [] then NoEnvToAdd else Envs(envs)
  }

  /** run with a file: for every way to print the text, the variables that are added, if there are any, are those
      printed if and only if each of them is on one line and no name has an equals sign. */
  method AddFromFile(text: string) returns (r: AddEnvs)
    ensures forall lines, last :: Print(lines, last) == text ==>
              (Adds(r, Variables(lines, last)) <==> AllPrintable(lines, last))
  {
    r := GetAddEnvs(ReadEnvs(text));
    forall lines, last | Print(lines, last) == text
      ensures Adds(r, Variables(lines, last)) <==> AllPrintable(lines, last)
    {
      EnvFileRoundTrip(lines, last);
      VariablesRead(lines, last);
      SomePairIsRead(lines, last);
    }
  }
}
