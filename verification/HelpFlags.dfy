/** command/internal/template/template.go: the flags of a help page, printed in three passes that mark them in place. */
module HelpFlags {
  import opened Sequences

  datatype FlagDescription = FlagDescription(name: string, description: string, used: bool)

  type Flags = seq<FlagDescription>

  // ----- What a pass takes, as indices -----

  function ElementsOf(s: seq<nat>): set<nat> {
    set i | i in s
  }

  /** The unused flags of a name among the first n. */
  function Named(flags: Flags, used: set<nat>, name: string, n: nat): seq<nat>
    requires n <= |flags|
  {
    if n == 0 then []
    else if flags[n - 1].name == name && n - 1 !in used then Named(flags, used, name, n - 1) + [n - 1]
    else Named(flags, used, name, n - 1)
  }

  lemma NamedOneMore(flags: Flags, used: set<nat>, name: string, n: nat)
    requires n < |flags| && flags[n].name == name && n !in used
    ensures Named(flags, used, name, n + 1) == Named(flags, used, name, n) + [n]
    ensures used + ElementsOf(Named(flags, used, name, n + 1)) == used + ElementsOf(Named(flags, used, name, n)) + {n}
  {}

  /** What a pass over a list of names takes. */
  function Taken(flags: Flags, used: set<nat>, list: seq<string>): seq<nat> {
    if list == [] then []
    else
      var before := Taken(flags, used, list[..|list| - 1]);
      before + Named(flags, used + ElementsOf(before), list[|list| - 1], |flags|)
  }

  /** The flags among the first n that no pass has taken. */
  function Remaining(flags: Flags, used: set<nat>, n: nat): seq<nat>
    requires n <= |flags|
  {
    if n == 0 then []
    else if n - 1 !in used then Remaining(flags, used, n - 1) + [n - 1]
    else Remaining(flags, used, n - 1)
  }

  lemma RemainingOneMore(flags: Flags, used: set<nat>, n: nat)
    requires n < |flags| && n !in used
    ensures Remaining(flags, used, n + 1) == Remaining(flags, used, n) + [n]
    ensures used + ElementsOf(Remaining(flags, used, n + 1)) == used + ElementsOf(Remaining(flags, used, n)) + {n}
  {}

  function Render(flags: Flags, indices: seq<nat>): string {
    if indices == [] then ""
    else
      Render(flags, indices[..|indices| - 1]) + DescriptionAt(flags, indices[|indices| - 1])
  }

  function DescriptionAt(flags: Flags, i: nat): string {
    if i < |flags| then flags[i].description else ""
  }

  lemma RenderSnoc(flags: Flags, a: seq<nat>, i: nat)
    ensures Render(flags, a + [i]) == Render(flags, a) + DescriptionAt(flags, i)
  {
    assert (a + [i])[..|a|] == a;
  }

  lemma Associative(a: string, b: string, c: string)
    ensures a + b + c == a + (b + c)
  {}

  lemma {:induction false} RenderConcat(flags: Flags, a: seq<nat>, b: seq<nat>)
    ensures Render(flags, a + b) == Render(flags, a) + Render(flags, b)
  {
    if b == [] {
      assert a + b == a;
    } else {
      var (c, i) := (b[..|b| - 1], b[|b| - 1]);
      RenderConcat(flags, a, c);
      assert b == c + [i] && a + b == (a + c) + [i];
      RenderSnoc(flags, c, i);
      RenderSnoc(flags, a + c, i);
      Associative(Render(flags, a), Render(flags, c), DescriptionAt(flags, i));
    }
  }

  // ----- The printer -----

  class UsagePrinter {
    const flags: array<FlagDescription>

    constructor (flags: array<FlagDescription>)
      ensures this.flags == flags
    {
      this.flags := flags;
    }

    /** The flags are those of a list, but for the marks on some of them. */
    ghost predicate Marked(was: Flags, used: set<nat>)
      reads this, flags
    {
      && flags.Length == |was|
      && forall i: nat :: i < |was| ==>
           flags[i].name == was[i].name && flags[i].description == was[i].description && (flags[i].used <==> i in used)
    }

    method Mark(i: nat, ghost was: Flags, ghost used: set<nat>)
      requires Marked(was, used) && i < flags.Length
      modifies flags
      ensures Marked(was, used + {i})
    {
      flags[i] := flags[i].(used := true);
    }

    /** The inner loop of useFlagsHelpDescriptionFiltered. */
    method UseNamed(name: string, ghost was: Flags, ghost used: set<nat>) returns (buf: string)
      requires Marked(was, used)
      modifies flags
      ensures buf == Render(was, Named(was, used, name, |was|))
      ensures Marked(was, used + ElementsOf(Named(was, used, name, |was|)))
    {
      buf := "";
      assert used + {} == used;
      for i := 0 to flags.Length
        invariant flags.Length == |was|
        invariant buf == Render(was, Named(was, used, name, i))
        invariant Marked(was, used + ElementsOf(Named(was, used, name, i)))
      {
        NamedIs(was, used, name, i);
        if flags[i].name == name && !flags[i].used {
          NamedOneMore(was, used, name, i);
          RenderSnoc(was, Named(was, used, name, i), i);
          Mark(i, was, used + ElementsOf(Named(was, used, name, i)));
          buf := buf + flags[i].description;
        }
      }
    }

    method UseFlagsHelpDescriptionFiltered(list: seq<string>, ghost was: Flags, ghost used: set<nat>)
      returns (buf: string)
      requires Marked(was, used)
      modifies flags
      ensures buf == Render(was, Taken(was, used, list))
      ensures Marked(was, used + ElementsOf(Taken(was, used, list)))
    {
      buf := "";
      for k := 0 to |list|
        invariant buf == Render(was, Taken(was, used, list[..k]))
        invariant Marked(was, used + ElementsOf(Taken(was, used, list[..k])))
      {
        ghost var before := Taken(was, used, list[..k]);
        ghost var more := Named(was, used + ElementsOf(before), list[k], |was|);
        assert list[..k + 1][..k] == list[..k];
        var b := UseNamed(list[k], was, used + ElementsOf(before));
        buf := buf + b;
        RenderConcat(was, before, more);
        assert used + ElementsOf(before) + ElementsOf(more) == used + ElementsOf(before + more);
      }
      assert list[..|list|] == list;
    }

    method UseFlagsHelpDescription(ghost was: Flags, ghost used: set<nat>) returns (buf: string)
      requires Marked(was, used)
      modifies flags
      ensures buf == Render(was, Remaining(was, used, |was|))
      ensures forall i :: 0 <= i < flags.Length ==> flags[i].used
    {
      buf := "";
      assert used + {} == used;
      for i := 0 to flags.Length
        invariant flags.Length == |was|
        invariant buf == Render(was, Remaining(was, used, i))
        invariant Marked(was, used + ElementsOf(Remaining(was, used, i)))
      {
        RemainingIs(was, used, i);
        if !flags[i].used {
          RemainingOneMore(was, used, i);
          RenderSnoc(was, Remaining(was, used, i), i);
          Mark(i, was, used + ElementsOf(Remaining(was, used, i)));
          buf := buf + flags[i].description;
        }
      }
      RemainingIs(was, used, |was|);
    }

    /** printFlags after the flags are prepared: the passes take the begin, the end, and then the middle.
        What is printed is the descriptions of the flags in the order of begin, middle and end. */
    method PrintFlags(first: seq<string>, last: seq<string>) returns (out: string)
      requires forall i :: 0 <= i < flags.Length ==> !flags[i].used
      modifies flags
      ensures var was := old(flags[..]);
              var shown := Begin(was, first) + Middle(was, first, last) + End(was, first, last);
              AreIndices(was, shown) && out == Concat(Descriptions(was, shown))
      ensures forall i :: 0 <= i < flags.Length ==> flags[i].used
    {
      ghost var was := flags[..];
      var begin := UseFlagsHelpDescriptionFiltered(first, was, {});
      ghost var used := {} + ElementsOf(Begin(was, first));
      assert used == ElementsOf(Begin(was, first));
      var end := UseFlagsHelpDescriptionFiltered(last, was, used);
      var middle := UseFlagsHelpDescription(was, used + ElementsOf(End(was, first, last)));
      out := begin + middle + end;
      PassesPrint(was, first, last);
    }
  }

  function Begin(flags: Flags, first: seq<string>): seq<nat> {
    Taken(flags, {}, first)
  }

  function End(flags: Flags, first: seq<string>, last: seq<string>): seq<nat> {
    Taken(flags, ElementsOf(Begin(flags, first)), last)
  }

  function Middle(flags: Flags, first: seq<string>, last: seq<string>): seq<nat> {
    Remaining(flags, ElementsOf(Begin(flags, first)) + ElementsOf(End(flags, first, last)), |flags|)
  }

  // ----- What is printed -----

  ghost predicate AreIndices(flags: Flags, indices: seq<nat>) {
    forall i :: i in indices ==> i < |flags|
  }

  function Descriptions(flags: Flags, indices: seq<nat>): seq<string>
    requires AreIndices(flags, indices)
  {
    seq(|indices|, k requires 0 <= k < |indices| => assert indices[k] in indices; flags[indices[k]].description)
  }

  lemma {:induction false} RenderIs(flags: Flags, indices: seq<nat>)
    requires AreIndices(flags, indices)
    ensures Render(flags, indices) == Concat(Descriptions(flags, indices))
  {
    if indices == [] {
    } else {
      var front, i := indices[..|indices| - 1], indices[|indices| - 1];
      assert i in indices && forall j :: j in front ==> j in indices;
      RenderIs(flags, front);
      var all := Descriptions(flags, indices);
      assert all[..|all| - 1] == Descriptions(flags, front) && all[|all| - 1] == flags[i].description;
    }
  }

  lemma PassesPrint(flags: Flags, first: seq<string>, last: seq<string>)
    ensures var (b, m, e) := (Begin(flags, first), Middle(flags, first, last), End(flags, first, last));
            && AreIndices(flags, b + m + e)
            && Render(flags, b) + Render(flags, m) + Render(flags, e) == Concat(Descriptions(flags, b + m + e))
  {
    var (b, m, e) := (Begin(flags, first), Middle(flags, first, last), End(flags, first, last));
    PassesShareOut(flags, first, last);
    RenderConcat(flags, b, m);
    RenderConcat(flags, b + m, e);
    RenderIs(flags, b + m + e);
  }

  // ----- The passes share the flags out -----

  /** The sequence is increasing, and its elements are below n. */
  ghost predicate IncreasesBelow(s: seq<nat>, n: nat) {
    (forall a :: 0 <= a < |s| ==> s[a] < n) && forall a, b :: 0 <= a < b < |s| ==> s[a] < s[b]
  }

  lemma OneMoreIncreases(s: seq<nat>, n: nat)
    requires IncreasesBelow(s, n)
    ensures IncreasesBelow(s + [n], n + 1) && IncreasesBelow(s, n + 1)
  {}

  lemma {:induction false} NamedIncreases(flags: Flags, used: set<nat>, name: string, n: nat)
    requires n <= |flags|
    ensures IncreasesBelow(Named(flags, used, name, n), n)
  {
    if n == 0 {
    } else {
      NamedIncreases(flags, used, name, n - 1);
      OneMoreIncreases(Named(flags, used, name, n - 1), n - 1);
    }
  }

  lemma {:induction false} NamedMembers(flags: Flags, used: set<nat>, name: string, n: nat, i: nat)
    requires n <= |flags|
    ensures i in Named(flags, used, name, n) <==> i < n && flags[i].name == name && i !in used
  {
    if n == 0 {
    } else {
      NamedMembers(flags, used, name, n - 1, i);
    }
  }

  lemma NamedIs(flags: Flags, used: set<nat>, name: string, n: nat)
    requires n <= |flags|
    ensures var s := Named(flags, used, name, n);
            && (forall i: nat :: i in s <==> i < n && flags[i].name == name && i !in used)
            && forall a, b :: 0 <= a < b < |s| ==> s[a] < s[b]
  {
    NamedIncreases(flags, used, name, n);
    forall i: nat ensures i in Named(flags, used, name, n) <==> i < n && flags[i].name == name && i !in used {
      NamedMembers(flags, used, name, n, i);
    }
  }

  lemma {:induction false} RemainingIncreases(flags: Flags, used: set<nat>, n: nat)
    requires n <= |flags|
    ensures IncreasesBelow(Remaining(flags, used, n), n)
  {
    if n == 0 {
    } else {
      RemainingIncreases(flags, used, n - 1);
      OneMoreIncreases(Remaining(flags, used, n - 1), n - 1);
    }
  }

  lemma {:induction false} RemainingMembers(flags: Flags, used: set<nat>, n: nat, i: nat)
    requires n <= |flags|
    ensures i in Remaining(flags, used, n) <==> i < n && i !in used
  {
    if n == 0 {
    } else {
      RemainingMembers(flags, used, n - 1, i);
    }
  }

  lemma RemainingIs(flags: Flags, used: set<nat>, n: nat)
    requires n <= |flags|
    ensures var s := Remaining(flags, used, n);
            && (forall i: nat :: i in s <==> i < n && i !in used)
            && forall a, b :: 0 <= a < b < |s| ==> s[a] < s[b]
  {
    RemainingIncreases(flags, used, n);
    forall i: nat ensures i in Remaining(flags, used, n) <==> i < n && i !in used {
      RemainingMembers(flags, used, n, i);
    }
  }

  /** The position of the first occurrence of a name in a list. */
  function Rank(list: seq<string>, name: string): nat {
    if list == [] then 0
    else if name in list[..|list| - 1] then Rank(list[..|list| - 1], name)
    else |list| - 1
  }

  /** Flags come in the order of the list, and those of one name in their own order. */
  ghost predicate InListOrder(flags: Flags, list: seq<string>, s: seq<nat>) {
    && (forall a :: 0 <= a < |s| ==> s[a] < |flags|)
    && forall a, b :: 0 <= a < b < |s| ==>
         var (x, y) := (Rank(list, flags[s[a]].name), Rank(list, flags[s[b]].name));
         x < y || (x == y && s[a] < s[b])
  }

  lemma {:induction false} RankBelow(list: seq<string>, name: string)
    requires name in list
    ensures Rank(list, name) < |list|
  {
    if name in list[..|list| - 1] {
      RankBelow(list[..|list| - 1], name);
    }
  }

  lemma {:induction false} TakenIs(flags: Flags, used: set<nat>, list: seq<string>)
    ensures var s := Taken(flags, used, list);
            && (forall i: nat :: i in s <==> i < |flags| && flags[i].name in list && i !in used)
            && NoDuplicates(s) && InListOrder(flags, list, s)
  {
    if list == [] {
    } else {
      var (front, name) := (list[..|list| - 1], list[|list| - 1]);
      assert list == front + [name];
      var before := Taken(flags, used, front);
      var more := Named(flags, used + ElementsOf(before), name, |flags|);
      TakenIs(flags, used, front);
      NamedIs(flags, used + ElementsOf(before), name, |flags|);
      TakenMembers(flags, used, list);
      if more != [] {
        assert more[0] in more;
      }
      TakenOrder(flags, list, before, more);
    }
  }

  lemma TakenMembers(flags: Flags, used: set<nat>, list: seq<string>)
    requires list != []
    requires forall i: nat :: i in Taken(flags, used, list[..|list| - 1]) <==>
                              i < |flags| && flags[i].name in list[..|list| - 1] && i !in used
    ensures forall i: nat :: i in Taken(flags, used, list) <==> i < |flags| && flags[i].name in list && i !in used
  {
    var (front, name) := (list[..|list| - 1], list[|list| - 1]);
    assert list == front + [name];
    NamedIs(flags, used + ElementsOf(Taken(flags, used, front)), name, |flags|);
  }

  lemma TakenOrder(flags: Flags, list: seq<string>, before: seq<nat>, more: seq<nat>)
    requires list != []
    requires NoDuplicates(before) && InListOrder(flags, list[..|list| - 1], before)
    requires forall i: nat :: i in before ==> flags[i].name in list[..|list| - 1]
    requires forall i: nat :: i in more ==> i < |flags| && flags[i].name == list[|list| - 1] && i !in before
    requires forall a, b :: 0 <= a < b < |more| ==> more[a] < more[b]
    requires more != [] ==> list[|list| - 1] !in list[..|list| - 1]
    ensures NoDuplicates(before + more) && InListOrder(flags, list, before + more)
  {
    var s, front := before + more, list[..|list| - 1];
    forall i: nat | i in s
      ensures i < |flags|
      ensures Rank(list, flags[i].name) == if i in before then Rank(front, flags[i].name) else |front|
    {}
    forall i: nat | i in before ensures Rank(list, flags[i].name) < |front| {
      RankBelow(front, flags[i].name);
    }
    forall a, b | 0 <= a < b < |s|
      ensures s[a] != s[b]
      ensures var (x, y) := (Rank(list, flags[s[a]].name), Rank(list, flags[s[b]].name));
              x < y || (x == y && s[a] < s[b])
    {
      assert s[a] in s && s[b] in s;
      if b < |before| {
        assert s[a] == before[a] && s[b] == before[b];
      } else if a >= |before| {
        assert s[a] == more[a - |before|] && s[b] == more[b - |before|];
      } else {
        assert s[a] == before[a] && s[b] == more[b - |before|];
      }
    }
  }

  /** Whatever the two lists, overlapping or repeating, the three passes print every flag exactly once:
      at the begin those of the first list, at the end those of the last list that the first has not,
      both in list order, and in the middle the others in their own order. */
  lemma PassesShareOut(flags: Flags, first: seq<string>, last: seq<string>)
    ensures var (b, m, e) := (Begin(flags, first), Middle(flags, first, last), End(flags, first, last));
            && NoDuplicates(b + m + e)
            && (forall i: nat :: i in b + m + e <==> i < |flags|)
            && (forall i: nat :: i in b <==> i < |flags| && flags[i].name in first)
            && (forall i: nat :: i in e <==> i < |flags| && flags[i].name in last && flags[i].name !in first)
            && InListOrder(flags, first, b) && InListOrder(flags, last, e)
            && forall x, y :: 0 <= x < y < |m| ==> m[x] < m[y]
  {
    var (b, m, e) := (Begin(flags, first), Middle(flags, first, last), End(flags, first, last));
    TakenIs(flags, {}, first);
    TakenIs(flags, ElementsOf(b), last);
    RemainingIs(flags, ElementsOf(b) + ElementsOf(e), |flags|);
    IncreasingIsDistinct(m);
    PassesAreDistinct(b, m, e);
  }

  lemma IncreasingIsDistinct(s: seq<nat>)
    requires forall x, y :: 0 <= x < y < |s| ==> s[x] < s[y]
    ensures NoDuplicates(s)
  {}

  lemma PassesAreDistinct(b: seq<nat>, m: seq<nat>, e: seq<nat>)
    requires NoDuplicates(b) && NoDuplicates(m) && NoDuplicates(e)
    requires forall i: nat :: i in m ==> i !in b && i !in e
    requires forall i: nat :: i in e ==> i !in b
    ensures NoDuplicates(b + m + e)
    ensures forall i: nat :: i in b + m + e <==> i in b || i in m || i in e
  {
    ConcatDistinct(b, m);
    ConcatDistinct(b + m, e);
  }
}
