/** command/exec/args/args.go: the "--" that exec puts before the command it is to run. */
module ExecArgs {
  const SEPARATOR := "--"

  predicate IsDash(a: string) {
    a != "" && a[0] == '-'
  }

  // ----- What an argument is -----

  /** The argument at k is the value of the string flag before it. */
  predicate IsValue(stringFlags: set<string>, args: seq<string>, k: nat)
    requires k <= |args|
  {
    k > 0 && IsDash(args[k - 1]) && args[k - 1] in stringFlags && !IsValue(stringFlags, args, k - 1)
  }

  predicate IsFlagOrValue(stringFlags: set<string>, args: seq<string>, k: nat)
    requires k < |args|
  {
    args[k] != SEPARATOR && (IsDash(args[k]) || IsValue(stringFlags, args, k))
  }

  /** The first argument that is neither a flag nor the value of one, with no separator before it. */
  predicate IsFirstPositional(stringFlags: set<string>, args: seq<string>, i: nat) {
    && i < |args|
    && !IsDash(args[i]) && !IsValue(stringFlags, args, i)
    && forall k :: 0 <= k < i ==> IsFlagOrValue(stringFlags, args, k)
  }

  /** Where the command name is followed by its own first positional argument: what the rewrite looks for. */
  predicate InsertsAt(name: string, stringFlags: set<string>, args: seq<string>, i: nat, j: nat) {
    && IsFirstPositional(stringFlags, args, i) && args[i] == name
    && IsFirstPositional(stringFlags, args[i + 1..], j)
  }

  /** How many string flags stand right before k. */
  function Streak(stringFlags: set<string>, args: seq<string>, k: nat): nat
    requires k <= |args|
  {
    if k > 0 && args[k - 1] != "" && args[k - 1][0] == '-' && args[k - 1] in stringFlags
    then Streak(stringFlags, args, k - 1) + 1
    else 0
  }

  /** An argument is the value of the string flag before it iff the string flags right before it are odd in number:
      each one that is no value itself takes the next argument, whatever that looks like. */
  lemma {:induction false} ValueIsOdd(stringFlags: set<string>, args: seq<string>, k: nat)
    requires k <= |args|
    ensures IsValue(stringFlags, args, k) <==> Streak(stringFlags, args, k) % 2 == 1
  {
    if k == 0 {
    } else {
      ValueIsOdd(stringFlags, args, k - 1);
    }
  }

  /** The first positional argument: no dash in front and no string flag to take it, and before it no separator,
      but flags and the values that they take. */
  lemma FirstPositionalIs(stringFlags: set<string>, args: seq<string>, i: nat)
    ensures IsFirstPositional(stringFlags, args, i) <==>
            && i < |args| && !("-" <= args[i]) && Streak(stringFlags, args, i) % 2 == 0
            && forall k :: 0 <= k < i ==>
                 args[k] != "--" && ("-" <= args[k] || Streak(stringFlags, args, k) % 2 == 1)
  {
    forall k | 0 <= k < |args|
      ensures IsValue(stringFlags, args, k) <==> Streak(stringFlags, args, k) % 2 == 1
      ensures IsFlagOrValue(stringFlags, args, k) <==>
              args[k] != "--" && ("-" <= args[k] || Streak(stringFlags, args, k) % 2 == 1)
      ensures IsDash(args[k]) <==> "-" <= args[k]
    {
      ValueIsOdd(stringFlags, args, k);
      DashIsPrefix(args[k]);
    }
  }

  lemma DashIsPrefix(a: string)
    ensures IsDash(a) <==> "-" <= a
  {
    if IsDash(a) {
      assert a[..1] == "-";
    }
  }

  // ----- The two passes -----

  /** The scan that both loops make: the index where it stops on a positional argument, or -1. */
  method Scan(stringFlags: set<string>, args: seq<string>) returns (found: int)
    ensures found != -1 ==> 0 <= found && IsFirstPositional(stringFlags, args, found)
    ensures found == -1 ==> forall i: nat :: !IsFirstPositional(stringFlags, args, i)
  {
    var skip := false;
    for index := 0 to |args|
      invariant forall k :: 0 <= k < index ==> IsFlagOrValue(stringFlags, args, k)
      invariant skip == IsValue(stringFlags, args, index)
    {
      var a := args[index];
      if a == SEPARATOR {
        NoFirstBeyond(stringFlags, args, index);
        return -1;
      }
      if skip {
        skip := false;
        continue;
      }
      if IsDash(a) {
        if a in stringFlags {
          skip := true;
        }
        continue;
      }
      return index;
    }
    NoFirstBeyond(stringFlags, args, |args|);
    return -1;
  }

  lemma NoFirstBeyond(stringFlags: set<string>, args: seq<string>, index: nat)
    requires index <= |args| && (index < |args| ==> args[index] == SEPARATOR)
    requires forall k :: 0 <= k < index ==> IsFlagOrValue(stringFlags, args, k)
    ensures forall i: nat :: !IsFirstPositional(stringFlags, args, i)
  {
    forall i: nat ensures !IsFirstPositional(stringFlags, args, i) {
      assert i < index ==> IsFlagOrValue(stringFlags, args, i);
      assert index < |args| ==> !IsFlagOrValue(stringFlags, args, index);
    }
  }

  method GetPosition(name: string, stringFlags: set<string>, args: seq<string>) returns (pos: int, rewrite: bool)
    ensures rewrite ==> 0 < pos <= |args| && IsFirstPositional(stringFlags, args, pos - 1) && args[pos - 1] == name
    ensures !rewrite ==> forall i: nat :: IsFirstPositional(stringFlags, args, i) ==> args[i] != name
  {
    var found := Scan(stringFlags, args);
    if found != -1 {
      FirstIsUnique(stringFlags, args, found);
      if args[found] == name {
        return found + 1, true;
      }
    }
    return -1, false;
  }

  /** Two indices cannot both be the first positional one. */
  lemma FirstIsUnique(stringFlags: set<string>, args: seq<string>, i: nat)
    requires IsFirstPositional(stringFlags, args, i)
    ensures forall j: nat :: IsFirstPositional(stringFlags, args, j) ==> j == i
  {
    forall j: nat | IsFirstPositional(stringFlags, args, j) ensures j == i {
      assert j < i ==> IsFlagOrValue(stringFlags, args, j);
      assert i < j ==> IsFlagOrValue(stringFlags, args, i);
    }
  }

  function Inserted(args: seq<string>, at: nat): seq<string>
    requires at <= |args|
  {
    args[..at] + [SEPARATOR] + args[at..]
  }

  function Deleted(na: seq<string>, at: nat): seq<string>
    requires at < |na|
  {
    na[..at] + na[at + 1..]
  }

  /** A rewrite inserts one separator right before the first positional argument after the command name;
      it happens if and only if there is one with no separator before it, and taking it out restores the arguments. */
  method MaybeRewrite(name: string, stringFlags: set<string>, args: seq<string>)
    returns (na: seq<string>, rewritten: bool)
    ensures rewritten <==> exists i: nat, j: nat :: InsertsAt(name, stringFlags, args, i, j)
    ensures forall i: nat, j: nat :: InsertsAt(name, stringFlags, args, i, j) ==>
                                     na == Inserted(args, i + 1 + j) && Deleted(na, i + 1 + j) == args
    ensures !rewritten ==> na == []
  {
    var pos, rewrite := GetPosition(name, stringFlags, args);
    if !rewrite {
      return [], false;
    }
    FirstIsUnique(stringFlags, args, pos - 1);
    var found := Scan(stringFlags, args[pos..]);
    if found == -1 {
      return [], false;
    }
    FirstIsUnique(stringFlags, args[pos..], found);
    na := args[..found + pos] + ([SEPARATOR] + args[found + pos..]);
    assert InsertsAt(name, stringFlags, args, pos - 1, found);
    return na, true;
  }

  // ----- What a rewrite is worth -----

  lemma {:induction false} ValueDependsOnPrefix(stringFlags: set<string>, a: seq<string>, b: seq<string>, k: nat)
    requires k <= |a| && k <= |b| && a[..k] == b[..k]
    ensures IsValue(stringFlags, a, k) == IsValue(stringFlags, b, k)
  {
    if k == 0 {
    } else {
      assert a[..k - 1] == a[..k][..k - 1] && b[..k - 1] == b[..k][..k - 1];
      assert a[..k][k - 1] == b[..k][k - 1];
      ValueDependsOnPrefix(stringFlags, a, b, k - 1);
    }
  }

  lemma SamePrefix(stringFlags: set<string>, a: seq<string>, b: seq<string>, i: nat, j: nat)
    requires j < i <= |a| && i <= |b| && a[..i] == b[..i]
    ensures IsFlagOrValue(stringFlags, a, j) == IsFlagOrValue(stringFlags, b, j)
    ensures !IsDash(a[j]) && !IsValue(stringFlags, a, j) <==> !IsDash(b[j]) && !IsValue(stringFlags, b, j)
  {
    assert a[..j] == a[..i][..j] && b[..j] == b[..i][..j];
    assert a[..i][j] == b[..i][j];
    ValueDependsOnPrefix(stringFlags, a, b, j);
  }

  /** The first positional argument is found from the arguments up to it. */
  lemma FirstDependsOnPrefix(stringFlags: set<string>, a: seq<string>, b: seq<string>, n: nat, i: nat)
    requires i < n <= |a| && n <= |b| && a[..n] == b[..n]
    ensures IsFirstPositional(stringFlags, a, i) <==> IsFirstPositional(stringFlags, b, i)
  {
    forall j | 0 <= j <= i
      ensures IsFlagOrValue(stringFlags, a, j) == IsFlagOrValue(stringFlags, b, j)
      ensures !IsDash(a[j]) && !IsValue(stringFlags, a, j) <==> !IsDash(b[j]) && !IsValue(stringFlags, b, j)
    {
      SamePrefix(stringFlags, a, b, n, j);
    }
  }

  /** A second pass never rewrites. */
  lemma RewritesOnce(name: string, stringFlags: set<string>, args: seq<string>, i: nat, j: nat, na: seq<string>)
    requires InsertsAt(name, stringFlags, args, i, j) && na == Inserted(args, i + 1 + j)
    ensures forall i': nat, j': nat :: !InsertsAt(name, stringFlags, na, i', j')
  {
    assert na[..i + 1] == args[..i + 1];
    FirstDependsOnPrefix(stringFlags, args, na, i + 1, i);
    FirstIsUnique(stringFlags, na, i);
    var rest, more := args[i + 1..], na[i + 1..];
    assert more[..j] == rest[..j] && more[j] == SEPARATOR;
    assert !IsFlagOrValue(stringFlags, more, j);
    FirstIsUnique(stringFlags, rest, j);
    forall j': nat ensures !IsFirstPositional(stringFlags, more, j') {
      if j' < j {
        FirstDependsOnPrefix(stringFlags, rest, more, j, j');
      }
    }
  }

  /** Between the command name and the separator there are only flags and values of string flags. */
  lemma OnlyFlagsBetween(name: string, stringFlags: set<string>, args: seq<string>, i: nat, j: nat,
                         na: seq<string>, more: seq<string>)
    requires InsertsAt(name, stringFlags, args, i, j) && na == Inserted(args, i + 1 + j) && more == na[i + 1..]
    ensures na[i] == name && more[j] == SEPARATOR
    ensures forall k :: 0 <= k < j ==> IsFlagOrValue(stringFlags, more, k)
  {
    var rest := args[i + 1..];
    assert more[..j] == rest[..j];
    forall k | 0 <= k < j ensures IsFlagOrValue(stringFlags, more, k) {
      SamePrefix(stringFlags, rest, more, j, k);
    }
  }
}
