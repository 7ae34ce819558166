/** activities/activities.go: the activity log and the in-place stable sort by creation time. */
module Activities {
  import opened Sequences

  /** The activity types that a deployment goes through; every other type string is Other. */
  datatype Kind =
    | BuildStarted | BuildFailed | BuildPushed | BuildSucceeded
    | DeployCreated | DeployPending | DeployStarted
    | DeployFailed | DeployCanceled | DeployTimeout | DeployRollback | DeploySucceeded
    | Other(name: string)

  /** serviceId is None when the metadata has no string under "serviceId". */
  datatype Activity = Activity(createdAt: int, kind: Kind, serviceId: Option<string>)

  ghost predicate Sorted(s: seq<Activity>) {
    forall i, j :: 0 <= i < j < |s| ==> s[i].createdAt <= s[j].createdAt
  }

  /** Puts a after every element that is not later than it. */
  function Insert(s: seq<Activity>, a: Activity): seq<Activity>
  {
    if s == [] || s[|s| - 1].createdAt <= a.createdAt then s + [a]
    else Insert(s[..|s| - 1], a) + [s[|s| - 1]]
  }

  function StableSorted(s: seq<Activity>): seq<Activity>
  {
    if s == [] then [] else Insert(StableSorted(s[..|s| - 1]), s[|s| - 1])
  }

  lemma {:induction false} InsertMultiset(s: seq<Activity>, a: Activity)
    ensures multiset(Insert(s, a)) == multiset(s) + multiset{a}
  {
    if s != [] && a.createdAt < s[|s| - 1].createdAt {
      var t, z := s[..|s| - 1], s[|s| - 1];
      InsertMultiset(t, a);
      assert s == t + [z];
      assert Insert(s, a) == Insert(t, a) + [z];
      assert multiset(Insert(s, a)) == multiset(Insert(t, a)) + multiset{z};
    }
  }

  lemma {:induction false} InsertSorted(s: seq<Activity>, a: Activity)
    requires Sorted(s)
    ensures Sorted(Insert(s, a))
  {
    if s != [] && a.createdAt < s[|s| - 1].createdAt {
      var t, z := s[..|s| - 1], s[|s| - 1];
      InsertSorted(t, a);
      InsertMultiset(t, a);
      var r := Insert(t, a);
      forall i | 0 <= i < |r| ensures r[i].createdAt <= z.createdAt {
        assert r[i] in multiset(r);
        assert r[i] in t || r[i] == a;
      }
    }
  }

  lemma SnocMultiset(s: seq<Activity>, z: Activity)
    ensures multiset(s + [z]) == multiset(s) + multiset{z}
  {}

  /** The sort returns the same activities in order of creation. */
  lemma {:induction false} StableSortedSorts(s: seq<Activity>)
    ensures Sorted(StableSorted(s))
    ensures multiset(StableSorted(s)) == multiset(s)
  {
    if s == [] {
    } else {
      var t, z := s[..|s| - 1], s[|s| - 1];
      StableSortedSorts(t);
      InsertSorted(StableSorted(t), z);
      InsertMultiset(StableSorted(t), z);
      SnocMultiset(t, z);
      assert s == t + [z];
    }
  }

  lemma {:induction false} FilterInsert(s: seq<Activity>, a: Activity, p: Activity -> bool)
    requires Sorted(s)
    ensures Filter(Insert(s, a), p) == if p(a) then Insert(Filter(s, p), a) else Filter(s, p)
  {
    if s == [] || s[|s| - 1].createdAt <= a.createdAt {
      FilterSnoc(s, a, p);
      var f := Filter(s, p);
      assert f == [] || f[|f| - 1].createdAt <= a.createdAt by {
        FilterElements(s, p);
        if f != [] {
          assert f[|f| - 1] in f;
          var i :| 0 <= i < |s| && s[i] == f[|f| - 1];
        }
      }
    } else {
      var t, z := s[..|s| - 1], s[|s| - 1];
      FilterInsert(t, a, p);
      FilterSnoc(Insert(t, a), z, p);
      if p(z) {
        InsertBefore(Filter(t, p), z, a);
      }
    }
  }

  lemma InsertBefore(s: seq<Activity>, z: Activity, a: Activity)
    requires a.createdAt < z.createdAt
    ensures Insert(s + [z], a) == Insert(s, a) + [z]
  {
    assert (s + [z])[..|s|] == s;
  }

  /** Selecting commutes with the sort, whatever is selected: the sort is stable in the strongest sense. */
  lemma {:induction false} SortCommutesWithFilter(s: seq<Activity>, p: Activity -> bool)
    ensures Filter(StableSorted(s), p) == StableSorted(Filter(s, p))
  {
    if s == [] {
    } else {
      var t, z := s[..|s| - 1], s[|s| - 1];
      SortCommutesWithFilter(t, p);
      assert Filter(Insert(StableSorted(t), z), p) ==
             if p(z) then Insert(Filter(StableSorted(t), p), z) else Filter(StableSorted(t), p) by {
        StableSortedSorts(t);
        FilterInsert(StableSorted(t), z, p);
      }
      if p(z) {
        SortSnoc(Filter(t, p), z);
      }
    }
  }

  lemma SortSnoc(s: seq<Activity>, z: Activity)
    ensures StableSorted(s + [z]) == Insert(StableSorted(s), z)
  {
    assert (s + [z])[..|s|] == s;
  }

  lemma InsertLast(s: seq<Activity>, z: Activity)
    requires s == [] || s[|s| - 1].createdAt <= z.createdAt
    ensures Insert(s, z) == s + [z]
  {}

  lemma {:induction false} SortedIsFixed(s: seq<Activity>)
    requires Sorted(s)
    ensures StableSorted(s) == s
  {
    if s == [] {
    } else {
      var t, z := s[..|s| - 1], s[|s| - 1];
      assert s == t + [z];
      SortedIsFixed(t);
      InsertLast(t, z);
    }
  }

  function CreatedAt(t: int): Activity -> bool {
    (a: Activity) => a.createdAt == t
  }

  /** Activities created at the same instant keep the order in which the server sent them. */
  lemma TiesKeepOrder(s: seq<Activity>, t: int)
    ensures Filter(StableSorted(s), CreatedAt(t)) == Filter(s, CreatedAt(t))
  {
    var p := CreatedAt(t);
    SortCommutesWithFilter(s, p);
    FilterElements(s, p);
    assert forall i :: 0 <= i < |Filter(s, p)| ==> Filter(s, p)[i] in Filter(s, p);
    SortedIsFixed(Filter(s, p));
  }

  lemma {:induction false} LastOfTies(s: seq<Activity>)
    requires s != []
    ensures var (f, z) := (Filter(s, CreatedAt(s[|s| - 1].createdAt)), s[|s| - 1]); f != [] && f[|f| - 1] == z
  {}

  lemma SnocInjective(a: seq<Activity>, b: seq<Activity>, z: Activity)
    ensures a + [z] == b + [z] ==> a == b
  {
    assert (a + [z])[..|a + [z]| - 1] == a && (b + [z])[..|b + [z]| - 1] == b;
  }

  lemma SameTiesSameLast(a: seq<Activity>, b: seq<Activity>)
    requires Sorted(a) && Sorted(b) && a != []
    requires forall t :: Filter(a, CreatedAt(t)) == Filter(b, CreatedAt(t))
    ensures b != [] && a[|a| - 1] == b[|b| - 1]
  {
    LastIsInBoth(a, b);
    LastIsInBoth(b, a);
    LastIsLatest(a, b[|b| - 1]);
    LastIsLatest(b, a[|a| - 1]);
    LastOfTies(a);
    LastOfTies(b);
  }

  lemma LastIsInBoth(a: seq<Activity>, b: seq<Activity>)
    requires a != [] && forall t :: Filter(a, CreatedAt(t)) == Filter(b, CreatedAt(t))
    ensures a[|a| - 1] in b
  {
    var z := a[|a| - 1];
    LastOfTies(a);
    FilterElements(b, CreatedAt(z.createdAt));
    assert z in Filter(b, CreatedAt(z.createdAt));
  }

  lemma LastIsLatest(s: seq<Activity>, a: Activity)
    requires Sorted(s) && a in s
    ensures a.createdAt <= s[|s| - 1].createdAt
  {}

  /** Two sorted lists that agree at every instant are the same. */
  lemma {:induction false} SameTies(a: seq<Activity>, b: seq<Activity>)
    requires Sorted(a) && Sorted(b)
    requires forall t :: Filter(a, CreatedAt(t)) == Filter(b, CreatedAt(t))
    ensures a == b
  {
    if a != [] {
      SameTiesSameLast(a, b);
      var c, d, z := a[..|a| - 1], b[..|b| - 1], a[|a| - 1];
      assert a == c + [z] && b == d + [z];
      forall t ensures Filter(c, CreatedAt(t)) == Filter(d, CreatedAt(t)) {
        FilterSnoc(c, z, CreatedAt(t));
        FilterSnoc(d, z, CreatedAt(t));
        SnocInjective(Filter(c, CreatedAt(t)), Filter(d, CreatedAt(t)), z);
      }
      SameTies(c, d);
    } else if b != [] {
      SameTiesSameLast(b, a);
    }
  }

  /** Whatever way it goes about it, a sort is stable iff it is this one: the result is sorted
      and has the activities of each instant in the order of the input. */
  lemma StableSortIsUnique(s: seq<Activity>, r: seq<Activity>)
    ensures r == StableSorted(s) <==> Sorted(r) && forall t :: Filter(r, CreatedAt(t)) == Filter(s, CreatedAt(t))
  {
    StableSortedSorts(s);
    forall t ensures Filter(StableSorted(s), CreatedAt(t)) == Filter(s, CreatedAt(t)) {
      TiesKeepOrder(s, t);
    }
    if Sorted(r) && forall t :: Filter(r, CreatedAt(t)) == Filter(s, CreatedAt(t)) {
      SameTies(r, StableSorted(s));
    }
  }

  lemma {:induction false} InsertAt(s: seq<Activity>, a: Activity, j: nat)
    requires j <= |s|
    requires j > 0 ==> s[j - 1].createdAt <= a.createdAt
    requires forall i :: j <= i < |s| ==> a.createdAt < s[i].createdAt
    ensures Insert(s, a) == s[..j] + [a] + s[j..]
  {
    if j < |s| {
      InsertAt(s[..|s| - 1], a, j);
      assert s[..|s| - 1][j..] + [s[|s| - 1]] == s[j..];
    }
  }

  lemma InsertedAt(s: seq<Activity>, x: Activity, j: nat, r: seq<Activity>)
    requires j <= |s| && |r| == |s| + 1 && r[j] == x
    requires forall k :: 0 <= k < j ==> r[k] == s[k]
    requires forall k :: j <= k < |s| ==> r[k + 1] == s[k] && x.createdAt < s[k].createdAt
    requires j > 0 ==> s[j - 1].createdAt <= x.createdAt
    ensures r == Insert(s, x)
  {
    InsertAt(s, x, j);
    assert r == s[..j] + [x] + s[j..];
  }

  /** One insertion of the sort: swaps move the element at i down past every later one. */
  method InsertInPlace(a: array<Activity>, i: nat)
    requires i < a.Length
    modifies a
    ensures a[..i + 1] == Insert(old(a[..i]), old(a[i]))
    ensures a[i + 1..] == old(a[i + 1..])
  {
    ghost var s, x := a[..i], a[i];
    var j := i;
    while j > 0 && a[j].createdAt < a[j - 1].createdAt
      invariant 0 <= j <= i
      invariant a[j] == x
      invariant forall k :: 0 <= k < j ==> a[k] == s[k]
      invariant forall k :: j <= k < i ==> a[k + 1] == s[k] && x.createdAt < s[k].createdAt
      invariant a[i + 1..] == old(a[i + 1..])
    {
      a[j], a[j - 1] := a[j - 1], a[j];
      j := j - 1;
    }
    InsertedAt(s, x, j, a[..i + 1]);
  }

  /** The sort of List, in place. */
  method SortByCreation(a: array<Activity>)
    modifies a
    ensures a[..] == StableSorted(old(a[..]))
  {
    ghost var was := a[..];
    var i := 0;
    while i < a.Length
      invariant 0 <= i <= a.Length
      invariant a[..i] == StableSorted(was[..i])
      invariant a[i..] == was[i..]
    {
      SortNext(was, i, a[i..]);
      InsertInPlace(a, i);
      i := i + 1;
    }
    assert was[..i] == was;
    assert a[..i] == a[..];
  }

  lemma SortNext(s: seq<Activity>, i: nat, rest: seq<Activity>)
    requires i < |s| && rest == s[i..]
    ensures StableSorted(s[..i + 1]) == Insert(StableSorted(s[..i]), s[i])
    ensures rest[0] == s[i] && rest[1..] == s[i + 1..]
  {
    SortSnoc(s[..i], s[i]);
    assert s[..i] + [s[i]] == s[..i + 1];
  }

  /** The tail of List: the decoded activities, sorted. */
  method List(decoded: seq<Activity>) returns (log: seq<Activity>)
    ensures log == StableSorted(decoded)
  {
    var a := new Activity[|decoded|](i requires 0 <= i < |decoded| => decoded[i]);
    assert a[..] == decoded;
    SortByCreation(a);
    log := a[..];
  }
}
