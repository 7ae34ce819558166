/** When the order in which the server lists the activities can matter: exactly when two kinds
    that are new to a service both arrive latest, at the same instant. */
module DeliveryOrder {
  import opened Sequences
  import opened Activities
  import opened DeployStates

  /** t is the time of the earliest activity of kind k for the service. */
  ghost predicate ArrivesAt(log: seq<Activity>, id: string, k: Kind, t: int) {
    && (exists a :: a in log && Concerns(a, id, k) && a.createdAt == t)
    && forall a :: a in log && Concerns(a, id, k) ==> t <= a.createdAt
  }

  /** k is new to the service, and no other new kind arrives later. */
  ghost predicate Settles(m: Mode, id: string, p: Progress, log: seq<Activity>, k: Kind, t: int) {
    && Fresh(m, id, p, k)
    && ArrivesAt(log, id, k, t)
    && forall k', t' :: Fresh(m, id, p, k') && ArrivesAt(log, id, k', t') ==> t' <= t
  }

  ghost predicate Ambiguous(m: Mode, id: string, p: Progress, log: seq<Activity>) {
    exists k1, k2, t :: k1 != k2 && Settles(m, id, p, log, k1, t) && Settles(m, id, p, log, k2, t)
  }

  lemma ArrivalsPermute(log: seq<Activity>, other: seq<Activity>)
    requires multiset(log) == multiset(other)
    ensures forall id, k, t :: ArrivesAt(log, id, k, t) <==> ArrivesAt(other, id, k, t)
  {
    SameElements(log, other);
  }

  lemma SettlingPermutes(m: Mode, id: string, p: Progress, log: seq<Activity>, other: seq<Activity>)
    requires multiset(log) == multiset(other)
    ensures forall k, t :: Settles(m, id, p, log, k, t) <==> Settles(m, id, p, other, k, t)
  {
    ArrivalsPermute(log, other);
  }

  /** In a sorted list, the first activity of a kind has the time of arrival of the kind. */
  lemma NewArrives(m: Mode, id: string, p: Progress, log: seq<Activity>, i: nat)
    requires Sorted(log) && NewAt(m, id, p, log, i)
    ensures ArrivesAt(log, id, log[i].kind, log[i].createdAt)
  {
    assert log[i] in log && Concerns(log[i], id, log[i].kind);
    forall a | a in log && Concerns(a, id, log[i].kind) ensures log[i].createdAt <= a.createdAt {
      var j :| 0 <= j < |log| && log[j] == a;
    }
  }

  lemma LastNewSettles(m: Mode, id: string, p: Progress, log: seq<Activity>, i: nat)
    requires Sorted(log) && LastNewAt(m, id, p, log, i)
    ensures Settles(m, id, p, log, log[i].kind, log[i].createdAt)
  {
    NewArrives(m, id, p, log, i);
    forall k, t | Fresh(m, id, p, k) && ArrivesAt(log, id, k, t) ensures t <= log[i].createdAt {
      var a :| a in log && Concerns(a, id, k) && a.createdAt == t;
      var h :| 0 <= h < |log| && log[h] == a;
      var j := FirstOfItsKind(m, id, p, log, h);
      NewArrives(m, id, p, log, j);
      assert log[j].createdAt == t by {
        assert log[j] in log && Concerns(log[j], id, k);
      }
    }
  }

  /** The outcome for one service of a sorted list: nothing new, or the kind that settles it. */
  lemma Outcome(m: Mode, id: string, p: Progress, log: seq<Activity>) returns (i: int)
    requires Sorted(log)
    ensures i == -1 ==> Follow(m, id, p, log) == p
    ensures i == -1 ==> forall a :: a in log && a.serviceId == Some(id) ==> !Fresh(m, id, p, a.kind)
    ensures i != -1 ==>
              && LastNewAt(m, id, p, log, i)
              && Follow(m, id, p, log).current == Some(log[i].kind)
              && Settles(m, id, p, log, log[i].kind, log[i].createdAt)
  {
    if j :| 0 <= j < |log| && log[j].serviceId == Some(id) && Fresh(m, id, p, log[j].kind) {
      var h := FirstOfItsKind(m, id, p, log, j);
      i := SomeNewHasALast(m, id, p, log, h);
      CurrentIsTheLastNewKind(m, id, p, log, i);
      LastNewSettles(m, id, p, log, i);
    } else {
      NothingNewChangesNothing(m, id, p, log);
      i := -1;
    }
  }

  lemma VisitedPermutes(m: Mode, id: string, p: Progress, log: seq<Activity>, other: seq<Activity>)
    requires multiset(log) == multiset(other)
    ensures Follow(m, id, p, log).visited == Follow(m, id, p, other).visited
  {
    SameElements(log, other);
    forall k ensures k in Follow(m, id, p, log).visited <==> k in Follow(m, id, p, other).visited {
      VisitedIsWhatWasSeen(m, id, p, log, k);
      VisitedIsWhatWasSeen(m, id, p, other, k);
      assert (exists i :: 0 <= i < |log| && Concerns(log[i], id, k)) <==> exists a :: a in log && Concerns(a, id, k);
      assert (exists i :: 0 <= i < |other| && Concerns(other[i], id, k)) <==>
             exists a :: a in other && Concerns(a, id, k);
    }
  }

  lemma UnambiguousIsOrderFree(m: Mode, id: string, p: Progress, log: seq<Activity>, other: seq<Activity>)
    requires multiset(log) == multiset(other)
    requires !Ambiguous(m, id, p, log)
    ensures Follow(m, id, p, StableSorted(log)) == Follow(m, id, p, StableSorted(other))
  {
    var a, b := StableSorted(log), StableSorted(other);
    StableSortedSorts(log);
    StableSortedSorts(other);
    VisitedPermutes(m, id, p, a, b);
    SameElements(a, b);
    SettlingPermutes(m, id, p, log, a);
    SettlingPermutes(m, id, p, log, b);
    var i := Outcome(m, id, p, a);
    var j := Outcome(m, id, p, b);
    if i != -1 {
      assert a[i] in b;
      assert b[j].createdAt == a[i].createdAt;
    }
  }

  // ----- The converse: an ambiguous list has an order that ends elsewhere -----

  function OfKind(id: string, k: Kind): Activity -> bool {
    (a: Activity) => a.serviceId == Some(id) && a.kind == k
  }

  function AtTime(id: string, t: int): Activity -> bool {
    (a: Activity) => a.serviceId == Some(id) && a.createdAt == t
  }

  /** The same activities with those of kind k for the service listed first. */
  function ListedFirst(log: seq<Activity>, id: string, k: Kind): seq<Activity> {
    Filter(log, OfKind(id, k)) + Filter(log, Not(OfKind(id, k)))
  }

  lemma {:induction false} HeadOfFilter(s: seq<Activity>, q: Activity -> bool) returns (i: nat)
    requires Filter(s, q) != []
    ensures i < |s| && s[i] == Filter(s, q)[0] && q(s[i]) && forall h :: 0 <= h < i ==> !q(s[h])
  {
    var t := s[..|s| - 1];
    if Filter(t, q) != [] {
      i := HeadOfFilter(t, q);
    } else {
      i := |s| - 1;
      FilterElements(t, q);
      forall h | 0 <= h < i ensures !q(s[h]) {
        assert t[h] in t;
      }
    }
  }

  lemma FilterOfSameTime(s: seq<Activity>, id: string, t: int)
    ensures Filter(StableSorted(s), AtTime(id, t)) == Filter(s, AtTime(id, t))
  {
    var q := AtTime(id, t);
    SortCommutesWithFilter(s, q);
    FilterElements(s, q);
    assert forall i :: 0 <= i < |Filter(s, q)| ==> Filter(s, q)[i] in Filter(s, q);
    SortedIsFixed(Filter(s, q));
  }

  lemma FirstListedIsFirstSorted(log: seq<Activity>, id: string, k: Kind, t: int) returns (i: nat)
    requires exists a :: a in log && Concerns(a, id, k) && a.createdAt == t
    ensures var s := StableSorted(ListedFirst(log, id, k));
            && i < |s| && Concerns(s[i], id, k) && s[i].createdAt == t
            && forall h :: 0 <= h < i ==> !AtTime(id, t)(s[h])
  {
    var x, y := Filter(log, OfKind(id, k)), Filter(log, Not(OfKind(id, k)));
    var q := AtTime(id, t);
    FilterOfSameTime(x + y, id, t);
    FilterConcat(x, y, q);
    FilterElements(log, OfKind(id, k));
    FilterElements(x, q);
    var a :| a in log && Concerns(a, id, k) && a.createdAt == t;
    assert a in Filter(x, q);
    assert Filter(x, q)[0] in Filter(x, q);
    i := HeadOfFilter(StableSorted(x + y), q);
  }

  lemma ListingFirstAvoids(m: Mode, id: string, p: Progress, log: seq<Activity>, k: Kind, other: Kind, t: int)
    requires k != other && Settles(m, id, p, log, k, t) && Settles(m, id, p, log, other, t)
    ensures Follow(m, id, p, StableSorted(ListedFirst(log, id, k))).current != Some(k)
  {
    var bs := ListedFirst(log, id, k);
    var s := StableSorted(bs);
    SplitIsPermutation(log, OfKind(id, k));
    StableSortedSorts(bs);
    SettlingPermutes(m, id, p, log, s);
    var i := FirstListedIsFirstSorted(log, id, k, t);
    var a :| a in s && Concerns(a, id, other) && a.createdAt == t;
    var h :| 0 <= h < |s| && s[h] == a;
    var j := FirstOfItsKind(m, id, p, s, h);
    NewArrives(m, id, p, s, j);
    assert s[j].createdAt == t by {
      assert s[j] in s && Concerns(s[j], id, other);
    }
    assert AtTime(id, t)(s[j]) && i < j;
    var last := SomeNewHasALast(m, id, p, s, j);
    CurrentIsTheLastNewKind(m, id, p, s, last);
    assert Concerns(s[i], id, k);
  }

  lemma AmbiguousDependsOnOrder(m: Mode, id: string, p: Progress, log: seq<Activity>) returns (other: seq<Activity>)
    requires Ambiguous(m, id, p, log)
    ensures multiset(other) == multiset(log)
    ensures Follow(m, id, p, StableSorted(other)) != Follow(m, id, p, StableSorted(log))
  {
    var k1, k2, t :| k1 != k2 && Settles(m, id, p, log, k1, t) && Settles(m, id, p, log, k2, t);
    StableSortedSorts(log);
    var i := Outcome(m, id, p, StableSorted(log));
    SameElements(log, StableSorted(log));
    var k := StableSorted(log)[i].kind;
    SettlingPermutes(m, id, p, log, StableSorted(log));
    other := ListedFirst(log, id, k);
    SplitIsPermutation(log, OfKind(id, k));
    assert StableSorted(log)[i].createdAt == t;
    ListingFirstAvoids(m, id, p, log, k, if k == k1 then k2 else k1, t);
  }

  ghost predicate OrderFree(m: Mode, st: States, log: seq<Activity>) {
    forall other :: multiset(other) == multiset(log) ==>
                    Sync(m, st, StableSorted(other)) == Sync(m, st, StableSorted(log))
  }

  /** Every order of a response gives the same states after the stable sort and sync,
      if and only if no service has two new kinds that both arrive latest. */
  lemma OrderMattersOnlyOnLatestTies(m: Mode, st: States, log: seq<Activity>)
    ensures OrderFree(m, st, log) <==> forall id :: id in st ==> !Ambiguous(m, id, st[id], log)
  {
    if forall id :: id in st ==> !Ambiguous(m, id, st[id], log) {
      forall other | multiset(other) == multiset(log)
        ensures Sync(m, st, StableSorted(other)) == Sync(m, st, StableSorted(log))
      {
        SyncKeepsServices(m, st, StableSorted(other));
        SyncKeepsServices(m, st, StableSorted(log));
        forall id | id in st ensures Sync(m, st, StableSorted(other))[id] == Sync(m, st, StableSorted(log))[id] {
          SyncFollows(m, st, StableSorted(other), id);
          SyncFollows(m, st, StableSorted(log), id);
          UnambiguousIsOrderFree(m, id, st[id], log, other);
        }
      }
    } else {
      var id :| id in st && Ambiguous(m, id, st[id], log);
      var other := AmbiguousDependsOnOrder(m, id, st[id], log);
      SyncFollows(m, st, StableSorted(other), id);
      SyncFollows(m, st, StableSorted(log), id);
    }
  }

  /** In particular when the activities of one service created at the same instant, if there are any, are of one kind,
      however the timestamps of different services tie or interleave. */
  lemma AgreeingTiesAreOrderFree(m: Mode, st: States, log: seq<Activity>)
    requires forall a, b :: a in log && b in log && a.serviceId == b.serviceId && a.createdAt == b.createdAt ==>
                            a.kind == b.kind
    ensures OrderFree(m, st, log)
  {
    assert forall id :: id in st ==> !Ambiguous(m, id, st[id], log);
    OrderMattersOnlyOnLatestTies(m, st, log);
  }
}
