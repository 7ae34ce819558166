/** deployment/internal/feedback/feedback.go: how an activity log moves the watched services, as values. */
module DeployStates {
  import opened Sequences
  import opened Activities

  /** Which services are only built: all of them, or those whose build skipped the deployment. */
  datatype Mode = Mode(onlyBuild: bool, buildOnly: set<string>)

  /** current is None before the first accepted activity (the empty string of the Go field). */
  datatype Progress = Progress(current: Option<Kind>, visited: set<Kind>)

  type States = map<string, Progress>

  predicate SkippedDeploy(m: Mode, id: string) {
    m.onlyBuild || id in m.buildOnly
  }

  predicate IsValidBuildState(k: Kind) {
    k.BuildStarted? || k.BuildFailed? || k.BuildPushed? || k.BuildSucceeded?
  }

  predicate IsValidDeployState(k: Kind) {
    || IsValidBuildState(k)
    || k.DeployCreated? || k.DeployPending? || k.DeployStarted? || k.DeployFailed?
    || k.DeployCanceled? || k.DeployTimeout? || k.DeployRollback? || k.DeploySucceeded?
  }

  predicate IsValidState(m: Mode, id: string, k: Kind) {
    if SkippedDeploy(m, id) then IsValidBuildState(k) else IsValidDeployState(k)
  }

  predicate IsBuildFinalState(p: Progress) {
    p.current == Some(BuildFailed) || p.current == Some(BuildSucceeded)
  }

  predicate IsDeployFinalState(p: Progress) {
    p.current in {Some(BuildFailed), Some(DeployFailed), Some(DeployCanceled), Some(DeployTimeout),
                  Some(DeployRollback), Some(DeploySucceeded)}
  }

  predicate IsFinalState(m: Mode, id: string, p: Progress) {
    if SkippedDeploy(m, id) then IsBuildFinalState(p) else IsDeployFinalState(p)
  }

  /** The activity belongs to a watched service, is valid for it and was not seen before. */
  predicate Accepts(m: Mode, st: States, a: Activity) {
    && a.serviceId.Some?
    && a.serviceId.value in st
    && IsValidState(m, a.serviceId.value, a.kind)
    && a.kind !in st[a.serviceId.value].visited
  }

  function Advance(p: Progress, k: Kind): Progress {
    Progress(Some(k), p.visited + {k})
  }

  function Step(m: Mode, st: States, a: Activity): States {
    if Accepts(m, st, a) then st[a.serviceId.value := Advance(st[a.serviceId.value], a.kind)] else st
  }

  /** What sync makes of the states. */
  function Sync(m: Mode, st: States, log: seq<Activity>): States {
    if log == [] then st else Step(m, Sync(m, st, log[..|log| - 1]), log[|log| - 1])
  }

  /** What sync prints in quiet mode: one line for each accepted activity. */
  function Printed(m: Mode, st: States, log: seq<Activity>): seq<(string, Kind)> {
    if log == [] then []
    else
      var (front, a) := (log[..|log| - 1], log[|log| - 1]);
      if Accepts(m, Sync(m, st, front), a) then Printed(m, st, front) + [(a.serviceId.value, a.kind)]
      else Printed(m, st, front)
  }

  lemma {:induction false} SyncKeepsServices(m: Mode, st: States, log: seq<Activity>)
    ensures Sync(m, st, log).Keys == st.Keys
  {
    if log == [] {
    } else {
      SyncKeepsServices(m, st, log[..|log| - 1]);
    }
  }

  lemma {:induction false} SyncConcat(m: Mode, st: States, a: seq<Activity>, b: seq<Activity>)
    ensures Sync(m, st, a + b) == Sync(m, Sync(m, st, a), b)
    ensures Printed(m, st, a + b) == Printed(m, st, a) + Printed(m, Sync(m, st, a), b)
  {
    if b == [] {
      assert a + b == a;
    } else {
      SyncConcat(m, st, a, b[..|b| - 1]);
      assert (a + b)[..|a + b| - 1] == a + b[..|b| - 1];
    }
  }

  // ----- One service on its own -----

  ghost predicate Concerns(a: Activity, id: string, k: Kind) {
    a.serviceId == Some(id) && a.kind == k
  }

  ghost predicate Fresh(m: Mode, id: string, p: Progress, k: Kind) {
    IsValidState(m, id, k) && k !in p.visited
  }

  /** The state of one service depends on its own progress and activities only. */
  function Follow(m: Mode, id: string, p: Progress, log: seq<Activity>): Progress {
    if log == [] then p
    else
      var q := Follow(m, id, p, log[..|log| - 1]);
      var a := log[|log| - 1];
      if a.serviceId == Some(id) && IsValidState(m, id, a.kind) && a.kind !in q.visited then Advance(q, a.kind) else q
  }

  lemma {:induction false} SyncFollows(m: Mode, st: States, log: seq<Activity>, id: string)
    requires id in st
    ensures id in Sync(m, st, log) && Sync(m, st, log)[id] == Follow(m, id, st[id], log)
  {
    if log == [] {
    } else {
      SyncFollows(m, st, log[..|log| - 1], id);
    }
  }

  /** Taking out the activities of the other services changes nothing for this one. */
  lemma {:induction false} FollowProjects(m: Mode, id: string, p: Progress, log: seq<Activity>)
    ensures Follow(m, id, p, log) == Follow(m, id, p, Filter(log, OfService(id)))
  {
    if log == [] {
    } else {
      FollowProjects(m, id, p, log[..|log| - 1]);
    }
  }

  function OfService(id: string): Activity -> bool {
    (a: Activity) => a.serviceId == Some(id)
  }

  /** The activity at i is the first of its kind for the service, and the service accepts the kind. */
  ghost predicate NewAt(m: Mode, id: string, p: Progress, log: seq<Activity>, i: int) {
    && 0 <= i < |log|
    && log[i].serviceId == Some(id)
    && Fresh(m, id, p, log[i].kind)
    && forall h :: 0 <= h < i ==> !Concerns(log[h], id, log[i].kind)
  }

  ghost predicate LastNewAt(m: Mode, id: string, p: Progress, log: seq<Activity>, i: int) {
    NewAt(m, id, p, log, i) && forall j :: i < j < |log| ==> !NewAt(m, id, p, log, j)
  }

  /** After any log, the visited kinds are exactly the old ones and the valid ones seen. */
  lemma {:induction false} VisitedIsWhatWasSeen(m: Mode, id: string, p: Progress, log: seq<Activity>, k: Kind)
    ensures k in Follow(m, id, p, log).visited <==>
            k in p.visited || (IsValidState(m, id, k) && exists i :: 0 <= i < |log| && Concerns(log[i], id, k))
  {
    if log == [] {
    } else {
      var front := log[..|log| - 1];
      VisitedIsWhatWasSeen(m, id, p, front, k);
      VisitedIsWhatWasSeen(m, id, p, front, log[|log| - 1].kind);
      forall i | 0 <= i < |front| ensures front[i] == log[i] {}
      if exists i :: 0 <= i < |log| && Concerns(log[i], id, k) {
        var i :| 0 <= i < |log| && Concerns(log[i], id, k);
        assert i < |front| ==> Concerns(front[i], id, k);
      }
    }
  }

  /** The last activity of a log moves the service exactly when it is the first of a new kind. */
  lemma LastStep(m: Mode, id: string, p: Progress, log: seq<Activity>)
    requires log != []
    ensures var (n, q) := (|log| - 1, Follow(m, id, p, log[..|log| - 1]));
            Follow(m, id, p, log) == if NewAt(m, id, p, log, n) then Advance(q, log[n].kind) else q
  {
    var n := |log| - 1;
    var front := log[..n];
    VisitedIsWhatWasSeen(m, id, p, front, log[n].kind);
    assert forall h :: 0 <= h < n ==> front[h] == log[h];
  }

  lemma NewInFront(m: Mode, id: string, p: Progress, log: seq<Activity>, i: int)
    requires log != [] && i < |log| - 1
    ensures NewAt(m, id, p, log[..|log| - 1], i) == NewAt(m, id, p, log, i)
  {}

  /** After any log without a new kind, the service is where it was. */
  lemma {:induction false} NothingNewChangesNothing(m: Mode, id: string, p: Progress, log: seq<Activity>)
    requires forall i :: 0 <= i < |log| ==> !NewAt(m, id, p, log, i)
    ensures Follow(m, id, p, log) == p
  {
    if log == [] {
    } else {
      var front := log[..|log| - 1];
      forall i | 0 <= i < |front| ensures !NewAt(m, id, p, front, i) {
        NewInFront(m, id, p, log, i);
      }
      NothingNewChangesNothing(m, id, p, front);
      LastStep(m, id, p, log);
    }
  }

  /** After any other log, current is the kind whose first occurrence came last. */
  lemma {:induction false} CurrentIsTheLastNewKind(m: Mode, id: string, p: Progress, log: seq<Activity>, i: nat)
    requires LastNewAt(m, id, p, log, i)
    ensures Follow(m, id, p, log).current == Some(log[i].kind)
  {
    LastStep(m, id, p, log);
    if i < |log| - 1 {
      var front := log[..|log| - 1];
      forall j | i <= j < |front| ensures NewAt(m, id, p, front, j) == NewAt(m, id, p, log, j) {
        NewInFront(m, id, p, log, j);
      }
      CurrentIsTheLastNewKind(m, id, p, front, i);
    }
  }

  lemma {:induction false} SomeNewHasALast(m: Mode, id: string, p: Progress, log: seq<Activity>, i: nat)
    returns (j: nat)
    requires NewAt(m, id, p, log, i)
    ensures i <= j && LastNewAt(m, id, p, log, j)
    decreases |log| - i
  {
    if exists h :: i < h < |log| && NewAt(m, id, p, log, h) {
      var h :| i < h < |log| && NewAt(m, id, p, log, h);
      j := SomeNewHasALast(m, id, p, log, h);
    } else {
      j := i;
    }
  }

  lemma {:induction false} FirstOfItsKind(m: Mode, id: string, p: Progress, log: seq<Activity>, i: nat) returns (j: nat)
    requires i < |log| && log[i].serviceId == Some(id) && Fresh(m, id, p, log[i].kind)
    ensures j <= i && NewAt(m, id, p, log, j) && log[j].kind == log[i].kind
    decreases i
  {
    if h :| 0 <= h < i && Concerns(log[h], id, log[i].kind) {
      j := FirstOfItsKind(m, id, p, log, h);
    } else {
      j := i;
    }
  }

  // ----- Delivery over several polls -----

  /** A list whose valid kinds were all visited has no effect. */
  lemma {:induction false} AbsorbedListIsIgnored(m: Mode, id: string, p: Progress, log: seq<Activity>)
    requires forall a :: a in log && a.serviceId == Some(id) && IsValidState(m, id, a.kind) ==> a.kind in p.visited
    ensures Follow(m, id, p, log) == p
  {
    if log == [] {
    } else {
      assert forall a :: a in log[..|log| - 1] ==> a in log;
      AbsorbedListIsIgnored(m, id, p, log[..|log| - 1]);
    }
  }

  lemma {:induction false} FollowConcat(m: Mode, id: string, p: Progress, a: seq<Activity>, b: seq<Activity>)
    ensures Follow(m, id, p, a + b) == Follow(m, id, Follow(m, id, p, a), b)
  {
    if b == [] {
      assert a + b == a;
    } else {
      FollowConcat(m, id, p, a, b[..|b| - 1]);
      assert (a + b)[..|a + b| - 1] == a + b[..|b| - 1];
    }
  }

  /** A poll that returns an extension of the list already processed leaves the states
      that processing the longer list at once would leave. With log == longer: sync is idempotent. */
  lemma ExtensionsRefineOneShot(m: Mode, st: States, log: seq<Activity>, longer: seq<Activity>)
    requires log <= longer
    ensures Sync(m, Sync(m, st, log), longer) == Sync(m, st, longer)
  {
    SyncKeepsServices(m, st, log);
    SyncKeepsServices(m, st, longer);
    SyncKeepsServices(m, Sync(m, st, log), longer);
    forall id | id in st ensures Sync(m, Sync(m, st, log), longer)[id] == Sync(m, st, longer)[id] {
      SyncFollows(m, st, log, id);
      SyncFollows(m, st, longer, id);
      SyncFollows(m, Sync(m, st, log), longer, id);
      var q := Follow(m, id, st[id], log);
      forall a | a in log && a.serviceId == Some(id) && IsValidState(m, id, a.kind) ensures a.kind in q.visited {
        VisitedIsWhatWasSeen(m, id, st[id], log, a.kind);
        var i :| 0 <= i < |log| && log[i] == a;
        assert Concerns(log[i], id, a.kind);
      }
      AbsorbedListIsIgnored(m, id, q, log);
      assert longer == log + longer[|log|..];
      FollowConcat(m, id, q, log, longer[|log|..]);
      FollowConcat(m, id, st[id], log, longer[|log|..]);
    }
  }

  /** Without the extension the two differ: a final state gives way to a late activity of a new kind. */
  lemma FinalStatesAreNotAbsorbing(id: string)
    ensures var (m, p) := (Mode(false, {}), Progress(None, {}));
            var (early, late) := (Activity(1, BuildStarted, Some(id)), Activity(2, DeploySucceeded, Some(id)));
            && IsFinalState(m, id, Follow(m, id, p, [late]))
            && !IsFinalState(m, id, Follow(m, id, Follow(m, id, p, [late]), [early, late]))
            && IsFinalState(m, id, Follow(m, id, p, [early, late]))
  {
    var (m, p) := (Mode(false, {}), Progress(None, {}));
    var (early, late) := (Activity(1, BuildStarted, Some(id)), Activity(2, DeploySucceeded, Some(id)));
    assert [late][..0] == [] && [early, late][..1] == [early] && [early][..0] == [];
    assert Follow(m, id, p, [late]) == Progress(Some(DeploySucceeded), {DeploySucceeded});
    assert Follow(m, id, p, [early]) == Progress(Some(BuildStarted), {BuildStarted});
    var q := Follow(m, id, p, [late]);
    assert Follow(m, id, q, [early]) == Progress(Some(BuildStarted), {BuildStarted, DeploySucceeded});
    assert Follow(m, id, q, [early, late]) == Follow(m, id, q, [early]);
  }

  predicate IsFinalKind(m: Mode, id: string, k: Kind) {
    IsFinalState(m, id, Progress(Some(k), {}))
  }

  /** Whatever the state, final or not, it is kept if and only if the log has no activity of a new kind
      for the service: the first such activity, of whichever kind, replaces it for good. */
  lemma StateIsKeptIff(m: Mode, id: string, p: Progress, log: seq<Activity>)
    requires p.current.Some? ==> p.current.value in p.visited
    ensures Follow(m, id, p, log).current == p.current <==>
            forall i :: 0 <= i < |log| && log[i].serviceId == Some(id) ==> !Fresh(m, id, p, log[i].kind)
  {
    if i :| 0 <= i < |log| && log[i].serviceId == Some(id) && Fresh(m, id, p, log[i].kind) {
      var first := FirstOfItsKind(m, id, p, log, i);
      var last := SomeNewHasALast(m, id, p, log, first);
      CurrentIsTheLastNewKind(m, id, p, log, last);
    } else {
      NothingNewChangesNothing(m, id, p, log);
    }
  }

  /** After a log the service is final if and only if the last new kind is final for it,
      or there is no new kind and it was final before. */
  lemma IsFinalAfterIff(m: Mode, id: string, p: Progress, log: seq<Activity>)
    ensures IsFinalState(m, id, Follow(m, id, p, log)) <==>
            || (exists i :: LastNewAt(m, id, p, log, i) && IsFinalKind(m, id, log[i].kind))
            || (IsFinalState(m, id, p) && forall i :: 0 <= i < |log| ==> !NewAt(m, id, p, log, i))
  {
    if i :| 0 <= i < |log| && NewAt(m, id, p, log, i) {
      var last := SomeNewHasALast(m, id, p, log, i);
      CurrentIsTheLastNewKind(m, id, p, log, last);
      assert forall j :: LastNewAt(m, id, p, log, j) ==> j == last;
    } else {
      NothingNewChangesNothing(m, id, p, log);
    }
  }

  // ----- What one run can print -----

  /** Whatever is delivered, each (service, kind) is printed at most once, and exactly when it was newly visited. */
  lemma {:induction false} PrintedOnce(m: Mode, st: States, log: seq<Activity>)
    ensures NoDuplicates(Printed(m, st, log))
    ensures forall id, k :: (id, k) in Printed(m, st, log) <==>
                            && id in st && id in Sync(m, st, log)
                            && k in Sync(m, st, log)[id].visited && k !in st[id].visited
    ensures forall id :: id in st ==> id in Sync(m, st, log) && st[id].visited <= Sync(m, st, log)[id].visited
  {
    if log == [] {
    } else {
      PrintedOnce(m, st, log[..|log| - 1]);
      SyncKeepsServices(m, st, log[..|log| - 1]);
      SyncKeepsServices(m, st, log);
    }
  }

  ghost predicate OnlyValid(m: Mode, st: States) {
    forall id :: id in st ==>
      && (forall k :: k in st[id].visited ==> IsValidState(m, id, k))
      && (st[id].current.Some? ==> st[id].current.value in st[id].visited)
  }

  /** current is always empty or a kind that is valid for its service, and was visited. */
  lemma {:induction false} SyncKeepsOnlyValid(m: Mode, st: States, log: seq<Activity>)
    requires OnlyValid(m, st)
    ensures OnlyValid(m, Sync(m, st, log))
  {
    if log == [] {
    } else {
      SyncKeepsOnlyValid(m, st, log[..|log| - 1]);
    }
  }

  function OfId(id: string): ((string, Kind)) -> bool {
    (e: (string, Kind)) => e.0 == id
  }

  lemma {:induction false} ChangesAreVisits(m: Mode, st: States, log: seq<Activity>, id: string)
    requires id in st
    ensures id in Sync(m, st, log)
    ensures |Filter(Printed(m, st, log), OfId(id))| == |Sync(m, st, log)[id].visited| - |st[id].visited|
  {
    SyncKeepsServices(m, st, log);
    if log == [] {
    } else {
      var front := log[..|log| - 1];
      ChangesAreVisits(m, st, front, id);
      if Accepts(m, Sync(m, st, front), log[|log| - 1]) {
        FilterSnoc(Printed(m, st, front), (log[|log| - 1].serviceId.value, log[|log| - 1].kind), OfId(id));
      }
    }
  }

  const BUILD_KINDS: set<Kind> := {BuildStarted, BuildFailed, BuildPushed, BuildSucceeded}
  const DEPLOY_KINDS: set<Kind> := {DeployCreated, DeployPending, DeployStarted, DeployFailed,
                                    DeployCanceled, DeployTimeout, DeployRollback, DeploySucceeded}

  /** With only-build, or after a build that skipped the deployment, the 4 kinds of a build are valid for a service;
      otherwise the 12 kinds of a deployment are. */
  lemma ValidKinds(m: Mode, id: string, k: Kind)
    ensures IsValidState(m, id, k) <==>
            if m.onlyBuild || id in m.buildOnly then k in BUILD_KINDS else k in BUILD_KINDS + DEPLOY_KINDS
  {}

  lemma ManyKinds()
    ensures |BUILD_KINDS| == 4
    ensures |BUILD_KINDS + DEPLOY_KINDS| == 12
  {
    assert |DEPLOY_KINDS| == 8;
    assert BUILD_KINDS !! DEPLOY_KINDS;
  }

  /** Over any run a service changes state at most 4 times when it is only built, and at most 12 times otherwise. */
  lemma ChangesAreBounded(m: Mode, st: States, log: seq<Activity>, id: string)
    requires id in st && OnlyValid(m, st)
    ensures |Filter(Printed(m, st, log), OfId(id))| <= if m.onlyBuild || id in m.buildOnly then 4 else 12
  {
    ChangesAreVisits(m, st, log, id);
    SyncKeepsOnlyValid(m, st, log);
    ManyKinds();
    var v := Sync(m, st, log)[id].visited;
    var kinds := if m.onlyBuild || id in m.buildOnly then BUILD_KINDS else BUILD_KINDS + DEPLOY_KINDS;
    forall k | k in v ensures k in kinds {
      ValidKinds(m, id, k);
    }
    SubsetSize(v, kinds);
  }

  lemma {:induction false} SubsetSize<T>(a: set<T>, b: set<T>)
    requires a <= b
    ensures |a| <= |b|
  {
    if a != {} {
      var x :| x in a;
      SubsetSize(a - {x}, b - {x});
    }
  }
}
