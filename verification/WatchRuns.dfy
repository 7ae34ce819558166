/** deployment/internal/feedback/feedback.go: whole runs of the polling loop, as values, and their outcome. */
module WatchRuns {
  import opened Sequences
  import opened Activities
  import opened DeployStates
  import opened RetryHeader

  /** One turn of the loop meets a cancelled context, a failed request, or a list of activities. */
  datatype Poll = Canceled | Failed(notFound: bool) | Response(log: seq<Activity>)

  datatype Verdict = Watching | Finished | Gone | Interrupted

  datatype WatchState = WatchState(states: States, header: string, verdict: Verdict)

  predicate AllFinal(m: Mode, st: States) {
    forall id :: id in st ==> IsFinalState(m, id, st[id])
  }

  function PollStep(m: Mode, w: WatchState, poll: Poll): WatchState {
    if w.verdict != Watching then w
    else
      match poll
      case Canceled => w.(verdict := Interrupted)
      case Failed(notFound) =>
        w.(header := UpdateCounter(w.header), verdict := if notFound then Gone else Watching)
      case Response(log) =>
        var st := Sync(m, w.states, StableSorted(log));
        WatchState(st,
                   if Contains(w.header, HINT) then ClearCounter(w.header) else w.header,
                   if AllFinal(m, st) then Finished else Watching)
  }

  function Run(m: Mode, w: WatchState, polls: seq<Poll>): WatchState {
    if polls == [] then w else PollStep(m, Run(m, w, polls[..|polls| - 1]), polls[|polls| - 1])
  }

  /** The run was still watching before each of its polls, so it made use of all of them. */
  ghost predicate UsesAll(m: Mode, w: WatchState, polls: seq<Poll>) {
    w.verdict == Watching && (polls != [] ==> Run(m, w, polls[..|polls| - 1]).verdict == Watching)
  }

  /** Once the loop has returned, further polls are not made. */
  lemma {:induction false} RunUsesAPrefix(m: Mode, w: WatchState, polls: seq<Poll>) returns (used: seq<Poll>)
    requires w.verdict == Watching
    ensures used <= polls && UsesAll(m, w, used) && Run(m, w, used) == Run(m, w, polls)
  {
    if polls == [] || Run(m, w, polls[..|polls| - 1]).verdict == Watching {
      used := polls;
    } else {
      used := RunUsesAPrefix(m, w, polls[..|polls| - 1]);
    }
  }

  /** The poll that goes after the polls before it does not end the watch. */
  ghost predicate GoesOn(m: Mode, w: WatchState, before: seq<Poll>, poll: Poll) {
    && poll != Canceled && poll != Failed(true)
    && (poll.Response? ==> !AllFinal(m, Run(m, w, before + [poll]).states))
  }

  /** The watch goes on until the context is canceled, the project is not found,
      or a response leaves every service final; and then it ends at once. */
  lemma {:induction false} WatchesUntilFinal(m: Mode, w: WatchState, polls: seq<Poll>)
    requires w.verdict == Watching
    ensures Run(m, w, polls).verdict == Watching <==>
            forall k :: 0 <= k < |polls| ==> GoesOn(m, w, polls[..k], polls[k])
  {
    if polls == [] {
    } else {
      var n := |polls| - 1;
      var front := polls[..n];
      WatchesUntilFinal(m, w, front);
      assert front + [polls[n]] == polls;
      forall k | 0 <= k < n ensures GoesOn(m, w, polls[..k], polls[k]) == GoesOn(m, w, front[..k], front[k]) {
        assert front[..k] == polls[..k];
      }
      if Run(m, w, front).verdict == Watching {
        assert Run(m, w, polls).verdict == Watching <==> GoesOn(m, w, polls[..n], polls[n]);
      }
    }
  }

  /** The kinds at which a service that is only built, or one that is deployed, is through. */
  ghost predicate IsThrough(onlyBuilt: bool, current: Option<Kind>) {
    if onlyBuilt then current == Some(BuildFailed) || current == Some(BuildSucceeded)
    else
      || current == Some(BuildFailed) || current == Some(DeployFailed) || current == Some(DeployCanceled)
      || current == Some(DeployTimeout) || current == Some(DeployRollback) || current == Some(DeploySucceeded)
  }

  /** The loop makes the poll at i. */
  ghost predicate Makes(m: Mode, w: WatchState, polls: seq<Poll>, i: int) {
    0 <= i < |polls| && Run(m, w, polls[..i]).verdict == Watching
  }

  /** The poll at i is a response that leaves every service through. */
  ghost predicate Completes(m: Mode, w: WatchState, polls: seq<Poll>, i: int) {
    && Makes(m, w, polls, i) && polls[i].Response?
    && var st := Run(m, w, polls[..i + 1]).states;
       forall id :: id in st ==> IsThrough(m.onlyBuild || id in m.buildOnly, st[id].current)
  }

  lemma AllFinalIs(m: Mode, st: States)
    ensures AllFinal(m, st) <==>
            forall id :: id in st ==> IsThrough(m.onlyBuild || id in m.buildOnly, st[id].current)
  {}

  /** What a poll that is made does to the watch. */
  lemma PollVerdict(m: Mode, w: WatchState, polls: seq<Poll>, i: nat)
    requires Makes(m, w, polls, i)
    ensures var verdict := Run(m, w, polls[..i + 1]).verdict;
            && (verdict == Interrupted <==> polls[i].Canceled?)
            && (verdict == Gone <==> polls[i] == Failed(true))
            && (verdict == Finished <==> Completes(m, w, polls, i))
  {
    OnePollMore(m, w, polls, i);
    var before := Run(m, w, polls[..i]);
    if polls[i].Response? {
      AllFinalIs(m, PollStep(m, before, polls[i]).states);
      ResponseVerdict(m, before, polls[i]);
    }
  }

  lemma ResponseVerdict(m: Mode, w: WatchState, poll: Poll)
    requires w.verdict == Watching && poll.Response?
    ensures var after := PollStep(m, w, poll);
            after.verdict == if AllFinal(m, after.states) then Finished else Watching
  {}

  /** A verdict is kept. */
  lemma {:induction false} VerdictStays(m: Mode, w: WatchState, polls: seq<Poll>, i: nat)
    requires i <= |polls| && Run(m, w, polls[..i]).verdict != Watching
    ensures Run(m, w, polls) == Run(m, w, polls[..i])
  {
    if i == |polls| {
      assert polls[..i] == polls;
    } else {
      var front := polls[..|polls| - 1];
      assert front[..i] == polls[..i];
      VerdictStays(m, w, front, i);
    }
  }

  /** A watch that has ended did so with a poll that it made. */
  lemma {:induction false} EndsWithAPoll(m: Mode, w: WatchState, polls: seq<Poll>) returns (i: nat)
    requires w.verdict == Watching && Run(m, w, polls).verdict != Watching
    ensures Makes(m, w, polls, i) && Run(m, w, polls[..i + 1]) == Run(m, w, polls)
  {
    var front, n := polls[..|polls| - 1], |polls| - 1;
    if Run(m, w, front).verdict == Watching {
      i := n;
      assert polls[..n + 1] == polls;
    } else {
      i := EndsWithAPoll(m, w, front);
      assert front[..i] == polls[..i] && front[..i + 1] == polls[..i + 1];
    }
  }

  lemma PollEndsWatch(m: Mode, w: WatchState, polls: seq<Poll>, i: nat)
    requires Makes(m, w, polls, i)
    ensures polls[i].Canceled? ==> Run(m, w, polls).verdict == Interrupted
    ensures polls[i] == Failed(true) ==> Run(m, w, polls).verdict == Gone
    ensures Completes(m, w, polls, i) ==> Run(m, w, polls).verdict == Finished
  {
    PollVerdict(m, w, polls, i);
    if Run(m, w, polls[..i + 1]).verdict != Watching {
      VerdictStays(m, w, polls, i + 1);
    }
  }

  /** The watch is interrupted, ends without the project, or finishes exactly when a poll that the loop makes is
      canceled, is told that the project is gone, or is a response that leaves every service through. */
  lemma VerdictsAre(m: Mode, w: WatchState, polls: seq<Poll>)
    requires w.verdict == Watching
    ensures Run(m, w, polls).verdict == Interrupted <==> exists i :: Makes(m, w, polls, i) && polls[i].Canceled?
    ensures Run(m, w, polls).verdict == Gone <==> exists i :: Makes(m, w, polls, i) && polls[i] == Failed(true)
    ensures Run(m, w, polls).verdict == Finished <==> exists i :: Completes(m, w, polls, i)
  {
    forall i: nat | Makes(m, w, polls, i)
      ensures polls[i].Canceled? ==> Run(m, w, polls).verdict == Interrupted
      ensures polls[i] == Failed(true) ==> Run(m, w, polls).verdict == Gone
      ensures Completes(m, w, polls, i) ==> Run(m, w, polls).verdict == Finished
    {
      PollEndsWatch(m, w, polls, i);
    }
    if Run(m, w, polls).verdict != Watching {
      var i := EndsWithAPoll(m, w, polls);
      PollVerdict(m, w, polls, i);
    }
  }

  // ----- The header -----

  function TrailingFailures(polls: seq<Poll>): nat {
    if polls == [] then 0
    else
      match polls[|polls| - 1]
      case Failed(_) => TrailingFailures(polls[..|polls| - 1]) + 1
      case Canceled => TrailingFailures(polls[..|polls| - 1])
      case Response(_) => 0
  }

  /** The longest stretch of failures so far. */
  function LongestStretch(polls: seq<Poll>): nat {
    if polls == [] then 0
    else
      var before := LongestStretch(polls[..|polls| - 1]);
      if TrailingFailures(polls) > before then TrailingFailures(polls) else before
  }

  /** Over any run, however long, the header is the base after a success, and the base with the marker #k
      after k failures in a row. */
  lemma {:induction false} HeaderCountsFailures(m: Mode, w: WatchState, polls: seq<Poll>)
    requires UsesAll(m, w, polls) && LongestStretch(polls) <= MAX_INT && !HasMarker(w.header)
    ensures Run(m, w, polls).header == Header(w.header, TrailingFailures(polls))
  {
    if polls == [] {
    } else {
      var front := polls[..|polls| - 1];
      HeaderCountsFailures(m, w, front);
      var k := TrailingFailures(front);
      match polls[|polls| - 1] {
        case Failed(_) => UpdateCountsFailures(w.header, k);
        case Canceled =>
        case Response(_) =>
          ClearUndoesFailures(w.header, k);
          if k > 0 {
            CounterIsSeen(w.header, k);
          }
      }
    }
  }

  // ----- The states -----

  /** The sorted list of the last successful poll. */
  function LastList(polls: seq<Poll>): Option<seq<Activity>> {
    if polls == [] then None
    else
      match polls[|polls| - 1]
      case Response(log) => Some(StableSorted(log))
      case _ => LastList(polls[..|polls| - 1])
  }

  /** Each sorted list extends the one before. */
  ghost predicate Growing(polls: seq<Poll>) {
    polls != [] ==>
      var (front, last) := (polls[..|polls| - 1], polls[|polls| - 1]);
      && Growing(front)
      && (last.Response? && LastList(front).Some? ==> LastList(front).value <= StableSorted(last.log))
  }

  /** While the log only grows, polling leaves the states that one sync of the last list would leave. */
  lemma {:induction false} PollingRefinesOneShot(m: Mode, w: WatchState, polls: seq<Poll>)
    requires UsesAll(m, w, polls) && Growing(polls)
    ensures Run(m, w, polls).states ==
            match LastList(polls) case None => w.states case Some(log) => Sync(m, w.states, log)
  {
    if polls == [] {
    } else {
      var (front, last) := (polls[..|polls| - 1], polls[|polls| - 1]);
      PollingRefinesOneShot(m, w, front);
      if last.Response? && LastList(front).Some? {
        ExtensionsRefineOneShot(m, w.states, LastList(front).value, StableSorted(last.log));
      }
    }
  }

  /** Everything the run delivered to sync, in that order. */
  function Delivered(polls: seq<Poll>): seq<Activity> {
    if polls == [] then []
    else
      match polls[|polls| - 1]
      case Response(log) => Delivered(polls[..|polls| - 1]) + StableSorted(log)
      case _ => Delivered(polls[..|polls| - 1])
  }

  /** Growing or not, a run is one sync of all that was delivered. */
  lemma {:induction false} RunIsOneSync(m: Mode, w: WatchState, polls: seq<Poll>)
    requires UsesAll(m, w, polls)
    ensures Run(m, w, polls).states == Sync(m, w.states, Delivered(polls))
  {
    if polls == [] {
    } else {
      var (front, last) := (polls[..|polls| - 1], polls[|polls| - 1]);
      RunIsOneSync(m, w, front);
      if last.Response? {
        SyncConcat(m, w.states, Delivered(front), StableSorted(last.log));
      }
    }
  }

  /** The last kind that is new to the service in one log is also the last in the other. */
  ghost predicate SameLastKind(m: Mode, id: string, p: Progress, a: seq<Activity>, b: seq<Activity>) {
    || ((forall i :: 0 <= i < |a| ==> !NewAt(m, id, p, a, i)) && forall j :: 0 <= j < |b| ==> !NewAt(m, id, p, b, j))
    || exists i, j :: LastNewAt(m, id, p, a, i) && LastNewAt(m, id, p, b, j) && a[i].kind == b[j].kind
  }

  lemma SameFollow(m: Mode, id: string, p: Progress, a: seq<Activity>, b: seq<Activity>)
    requires p.current.Some? ==> p.current.value in p.visited
    requires forall x :: x in a <==> x in b
    ensures Follow(m, id, p, a).visited == Follow(m, id, p, b).visited
    ensures Follow(m, id, p, a).current == Follow(m, id, p, b).current <==> SameLastKind(m, id, p, a, b)
  {
    forall k ensures k in Follow(m, id, p, a).visited <==> k in Follow(m, id, p, b).visited {
      VisitedIsWhatWasSeen(m, id, p, a, k);
      VisitedIsWhatWasSeen(m, id, p, b, k);
      SeenInBoth(id, a, b, k);
      SeenInBoth(id, b, a, k);
    }
    if i :| 0 <= i < |a| && NewAt(m, id, p, a, i) {
      NewInBoth(m, id, p, a, b, i);
    } else if j :| 0 <= j < |b| && NewAt(m, id, p, b, j) {
      NewInBoth(m, id, p, b, a, j);
    } else {
      NothingNewChangesNothing(m, id, p, a);
      NothingNewChangesNothing(m, id, p, b);
    }
  }

  lemma SeenInBoth(id: string, a: seq<Activity>, b: seq<Activity>, k: Kind)
    requires forall x :: x in a <==> x in b
    ensures (exists i :: 0 <= i < |a| && Concerns(a[i], id, k)) ==> exists j :: 0 <= j < |b| && Concerns(b[j], id, k)
  {
    if i :| 0 <= i < |a| && Concerns(a[i], id, k) {
      assert a[i] in b;
      var j :| 0 <= j < |b| && b[j] == a[i];
      assert Concerns(b[j], id, k);
    }
  }

  lemma NewInBoth(m: Mode, id: string, p: Progress, a: seq<Activity>, b: seq<Activity>, i: nat)
    requires forall x :: x in a <==> x in b
    requires NewAt(m, id, p, a, i)
    ensures Follow(m, id, p, a).current == Follow(m, id, p, b).current <==> SameLastKind(m, id, p, a, b)
    ensures Follow(m, id, p, a).current == Follow(m, id, p, b).current <==> SameLastKind(m, id, p, b, a)
  {
    var la := SomeNewHasALast(m, id, p, a, i);
    CurrentIsTheLastNewKind(m, id, p, a, la);
    assert a[i] in b;
    var j :| 0 <= j < |b| && b[j] == a[i];
    var first := FirstOfItsKind(m, id, p, b, j);
    var lb := SomeNewHasALast(m, id, p, b, first);
    CurrentIsTheLastNewKind(m, id, p, b, lb);
    assert forall x :: LastNewAt(m, id, p, a, x) ==> x == la;
    assert forall x :: LastNewAt(m, id, p, b, x) ==> x == lb;
  }

  /** When the polls deliver nothing but the activities of a list, in whatever order and however often,
      each service has visited what it would visit in one sync of that list, and it is at the same kind
      if and only if the kind new to it whose first occurrence came last is the same in both. */
  lemma PollingInAnyOrder(m: Mode, w: WatchState, polls: seq<Poll>, log: seq<Activity>, id: string)
    requires UsesAll(m, w, polls) && OnlyValid(m, w.states) && id in w.states
    requires forall a :: a in Delivered(polls) <==> a in log
    ensures id in Run(m, w, polls).states && id in Sync(m, w.states, log)
    ensures var (p, q) := (Run(m, w, polls).states[id], Sync(m, w.states, log)[id]);
            && p.visited == q.visited
            && (p.current == q.current <==> SameLastKind(m, id, w.states[id], Delivered(polls), log))
  {
    RunIsOneSync(m, w, polls);
    SyncFollows(m, w.states, Delivered(polls), id);
    SyncFollows(m, w.states, log, id);
    SameFollow(m, id, w.states[id], Delivered(polls), log);
  }

  /** The lines that a run prints in quiet mode. */
  function PrintedBy(m: Mode, w: WatchState, polls: seq<Poll>): seq<(string, Kind)> {
    if polls == [] then []
    else
      var front := polls[..|polls| - 1];
      PrintedBy(m, w, front) + PrintedByPoll(m, Run(m, w, front), polls[|polls| - 1])
  }

  function PrintedByPoll(m: Mode, w: WatchState, poll: Poll): seq<(string, Kind)> {
    if w.verdict == Watching && poll.Response? then Printed(m, w.states, StableSorted(poll.log)) else []
  }

  lemma OnePollMore(m: Mode, w: WatchState, polls: seq<Poll>, i: nat)
    requires i < |polls|
    ensures Run(m, w, polls[..i + 1]) == PollStep(m, Run(m, w, polls[..i]), polls[i])
    ensures PrintedBy(m, w, polls[..i + 1]) ==
            PrintedBy(m, w, polls[..i]) + PrintedByPoll(m, Run(m, w, polls[..i]), polls[i])
  {
    assert polls[..i + 1][..i] == polls[..i];
  }

  /** A run prints what one sync of all that was delivered prints: each service and kind at most once. */
  lemma {:induction false} RunPrintsOnce(m: Mode, w: WatchState, polls: seq<Poll>)
    requires UsesAll(m, w, polls)
    ensures PrintedBy(m, w, polls) == Printed(m, w.states, Delivered(polls))
    ensures NoDuplicates(PrintedBy(m, w, polls))
  {
    PrintedOnce(m, w.states, Delivered(polls));
    if polls == [] {
    } else {
      var (front, last) := (polls[..|polls| - 1], polls[|polls| - 1]);
      RunPrintsOnce(m, w, front);
      RunIsOneSync(m, w, front);
      if last.Response? {
        SyncConcat(m, w.states, Delivered(front), StableSorted(last.log));
      }
    }
  }

  // ----- The outcome -----

  datatype Final = Final(
    buildFailed: seq<string>,
    deployFailed: seq<string>,
    deployCanceled: seq<string>,
    deployTimeout: seq<string>,
    deployRollback: seq<string>)

  /** The list has the services at kind k, each once, in whatever order the map was walked. */
  ghost predicate Lists(s: seq<string>, st: States, k: Kind) {
    NoDuplicates(s) && forall id :: id in s <==> id in st && st[id].current == Some(k)
  }

  ghost predicate Classifies(f: Final, st: States) {
    && Lists(f.buildFailed, st, BuildFailed)
    && Lists(f.deployFailed, st, DeployFailed)
    && Lists(f.deployCanceled, st, DeployCanceled)
    && Lists(f.deployTimeout, st, DeployTimeout)
    && Lists(f.deployRollback, st, DeployRollback)
  }

  lemma ListsOneMore(s: seq<string>, st: States, id: string, p: Progress, k: Kind)
    requires Lists(s, st, k) && id !in st
    ensures Lists(if p.current == Some(k) then s + [id] else s, st[id := p], k)
  {}

  lemma ClassifyOne(f: Final, st: States, id: string, p: Progress)
    requires Classifies(f, st) && id !in st
    ensures Lists(if p.current == Some(BuildFailed) then f.buildFailed + [id] else f.buildFailed,
                  st[id := p], BuildFailed)
    ensures Lists(if p.current == Some(DeployFailed) then f.deployFailed + [id] else f.deployFailed,
                  st[id := p], DeployFailed)
    ensures Lists(if p.current == Some(DeployCanceled) then f.deployCanceled + [id] else f.deployCanceled,
                  st[id := p], DeployCanceled)
    ensures Lists(if p.current == Some(DeployTimeout) then f.deployTimeout + [id] else f.deployTimeout,
                  st[id := p], DeployTimeout)
    ensures Lists(if p.current == Some(DeployRollback) then f.deployRollback + [id] else f.deployRollback,
                  st[id := p], DeployRollback)
  {
    ListsOneMore(f.buildFailed, st, id, p, BuildFailed);
    ListsOneMore(f.deployFailed, st, id, p, DeployFailed);
    ListsOneMore(f.deployCanceled, st, id, p, DeployCanceled);
    ListsOneMore(f.deployTimeout, st, id, p, DeployTimeout);
    ListsOneMore(f.deployRollback, st, id, p, DeployRollback);
  }

  function AllFailures(f: Final): seq<string> {
    f.buildFailed + f.deployFailed + f.deployCanceled + f.deployTimeout + f.deployRollback
  }

  /** A build-only service succeeds when its build does, any other one when its deployment does. */
  ghost predicate ReachedSuccess(onlyBuilt: bool, current: Option<Kind>) {
    current == Some(if onlyBuilt then BuildSucceeded else DeploySucceeded)
  }

  /** The services that did not reach their own success. */
  ghost predicate IsShort(m: Mode, st: States, id: string) {
    id in st && !ReachedSuccess(m.onlyBuild || id in m.buildOnly, st[id].current)
  }

  /** When a run ends without error, each service that did not reach its own success is in one failure list,
      once, and no other service is; so the result is nil iff all of them succeeded. */
  lemma OutcomeIsExact(m: Mode, w: WatchState, polls: seq<Poll>, f: Final)
    requires w.verdict == Watching && OnlyValid(m, w.states)
    requires Run(m, w, polls).verdict == Finished && Classifies(f, Run(m, w, polls).states)
    ensures Run(m, w, polls).states.Keys == w.states.Keys
    ensures NoDuplicates(AllFailures(f))
    ensures var st := Run(m, w, polls).states;
            && (forall id :: id in AllFailures(f) <==> IsShort(m, st, id))
            && (AllFailures(f) == [] <==> forall id :: id in st ==> !IsShort(m, st, id))
  {
    var st := Run(m, w, polls).states;
    var used := RunUsesAPrefix(m, w, polls);
    RunIsOneSync(m, w, used);
    SyncKeepsOnlyValid(m, w.states, Delivered(used));
    SyncKeepsServices(m, w.states, Delivered(used));
    assert AllFinal(m, st);
    forall id ensures id in AllFailures(f) <==> IsShort(m, st, id) {
      InSomeList(f, id);
      if id in st {
        FinalIsSuccessOrFailure(m, id, st[id]);
      }
    }
    if AllFailures(f) != [] {
      assert AllFailures(f)[0] in AllFailures(f);
    }
    ConcatDistinct(f.buildFailed, f.deployFailed);
    ConcatDistinct(f.buildFailed + f.deployFailed, f.deployCanceled);
    ConcatDistinct(f.buildFailed + f.deployFailed + f.deployCanceled, f.deployTimeout);
    ConcatDistinct(f.buildFailed + f.deployFailed + f.deployCanceled + f.deployTimeout, f.deployRollback);
  }

  lemma InSomeList(f: Final, id: string)
    ensures id in AllFailures(f) <==>
            || id in f.buildFailed || id in f.deployFailed || id in f.deployCanceled
            || id in f.deployTimeout || id in f.deployRollback
  {}

  lemma FinalIsSuccessOrFailure(m: Mode, id: string, p: Progress)
    requires IsFinalState(m, id, p) && (p.current.Some? ==> IsValidState(m, id, p.current.value))
    ensures !ReachedSuccess(m.onlyBuild || id in m.buildOnly, p.current) <==>
            p.current in {Some(BuildFailed), Some(DeployFailed), Some(DeployCanceled),
                          Some(DeployTimeout), Some(DeployRollback)}
  {}
}
